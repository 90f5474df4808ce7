/** `generate_mdt_lua_string` (wcl_to_mdt.py:241-261): the pulls rendered as the
    keyed-table text the dungeon planner imports, on one line. */
module Encoder {
  import opened Wrappers
  import opened Decimal

  type NewlineFree = s: string | '\n' !in s witness ""

  /** The fixed framing at the head of the import string (line 253, up to and
      including the '-' in front of the table's opening brace). It is a constant of
      the planner's import format; the model leaves its characters uninterpreted and
      knows only that it is a single line. */
  const Header: NewlineFree

  // The lines of the Lua template of lines 253-260, without their line breaks.
  const PullsKey: NewlineFree := "  [\"pulls\"] = { "
  const PullsEnd: NewlineFree := " },"
  const DungeonKey: NewlineFree := "  [\"dungeon\"] = "
  const WeekLine: NewlineFree := "  [\"week\"] = 1,"
  const VersionLine: NewlineFree := "  [\"version\"] = 2,"
  const NameLine: NewlineFree := "  [\"name\"] = \"Imported from WCL\""

  // The pieces of one pull entry (line 251) and of one NPC entry (line 249).
  const NpcOpen: NewlineFree := "{[\"id\"]="
  const NpcClose: NewlineFree := "}"
  const IndexClose: NewlineFree := "]={[\"npcs\"]={ "
  const NpcsEnd: NewlineFree := " } }"

  /** `text.replace('\n', '')` (line 261). */
  function StripNewlines(s: string): (r: string)
    ensures '\n' !in r
    ensures |r| <= |s|
  {
    if s == [] then [] else (if s[0] == '\n' then [] else [s[0]]) + StripNewlines(s[1..])
  }

  lemma Assoc(a: string, b: string, c: string)
    ensures a + b + c == a + (b + c)
  {
  }

  lemma {:induction false} StripNewlinesConcat(a: string, b: string)
    ensures StripNewlines(a + b) == StripNewlines(a) + StripNewlines(b)
    decreases |a|
  {
    if a == [] {
      assert a + b == b;
    } else {
      var head := if a[0] == '\n' then [] else [a[0]];
      assert (a + b)[0] == a[0];
      assert (a + b)[1..] == a[1..] + b;
      StripNewlinesConcat(a[1..], b);
      assert StripNewlines(a + b) == head + (StripNewlines(a[1..]) + StripNewlines(b));
      Assoc(head, StripNewlines(a[1..]), StripNewlines(b));
    }
  }

  /** Stripping leaves a single line as it is. */
  lemma {:induction false} StripNewlinesOfLine(a: string)
    requires '\n' !in a
    ensures StripNewlines(a) == a
    decreases |a|
  {
    if a != [] {
      StripNewlinesOfLine(a[1..]);
      assert a == [a[0]] + a[1..];
    }
  }

  lemma StripAppendLine(a: string, line: string)
    requires '\n' !in line
    ensures StripNewlines(a + line) == StripNewlines(a) + line
  {
    StripNewlinesConcat(a, line);
    StripNewlinesOfLine(line);
  }

  lemma StripAppendBreak(a: string)
    ensures StripNewlines(a + "\n") == StripNewlines(a)
  {
    StripNewlinesConcat(a, "\n");
  }

  /** `sep.join(parts)`. */
  function Join(sep: string, parts: seq<string>): string {
    if parts == [] then "" else if |parts| == 1 then parts[0] else parts[0] + sep + Join(sep, parts[1..])
  }

  lemma {:induction false} JoinOfLines(sep: string, parts: seq<string>)
    requires '\n' !in sep
    requires forall k :: 0 <= k < |parts| ==> '\n' !in parts[k]
    ensures '\n' !in Join(sep, parts)
    decreases |parts|
  {
    if |parts| > 1 {
      JoinOfLines(sep, parts[1..]);
    }
  }

  /** `{["id"]=N}` (line 249). */
  function NpcEntry(id: int): string {
    NpcOpen + IntToString(id) + NpcClose
  }

  /** One entry per NPC id, in order. */
  function NpcEntries(npcs: seq<int>): (r: seq<string>)
    ensures |r| == |npcs|
  {
    if npcs == [] then [] else [NpcEntry(npcs[0])] + NpcEntries(npcs[1..])
  }

  /** `[i]={["npcs"]={ ... } }` (line 251). */
  function PullEntry(index: int, npcs: seq<int>): string {
    "[" + IntToString(index) + IndexClose + Join(",", NpcEntries(npcs)) + NpcsEnd
  }

  /** The entries of `pulls`, numbered from `first` on. */
  function PullEntries(pulls: seq<seq<int>>, first: int): (r: seq<string>)
    ensures |r| == |pulls|
  {
    if pulls == [] then [] else [PullEntry(first, pulls[0])] + PullEntries(pulls[1..], first + 1)
  }

  /** `dungeon_id or 0` (line 255): a missing or zero dungeon id is written as 0. */
  function DungeonValue(dungeonId: Option<int>): (v: int)
    ensures v != 0 <==> dungeonId.Some? && dungeonId.value != 0
    ensures v != 0 ==> dungeonId == Some(v)
  {
    if dungeonId.Some? && dungeonId.value != 0 then dungeonId.value else 0
  }

  /** The f-string of lines 253-260, line breaks included, given the joined pull
      entries and the dungeon number's text. */
  function LuaTemplate(pullList: string, dungeon: string): string {
    Header + TemplateTable(pullList, dungeon)
  }

  /** The template after the framing: the Lua table, one key per line. */
  function TemplateTable(pullList: string, dungeon: string): string {
    "{" + "\n" +
    PullsKey + pullList + PullsEnd + "\n" +
    DungeonKey + dungeon + "," + "\n" +
    WeekLine + "\n" +
    VersionLine + "\n" +
    NameLine + "\n" +
    "}" + "\n"
  }

  /** The same table with its line breaks removed. */
  function TableText(pullList: string, dungeon: string): string {
    "{" + PullsKey + pullList + PullsEnd + DungeonKey + dungeon + "," + WeekLine + VersionLine + NameLine + "}"
  }

  /** The import string as one line. */
  function MdtString(pulls: seq<seq<int>>, dungeonId: Option<int>): string {
    Header + TableText(Join(",", PullEntries(pulls, 1)), IntToString(DungeonValue(dungeonId)))
  }

  lemma {:induction false} NpcEntriesAreLines(npcs: seq<int>)
    ensures forall k :: 0 <= k < |npcs| ==> '\n' !in NpcEntries(npcs)[k]
    decreases |npcs|
  {
    if npcs != [] {
      NpcEntriesAreLines(npcs[1..]);
      IntToStringShape(npcs[0]);
      assert NpcEntries(npcs) == [NpcEntry(npcs[0])] + NpcEntries(npcs[1..]);
    }
  }

  lemma {:induction false} PullEntriesAreSingleLines(pulls: seq<seq<int>>, first: int)
    ensures forall k :: 0 <= k < |pulls| ==> '\n' !in PullEntries(pulls, first)[k]
    decreases |pulls|
  {
    if pulls != [] {
      PullEntriesAreSingleLines(pulls[1..], first + 1);
      IntToStringShape(first);
      NpcEntriesAreLines(pulls[0]);
      JoinOfLines(",", NpcEntries(pulls[0]));
      assert PullEntries(pulls, first) == [PullEntry(first, pulls[0])] + PullEntries(pulls[1..], first + 1);
    }
  }

  lemma PullEntriesAreLines(pulls: seq<seq<int>>, first: int)
    ensures '\n' !in Join(",", PullEntries(pulls, first))
  {
    PullEntriesAreSingleLines(pulls, first);
    JoinOfLines(",", PullEntries(pulls, first));
  }

  /** Stripping the table's line breaks leaves its lines run together. */
  lemma StripTable(pullList: string, dungeon: string)
    requires '\n' !in pullList && '\n' !in dungeon
    ensures StripNewlines(TemplateTable(pullList, dungeon)) == TableText(pullList, dungeon)
  {
    // One piece at a time, in the template's own left-to-right order.
    var t0 := "{";
    StripNewlinesOfLine(t0);
    StripAppendBreak(t0);
    StripAppendLine(t0 + "\n", PullsKey);
    var t1 := t0 + "\n" + PullsKey;
    StripAppendLine(t1, pullList);
    StripAppendLine(t1 + pullList, PullsEnd);
    var t2 := t1 + pullList + PullsEnd;
    StripAppendBreak(t2);
    StripAppendLine(t2 + "\n", DungeonKey);
    var t3 := t2 + "\n" + DungeonKey;
    StripAppendLine(t3, dungeon);
    StripAppendLine(t3 + dungeon, ",");
    var t4 := t3 + dungeon + ",";
    StripAppendBreak(t4);
    StripAppendLine(t4 + "\n", WeekLine);
    var t5 := t4 + "\n" + WeekLine;
    StripAppendBreak(t5);
    StripAppendLine(t5 + "\n", VersionLine);
    var t6 := t5 + "\n" + VersionLine;
    StripAppendBreak(t6);
    StripAppendLine(t6 + "\n", NameLine);
    var t7 := t6 + "\n" + NameLine;
    StripAppendBreak(t7);
    StripAppendLine(t7 + "\n", "}");
    var t8 := t7 + "\n" + "}";
    StripAppendBreak(t8);
  }

  /** Stripping the whole template gives the one-line import string. */
  lemma StripTemplate(pullList: string, dungeon: string)
    requires '\n' !in pullList && '\n' !in dungeon
    ensures StripNewlines(LuaTemplate(pullList, dungeon)) == Header + TableText(pullList, dungeon)
  {
    StripNewlinesConcat(Header, TemplateTable(pullList, dungeon));
    StripNewlinesOfLine(Header);
    StripTable(pullList, dungeon);
  }

  /** The template, filled in as lines 244-252 fill it and with its line breaks
      removed, is the import string, which begins with the framing. */
  lemma StripToMdtString(pulls: seq<seq<int>>, dungeonId: Option<int>)
    ensures StripNewlines(LuaTemplate(Join(",", PullEntries(pulls, 1)), IntToString(DungeonValue(dungeonId))))
      == MdtString(pulls, dungeonId)
    ensures |Header| <= |MdtString(pulls, dungeonId)|
    ensures MdtString(pulls, dungeonId)[..|Header|] == Header
  {
    var pullList := Join(",", PullEntries(pulls, 1));
    var dungeon := IntToString(DungeonValue(dungeonId));
    PullEntriesAreLines(pulls, 1);
    IntToStringShape(DungeonValue(dungeonId));
    StripTemplate(pullList, dungeon);
    assert (Header + TableText(pullList, dungeon))[..|Header|] == Header;
  }

  /** One more NPC id adds its entry at the end. */
  lemma {:induction false} NpcEntriesSnoc(npcs: seq<int>, id: int)
    ensures NpcEntries(npcs + [id]) == NpcEntries(npcs) + [NpcEntry(id)]
    decreases |npcs|
  {
    if npcs != [] {
      assert (npcs + [id])[1..] == npcs[1..] + [id];
      NpcEntriesSnoc(npcs[1..], id);
    } else {
      NpcEntriesSingle(npcs, id);
    }
  }

  lemma NpcEntriesSingle(npcs: seq<int>, id: int)
    requires npcs == []
    ensures NpcEntries(npcs + [id]) == NpcEntries(npcs) + [NpcEntry(id)]
  {
    assert npcs + [id] == [id];
  }

  /** One more pull adds its entry, numbered `last`, after the others. */
  lemma {:induction false} PullEntriesSnoc(pulls: seq<seq<int>>, npcs: seq<int>, first: int, last: int)
    requires last == first + |pulls|
    ensures PullEntries(pulls + [npcs], first) == PullEntries(pulls, first) + [PullEntry(last, npcs)]
    decreases |pulls|
  {
    if pulls != [] {
      assert (pulls + [npcs])[0] == pulls[0];
      assert (pulls + [npcs])[1..] == pulls[1..] + [npcs];
      PullEntriesSnoc(pulls[1..], npcs, first + 1, last);
    } else {
      PullEntriesSingle(pulls, npcs, first, last);
    }
  }

  lemma PullEntriesSingle(pulls: seq<seq<int>>, npcs: seq<int>, first: int, last: int)
    requires pulls == [] && last == first
    ensures PullEntries(pulls + [npcs], first) == PullEntries(pulls, first) + [PullEntry(last, npcs)]
  {
    assert pulls + [npcs] == [npcs];
  }

  /** The inner loop of lines 246-249: one entry per NPC id, in order. */
  method RenderNpcs(npcs: seq<int>) returns (npcStrings: seq<string>)
    ensures npcStrings == NpcEntries(npcs)
  {
    npcStrings := [];
    var j := 0;
    while j < |npcs|
      invariant 0 <= j <= |npcs|
      invariant npcStrings == NpcEntries(npcs[..j])
    {
      assert npcs[..j + 1] == npcs[..j] + [npcs[j]];
      NpcEntriesSnoc(npcs[..j], npcs[j]);
      npcStrings := npcStrings + [NpcEntry(npcs[j])];
      j := j + 1;
    }
    assert npcs[..j] == npcs;
  }

  /** Lines 241-261. */
  method GenerateMdtLuaString(pulls: seq<seq<int>>, dungeonId: Option<int>) returns (s: string)
    ensures s == MdtString(pulls, dungeonId)
    ensures '\n' !in s
    ensures |Header| <= |s| && s[..|Header|] == Header
  {
    var pullStrings: seq<string> := [];
    var i := 0;
    while i < |pulls|
      invariant 0 <= i <= |pulls|
      invariant pullStrings == PullEntries(pulls[..i], 1)
    {
      var npcStrings := RenderNpcs(pulls[i]);
      var entry := "[" + IntToString(i + 1) + IndexClose + Join(",", npcStrings) + NpcsEnd;
      assert pulls[..i + 1] == pulls[..i] + [pulls[i]];
      PullEntriesSnoc(pulls[..i], pulls[i], 1, i + 1);
      pullStrings := pullStrings + [entry];
      i := i + 1;
    }
    assert pulls[..i] == pulls;
    var pullList := Join(",", pullStrings);
    var dungeon := IntToString(DungeonValue(dungeonId));
    var luaString := LuaTemplate(pullList, dungeon);
    s := StripNewlines(luaString);
    StripToMdtString(pulls, dungeonId);
  }
}
