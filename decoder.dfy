/** A reader for the import string written by `Encoder`: it recovers the pulls and
    the dungeon number, which shows that the one-line text loses nothing. */
module Decoder {
  import opened Wrappers
  import opened Decimal
  import opened Encoder
  import opened SeqFacts

  /** The text after `prefix`, when `s` starts with it. */
  function Expect(s: string, prefix: string): (r: Option<string>)
    ensures r.Some? <==> |prefix| <= |s| && s[..|prefix|] == prefix
    ensures r.Some? ==> s == prefix + r.value
  {
    if |prefix| <= |s| && s[..|prefix|] == prefix then Some(s[|prefix|..]) else None
  }

  lemma ExpectPrefix(prefix: string, rest: string)
    ensures Expect(prefix + rest, prefix) == Some(rest)
  {
    assert (prefix + rest)[..|prefix|] == prefix;
    assert (prefix + rest)[|prefix|..] == rest;
  }

  /** One `{["id"]=N}` entry. */
  function ParseNpcEntry(s: string): (r: Option<(int, string)>)
    ensures r.Some? ==> |r.value.1| < |s|
  {
    match Expect(s, NpcOpen)
    case None => None
    case Some(r0) =>
      match ReadInt(r0)
      case None => None
      case Some((id, r1)) =>
        match Expect(r1, NpcClose)
        case None => None
        case Some(r2) => Some((id, r2))
  }

  /** One or more NPC entries separated by commas. */
  function ParseNpcItems(s: string): (r: Option<(seq<int>, string)>)
    ensures r.Some? ==> |r.value.1| < |s|
    decreases |s|
  {
    match ParseNpcEntry(s)
    case None => None
    case Some((id, r0)) =>
      if r0 != [] && r0[0] == ',' then
        match ParseNpcItems(r0[1..])
        case None => None
        case Some((ids, r1)) => Some(([id] + ids, r1))
      else Some(([id], r0))
  }

  /** The NPC list of one pull, which may be empty. */
  function ParseNpcs(s: string): (r: Option<(seq<int>, string)>)
    ensures r.Some? ==> |r.value.1| <= |s|
  {
    if s != [] && s[0] == NpcOpen[0] then ParseNpcItems(s) else Some(([], s))
  }

  /** One `[i]={["npcs"]={ ... } }` entry, whose number must be `index`. */
  function ParsePullEntry(s: string, index: int): (r: Option<(seq<int>, string)>)
    ensures r.Some? ==> |r.value.1| < |s|
  {
    match Expect(s, "[")
    case None => None
    case Some(r0) =>
      match ReadInt(r0)
      case None => None
      case Some((n, r1)) =>
        if n != index then None
        else match Expect(r1, IndexClose)
        case None => None
        case Some(r2) =>
          match ParseNpcs(r2)
          case None => None
          case Some((npcs, r3)) =>
            match Expect(r3, NpcsEnd)
            case None => None
            case Some(r4) => Some((npcs, r4))
  }

  /** One or more pull entries separated by commas, numbered from `index` on. */
  function ParsePullItems(s: string, index: int): (r: Option<(seq<seq<int>>, string)>)
    ensures r.Some? ==> |r.value.1| < |s|
    decreases |s|
  {
    match ParsePullEntry(s, index)
    case None => None
    case Some((npcs, r0)) =>
      if r0 != [] && r0[0] == ',' then
        match ParsePullItems(r0[1..], index + 1)
        case None => None
        case Some((rest, r1)) => Some(([npcs] + rest, r1))
      else Some(([npcs], r0))
  }

  /** The pull list, which may be empty. */
  function ParsePulls(s: string): (r: Option<(seq<seq<int>>, string)>)
    ensures r.Some? ==> |r.value.1| <= |s|
  {
    if s != [] && s[0] == '[' then ParsePullItems(s, 1) else Some(([], s))
  }

  /** The text after the dungeon number. */
  function Trailer(): string {
    "," + WeekLine + VersionLine + NameLine + "}"
  }

  /** The pulls and the dungeon number of an import string, or None when the text
      is not laid out as `MdtString` lays it out. */
  function DecodeMdtString(s: string): Option<(seq<seq<int>>, int)> {
    match Expect(s, Header + "{" + PullsKey)
    case None => None
    case Some(r0) =>
      match ParsePulls(r0)
      case None => None
      case Some((pulls, r1)) =>
        match Expect(r1, PullsEnd + DungeonKey)
        case None => None
        case Some(r2) =>
          match ReadInt(r2)
          case None => None
          case Some((dungeon, r3)) =>
            if r3 == Trailer() then Some((pulls, dungeon)) else None
  }

  // ---- Round trips, from the innermost entry outwards ----

  lemma NpcEntryRoundTrip(id: int, rest: string)
    ensures ParseNpcEntry(NpcEntry(id) + rest) == Some((id, rest))
  {
    assert NpcEntry(id) + rest == NpcOpen + (IntToString(id) + (NpcClose + rest));
    ExpectPrefix(NpcOpen, IntToString(id) + (NpcClose + rest));
    ReadIntRoundTrip(id, NpcClose + rest);
    ExpectPrefix(NpcClose, rest);
  }

  /** A list of several parts is its first part, a comma and the list of the others. */
  lemma JoinCons(parts: seq<string>, rest: string)
    requires |parts| > 1
    ensures Join(",", parts) + rest == parts[0] + ("," + Join(",", parts[1..]) + rest)
  {
    var tail := Join(",", parts[1..]);
    assert Join(",", parts) == parts[0] + "," + tail;
    Assoc(parts[0] + ",", tail, rest);
    Assoc(parts[0], ",", tail + rest);
    Assoc(",", tail, rest);
  }

  lemma NpcEntriesTail(npcs: seq<int>)
    requires npcs != []
    ensures NpcEntries(npcs)[0] == NpcEntry(npcs[0])
    ensures NpcEntries(npcs)[1..] == NpcEntries(npcs[1..])
  {
  }

  lemma JoinNpcEntries(npcs: seq<int>, rest: string)
    requires |npcs| > 1
    ensures Join(",", NpcEntries(npcs)) + rest ==
      NpcEntry(npcs[0]) + ("," + Join(",", NpcEntries(npcs[1..])) + rest)
  {
    NpcEntriesTail(npcs);
    JoinCons(NpcEntries(npcs), rest);
  }

  lemma DropComma(tail: string, rest: string)
    ensures ("," + tail + rest)[1..] == tail + rest
  {
  }

  /** An entry, a comma and a list that reads back as `ids`. */
  lemma ParseNpcItemsCons(id: int, tail: string, ids: seq<int>, rest: string)
    requires ParseNpcItems(tail + rest) == Some((ids, rest))
    ensures ParseNpcItems(NpcEntry(id) + ("," + tail + rest)) == Some(([id] + ids, rest))
  {
    NpcEntryRoundTrip(id, "," + tail + rest);
    DropComma(tail, rest);
  }

  lemma {:induction false} NpcItemsRoundTrip(npcs: seq<int>, rest: string)
    requires npcs != []
    requires rest == [] || rest[0] != ','
    ensures ParseNpcItems(Join(",", NpcEntries(npcs)) + rest) == Some((npcs, rest))
    decreases |npcs|
  {
    if |npcs| == 1 {
      assert Join(",", NpcEntries(npcs)) == NpcEntry(npcs[0]);
      NpcEntryRoundTrip(npcs[0], rest);
      assert [npcs[0]] == npcs;
    } else {
      JoinNpcEntries(npcs, rest);
      NpcItemsRoundTrip(npcs[1..], rest);
      ParseNpcItemsCons(npcs[0], Join(",", NpcEntries(npcs[1..])), npcs[1..], rest);
      assert [npcs[0]] + npcs[1..] == npcs;
    }
  }

  lemma NpcsRoundTrip(npcs: seq<int>, rest: string)
    requires rest == [] || (rest[0] != ',' && rest[0] != NpcOpen[0])
    ensures ParseNpcs(Join(",", NpcEntries(npcs)) + rest) == Some((npcs, rest))
  {
    if npcs != [] {
      NpcItemsRoundTrip(npcs, rest);
      var joined := Join(",", NpcEntries(npcs));
      assert NpcEntries(npcs)[0] == NpcOpen + (IntToString(npcs[0]) + NpcClose);
      JoinHead(NpcEntries(npcs));
      assert (joined + rest)[0] == NpcOpen[0];
    } else {
      assert NpcEntries(npcs) == [];
      assert Join(",", NpcEntries(npcs)) + rest == rest;
    }
  }

  lemma ConcatHead(a: string, b: string)
    requires a != []
    ensures (a + b)[0] == a[0]
  {
  }

  /** A joined list starts with its first part. */
  lemma JoinHead(parts: seq<string>)
    requires parts != [] && parts[0] != []
    ensures Join(",", parts) != [] && Join(",", parts)[0] == parts[0][0]
  {
  }

  /** Regrouping a left-nested concatenation of five pieces and a rest. */
  lemma Regroup(a: string, b: string, c: string, d: string, e: string, rest: string)
    ensures a + b + c + d + e + rest == a + (b + (c + (d + (e + rest))))
  {
  }

  lemma PullEntrySplit(index: int, npcs: seq<int>, rest: string)
    ensures PullEntry(index, npcs) + rest ==
      "[" + (IntToString(index) + (IndexClose + (Join(",", NpcEntries(npcs)) + (NpcsEnd + rest))))
  {
    Regroup("[", IntToString(index), IndexClose, Join(",", NpcEntries(npcs)), NpcsEnd, rest);
  }

  lemma PullEntryRoundTrip(index: int, npcs: seq<int>, rest: string)
    ensures ParsePullEntry(PullEntry(index, npcs) + rest, index) == Some((npcs, rest))
  {
    var joined := Join(",", NpcEntries(npcs));
    PullEntrySplit(index, npcs, rest);
    ExpectPrefix("[", IntToString(index) + (IndexClose + (joined + (NpcsEnd + rest))));
    ReadIntRoundTrip(index, IndexClose + (joined + (NpcsEnd + rest)));
    ExpectPrefix(IndexClose, joined + (NpcsEnd + rest));
    NpcsRoundTrip(npcs, NpcsEnd + rest);
    ExpectPrefix(NpcsEnd, rest);
  }

  lemma JoinPullEntries(pulls: seq<seq<int>>, index: int, rest: string)
    requires |pulls| > 1
    ensures Join(",", PullEntries(pulls, index)) + rest ==
      PullEntry(index, pulls[0]) + ("," + Join(",", PullEntries(pulls[1..], index + 1)) + rest)
  {
    PullEntriesTail(pulls, index);
    JoinCons(PullEntries(pulls, index), rest);
  }

  lemma PullEntriesTail(pulls: seq<seq<int>>, index: int)
    requires pulls != []
    ensures PullEntries(pulls, index)[0] == PullEntry(index, pulls[0])
    ensures PullEntries(pulls, index)[1..] == PullEntries(pulls[1..], index + 1)
  {
  }

  /** An entry, a comma and a list that reads back as `more`. */
  lemma ParsePullItemsCons(index: int, npcs: seq<int>, tail: string, more: seq<seq<int>>, rest: string)
    requires ParsePullItems(tail + rest, index + 1) == Some((more, rest))
    ensures ParsePullItems(PullEntry(index, npcs) + ("," + tail + rest), index) == Some(([npcs] + more, rest))
  {
    PullEntryRoundTrip(index, npcs, "," + tail + rest);
    DropComma(tail, rest);
  }

  lemma {:induction false} PullItemsRoundTrip(pulls: seq<seq<int>>, index: int, rest: string)
    requires pulls != []
    requires rest == [] || rest[0] != ','
    ensures ParsePullItems(Join(",", PullEntries(pulls, index)) + rest, index) == Some((pulls, rest))
    decreases |pulls|
  {
    if |pulls| == 1 {
      PullItemsSingle(pulls, index, rest);
    } else {
      PullItemsRoundTrip(pulls[1..], index + 1, rest);
      PullItemsStep(pulls, index, rest);
    }
  }

  lemma PullItemsSingle(pulls: seq<seq<int>>, index: int, rest: string)
    requires |pulls| == 1
    requires rest == [] || rest[0] != ','
    ensures ParsePullItems(Join(",", PullEntries(pulls, index)) + rest, index) == Some((pulls, rest))
  {
    assert Join(",", PullEntries(pulls, index)) == PullEntry(index, pulls[0]);
    PullEntryRoundTrip(index, pulls[0], rest);
    assert [pulls[0]] == pulls;
  }

  lemma PullItemsStep(pulls: seq<seq<int>>, index: int, rest: string)
    requires |pulls| > 1
    requires ParsePullItems(Join(",", PullEntries(pulls[1..], index + 1)) + rest, index + 1) == Some((pulls[1..], rest))
    ensures ParsePullItems(Join(",", PullEntries(pulls, index)) + rest, index) == Some((pulls, rest))
  {
    var tail := Join(",", PullEntries(pulls[1..], index + 1));
    var s := PullEntry(index, pulls[0]) + ("," + tail + rest);
    JoinPullEntries(pulls, index, rest);
    assert Join(",", PullEntries(pulls, index)) + rest == s;
    ParsePullItemsCons(index, pulls[0], tail, pulls[1..], rest);
    HeadAndTail(pulls);
  }

  lemma PullsRoundTrip(pulls: seq<seq<int>>, rest: string)
    requires rest == [] || (rest[0] != ',' && rest[0] != '[')
    ensures ParsePulls(Join(",", PullEntries(pulls, 1)) + rest) == Some((pulls, rest))
  {
    if pulls != [] {
      PullItemsRoundTrip(pulls, 1, rest);
      PullEntrySplit(1, pulls[0], []);
      JoinHead(PullEntries(pulls, 1));
      ConcatHead(Join(",", PullEntries(pulls, 1)), rest);
    } else {
      assert PullEntries(pulls, 1) == [];
      assert Join(",", PullEntries(pulls, 1)) + rest == rest;
    }
  }

  /** The regrouping behind `TableSplit`, on pieces the solver knows nothing about. */
  lemma RegroupTable(h: string, o: string, pk: string, pl: string, pe: string, dk: string,
                     d: string, c1: string, c2: string, c3: string, c4: string, c5: string)
    ensures h + (o + pk + pl + pe + dk + d + c1 + c2 + c3 + c4 + c5) ==
      (h + o + pk) + (pl + ((pe + dk) + (d + (c1 + c2 + c3 + c4 + c5))))
  {
    var t := c1 + c2 + c3 + c4 + c5;
    Assoc(d + c1 + c2 + c3 + c4, c5, []);
    Assoc(d + c1 + c2 + c3, c4, c5);
    Assoc(d + c1 + c2, c3, c4 + c5);
    Assoc(d + c1, c2, c3 + (c4 + c5));
    Assoc(d, c1, c2 + (c3 + (c4 + c5)));
    Assoc(c1, c2, c3 + (c4 + c5));
    Assoc(c1 + c2, c3, c4 + c5);
    Assoc(c1 + c2 + c3, c4, c5);
    assert d + c1 + c2 + c3 + c4 + c5 == d + t;
    var u := d + t;
    var prefix := o + pk + pl + pe + dk;
    Assoc(prefix, d, t);
    Assoc(o + pk + pl + pe, dk, u);
    Assoc(o + pk + pl, pe, dk + u);
    Assoc(pe, dk, u);
    Assoc(o + pk, pl, (pe + dk) + u);
    Assoc(h, o + pk, pl + ((pe + dk) + u));
    Assoc(h, o, pk);
  }

  lemma TableSplit(pullList: string, dungeon: string)
    ensures Header + TableText(pullList, dungeon) ==
      (Header + "{" + PullsKey) + (pullList + ((PullsEnd + DungeonKey) + (dungeon + Trailer())))
  {
    RegroupTable(Header, "{", PullsKey, pullList, PullsEnd, DungeonKey, dungeon,
                 ",", WeekLine, VersionLine, NameLine, "}");
  }

  /** Reading the import string back gives the pulls it was made from, in order,
      and the dungeon number it records. */
  lemma DecodeMdtStringRoundTrip(pulls: seq<seq<int>>, dungeonId: Option<int>)
    ensures DecodeMdtString(MdtString(pulls, dungeonId)) == Some((pulls, DungeonValue(dungeonId)))
  {
    var pullList := Join(",", PullEntries(pulls, 1));
    var dungeon := IntToString(DungeonValue(dungeonId));
    TableSplit(pullList, dungeon);
    ExpectPrefix(Header + "{" + PullsKey, pullList + ((PullsEnd + DungeonKey) + (dungeon + Trailer())));
    PullsRoundTrip(pulls, (PullsEnd + DungeonKey) + (dungeon + Trailer()));
    ExpectPrefix(PullsEnd + DungeonKey, dungeon + Trailer());
    ReadIntRoundTrip(DungeonValue(dungeonId), Trailer());
  }

  /** Different pulls, or different dungeon numbers, give different import strings. */
  lemma MdtStringInjective(p1: seq<seq<int>>, d1: Option<int>, p2: seq<seq<int>>, d2: Option<int>)
    requires MdtString(p1, d1) == MdtString(p2, d2)
    ensures p1 == p2 && DungeonValue(d1) == DungeonValue(d2)
  {
    DecodeMdtStringRoundTrip(p1, d1);
    DecodeMdtStringRoundTrip(p2, d2);
  }
}
