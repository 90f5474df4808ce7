/** The conversion step of `main` (wcl_to_mdt.py:294-299): the pulls found in the
    events, each template set turned into a list, written out as the import
    string. */
module Export {
  import opened Wrappers
  import opened Combat
  import opened Pipeline
  import opened Encoder
  import opened Decoder

  /** `list` lists the members of `s`, each once, in some order. */
  ghost predicate Lists(list: seq<int>, s: set<int>) {
    (forall x :: x in list <==> x in s) &&
    (forall i, j :: 0 <= i < j < |list| ==> list[i] != list[j])
  }

  /** `list(mapped_pull)` (line 235). The order of a set's members is not fixed, so
      each member is picked by an unspecified choice. */
  method ListOf(s: set<int>) returns (list: seq<int>)
    ensures Lists(list, s)
    ensures |list| == |s|
  {
    list := [];
    var left := s;
    while left != {}
      invariant left <= s
      invariant forall x :: x in list <==> x in s - left
      invariant forall i, j :: 0 <= i < j < |list| ==> list[i] != list[j]
      invariant |list| + |left| == |s|
      decreases |left|
    {
      assert exists x :: x in left by {
        if forall x :: x !in left {
          assert false;
        }
      }
      var x :| x in left;
      assert forall i :: 0 <= i < |list| ==> list[i] in list && list[i] != x;
      list := list + [x];
      left := left - {x};
    }
  }

  /** The template sets as the lists `process_events_for_mdt` returns. */
  method ListsOf(pulls: seq<set<int>>) returns (lists: seq<seq<int>>)
    ensures |lists| == |pulls|
    ensures forall k :: 0 <= k < |pulls| ==> Lists(lists[k], pulls[k])
  {
    lists := [];
    var i := 0;
    while i < |pulls|
      invariant 0 <= i <= |pulls|
      invariant |lists| == i
      invariant forall k :: 0 <= k < i ==> Lists(lists[k], pulls[k])
    {
      var list := ListOf(pulls[i]);
      lists := lists + [list];
      i := i + 1;
    }
  }

  /** Lines 294-299: no import string when no pull was found; otherwise one that
      reads back as exactly the pulls found, in order, each template listed once,
      together with the dungeon number. */
  method ConvertToImportString(events: seq<Event>, roster: seq<Actor>, dungeonId: Option<int>)
    returns (r: Option<string>)
    ensures r.None? <==> ProcessedPulls(events, roster, DefaultPullResetTimerMs) == []
    ensures r.Some? ==>
      var pulls := ProcessedPulls(events, roster, DefaultPullResetTimerMs);
      '\n' !in r.value &&
      exists lists :: DecodeMdtString(r.value) == Some((lists, DungeonValue(dungeonId))) &&
        |lists| == |pulls| &&
        forall k :: 0 <= k < |pulls| ==> Lists(lists[k], pulls[k])
  {
    var pulls := ProcessEventsForMdt(events, roster);
    if pulls == [] {
      return None;
    }
    var lists := ListsOf(pulls);
    var s := GenerateMdtLuaString(lists, dungeonId);
    DecodeMdtStringRoundTrip(lists, dungeonId);
    return Some(s);
  }
}
