/** The gap walk of `process_events_for_mdt` (wcl_to_mdt.py:204-224): the sorted
    combat events are cut into pulls wherever the time since the last accepted event
    exceeds the reset timer. */
module Segmenter {
  import opened Wrappers
  import opened Combat
  import opened SeqFacts

  /** Lines 209-211: the walk skips an event unless the instance it is about is in
      the table. */
  predicate Accepts(e: Event, info: CombatantInfo) {
    Known(ActorOf(e), info)
  }

  /** The events the walk does not skip, in order: exactly the events whose
      instance is in the table. */
  function AcceptedEvents(s: seq<Event>, info: CombatantInfo): (r: seq<Event>)
    ensures forall k :: 0 <= k < |r| ==> Accepts(r[k], info)
    ensures forall e :: e in r <==> e in s && Accepts(e, info)
  {
    if s == [] then []
    else
      var init := s[..|s| - 1];
      var e := s[|s| - 1];
      InitAndLast(s);
      AcceptedEvents(init, info) + (if Accepts(e, info) then [e] else [])
  }

  /** Reference definition of the runs of events the walk groups together: each
      event joins the run of its predecessor unless it comes more than `resetMs`
      after it. */
  function GapBlocks(s: seq<Event>, resetMs: int): (blocks: seq<seq<Event>>)
    ensures blocks == [] <==> s == []
  {
    if s == [] then []
    else
      var init := s[..|s| - 1];
      var e := s[|s| - 1];
      var prev := GapBlocks(init, resetMs);
      if init == [] then [[e]]
      else if e.timestamp - init[|init| - 1].timestamp > resetMs then prev + [[e]]
      else prev[..|prev| - 1] + [prev[|prev| - 1] + [e]]
  }

  function Flatten(blocks: seq<seq<Event>>): seq<Event> {
    if blocks == [] then [] else Flatten(blocks[..|blocks| - 1]) + blocks[|blocks| - 1]
  }

  function Last(block: seq<Event>): Event
    requires block != []
  {
    block[|block| - 1]
  }

  ghost predicate RunsNonEmpty(blocks: seq<seq<Event>>) {
    forall k :: 0 <= k < |blocks| ==> blocks[k] != []
  }

  /** Consecutive events of one run are at most `resetMs` apart. */
  ghost predicate GapsWithinRuns(blocks: seq<seq<Event>>, resetMs: int) {
    forall k, j :: 0 <= k < |blocks| && 0 < j < |blocks[k]| ==>
      blocks[k][j].timestamp - blocks[k][j - 1].timestamp <= resetMs
  }

  /** The first event of each run after the first comes more than `resetMs` after
      the last event of the run before it. */
  ghost predicate GapsBetweenRuns(blocks: seq<seq<Event>>, resetMs: int)
    requires RunsNonEmpty(blocks)
  {
    forall k :: 0 < k < |blocks| ==> blocks[k][0].timestamp - Last(blocks[k - 1]).timestamp > resetMs
  }

  /** `blocks` cuts `s`, in order, into non-empty runs separated by gaps of more
      than `resetMs` and with no such gap inside a run. */
  ghost predicate IsGapPartition(blocks: seq<seq<Event>>, s: seq<Event>, resetMs: int) {
    && Flatten(blocks) == s
    && RunsNonEmpty(blocks)
    && GapsWithinRuns(blocks, resetMs)
    && GapsBetweenRuns(blocks, resetMs)
  }

  lemma GapBlocksSnoc(s: seq<Event>, e: Event, resetMs: int)
    ensures GapBlocks(s + [e], resetMs) ==
      var prev := GapBlocks(s, resetMs);
      if s == [] then [[e]]
      else if e.timestamp - Last(s).timestamp > resetMs then prev + [[e]]
      else prev[..|prev| - 1] + [prev[|prev| - 1] + [e]]
  {
    var t := s + [e];
    SnocParts(s, e);
    assert t[..|t| - 1] == s && t[|t| - 1] == e;
  }

  lemma AcceptedSnoc(s: seq<Event>, e: Event, info: CombatantInfo)
    ensures AcceptedEvents(s + [e], info) == AcceptedEvents(s, info) + (if Accepts(e, info) then [e] else [])
  {
    SnocParts(s, e);
  }

  lemma FlattenSnoc(blocks: seq<seq<Event>>, b: seq<Event>)
    ensures Flatten(blocks + [b]) == Flatten(blocks) + b
  {
    SnocParts(blocks, b);
  }

  /** The last event of a partition with non-empty runs is the last event of its
      last run. */
  lemma FlattenLast(blocks: seq<seq<Event>>)
    requires blocks != [] && blocks[|blocks| - 1] != []
    ensures Flatten(blocks) != [] && Last(Flatten(blocks)) == Last(blocks[|blocks| - 1])
  {
  }

  /** Starting a new run with `e` keeps a gap partition one when the gap before `e`
      exceeds `resetMs`. */
  lemma PartitionStartRun(blocks: seq<seq<Event>>, s: seq<Event>, e: Event, resetMs: int)
    requires IsGapPartition(blocks, s, resetMs)
    requires s != [] && e.timestamp - Last(s).timestamp > resetMs
    ensures IsGapPartition(blocks + [[e]], s + [e], resetMs)
  {
    FlattenSnoc(blocks, [e]);
    assert blocks != [];
    FlattenLast(blocks);
    var r := blocks + [[e]];
    assert forall i :: 0 <= i < |blocks| ==> r[i] == blocks[i];
    assert RunsNonEmpty(r);
    assert GapsWithinRuns(r, resetMs);
  }

  /** Appending `e` to the last run keeps a gap partition one when the gap before
      `e` is at most `resetMs`. */
  lemma PartitionExtendRun(blocks: seq<seq<Event>>, s: seq<Event>, e: Event, resetMs: int)
    requires IsGapPartition(blocks, s, resetMs)
    requires s != [] && e.timestamp - Last(s).timestamp <= resetMs
    ensures blocks != []
    ensures IsGapPartition(blocks[..|blocks| - 1] + [blocks[|blocks| - 1] + [e]], s + [e], resetMs)
  {
    assert blocks != [];
    var k := |blocks| - 1;
    var run := blocks[k] + [e];
    var r := blocks[..k] + [run];
    InitAndLast(blocks);
    FlattenSnoc(blocks[..k], blocks[k]);
    FlattenSnoc(blocks[..k], run);
    AppendAssoc(Flatten(blocks[..k]), blocks[k], [e]);
    FlattenLast(blocks);
    assert forall i :: 0 <= i < k ==> r[i] == blocks[i];
    assert RunsNonEmpty(r);
    ExtendedRunGaps(blocks, e, resetMs);
  }

  /** The gaps inside the runs stay small when `e` joins the last run closely. */
  lemma ExtendedRunGaps(blocks: seq<seq<Event>>, e: Event, resetMs: int)
    requires blocks != [] && blocks[|blocks| - 1] != [] && GapsWithinRuns(blocks, resetMs)
    requires e.timestamp - Last(blocks[|blocks| - 1]).timestamp <= resetMs
    ensures GapsWithinRuns(blocks[..|blocks| - 1] + [blocks[|blocks| - 1] + [e]], resetMs)
  {
    var k := |blocks| - 1;
    var run: seq<Event> := blocks[k] + [e];
    var r: seq<seq<Event>> := blocks[..k] + [run];
    forall i: int, j: int | 0 <= i < |r| && 0 < j < |r[i]|
      ensures r[i][j].timestamp - r[i][j - 1].timestamp <= resetMs
    {
      if i < k {
        assert r[i] == blocks[i];
      } else if j < |blocks[k]| {
        assert r[i][j] == blocks[k][j] && r[i][j - 1] == blocks[k][j - 1];
      } else {
        assert r[i][j] == e && r[i][j - 1] == Last(blocks[k]);
      }
    }
  }

  lemma PartitionSingle(e: Event, resetMs: int)
    ensures IsGapPartition([[e]], [e], resetMs)
  {
    FlattenSnoc([], [e]);
    EmptyAppend([e]);
  }

  /** One more event keeps GapBlocks a gap partition. */
  lemma GapBlocksPartitionStep(init: seq<Event>, e: Event, resetMs: int)
    requires IsGapPartition(GapBlocks(init, resetMs), init, resetMs)
    ensures IsGapPartition(GapBlocks(init + [e], resetMs), init + [e], resetMs)
  {
    GapBlocksSnoc(init, e, resetMs);
    if init == [] {
      EmptyAppend([e]);
      PartitionSingle(e, resetMs);
    } else if e.timestamp - Last(init).timestamp > resetMs {
      PartitionStartRun(GapBlocks(init, resetMs), init, e, resetMs);
    } else {
      PartitionExtendRun(GapBlocks(init, resetMs), init, e, resetMs);
    }
  }

  /** The runs GapBlocks produces form a gap partition of the events. */
  lemma {:induction false} GapBlocksPartition(s: seq<Event>, resetMs: int)
    ensures IsGapPartition(GapBlocks(s, resetMs), s, resetMs)
    decreases |s|
  {
    if s != [] {
      GapBlocksPartition(s[..|s| - 1], resetMs);
      GapBlocksPartitionStep(s[..|s| - 1], s[|s| - 1], resetMs);
      InitAndLast(s);
    }
  }

  /** Dropping a final one-event run leaves a gap partition of the events before it,
      and that event was more than `resetMs` after its predecessor. */
  lemma PartitionDropRun(blocks: seq<seq<Event>>, s: seq<Event>, resetMs: int)
    requires IsGapPartition(blocks, s, resetMs)
    requires blocks != [] && |blocks[|blocks| - 1]| == 1
    ensures s != [] && IsGapPartition(blocks[..|blocks| - 1], s[..|s| - 1], resetMs)
    ensures blocks[|blocks| - 1] == [s[|s| - 1]]
    ensures s[..|s| - 1] != [] ==> s[|s| - 1].timestamp - Last(s[..|s| - 1]).timestamp > resetMs
  {
    var k := |blocks| - 1;
    var run := blocks[k];
    assert blocks == blocks[..k] + [run];
    FlattenSnoc(blocks[..k], run);
    var init := s[..|s| - 1];
    assert init == Flatten(blocks[..k]);
    if init != [] {
      assert blocks[..k] != [];
      FlattenLast(blocks[..k]);
    }
  }

  /** Removing the last event of a final run of two or more leaves a gap partition
      of the events before it, and that event was at most `resetMs` after its
      predecessor. */
  lemma PartitionShortenRun(blocks: seq<seq<Event>>, s: seq<Event>, resetMs: int)
    requires IsGapPartition(blocks, s, resetMs)
    requires blocks != [] && |blocks[|blocks| - 1]| > 1
    ensures s != [] && s[..|s| - 1] != []
    ensures var k := |blocks| - 1;
      IsGapPartition(blocks[..k] + [blocks[k][..|blocks[k]| - 1]], s[..|s| - 1], resetMs)
    ensures s[|s| - 1].timestamp - Last(s[..|s| - 1]).timestamp <= resetMs
    ensures blocks[|blocks| - 1] == blocks[|blocks| - 1][..|blocks[|blocks| - 1]| - 1] + [s[|s| - 1]]
  {
    var k := |blocks| - 1;
    var run := blocks[k];
    var shorter := run[..|run| - 1];
    var x := run[|run| - 1];
    var r := blocks[..k] + [shorter];
    InitAndLast(blocks);
    InitAndLast(run);
    FlattenSnoc(blocks[..k], run);
    FlattenSnoc(blocks[..k], shorter);
    AppendAssoc(Flatten(blocks[..k]), shorter, [x]);
    assert s == Flatten(r) + [x];
    SnocParts(Flatten(r), x);
    FlattenLast(r);
    ShortenedRunGaps(blocks, resetMs);
  }

  /** Dropping the last event of a final run of two or more keeps the gap
      properties. */
  lemma ShortenedRunGaps(blocks: seq<seq<Event>>, resetMs: int)
    requires RunsNonEmpty(blocks) && GapsWithinRuns(blocks, resetMs) && GapsBetweenRuns(blocks, resetMs)
    requires blocks != [] && |blocks[|blocks| - 1]| > 1
    ensures var k := |blocks| - 1;
      var r := blocks[..k] + [blocks[k][..|blocks[k]| - 1]];
      RunsNonEmpty(r) && GapsWithinRuns(r, resetMs) && GapsBetweenRuns(r, resetMs)
  {
    var k := |blocks| - 1;
    var shorter: seq<Event> := blocks[k][..|blocks[k]| - 1];
    var r: seq<seq<Event>> := blocks[..k] + [shorter];
    assert forall i :: 0 <= i < k ==> r[i] == blocks[i];
    assert r[k] == shorter && shorter[0] == blocks[k][0];
    assert RunsNonEmpty(r);
    forall i: int, j: int | 0 <= i < |r| && 0 < j < |r[i]|
      ensures r[i][j].timestamp - r[i][j - 1].timestamp <= resetMs
    {
      if i == k {
        assert r[i][j] == blocks[k][j] && r[i][j - 1] == blocks[k][j - 1];
      }
    }
    forall i | 0 < i < |r| ensures r[i][0].timestamp - Last(r[i - 1]).timestamp > resetMs {
      assert r[i - 1] == blocks[i - 1];
    }
  }

  /** A gap partition is unique: whatever cuts the events into runs with the gap
      properties is what GapBlocks produces. */
  lemma {:induction false} GapPartitionUnique(blocks: seq<seq<Event>>, s: seq<Event>, resetMs: int)
    requires IsGapPartition(blocks, s, resetMs)
    ensures blocks == GapBlocks(s, resetMs)
    decreases |s|
  {
    if blocks == [] {
      assert s == [];
    } else {
      var k := |blocks| - 1;
      assert blocks[k] != [];
      FlattenSnoc(blocks[..k], blocks[k]);
      InitAndLast(blocks);
      assert s != [];
      var init := s[..|s| - 1];
      var e := s[|s| - 1];
      InitAndLast(s);
      GapBlocksSnoc(init, e, resetMs);
      if |blocks[k]| == 1 {
        PartitionDropRun(blocks, s, resetMs);
        GapPartitionUnique(blocks[..k], init, resetMs);
      } else {
        PartitionShortenRun(blocks, s, resetMs);
        var shorter := blocks[k][..|blocks[k]| - 1];
        GapPartitionUnique(blocks[..k] + [shorter], init, resetMs);
        SnocParts(blocks[..k], shorter);
      }
    }
  }

  /** The set of instances a run of events is about. */
  function ActorIds(block: seq<Event>): (ids: set<int>)
    ensures forall e :: e in block && ActorOf(e).Some? ==> ActorOf(e).value in ids
    ensures forall x :: x in ids ==> exists e :: e in block && ActorOf(e) == Some(x)
  {
    if block == [] then {}
    else
      var e := block[|block| - 1];
      ActorIds(block[..|block| - 1]) + (if ActorOf(e).Some? then {ActorOf(e).value} else {})
  }

  lemma ActorIdsSnoc(block: seq<Event>, e: Event)
    ensures ActorIds(block + [e]) == ActorIds(block) + (if ActorOf(e).Some? then {ActorOf(e).value} else {})
  {
    SnocParts(block, e);
  }

  /** One instance-id set per run. */
  function PullSets(blocks: seq<seq<Event>>): (pulls: seq<set<int>>)
    ensures |pulls| == |blocks|
    ensures forall k :: 0 <= k < |blocks| ==> pulls[k] == ActorIds(blocks[k])
  {
    if blocks == [] then []
    else PullSets(blocks[..|blocks| - 1]) + [ActorIds(blocks[|blocks| - 1])]
  }

  /** The pulls of lines 206-224, as the reference definition gives them. */
  function Segment(combat: seq<Event>, info: CombatantInfo, resetMs: int): seq<set<int>> {
    PullSets(GapBlocks(AcceptedEvents(combat, info), resetMs))
  }

  lemma PullSetsSnoc(blocks: seq<seq<Event>>, b: seq<Event>)
    ensures PullSets(blocks + [b]) == PullSets(blocks) + [ActorIds(b)]
  {
    SnocParts(blocks, b);
  }

  /** The state of the walk of lines 206-219: the pulls closed so far, the
      instances of the open pull and the time of the last accepted event. */
  datatype WalkState = WalkState(pulls: seq<set<int>>, current: set<int>, lastTimestamp: int)

  /** The state after walking `s` from the initial time `start`. */
  function Walk(s: seq<Event>, info: CombatantInfo, resetMs: int, start: int): WalkState {
    if s == [] then WalkState([], {}, start)
    else
      var w := Walk(s[..|s| - 1], info, resetMs, start);
      var e := s[|s| - 1];
      if !Accepts(e, info) then w
      else if w.current != {} && e.timestamp - w.lastTimestamp > resetMs then
        WalkState(w.pulls + [w.current], {ActorOf(e).value}, e.timestamp)
      else WalkState(w.pulls, w.current + {ActorOf(e).value}, e.timestamp)
  }

  /** Lines 222-223: the open pull is emitted when it is not empty. */
  function Finish(w: WalkState): seq<set<int>> {
    if w.current != {} then w.pulls + [w.current] else w.pulls
  }

  /** What the walk's state means on the reference runs: the closed pulls are the
      instance sets of every run but the last, the open pull is that of the last
      run, and the last time is that of the last accepted event. */
  ghost predicate TracksRuns(w: WalkState, accepted: seq<Event>, resetMs: int) {
    var blocks := GapBlocks(accepted, resetMs);
    if accepted == [] then w.pulls == [] && w.current == {}
    else
      && w.pulls == PullSets(blocks[..|blocks| - 1])
      && w.current == ActorIds(blocks[|blocks| - 1])
      && w.current != {}
      && w.lastTimestamp == Last(accepted).timestamp
  }

  /** An accepted event that opens a new run. */
  lemma TracksNewRun(w: WalkState, accepted: seq<Event>, e: Event, info: CombatantInfo, resetMs: int)
    requires TracksRuns(w, accepted, resetMs) && Accepts(e, info)
    requires accepted != [] && e.timestamp - w.lastTimestamp > resetMs
    ensures TracksRuns(WalkState(w.pulls + [w.current], {ActorOf(e).value}, e.timestamp), accepted + [e], resetMs)
  {
    var prev := GapBlocks(accepted, resetMs);
    var n := |prev|;
    var blocks := prev + [[e]];
    GapBlocksSnoc(accepted, e, resetMs);
    assert GapBlocks(accepted + [e], resetMs) == blocks;
    SnocParts(prev, [e]);
    PullSetsSnoc(prev[..n - 1], prev[n - 1]);
    InitAndLast(prev);
    ActorIdsSingle(e);
    SnocParts(accepted, e);
  }

  lemma ActorIdsSingle(e: Event)
    requires ActorOf(e).Some?
    ensures ActorIds([e]) == {ActorOf(e).value}
  {
    ActorIdsSnoc([], e);
    EmptyAppend([e]);
  }

  /** An accepted event that joins the open run. */
  lemma TracksSameRun(w: WalkState, accepted: seq<Event>, e: Event, info: CombatantInfo, resetMs: int)
    requires TracksRuns(w, accepted, resetMs) && Accepts(e, info)
    requires accepted != [] && e.timestamp - w.lastTimestamp <= resetMs
    ensures TracksRuns(WalkState(w.pulls, w.current + {ActorOf(e).value}, e.timestamp), accepted + [e], resetMs)
  {
    var prev := GapBlocks(accepted, resetMs);
    GapBlocksSnoc(accepted, e, resetMs);
    var blocks := prev[..|prev| - 1] + [prev[|prev| - 1] + [e]];
    assert GapBlocks(accepted + [e], resetMs) == blocks;
    assert blocks[..|blocks| - 1] == prev[..|prev| - 1];
    ActorIdsSnoc(prev[|prev| - 1], e);
  }

  /** The first accepted event. */
  lemma TracksFirstRun(w: WalkState, e: Event, info: CombatantInfo, resetMs: int)
    requires TracksRuns(w, [], resetMs) && Accepts(e, info)
    ensures TracksRuns(WalkState(w.pulls, w.current + {ActorOf(e).value}, e.timestamp), [e], resetMs)
  {
    GapBlocksSnoc([], e, resetMs);
    assert [] + [e] == [e];
    ActorIdsSnoc([], e);
  }

  /** One more event keeps the walk's state in step with the reference runs. */
  lemma WalkStepTracks(init: seq<Event>, e: Event, info: CombatantInfo, resetMs: int, start: int)
    requires TracksRuns(Walk(init, info, resetMs, start), AcceptedEvents(init, info), resetMs)
    ensures TracksRuns(Walk(init + [e], info, resetMs, start), AcceptedEvents(init + [e], info), resetMs)
  {
    var s := init + [e];
    var w := Walk(init, info, resetMs, start);
    var accepted := AcceptedEvents(init, info);
    assert s[..|s| - 1] == init && s[|s| - 1] == e;
    AcceptedSnoc(init, e, info);
    if !Accepts(e, info) {
      assert Walk(s, info, resetMs, start) == w;
      assert AcceptedEvents(s, info) == accepted;
    } else if accepted == [] {
      TracksFirstRun(w, e, info, resetMs);
      assert Walk(s, info, resetMs, start) == WalkState(w.pulls, w.current + {ActorOf(e).value}, e.timestamp);
      assert AcceptedEvents(s, info) == [e];
    } else if e.timestamp - w.lastTimestamp > resetMs {
      TracksNewRun(w, accepted, e, info, resetMs);
      assert Walk(s, info, resetMs, start) == WalkState(w.pulls + [w.current], {ActorOf(e).value}, e.timestamp);
      assert AcceptedEvents(s, info) == accepted + [e];
    } else {
      TracksSameRun(w, accepted, e, info, resetMs);
      assert Walk(s, info, resetMs, start) == WalkState(w.pulls, w.current + {ActorOf(e).value}, e.timestamp);
      assert AcceptedEvents(s, info) == accepted + [e];
    }
  }

  lemma WalkTracksNone(s: seq<Event>, info: CombatantInfo, resetMs: int, start: int)
    requires s == []
    ensures TracksRuns(Walk(s, info, resetMs, start), AcceptedEvents(s, info), resetMs)
  {
  }

  lemma {:induction false} WalkTracksRuns(s: seq<Event>, info: CombatantInfo, resetMs: int, start: int)
    ensures TracksRuns(Walk(s, info, resetMs, start), AcceptedEvents(s, info), resetMs)
    decreases |s|
  {
    if s == [] {
      WalkTracksNone(s, info, resetMs, start);
    } else {
      WalkTracksRuns(s[..|s| - 1], info, resetMs, start);
      WalkStepTracks(s[..|s| - 1], s[|s| - 1], info, resetMs, start);
      InitAndLast(s);
    }
  }

  /** Walking the events and emitting the open pull at the end gives the instance
      sets of the reference runs, whatever the initial time. */
  lemma WalkSegments(s: seq<Event>, info: CombatantInfo, resetMs: int, start: int)
    ensures Finish(Walk(s, info, resetMs, start)) == Segment(s, info, resetMs)
  {
    var accepted := AcceptedEvents(s, info);
    WalkTracksRuns(s, info, resetMs, start);
    if accepted != [] {
      var blocks := GapBlocks(accepted, resetMs);
      PullSetsSnoc(blocks[..|blocks| - 1], blocks[|blocks| - 1]);
      assert blocks[..|blocks| - 1] + [blocks[|blocks| - 1]] == blocks;
    }
  }

  /** Lines 204-224: walks the time-sorted combat events, closing the current pull
      whenever it is non-empty and the event comes more than `resetMs` after the last
      accepted one. */
  method SegmentPulls(combat: seq<Event>, info: CombatantInfo, resetMs: int) returns (pulls: seq<set<int>>)
    requires combat != []
    ensures pulls == Segment(combat, info, resetMs)
  {
    pulls := [];
    var current: set<int> := {};
    var lastTimestamp := combat[0].timestamp;
    var i := 0;
    while i < |combat|
      invariant 0 <= i <= |combat|
      invariant WalkState(pulls, current, lastTimestamp) == Walk(combat[..i], info, resetMs, combat[0].timestamp)
    {
      var event := combat[i];
      var timestamp := event.timestamp;
      var actorId := ActorOf(event);
      assert combat[..i + 1][..i] == combat[..i];
      i := i + 1;
      if actorId.None? || actorId.value !in info {
        continue;
      }
      if current != {} && timestamp - lastTimestamp > resetMs {
        pulls := pulls + [current];
        current := {};
      }
      current := current + {actorId.value};
      lastTimestamp := timestamp;
    }
    assert combat[..|combat|] == combat;
    WalkSegments(combat, info, resetMs, combat[0].timestamp);
    if current != {} {
      pulls := pulls + [current];
    }
  }

  lemma {:induction false} ActorIdsConcat(a: seq<Event>, b: seq<Event>)
    ensures ActorIds(a + b) == ActorIds(a) + ActorIds(b)
    decreases |b|
  {
    if b == [] {
      assert a + b == a;
    } else {
      var init := b[..|b| - 1];
      var e := b[|b| - 1];
      assert b == init + [e];
      assert a + b == (a + init) + [e];
      ActorIdsConcat(a, init);
      ActorIdsSnoc(a + init, e);
      ActorIdsSnoc(init, e);
    }
  }

  /** The union of a list of pulls. */
  function UnionAll(pulls: seq<set<int>>): set<int> {
    if pulls == [] then {} else UnionAll(pulls[..|pulls| - 1]) + pulls[|pulls| - 1]
  }

  /** The pulls together hold exactly the instances of the events cut into runs. */
  lemma {:induction false} UnionOfPullSets(blocks: seq<seq<Event>>)
    ensures UnionAll(PullSets(blocks)) == ActorIds(Flatten(blocks))
    decreases |blocks|
  {
    if blocks != [] {
      var init := blocks[..|blocks| - 1];
      UnionOfPullSets(init);
      assert PullSets(blocks)[..|blocks| - 1] == PullSets(init);
      ActorIdsConcat(Flatten(init), blocks[|blocks| - 1]);
    }
  }

  lemma {:induction false} InFlatten(blocks: seq<seq<Event>>, k: nat, e: Event)
    requires k < |blocks| && e in blocks[k]
    ensures e in Flatten(blocks)
    decreases |blocks|
  {
    if k < |blocks| - 1 {
      InFlatten(blocks[..|blocks| - 1], k, e);
    }
  }

  /** Every pull the walk emits is a non-empty set of instances from the table. */
  lemma SegmentPullsKnown(combat: seq<Event>, info: CombatantInfo, resetMs: int)
    ensures forall k :: 0 <= k < |Segment(combat, info, resetMs)| ==>
      Segment(combat, info, resetMs)[k] != {} && Segment(combat, info, resetMs)[k] <= info.Keys
  {
    var accepted := AcceptedEvents(combat, info);
    var blocks := GapBlocks(accepted, resetMs);
    GapBlocksPartition(accepted, resetMs);
    forall k | 0 <= k < |blocks|
      ensures ActorIds(blocks[k]) != {} && ActorIds(blocks[k]) <= info.Keys
    {
      var run := blocks[k];
      assert run[0] in run;
      InFlatten(blocks, k, run[0]);
      forall e | e in run ensures Accepts(e, info) {
        InFlatten(blocks, k, e);
      }
    }
  }

  /** Together the pulls hold exactly the instances of the accepted events. */
  lemma SegmentUnion(combat: seq<Event>, info: CombatantInfo, resetMs: int)
    ensures UnionAll(Segment(combat, info, resetMs)) == ActorIds(AcceptedEvents(combat, info))
  {
    var accepted := AcceptedEvents(combat, info);
    GapBlocksPartition(accepted, resetMs);
    UnionOfPullSets(GapBlocks(accepted, resetMs));
  }

  /** A gap of exactly `resetMs` keeps two accepted events in one pull; one more
      millisecond splits them. */
  lemma ThresholdIsStrict(first: Event, second: Event, resetMs: int)
    ensures second.timestamp - first.timestamp == resetMs ==>
      GapBlocks([first, second], resetMs) == [[first, second]]
    ensures second.timestamp - first.timestamp == resetMs + 1 ==>
      GapBlocks([first, second], resetMs) == [[first], [second]]
  {
    GapBlocksSnoc([], first, resetMs);
    GapBlocksSnoc([first], second, resetMs);
    assert [first] + [second] == [first, second];
    assert [[first]][..0] + [[first] + [second]] == [[first, second]];
  }

  /** When every event is accepted the walk skips nothing. */
  lemma {:induction false} AcceptedAll(s: seq<Event>, info: CombatantInfo)
    requires forall k :: 0 <= k < |s| ==> Accepts(s[k], info)
    ensures AcceptedEvents(s, info) == s
    decreases |s|
  {
    if s != [] {
      var init := s[..|s| - 1];
      assert forall k :: 0 <= k < |init| ==> init[k] == s[k];
      AcceptedAll(init, info);
      AcceptedSnoc(init, s[|s| - 1], info);
      InitAndLast(s);
    }
  }
}
