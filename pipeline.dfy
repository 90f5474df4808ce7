/** `process_events_for_mdt` (wcl_to_mdt.py:170-238) end to end: the roster table,
    the filter and stable sort, the gap walk and the template mapping. */
module Pipeline {
  import opened Wrappers
  import opened Combat
  import opened StableSort
  import opened Segmenter
  import opened Resolver
  import opened SeqFacts

  /** The default of `pull_reset_timer_ms`. */
  const DefaultPullResetTimerMs: int := 10000

  /** The `combat_events` list of lines 194-198: qualifying events, stably sorted by
      timestamp. */
  function CombatEvents(events: seq<Event>, info: CombatantInfo): seq<Event> {
    SortByTimestamp(CombatFilter(events, info))
  }

  /** What `process_events_for_mdt` returns, stage by stage. */
  function ProcessedPulls(events: seq<Event>, roster: seq<Actor>, resetMs: int): seq<set<int>> {
    var info := CombatantTable(roster);
    if |info| == 0 then []
    else
      var combat := CombatEvents(events, info);
      if combat == [] then [] else Resolve(Segment(combat, info, resetMs), info)
  }

  /** Lines 170-238. */
  method ProcessEventsForMdt(events: seq<Event>, roster: seq<Actor>, resetMs: int := DefaultPullResetTimerMs)
    returns (mapped: seq<set<int>>)
    ensures mapped == ProcessedPulls(events, roster, resetMs)
    ensures forall k :: 0 <= k < |mapped| ==> mapped[k] != {}
  {
    var info := CombatantTable(roster);
    if |info| == 0 {
      return [];
    }
    var combat := SortByTimestamp(CombatFilter(events, info));
    if combat == [] {
      return [];
    }
    var pulls := SegmentPulls(combat, info, resetMs);
    mapped := MapPulls(pulls, info);
  }

  /** An event is among the combat events exactly when it is a qualifying event of
      the input. */
  lemma InCombatEvents(events: seq<Event>, info: CombatantInfo, e: Event)
    ensures e in CombatEvents(events, info) <==> e in events && Qualifies(e, info)
  {
    var filtered := CombatFilter(events, info);
    assert multiset(CombatEvents(events, info))[e] == multiset(filtered)[e];
    assert e in CombatEvents(events, info) <==> e in multiset(CombatEvents(events, info));
    assert e in events <==> e in multiset(events);
  }

  /** The combat events are sorted and the walk accepts every one of them. */
  lemma CombatEventsAccepted(events: seq<Event>, info: CombatantInfo)
    ensures SortedByTime(CombatEvents(events, info))
    ensures AcceptedEvents(CombatEvents(events, info), info) == CombatEvents(events, info)
  {
    var combat := CombatEvents(events, info);
    forall k | 0 <= k < |combat| ensures Accepts(combat[k], info) {
      InCombatEvents(events, info, combat[k]);
    }
    AcceptedAll(combat, info);
  }

  /** With no roster actor carrying a `gameID` the result is the empty list (lines
      184-186). */
  lemma NoResolvableActors(events: seq<Event>, roster: seq<Actor>, resetMs: int)
    requires forall i :: 0 <= i < |roster| ==> roster[i].gameID.None?
    ensures ProcessedPulls(events, roster, resetMs) == []
  {
    assert CombatantTable(roster) == map[];
  }

  /** With no qualifying event the result is the empty list (lines 200-202). */
  lemma NoRelevantEvents(events: seq<Event>, roster: seq<Actor>, resetMs: int)
    requires forall e :: e in events ==> !Qualifies(e, CombatantTable(roster))
    ensures ProcessedPulls(events, roster, resetMs) == []
  {
    var info := CombatantTable(roster);
    assert forall e :: e !in events ==> multiset(events)[e] == 0;
    assert multiset(CombatFilter(events, info)) == multiset{};
  }

  /** The pulls before mapping are the instance sets of the unique gap partition of
      the sorted combat events: runs with gaps of at most `resetMs` inside and of
      more than `resetMs` between them. */
  lemma SegmentedPullsAreGapRuns(events: seq<Event>, info: CombatantInfo, resetMs: int)
    ensures var combat := CombatEvents(events, info);
      && Segment(combat, info, resetMs) == PullSets(GapBlocks(combat, resetMs))
      && IsGapPartition(GapBlocks(combat, resetMs), combat, resetMs)
      && (forall blocks :: IsGapPartition(blocks, combat, resetMs) ==> blocks == GapBlocks(combat, resetMs))
  {
    var combat := CombatEvents(events, info);
    CombatEventsAccepted(events, info);
    GapBlocksPartition(combat, resetMs);
    forall blocks | IsGapPartition(blocks, combat, resetMs) ensures blocks == GapBlocks(combat, resetMs) {
      GapPartitionUnique(blocks, combat, resetMs);
    }
  }

  lemma ActorIdsOfCombatEvents(events: seq<Event>, info: CombatantInfo)
    ensures ActorIds(CombatEvents(events, info)) == QualifyingActors(events, info)
  {
    var combat := CombatEvents(events, info);
    forall x | x in ActorIds(combat) ensures x in QualifyingActors(events, info) {
      CombatActorQualifies(events, info, x);
    }
    forall x | x in QualifyingActors(events, info) ensures x in ActorIds(combat) {
      QualifyingActorInCombat(events, info, x);
    }
  }

  lemma CombatActorQualifies(events: seq<Event>, info: CombatantInfo, x: int)
    requires x in ActorIds(CombatEvents(events, info))
    ensures x in QualifyingActors(events, info)
  {
    var e :| e in CombatEvents(events, info) && ActorOf(e) == Some(x);
    InCombatEvents(events, info, e);
  }

  lemma QualifyingActorInCombat(events: seq<Event>, info: CombatantInfo, x: int)
    requires x in QualifyingActors(events, info)
    ensures x in ActorIds(CombatEvents(events, info))
  {
    var e :| e in events && Qualifies(e, info) && ActorOf(e).value == x;
    InCombatEvents(events, info, e);
  }

  /** Together the pulls before mapping hold exactly the instances of the qualifying
      events; nothing else contributes. */
  lemma SegmentedUnionIsQualifyingActors(events: seq<Event>, info: CombatantInfo, resetMs: int)
    ensures UnionAll(Segment(CombatEvents(events, info), info, resetMs)) == QualifyingActors(events, info)
  {
    var combat := CombatEvents(events, info);
    CombatEventsAccepted(events, info);
    SegmentUnion(combat, info, resetMs);
    ActorIdsOfCombatEvents(events, info);
  }

  /** Every emitted pull is non-empty; every template id in it is non-zero and is
      the `gameID` of some roster actor; no more pulls come out than the walk found,
      and they keep the walk's order. */
  lemma ProcessedPullsShape(events: seq<Event>, roster: seq<Actor>, resetMs: int)
    ensures var info := CombatantTable(roster);
      var result := ProcessedPulls(events, roster, resetMs);
      && (forall k :: 0 <= k < |result| ==> result[k] != {})
      && (forall t :: t in AllTemplates(result) ==>
            t != 0 && exists i :: 0 <= i < |roster| && roster[i].gameID == Some(t))
      && (result == [] || result == Resolve(Segment(CombatEvents(events, info), info, resetMs), info))
  {
    var info := CombatantTable(roster);
    var result := ProcessedPulls(events, roster, resetMs);
    if result != [] {
      var pulls := Segment(CombatEvents(events, info), info, resetMs);
      ResolvedTemplatesFromTable(pulls, info);
      forall t | t in AllTemplates(result)
        ensures t != 0 && exists i :: 0 <= i < |roster| && roster[i].gameID == Some(t)
      {
        var id :| id in info && info[id] == t;
        var i := CombatantTableLastWins(roster, id);
      }
    }
  }

  /** Picking the events of one timestamp and filtering commute. */
  lemma {:induction false} FilterWithTimestamp(s: seq<Event>, info: CombatantInfo, t: int)
    ensures WithTimestamp(CombatFilter(s, info), t) == CombatFilter(WithTimestamp(s, t), info)
  {
    if s != [] {
      FilterWithTimestamp(s[1..], info, t);
      var rest := CombatFilter(s[1..], info);
      FilterConcat(if s[0].timestamp == t then [s[0]] else [], WithTimestamp(s[1..], t), info);
      FilterSingle(s[0], info);
      if Qualifies(s[0], info) {
        WithTimestampCons(s[0], rest, t);
      } else {
        EmptyAppend(rest);
      }
      EmptyAppend(CombatFilter(WithTimestamp(s[1..], t), info));
    }
  }

  /** Ties keep their input order: the combat events stamped `t` are the qualifying
      input events stamped `t`, in input order. */
  lemma CombatEventsTies(events: seq<Event>, info: CombatantInfo, t: int)
    ensures WithTimestamp(CombatEvents(events, info), t) == CombatFilter(WithTimestamp(events, t), info)
  {
    SortStable(CombatFilter(events, info), t);
    FilterWithTimestamp(events, info, t);
  }

  /** The combat events depend on the input only through the order of its events
      within each timestamp. */
  lemma CombatEventsDependOnTies(e1: seq<Event>, e2: seq<Event>, info: CombatantInfo)
    requires forall t :: WithTimestamp(e1, t) == WithTimestamp(e2, t)
    ensures CombatEvents(e1, info) == CombatEvents(e2, info)
  {
    var c1 := CombatEvents(e1, info);
    var f2 := CombatFilter(e2, info);
    forall t ensures WithTimestamp(c1, t) == WithTimestamp(f2, t) {
      CombatEventsTies(e1, info, t);
      FilterWithTimestamp(e2, info, t);
    }
    StableSortUnique(f2, c1);
  }

  /** Shuffling input events with distinct timestamps changes neither the combat
      events nor the pulls the walk finds. */
  lemma SegmentIgnoresInputOrder(e1: seq<Event>, e2: seq<Event>, info: CombatantInfo, resetMs: int)
    requires multiset(e1) == multiset(e2) && DistinctTimestamps(e1)
    ensures CombatEvents(e1, info) == CombatEvents(e2, info)
    ensures Segment(CombatEvents(e1, info), info, resetMs) == Segment(CombatEvents(e2, info), info, resetMs)
  {
    forall t ensures WithTimestamp(e1, t) == WithTimestamp(e2, t) {
      WithTimestampCount(e1, t);
      WithTimestampCount(e2, t);
      DistinctAtMostOne(e1, t);
      assert multiset(WithTimestamp(e1, t)) == multiset(WithTimestamp(e2, t));
      ShortByMultiset(WithTimestamp(e1, t), WithTimestamp(e2, t));
    }
    CombatEventsDependOnTies(e1, e2, info);
  }

  /** ... and so leaves the result of `process_events_for_mdt` unchanged. */
  lemma ProcessedPullsIgnoreInputOrder(e1: seq<Event>, e2: seq<Event>, roster: seq<Actor>, resetMs: int)
    requires multiset(e1) == multiset(e2) && DistinctTimestamps(e1)
    ensures ProcessedPulls(e1, roster, resetMs) == ProcessedPulls(e2, roster, resetMs)
  {
    SegmentIgnoresInputOrder(e1, e2, CombatantTable(roster), resetMs);
  }
}
