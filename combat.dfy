/** The records the converter receives from the log service, already decoded from
    JSON: combat events, the roster of hostile actors, and the lookup table from
    spawn instance to creature template that the converter builds from the roster. */
module Combat {
  import opened Wrappers
  import opened SeqFacts

  /** An event's `type`; only `damage` and `cast` are ever consumed. */
  datatype EventType = Damage | Cast | OtherType

  /** One log event. `sourceID` and `targetID` are absent (None) when the event has
      no such key. Timestamps are milliseconds since the report began. */
  datatype Event = Event(kind: EventType, timestamp: int, sourceID: Option<int>, targetID: Option<int>)

  /** One roster entry: the spawn instance `id`, its name, and its creature
      template `gameID`, which the report may leave out. */
  datatype Actor = Actor(id: int, name: string, gameID: Option<int>)

  /** The `combatant_info` table: spawn instance id to creature template id. */
  type CombatantInfo = map<int, int>

  /** The table of wcl_to_mdt.py:179-182: one entry per actor whose `gameID` is not
      None; when an instance id occurs twice, the later actor's entry replaces the
      earlier one, as in a dict comprehension. */
  function CombatantTable(roster: seq<Actor>): (info: CombatantInfo)
    ensures forall id :: id in info <==>
      exists i :: 0 <= i < |roster| && roster[i].id == id && roster[i].gameID.Some?
  {
    if roster == [] then map[]
    else
      var init := roster[..|roster| - 1];
      var actor := roster[|roster| - 1];
      var table := CombatantTable(init);
      assert forall i :: 0 <= i < |init| ==> init[i] == roster[i];
      if actor.gameID.Some? then table[actor.id := actor.gameID.value] else table
  }

  /** The entry of an instance is the `gameID` of the last roster actor with that
      instance id and a `gameID`; `i` is that actor's position. */
  lemma {:induction false} CombatantTableLastWins(roster: seq<Actor>, id: int) returns (i: nat)
    requires id in CombatantTable(roster)
    ensures i < |roster| && roster[i].id == id && roster[i].gameID == Some(CombatantTable(roster)[id])
    ensures forall j :: i < j < |roster| && roster[j].id == id ==> roster[j].gameID.None?
  {
    var actor := roster[|roster| - 1];
    if actor.gameID.Some? && actor.id == id {
      i := |roster| - 1;
    } else {
      TableSkipsLast(roster, id);
      i := CombatantTableLastWins(roster[..|roster| - 1], id);
    }
  }

  /** When the last actor does not set `id`, the entry of `id` comes from the
      actors before it. */
  lemma TableSkipsLast(roster: seq<Actor>, id: int)
    requires id in CombatantTable(roster)
    requires roster[|roster| - 1].gameID.None? || roster[|roster| - 1].id != id
    ensures var init := roster[..|roster| - 1];
      && id in CombatantTable(init) && CombatantTable(init)[id] == CombatantTable(roster)[id]
      && forall j :: 0 <= j < |init| ==> init[j] == roster[j]
  {
  }

  /** The instance an event is about (line 209): the target of a damage event, the
      source of any other event. */
  function ActorOf(e: Event): Option<int> {
    if e.kind == Damage then e.targetID else e.sourceID
  }

  predicate Known(id: Option<int>, info: CombatantInfo) {
    id.Some? && id.value in info
  }

  /** The filter of lines 195-196: damage dealt to a known instance, or a cast by a
      known instance. */
  predicate Qualifies(e: Event, info: CombatantInfo) {
    (e.kind == Damage && Known(e.targetID, info)) || (e.kind == Cast && Known(e.sourceID, info))
  }

  /** The list comprehension of lines 195-196: the qualifying events, in input order. */
  function CombatFilter(events: seq<Event>, info: CombatantInfo): (r: seq<Event>)
    ensures |r| <= |events|
    ensures forall e :: multiset(r)[e] == if Qualifies(e, info) then multiset(events)[e] else 0
  {
    if events == [] then []
    else
      assert events == [events[0]] + events[1..];
      (if Qualifies(events[0], info) then [events[0]] else []) + CombatFilter(events[1..], info)
  }

  /** The template ids of the actors the qualifying events are about. */
  function QualifyingActors(events: seq<Event>, info: CombatantInfo): set<int> {
    set e | e in events && Qualifies(e, info) :: ActorOf(e).value
  }

  /** The filter keeps a qualifying event and drops any other one ... */
  lemma FilterSingle(e: Event, info: CombatantInfo)
    ensures CombatFilter([e], info) == if Qualifies(e, info) then [e] else []
  {
    assert [e][1..] == [];
  }

  /** ... and filters a concatenation piece by piece, so the qualifying events keep
      their input order. */
  lemma {:induction false} FilterConcat(a: seq<Event>, b: seq<Event>, info: CombatantInfo)
    ensures CombatFilter(a + b, info) == CombatFilter(a, info) + CombatFilter(b, info)
  {
    if a != [] {
      FilterConcat(a[1..], b, info);
      ConsParts(a[0], a[1..] + b);
      HeadAndTail(a);
      AppendAssoc([a[0]], a[1..], b);
      AppendAssoc(if Qualifies(a[0], info) then [a[0]] else [], CombatFilter(a[1..], info), CombatFilter(b, info));
    } else {
      EmptyAppend(b);
      EmptyAppend(CombatFilter(b, info));
    }
  }
}
