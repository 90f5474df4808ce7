/** The fight-selection branch of `get_fight_details` (wcl_to_mdt.py:79-101): which
    fight of a report the conversion works on. */
module FightSelection {
  import opened Wrappers
  import opened Decimal

  /** A fight of the report, as the report query returns it. */
  datatype Fight = Fight(id: int, name: string, keystoneLevel: Option<int>)

  datatype FightError =
    | NoFights                    // the report lists no fights (line 79)
    | FightNotFound(id: int)      // no fight has the requested id (lines 95-97)
    | InvalidFightId(text: string) // the choice is neither "last" nor a number (lines 99-100)

  /** The choice that asks for the last relevant fight. */
  const LastChoice: string := "last"

  /** The index of the last fight with a keystone level, if any fight has one. */
  function LastKeystoneIndex(fights: seq<Fight>): (r: Option<nat>)
    ensures r.Some? ==> r.value < |fights| && fights[r.value].keystoneLevel.Some?
    ensures r.Some? ==> forall j :: r.value < j < |fights| ==> fights[j].keystoneLevel.None?
    ensures r.None? ==> forall j :: 0 <= j < |fights| ==> fights[j].keystoneLevel.None?
  {
    if fights == [] then None
    else if fights[|fights| - 1].keystoneLevel.Some? then Some(|fights| - 1)
    else LastKeystoneIndex(fights[..|fights| - 1])
  }

  /** The index of the first fight whose id is `id`, if there is one. */
  function FirstIndexWithId(fights: seq<Fight>, id: int): (r: Option<nat>)
    ensures r.Some? ==> r.value < |fights| && fights[r.value].id == id
    ensures r.Some? ==> forall j :: 0 <= j < r.value ==> fights[j].id != id
    ensures r.None? ==> forall j :: 0 <= j < |fights| ==> fights[j].id != id
  {
    if fights == [] then None
    else if fights[0].id == id then Some(0)
    else match FirstIndexWithId(fights[1..], id)
      case None => None
      case Some(i) => Some(i + 1)
  }

  /** Lines 79-101: "last" picks the last keystone fight, or the last fight when no
      fight has a keystone level; a number picks the first fight with that id. */
  function SelectFight(fights: seq<Fight>, choice: string): (r: Result<Fight, FightError>)
    ensures fights == [] ==> r == Err(NoFights)
    ensures fights != [] && choice == LastChoice ==> r.Ok?
    ensures fights != [] && choice == LastChoice && r.value.keystoneLevel.None? ==>
      r.value == fights[|fights| - 1] &&
      forall j :: 0 <= j < |fights| ==> fights[j].keystoneLevel.None?
    ensures fights != [] && choice == LastChoice && r.value.keystoneLevel.Some? ==>
      exists i :: 0 <= i < |fights| && fights[i] == r.value &&
        forall j :: i < j < |fights| ==> fights[j].keystoneLevel.None?
    ensures fights != [] && choice != LastChoice && ParseInt(choice).None? ==>
      r == Err(InvalidFightId(choice))
    ensures fights != [] && choice != LastChoice && ParseInt(choice).Some? ==>
      var n := ParseInt(choice).value;
      (r.Ok? <==> exists i :: 0 <= i < |fights| && fights[i].id == n) &&
      (r.Ok? ==>
        r.value.id == n &&
        exists i :: 0 <= i < |fights| && fights[i] == r.value &&
          forall j :: 0 <= j < i ==> fights[j].id != n) &&
      (r.Err? ==> r.error == FightNotFound(n))
  {
    if fights == [] then Err(NoFights)
    else if choice == LastChoice then
      match LastKeystoneIndex(fights)
      case Some(i) => Ok(fights[i])
      case None => Ok(fights[|fights| - 1])
    else
      match ParseInt(choice)
      case None => Err(InvalidFightId(choice))
      case Some(n) =>
        match FirstIndexWithId(fights, n)
        case None => Err(FightNotFound(n))
        case Some(i) => Ok(fights[i])
  }

  /** Asking for a fight by its decimal id finds it, whatever follows it. */
  lemma SelectById(fights: seq<Fight>, i: nat)
    requires i < |fights|
    requires forall j :: 0 <= j < i ==> fights[j].id != fights[i].id
    ensures SelectFight(fights, IntToString(fights[i].id)) == Ok(fights[i])
  {
    ParseIntRoundTrip(fights[i].id);
  }
}
