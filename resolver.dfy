/** The mapping step of `process_events_for_mdt` (wcl_to_mdt.py:227-235): each pull
    of spawn instances becomes the set of creature templates present, and pulls left
    without any template are dropped. */
module Resolver {
  import opened Combat

  /** The set comprehension of lines 229-233. The test at line 232 is truthiness, so
      an instance whose template id is 0 contributes nothing. */
  function TemplateIds(pull: set<int>, info: CombatantInfo): (templates: set<int>)
    ensures forall t :: t in templates ==> t != 0 && exists id :: id in pull && id in info && info[id] == t
    ensures forall id :: id in pull && id in info && info[id] != 0 ==> info[id] in templates
  {
    set id | id in pull && id in info && info[id] != 0 :: info[id]
  }

  /** The pulls the mapping loop emits, in order: the template set of each pull that
      has one. */
  function Resolve(pulls: seq<set<int>>, info: CombatantInfo): (mapped: seq<set<int>>)
    ensures |mapped| <= |pulls|
    ensures forall k :: 0 <= k < |mapped| ==> mapped[k] != {}
  {
    if pulls == [] then []
    else
      var templates := TemplateIds(pulls[|pulls| - 1], info);
      Resolve(pulls[..|pulls| - 1], info) + (if templates != {} then [templates] else [])
  }

  /** `kept[k]` is the position of the pull that `Resolve` emits at position k. The
      positions increase, so the mapping keeps the order of the pulls, and every pull
      left out has no template at all. */
  ghost predicate KeepsOrder(kept: seq<nat>, pulls: seq<set<int>>, info: CombatantInfo) {
    && |kept| == |Resolve(pulls, info)|
    && (forall k :: 0 <= k < |kept| ==>
          kept[k] < |pulls| && Resolve(pulls, info)[k] == TemplateIds(pulls[kept[k]], info))
    && (forall k, l :: 0 <= k < l < |kept| ==> kept[k] < kept[l])
    && (forall j :: 0 <= j < |pulls| && j !in kept ==> TemplateIds(pulls[j], info) == {})
  }

  /** Which input pulls survive the mapping, by position. */
  function KeptPulls(pulls: seq<set<int>>, info: CombatantInfo): (kept: seq<nat>)
    ensures KeepsOrder(kept, pulls, info)
  {
    if pulls == [] then []
    else
      var n := |pulls| - 1;
      var kept := KeptPulls(pulls[..n], info);
      KeepsOrderStep(pulls, info, kept);
      kept + (if TemplateIds(pulls[n], info) != {} then [n] else [])
  }

  lemma KeepsOrderStep(pulls: seq<set<int>>, info: CombatantInfo, kept: seq<nat>)
    requires pulls != [] && KeepsOrder(kept, pulls[..|pulls| - 1], info)
    ensures var n := |pulls| - 1;
      KeepsOrder(kept + (if TemplateIds(pulls[n], info) != {} then [n] else []), pulls, info)
  {
    var n := |pulls| - 1;
    if TemplateIds(pulls[n], info) != {} {
      KeepsOrderKeep(pulls, info, kept);
    } else {
      KeepsOrderDrop(pulls, info, kept);
      assert kept + [] == kept;
    }
  }

  /** A last pull with templates is emitted last. */
  lemma KeepsOrderKeep(pulls: seq<set<int>>, info: CombatantInfo, kept: seq<nat>)
    requires pulls != [] && KeepsOrder(kept, pulls[..|pulls| - 1], info)
    requires TemplateIds(pulls[|pulls| - 1], info) != {}
    ensures KeepsOrder(kept + [|pulls| - 1], pulls, info)
  {
    var n := |pulls| - 1;
    var init := pulls[..n];
    var r := kept + [n];
    var before := Resolve(init, info);
    assert Resolve(pulls, info) == before + [TemplateIds(pulls[n], info)];
    forall k | 0 <= k < |r|
      ensures r[k] < |pulls| && Resolve(pulls, info)[k] == TemplateIds(pulls[r[k]], info)
    {
      if k < |kept| {
        assert r[k] == kept[k] && init[kept[k]] == pulls[kept[k]];
        assert Resolve(pulls, info)[k] == before[k];
      }
    }
    forall j | 0 <= j < |pulls| && j !in r ensures TemplateIds(pulls[j], info) == {} {
      assert j < n && j !in kept && init[j] == pulls[j];
    }
  }

  /** A last pull without templates is not emitted. */
  lemma KeepsOrderDrop(pulls: seq<set<int>>, info: CombatantInfo, kept: seq<nat>)
    requires pulls != [] && KeepsOrder(kept, pulls[..|pulls| - 1], info)
    requires TemplateIds(pulls[|pulls| - 1], info) == {}
    ensures KeepsOrder(kept, pulls, info)
  {
    var n := |pulls| - 1;
    var init := pulls[..n];
    assert Resolve(pulls, info) == Resolve(init, info);
    forall k | 0 <= k < |kept|
      ensures kept[k] < |pulls| && Resolve(pulls, info)[k] == TemplateIds(pulls[kept[k]], info)
    {
      assert init[kept[k]] == pulls[kept[k]];
    }
    forall j | 0 <= j < |pulls| && j !in kept ensures TemplateIds(pulls[j], info) == {} {
      if j < n {
        assert init[j] == pulls[j];
      }
    }
  }

  /** Lines 227-235. */
  method MapPulls(pulls: seq<set<int>>, info: CombatantInfo) returns (mapped: seq<set<int>>)
    ensures mapped == Resolve(pulls, info)
  {
    mapped := [];
    var i := 0;
    while i < |pulls|
      invariant 0 <= i <= |pulls|
      invariant mapped == Resolve(pulls[..i], info)
    {
      var mappedPull := set id | id in pulls[i] && id in info && info[id] != 0 :: info[id];
      assert pulls[..i + 1][..i] == pulls[..i];
      if mappedPull != {} {
        mapped := mapped + [mappedPull];
      }
      i := i + 1;
    }
    assert pulls[..|pulls|] == pulls;
  }

  /** The union of the template sets. */
  function AllTemplates(mapped: seq<set<int>>): set<int> {
    if mapped == [] then {} else AllTemplates(mapped[..|mapped| - 1]) + mapped[|mapped| - 1]
  }

  /** Every template id in the output is a non-zero value of the table. */
  lemma {:induction false} ResolvedTemplatesFromTable(pulls: seq<set<int>>, info: CombatantInfo)
    ensures forall t :: t in AllTemplates(Resolve(pulls, info)) ==>
      t != 0 && exists id :: id in info && info[id] == t
    decreases |pulls|
  {
    if pulls != [] {
      var init := pulls[..|pulls| - 1];
      ResolvedTemplatesFromTable(init, info);
      var mapped := Resolve(pulls, info);
      var templates := TemplateIds(pulls[|pulls| - 1], info);
      if templates != {} {
        assert mapped == Resolve(init, info) + [templates];
        assert mapped[..|mapped| - 1] == Resolve(init, info);
        assert AllTemplates(mapped) == AllTemplates(Resolve(init, info)) + templates;
      } else {
        assert mapped == Resolve(init, info);
      }
    }
  }
}
