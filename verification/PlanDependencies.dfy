/** The fallback planner (`_result_from`, `apply_to_plan` in `daemon/planner.py`): steps
    proposed by a model are validated, malformed ones are dropped, and the dependencies
    of the others are turned from indices into links between the created steps.

    The indices that survive validation count the proposed steps; the second pass reads
    them as positions among the created ones. */
module PlanDependencies {
  import opened Wrappers

  const MaxSteps: nat := 12
  const TitleLimit: nat := 200

  /** One proposed step: something that is not an object, or a title, as text without
      space around it, and what its `depends_on` lists, where only runs of digits are a
      number. */
  datatype Raw = Junk | Proposed(title: string, dependsOn: seq<Option<nat>>)

  datatype Spec = Spec(title: string, dependsOn: seq<nat>, index: nat)

  predicate Named(r: Raw) {
    r.Proposed? && r.title != ""
  }

  function Capped(raws: seq<Raw>): (r: seq<Raw>)
    ensures |r| <= MaxSteps && r <= raws
  {
    if |raws| > MaxSteps then raws[..MaxSteps] else raws
  }

  function Digits(deps: seq<Option<nat>>): seq<nat> {
    if deps == [] then []
    else Digits(deps[..|deps| - 1]) + (if deps[|deps| - 1].Some? then [deps[|deps| - 1].value] else [])
  }

  function ShortTitle(title: string): string {
    if |title| > TitleLimit then title[..TitleLimit] else title
  }

  /** The steps kept of the first `n` proposed ones. */
  function Specs(raws: seq<Raw>, n: nat): (s: seq<Spec>)
    requires n <= |raws|
    ensures |s| <= n
  {
    if n == 0 then []
    else if Named(raws[n - 1]) then
      Specs(raws, n - 1) + [Spec(ShortTitle(raws[n - 1].title), Digits(raws[n - 1].dependsOn), n - 1)]
    else Specs(raws, n - 1)
  }

  /** How many steps are kept before the proposed step `d`: its position, if it is kept. */
  function Rank(raws: seq<Raw>, d: nat): nat
    requires d <= |raws|
  {
    |Specs(raws, d)|
  }

  predicate Kept(raws: seq<Raw>, d: nat) { d < |raws| && Named(raws[d]) }

  lemma {:induction false} SpecIndex(raws: seq<Raw>, n: nat, q: nat)
    requires n <= |raws| && q < |Specs(raws, n)|
    ensures Specs(raws, n)[q].index < n
    ensures Kept(raws, Specs(raws, n)[q].index) && Rank(raws, Specs(raws, n)[q].index) == q
  {
    if Named(raws[n - 1]) && q == |Specs(raws, n - 1)| {
      assert Specs(raws, n)[q].index == n - 1;
    } else {
      SpecIndex(raws, n - 1, q);
      assert Specs(raws, n)[q] == Specs(raws, n - 1)[q];
    }
  }

  lemma {:induction false} SpecAtRank(raws: seq<Raw>, n: nat, d: nat)
    requires n <= |raws| && d < n && Kept(raws, d)
    ensures Rank(raws, d) < Rank(raws, n) && Specs(raws, n)[Rank(raws, d)].index == d
  {
    if d < n - 1 {
      SpecAtRank(raws, n - 1, d);
    }
  }

  /** The steps before the proposed step `d` are all kept. */
  predicate NoneDroppedBefore(raws: seq<Raw>, d: nat) {
    forall i | 0 <= i < d :: Kept(raws, i)
  }

  lemma {:induction false} RankIsIndexExactly(raws: seq<Raw>, d: nat)
    requires d <= |raws|
    ensures Rank(raws, d) == d <==> NoneDroppedBefore(raws, d)
  {
    if d > 0 {
      RankIsIndexExactly(raws, d - 1);
      if NoneDroppedBefore(raws, d) {
        assert NoneDroppedBefore(raws, d - 1) && Kept(raws, d - 1);
      }
    }
  }

  /** The dependencies that pass validation: kept steps that were proposed earlier. */
  function Earlier(raws: seq<Raw>, deps: seq<nat>, index: nat): (r: seq<nat>)
    ensures forall i | 0 <= i < |r| :: Kept(raws, r[i]) && r[i] < index
  {
    if deps == [] then []
    else
      var d := deps[|deps| - 1];
      Earlier(raws, deps[..|deps| - 1], index) + (if Kept(raws, d) && d < index then [d] else [])
  }

  function Validated(raws: seq<Raw>, s: Spec): Spec {
    s.(dependsOn := Earlier(raws, s.dependsOn, s.index))
  }

  /** What `_result_from` returns. */
  function Result(raws: seq<Raw>): (r: seq<Spec>)
    ensures |r| == Rank(raws, |raws|)
  {
    seq(Rank(raws, |raws|), q requires 0 <= q < Rank(raws, |raws|) => Validated(raws, Specs(raws, |raws|)[q]))
  }

  method ResultFrom(proposed: seq<Raw>) returns (steps: seq<Spec>)
    ensures steps == Result(Capped(proposed)) && |steps| <= MaxSteps
  {
    var raws := Capped(proposed);
    steps := [];
    for index := 0 to |raws|
      invariant steps == Specs(raws, index)
    {
      if Named(raws[index]) {
        steps := steps + [Spec(ShortTitle(raws[index].title), Digits(raws[index].dependsOn), index)];
      }
    }
    var valid := set s | s in steps :: s.index;
    ValidIndices(raws);
    for i := 0 to |steps|
      invariant |steps| == Rank(raws, |raws|)
      invariant forall q | 0 <= q < |steps| ::
        steps[q] == (if q < i then Validated(raws, Specs(raws, |raws|)[q]) else Specs(raws, |raws|)[q])
    {
      var deps := Select(raws, steps[i].dependsOn, valid, steps[i].index);
      steps := steps[i := steps[i].(dependsOn := deps)];
    }
  }

  lemma ValidIndices(raws: seq<Raw>)
    ensures forall d :: d in (set s | s in Specs(raws, |raws|) :: s.index) <==> Kept(raws, d)
  {
    forall d ensures d in (set s | s in Specs(raws, |raws|) :: s.index) <==> Kept(raws, d) {
      if Kept(raws, d) {
        SpecAtRank(raws, |raws|, d);
      } else if d in (set s | s in Specs(raws, |raws|) :: s.index) {
        var s :| s in Specs(raws, |raws|) && s.index == d;
        var q :| 0 <= q < |Specs(raws, |raws|)| && Specs(raws, |raws|)[q] == s;
        SpecIndex(raws, |raws|, q);
        assert false;
      }
    }
  }

  /** The comprehension that filters the dependencies of one step. */
  method Select(ghost raws: seq<Raw>, deps: seq<nat>, valid: set<nat>, index: nat) returns (r: seq<nat>)
    requires forall d :: d in valid <==> Kept(raws, d)
    ensures r == Earlier(raws, deps, index)
  {
    r := [];
    for i := 0 to |deps|
      invariant r == Earlier(raws, deps[..i], index)
    {
      assert deps[..i + 1][..i] == deps[..i];
      if deps[i] in valid && deps[i] < index {
        r := r + [deps[i]];
      }
    }
    assert deps[..|deps|] == deps;
  }

  // The links.

  function Within(deps: seq<nat>, n: nat): (r: seq<nat>)
    ensures |r| <= |deps| && forall i | 0 <= i < |r| :: r[i] < n
  {
    if deps == [] then []
    else Within(deps[..|deps| - 1], n) + (if deps[|deps| - 1] < n then [deps[|deps| - 1]] else [])
  }

  /** The positions that step `q` of the plan is made to depend on, and those it should
      depend on: the positions of the steps that its indices name. */
  function Links(raws: seq<Raw>, q: nat): seq<nat>
    requires q < |Result(raws)|
  {
    Within(Result(raws)[q].dependsOn, |Result(raws)|)
  }

  function Meant(raws: seq<Raw>, q: nat): seq<nat>
    requires q < |Result(raws)|
  {
    Ranks(raws, Result(raws)[q].dependsOn)
  }

  function Ranks(raws: seq<Raw>, deps: seq<nat>): (r: seq<nat>)
    requires forall i | 0 <= i < |deps| :: Kept(raws, deps[i])
    ensures |r| == |deps| && forall i | 0 <= i < |deps| :: Kept(raws, deps[i]) && r[i] == Rank(raws, deps[i])
  {
    if deps == [] then []
    else
      var d := deps[|deps| - 1];
      assert Kept(raws, d);
      Ranks(raws, deps[..|deps| - 1]) + [Rank(raws, d)]
  }

  ghost predicate NoneDroppedBeforeAny(raws: seq<Raw>, deps: seq<nat>) {
    forall i | 0 <= i < |deps| :: NoneDroppedBefore(raws, deps[i])
  }

  lemma {:induction false} WithinIsRanks(raws: seq<Raw>, deps: seq<nat>)
    requires forall i | 0 <= i < |deps| :: Kept(raws, deps[i])
    ensures Within(deps, Rank(raws, |raws|)) == Ranks(raws, deps) <==> NoneDroppedBeforeAny(raws, deps)
  {
    if deps != [] {
      var front, d, n := deps[..|deps| - 1], deps[|deps| - 1], Rank(raws, |raws|);
      WithinIsRanks(raws, front);
      RankIsIndexExactly(raws, d);
      SpecAtRank(raws, |raws|, d);
      assert deps == front + [d];
      assert NoneDroppedBeforeAny(raws, deps) <==> NoneDroppedBeforeAny(raws, front) && NoneDroppedBefore(raws, d);
      SnocAgree(Within(front, n), d, d < n, Ranks(raws, front), Rank(raws, d));
    }
  }

  lemma SnocAgree(a: seq<nat>, x: nat, keep: bool, b: seq<nat>, y: nat)
    requires |a| <= |b| && (x == y ==> keep)
    ensures a + (if keep then [x] else []) == b + [y] <==> a == b && x == y
  {
    if a + (if keep then [x] else []) == b + [y] {
      assert |a + (if keep then [x] else [])| == |b| + 1;
      assert (a + [x])[|b|] == (b + [y])[|b|];
      assert (a + [x])[..|a|] == (b + [y])[..|b|];
      assert a == (a + [x])[..|a|] && b == (b + [y])[..|b|];
    }
  }

  /** Every created step depends on the steps it was meant to depend on, exactly when no
      step was dropped before one that another depends on. */
  lemma LinksRightExactly(raws: seq<Raw>)
    ensures (forall q | 0 <= q < |Result(raws)| :: Links(raws, q) == Meant(raws, q))
       <==> (forall q | 0 <= q < |Result(raws)| :: NoneDroppedBeforeAny(raws, Result(raws)[q].dependsOn))
  {
    forall q | 0 <= q < |Result(raws)|
      ensures Links(raws, q) == Meant(raws, q) <==> NoneDroppedBeforeAny(raws, Result(raws)[q].dependsOn)
    {
      WithinIsRanks(raws, Result(raws)[q].dependsOn);
    }
  }

  /** What was meant always runs from later steps to earlier ones. */
  lemma MeantGoesBack(raws: seq<Raw>, q: nat)
    requires q < |Result(raws)|
    ensures forall i | 0 <= i < |Meant(raws, q)| :: Meant(raws, q)[i] < q
  {
    var s := Result(raws)[q];
    SpecIndex(raws, |raws|, q);
    forall i | 0 <= i < |Meant(raws, q)| ensures Meant(raws, q)[i] < q {
      SpecAtRank(raws, s.index, s.dependsOn[i]);
    }
  }

  /** When every proposed step is kept, the order of the steps is a topological order. */
  lemma NoDropsGoBack(raws: seq<Raw>, q: nat)
    requires q < |Result(raws)| && forall d | 0 <= d < |raws| :: Kept(raws, d)
    ensures forall i | 0 <= i < |Links(raws, q)| :: Links(raws, q)[i] < q
  {
    LinksRightExactly(raws);
    MeantGoesBack(raws, q);
  }

  /** How many of the first `i` proposed steps were dropped. */
  function DroppedBefore(raws: seq<Raw>, i: nat): int
    requires i <= |raws|
  {
    i - Rank(raws, i)
  }

  lemma IndexOfStep(raws: seq<Raw>, q: nat)
    requires q < |Result(raws)|
    ensures Result(raws)[q].index <= |raws| && DroppedBefore(raws, Result(raws)[q].index) == Result(raws)[q].index - q
  {
    SpecIndex(raws, |raws|, q);
    assert Result(raws)[q].index == Specs(raws, |raws|)[q].index;
  }

  predicate AllBelow(xs: seq<nat>, q: nat) {
    forall i | 0 <= i < |xs| :: xs[i] < q
  }

  /** Every dependency of step `index` that is in range reaches back over more than `dropped`
      steps. */
  predicate ReachPast(deps: seq<nat>, n: nat, index: nat, dropped: int) {
    forall i | 0 <= i < |deps| :: deps[i] < n ==> index - deps[i] > dropped
  }

  lemma {:induction false} WithinBelow(deps: seq<nat>, n: nat, q: nat, index: nat)
    ensures AllBelow(Within(deps, n), q) <==> ReachPast(deps, n, index, index - q)
  {
    if deps != [] {
      var front, d := deps[..|deps| - 1], deps[|deps| - 1];
      WithinBelow(front, n, q, index);
      assert deps == front + [d];
      assert ReachPast(deps, n, index, index - q) <==>
             ReachPast(front, n, index, index - q) && (d < n ==> d < q);
      assert d < n ==> Within(deps, n)[|Within(front, n)|] == d;
      assert forall i | 0 <= i < |Within(front, n)| :: Within(deps, n)[i] == Within(front, n)[i];
    }
  }

  /** Every created step depends on earlier steps only, exactly when every dependency whose
      index is in range reaches back over more steps than were dropped before its own. */
  lemma LinksGoBackExactly(raws: seq<Raw>, q: nat)
    requires q < |Result(raws)|
    ensures var s := Result(raws)[q];
            s.index <= |raws|
            && (AllBelow(Links(raws, q), q)
                <==> ReachPast(s.dependsOn, |Result(raws)|, s.index, DroppedBefore(raws, s.index)))
  {
    IndexOfStep(raws, q);
    WithinBelow(Result(raws)[q].dependsOn, |Result(raws)|, q, Result(raws)[q].index);
  }

  predicate Has(xs: seq<nat>, x: int) {
    exists i :: 0 <= i < |xs| && xs[i] == x
  }

  lemma {:induction false} WithinHas(deps: seq<nat>, n: nat, x: nat)
    requires x < n
    ensures Has(Within(deps, n), x) <==> Has(deps, x)
  {
    if deps != [] {
      var front, d := deps[..|deps| - 1], deps[|deps| - 1];
      WithinHas(front, n, x);
      assert deps == front + [d];
      assert Has(deps, x) <==> Has(front, x) || d == x by {
        assert deps[|front|] == d;
        assert forall i | 0 <= i < |front| :: deps[i] == front[i];
      }
      assert d < n ==> Within(deps, n)[|Within(front, n)|] == d;
      assert forall i | 0 <= i < |Within(front, n)| :: Within(deps, n)[i] == Within(front, n)[i];
    }
  }

  /** A created step depends on itself exactly when a dependency of it reaches back over as
      many steps as were dropped before it. */
  lemma SelfLinkExactly(raws: seq<Raw>, q: nat)
    requires q < |Result(raws)|
    ensures var s := Result(raws)[q];
            s.index <= |raws|
            && (Has(Links(raws, q), q) <==> Has(s.dependsOn, s.index - DroppedBefore(raws, s.index)))
  {
    IndexOfStep(raws, q);
    WithinHas(Result(raws)[q].dependsOn, |Result(raws)|, q);
  }

  lemma LoopSpecs(raws: seq<Raw>)
    requires raws == [Junk, Proposed("a", []), Proposed("b", [Some(1)])]
    ensures Rank(raws, 1) == 0 && Specs(raws, 3) == [Spec("a", [], 1), Spec("b", [1], 2)]
  {
    assert Digits([]) == [];
    assert Digits([Some(1)]) == [1] by { assert [Some(1)][..0] == []; }
    assert Specs(raws, 0) == [] && Specs(raws, 1) == [];
    assert Specs(raws, 2) == [Spec("a", [], 1)];
  }

  lemma OneKept(raws: seq<Raw>, d: nat, index: nat)
    requires Kept(raws, d) && d < index
    ensures Earlier(raws, [d], index) == [d] && Ranks(raws, [d]) == [Rank(raws, d)]
  {
    assert [d][..0] == [];
    assert Earlier(raws, [], index) == [];
  }

  /** A dropped step can leave a step that depends on itself. */
  lemma DropMakesALoop()
    ensures var raws := [Junk, Proposed("a", []), Proposed("b", [Some(1)])];
            |Result(raws)| == 2 && Links(raws, 1) == [1] && Meant(raws, 1) == [0]
  {
    var raws := [Junk, Proposed("a", []), Proposed("b", [Some(1)])];
    LoopResult(raws);
    WithinOne(1, 2);
    OneKept(raws, 1, 2);
  }

  lemma LoopResult(raws: seq<Raw>)
    requires raws == [Junk, Proposed("a", []), Proposed("b", [Some(1)])]
    ensures |Result(raws)| == 2 && Result(raws)[1].dependsOn == [1] && Rank(raws, 1) == 0
  {
    LoopSpecs(raws);
    OneKept(raws, 1, 2);
  }

  lemma WithinOne(d: nat, n: nat)
    requires d < n
    ensures Within([d], n) == [d]
  {
    assert [d][..0] == [] && Within([], n) == [];
  }

  // What an order of the steps is for.

  /** Whatever has been done of steps that only depend on earlier ones, one of those left
      can be taken up. */
  lemma {:induction false} SomeStepIsReady(links: seq<seq<nat>>, done: set<nat>, n: nat)
    requires n < |links| && n !in done
    requires forall q | 0 <= q < |links| :: forall i | 0 <= i < |links[q]| :: links[q][i] < q
    ensures exists q :: 0 <= q < |links| && Ready(links, done, q)
  {
    if !Ready(links, done, n) {
      var i :| 0 <= i < |links[n]| && links[n][i] !in done;
      SomeStepIsReady(links, done, links[n][i]);
    }
  }

  /** `ready_steps`, for a step that nobody owns. */
  predicate Ready(links: seq<seq<nat>>, done: set<nat>, q: nat)
    requires q < |links|
  {
    q !in done && forall i | 0 <= i < |links[q]| :: links[q][i] in done
  }

  // The plan.

  class PlanStep {
    const id: nat
    const title: string
    var order: nat
    var dependsOn: seq<nat>

    constructor (id: nat, title: string)
      ensures this.id == id && this.title == title && order == 0 && dependsOn == []
    {
      this.id, this.title := id, title;
      order, dependsOn := 0, [];
    }
  }

  function Ids(created: seq<PlanStep>, positions: seq<nat>): (ids: seq<nat>)
    requires forall i | 0 <= i < |positions| :: positions[i] < |created|
    ensures |ids| == |positions| && forall i | 0 <= i < |positions| :: ids[i] == created[positions[i]].id
  {
    if positions == [] then []
    else Ids(created, positions[..|positions| - 1]) + [created[positions[|positions| - 1]].id]
  }

  class Plan {
    var steps: seq<PlanStep>
    var version: nat
    /** Where the next step id comes from. */
    var nextId: nat

    constructor ()
      ensures steps == [] && version == 1
    {
      steps, version, nextId := [], 1, 0;
    }

    ghost predicate Valid()
      reads this
    {
      forall i | 0 <= i < |steps| :: steps[i].id < nextId
    }

    /** `add_step`, not announced. */
    method AddStep(step: PlanStep)
      modifies this`steps, step`order
      ensures steps == old(steps) + [step]
      ensures step.order == (if old(step.order) == 0 then |old(steps)| else old(step.order))
    {
      if step.order == 0 {
        step.order := |steps|;
      }
      steps := steps + [step];
    }

    /** `apply_to_plan`: create every step, then link them. */
    method ApplyToPlan(specs: seq<Spec>) returns (created: seq<PlanStep>)
      requires Valid()
      modifies this
      ensures Valid() && steps == old(steps) + created
      ensures version == old(version) + (if created == [] then 0 else 1)
      ensures |created| == |specs|
      ensures forall q | 0 <= q < |created| :: fresh(created[q]) && created[q].title == specs[q].title
      ensures forall q, r | 0 <= q < r < |created| :: created[q].id != created[r].id
      ensures forall q | 0 <= q < |created| ::
        created[q].dependsOn == Ids(created, Within(specs[q].dependsOn, |specs|))
    {
      created := Create(specs);
      LinkAll(created, specs);
      if |created| > 0 {
        version := version + 1;
      }
    }

    /** The first pass. */
    method Create(specs: seq<Spec>) returns (created: seq<PlanStep>)
      requires Valid()
      modifies this`steps, this`nextId
      ensures Valid() && steps == old(steps) + created && |created| == |specs|
      ensures forall q | 0 <= q < |created| ::
        fresh(created[q]) && created[q].title == specs[q].title && created[q].dependsOn == []
      ensures forall q, r | 0 <= q < r < |created| :: created[q].id != created[r].id
    {
      created := [];
      for k := 0 to |specs|
        invariant |created| == k && steps == old(steps) + created
        invariant Valid()
        invariant forall q | 0 <= q < k ::
          fresh(created[q]) && created[q].title == specs[q].title && created[q].dependsOn == []
        invariant nextId == old(nextId) + k && forall q | 0 <= q < k :: created[q].id == old(nextId) + q
      {
        var step := new PlanStep(nextId, specs[k].title);
        nextId := nextId + 1;
        assert created == steps[|old(steps)|..];
        AddStep(step);
        created := created + [step];
      }
    }

    /** The second pass. */
    static method LinkAll(created: seq<PlanStep>, specs: seq<Spec>)
      requires |created| == |specs|
      requires forall q | 0 <= q < |created| :: created[q].dependsOn == []
      requires forall q, r | 0 <= q < r < |created| :: created[q].id != created[r].id
      modifies set q | 0 <= q < |created| :: created[q]`dependsOn
      ensures forall q | 0 <= q < |created| ::
        created[q].dependsOn == Ids(created, Within(specs[q].dependsOn, |specs|))
    {
      for k := 0 to |specs|
        invariant forall q | 0 <= q < k ::
          created[q].dependsOn == Ids(created, Within(specs[q].dependsOn, |specs|))
        invariant forall q | k <= q < |created| :: created[q].dependsOn == []
      {
        assert forall q | 0 <= q < |created| && q != k :: created[q] != created[k];
        Link(created, created[k], specs[k].dependsOn);
      }
    }

    /** The inner loop of the second pass. */
    static method Link(created: seq<PlanStep>, step: PlanStep, deps: seq<nat>)
      requires step.dependsOn == []
      modifies step`dependsOn
      ensures step.dependsOn == Ids(created, Within(deps, |created|))
    {
      for i := 0 to |deps|
        invariant step.dependsOn == Ids(created, Within(deps[..i], |created|))
      {
        assert deps[..i + 1][..i] == deps[..i];
        if deps[i] < |created| {
          IdsSnoc(created, Within(deps[..i], |created|), deps[i]);
          step.dependsOn := step.dependsOn + [created[deps[i]].id];
        }
      }
      assert deps[..|deps|] == deps;
    }
  }

  /** Both passes after the validation: what a model proposed becomes steps with links. */
  method PlanFrom(plan: Plan, proposed: seq<Raw>) returns (created: seq<PlanStep>)
    requires plan.Valid()
    modifies plan
    ensures plan.Valid() && plan.steps == old(plan.steps) + created
    ensures |created| == |Result(Capped(proposed))| <= MaxSteps
    ensures forall q | 0 <= q < |created| ::
      created[q].title == Result(Capped(proposed))[q].title
      && created[q].dependsOn == Ids(created, Links(Capped(proposed), q))
  {
    var specs := ResultFrom(proposed);
    created := plan.ApplyToPlan(specs);
  }

  lemma IdsSnoc(created: seq<PlanStep>, positions: seq<nat>, p: nat)
    requires forall i | 0 <= i < |positions| :: positions[i] < |created|
    requires p < |created|
    ensures Ids(created, positions + [p]) == Ids(created, positions) + [created[p].id]
  {
    assert (positions + [p])[..|positions|] == positions;
  }
}
