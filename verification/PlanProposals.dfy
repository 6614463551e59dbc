/** What is kept of a proposed plan (`_result_from` in `daemon/planner.py`), told on what was
    proposed, without the functions of the two passes. */
module PlanProposals {
  import opened Wrappers
  import opened PlanDependencies

  /** One of the first twelve proposals, an object with a title. */
  predicate Counts(proposed: seq<Raw>, i: nat) {
    i < |proposed| && i < 12 && proposed[i].Proposed? && proposed[i].title != ""
  }

  /** The numbers among `deps` of earlier proposals that count, in order. */
  function EarlierOnes(proposed: seq<Raw>, deps: seq<Option<nat>>, index: nat): seq<nat> {
    if deps == [] then []
    else
      (if deps[0].Some? && Counts(proposed, deps[0].value) && deps[0].value < index then [deps[0].value] else [])
      + EarlierOnes(proposed, deps[1..], index)
  }

  lemma CapCounts(proposed: seq<Raw>, i: nat)
    ensures Kept(Capped(proposed), i) <==> Counts(proposed, i)
    ensures i < |Capped(proposed)| ==> Capped(proposed)[i] == proposed[i]
  {
  }

  lemma {:induction false} EarlierSnoc(proposed: seq<Raw>, deps: seq<Option<nat>>, d: Option<nat>, index: nat)
    ensures EarlierOnes(proposed, deps + [d], index)
         == EarlierOnes(proposed, deps, index)
            + (if d.Some? && Counts(proposed, d.value) && d.value < index then [d.value] else [])
  {
    if deps == [] {
      assert deps + [d] == [d] && [d][1..] == [];
    } else {
      assert (deps + [d])[1..] == deps[1..] + [d];
      EarlierSnoc(proposed, deps[1..], d, index);
    }
  }

  lemma {:induction false} SameDependencies(proposed: seq<Raw>, deps: seq<Option<nat>>, index: nat)
    ensures Earlier(Capped(proposed), Digits(deps), index) == EarlierOnes(proposed, deps, index)
  {
    if deps != [] {
      var front, d := deps[..|deps| - 1], deps[|deps| - 1];
      SameDependencies(proposed, front, index);
      EarlierSnoc(proposed, front, d, index);
      assert deps == front + [d];
      if d.Some? {
        CapCounts(proposed, d.value);
        EarlierLast(Capped(proposed), Digits(front), d.value, index);
      } else {
        assert Digits(front) + [] == Digits(front);
      }
    }
  }

  lemma EarlierLast(raws: seq<Raw>, deps: seq<nat>, d: nat, index: nat)
    ensures Earlier(raws, deps + [d], index)
         == Earlier(raws, deps, index) + (if Kept(raws, d) && d < index then [d] else [])
  {
    assert (deps + [d])[..|deps|] == deps;
  }

  lemma {:induction false} SpecContent(raws: seq<Raw>, n: nat, q: nat)
    requires n <= |raws| && q < |Specs(raws, n)|
    ensures var s := Specs(raws, n)[q];
            && s.index < n && Kept(raws, s.index)
            && s.title == ShortTitle(raws[s.index].title) && s.dependsOn == Digits(raws[s.index].dependsOn)
  {
    if q < |Specs(raws, n - 1)| {
      SpecContent(raws, n - 1, q);
      assert Specs(raws, n)[q] == Specs(raws, n - 1)[q];
    }
  }

  lemma {:induction false} SpecsAscend(raws: seq<Raw>, n: nat, q: nat, r: nat)
    requires n <= |raws| && q < r < |Specs(raws, n)|
    ensures Specs(raws, n)[q].index < Specs(raws, n)[r].index
  {
    assert Specs(raws, n)[q] == Specs(raws, n - 1)[q];
    if r < |Specs(raws, n - 1)| {
      SpecsAscend(raws, n - 1, q, r);
      assert Specs(raws, n)[r] == Specs(raws, n - 1)[r];
    } else {
      SpecContent(raws, n - 1, q);
    }
  }

  /** One step of the result is one proposal that counts: its title cut at 200 characters, and
      of the numbers it lists those of earlier proposals that count. */
  lemma StepExactly(proposed: seq<Raw>, q: nat)
    requires q < |Result(Capped(proposed))|
    ensures var s := Result(Capped(proposed))[q];
            && Counts(proposed, s.index)
            && (var raw := proposed[s.index];
                && s.title == (if |raw.title| > 200 then raw.title[..200] else raw.title)
                && s.dependsOn == EarlierOnes(proposed, raw.dependsOn, s.index))
  {
    var raws := Capped(proposed);
    SpecContent(raws, |raws|, q);
    var s := Specs(raws, |raws|)[q];
    CapCounts(proposed, s.index);
    SameDependencies(proposed, proposed[s.index].dependsOn, s.index);
  }

  /** The result has a step for every proposal that counts, in the order they were proposed. */
  lemma ResultExactly(proposed: seq<Raw>)
    ensures var r := Result(Capped(proposed));
            && (forall q, t | 0 <= q < t < |r| :: r[q].index < r[t].index)
            && (forall i | Counts(proposed, i) :: exists q :: 0 <= q < |r| && r[q].index == i)
  {
    var raws, r := Capped(proposed), Result(Capped(proposed));
    forall q, t | 0 <= q < t < |r| ensures r[q].index < r[t].index {
      SpecsAscend(raws, |raws|, q, t);
    }
    forall i | Counts(proposed, i) ensures exists q :: 0 <= q < |r| && r[q].index == i {
      CapCounts(proposed, i);
      SpecAtRank(raws, |raws|, i);
      assert r[Rank(raws, i)].index == i;
    }
  }
}
