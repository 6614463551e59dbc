/** When the steps of a plan can all be worked off (`ready_steps` in `models/plan.py`), and
    what that asks of the steps that were proposed. */
module PlanOrder {
  import opened Wrappers
  import opened PlanDependencies

  // Any plan.

  ghost predicate InRange(links: seq<seq<nat>>) {
    forall q | 0 <= q < |links| :: forall i | 0 <= i < |links[q]| :: links[q][i] < |links|
  }

  function Done(order: seq<nat>): set<nat> { set k | 0 <= k < |order| :: order[k] }

  /** Each step is ready when its turn comes. */
  ghost predicate InTurn(links: seq<seq<nat>>, order: seq<nat>) {
    forall k | 0 <= k < |order| :: order[k] < |links| && Ready(links, Done(order[..k]), order[k])
  }

  ghost predicate WorkedOff(links: seq<seq<nat>>, order: seq<nat>) {
    InTurn(links, order) && forall q | 0 <= q < |links| :: q in Done(order)
  }

  /** Each step of `p` depends on the next. */
  ghost predicate Chain(links: seq<seq<nat>>, p: seq<nat>) {
    && (forall k | 0 <= k < |p| :: p[k] < |links|)
    && (forall k | 0 <= k < |p| - 1 :: Has(links[p[k]], p[k + 1]))
  }

  predicate Closed(p: seq<nat>) { |p| >= 2 && p[0] == p[|p| - 1] }

  ghost predicate Distinct(p: seq<nat>) {
    forall i, j | 0 <= i < j < |p| :: p[i] != p[j]
  }

  lemma InTurnIsDistinct(links: seq<seq<nat>>, order: seq<nat>)
    requires InTurn(links, order)
    ensures Distinct(order)
  {
    forall i, j | 0 <= i < j < |order| ensures order[i] != order[j] {
      assert order[..j][i] in Done(order[..j]);
    }
  }

  /** Along a chain the turns only come earlier. */
  lemma {:induction false} ChainRunsBack(links: seq<seq<nat>>, order: seq<nat>, p: seq<nat>, j: nat) returns (m: nat)
    requires InTurn(links, order) && Chain(links, p) && p != [] && j < |order| && order[j] == p[0]
    ensures m + |p| - 1 <= j && order[m] == p[|p| - 1]
    decreases |p|
  {
    if |p| == 1 {
      return j;
    }
    var i := DoneEarlier(links, order, j, p[1]);
    m := ChainRunsBack(links, order, p[1..], i);
  }

  lemma DoneEarlier(links: seq<seq<nat>>, order: seq<nat>, j: nat, x: nat) returns (i: nat)
    requires InTurn(links, order) && j < |order| && Has(links[order[j]], x)
    ensures i < j && order[i] == x
  {
    assert Ready(links, Done(order[..j]), order[j]);
    i :| 0 <= i < |order[..j]| && order[..j][i] == x;
  }

  lemma NoClosedChain(links: seq<seq<nat>>, order: seq<nat>, p: seq<nat>)
    requires WorkedOff(links, order) && Chain(links, p)
    ensures !Closed(p)
  {
    if Closed(p) {
      assert p[0] in Done(order);
      var j :| 0 <= j < |order| && order[j] == p[0];
      var m := ChainRunsBack(links, order, p, j);
      InTurnIsDistinct(links, order);
      assert false;
    }
  }

  // Enough steps in a row repeat one.

  lemma {:induction false} DoneSize(p: seq<nat>)
    requires Distinct(p)
    ensures |Done(p)| == |p|
  {
    if p != [] {
      var front, last := p[..|p| - 1], p[|p| - 1];
      DoneSize(front);
      DoneSnoc(front, last);
      assert p == front + [last] && last !in Done(front);
    }
  }

  lemma DoneSnoc(front: seq<nat>, last: nat)
    ensures Done(front + [last]) == Done(front) + {last}
  {
    var p := front + [last];
    assert p[|front|] == last && forall k | 0 <= k < |front| :: p[k] == front[k];
    forall x | x in Done(front) ensures x in Done(p) {
      var k :| 0 <= k < |front| && front[k] == x;
      assert p[k] == x;
    }
  }

  lemma {:induction false} BelowSize(s: set<nat>, n: nat)
    requires forall x | x in s :: x < n
    ensures |s| <= n
  {
    if n == 0 {
      assert s == {};
    } else {
      BelowSize(s - {n - 1}, n - 1);
    }
  }

  lemma LongRepeats(p: seq<nat>, n: nat) returns (i: nat, j: nat)
    requires |p| > n && forall k | 0 <= k < |p| :: p[k] < n
    ensures i < j < |p| && p[i] == p[j]
  {
    if Distinct(p) {
      DoneSize(p);
      BelowSize(Done(p), n);
      assert false;
    }
    i, j :| 0 <= i < j < |p| && p[i] == p[j];
  }

  /** Where no step is ready, an unfinished one heads chains of every length. */
  lemma {:induction false} StuckChain(links: seq<seq<nat>>, done: set<nat>, q: nat, n: nat) returns (p: seq<nat>)
    requires InRange(links) && q < |links| && q !in done
    requires forall r | 0 <= r < |links| :: !Ready(links, done, r)
    ensures Chain(links, p) && |p| == n + 1 && p[0] == q
    decreases n
  {
    if n == 0 {
      return [q];
    }
    assert !Ready(links, done, q);
    var i :| 0 <= i < |links[q]| && links[q][i] !in done;
    var rest := StuckChain(links, done, links[q][i], n - 1);
    p := [q] + rest;
    assert Has(links[q], rest[0]);
    assert forall k | 1 <= k < |p| :: p[k] == rest[k - 1];
  }

  lemma StuckLoops(links: seq<seq<nat>>, done: set<nat>, q: nat) returns (p: seq<nat>)
    requires InRange(links) && q < |links| && q !in done
    requires forall r | 0 <= r < |links| :: !Ready(links, done, r)
    ensures Chain(links, p) && Closed(p)
  {
    var long := StuckChain(links, done, q, |links|);
    var i, j := LongRepeats(long, |links|);
    p := long[i..j + 1];
    assert forall k | 0 <= k < |p| :: p[k] == long[i + k];
  }

  lemma OneMoreTurn(links: seq<seq<nat>>, order: seq<nat>, r: nat)
    requires InTurn(links, order) && r < |links| && Ready(links, Done(order), r)
    ensures InTurn(links, order + [r])
  {
    var more := order + [r];
    forall k | 0 <= k < |more| ensures more[k] < |links| && Ready(links, Done(more[..k]), more[k]) {
      if k < |order| {
        assert more[..k] == order[..k];
      } else {
        assert more[..k] == order;
      }
    }
  }

  lemma {:induction false} GoesOn(links: seq<seq<nat>>, order: seq<nat>) returns (full: seq<nat>)
    requires InRange(links) && InTurn(links, order)
    requires forall p :: Chain(links, p) ==> !Closed(p)
    ensures WorkedOff(links, full)
    decreases |links| - |order|
  {
    InTurnIsDistinct(links, order);
    DoneSize(order);
    if q :| 0 <= q < |links| && q !in Done(order) {
      if forall r | 0 <= r < |links| :: !Ready(links, Done(order), r) {
        var p := StuckLoops(links, Done(order), q);
        assert false;
      }
      var r :| 0 <= r < |links| && Ready(links, Done(order), r);
      OneMoreTurn(links, order, r);
      InTurnIsDistinct(links, order + [r]);
      DoneSize(order + [r]);
      BelowSize(Done(order + [r]), |links|);
      full := GoesOn(links, order + [r]);
    } else {
      full := order;
    }
  }

  /** All the steps of a plan can be done, each when it is ready, exactly when no step
      depends on itself, over however many others. */
  lemma WorksOffExactly(links: seq<seq<nat>>)
    requires InRange(links)
    ensures (exists order :: WorkedOff(links, order)) <==> (forall p :: Chain(links, p) ==> !Closed(p))
  {
    if order :| WorkedOff(links, order) {
      forall p | Chain(links, p) ensures !Closed(p) {
        NoClosedChain(links, order, p);
      }
    }
    if forall p :: Chain(links, p) ==> !Closed(p) {
      var full := GoesOn(links, []);
    }
  }

  // The plan made of what was proposed.

  function LinkTable(raws: seq<Raw>): (t: seq<seq<nat>>)
    ensures |t| == |Result(raws)| && forall q | 0 <= q < |t| :: t[q] == Links(raws, q)
  {
    seq(|Result(raws)|, q requires 0 <= q < |Result(raws)| => Links(raws, q))
  }

  /** What the proposed step `i` lists and validation keeps. */
  function Listed(raws: seq<Raw>, i: nat): seq<nat>
    requires Kept(raws, i)
  {
    Earlier(raws, Digits(raws[i].dependsOn), i)
  }

  /** The proposed step `i` lists the index of `j` less the number of steps dropped before
      `j`, and so is made to depend on it. */
  predicate ReadAs(raws: seq<Raw>, i: nat, j: nat) {
    Kept(raws, i) && Kept(raws, j) && Has(Listed(raws, i), j - DroppedBefore(raws, j))
  }

  ghost predicate ReadingLoop(raws: seq<Raw>, p: seq<nat>) {
    && Closed(p)
    && (forall k | 0 <= k < |p| :: Kept(raws, p[k]))
    && (forall k | 0 <= k < |p| - 1 :: ReadAs(raws, p[k], p[k + 1]))
  }

  lemma {:induction false} SpecListed(raws: seq<Raw>, n: nat, i: nat)
    requires n <= |raws| && i < n && Kept(raws, i)
    ensures Rank(raws, i) < Rank(raws, n)
    ensures Specs(raws, n)[Rank(raws, i)].dependsOn == Digits(raws[i].dependsOn)
  {
    if i < n - 1 {
      SpecListed(raws, n - 1, i);
    }
  }

  lemma LinkIsRead(raws: seq<Raw>, i: nat, j: nat)
    requires Kept(raws, i) && Kept(raws, j)
    ensures Rank(raws, i) < |LinkTable(raws)| && Rank(raws, j) < |LinkTable(raws)|
    ensures Has(LinkTable(raws)[Rank(raws, i)], Rank(raws, j)) <==> ReadAs(raws, i, j)
  {
    SpecListed(raws, |raws|, i);
    SpecListed(raws, |raws|, j);
    SpecAtRank(raws, |raws|, i);
    assert Result(raws)[Rank(raws, i)].dependsOn == Listed(raws, i);
    WithinHas(Listed(raws, i), |Result(raws)|, Rank(raws, j));
  }

  lemma LinksInRange(raws: seq<Raw>)
    ensures InRange(LinkTable(raws))
  {
  }

  lemma LoopInPlan(raws: seq<Raw>, p: seq<nat>) returns (c: seq<nat>)
    requires ReadingLoop(raws, p)
    ensures Chain(LinkTable(raws), c) && Closed(c)
  {
    c := seq(|p|, k requires 0 <= k < |p| => Rank(raws, p[k]));
    forall k | 0 <= k < |p| ensures c[k] < |LinkTable(raws)| {
      SpecListed(raws, |raws|, p[k]);
    }
    forall k: nat | k < |p| - 1 ensures Has(LinkTable(raws)[c[k]], c[k + 1]) {
      LinkIsRead(raws, p[k], p[k + 1]);
    }
  }

  lemma LoopAsRead(raws: seq<Raw>, c: seq<nat>) returns (p: seq<nat>)
    requires Chain(LinkTable(raws), c) && Closed(c)
    ensures ReadingLoop(raws, p)
  {
    p := seq(|c|, k requires 0 <= k < |c| => Result(raws)[c[k]].index);
    forall k | 0 <= k < |p| ensures Kept(raws, p[k]) && Rank(raws, p[k]) == c[k] {
      SpecIndex(raws, |raws|, c[k]);
    }
    forall k | 0 <= k < |p| - 1 ensures ReadAs(raws, p[k], p[k + 1]) {
      LinkIsRead(raws, p[k], p[k + 1]);
    }
  }

  /** The plan made of what was proposed can be worked off exactly when no proposed step is
      read as depending on itself, over however many others. */
  lemma PlanWorksOffExactly(raws: seq<Raw>)
    ensures (exists order :: WorkedOff(LinkTable(raws), order)) <==> (forall p :: !ReadingLoop(raws, p))
  {
    LinksInRange(raws);
    WorksOffExactly(LinkTable(raws));
    if p :| ReadingLoop(raws, p) {
      var c := LoopInPlan(raws, p);
    }
    if c :| Chain(LinkTable(raws), c) && Closed(c) {
      var p := LoopAsRead(raws, c);
    }
  }

  /** Two dropped steps can leave two that wait for each other. */
  lemma DropsMakeALongerLoop()
    ensures var raws := [Proposed("a", []), Junk, Junk, Proposed("b", []), Proposed("c", []),
                         Proposed("d", [Some(4)]), Proposed("e", [Some(3)])];
            && ReadingLoop(raws, [5, 6, 5])
            && forall order :: !WorkedOff(LinkTable(raws), order)
  {
    var raws := [Proposed("a", []), Junk, Junk, Proposed("b", []), Proposed("c", []),
                 Proposed("d", [Some(4)]), Proposed("e", [Some(3)])];
    LongerLoop(raws);
    PlanWorksOffExactly(raws);
  }

  lemma LongerLoop(raws: seq<Raw>)
    requires raws == [Proposed("a", []), Junk, Junk, Proposed("b", []), Proposed("c", []),
                      Proposed("d", [Some(4)]), Proposed("e", [Some(3)])]
    ensures ReadingLoop(raws, [5, 6, 5])
  {
    TwoDroppedRanks(raws);
    ReadsTheOther(raws, 5, 4, 6);
    ReadsTheOther(raws, 6, 3, 5);
  }

  lemma ReadsTheOther(raws: seq<Raw>, i: nat, d: nat, j: nat)
    requires Kept(raws, i) && raws[i].dependsOn == [Some(d)] && Kept(raws, d) && d < i
    requires Kept(raws, j) && Rank(raws, j) == d
    ensures ReadAs(raws, i, j)
  {
    ListsOne(raws, i, d);
  }

  lemma RankNext(raws: seq<Raw>, d: nat)
    requires d < |raws|
    ensures Rank(raws, d + 1) == Rank(raws, d) + (if Kept(raws, d) then 1 else 0)
  {
  }

  lemma TwoDroppedRanks(raws: seq<Raw>)
    requires |raws| > 5 && Kept(raws, 0) && !Kept(raws, 1) && !Kept(raws, 2)
    requires Kept(raws, 3) && Kept(raws, 4) && Kept(raws, 5)
    ensures Rank(raws, 5) == 3 && Rank(raws, 6) == 4
  {
    RankNext(raws, 0);
    RankNext(raws, 1);
    RankNext(raws, 2);
    RankNext(raws, 3);
    RankNext(raws, 4);
    RankNext(raws, 5);
  }

  lemma ListsOne(raws: seq<Raw>, i: nat, d: nat)
    requires Kept(raws, i) && raws[i].dependsOn == [Some(d)] && Kept(raws, d) && d < i
    ensures Has(Listed(raws, i), d)
  {
    assert Digits([]) == [] && [Some(d)][..0] == [];
    assert Digits([Some(d)]) == [d];
    OneKept(raws, d, i);
  }
}
