/** The walk from a timeline entry back to its root cause (`causalChain` in
    `apps/web/src/lib/reel.ts`), over links that may dangle or form a cycle. */
module CausalChain {
  import opened Wrappers

  /** A timeline entry; an empty `causedBy` is a root. */
  datatype Entry = Entry(id: string, causedBy: string, summary: string)

  const MaxChainDepth: nat := 64

  datatype Chain = Chain(entries: seq<Entry>, truncated: bool, dangling: seq<string>)

  /** `new Map(timeline.map(…)).get(id)`: the last entry with that id. */
  function Lookup(timeline: seq<Entry>, id: string): (e: Option<Entry>)
    ensures e.Some? ==> e.value.id == id && e.value in timeline
    ensures e.None? <==> forall i | 0 <= i < |timeline| :: timeline[i].id != id
  {
    if timeline == [] then None
    else if timeline[|timeline| - 1].id == id then Some(timeline[|timeline| - 1])
    else Lookup(timeline[..|timeline| - 1], id)
  }

  function Index(timeline: seq<Entry>): map<string, Entry> {
    if timeline == [] then map[]
    else Index(timeline[..|timeline| - 1])[timeline[|timeline| - 1].id := timeline[|timeline| - 1]]
  }

  lemma {:induction false} IndexLooksUp(timeline: seq<Entry>, id: string)
    ensures id in Index(timeline) <==> Lookup(timeline, id).Some?
    ensures id in Index(timeline) ==> Index(timeline)[id] == Lookup(timeline, id).value
  {
    if timeline != [] {
      IndexLooksUp(timeline[..|timeline| - 1], id);
    }
  }

  /** What comes after the walk `p`: its start, or the cause of its last entry. */
  function Next(timeline: seq<Entry>, startId: string, p: seq<Entry>): Option<Entry> {
    if p == [] then Lookup(timeline, startId)
    else if p[|p| - 1].causedBy == "" then None
    else Lookup(timeline, p[|p| - 1].causedBy)
  }

  /** `p` follows the links back from `startId`. */
  ghost predicate Path(timeline: seq<Entry>, startId: string, p: seq<Entry>) {
    forall i {:trigger p[..i]} | 0 <= i < |p| :: Next(timeline, startId, p[..i]) == Some(p[i])
  }

  ghost predicate Visits(p: seq<Entry>, id: string) {
    exists i :: 0 <= i < |p| && p[i].id == id
  }

  ghost predicate AllDistinct(p: seq<Entry>) {
    forall i, j | 0 <= i < j < |p| :: p[i].id != p[j].id
  }

  ghost predicate Repeats(timeline: seq<Entry>, startId: string, p: seq<Entry>) {
    var next := Next(timeline, startId, p);
    next.Some? && Visits(p, next.value.id)
  }

  /** The last entry names a cause that is not in the timeline. */
  predicate LosesThread(timeline: seq<Entry>, startId: string, p: seq<Entry>) {
    p != [] && p[|p| - 1].causedBy != "" && Next(timeline, startId, p).None?
  }

  /** The longest walk back from `startId` without a repeat, up to the depth limit. */
  ghost predicate Walk(timeline: seq<Entry>, startId: string, p: seq<Entry>) {
    && |p| <= MaxChainDepth
    && Path(timeline, startId, p)
    && AllDistinct(p)
    && (|p| < MaxChainDepth ==> Next(timeline, startId, p).None? || Repeats(timeline, startId, p))
  }

  lemma SameStart(timeline: seq<Entry>, startId: string, p: seq<Entry>, q: seq<Entry>, n: nat)
    requires Path(timeline, startId, p) && Path(timeline, startId, q) && n < |p| && n < |q| && p[..n] == q[..n]
    ensures p[n] == q[n]
  {
    assert Next(timeline, startId, p[..n]) == Some(p[n]);
    assert Next(timeline, startId, q[..n]) == Some(q[n]);
  }

  lemma {:induction false} PathsAgree(timeline: seq<Entry>, startId: string, p: seq<Entry>, q: seq<Entry>, n: nat)
    requires Path(timeline, startId, p) && Path(timeline, startId, q) && n <= |p| && n <= |q|
    ensures p[..n] == q[..n]
  {
    if n > 0 {
      PathsAgree(timeline, startId, p, q, n - 1);
      SameStart(timeline, startId, p, q, n - 1);
      assert p[..n] == p[..n - 1] + [p[n - 1]] && q[..n] == q[..n - 1] + [q[n - 1]];
    }
  }

  /** The longer of two paths says how the shorter goes on. */
  lemma GoesOn(timeline: seq<Entry>, startId: string, p: seq<Entry>, q: seq<Entry>)
    requires Path(timeline, startId, p) && Path(timeline, startId, q) && AllDistinct(q) && |p| < |q|
    ensures Next(timeline, startId, p) == Some(q[|p|]) && !Repeats(timeline, startId, p)
  {
    PathsAgree(timeline, startId, p, q, |p|);
    assert p[..|p|] == p;
    assert forall i | 0 <= i < |p| :: p[i] == q[..|p|][i];
  }

  lemma NotShorter(timeline: seq<Entry>, startId: string, p: seq<Entry>, q: seq<Entry>)
    requires Walk(timeline, startId, p) && Walk(timeline, startId, q)
    ensures |p| >= |q|
  {
    if |p| < |q| {
      GoesOn(timeline, startId, p, q);
    }
  }

  /** There is one such walk. */
  lemma WalkIsUnique(timeline: seq<Entry>, startId: string, p: seq<Entry>, q: seq<Entry>)
    requires Walk(timeline, startId, p) && Walk(timeline, startId, q)
    ensures p == q
  {
    NotShorter(timeline, startId, p, q);
    NotShorter(timeline, startId, q, p);
    PathsAgree(timeline, startId, p, q, |p|);
    assert p[..|p|] == p && q[..|q|] == q;
  }

  function Reverse(s: seq<Entry>): (r: seq<Entry>)
    ensures |r| == |s| && forall i | 0 <= i < |s| :: r[|s| - 1 - i] == s[i]
  {
    if s == [] then [] else [s[|s| - 1]] + Reverse(s[..|s| - 1])
  }

  lemma ReverseTwice(s: seq<Entry>)
    ensures Reverse(Reverse(s)) == s
  {
    forall i | 0 <= i < |s| ensures Reverse(Reverse(s))[i] == s[i] {
      assert Reverse(Reverse(s))[|s| - 1 - (|s| - 1 - i)] == Reverse(s)[|s| - 1 - i];
    }
  }

  lemma PathSnoc(timeline: seq<Entry>, startId: string, p: seq<Entry>, e: Entry)
    requires Path(timeline, startId, p) && AllDistinct(p)
    requires Next(timeline, startId, p) == Some(e) && !Visits(p, e.id)
    ensures Path(timeline, startId, p + [e]) && AllDistinct(p + [e])
    ensures forall id :: Visits(p + [e], id) <==> Visits(p, id) || id == e.id
  {
    assert (p + [e])[..|p|] == p;
    forall i | 0 <= i < |p| ensures Next(timeline, startId, (p + [e])[..i]) == Some(p[i]) {
      assert (p + [e])[..i] == p[..i];
    }
    forall id ensures Visits(p + [e], id) <==> Visits(p, id) || id == e.id {
      if Visits(p, id) {
        var i :| 0 <= i < |p| && p[i].id == id;
        assert (p + [e])[i].id == id;
      }
      assert (p + [e])[|p|].id == e.id;
    }
  }

  /** Why the walk stopped, as the two flags say it. */
  ghost predicate Reported(timeline: seq<Entry>, startId: string, p: seq<Entry>, truncated: bool, dangling: seq<string>) {
    && (truncated <==> |p| == MaxChainDepth || Repeats(timeline, startId, p))
    && dangling == (if |p| < MaxChainDepth && LosesThread(timeline, startId, p) then [p[|p| - 1].causedBy] else [])
  }

  /** The walk so far and the ids it has seen. */
  ghost predicate Underway(timeline: seq<Entry>, startId: string, p: seq<Entry>, seen: set<string>) {
    && Path(timeline, startId, p) && AllDistinct(p)
    && forall id :: id in seen <==> Visits(p, id)
  }

  lemma Onward(timeline: seq<Entry>, startId: string, p: seq<Entry>, seen: set<string>, e: Entry)
    requires Underway(timeline, startId, p, seen) && Next(timeline, startId, p) == Some(e) && e.id !in seen
    ensures Underway(timeline, startId, p + [e], seen + {e.id})
    ensures Next(timeline, startId, p + [e]) == (if e.causedBy == "" then None else Lookup(timeline, e.causedBy))
  {
    PathSnoc(timeline, startId, p, e);
  }

  lemma Stops(timeline: seq<Entry>, startId: string, p: seq<Entry>, seen: set<string>)
    requires Underway(timeline, startId, p, seen) && |p| <= MaxChainDepth
    requires var next := Next(timeline, startId, p);
             |p| == MaxChainDepth || next.None? || next.value.id in seen
    ensures Walk(timeline, startId, p)
    ensures var next := Next(timeline, startId, p);
            Repeats(timeline, startId, p) <==> next.Some? && next.value.id in seen
  {
  }

  /** The loop of `causalChain`. */
  method WalkBack(timeline: seq<Entry>, startId: string)
    returns (reversed: seq<Entry>, truncated: bool, dangling: seq<string>)
    ensures Walk(timeline, startId, reversed)
    ensures Reported(timeline, startId, reversed, truncated, dangling)
  {
    var byId := Index(timeline);
    reversed, truncated, dangling := [], false, [];
    var seen: set<string> := {};
    IndexLooksUp(timeline, startId);
    var current := if startId in byId then Some(byId[startId]) else None;
    while current.Some?
      invariant |reversed| < MaxChainDepth
      invariant Underway(timeline, startId, reversed, seen)
      invariant !truncated && dangling == []
      invariant current == Next(timeline, startId, reversed)
      invariant reversed != [] ==> current.Some?
      decreases MaxChainDepth - |reversed|
    {
      var e := current.value;
      if e.id in seen {
        truncated := true;
        Stops(timeline, startId, reversed, seen);
        return;
      }
      Onward(timeline, startId, reversed, seen, e);
      seen := seen + {e.id};
      reversed := reversed + [e];
      if |reversed| >= MaxChainDepth {
        truncated := true;
        Stops(timeline, startId, reversed, seen);
        return;
      }
      if e.causedBy == "" {
        Stops(timeline, startId, reversed, seen);
        return;
      }
      IndexLooksUp(timeline, e.causedBy);
      if e.causedBy !in byId {
        dangling := dangling + [e.causedBy];
        Stops(timeline, startId, reversed, seen);
        return;
      }
      current := Some(byId[e.causedBy]);
    }
    Stops(timeline, startId, reversed, seen);
  }

  /** `causalChain`. The entries run from the furthest cause reached to the entry asked
      about: the walk back, turned round. */
  method CausalChain(timeline: seq<Entry>, startId: string) returns (chain: Chain)
    ensures Walk(timeline, startId, Reverse(chain.entries))
    ensures Reported(timeline, startId, Reverse(chain.entries), chain.truncated, chain.dangling)
  {
    var reversed, truncated, dangling := WalkBack(timeline, startId);
    ReverseTwice(reversed);
    chain := Chain(Reverse(reversed), truncated, dangling);
  }

  // What the flag tells of the links.

  /** Following the links back from `startId` comes to an end, at a root or at a missing
      cause, in fewer than `n` entries. */
  ghost predicate EndsBelow(timeline: seq<Entry>, startId: string, n: nat) {
    exists q :: Path(timeline, startId, q) && |q| < n && Next(timeline, startId, q).None?
  }

  lemma EntryIsFound(timeline: seq<Entry>, startId: string, q: seq<Entry>, i: nat)
    requires Path(timeline, startId, q) && i < |q|
    ensures Lookup(timeline, q[i].id) == Some(q[i])
  {
    assert Next(timeline, startId, q[..i]) == Some(q[i]);
  }

  lemma SameEntrySameNext(timeline: seq<Entry>, startId: string, q: seq<Entry>, a: nat, b: nat)
    requires a < |q| && b < |q| && q[a] == q[b]
    ensures Next(timeline, startId, q[..a + 1]) == Next(timeline, startId, q[..b + 1])
  {
    assert q[..a + 1][a] == q[a] && q[..b + 1][b] == q[b];
  }

  lemma StepTogether(timeline: seq<Entry>, startId: string, q: seq<Entry>, a: nat, b: nat)
    requires Path(timeline, startId, q) && a + 1 < |q| && b + 1 < |q| && q[a] == q[b]
    ensures q[a + 1] == q[b + 1]
  {
    SameEntrySameNext(timeline, startId, q, a, b);
    assert Next(timeline, startId, q[..a + 1]) == Some(q[a + 1]);
    assert Next(timeline, startId, q[..b + 1]) == Some(q[b + 1]);
  }

  lemma {:induction false} RepeatGoesOn(timeline: seq<Entry>, startId: string, q: seq<Entry>, i: nat, j: nat, k: nat)
    requires Path(timeline, startId, q) && i < j && j + k < |q| && q[i] == q[j]
    ensures q[i + k] == q[j + k]
  {
    if k > 0 {
      RepeatGoesOn(timeline, startId, q, i, j, k - 1);
      StepTogether(timeline, startId, q, i + k - 1, j + k - 1);
    }
  }

  /** Links that come back to an entry do not end. */
  lemma RepeatNeverEnds(timeline: seq<Entry>, startId: string, q: seq<Entry>, i: nat, j: nat)
    requires Path(timeline, startId, q) && i < j < |q| && q[i].id == q[j].id
    ensures Next(timeline, startId, q).Some?
  {
    EntryIsFound(timeline, startId, q, i);
    EntryIsFound(timeline, startId, q, j);
    var last := |q| - 1;
    var n := i + (last - j);
    RepeatGoesOn(timeline, startId, q, i, j, last - j);
    SameEntrySameNext(timeline, startId, q, n, last);
    assert q[..last + 1] == q;
    assert Next(timeline, startId, q[..n + 1]) == Some(q[n + 1]);
  }

  lemma EndingIsDistinct(timeline: seq<Entry>, startId: string, q: seq<Entry>)
    requires Path(timeline, startId, q) && Next(timeline, startId, q).None?
    ensures AllDistinct(q)
  {
    forall i, j | 0 <= i < j < |q| ensures q[i].id != q[j].id {
      if q[i].id == q[j].id {
        RepeatNeverEnds(timeline, startId, q, i, j);
      }
    }
  }

  /** `truncated` says exactly that the links, followed back from the entry, do not come to
      an end in fewer than 64 entries: they run in a cycle, or on to a 64th. A missing
      cause before that does not set it. */
  lemma TruncatedExactly(timeline: seq<Entry>, startId: string, p: seq<Entry>, truncated: bool, dangling: seq<string>)
    requires Walk(timeline, startId, p) && Reported(timeline, startId, p, truncated, dangling)
    ensures truncated <==> !EndsBelow(timeline, startId, 64)
  {
    if EndsBelow(timeline, startId, MaxChainDepth) {
      var q :| Path(timeline, startId, q) && |q| < MaxChainDepth && Next(timeline, startId, q).None?;
      EndingIsDistinct(timeline, startId, q);
      WalkIsUnique(timeline, startId, p, q);
    }
  }

  /** The walk, told on its entries: it begins at the one asked about, each entry after it is
      the cause that the one before names, each is the last entry of the timeline with its id,
      and there are at most 64. */
  lemma WalkFollows(timeline: seq<Entry>, startId: string, p: seq<Entry>, k: nat)
    requires Walk(timeline, startId, p) && k < |p|
    ensures |p| <= 64 && IsLast(timeline, p[k])
    ensures k == 0 ==> p[k].id == startId
    ensures k > 0 ==> p[k].id == p[k - 1].causedBy != ""
  {
    PathStep(timeline, startId, p, k);
    LookupIsLast(timeline, p[k].id);
  }

  lemma PathStep(timeline: seq<Entry>, startId: string, p: seq<Entry>, k: nat)
    requires Path(timeline, startId, p) && k < |p|
    ensures Lookup(timeline, p[k].id) == Some(p[k])
    ensures k == 0 ==> p[k].id == startId
    ensures k > 0 ==> p[k].id == p[k - 1].causedBy != ""
  {
    assert Next(timeline, startId, p[..k]) == Some(p[k]);
    assert k > 0 ==> p[..k][k - 1] == p[k - 1];
  }

  ghost predicate IsLast(timeline: seq<Entry>, e: Entry) {
    exists k :: 0 <= k < |timeline| && timeline[k] == e && forall j | k < j < |timeline| :: timeline[j].id != e.id
  }

  lemma StillLast(front: seq<Entry>, last: Entry, e: Entry)
    requires IsLast(front, e) && last.id != e.id
    ensures IsLast(front + [last], e)
  {
    var k :| 0 <= k < |front| && front[k] == e && forall j | k < j < |front| :: front[j].id != e.id;
    assert (front + [last])[k] == e;
  }

  lemma LastIsLast(front: seq<Entry>, last: Entry)
    ensures IsLast(front + [last], last)
  {
    assert (front + [last])[|front|] == last;
  }

  lemma {:induction false} LookupIsLast(timeline: seq<Entry>, id: string)
    ensures Lookup(timeline, id).Some? ==> IsLast(timeline, Lookup(timeline, id).value)
  {
    if timeline != [] {
      var front, last := timeline[..|timeline| - 1], timeline[|timeline| - 1];
      assert timeline == front + [last];
      if last.id == id {
        LastIsLast(front, last);
      } else if Lookup(front, id).Some? {
        LookupIsLast(front, id);
        StillLast(front, last, Lookup(front, id).value);
      }
    }
  }

  /** A cause is reported dangling exactly when the links come to it, in fewer than 64 entries,
      and no entry of the timeline has that id. */
  lemma DanglingExactly(timeline: seq<Entry>, startId: string, p: seq<Entry>, truncated: bool, dangling: seq<string>, id: string)
    requires Walk(timeline, startId, p) && Reported(timeline, startId, p, truncated, dangling)
    ensures |dangling| <= 1
    ensures id in dangling
       <==> id != "" && (forall i | 0 <= i < |timeline| :: timeline[i].id != id)
            && exists q: seq<Entry> :: Path(timeline, startId, q) && 0 < |q| < 64 && q[|q| - 1].causedBy == id
  {
    if id in dangling {
      assert dangling == [id];
      assert Path(timeline, startId, p) && 0 < |p| < 64 && p[|p| - 1].causedBy == id;
    }
    if id != "" && forall i | 0 <= i < |timeline| :: timeline[i].id != id {
      if q: seq<Entry> :| Path(timeline, startId, q) && 0 < |q| < 64 && q[|q| - 1].causedBy == id {
        assert Next(timeline, startId, q) == None;
        EndingIsDistinct(timeline, startId, q);
        WalkIsUnique(timeline, startId, p, q);
      }
    }
  }

  // A chain of as many entries as the walk may have.

  function Name(n: nat): (s: string)
    ensures |s| == n
  {
    if n == 0 then "" else Name(n - 1) + "x"
  }

  function Link(n: nat): Entry
    requires n > 0
  {
    Entry(Name(n), Name(n - 1), "")
  }

  /** Entry `i` is caused by entry `i - 1`, and the first one is a root. */
  function Line(n: nat): (t: seq<Entry>)
    ensures |t| == n
  {
    if n == 0 then [] else Line(n - 1) + [Link(n)]
  }

  lemma {:induction false} LineLooksUp(n: nat, k: nat)
    requires 1 <= k <= n
    ensures Lookup(Line(n), Name(k)) == Some(Link(k))
  {
    assert Line(n)[..n - 1] == Line(n - 1);
    assert |Name(n)| == n && |Name(k)| == k;
    if k < n {
      LineLooksUp(n - 1, k);
    }
  }

  /** The walk back over that line, `k` entries long. */
  function LineBack(n: nat, k: nat): (p: seq<Entry>)
    requires k <= n
    ensures |p| == k && forall i | 0 <= i < k :: p[i] == Link(n - i)
  {
    seq(k, i requires 0 <= i < k => Link(n - i))
  }

  lemma {:induction false} LineWalk(n: nat, k: nat)
    requires k <= n
    ensures Path(Line(n), Name(n), LineBack(n, k)) && AllDistinct(LineBack(n, k))
  {
    var p := LineBack(n, k);
    forall i | 0 <= i < |p| ensures Next(Line(n), Name(n), p[..i]) == Some(p[i]) {
      LineLooksUp(n, n - i);
      assert i > 0 ==> p[..i][i - 1] == Link(n - i + 1);
      assert |Name(n - i)| == n - i;
    }
    forall i, j | 0 <= i < j < |p| ensures p[i].id != p[j].id {
      assert |Name(n - i)| == n - i && |Name(n - j)| == n - j;
    }
  }

  /** A chain of 64 that does end at its root is reported as truncated. */
  lemma RootAtTheLimit()
    ensures exists p :: Walk(Line(MaxChainDepth), Name(MaxChainDepth), p)
                        && Next(Line(MaxChainDepth), Name(MaxChainDepth), p).None?
                        && Reported(Line(MaxChainDepth), Name(MaxChainDepth), p, true, [])
  {
    var n := MaxChainDepth;
    LineWalk(n, n);
    assert Walk(Line(n), Name(n), LineBack(n, n));
    assert LineBack(n, n)[n - 1] == Link(1) && Link(1).causedBy == "";
    assert Reported(Line(n), Name(n), LineBack(n, n), true, []);
  }
}
