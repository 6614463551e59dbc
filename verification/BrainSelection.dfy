/** Choosing what a lane is told before it starts (`select_for_injection` in
    `brain/store.py`): filter by belief and relevance, rank, cut to the budget, count. */
module BrainSelection {
  import opened BrainStore

  /** A persisted entry with its injection counter. */
  datatype Row = Row(entry: Entry, injections: nat)

  /** A ranked entry: its score and its place in the listing, which is newest first. */
  datatype Scored = Scored(score: real, place: nat)

  /** Active, above the floor, and about a file the lane touches, when it says which. */
  predicate Eligible(e: Entry, wanted: set<string>) {
    && e.status == Active
    && e.confidence >= InjectionFloor
    && (e.anchorPath != "" && wanted != {} ==> e.anchorPath in wanted)
  }

  function Relevance(e: Entry, wanted: set<string>): real {
    if e.anchorPath != "" then (if e.anchorPath in wanted then 1.0 else 0.5)
    else if e.confirmedBy != "" then 0.7 else 0.3
  }

  function Score(e: Entry, wanted: set<string>): real {
    Relevance(e, wanted) * e.confidence
  }

  /** The eligible entries among the first `n`, in listing order. */
  function Candidates(rows: seq<Row>, wanted: set<string>, n: nat): seq<Scored>
    requires n <= |rows|
  {
    if n == 0 then []
    else if Eligible(rows[n - 1].entry, wanted) then
      Candidates(rows, wanted, n - 1) + [Scored(Score(rows[n - 1].entry, wanted), n - 1)]
    else Candidates(rows, wanted, n - 1)
  }

  /** Before everything with a lower score, after everything else: a stable sort. */
  function InsertScored(x: Scored, s: seq<Scored>): seq<Scored> {
    if s == [] || s[|s| - 1].score >= x.score then s + [x]
    else InsertScored(x, s[..|s| - 1]) + [s[|s| - 1]]
  }

  function Rank(s: seq<Scored>): seq<Scored> {
    if s == [] then [] else InsertScored(s[|s| - 1], Rank(s[..|s| - 1]))
  }

  /** `s[:budget]`: a negative budget cuts from the end. */
  function Cut(s: seq<Scored>, budget: int): (r: seq<Scored>)
    ensures r <= s
  {
    var n := if budget >= 0 then budget else |s| + budget;
    if n <= 0 then [] else if n >= |s| then s else s[..n]
  }

  function Chosen(rows: seq<Row>, wanted: set<string>, budget: int): seq<Scored> {
    Cut(Rank(Candidates(rows, wanted, |rows|)), budget)
  }

  // Ranking.

  /** A higher score, or the same score and a newer entry. */
  predicate Outranks(a: Scored, b: Scored) {
    a.score > b.score || (a.score == b.score && a.place < b.place)
  }

  ghost predicate Ranked(s: seq<Scored>) {
    forall i, j | 0 <= i < j < |s| :: Outranks(s[i], s[j])
  }

  ghost predicate PlacesBelow(s: seq<Scored>, n: nat) {
    forall i | 0 <= i < |s| :: s[i].place < n
  }

  lemma RankedSnoc(s: seq<Scored>, x: Scored)
    requires Ranked(s) && (s != [] ==> Outranks(s[|s| - 1], x))
    ensures Ranked(s + [x])
  {
    forall i | 0 <= i < |s| ensures Outranks(s[i], x) {
      if i < |s| - 1 {
        assert Outranks(s[i], s[|s| - 1]);
      }
    }
  }

  lemma {:induction false} InsertRanks(x: Scored, s: seq<Scored>)
    requires Ranked(s) && PlacesBelow(s, x.place)
    ensures var r := InsertScored(x, s);
            Ranked(r) && r != [] && (r[|r| - 1] == x || (s != [] && r[|r| - 1] == s[|s| - 1]))
  {
    if s == [] || s[|s| - 1].score >= x.score {
      RankedSnoc(s, x);
    } else {
      var front, last := s[..|s| - 1], s[|s| - 1];
      InsertRanks(x, front);
      assert front != [] ==> Outranks(front[|front| - 1], last);
      RankedSnoc(InsertScored(x, front), last);
    }
  }

  lemma {:induction false} InsertKeeps(x: Scored, s: seq<Scored>)
    ensures multiset(InsertScored(x, s)) == multiset(s) + multiset{x}
  {
    if s != [] && s[|s| - 1].score < x.score {
      var front, last := s[..|s| - 1], s[|s| - 1];
      InsertKeeps(x, front);
      assert s == front + [last];
    }
  }

  lemma PlacesKept(s: seq<Scored>, t: seq<Scored>, n: nat)
    requires multiset(s) == multiset(t) && PlacesBelow(s, n)
    ensures PlacesBelow(t, n)
  {
    forall i | 0 <= i < |t| ensures t[i].place < n {
      assert t[i] in multiset(s);
    }
  }

  ghost predicate PlacesAscend(s: seq<Scored>) {
    forall i, j | 0 <= i < j < |s| :: s[i].place < s[j].place
  }

  lemma {:induction false} CandidatesAscend(rows: seq<Row>, wanted: set<string>, n: nat)
    requires n <= |rows|
    ensures PlacesBelow(Candidates(rows, wanted, n), n) && PlacesAscend(Candidates(rows, wanted, n))
    decreases n
  {
    if n > 0 {
      CandidatesAscend(rows, wanted, n - 1);
    }
  }

  /** One more candidate, from a later place, ranked into those before it. */
  lemma RankSnoc(before: seq<Scored>, x: Scored)
    requires Ranked(Rank(before)) && multiset(Rank(before)) == multiset(before)
    requires PlacesBelow(before, x.place)
    ensures Ranked(Rank(before + [x]))
    ensures multiset(Rank(before + [x])) == multiset(before + [x])
  {
    assert (before + [x])[..|before|] == before;
    PlacesKept(before, Rank(before), x.place);
    InsertRanks(x, Rank(before));
    InsertKeeps(x, Rank(before));
    assert Rank(before + [x]) == InsertScored(x, Rank(before));
  }

  lemma AscendSnoc(front: seq<Scored>, x: Scored)
    requires PlacesAscend(front + [x])
    ensures PlacesAscend(front) && PlacesBelow(front, x.place)
  {
    var s := front + [x];
    assert s[|front|] == x && forall i | 0 <= i < |front| :: front[i] == s[i];
  }

  lemma {:induction false} RankRanks(s: seq<Scored>)
    requires PlacesAscend(s)
    ensures Ranked(Rank(s)) && multiset(Rank(s)) == multiset(s)
  {
    if s == [] {
      return;
    }
    var front, x := s[..|s| - 1], s[|s| - 1];
    assert s == front + [x];
    AscendSnoc(front, x);
    RankRanks(front);
    RankSnoc(front, x);
  }

  lemma CandidatesRank(rows: seq<Row>, wanted: set<string>)
    ensures var candidates := Candidates(rows, wanted, |rows|);
            Ranked(Rank(candidates)) && multiset(Rank(candidates)) == multiset(candidates)
  {
    CandidatesAscend(rows, wanted, |rows|);
    RankRanks(Candidates(rows, wanted, |rows|));
  }

  lemma {:induction false} CandidatesExactly(rows: seq<Row>, wanted: set<string>, n: nat, x: Scored)
    requires n <= |rows|
    ensures x in multiset(Candidates(rows, wanted, n))
       <==> x.place < n && Eligible(rows[x.place].entry, wanted) && x.score == Score(rows[x.place].entry, wanted)
  {
    if n > 0 {
      CandidatesExactly(rows, wanted, n - 1, x);
    }
  }

  /** What is chosen is eligible; what is eligible and not chosen is outranked by
      everything that is. */
  lemma ChosenAreBest(rows: seq<Row>, wanted: set<string>, budget: int)
    ensures var chosen := Chosen(rows, wanted, budget);
            && Ranked(chosen)
            && (forall i | 0 <= i < |chosen| ::
                  chosen[i].place < |rows| && Eligible(rows[chosen[i].place].entry, wanted)
                  && chosen[i].score == Score(rows[chosen[i].place].entry, wanted))
            && (forall p | 0 <= p < |rows| && Eligible(rows[p].entry, wanted) ::
                  var x := Scored(Score(rows[p].entry, wanted), p);
                  x in chosen || forall i | 0 <= i < |chosen| :: Outranks(chosen[i], x))
  {
    var ranked, chosen := Rank(Candidates(rows, wanted, |rows|)), Chosen(rows, wanted, budget);
    CandidatesRank(rows, wanted);
    forall i | 0 <= i < |chosen|
      ensures chosen[i].place < |rows| && Eligible(rows[chosen[i].place].entry, wanted)
              && chosen[i].score == Score(rows[chosen[i].place].entry, wanted)
    {
      RankedAreCandidates(rows, wanted, ranked, chosen[i], i);
    }
    forall p | 0 <= p < |rows| && Eligible(rows[p].entry, wanted)
      ensures var x := Scored(Score(rows[p].entry, wanted), p);
              x in chosen || forall i | 0 <= i < |chosen| :: Outranks(chosen[i], x)
    {
      var x := Scored(Score(rows[p].entry, wanted), p);
      CandidatesExactly(rows, wanted, |rows|, x);
      assert x in multiset(ranked);
      LeftOutIsOutranked(ranked, chosen, x);
    }
  }

  lemma RankedAreCandidates(rows: seq<Row>, wanted: set<string>, ranked: seq<Scored>, x: Scored, i: nat)
    requires multiset(ranked) == multiset(Candidates(rows, wanted, |rows|)) && i < |ranked| && ranked[i] == x
    ensures x.place < |rows| && Eligible(rows[x.place].entry, wanted) && x.score == Score(rows[x.place].entry, wanted)
  {
    assert x in multiset(ranked);
    CandidatesExactly(rows, wanted, |rows|, x);
  }

  lemma LeftOutIsOutranked(ranked: seq<Scored>, chosen: seq<Scored>, x: Scored)
    requires Ranked(ranked) && chosen <= ranked && x in ranked
    ensures x in chosen || forall i | 0 <= i < |chosen| :: Outranks(chosen[i], x)
  {
    var k :| 0 <= k < |ranked| && ranked[k] == x;
    if k < |chosen| {
      assert chosen[k] == x;
    } else {
      assert forall i | 0 <= i < |chosen| :: chosen[i] == ranked[i];
    }
  }

  /** The budget caps what is chosen exactly when it is not negative, or cuts off at least
      as many entries as there are. */
  lemma BudgetCapsExactly(rows: seq<Row>, wanted: set<string>, budget: int)
    ensures var n := |Candidates(rows, wanted, |rows|)|;
            |Chosen(rows, wanted, budget)| <= (if budget > 0 then budget else 0) <==> budget >= 0 || n <= -budget
    ensures var n := |Candidates(rows, wanted, |rows|)|;
            0 <= budget ==> |Chosen(rows, wanted, budget)| == if budget < n then budget else n
  {
    CandidatesRank(rows, wanted);
    var candidates := Candidates(rows, wanted, |rows|);
    assert |multiset(Rank(candidates))| == |multiset(candidates)|;
  }

  // Told on the fields.

  /** The store counts the entry in: active, at least 0.5, and either about no file, or about
      one of those wanted, or no file was named. */
  predicate CountsIn(e: Entry, wanted: set<string>) {
    e.status == Active && e.confidence >= 0.5 && (e.anchorPath == "" || wanted == {} || e.anchorPath in wanted)
  }

  /** What it is worth: its confidence whole for a wanted file, half for another file, and
      without a file seven tenths if somebody confirmed it and three if not. */
  function Worth(e: Entry, wanted: set<string>): real {
    if e.anchorPath == "" then (if e.confirmedBy == "" then e.confidence * 0.3 else e.confidence * 0.7)
    else if e.anchorPath in wanted then e.confidence
    else e.confidence * 0.5
  }

  /** `p` is worth more than `q`, or as much and stands before it in the listing. */
  predicate Above(rows: seq<Row>, wanted: set<string>, p: nat, q: nat)
    requires p < |rows| && q < |rows|
  {
    var a, b := Worth(rows[p].entry, wanted), Worth(rows[q].entry, wanted);
    a > b || (a == b && p < q)
  }

  /** The places that count in, among the first `n`. */
  function Places(rows: seq<Row>, wanted: set<string>, n: nat): set<nat>
    requires n <= |rows|
  {
    set p: nat | p < n && CountsIn(rows[p].entry, wanted)
  }

  lemma FieldsDecide(e: Entry, wanted: set<string>)
    ensures Eligible(e, wanted) <==> CountsIn(e, wanted)
    ensures Score(e, wanted) == Worth(e, wanted)
  {
  }

  lemma {:induction false} CandidatesCount(rows: seq<Row>, wanted: set<string>, n: nat)
    requires n <= |rows|
    ensures |Candidates(rows, wanted, n)| == |Places(rows, wanted, n)|
    decreases n
  {
    if n == 0 {
      assert Places(rows, wanted, n) == {};
    } else {
      CandidatesCount(rows, wanted, n - 1);
      FieldsDecide(rows[n - 1].entry, wanted);
      var before := Places(rows, wanted, n - 1);
      assert Places(rows, wanted, n)
          == if CountsIn(rows[n - 1].entry, wanted) then before + {n - 1} else before;
    }
  }

  /** What is chosen, by its place in the listing: entries that count in, each above the next,
      and above every one that counts in and is left out; as many as the budget allows, where a
      negative budget leaves out that many of the lowest. */
  lemma ChosenExactly(rows: seq<Row>, wanted: set<string>, budget: int)
    ensures var chosen, n := Chosen(rows, wanted, budget), |Places(rows, wanted, |rows|)|;
            && (forall i | 0 <= i < |chosen| :: chosen[i].place in Places(rows, wanted, |rows|))
            && (forall i, j | 0 <= i < j < |chosen| :: Above(rows, wanted, chosen[i].place, chosen[j].place))
            && (forall q, j | q in Places(rows, wanted, |rows|) && 0 <= j < |chosen| ::
                  (exists i :: 0 <= i < |chosen| && chosen[i].place == q) || Above(rows, wanted, chosen[j].place, q))
            && |chosen| == (if budget >= n then n else if budget >= 0 then budget
                            else if n + budget > 0 then n + budget else 0)
  {
    var chosen := Chosen(rows, wanted, budget);
    ChosenAreBest(rows, wanted, budget);
    CandidatesCount(rows, wanted, |rows|);
    CandidatesRank(rows, wanted);
    assert |multiset(Rank(Candidates(rows, wanted, |rows|)))| == |multiset(Candidates(rows, wanted, |rows|))|;
    ChosenCountIn(rows, wanted, budget);
    forall q, j | q in Places(rows, wanted, |rows|) && 0 <= j < |chosen|
      ensures (exists i :: 0 <= i < |chosen| && chosen[i].place == q) || Above(rows, wanted, chosen[j].place, q)
    {
      FieldsDecide(rows[q].entry, wanted);
      OneLeftOut(rows, wanted, chosen, q, j);
    }
  }

  lemma ChosenCountIn(rows: seq<Row>, wanted: set<string>, budget: int)
    ensures var chosen := Chosen(rows, wanted, budget);
            && (forall i | 0 <= i < |chosen| ::
                  chosen[i].place in Places(rows, wanted, |rows|)
                  && chosen[i].score == Worth(rows[chosen[i].place].entry, wanted))
            && forall i, j | 0 <= i < j < |chosen| :: Above(rows, wanted, chosen[i].place, chosen[j].place)
  {
    var chosen := Chosen(rows, wanted, budget);
    ChosenAreBest(rows, wanted, budget);
    forall i | 0 <= i < |chosen|
      ensures chosen[i].place in Places(rows, wanted, |rows|)
      ensures chosen[i].score == Worth(rows[chosen[i].place].entry, wanted)
    {
      FieldsDecide(rows[chosen[i].place].entry, wanted);
    }
  }

  lemma OneLeftOut(rows: seq<Row>, wanted: set<string>, chosen: seq<Scored>, q: nat, j: nat)
    requires q < |rows| && j < |chosen| && chosen[j].place < |rows|
    requires chosen[j].score == Worth(rows[chosen[j].place].entry, wanted)
    requires var x := Scored(Worth(rows[q].entry, wanted), q);
             x in chosen || forall i | 0 <= i < |chosen| :: Outranks(chosen[i], x)
    ensures (exists i :: 0 <= i < |chosen| && chosen[i].place == q) || Above(rows, wanted, chosen[j].place, q)
  {
    var x := Scored(Worth(rows[q].entry, wanted), q);
    if x in chosen {
      var i :| 0 <= i < |chosen| && chosen[i] == x;
      assert chosen[i].place == q;
    }
  }

  /** Whatever a run of the store did, what one named lane alone keeps saying is never
      put in front of another. */
  lemma OneLaneIsNotEnough(h: History, i: nat, wanted: set<string>)
    requires i < |Entries(h)| && !Vouched(h, i) && AllSame(Entries(h)[i].sourceLane, Reports(h, i))
    ensures !Eligible(Entries(h)[i], wanted)
  {
    PassesFloorExactly(h, i);
  }

  class SelectionStore {
    /** The listing, newest first. */
    var rows: seq<Row>

    constructor (rows: seq<Row>)
      ensures this.rows == rows
    {
      this.rows := rows;
    }

    /** `select_for_injection`: what it returns, and the counters it persists. */
    method SelectForInjection(wanted: set<string>, budget: int) returns (chosen: seq<Scored>)
      modifies this
      ensures chosen == Chosen(old(rows), wanted, budget)
      ensures |rows| == |old(rows)|
      ensures forall p | 0 <= p < |rows| ::
        rows[p] == (if exists i :: 0 <= i < |chosen| && chosen[i].place == p
                    then Row(old(rows)[p].entry, old(rows)[p].injections + 1) else old(rows)[p])
    {
      var scored: seq<Scored> := [];
      for p := 0 to |rows|
        invariant scored == Candidates(rows, wanted, p)
      {
        if Eligible(rows[p].entry, wanted) {
          scored := scored + [Scored(Score(rows[p].entry, wanted), p)];
        }
      }
      chosen := Cut(Rank(scored), budget);
      ChosenAreBest(rows, wanted, budget);
      for i := 0 to |chosen|
        invariant |rows| == |old(rows)|
        invariant forall p | 0 <= p < |rows| ::
          rows[p] == (if exists k :: 0 <= k < i && chosen[k].place == p
                      then Row(old(rows)[p].entry, old(rows)[p].injections + 1) else old(rows)[p])
      {
        var p := chosen[i].place;
        DistinctPlaces(chosen, i);
        rows := rows[p := Row(rows[p].entry, rows[p].injections + 1)];
      }
    }

    static lemma DistinctPlaces(chosen: seq<Scored>, i: nat)
      requires Ranked(chosen) && i < |chosen|
      requires forall k | 0 <= k < i && chosen[k].place == chosen[i].place :: chosen[k].score == chosen[i].score
      ensures forall k | 0 <= k < i :: chosen[k].place != chosen[i].place
    {
      forall k | 0 <= k < i ensures chosen[k].place != chosen[i].place {
        assert Outranks(chosen[k], chosen[i]);
      }
    }
  }
}
