/** Calls of the knowledge store that overlap (`brain/store.py`).

    Every call that changes an entry reads rows, decides and saves a whole row, and
    awaits in between, so that other calls may run between its reading and its saving. */
module BrainOverlap {
  import opened Wrappers
  import opened PyText
  import opened BrainStore

  /** What a call will save: a row over the one it read, a new row, or nothing. */
  datatype Write = Put(at: nat, row: Entry) | Add(row: Entry) | Nothing

  /** The decision of a call, from the rows that it reads. */
  function Decide(es: seq<Entry>, t: Step): Write {
    match Resolve(es, t)
    case Report(i, lane) =>
      if i < |es| && !SameSource(es[i].sourceLane, lane) then Put(i, Corroborated(es[i], lane)) else Nothing
    case Make(e) => Add(e)
    case Refuse => Nothing
    case Vouch(i, who) =>
      if i < |es| then Put(i, es[i].(confirmedBy := who, confidence := 1.0)) else Nothing
    case Demote(i, status) => if i < |es| then Put(i, es[i].(status := status)) else Nothing
  }

  function Save(es: seq<Entry>, w: Write): seq<Entry> {
    match w
    case Put(i, row) => if i < |es| then es[i := row] else es
    case Add(row) => es + [row]
    case Nothing => es
  }

  /** A call that nothing overlaps does what it does in one step. */
  lemma AtOnce(es: seq<Entry>, t: Step)
    ensures Save(es, Decide(es, t)) == Do(es, Resolve(es, t))
  {
    var a := Resolve(es, t);
    if a.Report? && a.at < |es| && SameSource(es[a.at].sourceLane, a.lane) {
      assert es[a.at := es[a.at]] == es;
    }
  }

  /** A call begins when it reads, and finishes when it saves; `waiting` names one of those
      that have begun. */
  datatype Event = Begin(t: Step) | Finish(waiting: nat)

  datatype Run = Idle | On(past: Run, event: Event)

  function Rows(r: Run): seq<Entry> {
    match r
    case Idle => []
    case On(p, Begin(_)) => Rows(p)
    case On(p, Finish(k)) => if k < |Waiting(p)| then Save(Rows(p), Waiting(p)[k]) else Rows(p)
  }

  function Waiting(r: Run): seq<Write> {
    match r
    case Idle => []
    case On(p, Begin(t)) => Waiting(p) + [Decide(Rows(p), t)]
    case On(p, Finish(k)) => if k < |Waiting(p)| then Waiting(p)[..k] + Waiting(p)[k + 1..] else Waiting(p)
  }

  // One row per key.

  ghost predicate SameName(a: Entry, b: Entry) {
    a.normalTitle == b.normalTitle && a.anchorPath == b.anchorPath
  }

  /** A row goes over one of its own name, and a new row is live. */
  ghost predicate Fits(es: seq<Entry>, w: Write) {
    && (w.Put? ==> w.at < |es| && SameName(w.row, es[w.at]))
    && (w.Add? ==> w.row.status == Active)
  }

  ghost predicate AllFit(es: seq<Entry>, ws: seq<Write>) {
    forall i | 0 <= i < |ws| :: Fits(es, ws[i])
  }

  lemma DecisionFits(es: seq<Entry>, t: Step)
    ensures Fits(es, Decide(es, t))
  {
    ResolvedIsLive(es, t);
    var a := Resolve(es, t);
    if a.Report? && a.at < |es| {
      CorroborationKeepsKey(es[a.at], a.lane);
    }
  }

  lemma SaveKeepsFitting(es: seq<Entry>, w: Write, ws: seq<Write>)
    requires Fits(es, w) && AllFit(es, ws)
    ensures AllFit(Save(es, w), ws)
  {
    forall i | 0 <= i < |ws| ensures Fits(Save(es, w), ws[i]) {
      assert Fits(es, ws[i]);
    }
  }

  lemma {:induction false} WaitingFit(r: Run)
    ensures AllFit(Rows(r), Waiting(r))
  {
    if r.On? {
      var es, ws := Rows(r.past), Waiting(r.past);
      WaitingFit(r.past);
      match r.event
      case Begin(t) => DecisionFits(es, t);
      case Finish(k) =>
        if k < |ws| {
          assert Fits(es, ws[k]);
          SaveKeepsFitting(es, ws[k], ws);
        }
    }
  }

  /** Its key is free when it is saved, or is that of a row it goes over which is live. */
  predicate SafeWrite(es: seq<Entry>, w: Write) {
    match w
    case Put(i, row) =>
      i < |es| && row.status != Retired && es[i].status == Retired ==>
        FindLast(LiveKeys(es), |es|, KeyOf(row)).None?
    case Add(row) => FindLast(LiveKeys(es), |es|, KeyOf(row)).None?
    case Nothing => true
  }

  lemma SaveKeepsUniqueExactly(es: seq<Entry>, w: Write)
    requires Unique(es) && Fits(es, w)
    ensures Unique(Save(es, w)) <==> SafeWrite(es, w)
  {
    match w
    case Put(i, row) =>
      if row.status == Retired || es[i].status != Retired {
        UpdateKeepsUnique(es, i, row);
      } else {
        SameKey(row, es[i]);
        LiveKeyAt(es, i);
        UniqueAfter(es, i, row, KeyOf(row), true);
      }
    case Add(row) => LateSaveExactly(es, row, KeyOf(row));
    case Nothing =>
  }

  ghost predicate UniqueAllAlong(r: Run) {
    Unique(Rows(r)) && (r.On? ==> UniqueAllAlong(r.past))
  }

  predicate SafeAllAlong(r: Run) {
    r.On? ==>
      && SafeAllAlong(r.past)
      && (r.event.Finish? && r.event.waiting < |Waiting(r.past)| ==>
            SafeWrite(Rows(r.past), Waiting(r.past)[r.event.waiting]))
  }

  /** In every interleaving of the calls there is at all times at most one row that is not
      retired for a title and path, if and only if every row saved finds its key free or
      goes over a live row. */
  lemma {:induction false} OverlapUniqueExactly(r: Run)
    ensures UniqueAllAlong(r) <==> SafeAllAlong(r)
  {
    if r.On? {
      var es, ws := Rows(r.past), Waiting(r.past);
      OverlapUniqueExactly(r.past);
      WaitingFit(r.past);
      if Unique(es) && r.event.Finish? && r.event.waiting < |ws| {
        assert Fits(es, ws[r.event.waiting]);
        SaveKeepsUniqueExactly(es, ws[r.event.waiting]);
      }
    }
  }

  // What goes wrong.

  /** A call that nothing overlaps. */
  function Call(r: Run, t: Step): Run {
    On(On(r, Begin(t)), Finish(|Waiting(r)|))
  }

  lemma CallIsStep(r: Run, t: Step)
    ensures Rows(Call(r, t)) == Do(Rows(r), Resolve(Rows(r), t)) && Waiting(Call(r, t)) == Waiting(r)
  {
    var begun := On(r, Begin(t));
    assert Waiting(begun)[|Waiting(r)|] == Decide(Rows(r), t);
    assert Waiting(begun)[..|Waiting(r)|] + Waiting(begun)[|Waiting(r)| + 1..] == Waiting(r);
    AtOnce(Rows(r), t);
  }

  lemma FirstFinishes(r: Run, w: Write, rest: seq<Write>)
    requires Waiting(r) == [w] + rest
    ensures Rows(On(r, Finish(0))) == Save(Rows(r), w) && Waiting(On(r, Finish(0))) == rest
  {
  }

  lemma Begins(r: Run, t: Step)
    ensures Rows(On(r, Begin(t))) == Rows(r) && Waiting(On(r, Begin(t))) == Waiting(r) + [Decide(Rows(r), t)]
  {
  }

  lemma DecidesToAdd(c: Candidate)
    requires Stable(c) && Strip(c.title) != ""
    ensures Decide([], Promote(c)) == Add(NewEntry(c)) && LiveKey(NewEntry(c)) == Some(Sought(c))
  {
    StableExactly(c);
    NewEntryKey(c);
    MakesAgain([], Sought(c), c.sourceLane, NewEntry(c));
  }

  /** Two promotions of one key that both search before either saves make two entries. */
  lemma BothMake(c: Candidate, d: Candidate)
    requires Stable(c) && Stable(d) && Strip(c.title) != "" && Strip(d.title) != "" && Sought(c) == Sought(d)
    ensures !Unique(Rows(On(On(On(On(Idle, Begin(Promote(c))), Begin(Promote(d))), Finish(0)), Finish(0))))
  {
    DecidesToAdd(c);
    DecidesToAdd(d);
    TwoAdds(Promote(c), Promote(d), NewEntry(c), NewEntry(d), Sought(c));
  }

  lemma TwoBegun(t: Step, u: Step, v: Write, w: Write)
    requires Decide([], t) == v && Decide([], u) == w
    ensures var r := On(On(Idle, Begin(t)), Begin(u)); Rows(r) == [] && Waiting(r) == [v] + [w]
  {
    Begins(Idle, t);
    Begins(On(Idle, Begin(t)), u);
  }

  lemma TwoAdds(t: Step, u: Step, d: Entry, e: Entry, k: Key)
    requires Decide([], t) == Add(d) && Decide([], u) == Add(e)
    requires LiveKey(d) == Some(k) && LiveKey(e) == Some(k)
    ensures !Unique(Rows(On(On(On(On(Idle, Begin(t)), Begin(u)), Finish(0)), Finish(0))))
  {
    var r2 := On(On(Idle, Begin(t)), Begin(u));
    TwoBegun(t, u, Add(d), Add(e));
    FirstFinishes(r2, Add(d), [Add(e)]);
    assert [Add(e)] == [Add(e)] + [];
    FirstFinishes(On(r2, Finish(0)), Add(e), []);
    TwoLive(d, e, k);
    assert ([] + [d]) + [e] == [d, e];
  }

  /** A row saved late is the row its call decided on, whatever happened to it since: a
      human's word, a retirement or another report in between is undone. */
  lemma LateSaveUndoes(r: Run, t: Step, between: seq<Step>, i: nat)
    requires Waiting(r) == [] && Decide(Rows(r), t).Put? && Decide(Rows(r), t).at == i
    ensures var late := Calls(On(r, Begin(t)), between);
            && Waiting(late) == [Decide(Rows(r), t)]
            && i < |Rows(On(late, Finish(0)))|
            && Rows(On(late, Finish(0)))[i] == Do(Rows(r), Resolve(Rows(r), t))[i]
  {
    var begun := On(r, Begin(t));
    Begins(r, t);
    CallsLeaveWaiting(begun, between);
    CallsKeepRows(begun, between);
    DecidedRow(Rows(r), t, i);
    FinishesOver(Calls(begun, between), Decide(Rows(r), t), i);
  }

  lemma DecidedRow(es: seq<Entry>, t: Step, i: nat)
    requires Decide(es, t).Put? && Decide(es, t).at == i
    ensures i < |es| == |Do(es, Resolve(es, t))| && Do(es, Resolve(es, t))[i] == Decide(es, t).row
  {
    DecisionFits(es, t);
    AtOnce(es, t);
  }

  lemma FinishesOver(late: Run, w: Write, i: nat)
    requires Waiting(late) == [w] && w.Put? && w.at == i < |Rows(late)|
    ensures |Rows(On(late, Finish(0)))| == |Rows(late)| && Rows(On(late, Finish(0)))[i] == w.row
  {
  }

  function Calls(r: Run, ts: seq<Step>): Run {
    if ts == [] then r else Call(Calls(r, ts[..|ts| - 1]), ts[|ts| - 1])
  }

  lemma {:induction false} CallsLeaveWaiting(r: Run, ts: seq<Step>)
    ensures Waiting(Calls(r, ts)) == Waiting(r)
  {
    if ts != [] {
      CallsLeaveWaiting(r, ts[..|ts| - 1]);
      CallIsStep(Calls(r, ts[..|ts| - 1]), ts[|ts| - 1]);
    }
  }

  lemma {:induction false} CallsKeepRows(r: Run, ts: seq<Step>)
    ensures |Rows(Calls(r, ts))| >= |Rows(r)|
  {
    if ts != [] {
      var before := Calls(r, ts[..|ts| - 1]);
      CallsKeepRows(r, ts[..|ts| - 1]);
      CallIsStep(before, ts[|ts| - 1]);
      GrowsByOne(Rows(before), Resolve(Rows(before), ts[|ts| - 1]));
    }
  }
}
