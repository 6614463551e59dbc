/** The in-process event bus of the daemon (`daemon/bus.py`).

    An event is committed to the log first and fanned out afterwards; between the two
    any other task may run. Subscribers hold bounded queues, which they drain when
    they like. A run is a history of the atomic steps between two awaits. */
module EventBus {
  import opened Wrappers

  datatype Event = Event(seqNo: nat, eventType: string, sessionId: string)

  datatype Filter = Filter(sessionId: string, eventTypes: set<string>)

  /** `Subscription.matches`: the two filters are conjunctive and an empty one accepts. */
  predicate Matches(f: Filter, e: Event) {
    if f.sessionId != "" && e.sessionId != f.sessionId then false
    else if f.eventTypes == {} then true
    else e.eventType in f.eventTypes
  }

  /** A subscription, with what its reader has taken so far. A bound of zero or less
      is no bound at all, as for `asyncio.Queue`. */
  datatype Sub = Sub(filter: Filter, bound: int, queue: seq<Event>, taken: seq<Event>, dropped: nat)

  predicate Full(s: Sub) { s.bound > 0 && |s.queue| >= s.bound }

  predicate Takes(s: Sub, e: Event) {
    Matches(s.filter, e) && !Full(s)
  }

  function Offer(s: Sub, e: Event): Sub {
    if !Matches(s.filter, e) then s
    else if Full(s) then s.(dropped := s.dropped + 1)
    else s.(queue := s.queue + [e])
  }

  function Take(s: Sub): Sub {
    if s.queue == [] then s else s.(taken := s.taken + [s.queue[0]], queue := s.queue[1..])
  }

  function Delivered(s: Sub): seq<Event> { s.taken + s.queue }

  /** The atomic steps. `Commit` is the first half of `emit`, `Publish` its second half
      for one of the emits in flight, named by its place among them. */
  datatype Step =
    | Commit(event: Event)
    | Publish(flight: nat)
    | Subscribe(filter: Filter, bound: int)
    | Unsubscribe(id: nat)
    | Consume(id: nat)

  datatype State = State(
    log: seq<Event>, inFlight: seq<Event>, subs: map<nat, Sub>, registered: set<nat>, counter: nat)

  predicate Above(log: seq<Event>, e: Event) {
    forall i | 0 <= i < |log| :: log[i].seqNo < e.seqNo
  }

  predicate Ascending(log: seq<Event>) {
    forall i, j | 0 <= i < j < |log| :: log[i].seqNo < log[j].seqNo
  }

  /** A step that cannot be taken (a sequence number the log would not assign, an emit
      that is not in flight, an empty queue) changes nothing. */
  predicate Enabled(s: State, t: Step) {
    match t
    case Commit(e) => Above(s.log, e)
    case Publish(k) => k < |s.inFlight|
    case Subscribe(_, _) => true
    case Unsubscribe(_) => true
    case Consume(id) => id in s.subs
  }

  function Fan(subs: map<nat, Sub>, registered: set<nat>, e: Event): map<nat, Sub> {
    map id | id in subs :: if id in registered then Offer(subs[id], e) else subs[id]
  }

  function Without<T>(s: seq<T>, k: nat): seq<T>
    requires k < |s|
  {
    s[..k] + s[k + 1..]
  }

  function Next(s: State, t: Step): State
    requires Enabled(s, t)
  {
    match t
    case Commit(e) => s.(log := s.log + [e], inFlight := s.inFlight + [e])
    case Publish(k) =>
      s.(inFlight := Without(s.inFlight, k), subs := Fan(s.subs, s.registered, s.inFlight[k]))
    case Subscribe(f, b) =>
      s.(subs := s.subs[s.counter + 1 := Sub(f, b, [], [], 0)],
         registered := s.registered + {s.counter + 1}, counter := s.counter + 1)
    case Unsubscribe(id) => s.(registered := s.registered - {id})
    case Consume(id) => s.(subs := s.subs[id := Take(s.subs[id])])
  }

  datatype History = Start | Then(past: History, step: Step)

  function After(h: History): State {
    match h
    case Start => State([], [], map[], {}, 0)
    case Then(p, t) => if Enabled(After(p), t) then Next(After(p), t) else After(p)
  }

  // What a reader of the whole history can say about it.

  /** The events fanned out so far, in order. */
  function Published(h: History): seq<Event> {
    match h
    case Start => []
    case Then(p, Publish(k)) =>
      if k < |After(p).inFlight| then Published(p) + [After(p).inFlight[k]] else Published(p)
    case Then(p, _) => Published(p)
  }

  /** Those fanned out before subscription `id` existed, while it was registered, and
      once it was not. */
  function Before(h: History, id: nat): seq<Event> {
    match h
    case Start => []
    case Then(p, Subscribe(_, _)) => if id == After(p).counter + 1 then Published(p) else Before(p, id)
    case Then(p, _) => Before(p, id)
  }

  function During(h: History, id: nat): seq<Event> {
    match h
    case Start => []
    case Then(p, Publish(k)) =>
      if k < |After(p).inFlight| && id in After(p).registered
      then During(p, id) + [After(p).inFlight[k]] else During(p, id)
    case Then(p, _) => During(p, id)
  }

  function Later(h: History, id: nat): seq<Event> {
    match h
    case Start => []
    case Then(p, Publish(k)) =>
      if k < |After(p).inFlight| && id in After(p).subs && id !in After(p).registered
      then Later(p, id) + [After(p).inFlight[k]] else Later(p, id)
    case Then(p, _) => Later(p, id)
  }

  function Matching(f: Filter, s: seq<Event>): seq<Event> {
    if s == [] then []
    else if Matches(f, s[|s| - 1]) then Matching(f, s[..|s| - 1]) + [s[|s| - 1]]
    else Matching(f, s[..|s| - 1])
  }

  lemma MatchingSnoc(f: Filter, s: seq<Event>, e: Event)
    ensures Matching(f, s + [e]) == Matching(f, s) + (if Matches(f, e) then [e] else [])
  {
    assert (s + [e])[..|s|] == s;
  }

  lemma {:induction false} MatchingSplits(f: Filter, s: seq<Event>, t: seq<Event>)
    ensures Matching(f, s + t) == Matching(f, s) + Matching(f, t)
    decreases |t|
  {
    if t == [] {
      assert s + t == s;
    } else {
      var u, e := t[..|t| - 1], t[|t| - 1];
      assert s + t == (s + u) + [e] && t == u + [e];
      MatchingSplits(f, s, u);
      MatchingSnoc(f, s + u, e);
      MatchingSnoc(f, u, e);
    }
  }

  /** What subscription `id` should have got. */
  function Wanted(h: History, id: nat): seq<Event>
    requires id in After(h).subs
  {
    Matching(After(h).subs[id].filter, During(h, id))
  }

  // Bookkeeping: who exists.

  ghost predicate Numbered(s: State) {
    && (forall id :: id in s.subs <==> 1 <= id <= s.counter)
    && (forall id | id in s.registered :: id in s.subs)
  }

  lemma {:induction false} IdsAreNumbered(h: History)
    ensures Numbered(After(h))
  {
    if h.Then? {
      IdsAreNumbered(h.past);
    }
  }

  /** Before it exists, a subscription has been offered nothing. */
  lemma {:induction false} NothingYet(h: History, id: nat)
    requires id !in After(h).subs
    ensures During(h, id) == [] && Later(h, id) == []
  {
    if h.Then? {
      IdsAreNumbered(h.past);
      NothingYet(h.past, id);
    }
  }

  /** The filter and bound of a subscription never change. */
  lemma FilterStays(p: History, t: Step, id: nat)
    requires id in After(p).subs
    ensures id in After(Then(p, t)).subs
    ensures After(Then(p, t)).subs[id].filter == After(p).subs[id].filter
    ensures After(Then(p, t)).subs[id].bound == After(p).subs[id].bound
  {
    IdsAreNumbered(p);
  }

  // The log.

  lemma {:induction false} LogAscends(h: History)
    ensures Ascending(After(h).log)
  {
    if h.Then? {
      LogAscends(h.past);
    }
  }

  ghost predicate Within(s: seq<Event>, log: seq<Event>) {
    forall i | 0 <= i < |s| :: s[i] in log
  }

  ghost predicate HeldIsLogged(s: State) {
    && Within(s.inFlight, s.log)
    && (forall id | id in s.subs :: Within(s.subs[id].queue, s.log) && Within(s.subs[id].taken, s.log))
  }

  lemma WithinWiderLog(s: seq<Event>, log: seq<Event>, e: Event)
    requires Within(s, log)
    ensures Within(s, log + [e])
  {
  }

  lemma WithinMoves(s: seq<Event>, log: seq<Event>, e: Event)
    requires Within(s, log)
    ensures e in log ==> Within(s + [e], log)
    ensures Within(s + [e], log + [e])
    ensures s != [] ==> s[0] in log && Within(s[1..], log)
    ensures forall k | 0 <= k < |s| :: s[k] in log && Within(Without(s, k), log)
  {
    WithinWiderLog(s, log, e);
    assert (log + [e])[|log|] == e;
  }

  lemma FanKeepsHeld(subs: map<nat, Sub>, registered: set<nat>, e: Event, log: seq<Event>)
    requires e in log
    requires forall id | id in subs :: Within(subs[id].queue, log) && Within(subs[id].taken, log)
    ensures forall id | id in subs ::
              Within(Fan(subs, registered, e)[id].queue, log) && Within(Fan(subs, registered, e)[id].taken, log)
  {
    forall id | id in subs
      ensures Within(Fan(subs, registered, e)[id].queue, log) && Within(Fan(subs, registered, e)[id].taken, log)
    {
      WithinMoves(subs[id].queue, log, e);
    }
  }

  lemma CommitKeepsHeld(s: State, e: Event)
    requires HeldIsLogged(s) && Enabled(s, Commit(e))
    ensures HeldIsLogged(Next(s, Commit(e)))
  {
    WithinMoves(s.inFlight, s.log, e);
    forall id | id in s.subs
      ensures Within(s.subs[id].queue, s.log + [e]) && Within(s.subs[id].taken, s.log + [e])
    {
      WithinWiderLog(s.subs[id].queue, s.log, e);
      WithinWiderLog(s.subs[id].taken, s.log, e);
    }
  }

  lemma PublishKeepsHeld(s: State, k: nat)
    requires HeldIsLogged(s) && Enabled(s, Publish(k))
    ensures HeldIsLogged(Next(s, Publish(k)))
  {
    WithinMoves(s.inFlight, s.log, s.inFlight[k]);
    FanKeepsHeld(s.subs, s.registered, s.inFlight[k], s.log);
  }

  lemma ConsumeKeepsHeld(s: State, id: nat)
    requires HeldIsLogged(s) && Enabled(s, Consume(id))
    ensures HeldIsLogged(Next(s, Consume(id)))
  {
    var q := s.subs[id];
    if q.queue != [] {
      WithinMoves(q.queue, s.log, q.queue[0]);
      WithinMoves(q.taken, s.log, q.queue[0]);
    }
  }

  /** In every interleaving, whatever a subscriber holds or has taken is already in the
      log. */
  lemma {:induction false} PersistedFirst(h: History)
    ensures HeldIsLogged(After(h))
  {
    if h.Then? {
      PersistedFirst(h.past);
      if Enabled(After(h.past), h.step) {
        match h.step
        case Commit(e) => CommitKeepsHeld(After(h.past), e);
        case Publish(k) => PublishKeepsHeld(After(h.past), k);
        case Subscribe(_, _) =>
        case Unsubscribe(_) =>
        case Consume(id) => ConsumeKeepsHeld(After(h.past), id);
      }
    }
  }

  // Accounting.

  /** `a` is what is left of `b` when some of its elements are struck out. */
  predicate Subsequence(a: seq<Event>, b: seq<Event>) {
    if a == [] then true
    else if b == [] then false
    else (a[|a| - 1] == b[|b| - 1] && Subsequence(a[..|a| - 1], b[..|b| - 1]))
         || Subsequence(a, b[..|b| - 1])
  }

  lemma SubsequenceKeep(a: seq<Event>, b: seq<Event>, e: Event)
    requires Subsequence(a, b)
    ensures Subsequence(a + [e], b + [e])
  {
    assert (a + [e])[..|a|] == a && (b + [e])[..|b|] == b;
  }

  lemma SubsequenceSkip(a: seq<Event>, b: seq<Event>, e: Event)
    requires Subsequence(a, b)
    ensures Subsequence(a, b + [e])
  {
    assert (b + [e])[..|b|] == b;
  }

  /** What the accounts of a subscription `s` say about the events `w` it was offered. */
  ghost predicate Balanced(s: Sub, w: seq<Event>) {
    && |w| == |s.taken| + |s.queue| + s.dropped
    && Subsequence(Delivered(s), w)
    && (s.bound > 0 ==> |s.queue| <= s.bound)
    && (s.dropped == 0 <==> Delivered(s) == w)
  }

  lemma DropBalances(s: Sub, w: seq<Event>, e: Event)
    requires Balanced(s, w) && Full(s) && Matches(s.filter, e)
    ensures Balanced(Offer(s, e), w + [e])
  {
    SubsequenceSkip(Delivered(s), w, e);
    assert |Delivered(s)| < |w + [e]|;
  }

  lemma QueueBalances(s: Sub, w: seq<Event>, e: Event)
    requires Balanced(s, w) && Takes(s, e)
    ensures Balanced(Offer(s, e), w + [e])
  {
    SubsequenceKeep(Delivered(s), w, e);
    assert Delivered(Offer(s, e)) == Delivered(s) + [e];
    assert (w + [e])[..|w|] == w && (Delivered(s) + [e])[..|Delivered(s)|] == Delivered(s);
  }

  lemma OfferBalances(s: Sub, w: seq<Event>, e: Event)
    requires Balanced(s, w)
    ensures Balanced(Offer(s, e), w + (if Matches(s.filter, e) then [e] else []))
  {
    if !Matches(s.filter, e) {
      assert w + [] == w;
    } else if Full(s) {
      DropBalances(s, w, e);
    } else {
      QueueBalances(s, w, e);
    }
  }

  lemma TakeDelivers(s: Sub)
    ensures Delivered(Take(s)) == Delivered(s)
  {
    if s.queue != [] {
      assert s.taken + s.queue == (s.taken + [s.queue[0]]) + s.queue[1..];
    }
  }

  /** In every interleaving each subscription's account balances: what it was offered is
      what its reader took, what it holds and what it dropped; what was delivered comes
      in the order it was published; and all of it was, when nothing was dropped. */
  lemma {:induction false} Ledger(h: History, id: nat)
    requires id in After(h).subs
    ensures Balanced(After(h).subs[id], Wanted(h, id))
  {
    var p, t := h.past, h.step;
    if id !in After(p).subs {
      NothingYet(p, id);
      return;
    }
    Ledger(p, id);
    FilterStays(p, t, id);
    IdsAreNumbered(p);
    var s := After(p).subs[id];
    if t.Publish? && t.flight < |After(p).inFlight| && id in After(p).registered {
      var e := After(p).inFlight[t.flight];
      OfferBalances(s, Wanted(p, id), e);
      MatchingSnoc(s.filter, During(p, id), e);
    } else if t.Consume? && t.id == id {
      TakeDelivers(s);
    }
  }

  // Isolation.

  /** The history with everything the other readers did struck out. */
  function Undisturbed(h: History, id: nat): History {
    match h
    case Start => Start
    case Then(p, Consume(other)) => if other == id then Then(Undisturbed(p, id), Consume(id)) else Undisturbed(p, id)
    case Then(p, Unsubscribe(other)) => if other == id then Then(Undisturbed(p, id), Unsubscribe(id)) else Undisturbed(p, id)
    case Then(p, t) => Then(Undisturbed(p, id), t)
  }

  ghost predicate LooksAlike(s: State, t: State, id: nat) {
    && s.log == t.log && s.inFlight == t.inFlight && s.counter == t.counter
    && (id in s.subs <==> id in t.subs)
    && (id in s.subs ==> s.subs[id] == t.subs[id])
    && (id in s.registered <==> id in t.registered)
  }

  lemma StepsAlike(s: State, u: State, id: nat, t: Step)
    requires LooksAlike(s, u, id) && Enabled(s, t) && Enabled(u, t)
    ensures LooksAlike(Next(s, t), Next(u, t), id)
  {
  }

  lemma OthersStepUnseen(s: State, u: State, id: nat, t: Step)
    requires LooksAlike(s, u, id) && Enabled(s, t)
    requires (t.Consume? || t.Unsubscribe?) && t.id != id
    ensures LooksAlike(Next(s, t), u, id)
  {
  }

  /** A reader that is slow, or stops, or leaves, changes nothing for the log, for the
      emits in flight or for any other subscription. */
  lemma {:induction false} SlowReadersStallNobody(h: History, id: nat)
    ensures LooksAlike(After(h), After(Undisturbed(h, id)), id)
  {
    if h.Then? {
      SlowReadersStallNobody(h.past, id);
      var s, u := After(h.past), After(Undisturbed(h.past, id));
      if Enabled(s, h.step) {
        if (h.step.Consume? || h.step.Unsubscribe?) && h.step.id != id {
          OthersStepUnseen(s, u, id, h.step);
        } else {
          StepsAlike(s, u, id, h.step);
        }
      }
    }
  }

  // Order.

  /** Every publish so far was of the emit that committed first among those in flight. */
  predicate InCommitOrder(h: History) {
    match h
    case Start => true
    case Then(p, Publish(k)) => InCommitOrder(p) && (k < |After(p).inFlight| ==> k == 0)
    case Then(p, _) => InCommitOrder(p)
  }

  ghost predicate Distinct(s: seq<Event>) {
    forall i, j | 0 <= i < j < |s| :: s[i] != s[j]
  }

  lemma {:induction false} FlightsAreDistinct(h: History)
    ensures Distinct(After(h).inFlight) && Within(After(h).inFlight, After(h).log)
  {
    if h.Then? {
      FlightsAreDistinct(h.past);
      LogAscends(h.past);
    }
  }

  ghost predicate StartsWith<T>(s: seq<T>, p: seq<T>) {
    |p| <= |s| && s[..|p|] == p
  }

  lemma OldestGoes(published: seq<Event>, flights: seq<Event>)
    requires flights != []
    ensures (published + [flights[0]]) + Without(flights, 0) == published + flights
  {
  }

  lemma PublishedIsLogPrefixFrom(p: History, t: Step)
    requires Published(p) + After(p).inFlight == After(p).log
    requires t.Publish? && t.flight < |After(p).inFlight| ==> t.flight == 0
    ensures Published(Then(p, t)) + After(Then(p, t)).inFlight == After(Then(p, t)).log
  {
    if t.Commit? {
      Assoc(Published(p), After(p).inFlight, [t.event]);
    } else if t.Publish? && After(p).inFlight != [] {
      OldestGoes(Published(p), After(p).inFlight);
    }
  }

  /** Publishing out of turn is never made good. */
  lemma OutOfTurnShows(p: History, k: nat)
    requires Published(p) + After(p).inFlight == After(p).log
    requires 0 < k < |After(p).inFlight|
    ensures !StartsWith(After(p).log, Published(Then(p, Publish(k))))
  {
    FlightsAreDistinct(p);
    var n := |Published(p)|;
    assert After(p).log[n] == After(p).inFlight[0];
    assert Published(Then(p, Publish(k)))[n] == After(p).inFlight[k];
    assert |After(p).log| > n && After(p).log[..n + 1][n] == After(p).log[n];
  }

  lemma LogOnlyGrows(p: History, t: Step)
    ensures StartsWith(After(Then(p, t)).log, After(p).log)
    ensures StartsWith(Published(Then(p, t)), Published(p))
  {
  }

  lemma {:induction false} PublishedFitsInLog(h: History)
    ensures |Published(h)| + |After(h).inFlight| == |After(h).log|
  {
    if h.Then? {
      PublishedFitsInLog(h.past);
    }
  }

  /** Events are fanned out in the order of the log exactly when every publish so far
      was of the oldest emit in flight: emits that do not overlap, in particular. */
  lemma {:induction false} LogOrderExactly(h: History)
    ensures InCommitOrder(h) <==> StartsWith(After(h).log, Published(h))
    ensures InCommitOrder(h) ==> Published(h) + After(h).inFlight == After(h).log
  {
    if h.Then? {
      var p, t := h.past, h.step;
      LogOrderExactly(p);
      PublishedFitsInLog(p);
      LogOnlyGrows(p, t);
      if InCommitOrder(p) {
        if t.Publish? && 0 < t.flight < |After(p).inFlight| {
          OutOfTurnShows(p, t.flight);
        } else {
          PublishedIsLogPrefixFrom(p, t);
        }
      } else if StartsWith(After(h).log, Published(h)) {
        PrefixOfPrefix(After(h).log, Published(h), Published(p));
        PrefixInside(After(h).log, After(p).log, Published(p));
        assert false;
      }
    }
  }

  lemma PrefixOfPrefix<T>(s: seq<T>, p: seq<T>, q: seq<T>)
    requires StartsWith(s, p) && StartsWith(p, q)
    ensures StartsWith(s, q)
  {
    assert s[..|p|][..|q|] == s[..|q|];
  }

  lemma PrefixInside<T>(s: seq<T>, t: seq<T>, q: seq<T>)
    requires StartsWith(s, t) && StartsWith(s, q) && |q| <= |t|
    ensures StartsWith(t, q)
  {
    assert s[..|t|][..|q|] == s[..|q|];
  }

  // Catching up from the log.

  /** The published events, split at subscription and at unsubscription. */
  lemma {:induction false} PublishedSplits(h: History, id: nat)
    requires id in After(h).subs
    ensures Published(h) == Before(h, id) + During(h, id) + Later(h, id)
    ensures id in After(h).registered ==> Later(h, id) == []
  {
    var p := h.past;
    if id !in After(p).subs {
      NothingYet(p, id);
      IdsAreNumbered(p);
      assert Published(p) + [] + [] == Published(p);
    } else {
      IdsAreNumbered(p);
      PublishedSplits(p, id);
      if h.step.Publish? && h.step.flight < |After(p).inFlight| {
        var e := After(p).inFlight[h.step.flight];
        if id in After(p).registered {
          assert (Before(p, id) + During(p, id) + []) + [e] == Before(p, id) + (During(p, id) + [e]) + [];
        } else {
          assert (Before(p, id) + During(p, id) + Later(p, id)) + [e]
              == Before(p, id) + During(p, id) + (Later(p, id) + [e]);
        }
      }
    }
  }

  /** No event was queued for `id` after one had been dropped for it. */
  predicate NoneAfterADrop(h: History, id: nat) {
    match h
    case Start => true
    case Then(p, Publish(k)) =>
      NoneAfterADrop(p, id)
      && (k < |After(p).inFlight| && id in After(p).registered && id in After(p).subs
          && Matches(After(p).subs[id].filter, After(p).inFlight[k]) && After(p).subs[id].dropped > 0
          ==> Full(After(p).subs[id]))
    case Then(p, _) => NoneAfterADrop(p, id)
  }

  lemma WithoutOne(s: seq<Event>, k: nat)
    requires k < |s|
    ensures multiset(s) == multiset(Without(s, k)) + multiset{s[k]}
  {
    assert s == s[..k] + [s[k]] + s[k + 1..];
  }

  lemma OneCommitted(published: seq<Event>, flights: seq<Event>, log: seq<Event>, e: Event)
    requires multiset(published) + multiset(flights) == multiset(log)
    ensures multiset(published) + multiset(flights + [e]) == multiset(log + [e])
  {
  }

  lemma OnePublished(published: seq<Event>, flights: seq<Event>, log: seq<Event>, k: nat)
    requires multiset(published) + multiset(flights) == multiset(log) && k < |flights|
    ensures multiset(published + [flights[k]]) + multiset(Without(flights, k)) == multiset(log)
  {
    WithoutOne(flights, k);
  }

  /** What is committed is published or in flight, once. */
  lemma {:induction false} PublishedOnce(h: History)
    ensures multiset(Published(h)) + multiset(After(h).inFlight) == multiset(After(h).log)
  {
    if h.Then? {
      var s := After(h.past);
      PublishedOnce(h.past);
      if h.step.Publish? && h.step.flight < |s.inFlight| {
        OnePublished(Published(h.past), s.inFlight, s.log, h.step.flight);
      } else if h.step.Commit? && Enabled(s, h.step) {
        OneCommitted(Published(h.past), s.inFlight, s.log, h.step.event);
      }
    }
  }

  lemma {:induction false} MatchingIsPart(f: Filter, s: seq<Event>)
    ensures multiset(Matching(f, s)) <= multiset(s)
  {
    if s != [] {
      MatchingIsPart(f, s[..|s| - 1]);
      assert s == s[..|s| - 1] + [s[|s| - 1]];
    }
  }

  lemma PartIsDistinct(s: seq<Event>, log: seq<Event>)
    requires Ascending(log) && multiset(s) <= multiset(log)
    ensures Distinct(s)
  {
    forall i, j | 0 <= i < j < |s| ensures s[i] != s[j] {
      if s[i] == s[j] {
        assert s == s[..i + 1] + s[i + 1..];
        assert s[i] in s[..i + 1] && s[j] in s[i + 1..];
        TwiceInLog(log, s[i]);
        assert false;
      }
    }
  }

  lemma {:induction false} TwiceInLog(log: seq<Event>, e: Event)
    requires Ascending(log)
    ensures multiset(log)[e] <= 1
  {
    if log != [] {
      var front, last := log[..|log| - 1], log[|log| - 1];
      assert log == front + [last];
      TwiceInLog(front, e);
      if e == last {
        assert e !in front;
      }
    }
  }

  lemma WantedIsDistinct(h: History, id: nat)
    requires id in After(h).subs
    ensures Distinct(Wanted(h, id))
  {
    PublishedSplits(h, id);
    PublishedOnce(h);
    LogAscends(h);
    MatchingIsPart(After(h).subs[id].filter, During(h, id));
    PartIsDistinct(Wanted(h, id), After(h).log);
  }

  /** Nothing was missed but at the end. */
  lemma {:induction false} MissedOnlyTheEnd(h: History, id: nat)
    requires id in After(h).subs
    ensures NoneAfterADrop(h, id) <==> StartsWith(Wanted(h, id), Delivered(After(h).subs[id]))
  {
    var p, t := h.past, h.step;
    IdsAreNumbered(p);
    if id !in After(p).subs {
      NothingYet(p, id);
      NoneBeforeItExists(p, id);
      return;
    }
    FilterStays(p, t, id);
    Ledger(p, id);
    var s, w := After(p).subs[id], Wanted(p, id);
    if t.Publish? && t.flight < |After(p).inFlight| && id in After(p).registered {
      var e := After(p).inFlight[t.flight];
      MatchingSnoc(s.filter, During(p, id), e);
      if Matches(s.filter, e) {
        assert Wanted(h, id) == w + [e];
        WantedIsDistinct(h, id);
        DistinctPrefix(w, e);
        MissedOnlyTheEnd(p, id);
        OneMore(s, w, e);
      } else {
        assert w + [] == w;
        MissedOnlyTheEnd(p, id);
      }
    } else {
      MissedOnlyTheEnd(p, id);
      if t.Consume? && t.id == id { TakeDelivers(s); }
    }
  }

  lemma {:induction false} NoneBeforeItExists(h: History, id: nat)
    requires id !in After(h).subs
    ensures NoneAfterADrop(h, id)
  {
    if h.Then? {
      IdsAreNumbered(h.past);
      NoneBeforeItExists(h.past, id);
    }
  }

  lemma DistinctPrefix(w: seq<Event>, e: Event)
    requires Distinct(w + [e])
    ensures Distinct(w) && forall i | 0 <= i < |w| :: w[i] != e
  {
    forall i, j | 0 <= i < j < |w| ensures w[i] != w[j] {
      assert (w + [e])[i] != (w + [e])[j];
    }
    forall i | 0 <= i < |w| ensures w[i] != e {
      assert (w + [e])[i] != (w + [e])[|w|];
    }
  }

  lemma OneMore(s: Sub, w: seq<Event>, e: Event)
    requires Matches(s.filter, e) && Balanced(s, w) && forall i | 0 <= i < |w| :: w[i] != e
    ensures StartsWith(w + [e], Delivered(Offer(s, e)))
       <==> StartsWith(w, Delivered(s)) && (s.dropped > 0 ==> Full(s))
  {
    var d := Delivered(s);
    if Full(s) {
      assert |d| <= |w| && (w + [e])[..|d|] == w[..|d|];
    } else {
      assert Delivered(Offer(s, e)) == d + [e];
      if s.dropped == 0 {
        assert d == w && (w + [e])[..|w| + 1] == w + [e];
      } else {
        assert |d| < |w| && (w + [e])[..|d| + 1][|d|] == w[|d|] != e;
        assert (d + [e])[|d|] == e;
      }
    }
  }

  /** `SELECT … WHERE seq > since`. */
  function AfterSeq(log: seq<Event>, since: nat): seq<Event> {
    if log == [] then []
    else if log[|log| - 1].seqNo > since then AfterSeq(log[..|log| - 1], since) + [log[|log| - 1]]
    else AfterSeq(log[..|log| - 1], since)
  }

  lemma {:induction false} AfterSeqCuts(a: seq<Event>, e: Event, b: seq<Event>)
    requires Ascending(a + [e] + b)
    ensures AfterSeq(a + [e] + b, e.seqNo) == b
    decreases |a| + |b|
  {
    var l := a + [e] + b;
    if b != [] {
      var c, last := b[..|b| - 1], b[|b| - 1];
      assert l[..|l| - 1] == a + [e] + c && l[|l| - 1] == last && b == c + [last];
      assert l[|a|] == e;
      assert Ascending(a + [e] + c) by { AscendingPart(l, |l| - 1); }
      AfterSeqCuts(a, e, c);
    } else {
      assert l == a + [e];
      AllBelow(a, e.seqNo) by { forall i | 0 <= i < |a| ensures a[i].seqNo < e.seqNo { assert l[i] == a[i] && l[|a|] == e; } }
      assert l[..|l| - 1] == a;
    }
  }

  lemma AscendingPart(l: seq<Event>, n: nat)
    requires Ascending(l) && n <= |l|
    ensures Ascending(l[..n]) && Ascending(l[n..])
  {
  }

  lemma {:induction false} AllBelow(a: seq<Event>, since: nat)
    requires forall i | 0 <= i < |a| :: a[i].seqNo <= since
    ensures AfterSeq(a, since) == []
  {
    if a != [] {
      AllBelow(a[..|a| - 1], since);
    }
  }

  lemma {:induction false} AfterSeqSplits(a: seq<Event>, b: seq<Event>, since: nat)
    ensures AfterSeq(a + b, since) == AfterSeq(a, since) + AfterSeq(b, since)
    decreases |b|
  {
    if b == [] {
      assert a + b == a;
    } else {
      var c := b[..|b| - 1];
      assert (a + b)[..|a + b| - 1] == a + c;
      AfterSeqSplits(a, c, since);
    }
  }

  lemma {:induction false} SelectionsCommute(f: Filter, s: seq<Event>, since: nat)
    ensures Matching(f, AfterSeq(s, since)) == AfterSeq(Matching(f, s), since)
  {
    if s != [] {
      var c, e := s[..|s| - 1], s[|s| - 1];
      SelectionsCommute(f, c, since);
      MatchingSnoc(f, AfterSeq(c, since), e);
      AfterSeqSplits(Matching(f, c), [e], since);
      assert [e][..0] == [];
    }
  }

  lemma {:induction false} MatchingAscends(f: Filter, s: seq<Event>)
    requires Ascending(s)
    ensures Ascending(Matching(f, s))
    ensures forall e | Above(s, e) :: Above(Matching(f, s), e)
  {
    if s != [] {
      AscendingPart(s, |s| - 1);
      MatchingAscends(f, s[..|s| - 1]);
      assert Above(s[..|s| - 1], s[|s| - 1]);
    }
  }

  // A subscriber's part of the log.

  function FilterOf(h: History, id: nat): Filter
    requires id in After(h).subs
  {
    After(h).subs[id].filter
  }

  function DeliveredTo(h: History, id: nat): seq<Event>
    requires id in After(h).subs
  {
    Delivered(After(h).subs[id])
  }

  /** The events of the log that subscription `id` is for, and how many of their kind had
      been published before it was made. */
  function Concerning(h: History, id: nat): seq<Event>
    requires id in After(h).subs
  {
    Matching(FilterOf(h, id), After(h).log)
  }

  function PublishedBefore(h: History, id: nat): nat
    requires id in After(h).subs
  {
    |Matching(FilterOf(h, id), Before(h, id))|
  }

  function From<T>(s: seq<T>, n: nat): seq<T> { if n <= |s| then s[n..] else [] }

  /** What the log holds for it, from where it subscribed. */
  function Window(h: History, id: nat): seq<Event>
    requires id in After(h).subs
  {
    From(Concerning(h, id), PublishedBefore(h, id))
  }

  lemma {:induction false} MatchingFits(h: History, f: Filter)
    ensures |Matching(f, Published(h))| + |Matching(f, After(h).inFlight)| == |Matching(f, After(h).log)|
  {
    if h.Then? {
      var s := After(h.past);
      MatchingFits(h.past, f);
      if h.step.Commit? {
        MatchingSnoc(f, s.log, h.step.event);
        MatchingSnoc(f, s.inFlight, h.step.event);
      } else if h.step.Publish? && h.step.flight < |s.inFlight| {
        MatchingSnoc(f, Published(h.past), s.inFlight[h.step.flight]);
        MatchingWithout(f, s.inFlight, h.step.flight);
      }
    }
  }

  lemma MatchingWithout(f: Filter, s: seq<Event>, k: nat)
    requires k < |s|
    ensures |Matching(f, s)| == |Matching(f, Without(s, k))| + (if Matches(f, s[k]) then 1 else 0)
  {
    assert s == (s[..k] + [s[k]]) + s[k + 1..];
    MatchingSplits(f, s[..k] + [s[k]], s[k + 1..]);
    MatchingSnoc(f, s[..k], s[k]);
    MatchingSplits(f, s[..k], s[k + 1..]);
  }

  lemma WantedInPublished(h: History, id: nat)
    requires id in After(h).subs
    ensures Matching(FilterOf(h, id), Published(h))
         == Matching(FilterOf(h, id), Before(h, id)) + (Wanted(h, id) + Matching(FilterOf(h, id), Later(h, id)))
  {
    var f := FilterOf(h, id);
    PublishedSplits(h, id);
    MatchingSplits(f, Before(h, id) + During(h, id), Later(h, id));
    MatchingSplits(f, Before(h, id), During(h, id));
    Assoc(Matching(f, Before(h, id)), Wanted(h, id), Matching(f, Later(h, id)));
  }

  /** There is room in the window for what was delivered. */
  lemma DeliveredFits(h: History, id: nat)
    requires id in After(h).subs
    ensures PublishedBefore(h, id) + |DeliveredTo(h, id)| <= |Concerning(h, id)|
    ensures PublishedBefore(h, id) + |Wanted(h, id)| <= |Concerning(h, id)|
  {
    WantedInPublished(h, id);
    MatchingFits(h, FilterOf(h, id));
    Ledger(h, id);
  }

  // Catching up from the log.

  /** What the subscriber gets by reading on in the log from the last sequence number it
      saw, or the window if it saw none. */
  function CatchUp(f: Filter, log: seq<Event>, window: seq<Event>, delivered: seq<Event>): seq<Event> {
    if delivered == [] then window
    else delivered + Matching(f, AfterSeq(log, delivered[|delivered| - 1].seqNo))
  }

  lemma CatchUpReadsOn(f: Filter, log: seq<Event>, earlier: seq<Event>, e: Event, rest: seq<Event>)
    requires Ascending(log) && Matching(f, log) == earlier + [e] + rest
    ensures Matching(f, AfterSeq(log, e.seqNo)) == rest
  {
    MatchingAscends(f, log);
    SelectionsCommute(f, log, e.seqNo);
    AfterSeqCuts(earlier, e, rest);
  }

  lemma WindowParts(all: seq<Event>, start: nat, d: seq<Event>)
    requires start <= |all| && d != [] && StartsWith(all[start..], d)
    ensures all == (all[..start] + d[..|d| - 1]) + [d[|d| - 1]] + all[start + |d|..]
    ensures all[start..] == d + all[start + |d|..]
  {
    var w := all[start..];
    assert w == w[..|d|] + w[|d|..] && w[|d|..] == all[start + |d|..];
    assert all == all[..start] + w;
    assert d == d[..|d| - 1] + [d[|d| - 1]];
  }

  lemma CatchUpExactly(f: Filter, log: seq<Event>, all: seq<Event>, start: nat, d: seq<Event>)
    requires Ascending(log) && all == Matching(f, log) && start <= |all|
    ensures CatchUp(f, log, all[start..], d) == all[start..] <==> StartsWith(all[start..], d)
  {
    if d != [] && StartsWith(all[start..], d) {
      WindowParts(all, start, d);
      CatchUpReadsOn(f, log, all[..start] + d[..|d| - 1], d[|d| - 1], all[start + |d|..]);
    } else if d != [] {
      assert CatchUp(f, log, all[start..], d)[..|d|] == d;
    }
  }

  /** Reading on gives the window whole: nothing missing, nothing twice, in order. */
  predicate Recovers(h: History, id: nat)
    requires id in After(h).subs
  {
    CatchUp(FilterOf(h, id), After(h).log, Window(h, id), DeliveredTo(h, id)) == Window(h, id)
  }

  /** Event `flight` in flight is about to be queued for `id`. */
  predicate WillQueue(s: State, flight: nat, id: nat) {
    flight < |s.inFlight| && id in s.registered && id in s.subs && Takes(s.subs[id], s.inFlight[flight])
  }

  /** Whenever an event was queued for `id`, it was the next one of the log for it. */
  predicate NextInLine(h: History, id: nat) {
    match h
    case Start => true
    case Then(p, Publish(k)) =>
      NextInLine(p, id) && (WillQueue(After(p), k, id) ==> IsNext(p, id, After(p).inFlight[k]))
    case Then(p, _) => NextInLine(p, id)
  }

  predicate IsNext(h: History, id: nat, e: Event)
    requires id in After(h).subs
  {
    var at := PublishedBefore(h, id) + |DeliveredTo(h, id)|;
    at < |Concerning(h, id)| && Concerning(h, id)[at] == e
  }

  lemma {:induction false} AlwaysNextBefore(h: History, id: nat)
    requires id !in After(h).subs
    ensures NextInLine(h, id)
  {
    if h.Then? {
      IdsAreNumbered(h.past);
      AlwaysNextBefore(h.past, id);
    }
  }

  lemma WindowGrows(all: seq<Event>, more: seq<Event>, start: nat, d: seq<Event>)
    requires start + |d| <= |all|
    ensures StartsWith(From(all + more, start), d) <==> StartsWith(From(all, start), d)
  {
    assert (all + more)[start..][..|d|] == all[start..][..|d|];
  }

  lemma WindowTakes(all: seq<Event>, start: nat, d: seq<Event>, e: Event)
    requires start + |d| <= |all|
    ensures StartsWith(From(all, start), d + [e])
       <==> StartsWith(From(all, start), d) && start + |d| < |all| && all[start + |d|] == e
  {
    var w := all[start..];
    if |d| < |w| {
      assert w[..|d| + 1] == w[..|d|] + [w[|d|]];
      assert (d + [e])[..|d|] == d && (w[..|d|] + [w[|d|]])[..|d|] == w[..|d|];
      assert (d + [e])[|d|] == e;
    }
  }

  lemma StartStays(p: History, t: Step, id: nat)
    requires id in After(p).subs
    ensures id in After(Then(p, t)).subs
    ensures FilterOf(Then(p, t), id) == FilterOf(p, id) && PublishedBefore(Then(p, t), id) == PublishedBefore(p, id)
  {
    IdsAreNumbered(p);
    FilterStays(p, t, id);
  }

  lemma {:induction false} PrefixExactly(h: History, id: nat)
    requires id in After(h).subs
    ensures NextInLine(h, id) <==> StartsWith(Window(h, id), DeliveredTo(h, id))
  {
    var p, t := h.past, h.step;
    if id !in After(p).subs {
      AlwaysNextBefore(p, id);
    } else {
      PrefixExactly(p, id);
      PrefixStep(p, t, id);
    }
  }

  ghost predicate PrefixKnown(h: History, id: nat) {
    id in After(h).subs && (NextInLine(h, id) <==> StartsWith(Window(h, id), DeliveredTo(h, id)))
  }

  lemma PrefixCommit(p: History, e: Event, id: nat)
    requires PrefixKnown(p, id)
    ensures PrefixKnown(Then(p, Commit(e)), id)
  {
    var s, f := After(p), FilterOf(p, id);
    StartStays(p, Commit(e), id);
    DeliveredFits(p, id);
    MatchingSnoc(f, s.log, e);
    WindowGrows(Matching(f, s.log), if Matches(f, e) then [e] else [], PublishedBefore(p, id), DeliveredTo(p, id));
  }

  lemma PrefixPublish(p: History, k: nat, id: nat)
    requires PrefixKnown(p, id)
    ensures PrefixKnown(Then(p, Publish(k)), id)
  {
    var s := After(p);
    StartStays(p, Publish(k), id);
    if WillQueue(s, k, id) {
      var e := s.inFlight[k];
      DeliveredFits(p, id);
      QueuedLast(s.subs[id], e);
      WindowTakes(Concerning(p, id), PublishedBefore(p, id), DeliveredTo(p, id), e);
      assert DeliveredTo(Then(p, Publish(k)), id) == DeliveredTo(p, id) + [e];
    } else {
      assert DeliveredTo(Then(p, Publish(k)), id) == DeliveredTo(p, id);
    }
  }

  lemma PrefixOther(p: History, t: Step, id: nat)
    requires PrefixKnown(p, id) && !t.Commit? && !t.Publish?
    ensures PrefixKnown(Then(p, t), id)
  {
    StartStays(p, t, id);
    if t.Consume? && t.id == id {
      TakeDelivers(After(p).subs[id]);
    }
    IdsAreNumbered(p);
    assert DeliveredTo(Then(p, t), id) == DeliveredTo(p, id);
  }

  lemma PrefixStep(p: History, t: Step, id: nat)
    requires PrefixKnown(p, id)
    ensures PrefixKnown(Then(p, t), id)
  {
    match t
    case Commit(e) => PrefixCommit(p, e, id);
    case Publish(k) => PrefixPublish(p, k, id);
    case _ => PrefixOther(p, t, id);
  }

  lemma QueuedLast(s: Sub, e: Event)
    requires Takes(s, e)
    ensures Delivered(Offer(s, e)) == Delivered(s) + [e]
  {
  }

  /** In every history, a subscriber recovers by reading on in the log from the last
      sequence number it saw exactly when each event queued for it was the next one of
      the log for it. */
  lemma RecoversExactly(h: History, id: nat)
    requires id in After(h).subs
    ensures Recovers(h, id) <==> NextInLine(h, id)
  {
    DeliveredFits(h, id);
    LogAscends(h);
    CatchUpExactly(FilterOf(h, id), After(h).log, Concerning(h, id), PublishedBefore(h, id), DeliveredTo(h, id));
    PrefixExactly(h, id);
  }

  /** The events for `id` were published in the order of the log; what other emits did
      does not matter. */
  ghost predicate InOrderFor(h: History, id: nat)
    requires id in After(h).subs
  {
    StartsWith(Concerning(h, id), Matching(FilterOf(h, id), Published(h)))
  }

  lemma PrefixEither(m: seq<Event>, w: seq<Event>, d: seq<Event>)
    requires StartsWith(m, w) && |d| <= |w|
    ensures StartsWith(m, d) <==> StartsWith(w, d)
  {
    assert m[..|w|][..|d|] == m[..|d|];
  }

  lemma MiddlePrefix(all: seq<Event>, a: seq<Event>, b: seq<Event>, c: seq<Event>)
    requires StartsWith(all, a + (b + c))
    ensures StartsWith(From(all, |a|), b)
  {
    var t := a + (b + c);
    assert forall i | 0 <= i < |b| :: all[|a| + i] == all[..|t|][|a| + i] == t[|a| + i] == b[i];
  }

  lemma JoinedPrefix(all: seq<Event>, a: seq<Event>, b: seq<Event>)
    requires StartsWith(all, a)
    ensures StartsWith(all, a + b) <==> StartsWith(From(all, |a|), b)
  {
    if StartsWith(all, a + b) {
      assert b + [] == b;
      MiddlePrefix(all, a, b, []);
    }
  }

  /** With its events published in order, that is exactly when nothing was queued for it
      after a drop. */
  lemma RecoveryExactly(h: History, id: nat)
    requires id in After(h).subs && InOrderFor(h, id)
    ensures Recovers(h, id) <==> NoneAfterADrop(h, id)
  {
    var f := FilterOf(h, id);
    WantedInPublished(h, id);
    MiddlePrefix(Concerning(h, id), Matching(f, Before(h, id)), Wanted(h, id), Matching(f, Later(h, id)));
    Ledger(h, id);
    MissedOnlyTheEnd(h, id);
    PrefixEither(Window(h, id), Wanted(h, id), DeliveredTo(h, id));
    RecoversExactly(h, id);
    PrefixExactly(h, id);
  }

  /** Emits published oldest first are in order for everybody. */
  lemma CommitOrderIsEnough(h: History, id: nat)
    requires id in After(h).subs && InCommitOrder(h)
    ensures InOrderFor(h, id)
  {
    LogOrderExactly(h);
    MatchingSplits(FilterOf(h, id), Published(h), After(h).inFlight);
  }

  /** With nothing dropped, a subscriber whose own events came out of order does not
      recover: it reads some of them again. */
  lemma OutOfOrderRereads(h: History, id: nat)
    requires id in After(h).subs && id in After(h).registered && After(h).subs[id].dropped == 0
    requires StartsWith(Concerning(h, id), Matching(FilterOf(h, id), Before(h, id)))
    ensures Recovers(h, id) <==> InOrderFor(h, id)
  {
    var f := FilterOf(h, id);
    Ledger(h, id);
    WantedInPublished(h, id);
    PublishedSplits(h, id);
    DeliveredFits(h, id);
    RecoversExactly(h, id);
    PrefixExactly(h, id);
    assert Wanted(h, id) + [] == Wanted(h, id);
    JoinedPrefix(Concerning(h, id), Matching(f, Before(h, id)), Wanted(h, id));
  }

  // What is lost.

  /** The events that were dropped for `id`. */
  function Dropped(h: History, id: nat): seq<Event> {
    match h
    case Start => []
    case Then(p, Publish(k)) =>
      if k < |After(p).inFlight| && id in After(p).registered && id in After(p).subs
         && Matches(After(p).subs[id].filter, After(p).inFlight[k]) && Full(After(p).subs[id])
      then Dropped(p, id) + [After(p).inFlight[k]] else Dropped(p, id)
    case Then(p, _) => Dropped(p, id)
  }

  lemma {:induction false} NothingDroppedYet(h: History, id: nat)
    requires id !in After(h).subs
    ensures Dropped(h, id) == []
  {
    if h.Then? {
      IdsAreNumbered(h.past);
      NothingDroppedYet(h.past, id);
    }
  }

  /** What subscription `s` was delivered, and what it was not, is what it was offered. */
  ghost predicate Parted(s: Sub, wanted: seq<Event>, dropped: seq<Event>) {
    multiset(wanted) == multiset(Delivered(s)) + multiset(dropped) && |dropped| == s.dropped
  }

  lemma OfferParts(s: Sub, w: seq<Event>, x: seq<Event>, e: Event)
    requires Parted(s, w, x)
    ensures Parted(Offer(s, e), w + (if Matches(s.filter, e) then [e] else []),
                   x + (if Matches(s.filter, e) && Full(s) then [e] else []))
  {
    if !Matches(s.filter, e) {
      assert w + [] == w && x + [] == x;
    } else if Full(s) {
      assert Delivered(Offer(s, e)) == Delivered(s);
    } else {
      QueuedLast(s, e);
      assert x + [] == x;
    }
  }

  ghost predicate PartsKnown(h: History, id: nat) {
    id in After(h).subs && Parted(After(h).subs[id], Wanted(h, id), Dropped(h, id))
  }

  lemma PartsStep(p: History, t: Step, id: nat)
    requires PartsKnown(p, id)
    ensures PartsKnown(Then(p, t), id)
  {
    FilterStays(p, t, id);
    if t.Publish? && t.flight < |After(p).inFlight| && id in After(p).registered {
      PublishParts(p, t.flight, id, After(p).subs[id], After(p).inFlight[t.flight]);
    } else {
      OtherParts(p, t, id);
    }
  }

  /** A step that offers subscription `id` nothing. */
  predicate OffersNothing(p: History, t: Step, id: nat) {
    t.Publish? && t.flight < |After(p).inFlight| ==> id !in After(p).registered
  }

  lemma OtherRecords(p: History, t: Step, id: nat)
    requires id in After(p).subs && OffersNothing(p, t, id)
    ensures During(Then(p, t), id) == During(p, id) && Dropped(Then(p, t), id) == Dropped(p, id)
  {
  }

  lemma OtherAccounts(p: History, t: Step, id: nat)
    requires id in After(p).subs && OffersNothing(p, t, id)
    ensures id in After(Then(p, t)).subs
    ensures var s, u := After(p).subs[id], After(Then(p, t)).subs[id];
            u.filter == s.filter && u.dropped == s.dropped && Delivered(u) == Delivered(s)
  {
    FilterStays(p, t, id);
    IdsAreNumbered(p);
    TakeDelivers(After(p).subs[id]);
  }

  lemma OtherParts(p: History, t: Step, id: nat)
    requires PartsKnown(p, id) && OffersNothing(p, t, id)
    ensures PartsKnown(Then(p, t), id)
  {
    OtherRecords(p, t, id);
    OtherAccounts(p, t, id);
  }

  /** Every event wanted was delivered or dropped, once. */
  lemma {:induction false} DeliveredOrDropped(h: History, id: nat)
    requires id in After(h).subs
    ensures PartsKnown(h, id)
  {
    var p := h.past;
    if id !in After(p).subs {
      NothingYet(p, id);
      NothingDroppedYet(p, id);
    } else {
      DeliveredOrDropped(p, id);
      PartsStep(p, h.step, id);
    }
  }

  lemma PublishRecords(p: History, k: nat, id: nat, s: Sub, e: Event)
    requires id in After(p).subs && id in After(p).registered && s == After(p).subs[id]
    requires k < |After(p).inFlight| && e == After(p).inFlight[k]
    ensures var h := Then(p, Publish(k));
            && id in After(h).subs && After(h).subs[id] == Offer(s, e)
            && During(h, id) == During(p, id) + [e]
            && Dropped(h, id) == Dropped(p, id) + (if Matches(s.filter, e) && Full(s) then [e] else [])
  {
    assert Dropped(p, id) + [] == Dropped(p, id);
  }

  lemma PublishParts(p: History, k: nat, id: nat, s: Sub, e: Event)
    requires id in After(p).subs && id in After(p).registered && s == After(p).subs[id]
    requires k < |After(p).inFlight| && e == After(p).inFlight[k] && Parted(s, Wanted(p, id), Dropped(p, id))
    ensures id in After(Then(p, Publish(k))).subs
    ensures var h := Then(p, Publish(k)); Parted(After(h).subs[id], Wanted(h, id), Dropped(h, id))
  {
    PublishRecords(p, k, id, s, e);
    MatchingSnoc(s.filter, During(p, id), e);
    OfferParts(s, Wanted(p, id), Dropped(p, id), e);
  }

  ghost predicate AllFound(w: seq<Event>, d: seq<Event>) {
    forall i | 0 <= i < |w| :: w[i] in d || d == [] || w[i].seqNo > d[|d| - 1].seqNo
  }

  ghost predicate AllLater(x: seq<Event>, d: seq<Event>) {
    d == [] || forall i | 0 <= i < |x| :: x[i].seqNo > d[|d| - 1].seqNo
  }

  /** Every event wanted was delivered or is found by reading on. */
  ghost predicate NothingLost(h: History, id: nat)
    requires id in After(h).subs
  {
    AllFound(Wanted(h, id), DeliveredTo(h, id))
  }

  /** In every history, in order or not, nothing is lost exactly when every number dropped
      is above the last one delivered. */
  lemma NothingLostExactly(h: History, id: nat)
    requires id in After(h).subs
    ensures NothingLost(h, id) <==> AllLater(Dropped(h, id), DeliveredTo(h, id))
  {
    DeliveredOrDropped(h, id);
    forall e ensures multiset(Wanted(h, id))[e] <= 1 {
      WantedOnce(h, id, e);
    }
    LostExactly(Wanted(h, id), DeliveredTo(h, id), Dropped(h, id));
  }

  lemma LostExactly(w: seq<Event>, d: seq<Event>, x: seq<Event>)
    requires multiset(w) == multiset(d) + multiset(x) && forall e :: multiset(w)[e] <= 1
    ensures AllFound(w, d) <==> AllLater(x, d)
  {
    forall i | 0 <= i < |x| ensures x[i] !in d && exists j :: 0 <= j < |w| && w[j] == x[i] {
      assert x[i] in multiset(x) && x[i] in multiset(w);
      assert multiset(w)[x[i]] == multiset(d)[x[i]] + multiset(x)[x[i]];
    }
    forall i | 0 <= i < |w| ensures w[i] in d || exists j :: 0 <= j < |x| && x[j] == w[i] {
      assert w[i] in multiset(w);
    }
  }

  lemma WantedOnce(h: History, id: nat, e: Event)
    requires id in After(h).subs
    ensures multiset(Wanted(h, id))[e] <= 1
  {
    PublishedSplits(h, id);
    PublishedOnce(h);
    LogAscends(h);
    MatchingIsPart(After(h).subs[id].filter, During(h, id));
    TwiceInLog(After(h).log, e);
  }

  function Emit(h: History, e: Event): History {
    Then(Then(h, Commit(e)), Publish(0))
  }

  /** Three emits that do not overlap, to a queue of one: the second is dropped, the
      third is not, and reading on from the third never finds the second. */
  lemma ADropCanBeLost(f: Filter, a: Event, b: Event, c: Event)
    requires a.seqNo < b.seqNo < c.seqNo && Matches(f, a) && Matches(f, b) && Matches(f, c)
    ensures var h := Emit(Then(Emit(Emit(Then(Start, Subscribe(f, 1)), a), b), Consume(1)), c);
            InCommitOrder(h) && 1 in After(h).subs && !Recovers(h, 1)
  {
    var h := OneDropped(f, a, b);
    EmitAlone(h, c, 1);
    CommitOrderIsEnough(Emit(h, c), 1);
    RecoveryExactly(Emit(h, c), 1);
  }

  lemma OneDropped(f: Filter, a: Event, b: Event) returns (h: History)
    requires a.seqNo < b.seqNo && Matches(f, a) && Matches(f, b)
    ensures h == Then(Emit(Emit(Then(Start, Subscribe(f, 1)), a), b), Consume(1))
    ensures InCommitOrder(h) && After(h).inFlight == [] && After(h).log == [a, b]
    ensures 1 in After(h).registered && 1 in After(h).subs && After(h).subs[1] == Sub(f, 1, [], [a], 1)
  {
    var h1 := OneQueued(f, a);
    EmitAlone(h1, b, 1);
    var h2 := Emit(h1, b);
    assert After(h2).subs[1] == Sub(f, 1, [a], [], 1) && [a] + [b] == [a, b];
    h := Then(h2, Consume(1));
    AfterConsume(h2, 1);
    assert Take(Sub(f, 1, [a], [], 1)) == Sub(f, 1, [], [a], 1);
  }

  lemma OneQueued(f: Filter, a: Event) returns (h: History)
    requires Matches(f, a)
    ensures h == Emit(Then(Start, Subscribe(f, 1)), a)
    ensures InCommitOrder(h) && After(h).inFlight == [] && After(h).log == [a]
    ensures 1 in After(h).registered && 1 in After(h).subs && After(h).subs[1] == Sub(f, 1, [a], [], 0)
  {
    var h0 := Then(Start, Subscribe(f, 1));
    assert After(h0) == State([], [], map[1 := Sub(f, 1, [], [], 0)], {1}, 1);
    EmitAlone(h0, a, 1);
    h := Emit(h0, a);
    assert [] + [a] == [a];
  }

  /** An emit with no other in flight. */
  lemma EmitAlone(h: History, e: Event, id: nat)
    requires After(h).inFlight == [] && Above(After(h).log, e)
    requires id in After(h).subs && id in After(h).registered && InCommitOrder(h)
    ensures InCommitOrder(Emit(h, e)) && After(Emit(h, e)).inFlight == []
    ensures After(Emit(h, e)).log == After(h).log + [e] && After(Emit(h, e)).registered == After(h).registered
    ensures id in After(Emit(h, e)).subs && After(Emit(h, e)).subs[id] == Offer(After(h).subs[id], e)
    ensures NoneAfterADrop(Emit(h, e), id) ==>
              Matches(After(h).subs[id].filter, e) && After(h).subs[id].dropped > 0 ==> Full(After(h).subs[id])
  {
    var m := Then(h, Commit(e));
    assert After(m).inFlight == [e];
    assert Without([e], 0) == [];
  }

  /** Two emits that overlap can reach a reader against the order of the log; it then
      reads the later one again, although nothing was dropped. */
  lemma OverlapInverts(a: Event, b: Event, f: Filter)
    requires a.seqNo < b.seqNo && Matches(f, a) && Matches(f, b)
    ensures exists h :: 1 in After(h).subs && After(h).log == [a, b]
                        && After(h).subs[1].queue == [b, a] && After(h).subs[1].dropped == 0
                        && NoneAfterADrop(h, 1) && !Recovers(h, 1)
                        && CatchUp(f, [a, b], Window(h, 1), [b, a]) == [b, a, b]
  {
    var h2 := TwoInFlight(a, b, f);
    var h3 := Then(h2, Publish(1));
    var h4 := Then(h3, Publish(0));
    assert Without([a, b], 1) == [a] && Without([a], 0) == [] && [] + [b] == [b] && [b] + [a] == [b, a];
    PublishTo(h2, 1, b, [a], [], f);
    PublishTo(h3, 0, a, [], [b], f);
    RereadsLater(h2, h3, h4, a, b, f);
    ReadsOnFrom(a, b, f, Window(h4, 1));
  }

  function OneReader(f: Filter, log: seq<Event>, inFlight: seq<Event>, queue: seq<Event>): State {
    State(log, inFlight, map[1 := Sub(f, 1024, queue, [], 0)], {1}, 1)
  }

  lemma TwoInFlight(a: Event, b: Event, f: Filter) returns (h: History)
    requires a.seqNo < b.seqNo
    ensures After(h) == OneReader(f, [a, b], [a, b], [])
    ensures Before(h, 1) == [] && NoneAfterADrop(h, 1)
  {
    var h0 := Then(Start, Subscribe(f, 1024));
    assert After(h0) == OneReader(f, [], [], []);
    var h1 := Then(h0, Commit(a));
    assert After(h1) == OneReader(f, [a], [a], []);
    h := Then(h1, Commit(b));
    assert [a] + [b] == [a, b];
    assert Before(h0, 1) == [] && NoneAfterADrop(h0, 1);
    assert Before(h1, 1) == [] && NoneAfterADrop(h1, 1);
  }

  lemma PublishTo(h: History, k: nat, e: Event, left: seq<Event>, queue: seq<Event>, f: Filter)
    requires k < |After(h).inFlight| && After(h).inFlight[k] == e && Without(After(h).inFlight, k) == left
    requires After(h) == OneReader(f, After(h).log, After(h).inFlight, queue)
    requires Matches(f, e) && |queue| < 1024
    ensures After(Then(h, Publish(k))) == OneReader(f, After(h).log, left, queue + [e])
  {
    assert Fan(After(h).subs, {1}, e) == map[1 := Sub(f, 1024, queue + [e], [], 0)];
  }

  lemma AfterTheFirst(a: Event, b: Event)
    requires a.seqNo < b.seqNo
    ensures AfterSeq([a, b], a.seqNo) == [b]
  {
    AllBelow([a], a.seqNo);
    assert [a, b][..1] == [a];
  }

  lemma MatchingOne(f: Filter, e: Event)
    requires Matches(f, e)
    ensures Matching(f, [e]) == [e]
  {
    assert [e][..0] == [];
  }

  lemma ReadsOnFrom(a: Event, b: Event, f: Filter, window: seq<Event>)
    requires a.seqNo < b.seqNo && Matches(f, b)
    ensures CatchUp(f, [a, b], window, [b, a]) == [b, a, b]
  {
    AfterTheFirst(a, b);
    MatchingOne(f, b);
    assert [b, a] + [b] == [b, a, b];
  }

  lemma RereadsLater(h2: History, h3: History, h4: History, a: Event, b: Event, f: Filter)
    requires a.seqNo < b.seqNo && Matches(f, a) && Matches(f, b)
    requires After(h2).log == [a, b] && After(h2).inFlight == [a, b]
    requires 1 in After(h2).subs && After(h2).subs[1] == Sub(f, 1024, [], [], 0) && 1 in After(h2).registered
    requires h3 == Then(h2, Publish(1)) && h4 == Then(h3, Publish(0))
    requires Before(h2, 1) == [] && NoneAfterADrop(h2, 1)
    ensures 1 in After(h4).subs && NoneAfterADrop(h4, 1) && !Recovers(h4, 1)
  {
    StartStays(h2, Publish(1), 1);
    StartStays(h3, Publish(0), 1);
    MatchingSnoc(f, [a], b);
    MatchingSnoc(f, [], a);
    assert [] + [a] == [a] && [a] + [b] == [a, b];
    assert WillQueue(After(h2), 1, 1) && !IsNext(h2, 1, b);
    RecoversExactly(h4, 1);
  }

  // The objects.

  class Subscription {
    const id: nat
    const filter: Filter
    const bound: int
    var queue: seq<Event>
    var dropped: nat
    /** What the reader has taken. */
    ghost var taken: seq<Event>

    constructor (id: nat, filter: Filter, bound: int)
      ensures this.id == id && View() == Sub(filter, bound, [], [], 0)
    {
      this.id, this.filter, this.bound := id, filter, bound;
      queue, dropped, taken := [], 0, [];
    }

    ghost function View(): Sub
      reads this
    {
      Sub(filter, bound, queue, taken, dropped)
    }

    /** `put_nowait`, or one more on the drop counter when the queue is full. */
    method Put(e: Event) returns (delivered: bool)
      requires Matches(filter, e)
      modifies this`queue, this`dropped
      ensures View() == Offer(old(View()), e)
      ensures delivered <==> !Full(old(View()))
    {
      if bound > 0 && |queue| >= bound {
        dropped := dropped + 1;
        return false;
      }
      queue := queue + [e];
      return true;
    }

    /** One turn of the loop in `publish`. */
    method Deliver(e: Event) returns (delivered: bool)
      modifies this`queue, this`dropped
      ensures View() == Offer(old(View()), e)
      ensures delivered <==> Takes(old(View()), e)
    {
      if !Matches(filter, e) {
        return false;
      }
      delivered := Put(e);
    }

    /** `queue.get()`, for a reader that does not have to wait. */
    method Get() returns (e: Option<Event>)
      modifies this`queue, this`taken
      ensures View() == Take(old(View()))
      ensures e == (if old(queue) == [] then None else Some(old(queue)[0]))
    {
      if queue == [] {
        return None;
      }
      e := Some(queue[0]);
      taken := taken + [queue[0]];
      queue := queue[1..];
    }
  }

  /** How many of the first `n` subscriptions an event reaches. */
  function Reached(s: State, e: Event, n: nat): nat {
    if n == 0 then 0
    else Reached(s, e, n - 1)
         + (if n in s.registered && n in s.subs && Takes(s.subs[n], e) then 1 else 0)
  }

  /** A subscription gets a number of its own. */
  lemma AfterSubscribe(h: History, f: Filter, b: int)
    ensures After(h).counter + 1 !in After(h).subs
    ensures var s, n := After(h), After(h).counter + 1;
            After(Then(h, Step.Subscribe(f, b)))
            == State(s.log, s.inFlight, s.subs[n := Sub(f, b, [], [], 0)], s.registered + {n}, n)
  {
    IdsAreNumbered(h);
  }

  lemma AfterConsume(h: History, id: nat)
    requires id in After(h).subs
    ensures After(Then(h, Step.Consume(id)))
            == After(h).(subs := After(h).subs[id := Take(After(h).subs[id])])
  {
  }

  lemma QueuedIsLogged(h: History, id: nat)
    requires id in After(h).subs
    ensures After(h).subs[id].queue != [] ==> After(h).subs[id].queue[0] in After(h).log
  {
    PersistedFirst(h);
    assert Within(After(h).subs[id].queue, After(h).log);
  }

  class EventBus {
    var log: seq<Event>
    /** Emits that have committed and not yet published. */
    var inFlight: seq<Event>
    var subscribers: map<nat, Subscription>
    var counter: nat
    /** Every subscription ever made, and the steps taken so far. */
    ghost var made: map<nat, Subscription>
    ghost var history: History

    ghost predicate Valid()
      reads this, made.Values
    {
      Numbering() && Mirrors(After(history))
    }

    ghost predicate Numbering()
      reads this, made.Values
    {
      && (forall id | id in made :: made[id].id == id)
      && (forall id | id in subscribers :: id in made && subscribers[id] == made[id])
    }

    /** The objects are in the state `s`. */
    ghost predicate Mirrors(s: State)
      reads this, made.Values
    {
      && log == s.log && inFlight == s.inFlight && counter == s.counter
      && subscribers.Keys == s.registered
      && HoldsAll(s.subs)
    }

    ghost predicate HoldsAll(subs: map<nat, Sub>)
      reads this`made, made.Values
    {
      made.Keys == subs.Keys && forall id | id in made :: made[id].View() == subs[id]
    }

    constructor ()
      ensures Valid() && history == Start
    {
      log, inFlight, subscribers, counter := [], [], map[], 0;
      made, history := map[], Start;
    }

    method Subscribe(filter: Filter, bound: int) returns (s: Subscription)
      requires Valid()
      modifies this
      ensures Valid() && history == Then(old(history), Step.Subscribe(filter, bound))
      ensures s.id in subscribers && subscribers[s.id] == s && s.id !in old(made)
    {
      AfterSubscribe(history, filter, bound);
      s := Register(filter, bound, After(history), After(Then(history, Step.Subscribe(filter, bound))));
      history := Then(history, Step.Subscribe(filter, bound));
    }

    method Register(filter: Filter, bound: int, ghost before: State, ghost after: State) returns (s: Subscription)
      requires Mirrors(before) && Numbering() && counter + 1 !in made
      requires var n := counter + 1;
               after == State(before.log, before.inFlight, before.subs[n := Sub(filter, bound, [], [], 0)],
                              before.registered + {n}, n)
      modifies this`counter, this`subscribers, this`made
      ensures Mirrors(after) && Numbering()
      ensures s.id == counter && subscribers == old(subscribers)[s.id := s] && made == old(made)[s.id := s]
      ensures s.id !in old(made)
    {
      s := new Subscription(counter + 1, filter, bound);
      counter := counter + 1;
      subscribers := subscribers[counter := s];
      made := made[counter := s];
    }

    method Unsubscribe(s: Subscription)
      requires Valid()
      modifies this
      ensures Valid() && history == Then(old(history), Step.Unsubscribe(s.id)) && made == old(made)
    {
      subscribers := subscribers - {s.id};
      history := Then(history, Step.Unsubscribe(s.id));
    }

    /** The loop of `publish` over the registered subscriptions, in the order they were
        made, which is the order of their numbers. */
    method FanOut(e: Event, ghost s: State) returns (delivered: nat)
      requires subscribers.Keys == s.registered && HoldsAll(s.subs) && Numbering()
      requires forall id | id in made :: 1 <= id <= counter
      modifies made.Values
      ensures HoldsAll(Fan(s.subs, s.registered, e))
      ensures delivered == Reached(s, e, counter)
    {
      var registered := subscribers;
      ghost var all := made;
      delivered := 0;
      for id: nat := 1 to counter + 1
        invariant forall k | k in all && k < id :: all[k].View() == Turned(s, e, k)
        invariant forall k | k in all && k >= id :: all[k].View() == s.subs[k]
        invariant delivered == Reached(s, e, id - 1)
      {
        if id in registered {
          assert forall k | k in all && all[k] == all[id] :: k == id;
          var ok := registered[id].Deliver(e);
          if ok {
            delivered := delivered + 1;
          }
        }
      }
    }

    /** Subscription `k` once the loop has passed it. */
    static ghost function Turned(s: State, e: Event, k: nat): Sub
      requires k in s.subs
    {
      if k in s.registered then Offer(s.subs[k], e) else s.subs[k]
    }

    /** The second half of `emit`. */
    method Publish(flight: nat) returns (delivered: nat)
      requires Valid() && flight < |inFlight|
      modifies this, made.Values
      ensures Valid() && history == Then(old(history), Step.Publish(flight)) && made == old(made)
      ensures delivered == Reached(After(old(history)), old(inFlight[flight]), old(counter))
    {
      IdsAreNumbered(history);
      delivered := FanOut(inFlight[flight], After(history));
      inFlight := inFlight[..flight] + inFlight[flight + 1..];
      history := Then(history, Step.Publish(flight));
    }

    /** The first half of `emit`: the event is in the log, and not yet fanned out. */
    method Append(e: Event)
      requires Valid() && Above(log, e)
      modifies this
      ensures Valid() && history == Then(old(history), Step.Commit(e)) && made == old(made)
    {
      log := log + [e];
      inFlight := inFlight + [e];
      history := Then(history, Step.Commit(e));
    }

    /** One turn of `listen` that finds something in the queue, or does not. */
    method Listen(s: Subscription) returns (e: Option<Event>)
      requires Valid() && s.id in made && made[s.id] == s
      modifies this, s
      ensures Valid() && history == Then(old(history), Step.Consume(s.id)) && made == old(made)
      ensures e.Some? ==> e.value in log
    {
      QueuedIsLogged(history, s.id);
      AfterConsume(history, s.id);
      ghost var before := After(history);
      e := s.Get();
      assert HoldsAll(before.subs[s.id := Take(before.subs[s.id])]);
      history := Then(history, Step.Consume(s.id));
    }
  }
}
