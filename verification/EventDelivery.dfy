/** Who is given which event (`Subscription.matches` and `publish` in `daemon/bus.py`).

    What the bus does is told here on the fields of filters, queues and events, and from the
    steps of a run, without the functions that its steps are built from. */
module EventDelivery {
  import opened Wrappers
  import opened EventBus

  /** The session is the one asked for, if one is, and the type one of those, if there are any. */
  predicate Fits(f: Filter, e: Event) {
    && (f.sessionId == "" || f.sessionId == e.sessionId)
    && (f.eventTypes == {} || e.eventType in f.eventTypes)
  }

  predicate HasRoom(s: Sub) { s.bound <= 0 || |s.queue| < s.bound }

  lemma {:induction false} MatchingCounts(f: Filter, s: seq<Event>, e: Event)
    ensures multiset(Matching(f, s))[e] == if Fits(f, e) then multiset(s)[e] else 0
  {
    if s != [] {
      var front, last := s[..|s| - 1], s[|s| - 1];
      MatchingCounts(f, front, e);
      assert s == front + [last];
    }
  }

  /** In every history an event published while a subscription was registered is delivered to
      it or dropped, once, if session and type fit its filter, and neither if they do not. */
  lemma DeliveredExactly(h: History, id: nat, e: Event)
    requires id in After(h).subs
    ensures multiset(During(h, id))[e] <= 1
    ensures multiset(DeliveredTo(h, id))[e] + multiset(Dropped(h, id))[e]
         == if Fits(FilterOf(h, id), e) then multiset(During(h, id))[e] else 0
  {
    DeliveredOrDropped(h, id);
    MatchingCounts(FilterOf(h, id), During(h, id), e);
    PublishedSplits(h, id);
    PublishedOnce(h);
    LogAscends(h);
    TwiceInLog(After(h).log, e);
  }

  /** In every history, a reader that asked for a session is given nothing of another one, and
      one that asked for types nothing of another type. */
  lemma NothingElseIsDelivered(h: History, id: nat, i: nat)
    requires id in After(h).subs && i < |DeliveredTo(h, id)|
    ensures var f, e := FilterOf(h, id), DeliveredTo(h, id)[i];
            (f.sessionId != "" ==> e.sessionId == f.sessionId) && (f.eventTypes != {} ==> e.eventType in f.eventTypes)
  {
    var e := DeliveredTo(h, id)[i];
    DeliveredExactly(h, id, e);
    assert e in multiset(DeliveredTo(h, id));
  }

  /** One publish: a registered subscription that the event fits queues it behind the others if
      it has room, and counts it as dropped if not; every other subscription stays as it is. */
  lemma PublishExactly(p: History, k: nat, id: nat)
    requires k < |After(p).inFlight| && id in After(p).subs
    ensures id in After(Then(p, Publish(k))).subs
    ensures var s, t, e := After(p).subs[id], After(Then(p, Publish(k))).subs[id], After(p).inFlight[k];
            t == if id !in After(p).registered || !Fits(s.filter, e) then s
                 else if HasRoom(s) then Sub(s.filter, s.bound, s.queue + [e], s.taken, s.dropped)
                 else Sub(s.filter, s.bound, s.queue, s.taken, s.dropped + 1)
  {
  }

  /** The subscriptions that a publish of `e` reaches. */
  function Reaches(s: State, e: Event): set<nat> {
    set id | id in s.registered && id in s.subs && Fits(s.subs[id].filter, e) && HasRoom(s.subs[id])
  }

  lemma {:induction false} ReachedUpTo(s: State, e: Event, n: nat)
    requires 0 !in s.registered
    ensures Reached(s, e, n) == |set id | id in Reaches(s, e) && id <= n|
  {
    var upTo := set id | id in Reaches(s, e) && id <= n;
    if n == 0 {
      assert upTo == {};
    } else {
      var before := set id | id in Reaches(s, e) && id <= n - 1;
      ReachedUpTo(s, e, n - 1);
      assert upTo == if n in Reaches(s, e) then before + {n} else before;
    }
  }

  /** The number that a publish returns is that of the subscriptions it reaches. */
  lemma ReturnsTheReached(p: History, e: Event)
    ensures Reached(After(p), e, After(p).counter) == |Reaches(After(p), e)|
  {
    var s := After(p);
    IdsAreNumbered(p);
    ReachedUpTo(s, e, s.counter);
    assert (set id | id in Reaches(s, e) && id <= s.counter) == Reaches(s, e);
  }

  // Who is there, told from the steps.

  function Subscriptions(h: History): nat {
    match h
    case Start => 0
    case Then(p, Subscribe(_, _)) => Subscriptions(p) + 1
    case Then(p, _) => Subscriptions(p)
  }

  /** The subscription `id` was made, and nobody has ended it since. */
  predicate RegisteredIn(h: History, id: nat) {
    match h
    case Start => false
    case Then(p, Subscribe(_, _)) => id == Subscriptions(p) + 1 || RegisteredIn(p, id)
    case Then(p, Unsubscribe(other)) => id != other && RegisteredIn(p, id)
    case Then(p, _) => RegisteredIn(p, id)
  }

  /** The filter and the bound that the subscription `id` was made with. */
  function MadeWith(h: History, id: nat): Option<(Filter, int)> {
    match h
    case Start => None
    case Then(p, Subscribe(f, bound)) => if id == Subscriptions(p) + 1 then Some((f, bound)) else MadeWith(p, id)
    case Then(p, _) => MadeWith(p, id)
  }

  /** In every history the subscriptions, with their filters and bounds, and which of them are
      still registered, are told by the steps so far. */
  lemma {:induction false} SubscribersAreTold(h: History, id: nat)
    ensures After(h).counter == Subscriptions(h)
    ensures id in After(h).registered <==> RegisteredIn(h, id)
    ensures id in After(h).subs <==> MadeWith(h, id).Some?
    ensures id in After(h).subs ==> MadeWith(h, id) == Some((After(h).subs[id].filter, After(h).subs[id].bound))
  {
    if h.Then? {
      SubscribersAreTold(h.past, id);
      IdsAreNumbered(h.past);
    }
  }

  /** A subscription without a bound never drops anything. */
  lemma {:induction false} UnboundedDropsNothing(h: History, id: nat)
    requires id in After(h).subs && After(h).subs[id].bound <= 0
    ensures Dropped(h, id) == [] && After(h).subs[id].dropped == 0
  {
    var p := h.past;
    DeliveredOrDropped(h, id);
    if id !in After(p).subs {
      NothingDroppedYet(p, id);
    } else {
      FilterStays(p, h.step, id);
      UnboundedDropsNothing(p, id);
    }
  }
}
