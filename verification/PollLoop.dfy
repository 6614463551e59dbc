/** The polling loop of the dashboard (`usePoll` in `apps/web/src/lib/use-poll.ts`).

    The loop lives in references that outlast any one run of the effect that starts
    it, and its callbacks (a timer firing, a request settling, the tab becoming
    visible) arrive in any order. A history is a sequence of such callbacks. */
module PollLoop {
  import opened Wrappers

  function Pow2(n: nat): (p: nat)
    ensures p >= 1
  {
    if n == 0 then 1 else 2 * Pow2(n - 1)
  }

  function Min(a: nat, b: nat): nat { if a < b then a else b }

  /** The delay that follows `n` consecutive retryable failures. */
  function Backoff(min: nat, max: nat, n: nat): nat {
    if n == 0 then min else Min(min * Pow2(n), max)
  }

  /** Doubling and capping the last delay gives the next one. */
  lemma BackoffDoubles(min: nat, max: nat, n: nat)
    ensures Min(Backoff(min, max, n) * 2, max) == Backoff(min, max, n + 1)
  {
    assert min * Pow2(n + 1) == (min * Pow2(n)) * 2;
  }

  /** The delay stays between its bounds for ever exactly when they are in order. */
  lemma BackoffInRange(min: nat, max: nat)
    ensures (forall n: nat :: min <= Backoff(min, max, n) <= max) <==> min <= max
  {
    assert Backoff(min, max, 0) == min;
    if min <= max {
      forall n: nat ensures min <= Backoff(min, max, n) <= max {
        assert min * Pow2(n) >= min * 1;
      }
    }
  }

  /** How a request settles. An abort is the loop's own doing; a failure is retried or
      it is not. */
  datatype Settlement = Success | Aborted | Retryable | Fatal

  datatype Event =
    | TimerFires(timer: nat)
    | Settles(request: nat, how: Settlement)
    | Visibility(nowHidden: bool)
    | RefreshClicked
    | EffectRuns(enable: bool)
    | Unmounted

  datatype Options = Options(intervalMs: nat, minBackoffMs: nat, maxBackoffMs: nat)

  /** A timer, with the run of the effect and the delay it was set for. */
  datatype Timer = Timer(owner: nat, delayMs: nat)

  /** `active` is the run of the effect that is not cancelled, if any. `timerRef` and
      `abortRef` name the last timer set and the last request sent. */
  datatype State = State(
    active: Option<nat>, mounted: bool, hidden: bool, backoff: nat,
    timers: map<nat, Timer>, timerRef: Option<nat>,
    requests: map<nat, nat>, aborted: set<nat>, abortRef: Option<nat>, next: nat)

  function Initial(o: Options): State {
    State(None, true, false, o.minBackoffMs, map[], None, map[], {}, None, 0)
  }

  /** Requests in flight that have not been told to abort. */
  function Live(s: State): set<nat> { s.requests.Keys - s.aborted }

  // The callbacks, one at a time.

  /** `clearTimeout(timerRef.current)`. */
  function TimersCleared(s: State): map<nat, Timer> {
    if s.timerRef.Some? then s.timers - {s.timerRef.value} else s.timers
  }

  /** `abortRef.current?.abort()`. */
  function AbortedNow(s: State): set<nat> {
    if s.abortRef.Some? then s.aborted + {s.abortRef.value} else s.aborted
  }

  function Scheduled(s: State, owner: nat, delayMs: nat): State {
    s.(timers := TimersCleared(s)[s.next := Timer(owner, delayMs)], timerRef := Some(s.next), next := s.next + 1)
  }

  function Sent(s: State, owner: nat): State {
    s.(aborted := AbortedNow(s), requests := s.requests[s.next := owner], abortRef := Some(s.next), next := s.next + 1)
  }

  function Fired(o: Options, s: State, timer: nat): State
    requires timer in s.timers
  {
    var owner := s.timers[timer].owner;
    var rest := s.(timers := s.timers - {timer});
    if s.active != Some(owner) || !s.mounted then rest
    else if s.hidden then Scheduled(rest, owner, o.intervalMs)
    else Sent(rest, owner)
  }

  /** The settled request belongs to the run of the effect that is still on. */
  predicate Heard(s: State, request: nat) {
    request in s.requests && s.active == Some(s.requests[request]) && s.mounted
  }

  function Settled(o: Options, s: State, request: nat, how: Settlement): State
    requires request in s.requests
  {
    var owner := s.requests[request];
    var rest := s.(requests := s.requests - {request});
    if !Heard(s, request) then rest
    else match how
      case Success => Scheduled(rest.(backoff := o.minBackoffMs), owner, o.intervalMs)
      case Aborted => rest
      case Fatal => rest
      case Retryable => Scheduled(rest.(backoff := Min(s.backoff * 2, o.maxBackoffMs)), owner, s.backoff)
  }

  function Seen(o: Options, s: State, nowHidden: bool): State {
    var now := s.(hidden := nowHidden);
    if s.active.None? || nowHidden then now
    else Scheduled(now.(backoff := o.minBackoffMs), s.active.value, 0)
  }

  function CleanedUp(s: State): State {
    s.(active := None, timers := TimersCleared(s), aborted := AbortedNow(s))
  }

  function EffectRun(s: State, enable: bool): State {
    var clean := CleanedUp(s);
    if !enable || !s.mounted then clean
    else Scheduled(clean.(active := Some(clean.next), next := clean.next + 1), clean.next, 0)
  }

  /** A timer or a request that is not there does nothing, and a request settles with an
      abort only when it was told to. */
  predicate Enabled(s: State, e: Event) {
    match e
    case TimerFires(t) => t in s.timers
    case Settles(r, how) => r in s.requests && (how.Aborted? ==> r in s.aborted)
    case _ => true
  }

  function Step(o: Options, s: State, e: Event): State
    requires Enabled(s, e)
  {
    match e
    case TimerFires(t) => Fired(o, s, t)
    case Settles(r, how) => Settled(o, s, r, how)
    case Visibility(nowHidden) => Seen(o, s, nowHidden)
    case RefreshClicked => s.(backoff := o.minBackoffMs)
    case EffectRuns(enable) => EffectRun(s, enable)
    case Unmounted => CleanedUp(s).(mounted := false)
  }

  datatype History = Start | Then(past: History, event: Event)

  function After(o: Options, h: History): State {
    match h
    case Start => Initial(o)
    case Then(p, e) => if Enabled(After(o, p), e) then Step(o, After(o, p), e) else After(o, p)
  }

  // What every run keeps.

  /** At most one timer is pending and at most one request is not aborted, and both
      belong to the active run of the effect. */
  ghost predicate OneAtATime(s: State) {
    && (forall t | t in s.timers :: s.timerRef == Some(t) && s.active == Some(s.timers[t].owner))
    && (forall r | r in Live(s) :: s.abortRef == Some(r) && s.active == Some(s.requests[r]))
  }

  ghost predicate Sound(s: State) {
    && OneAtATime(s)
    && (s.active.Some? ==> s.mounted && s.active.value < s.next)
    && (forall t | t in s.timers :: t < s.next)
    && (forall r | r in s.requests :: r < s.next)
    && (forall r | r in s.aborted :: r < s.next)
    && (s.abortRef.Some? ==> s.abortRef.value < s.next)
  }

  lemma ClearedNone(s: State)
    requires OneAtATime(s)
    ensures TimersCleared(s) == map[]
  {
    assert forall t | t in s.timers :: s.timerRef == Some(t);
  }

  lemma AbortedAll(s: State)
    requires OneAtATime(s)
    ensures s.requests.Keys - AbortedNow(s) == {}
  {
    assert forall r | r in Live(s) :: s.abortRef == Some(r);
  }

  lemma ScheduledIsSound(s: State, delayMs: nat)
    requires Sound(s) && s.active.Some?
    ensures Sound(Scheduled(s, s.active.value, delayMs))
    ensures Scheduled(s, s.active.value, delayMs).timers == map[s.next := Timer(s.active.value, delayMs)]
  {
    ClearedNone(s);
    assert Live(Scheduled(s, s.active.value, delayMs)) == Live(s);
  }

  lemma SentIsSound(s: State)
    requires Sound(s) && s.active.Some? && s.timers == map[]
    ensures Sound(Sent(s, s.active.value)) && Live(Sent(s, s.active.value)) == {s.next}
  {
    AbortedAll(s);
    var t := Sent(s, s.active.value);
    assert t.requests.Keys == s.requests.Keys + {s.next};
    assert s.next !in AbortedNow(s);
    assert Live(t) == {s.next};
  }

  lemma FiredIsSound(o: Options, s: State, timer: nat)
    requires Sound(s) && timer in s.timers
    ensures Sound(Fired(o, s, timer))
    ensures s.active == Some(s.timers[timer].owner) && s.mounted
    ensures s.hidden ==> Fired(o, s, timer).timers == map[s.next := Timer(s.active.value, o.intervalMs)]
                         && Live(Fired(o, s, timer)) == Live(s)
    ensures !s.hidden ==> Fired(o, s, timer).timers == map[] && Live(Fired(o, s, timer)) == {s.next}
  {
    var rest := s.(timers := s.timers - {timer});
    assert s.timerRef == Some(timer) && forall t | t in s.timers :: t == timer;
    assert rest.timers == map[] && Live(rest) == Live(s);
    if s.hidden {
      ScheduledIsSound(rest, o.intervalMs);
      assert Live(Scheduled(rest, s.active.value, o.intervalMs)) == Live(s);
    } else {
      SentIsSound(rest);
    }
  }

  lemma SettledIsSound(o: Options, s: State, request: nat, how: Settlement)
    requires Sound(s) && request in s.requests
    ensures Sound(Settled(o, s, request, how))
  {
    var rest := s.(requests := s.requests - {request});
    assert Live(rest) == Live(s) - {request};
    if Heard(s, request) && (how.Success? || how.Retryable?) {
      var b := if how.Success? then o.minBackoffMs else Min(s.backoff * 2, o.maxBackoffMs);
      assert Live(rest.(backoff := b)) == Live(rest);
      ScheduledIsSound(rest.(backoff := b), if how.Success? then o.intervalMs else s.backoff);
    }
  }

  lemma CleanedUpIsSound(s: State)
    requires Sound(s)
    ensures Sound(CleanedUp(s)) && CleanedUp(s).timers == map[] && Live(CleanedUp(s)) == {}
  {
    ClearedNone(s);
    AbortedAll(s);
  }

  lemma EffectRunIsSound(s: State, enable: bool)
    requires Sound(s)
    ensures Sound(EffectRun(s, enable))
  {
    CleanedUpIsSound(s);
    var clean := CleanedUp(s);
    if enable && s.mounted {
      var started := clean.(active := Some(clean.next), next := clean.next + 1);
      assert Live(started) == {};
      ScheduledIsSound(started, 0);
    }
  }

  lemma StepIsSound(o: Options, s: State, e: Event)
    requires Sound(s) && Enabled(s, e)
    ensures Sound(Step(o, s, e))
  {
    match e
    case TimerFires(t) => FiredIsSound(o, s, t);
    case Settles(r, how) => SettledIsSound(o, s, r, how);
    case Visibility(nowHidden) =>
      var now := s.(hidden := nowHidden);
      assert Live(now) == Live(s);
      if s.active.Some? && !nowHidden {
        assert Live(now.(backoff := o.minBackoffMs)) == Live(s);
        ScheduledIsSound(now.(backoff := o.minBackoffMs), 0);
      }
    case RefreshClicked => assert Live(s.(backoff := o.minBackoffMs)) == Live(s);
    case EffectRuns(enable) => EffectRunIsSound(s, enable);
    case Unmounted => CleanedUpIsSound(s);
      assert Live(CleanedUp(s).(mounted := false)) == {};
  }

  lemma {:induction false} AlwaysSound(o: Options, h: History)
    ensures Sound(After(o, h))
  {
    if h.Then? {
      AlwaysSound(o, h.past);
      if Enabled(After(o, h.past), h.event) {
        StepIsSound(o, After(o, h.past), h.event);
      }
    }
  }

  ghost predicate AtMostOne<T(!new)>(s: set<T>) {
    forall a, b | a in s && b in s :: a == b
  }

  /** In every run there is at most one pending timer and at most one live request, and
      none of either without an active run of the effect. */
  lemma NeverOverlaps(o: Options, h: History)
    ensures AtMostOne(After(o, h).timers.Keys) && AtMostOne(Live(After(o, h)))
    ensures After(o, h).active.None? ==> After(o, h).timers == map[] && Live(After(o, h)) == {}
  {
    AlwaysSound(o, h);
    var s := After(o, h);
  }

  // The backoff, told from the history.

  /** What the callback `e` does to the count of failures that the loop heard of. */
  function Counted(s: State, e: Event, n: nat): nat {
    match e
    case Settles(r, how) =>
      if !Heard(s, r) then n
      else if how.Success? then 0
      else if how.Retryable? then n + 1
      else n
    case Visibility(nowHidden) => if s.active.Some? && !nowHidden then 0 else n
    case RefreshClicked => 0
    case _ => n
  }

  /** How many retryable failures the loop has heard of since the last success, return to
      the tab or refresh. */
  function Failures(o: Options, h: History): nat {
    match h
    case Start => 0
    case Then(p, e) => if Enabled(After(o, p), e) then Counted(After(o, p), e, Failures(o, p)) else Failures(o, p)
  }

  lemma StepCounts(o: Options, s: State, e: Event, n: nat)
    requires Enabled(s, e) && s.backoff == Backoff(o.minBackoffMs, o.maxBackoffMs, n)
    ensures Step(o, s, e).backoff == Backoff(o.minBackoffMs, o.maxBackoffMs, Counted(s, e, n))
  {
    BackoffDoubles(o.minBackoffMs, o.maxBackoffMs, n);
  }

  /** In every run the backoff is the closed form for that count. */
  lemma {:induction false} BackoffIsCounted(o: Options, h: History)
    ensures After(o, h).backoff == Backoff(o.minBackoffMs, o.maxBackoffMs, Failures(o, h))
  {
    if h.Then? {
      BackoffIsCounted(o, h.past);
      if Enabled(After(o, h.past), h.event) {
        StepCounts(o, After(o, h.past), h.event, Failures(o, h.past));
      }
    }
  }

  /** The delay that a retryable failure sets is that of the failures before it. */
  lemma RetryDelay(o: Options, p: History, request: nat)
    requires Heard(After(o, p), request)
    ensures var s := After(o, p);
            After(o, Then(p, Settles(request, Retryable))).timers
            == map[s.next := Timer(s.active.value, Backoff(o.minBackoffMs, o.maxBackoffMs, Failures(o, p)))]
  {
    var s := After(o, p);
    AlwaysSound(o, p);
    BackoffIsCounted(o, p);
    var rest := s.(requests := s.requests - {request});
    assert Live(rest) == Live(s) - {request};
    ClearedNone(rest.(backoff := Min(s.backoff * 2, o.maxBackoffMs)));
  }

  // The timer and the request, told from the history.

  /** Whether the tab was last said to be hidden. */
  predicate HiddenIn(h: History) {
    match h
    case Start => false
    case Then(_, Visibility(nowHidden)) => nowHidden
    case Then(p, _) => HiddenIn(p)
  }

  predicate UnmountedIn(h: History) {
    h.Then? && (h.event.Unmounted? || UnmountedIn(h.past))
  }

  /** Whether the effect last ran enabled, while mounted, and the component is still there. */
  predicate OnIn(h: History) {
    match h
    case Start => false
    case Then(p, EffectRuns(enable)) => enable && !UnmountedIn(p)
    case Then(_, Unmounted) => false
    case Then(p, _) => OnIn(p)
  }

  /** The delay of the timer that is pending, if one is: none for a run of the effect or a
      return to the tab; the interval for a success, or a timer that fired while hidden; for
      a failure to be retried, that of the failures before it. */
  function PendingIn(o: Options, h: History): Option<nat> {
    match h
    case Start => None
    case Then(p, TimerFires(t)) =>
      if t !in After(o, p).timers then PendingIn(o, p)
      else if HiddenIn(p) then Some(o.intervalMs) else None
    case Then(p, Settles(r, Success)) => if Heard(After(o, p), r) then Some(o.intervalMs) else PendingIn(o, p)
    case Then(p, Settles(r, Retryable)) =>
      if Heard(After(o, p), r) then Some(Backoff(o.minBackoffMs, o.maxBackoffMs, Failures(o, p))) else PendingIn(o, p)
    case Then(p, Visibility(nowHidden)) => if OnIn(p) && !nowHidden then Some(0) else PendingIn(o, p)
    case Then(p, EffectRuns(enable)) => if enable && !UnmountedIn(p) then Some(0) else None
    case Then(_, Unmounted) => None
    case Then(p, _) => PendingIn(o, p)
  }

  /** Whether a request is in flight that has not been told to abort: the last timer that fired
      in sight sent one, and neither did it settle nor did the run of the effect end. */
  predicate InFlightIn(o: Options, h: History) {
    match h
    case Start => false
    case Then(p, TimerFires(t)) => InFlightIn(o, p) || (t in After(o, p).timers && !HiddenIn(p))
    case Then(p, Settles(r, how)) => InFlightIn(o, p) && (how.Aborted? || r !in Live(After(o, p)))
    case Then(_, EffectRuns(_)) => false
    case Then(_, Unmounted) => false
    case Then(p, _) => InFlightIn(o, p)
  }

  ghost predicate Told(o: Options, h: History) {
    var s := After(o, h);
    && s.hidden == HiddenIn(h) && s.mounted == !UnmountedIn(h) && s.active.Some? == OnIn(h)
    && (s.timers == map[] <==> PendingIn(o, h).None?)
    && (forall t | t in s.timers :: OnIn(h) && s.timers[t] == Timer(s.active.value, PendingIn(o, h).value))
    && (Live(s) != {} <==> InFlightIn(o, h))
  }

  lemma FiringIsTold(o: Options, p: History, t: nat)
    requires Told(o, p) && t in After(o, p).timers
    ensures Told(o, Then(p, TimerFires(t)))
  {
    AlwaysSound(o, p);
    FiredIsSound(o, After(o, p), t);
  }

  /** What a settlement leaves. */
  lemma SettlingSets(o: Options, s: State, r: nat, how: Settlement)
    requires Sound(s) && r in s.requests
    ensures Heard(s, r) && (how.Success? || how.Retryable?) ==> Settled(o, s, r, how).timers != map[]
    ensures var t := Settled(o, s, r, how);
            && t.hidden == s.hidden && t.mounted == s.mounted && t.active == s.active
            && Live(t) == Live(s) - {r}
            && t.timers == if Heard(s, r) && how.Success? then map[s.next := Timer(s.active.value, o.intervalMs)]
                           else if Heard(s, r) && how.Retryable? then map[s.next := Timer(s.active.value, s.backoff)]
                           else s.timers
  {
    var rest := s.(requests := s.requests - {r});
    assert Live(rest) == Live(s) - {r};
    if Heard(s, r) && (how.Success? || how.Retryable?) {
      var b := if how.Success? then o.minBackoffMs else Min(s.backoff * 2, o.maxBackoffMs);
      var delay := if how.Success? then o.intervalMs else s.backoff;
      ClearedNone(rest.(backoff := b));
      assert Settled(o, s, r, how) == Scheduled(rest.(backoff := b), s.active.value, delay);
      ScheduledIsAwake(rest.(backoff := b), s.active.value, delay);
    }
  }

  lemma OnlyLive(s: State, r: nat)
    requires Sound(s) && r in Live(s)
    ensures Live(s) - {r} == {}
  {
    assert s.abortRef == Some(r);
  }

  lemma SettlingIsTold(o: Options, p: History, r: nat, how: Settlement)
    requires Told(o, p) && Enabled(After(o, p), Settles(r, how))
    ensures Told(o, Then(p, Settles(r, how)))
  {
    var s := After(o, p);
    AlwaysSound(o, p);
    BackoffIsCounted(o, p);
    SettlingSets(o, s, r, how);
    if r in Live(s) {
      OnlyLive(s, r);
    } else {
      assert Live(s) - {r} == Live(s);
    }
  }

  /** What a run of the effect leaves. */
  lemma RunningSets(s: State, enable: bool)
    requires Sound(s)
    ensures EffectRun(s, enable).timers == map[] <==> !enable || !s.mounted
    ensures var t := EffectRun(s, enable);
            && t.hidden == s.hidden && t.mounted == s.mounted && Live(t) == {}
            && (t.active.Some? <==> enable && s.mounted)
            && if enable && s.mounted then t.timers == map[s.next + 1 := Timer(t.active.value, 0)] else t.timers == map[]
  {
    CleanedUpIsSound(s);
    var clean := CleanedUp(s);
    if enable && s.mounted {
      var started := clean.(active := Some(clean.next), next := clean.next + 1);
      assert Live(started) == {};
      ScheduledIsSound(started, 0);
      assert EffectRun(s, enable) == Scheduled(started, clean.next, 0);
      ScheduledIsAwake(started, clean.next, 0);
      assert Live(EffectRun(s, enable)) == Live(started);
    }
  }

  lemma RunningIsTold(o: Options, p: History, enable: bool)
    requires Told(o, p)
    ensures Told(o, Then(p, EffectRuns(enable)))
  {
    AlwaysSound(o, p);
    RunningSets(After(o, p), enable);
  }

  lemma SeeingIsTold(o: Options, p: History, nowHidden: bool)
    requires Told(o, p)
    ensures Told(o, Then(p, Visibility(nowHidden)))
  {
    var s := After(o, p);
    AlwaysSound(o, p);
    var now := s.(hidden := nowHidden);
    assert Live(now) == Live(s);
    if s.active.Some? && !nowHidden {
      assert Live(now.(backoff := o.minBackoffMs)) == Live(s);
      ScheduledIsSound(now.(backoff := o.minBackoffMs), 0);
      ScheduledIsAwake(now.(backoff := o.minBackoffMs), s.active.value, 0);
      assert Live(Seen(o, s, nowHidden)) == Live(s);
    }
  }

  /** In every run, which timer is pending, for which delay, and whether a request is in
      flight, are told by the callbacks so far. */
  lemma {:induction false} PendingIsTold(o: Options, h: History)
    ensures Told(o, h)
  {
    if h.Then? {
      var p, s := h.past, After(o, h.past);
      PendingIsTold(o, p);
      match h.event
      case TimerFires(t) => if t in s.timers { FiringIsTold(o, p, t); }
      case Settles(r, how) => if Enabled(s, h.event) { SettlingIsTold(o, p, r, how); }
      case Visibility(nowHidden) => SeeingIsTold(o, p, nowHidden);
      case RefreshClicked => assert Live(s.(backoff := o.minBackoffMs)) == Live(s);
      case EffectRuns(enable) => RunningIsTold(o, p, enable);
      case Unmounted =>
        AlwaysSound(o, p);
        CleanedUpIsSound(s);
        assert Live(CleanedUp(s).(mounted := false)) == {};
    }
  }

  // No stall.

  ghost predicate Awake(s: State) {
    s.timers != map[] || Live(s) != {}
  }

  /** The callback sets a timer. */
  predicate SetsTimer(o: Options, p: History, e: Event) {
    Enabled(After(o, p), e) && Step(o, After(o, p), e).timerRef != After(o, p).timerRef
  }

  /** The loop heard of a failure that is not retried, in the run of the effect `owner`, and
      no callback since has set a timer or ended that run. */
  predicate StoppedBy(o: Options, h: History, owner: nat) {
    match h
    case Start => false
    case Then(p, e) =>
      After(o, h).active == Some(owner) && !SetsTimer(o, p, e)
      && (StoppedBy(o, p, owner)
          || (e.Settles? && e.how.Fatal? && Heard(After(o, p), e.request)))
  }

  lemma ScheduledIsAwake(s: State, owner: nat, delayMs: nat)
    ensures Scheduled(s, owner, delayMs).timers != map[]
  {
    assert s.next in Scheduled(s, owner, delayMs).timers;
  }

  /** A callback that leaves an active loop neither with a timer nor with a live request
      found it so, or is a failure that is not retried. */
  lemma OnlyFatalStops(o: Options, s: State, e: Event)
    requires Sound(s) && Enabled(s, e)
    requires Step(o, s, e).active.Some? && !Awake(Step(o, s, e))
    ensures Step(o, s, e).active == s.active && Step(o, s, e).timerRef == s.timerRef
    ensures !Awake(s) || (e.Settles? && e.how.Fatal? && Heard(s, e.request))
  {
    match e
    case TimerFires(t) =>
      FiredIsSound(o, s, t);
    case Settles(r, how) =>
      var rest := s.(requests := s.requests - {r});
      if Heard(s, r) && how.Success? { ScheduledIsAwake(rest.(backoff := o.minBackoffMs), s.requests[r], o.intervalMs); }
      if Heard(s, r) && how.Retryable? {
        ScheduledIsAwake(rest.(backoff := Min(s.backoff * 2, o.maxBackoffMs)), s.requests[r], s.backoff);
      }
      SettlingLeaves(o, s, r, how);
    case Visibility(nowHidden) =>
      if s.active.Some? && !nowHidden {
        ScheduledIsAwake(s.(hidden := nowHidden).(backoff := o.minBackoffMs), s.active.value, 0);
      }
    case RefreshClicked =>
    case EffectRuns(enable) =>
      var clean := CleanedUp(s);
      ScheduledIsAwake(clean.(active := Some(clean.next), next := clean.next + 1), clean.next, 0);
    case Unmounted =>
  }

  /** A request that settles without setting a timer was live only if it was heard. */
  lemma SettlingLeaves(o: Options, s: State, r: nat, how: Settlement)
    requires Sound(s) && r in s.requests && (how.Aborted? ==> r in s.aborted)
    requires Settled(o, s, r, how).timers == map[] && Live(Settled(o, s, r, how)) == {}
    ensures !Awake(s) || (Heard(s, r) && !how.Aborted?)
  {
    if !Heard(s, r) || how.Aborted? {
      assert Settled(o, s, r, how) == s.(requests := s.requests - {r});
      assert Live(s) <= {r};
      assert Live(s) == {};
    }
  }

  /** In every run, an active loop has a timer pending or a live request, unless a failure
      that is not retried stopped the run of the effect that is on, and nothing since has
      started it again. */
  lemma {:induction false} NeverStalls(o: Options, h: History)
    requires After(o, h).active.Some? && !Awake(After(o, h))
    ensures StoppedBy(o, h, After(o, h).active.value)
  {
    if h.Start? {
      assert false;
    } else {
      var s := After(o, h.past);
      AlwaysSound(o, h.past);
      if Enabled(s, h.event) {
        OnlyFatalStops(o, s, h.event);
        if !Awake(s) {
          NeverStalls(o, h.past);
        }
      } else {
        NeverStalls(o, h.past);
      }
    }
  }

  // The references.

  class Poll {
    const options: Options
    var active: Option<nat>
    var mounted: bool
    var hidden: bool
    var backoff: nat
    var timers: map<nat, Timer>
    var timerRef: Option<nat>
    var requests: map<nat, nat>
    var aborted: set<nat>
    var abortRef: Option<nat>
    /** Source of new handles. */
    var next: nat

    constructor (options: Options)
      ensures this.options == options && View() == Initial(options)
    {
      this.options := options;
      active, mounted, hidden, backoff := None, true, false, options.minBackoffMs;
      timers, timerRef := map[], None;
      requests, aborted, abortRef, next := map[], {}, None, 0;
    }

    function View(): State
      reads this
    {
      State(active, mounted, hidden, backoff, timers, timerRef, requests, aborted, abortRef, next)
    }

    method Schedule(owner: nat, delayMs: nat)
      modifies this
      ensures View() == Scheduled(old(View()), owner, delayMs)
    {
      if timerRef.Some? {
        timers := timers - {timerRef.value};
      }
      timers := timers[next := Timer(owner, delayMs)];
      timerRef := Some(next);
      next := next + 1;
    }

    method Send(owner: nat)
      modifies this
      ensures View() == Sent(old(View()), owner)
    {
      if abortRef.Some? {
        aborted := aborted + {abortRef.value};
      }
      requests := requests[next := owner];
      abortRef := Some(next);
      next := next + 1;
    }

    /** `tick`, up to its request: a hidden tab does not poll, and a visible one aborts
        what is in flight and sends one request. */
    method Tick(timer: nat)
      requires timer in timers
      modifies this
      ensures View() == Fired(options, old(View()), timer)
    {
      var owner := timers[timer].owner;
      timers := timers - {timer};
      if active != Some(owner) || !mounted {
        return;
      }
      if hidden {
        Schedule(owner, options.intervalMs);
        return;
      }
      Send(owner);
    }

    /** The rest of `tick`, once its request has settled. */
    method Settle(request: nat, how: Settlement)
      requires request in requests
      modifies this
      ensures View() == Settled(options, old(View()), request, how)
    {
      var owner := requests[request];
      requests := requests - {request};
      if active != Some(owner) || !mounted {
        return;
      }
      match how
      case Success =>
        backoff := options.minBackoffMs;
        Schedule(owner, options.intervalMs);
      case Aborted =>
      case Fatal =>
      case Retryable =>
        var delay := backoff;
        backoff := Min(backoff * 2, options.maxBackoffMs);
        Schedule(owner, delay);
    }

    /** The visibility listener, which exists while the effect is active. */
    method OnVisibility(nowHidden: bool)
      modifies this
      ensures View() == Seen(options, old(View()), nowHidden)
    {
      hidden := nowHidden;
      if active.None? || hidden {
        return;
      }
      backoff := options.minBackoffMs;
      Schedule(active.value, 0);
    }

    /** `refresh` resets the backoff; the render it asks for runs the effect again. */
    method Refresh()
      modifies this
      ensures View() == old(View()).(backoff := options.minBackoffMs)
    {
      backoff := options.minBackoffMs;
    }

    /** The effect's cleanup. */
    method Cleanup()
      modifies this
      ensures View() == CleanedUp(old(View()))
    {
      active := None;
      if timerRef.Some? {
        timers := timers - {timerRef.value};
      }
      if abortRef.Some? {
        aborted := aborted + {abortRef.value};
      }
    }

    /** The effect runs again: what the last run left is cancelled, and a loop that is
        enabled starts at once. */
    method RunEffect(enable: bool)
      modifies this
      ensures View() == EffectRun(old(View()), enable)
    {
      Cleanup();
      if !enable || !mounted {
        return;
      }
      var owner := next;
      active := Some(owner);
      next := next + 1;
      Schedule(owner, 0);
    }

    method Unmount()
      modifies this
      ensures View() == CleanedUp(old(View())).(mounted := false)
    {
      Cleanup();
      mounted := false;
    }

    /** One callback; one that has nothing to call is ignored. */
    method Handle(e: Event)
      modifies this
      ensures View() == (if Enabled(old(View()), e) then Step(options, old(View()), e) else old(View()))
    {
      match e
      case TimerFires(t) => if t in timers { Tick(t); }
      case Settles(r, how) =>
        if r in requests && (how.Aborted? ==> r in aborted) { Settle(r, how); }
      case Visibility(nowHidden) => OnVisibility(nowHidden);
      case RefreshClicked => Refresh();
      case EffectRuns(enable) => RunEffect(enable);
      case Unmounted => Unmount();
    }

    /** A run of the loop ends in the state of its history. */
    method Drive(es: seq<Event>)
      requires View() == Initial(options)
      modifies this
      ensures View() == After(options, HistoryOf(es))
    {
      for i := 0 to |es|
        invariant View() == After(options, HistoryOf(es[..i]))
      {
        Handle(es[i]);
        assert es[..i + 1][..i] == es[..i];
      }
      assert es[..|es|] == es;
    }
  }

  function HistoryOf(es: seq<Event>): History {
    if es == [] then Start else Then(HistoryOf(es[..|es| - 1]), es[|es| - 1])
  }
}
