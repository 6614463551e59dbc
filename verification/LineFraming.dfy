/** The control plane's line reader and serve loop (`daemon/ipc.py`).

    Bytes arrive in arbitrary pieces through `FeedData`; the serve task reads one
    newline-terminated frame at a time and parks on a waiter when there is none.
    Event-loop callbacks may run whenever the task is suspended, so a run is a
    sequence of events, and the results below hold for every such sequence. */
module LineFraming {
  import opened Wrappers

  newtype byte = b: int | 0 <= b < 256

  type Bytes = seq<byte>

  const NEWLINE: byte := 10

  const MAX_FRAME_BYTES: nat := 8 * 1024 * 1024

  // ---------------------------------------------------------------------
  // What the frames of a byte string are
  // ---------------------------------------------------------------------

  predicate NoNewline(s: Bytes) {
    forall j | 0 <= j < |s| :: s[j] != NEWLINE
  }

  /** Index of the first newline at or after `from`, or -1. */
  function FindFrom(s: Bytes, from: nat): (i: int)
    requires from <= |s|
    ensures i == -1 || from <= i < |s|
    ensures i >= 0 ==> s[i] == NEWLINE
    ensures forall j | from <= j < (if i < 0 then |s| else i) :: s[j] != NEWLINE
    decreases |s| - from
  {
    if from == |s| then -1 else if s[from] == NEWLINE then from else FindFrom(s, from + 1)
  }

  function Find(s: Bytes): (i: int)
    ensures -1 <= i < |s|
    ensures i >= 0 ==> s[i] == NEWLINE && NoNewline(s[..i])
    ensures i == -1 ==> NoNewline(s)
  {
    FindFrom(s, 0)
  }

  /** A newline-terminated frame: its only newline is its last byte. */
  predicate IsFrame(f: Bytes) {
    |f| > 0 && f[|f| - 1] == NEWLINE && NoNewline(f[..|f| - 1])
  }

  function Concat(fs: seq<Bytes>): Bytes {
    if fs == [] then [] else fs[0] + Concat(fs[1..])
  }

  predicate AllFrames(fs: seq<Bytes>) {
    forall i | 0 <= i < |fs| :: IsFrame(fs[i])
  }

  predicate Oversized(fs: seq<Bytes>) {
    exists i | 0 <= i < |fs| :: |fs[i]| > MAX_FRAME_BYTES
  }

  /** The complete frames of `s`, in order. */
  function Frames(s: Bytes): seq<Bytes> {
    var i := Find(s);
    if i < 0 then [] else [s[..i + 1]] + Frames(s[i + 1..])
  }

  /** What follows the last newline of `s`. */
  function Tail(s: Bytes): Bytes {
    var i := Find(s);
    if i < 0 then s else Tail(s[i + 1..])
  }

  /** The frames before the first one that is too long. */
  function BeforeOversized(fs: seq<Bytes>): seq<Bytes> {
    if fs == [] || |fs[0]| > MAX_FRAME_BYTES then [] else [fs[0]] + BeforeOversized(fs[1..])
  }

  lemma ConcatCons(f: Bytes, fs: seq<Bytes>)
    ensures Concat([f] + fs) == f + Concat(fs)
  {
    assert ([f] + fs)[1..] == fs;
  }

  lemma FirstNewline(s: Bytes, n: nat)
    requires n < |s| && s[n] == NEWLINE && NoNewline(s[..n])
    ensures Find(s) == n
  {
    var i := Find(s);
    assert forall j | 0 <= j < n :: s[j] == s[..n][j];
    assert forall j | 0 <= j < i :: s[j] == s[..i][j];
  }

  lemma FramesCons(f: Bytes, rest: Bytes)
    requires IsFrame(f)
    ensures Frames(f + rest) == [f] + Frames(rest)
    ensures Tail(f + rest) == Tail(rest)
  {
    var s, n := f + rest, |f| - 1;
    assert s[..n] == f[..n];
    FirstNewline(s, n);
    assert s[..n + 1] == f && s[n + 1..] == rest;
  }

  lemma FirstFrame(s: Bytes)
    requires Find(s) >= 0
    ensures IsFrame(s[..Find(s) + 1])
  {
    assert s[..Find(s) + 1][..Find(s)] == s[..Find(s)];
  }

  /** `Frames` and `Tail` cut `s` and lose nothing. */
  lemma {:induction false} FramesDecompose(s: Bytes)
    ensures Concat(Frames(s)) + Tail(s) == s
    ensures AllFrames(Frames(s))
    ensures NoNewline(Tail(s))
  {
    var i := Find(s);
    if i >= 0 {
      var head, rest := s[..i + 1], s[i + 1..];
      assert s == head + rest;
      FirstFrame(s);
      FramesDecompose(rest);
      FramesCons(head, rest);
      ConcatCons(head, Frames(rest));
      Assoc(head, Concat(Frames(rest)), Tail(rest));
    }
  }

  /** ... and no other cut into frames exists: whatever frames a byte string is
      written from, those are the frames read back. */
  lemma {:induction false} FramesUnique(fs: seq<Bytes>, tail: Bytes)
    requires AllFrames(fs)
    ensures Frames(Concat(fs) + tail) == fs + Frames(tail)
    ensures Tail(Concat(fs) + tail) == Tail(tail)
  {
    if fs == [] {
      assert Concat(fs) + tail == tail;
    } else {
      var f, more := fs[0], fs[1..];
      assert fs == [f] + more;
      FramesUnique(more, tail);
      Assoc(f, Concat(more), tail);
      FramesCons(f, Concat(more) + tail);
      Assoc([f], more, Frames(tail));
    }
  }

  /** Later bytes only add frames. */
  lemma FramesAppend(a: Bytes, b: Bytes)
    ensures Frames(a + b) == Frames(a) + Frames(Tail(a) + b)
    ensures Tail(a + b) == Tail(Tail(a) + b)
  {
    FramesDecompose(a);
    assert a + b == Concat(Frames(a)) + (Tail(a) + b);
    FramesUnique(Frames(a), Tail(a) + b);
  }

  lemma {:induction false} BeforeOversizedConcat(fs: seq<Bytes>, gs: seq<Bytes>)
    ensures BeforeOversized(fs + gs)
         == if Oversized(fs) then BeforeOversized(fs) else fs + BeforeOversized(gs)
  {
    if fs == [] {
      assert fs + gs == gs;
    } else {
      assert (fs + gs)[1..] == fs[1..] + gs;
      BeforeOversizedConcat(fs[1..], gs);
      OversizedConcat([fs[0]], fs[1..]);
      assert fs == [fs[0]] + fs[1..];
    }
  }

  lemma OversizedConcat(fs: seq<Bytes>, gs: seq<Bytes>)
    ensures Oversized(fs + gs) <==> Oversized(fs) || Oversized(gs)
  {
    if Oversized(gs) {
      var i :| 0 <= i < |gs| && |gs[i]| > MAX_FRAME_BYTES;
      assert (fs + gs)[|fs| + i] == gs[i];
    }
    if Oversized(fs) {
      var i :| 0 <= i < |fs| && |fs[i]| > MAX_FRAME_BYTES;
      assert (fs + gs)[i] == fs[i];
    }
  }

  // ---------------------------------------------------------------------
  // The connection and the serve task as values
  // ---------------------------------------------------------------------

  /** The future that `readline` parks on. */
  datatype Waiter = NoWaiter | Pending | Resolved

  datatype Conn = Conn(buffer: Bytes, waiter: Waiter, eof: bool, closed: bool)

  const OPENED := Conn([], NoWaiter, false, false)

  function Woken(w: Waiter): Waiter {
    if w.Pending? then Resolved else w
  }

  /** One segment of `readline`: from its start, or from the moment its waiter
      resolved, to its return or to its next suspension. It suspends when there is
      no frame to return and no reason to stop waiting for one. */
  predicate Parks(c: Conn) {
    Find(c.buffer) < 0 && !c.eof && !c.closed && |c.buffer| <= MAX_FRAME_BYTES
  }

  function TakeFrame(s: Bytes, newline: nat): Bytes
    requires newline < |s|
  {
    s[..newline + 1]
  }

  function AfterFrame(s: Bytes, newline: nat): Bytes
    requires newline < |s|
  {
    s[newline + 1..]
  }

  /** What the segment returns when it does not suspend; empty is end of stream. */
  function Line(c: Conn): Bytes {
    if Find(c.buffer) >= 0 then TakeFrame(c.buffer, Find(c.buffer))
    else if c.eof || c.closed then []
    else c.buffer
  }

  function Leftover(c: Conn): Bytes {
    if Find(c.buffer) >= 0 then AfterFrame(c.buffer, Find(c.buffer))
    else if c.closed && !c.eof then c.buffer
    else []
  }

  datatype Ending = Serving | Disconnected | TooLarge

  /** The connection, the frames handed to the dispatcher so far, and how the
      serve loop ended, if it did. */
  datatype Session = Session(conn: Conn, dispatched: seq<Bytes>, ending: Ending)

  const ACCEPTED := Session(OPENED, [], Serving)

  datatype Event = Data(bytes: Bytes) | Eof | Close | Turn

  predicate CanRun(s: Session) {
    s.ending.Serving? && !s.conn.waiter.Pending?
  }

  function Closed(c: Conn): Conn {
    Conn(c.buffer, Woken(c.waiter), c.eof, true)
  }

  /** The serve task runs until it is suspended again or has dispatched one line. */
  function TakeTurn(s: Session): Session
    requires CanRun(s)
  {
    var c := s.conn;
    if Parks(c) then
      Session(Conn(c.buffer, Pending, c.eof, c.closed), s.dispatched, Serving)
    else
      var rest := Leftover(c);
      if |Line(c)| == 0 then
        Session(Closed(Conn(rest, NoWaiter, c.eof, c.closed)), s.dispatched, Disconnected)
      else if |Line(c)| > MAX_FRAME_BYTES then
        Session(Closed(Conn(rest, NoWaiter, c.eof, c.closed)), s.dispatched, TooLarge)
      else
        Session(Conn(rest, NoWaiter, c.eof, c.closed), s.dispatched + [Line(c)], Serving)
  }

  function Step(s: Session, e: Event): Session {
    match e
    case Data(bytes) =>
      var c := s.conn;
      Session(Conn(c.buffer + bytes, Woken(c.waiter), c.eof, c.closed), s.dispatched, s.ending)
    case Eof =>
      var c := s.conn;
      Session(Conn(c.buffer, Woken(c.waiter), true, c.closed), s.dispatched, s.ending)
    case Close => Session(Closed(s.conn), s.dispatched, s.ending)
    case Turn => if CanRun(s) then TakeTurn(s) else s
  }

  function Run(es: seq<Event>): Session {
    if es == [] then ACCEPTED else Step(Run(es[..|es| - 1]), es[|es| - 1])
  }

  /** All bytes the transport delivered, whatever the pieces. */
  function Received(es: seq<Event>): Bytes {
    if es == [] then []
    else
      var e := es[|es| - 1];
      Received(es[..|es| - 1]) + (if e.Data? then e.bytes else [])
  }

  // ---------------------------------------------------------------------
  // Results over every run
  // ---------------------------------------------------------------------

  /** No lost wakeup: a waiter is pending only while there is nothing to do. */
  ghost predicate NoLostWakeup(c: Conn) {
    c.waiter.Pending? ==>
      NoNewline(c.buffer) && !c.eof && !c.closed && |c.buffer| <= MAX_FRAME_BYTES
  }

  ghost predicate Accounts(s: Session, received: Bytes) {
    match s.ending
    case Serving =>
      && AllFrames(s.dispatched)
      && !Oversized(s.dispatched)
      && received == Concat(s.dispatched) + s.conn.buffer
    case TooLarge =>
      && s.dispatched == BeforeOversized(Frames(received))
      && (Oversized(Frames(received)) || |Tail(received)| > MAX_FRAME_BYTES)
    case Disconnected =>
      && s.dispatched <= BeforeOversized(Frames(received))
      && (s.conn.eof || s.conn.closed)
  }

  lemma {:induction false} ConcatSnoc(fs: seq<Bytes>, f: Bytes)
    ensures Concat(fs + [f]) == Concat(fs) + f
  {
    if fs == [] {
      assert [f][1..] == [];
    } else {
      ConcatSnoc(fs[1..], f);
      assert (fs + [f])[1..] == fs[1..] + [f];
    }
  }

  /** While the loop serves, what it has dispatched and what is still buffered
      together are the frames received. */
  lemma ServingFrames(s: Session, received: Bytes)
    requires s.ending.Serving? && Accounts(s, received)
    ensures Frames(received) == s.dispatched + Frames(s.conn.buffer)
    ensures Tail(received) == Tail(s.conn.buffer)
    ensures BeforeOversized(Frames(received)) == s.dispatched + BeforeOversized(Frames(s.conn.buffer))
    ensures Oversized(Frames(received)) <==> Oversized(Frames(s.conn.buffer))
  {
    FramesUnique(s.dispatched, s.conn.buffer);
    BeforeOversizedConcat(s.dispatched, Frames(s.conn.buffer));
    OversizedConcat(s.dispatched, Frames(s.conn.buffer));
  }

  /** One more frame taken from the front of the buffer. */
  lemma DispatchFits(fs: seq<Bytes>, f: Bytes, rest: Bytes)
    requires AllFrames(fs) && !Oversized(fs) && IsFrame(f) && |f| <= MAX_FRAME_BYTES
    ensures AllFrames(fs + [f]) && !Oversized(fs + [f])
    ensures Concat(fs) + (f + rest) == Concat(fs + [f]) + rest
  {
    ConcatSnoc(fs, f);
    Assoc(Concat(fs), f, rest);
    OversizedConcat(fs, [f]);
  }

  /** The buffer begins with a frame that is too long. */
  lemma DispatchRefuses(s: Session, received: Bytes, f: Bytes, rest: Bytes)
    requires s.ending.Serving? && Accounts(s, received) && s.conn.buffer == f + rest
    requires IsFrame(f) && |f| > MAX_FRAME_BYTES
    ensures Oversized(Frames(received)) && s.dispatched == BeforeOversized(Frames(received))
  {
    ServingFrames(s, received);
    FramesCons(f, rest);
    assert Frames(s.conn.buffer)[0] == f;
  }

  lemma DispatchAccounts(s: Session, received: Bytes)
    requires CanRun(s) && Accounts(s, received) && Find(s.conn.buffer) >= 0
    ensures |Line(s.conn)| <= MAX_FRAME_BYTES ==>
              var next := s.dispatched + [Line(s.conn)];
              AllFrames(next) && !Oversized(next) && received == Concat(next) + Leftover(s.conn)
    ensures |Line(s.conn)| > MAX_FRAME_BYTES ==>
              Oversized(Frames(received)) && s.dispatched == BeforeOversized(Frames(received))
  {
    var f, rest := Line(s.conn), Leftover(s.conn);
    assert s.conn.buffer == f + rest;
    FirstFrame(s.conn.buffer);
    if |f| <= MAX_FRAME_BYTES {
      DispatchFits(s.dispatched, f, rest);
    } else {
      DispatchRefuses(s, received, f, rest);
    }
  }

  lemma TurnAccounts(s: Session, received: Bytes)
    requires CanRun(s) && Accounts(s, received)
    ensures Accounts(TakeTurn(s), received)
  {
    if Find(s.conn.buffer) >= 0 {
      DispatchAccounts(s, received);
    } else {
      ServingFrames(s, received);
      assert Frames(s.conn.buffer) == [];
    }
  }

  lemma DataAccounts(s: Session, received: Bytes, bytes: Bytes)
    requires Accounts(s, received)
    ensures Accounts(Step(s, Data(bytes)), received + bytes)
  {
    if s.ending.Serving? {
      assert received + bytes == Concat(s.dispatched) + (s.conn.buffer + bytes);
    } else {
      FramesAppend(received, bytes);
      FramesDecompose(received);
      BeforeOversizedConcat(Frames(received), Frames(Tail(received) + bytes));
      BeforeOversizedConcat(Frames(received), []);
      assert Frames(received) + [] == Frames(received);
      OversizedConcat(Frames(received), Frames(Tail(received) + bytes));
      if s.ending.TooLarge? && !Oversized(Frames(received)) {
        LongTailStaysLong(Tail(received), bytes);
      }
    }
  }

  /** An unterminated line over the cap stays over it: either it is still the tail
      or it has become the next frame, and that frame is too long. */
  lemma LongTailStaysLong(tail: Bytes, bytes: Bytes)
    requires |tail| > MAX_FRAME_BYTES && NoNewline(tail)
    ensures BeforeOversized(Frames(tail + bytes)) == []
    ensures |Tail(tail + bytes)| > MAX_FRAME_BYTES || Oversized(Frames(tail + bytes))
  {
    var t := tail + bytes;
    var i := Find(t);
    if i >= 0 {
      assert forall j | 0 <= j < |tail| :: t[j] == tail[j];
      assert Frames(t)[0] == t[..i + 1];
    }
  }

  lemma {:induction false} RunInvariant(es: seq<Event>)
    ensures Accounts(Run(es), Received(es))
    ensures NoLostWakeup(Run(es).conn)
  {
    if es != [] {
      var before, e := es[..|es| - 1], es[|es| - 1];
      RunInvariant(before);
      var s := Run(before);
      match e
      case Data(bytes) => DataAccounts(s, Received(before), bytes);
      case Turn =>
        if CanRun(s) { TurnAccounts(s, Received(before)); }
        assert Received(es) == Received(before);
      case _ =>
        assert Received(es) == Received(before);
    }
  }

  /** Safety, for every run: only complete frames are dispatched, in order, without
      loss or repetition, and none at or after the first one over the cap. */
  lemma DispatchedIsPrefix(es: seq<Event>)
    ensures Run(es).dispatched <= BeforeOversized(Frames(Received(es)))
  {
    RunInvariant(es);
    if Run(es).ending.Serving? {
      ServingFrames(Run(es), Received(es));
    }
  }

  predicate SawEof(es: seq<Event>) {
    es != [] && (es[|es| - 1].Eof? || SawEof(es[..|es| - 1]))
  }

  /** The transport's promise: nothing arrives after end of stream, and nobody
      closes the connection but the serve loop itself. */
  predicate Ordinary(es: seq<Event>) {
    es == []
    || var before, e := es[..|es| - 1], es[|es| - 1];
       Ordinary(before) && !e.Close? && (e.Data? ==> !SawEof(before))
  }

  /** Nothing is left for the serve task to do. */
  predicate Quiet(s: Session) {
    !CanRun(s)
  }

  ghost predicate Exact(s: Session, received: Bytes, sawEof: bool) {
    && s.conn.eof == sawEof
    && (s.ending.Serving? ==> !s.conn.closed)
    && (s.ending.Disconnected? ==>
          sawEof && s.dispatched == BeforeOversized(Frames(received)) && !Oversized(Frames(received)))
  }

  lemma NothingBuffered(s: Session, received: Bytes)
    requires CanRun(s) && Accounts(s, received) && Find(s.conn.buffer) < 0
    ensures s.dispatched == BeforeOversized(Frames(received)) && !Oversized(Frames(received))
  {
    ServingFrames(s, received);
    assert Frames(s.conn.buffer) == [];
  }

  lemma EmptyLine(c: Conn)
    requires !Parks(c) && |Line(c)| == 0
    ensures Find(c.buffer) < 0 && (c.eof || c.closed)
  {
  }

  lemma TurnExact(s: Session, received: Bytes)
    requires CanRun(s) && Accounts(s, received) && Exact(s, received, s.conn.eof)
    ensures Exact(TakeTurn(s), received, s.conn.eof)
  {
    if !Parks(s.conn) && |Line(s.conn)| == 0 {
      EmptyLine(s.conn);
      NothingBuffered(s, received);
    }
  }

  lemma {:induction false} EndedIsExact(es: seq<Event>)
    requires Ordinary(es)
    ensures Exact(Run(es), Received(es), SawEof(es))
  {
    if es != [] {
      var before, e := es[..|es| - 1], es[|es| - 1];
      EndedIsExact(before);
      if e.Turn? && CanRun(Run(before)) {
        RunInvariant(before);
        TurnExact(Run(before), Received(before));
      }
      if !e.Data? {
        assert Received(es) == Received(before);
      }
    }
  }

  /** Exactness: once the task is parked or finished, every complete frame before
      the first oversized one has been dispatched, and nothing else; in particular
      an unterminated tail never is. */
  lemma DispatchedExactly(es: seq<Event>)
    requires Ordinary(es) && Quiet(Run(es))
    ensures Run(es).dispatched == BeforeOversized(Frames(Received(es)))
  {
    RunInvariant(es);
    EndedIsExact(es);
    if Run(es).ending.Serving? {
      ServingFrames(Run(es), Received(es));
    }
  }

  /** Chunking and scheduling do not matter: two runs that delivered the same bytes
      dispatched the same requests. */
  lemma ChunkingIndependent(es: seq<Event>, fs: seq<Event>)
    requires Ordinary(es) && Ordinary(fs) && Received(es) == Received(fs)
    requires Quiet(Run(es)) && Quiet(Run(fs))
    ensures Run(es).dispatched == Run(fs).dispatched
  {
    DispatchedExactly(es);
    DispatchedExactly(fs);
  }

  /** How many turns the task can still take before it parks or ends. */
  function Remaining(s: Session): nat {
    if CanRun(s) then |s.conn.buffer| + 1 else 0
  }

  lemma TurnShrinks(s: Session)
    ensures Remaining(Step(s, Turn)) <= if Remaining(s) == 0 then 0 else Remaining(s) - 1
  {
  }

  lemma OneMoreTurn(es: seq<Event>)
    ensures Run(es + [Turn]) == Step(Run(es), Turn)
    ensures Received(es + [Turn]) == Received(es)
    ensures Ordinary(es + [Turn]) <==> Ordinary(es)
  {
    assert (es + [Turn])[..|es|] == es;
    assert Received(es) + [] == Received(es);
  }

  function Turns(n: nat): seq<Event> {
    if n == 0 then [] else Turns(n - 1) + [Turn]
  }

  function Less(a: nat, b: nat): nat { if a < b then 0 else a - b }

  lemma ShrinkStep(es: seq<Event>, more: seq<Event>, left: nat, n: nat)
    requires more == es + [Turn] && Remaining(Run(es)) <= Less(left, n)
    ensures Received(more) == Received(es) && (Ordinary(more) <==> Ordinary(es))
    ensures Remaining(Run(more)) <= Less(left, n + 1)
  {
    OneMoreTurn(es);
    TurnShrinks(Run(es));
  }

  lemma {:induction false} TurnsShrink(es: seq<Event>, n: nat)
    requires Ordinary(es)
    ensures Ordinary(es + Turns(n)) && Received(es + Turns(n)) == Received(es)
    ensures Remaining(Run(es + Turns(n))) <= Less(Remaining(Run(es)), n)
  {
    if n == 0 {
      assert es + [] == es;
    } else {
      TurnsShrink(es, n - 1);
      Assoc(es, Turns(n - 1), [Turn]);
      ShrinkStep(es + Turns(n - 1), es + Turns(n), Remaining(Run(es)), n - 1);
    }
  }

  /** Liveness: once the input pauses, a bounded number of turns dispatches every
      complete frame received so far (up to the first oversized one). */
  lemma EventuallyDispatched(es: seq<Event>, n: nat)
    requires Ordinary(es) && n >= Remaining(Run(es))
    ensures Run(es + Turns(n)).dispatched == BeforeOversized(Frames(Received(es)))
  {
    TurnsShrink(es, n);
    DispatchedExactly(es + Turns(n));
  }

  /** After end of stream the serve loop finishes: it never parks again. */
  lemma EofEnds(es: seq<Event>)
    requires Quiet(Run(es)) && Run(es).conn.eof
    ensures !Run(es).ending.Serving?
  {
    RunInvariant(es);
  }

  /** The `frame_too_large` reply of a run that is parked or finished: an oversized frame
      always gives it, and nothing else does unless the unterminated tail is over the
      cap. */
  lemma TooLargeExactly(es: seq<Event>)
    requires Ordinary(es) && Quiet(Run(es))
    ensures Oversized(Frames(Received(es))) ==> Run(es).ending.TooLarge?
    ensures Run(es).ending.TooLarge? ==> Oversized(Frames(Received(es))) || |Tail(Received(es))| > 8 * 1024 * 1024
  {
    RunInvariant(es);
    EndedIsExact(es);
    if Run(es).ending.Serving? {
      ServingFrames(Run(es), Received(es));
      assert Frames(Run(es).conn.buffer) == [];
    }
  }

  // --- when the reply is a function of the bytes -----------------------------

  /** A run that received `b`, then end of stream, and has come to rest. */
  predicate Complete(es: seq<Event>, b: Bytes) {
    Ordinary(es) && Quiet(Run(es)) && SawEof(es) && Received(es) == b
  }

  ghost predicate ReplyDetermined(b: Bytes) {
    forall es, fs | Complete(es, b) && Complete(fs, b) ::
      Run(es).ending.TooLarge? <==> Run(fs).ending.TooLarge?
  }

  lemma DataRun(b: Bytes)
    ensures Run([Data(b)]) == Session(Conn(b, NoWaiter, false, false), [], Serving)
    ensures Received([Data(b)]) == b && Ordinary([Data(b)]) && !SawEof([Data(b)])
  {
    assert [Data(b)][..0] == [] && [] + b == b;
    assert Run([]) == ACCEPTED;
  }

  lemma OneMoreEof(es: seq<Event>)
    ensures Run(es + [Eof]) == Step(Run(es), Eof) && Received(es + [Eof]) == Received(es)
    ensures (Ordinary(es + [Eof]) <==> Ordinary(es)) && SawEof(es + [Eof])
  {
    assert (es + [Eof])[..|es|] == es;
    assert Received(es) + [] == Received(es);
  }

  lemma {:induction false} TurnsKeepEof(es: seq<Event>, n: nat)
    ensures SawEof(es + Turns(n)) <==> SawEof(es)
  {
    if n == 0 {
      assert es + [] == es;
    } else {
      var before := es + Turns(n - 1);
      TurnsKeepEof(es, n - 1);
      Assoc(es, Turns(n - 1), [Turn]);
      assert (before + [Turn])[..|before|] == before;
    }
  }

  /** A task that comes to rest before end of stream has refused a tail over the cap. */
  lemma RestsRefused(es: seq<Event>)
    requires Ordinary(es) && Quiet(Run(es)) && !SawEof(es) && |Tail(Received(es))| > MAX_FRAME_BYTES
    ensures Run(es).ending.TooLarge?
  {
    RunInvariant(es);
    EndedIsExact(es);
    if Run(es).ending.Serving? {
      ServingFrames(Run(es), Received(es));
      assert Find(Run(es).conn.buffer) < 0;
    }
  }

  /** With end of stream seen, only an oversized frame is refused. */
  lemma EofTurnRefuses(s: Session, received: Bytes)
    requires CanRun(s) && Accounts(s, received) && s.conn.eof && !Oversized(Frames(received))
    ensures !TakeTurn(s).ending.TooLarge?
  {
    if Find(s.conn.buffer) >= 0 {
      DispatchAccounts(s, received);
    }
  }

  /** End of stream seen, nothing oversized, nothing refused. */
  ghost predicate Unrefused(es: seq<Event>) {
    Ordinary(es) && SawEof(es) && !Run(es).ending.TooLarge? && !Oversized(Frames(Received(es)))
  }

  lemma StaysUnrefused(es: seq<Event>)
    requires Unrefused(es)
    ensures Unrefused(es + [Turn])
  {
    OneMoreTurn(es);
    RunInvariant(es);
    EndedIsExact(es);
    assert (es + [Turn])[..|es|] == es;
    if CanRun(Run(es)) {
      EofTurnRefuses(Run(es), Received(es));
    }
  }

  lemma {:induction false} EofRefusesNoTail(es: seq<Event>, n: nat)
    requires Unrefused(es)
    ensures Unrefused(es + Turns(n))
  {
    if n == 0 {
      assert es + [] == es;
    } else {
      EofRefusesNoTail(es, n - 1);
      StaysUnrefused(es + Turns(n - 1));
      Assoc(es, Turns(n - 1), [Turn]);
    }
  }

  /** The task runs before end of stream ... */
  lemma RefusedRun(b: Bytes) returns (es: seq<Event>)
    requires |Tail(b)| > MAX_FRAME_BYTES
    ensures Complete(es, b) && Run(es).ending.TooLarge?
  {
    DataRun(b);
    var n := Remaining(Run([Data(b)]));
    var before := [Data(b)] + Turns(n);
    TurnsShrink([Data(b)], n);
    TurnsKeepEof([Data(b)], n);
    RestsRefused(before);
    OneMoreEof(before);
    es := before + [Eof];
  }

  /** ... or only after it. */
  lemma UnrefusedRun(b: Bytes) returns (es: seq<Event>)
    requires !Oversized(Frames(b))
    ensures Complete(es, b) && !Run(es).ending.TooLarge?
  {
    DataRun(b);
    var before := [Data(b)] + [Eof];
    OneMoreEof([Data(b)]);
    var n := Remaining(Run(before));
    TurnsShrink(before, n);
    TurnsKeepEof(before, n);
    EofRefusesNoTail(before, n);
    es := before + Turns(n);
  }

  /** Whether the reply is sent is settled by the bytes alone, however they arrive and
      whenever the task runs, if and only if some complete frame is over the cap or the
      unterminated tail is not. */
  lemma ReplyDeterminedExactly(b: Bytes)
    ensures ReplyDetermined(b) <==> Oversized(Frames(b)) || |Tail(b)| <= 8 * 1024 * 1024
  {
    if Oversized(Frames(b)) || |Tail(b)| <= MAX_FRAME_BYTES {
      forall es, fs | Complete(es, b) && Complete(fs, b)
        ensures Run(es).ending.TooLarge? <==> Run(fs).ending.TooLarge?
      {
        TooLargeExactly(es);
        TooLargeExactly(fs);
      }
    } else {
      var es := RefusedRun(b);
      var fs := UnrefusedRun(b);
    }
  }

  // ---------------------------------------------------------------------
  // The objects
  // ---------------------------------------------------------------------

  class PipeConnection {
    var buffer: Bytes
    var waiter: Waiter
    var eof: bool
    var closed: bool

    function View(): Conn
      reads this
    {
      Conn(buffer, waiter, eof, closed)
    }

    constructor ()
      ensures View() == OPENED
    {
      buffer, waiter, eof, closed := [], NoWaiter, false, false;
    }

    method Wake()
      modifies this`waiter
      ensures waiter == Woken(old(waiter))
    {
      if waiter == Pending {
        waiter := Resolved;
      }
    }

    method FeedData(data: Bytes)
      modifies this
      ensures View() == Conn(old(buffer) + data, Woken(old(waiter)), old(eof), old(closed))
    {
      buffer := buffer + data;
      Wake();
    }

    method FeedEof()
      modifies this
      ensures View() == Conn(old(buffer), Woken(old(waiter)), true, old(closed))
    {
      eof := true;
      Wake();
    }

    method CloseConnection()
      modifies this
      ensures View() == Closed(old(View()))
    {
      closed := true;
      Wake();
    }

    /** The body of `readline` between two suspension points. */
    method ReadSegment() returns (line: Option<Bytes>)
      requires !waiter.Pending?
      modifies this
      ensures eof == old(eof) && closed == old(closed)
      ensures line.None? <==> Parks(old(View()))
      ensures line.None? ==> buffer == old(buffer) && waiter == Pending
      ensures line.Some? ==>
                line.value == Line(old(View())) && buffer == Leftover(old(View())) && waiter == NoWaiter
    {
      waiter := NoWaiter;
      var index := Find(buffer);
      if index >= 0 {
        line := Some(TakeFrame(buffer, index));
        buffer := AfterFrame(buffer, index);
      } else if eof {
        buffer := [];
        line := Some([]);
      } else if closed {
        line := Some([]);
      } else if |buffer| > MAX_FRAME_BYTES {
        line := Some(buffer);
        buffer := [];
      } else {
        waiter := Pending;
        line := None;
      }
    }
  }

  /** One accepted connection together with the task that serves it. */
  class ServeTask {
    const connection: PipeConnection
    var dispatched: seq<Bytes>
    var ending: Ending

    function View(): Session
      reads this, connection
    {
      Session(connection.View(), dispatched, ending)
    }

    constructor ()
      ensures View() == ACCEPTED && fresh(connection)
    {
      connection := new PipeConnection();
      dispatched, ending := [], Serving;
    }

    /** One scheduling of the serve loop's body. */
    method ServeTurn()
      requires CanRun(View())
      modifies this, connection
      ensures View() == TakeTurn(old(View()))
    {
      var line := connection.ReadSegment();
      if line.None? {
        return;
      }
      if |line.value| == 0 {
        ending := Disconnected;
        connection.CloseConnection();
      } else if |line.value| > MAX_FRAME_BYTES {
        ending := TooLarge;
        connection.CloseConnection();
      } else {
        dispatched := dispatched + [line.value];
      }
    }

    method Handle(e: Event)
      modifies this, connection
      ensures View() == Step(old(View()), e)
    {
      match e
      case Data(bytes) => connection.FeedData(bytes);
      case Eof => connection.FeedEof();
      case Close => connection.CloseConnection();
      case Turn =>
        if ending == Serving && connection.waiter != Pending {
          ServeTurn();
        }
    }
  }

  /** A connection driven by any schedule of callbacks and task turns ends in the
      state the results above are about. */
  method Drive(es: seq<Event>) returns (task: ServeTask)
    ensures task.View() == Run(es)
    ensures task.dispatched <= BeforeOversized(Frames(Received(es)))
  {
    task := new ServeTask();
    var i := 0;
    while i < |es|
      invariant 0 <= i <= |es|
      invariant fresh(task) && fresh(task.connection)
      invariant task.View() == Run(es[..i])
    {
      task.Handle(es[i]);
      assert es[..i + 1][..i] == es[..i];
      i := i + 1;
    }
    assert es[..|es|] == es;
    DispatchedIsPrefix(es);
  }
}
