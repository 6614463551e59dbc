/** Requests, streamed replies and the client's reader (`daemon/ipc.py`).

    The server answers one frame at a time; a streaming handler's chunks go out as
    replies marked `more`. The client yields results until a reply is not marked. */
module RequestStream {
  import opened Wrappers
  import LineFraming

  datatype Json = Null | Value(text: string)

  datatype Error = Error(code: string, message: string)

  /** What a handler does with the parameters of one request: return a result,
      raise, or stream chunks and then possibly raise. */
  datatype Outcome =
    | Returns(result: Json)
    | Raises(error: Error)
    | Streams(chunks: seq<Json>, failure: Option<Error>)

  type Handlers = map<string, Json -> Outcome>

  /** A frame as the dispatcher sees it. `Fatal` is one it fails on before it looks for a
      handler: bytes that are no text, or a JSON value that is not an object. */
  datatype Frame = NotJson | Fatal | Request(id: string, name: string, params: Json)

  datatype Reply = Reply(id: string, more: bool, result: Json, error: Option<Error>)

  function Chunk(id: string, chunk: Json): Reply { Reply(id, true, chunk, None) }

  function Done(id: string, result: Json): Reply { Reply(id, false, result, None) }

  function Failed(id: string, e: Error): Reply { Reply(id, false, Null, Some(e)) }

  const BAD_JSON := Error("bad_json", "request is not JSON")

  const FRAME_TOO_LARGE := Error("frame_too_large", "request exceeds 8 MiB")

  function UnknownMethod(name: string): Error { Error("unknown_method", name) }

  function Chunks(id: string, cs: seq<Json>): (rs: seq<Reply>)
    ensures |rs| == |cs|
    ensures forall i | 0 <= i < |rs| :: rs[i] == Chunk(id, cs[i])
  {
    seq(|cs|, i requires 0 <= i < |cs| => Chunk(id, cs[i]))
  }

  /** What one call of the handler puts on the wire. */
  function OutcomeReplies(id: string, o: Outcome): seq<Reply> {
    match o
    case Returns(v) => [Done(id, v)]
    case Raises(e) => [Failed(id, e)]
    case Streams(cs, failure) =>
      Chunks(id, cs) + [if failure.None? then Done(id, Null) else Failed(id, failure.value)]
  }

  /** The replies to one frame. On a fatal one the dispatcher itself fails: nothing is
      written and the connection ends. */
  function Replies(h: Handlers, f: Frame): seq<Reply> {
    match f
    case NotJson => [Failed("", BAD_JSON)]
    case Fatal => []
    case Request(id, name, params) =>
      if name in h then OutcomeReplies(id, h[name](params)) else [Failed(id, UnknownMethod(name))]
  }

  /** The replies to the frames of one connection, up to the one that ends it. */
  function AllReplies(h: Handlers, fs: seq<Frame>): seq<Reply> {
    if fs == [] || fs[0].Fatal? then [] else Replies(h, fs[0]) + AllReplies(h, fs[1..])
  }

  class Dispatcher {
    const handlers: Handlers
    var written: seq<Reply>

    constructor (handlers: Handlers)
      ensures this.handlers == handlers && written == []
    {
      this.handlers, written := handlers, [];
    }

    method Write(r: Reply)
      modifies this
      ensures written == old(written) + [r]
    {
      written := written + [r];
    }

    method StreamChunks(id: string, chunks: seq<Json>)
      modifies this
      ensures written == old(written) + Chunks(id, chunks)
    {
      var i := 0;
      while i < |chunks|
        invariant 0 <= i <= |chunks|
        invariant written == old(written) + Chunks(id, chunks)[..i]
      {
        Write(Chunk(id, chunks[i]));
        i := i + 1;
      }
    }

    /** `alive` is false when the frame made the dispatcher fail. */
    method DispatchLine(f: Frame) returns (alive: bool)
      modifies this
      ensures alive <==> !f.Fatal?
      ensures written == old(written) + Replies(handlers, f)
    {
      alive := true;
      match f
      case NotJson => Write(Failed("", BAD_JSON));
      case Fatal => alive := false;
      case Request(id, name, params) =>
        if name !in handlers {
          Write(Failed(id, UnknownMethod(name)));
          return;
        }
        match handlers[name](params)
        case Returns(v) => Write(Done(id, v));
        case Raises(e) => Write(Failed(id, e));
        case Streams(chunks, failure) =>
          StreamChunks(id, chunks);
          if failure.Some? {
            Write(Failed(id, failure.value));
          } else {
            Write(Done(id, Null));
          }
    }

    /** The serve loop over the frames of one connection. */
    method ServeFrames(fs: seq<Frame>)
      modifies this
      ensures written == old(written) + AllReplies(handlers, fs)
    {
      var i, alive := 0, true;
      while i < |fs| && alive
        invariant 0 <= i <= |fs|
        invariant alive ==> written + AllReplies(handlers, fs[i..]) == old(written) + AllReplies(handlers, fs)
        invariant !alive ==> written == old(written) + AllReplies(handlers, fs)
      {
        ghost var before, rest := written, AllReplies(handlers, fs[i + 1..]);
        assert fs[i..][0] == fs[i] && fs[i..][1..] == fs[i + 1..];
        assert !fs[i].Fatal? ==>
            before + (Replies(handlers, fs[i]) + rest) == (before + Replies(handlers, fs[i])) + rest;
        alive := DispatchLine(fs[i]);
        i := i + 1;
      }
    }
  }

  // ---------------------------------------------------------------------
  // The client
  // ---------------------------------------------------------------------

  /** What the client's iterator did with the replies: the values it yielded, the
      error it raised, and how many replies it read. */
  datatype Reading = Reading(yielded: seq<Json>, raised: Option<Error>, used: nat)

  function Shown(v: Json): seq<Json> {
    if v.Null? then [] else [v]
  }

  function NonNull(vs: seq<Json>): seq<Json> {
    if vs == [] then [] else Shown(vs[0]) + NonNull(vs[1..])
  }

  function ReadReplies(rs: seq<Reply>): (r: Reading)
    ensures r.used <= |rs|
  {
    if rs == [] then Reading([], None, 0)
    else if rs[0].error.Some? then Reading([], rs[0].error, 1)
    else if !rs[0].more then Reading(Shown(rs[0].result), None, 1)
    else
      var later := ReadReplies(rs[1..]);
      Reading(Shown(rs[0].result) + later.yielded, later.raised, later.used + 1)
  }

  /** One reply that neither fails nor ends the request is read past. */
  lemma ReadsNext(rs: seq<Reply>, used: nat, yielded: seq<Json>)
    requires used < |rs|
    ensures rs[used].error.None? && rs[used].more ==>
              var here, later := ReadReplies(rs[used..]), ReadReplies(rs[used + 1..]);
              && yielded + here.yielded == (yielded + Shown(rs[used].result)) + later.yielded
              && here.raised == later.raised && here.used == 1 + later.used
  {
    assert rs[used..][0] == rs[used] && rs[used..][1..] == rs[used + 1..];
  }

  /** `IpcClient.stream`; running out of replies is the closed connection. */
  method Stream(rs: seq<Reply>) returns (r: Reading)
    ensures r == ReadReplies(rs)
  {
    var used, yielded := 0, [];
    while true
      invariant 0 <= used <= |rs|
      invariant var later := ReadReplies(rs[used..]);
                ReadReplies(rs) == Reading(yielded + later.yielded, later.raised, used + later.used)
      decreases |rs| - used
    {
      if used == |rs| {
        return Reading(yielded, None, used);
      }
      var response := rs[used];
      ReadsNext(rs, used, yielded);
      used := used + 1;
      if response.error.Some? {
        return Reading(yielded, response.error, used);
      }
      if response.result != Null {
        yielded := yielded + [response.result];
      } else {
        assert yielded + Shown(response.result) == yielded;
      }
      if !response.more {
        return Reading(yielded, None, used);
      }
    }
  }

  // ---------------------------------------------------------------------
  // Server and client composed
  // ---------------------------------------------------------------------

  lemma {:induction false} ReadThroughChunks(id: string, cs: seq<Json>, rest: seq<Reply>)
    ensures ReadReplies(Chunks(id, cs) + rest)
         == var later := ReadReplies(rest);
            Reading(NonNull(cs) + later.yielded, later.raised, |cs| + later.used)
  {
    if cs == [] {
      assert Chunks(id, cs) + rest == rest;
    } else {
      var rs := Chunks(id, cs) + rest;
      assert rs[1..] == Chunks(id, cs[1..]) + rest;
      ReadThroughChunks(id, cs[1..], rest);
      var later := ReadReplies(rest);
      assert Shown(cs[0]) + (NonNull(cs[1..]) + later.yielded) == NonNull(cs) + later.yielded;
    }
  }

  /** What the caller of a handler should observe. */
  function Expected(h: Handlers, f: Frame): (seq<Json>, Option<Error>)
    requires !f.Fatal?
  {
    if f.NotJson? then ([], Some(Error("bad_json", "request is not JSON")))
    else if f.name !in h then ([], Some(Error("unknown_method", f.name)))
    else
      match h[f.name](f.params)
      case Returns(v) => (NonNull([v]), None)
      case Raises(e) => ([], Some(e))
      case Streams(cs, failure) => (NonNull(cs), failure)
  }

  /** End to end: whatever follows on the connection, the client reads exactly this
      request's replies, yields the handler's non-null chunks in order, and raises
      iff the handler did. */
  lemma ClientSeesHandler(h: Handlers, f: Frame, rest: seq<Reply>)
    requires !f.Fatal?
    ensures var r := ReadReplies(Replies(h, f) + rest);
            (r.yielded, r.raised) == Expected(h, f) && r.used == |Replies(h, f)|
  {
    if f.Request? && f.name in h && h[f.name](f.params).Streams? {
      var o := h[f.name](f.params);
      var last := if o.failure.None? then Done(f.id, Null) else Failed(f.id, o.failure.value);
      assert Replies(h, f) + rest == Chunks(f.id, o.chunks) + ([last] + rest);
      ReadThroughChunks(f.id, o.chunks, [last] + rest);
      assert NonNull(o.chunks) + [] == NonNull(o.chunks);
    } else {
      var r := Replies(h, f)[0];
      assert Replies(h, f) + rest == [r] + rest;
      assert Replies(h, f) == [r];
      if f.Request? && f.name in h && h[f.name](f.params).Returns? {
        var v := h[f.name](f.params).result;
        assert NonNull([v]) == Shown(v) + NonNull([v][1..]) == Shown(v);
      }
    }
  }

  /** The replies to one request: any number marked `more`, then exactly one that is
      not, all carrying the request's id (the empty one when there is no request). */
  predicate IsBlock(id: string, b: seq<Reply>) {
    && |b| > 0
    && (forall i | 0 <= i < |b| :: b[i].id == id && (b[i].more <==> i < |b| - 1))
  }

  function RequestId(f: Frame): string {
    if f.Request? then f.id else ""
  }

  lemma RepliesAreABlock(h: Handlers, f: Frame)
    requires !f.Fatal?
    ensures IsBlock(RequestId(f), Replies(h, f))
  {
  }

  /** The reply stream cut after every reply that is not marked `more`; a trailing
      unfinished block is not one. */
  function Blocks(rs: seq<Reply>): seq<seq<Reply>> {
    var n := Final(rs, 0);
    if n == |rs| then [] else [rs[..n + 1]] + Blocks(rs[n + 1..])
  }

  function Final(rs: seq<Reply>, from: nat): (n: nat)
    requires from <= |rs|
    ensures from <= n <= |rs|
    ensures n < |rs| ==> !rs[n].more
    ensures forall i | from <= i < n :: rs[i].more
    decreases |rs| - from
  {
    if from == |rs| || !rs[from].more then from else Final(rs, from + 1)
  }

  function Answered(h: Handlers, fs: seq<Frame>): (bs: seq<seq<Reply>>)
    ensures |bs| <= |fs|
    ensures (forall i | 0 <= i < |fs| :: !fs[i].Fatal?) ==> |bs| == |fs|
    ensures forall i | 0 <= i < |bs| :: bs[i] == Replies(h, fs[i])
  {
    if fs == [] || fs[0].Fatal? then [] else [Replies(h, fs[0])] + Answered(h, fs[1..])
  }

  /** Pipelined requests stay separable: cutting the one reply stream at its
      unmarked replies gives back, in order, the replies to each frame. */
  lemma {:induction false} BlocksMatchRequests(h: Handlers, fs: seq<Frame>)
    ensures Blocks(AllReplies(h, fs)) == Answered(h, fs)
  {
    if fs != [] && !fs[0].Fatal? {
      var b, rest := Replies(h, fs[0]), AllReplies(h, fs[1..]);
      RepliesAreABlock(h, fs[0]);
      BlocksMatchRequests(h, fs[1..]);
      var rs := b + rest;
      assert rs[|b| - 1] == b[|b| - 1];
      var n := Final(rs, 0);
      assert forall i | 0 <= i < |b| :: rs[i] == b[i];
      assert n == |b| - 1;
      assert rs[..n + 1] == b && rs[n + 1..] == rest;
    }
  }

  // ---------------------------------------------------------------------
  // The serve loop on a byte stream
  // ---------------------------------------------------------------------

  type Parser = LineFraming.Bytes -> Frame

  function Parsed(parse: Parser, lines: seq<LineFraming.Bytes>): (fs: seq<Frame>)
    ensures |fs| == |lines|
  {
    if lines == [] then [] else Parsed(parse, lines[..|lines| - 1]) + [parse(lines[|lines| - 1])]
  }

  /** None of the frames made the dispatcher fail. */
  predicate Alive(fs: seq<Frame>) {
    forall i | 0 <= i < |fs| :: !fs[i].Fatal?
  }

  const REFUSAL := Failed("", FRAME_TOO_LARGE)

  /** What has been written on a connection whose serve loop is in state `s`. A frame that
      makes the dispatcher fail ends the loop, so that nothing more is written. */
  function Wrote(h: Handlers, parse: Parser, s: LineFraming.Session): seq<Reply> {
    var fs := Parsed(parse, s.dispatched);
    AllReplies(h, fs) + (if s.ending.TooLarge? && Alive(fs) then [REFUSAL] else [])
  }

  /** What one turn of the serve loop writes. */
  function TurnWrites(h: Handlers, parse: Parser, s: LineFraming.Session): seq<Reply> {
    var line := LineFraming.Line(s.conn);
    if !Alive(Parsed(parse, s.dispatched)) || LineFraming.Parks(s.conn) || |line| == 0 then []
    else if |line| > LineFraming.MAX_FRAME_BYTES then [REFUSAL]
    else Replies(h, parse(line))
  }

  lemma {:induction false} AllRepliesSnoc(h: Handlers, fs: seq<Frame>, f: Frame)
    ensures AllReplies(h, fs + [f]) == AllReplies(h, fs) + (if Alive(fs) then Replies(h, f) else [])
  {
    if fs == [] {
      assert fs + [f] == [f] && [f][1..] == [];
      assert Replies(h, f) + [] == Replies(h, f) == [] + Replies(h, f);
    } else if !fs[0].Fatal? {
      assert (fs + [f])[1..] == fs[1..] + [f];
      AllRepliesSnoc(h, fs[1..], f);
      assert Alive(fs) <==> Alive(fs[1..]) by {
        assert forall i | 0 <= i < |fs| - 1 :: fs[1..][i] == fs[i + 1];
        assert forall i | 0 < i < |fs| :: fs[i] == fs[1..][i - 1];
      }
      Assoc(Replies(h, fs[0]), AllReplies(h, fs[1..]), if Alive(fs) then Replies(h, f) else []);
    }
  }

  /** Turn by turn, that is what the loop has written. */
  lemma TurnAdds(h: Handlers, parse: Parser, s: LineFraming.Session)
    requires LineFraming.CanRun(s)
    ensures Wrote(h, parse, LineFraming.TakeTurn(s)) == Wrote(h, parse, s) + TurnWrites(h, parse, s)
  {
    var fs, line := Parsed(parse, s.dispatched), LineFraming.Line(s.conn);
    assert (s.dispatched + [line])[..|s.dispatched|] == s.dispatched;
    assert Parsed(parse, s.dispatched + [line]) == fs + [parse(line)];
    AllRepliesSnoc(h, fs, parse(line));
    assert AllReplies(h, fs) + [] == AllReplies(h, fs);
  }

  /** The frames that a byte string gives to the dispatcher. */
  function Requests(parse: Parser, b: LineFraming.Bytes): seq<Frame> {
    Parsed(parse, LineFraming.BeforeOversized(LineFraming.Frames(b)))
  }

  /** However the bytes were cut and whenever the loop ran, what a connection at rest has
      written are the replies to the frames before the first oversized one, each request
      answered in turn, and then the refusal if the loop ended with one. */
  lemma WroteExactly(h: Handlers, parse: Parser, es: seq<LineFraming.Event>)
    requires LineFraming.Ordinary(es) && LineFraming.Quiet(LineFraming.Run(es))
    ensures var fs := Requests(parse, LineFraming.Received(es));
            Wrote(h, parse, LineFraming.Run(es))
            == AllReplies(h, fs)
               + (if LineFraming.Run(es).ending.TooLarge? && Alive(fs)
                  then [Reply("", false, Null, Some(Error("frame_too_large", "request exceeds 8 MiB")))] else [])
  {
    LineFraming.DispatchedExactly(es);
  }

  /** All complete runs that received `b` have written the same. */
  ghost predicate WritesDetermined(h: Handlers, parse: Parser, b: LineFraming.Bytes) {
    forall es, fs | LineFraming.Complete(es, b) && LineFraming.Complete(fs, b) ::
      Wrote(h, parse, LineFraming.Run(es)) == Wrote(h, parse, LineFraming.Run(fs))
  }

  /** What the client gets is settled by the bytes it sent, if and only if some complete
      frame is over the cap, or the unterminated tail is not, or a frame ended the
      connection before either. */
  lemma WritesDeterminedExactly(h: Handlers, parse: Parser, b: LineFraming.Bytes)
    ensures WritesDetermined(h, parse, b)
       <==> LineFraming.Oversized(LineFraming.Frames(b)) || |LineFraming.Tail(b)| <= LineFraming.MAX_FRAME_BYTES
            || !Alive(Requests(parse, b))
  {
    var settled := LineFraming.Oversized(LineFraming.Frames(b)) || |LineFraming.Tail(b)| <= LineFraming.MAX_FRAME_BYTES;
    if settled || !Alive(Requests(parse, b)) {
      LineFraming.ReplyDeterminedExactly(b);
      forall es, fs | LineFraming.Complete(es, b) && LineFraming.Complete(fs, b)
        ensures Wrote(h, parse, LineFraming.Run(es)) == Wrote(h, parse, LineFraming.Run(fs))
      {
        WroteExactly(h, parse, es);
        WroteExactly(h, parse, fs);
      }
    } else {
      var es := LineFraming.RefusedRun(b);
      var fs := LineFraming.UnrefusedRun(b);
      WroteExactly(h, parse, es);
      WroteExactly(h, parse, fs);
      assert |Wrote(h, parse, LineFraming.Run(es))| == |Wrote(h, parse, LineFraming.Run(fs))| + 1;
    }
  }
}
