/** What stripping a recorded text leaves (`stripAnsi` in `apps/web/src/lib/reel.ts`).

    Each of its two passes removes the sequences that a scan from the left finds. The
    text on both sides of a removed sequence then stands together, and may read as a
    sequence that was not there before. The results say exactly when it does, by a scan
    of the input that removes nothing. */
module AnsiStripping {
  import opened Wrappers
  import opened AnsiSpans

  /** The two kinds of sequence: control sequences and operating system commands. */
  datatype Kind = Csi | Osc

  function Length(k: Kind, s: string): (n: Option<nat>)
    ensures n.Some? ==> 3 <= n.value <= |s| && s[0] == ESC
  {
    if k.Csi? then CsiLength(s) else OscLength(s)
  }

  /** A sequence of kind `k` starts somewhere in `s`. */
  predicate Has(k: Kind, s: string) {
    s != "" && (Length(k, s).Some? || Has(k, s[1..]))
  }

  predicate HasSequence(s: string) { Has(Csi, s) || Has(Osc, s) }

  // Unfinished openers.

  /** The beginning of a sequence that is not finished: the escape character alone, with
      `[` and parameters after it, with `]` and a payload after it, or with the first half
      of the terminator after that. */
  datatype Part = Escape(kind: Kind) | Params | Payload | PayloadEscape

  datatype Fed = Done | More(part: Part) | Dead

  /** One character more: it finishes the sequence, goes on with it, or does neither. */
  function Feed(part: Part, c: char): Fed {
    match part
    case Escape(Csi) => if c == '[' then More(Params) else Dead
    case Escape(Osc) => if c == ']' then More(Payload) else Dead
    case Params => if IsParam(c) then More(Params) else if IsFinal(c) then Done else Dead
    case Payload => if c == BEL then Done else if c == ESC then More(PayloadEscape) else More(Payload)
    case PayloadEscape => if c == '\\' then Done else Dead
  }

  /** What follows the characters of `s` that finish the opener, if they do. */
  function End(part: Part, s: string): (rest: Option<string>)
    ensures rest.Some? ==> |rest.value| < |s|
    decreases |s|
  {
    if s == "" then None
    else match Feed(part, s[0])
      case Done => Some(s[1..])
      case More(next) => End(next, s[1..])
      case Dead => None
  }

  lemma {:induction false} EndOfParams(s: string)
    ensures var p := ParamRun(s);
            End(Params, s) == if p < |s| && IsFinal(s[p]) then Some(s[p + 1..]) else None
  {
    if s != "" && IsParam(s[0]) {
      EndOfParams(s[1..]);
      var p := ParamRun(s[1..]);
      assert p < |s[1..]| ==> s[1..][p] == s[p + 1] && s[1..][p + 1..] == s[p + 2..];
    }
  }

  lemma {:induction false} EndOfPayload(s: string)
    ensures var p := PayloadRun(s);
            End(Payload, s) == if p < |s| && s[p] == BEL then Some(s[p + 1..])
                               else if p + 1 < |s| && s[p + 1] == '\\' then Some(s[p + 2..])
                               else None
  {
    if s != "" && s[0] != BEL && s[0] != ESC {
      EndOfPayload(s[1..]);
      var p := PayloadRun(s[1..]);
      assert p < |s[1..]| ==> s[1..][p] == s[p + 1] && s[1..][p + 1..] == s[p + 2..];
      assert p + 1 < |s[1..]| ==> s[1..][p + 1] == s[p + 2] && s[1..][p + 2..] == s[p + 3..];
    } else if s != "" && s[0] == ESC && |s| > 1 {
      assert s[1..][0] == s[1] && s[1..][1..] == s[2..];
    }
  }

  /** The length of a sequence, from what follows it. */
  function UpTo(s: string, rest: Option<string>): Option<int> {
    match rest
    case None => None
    case Some(r) => Some(|s| + 1 - |r|)
  }

  lemma CsiIsEnd(s: string)
    ensures CsiLength([ESC] + s) == UpTo(s, End(Escape(Csi), s))
  {
    var t := [ESC] + s;
    if s != "" {
      assert t[1] == s[0] && t[2..] == s[1..];
      EndOfParams(s[1..]);
    }
  }

  lemma OscIsEnd(s: string)
    ensures OscLength([ESC] + s) == UpTo(s, End(Escape(Osc), s))
  {
    var t := [ESC] + s;
    if s != "" {
      assert t[1] == s[0] && t[2..] == s[1..];
      EndOfPayload(s[1..]);
      var p := PayloadRun(s[1..]);
      assert p < |s[1..]| ==> t[p + 2] == s[1..][p];
      assert p + 1 < |s[1..]| ==> t[p + 3] == s[1..][p + 1];
    }
  }

  lemma {:induction false} EndIsSuffix(part: Part, s: string)
    requires End(part, s).Some?
    ensures s[|s| - |End(part, s).value|..] == End(part, s).value
    decreases |s|
  {
    if Feed(part, s[0]).More? {
      EndIsSuffix(Feed(part, s[0]).part, s[1..]);
    }
  }

  /** A sequence is an escape character that the text after it finishes. */
  lemma LengthIsEnd(k: Kind, s: string)
    ensures Length(k, [ESC] + s) == UpTo(s, End(Escape(k), s))
    ensures End(Escape(k), s).Some? ==> s[|s| - |End(Escape(k), s).value|..] == End(Escape(k), s).value
  {
    if k.Csi? { CsiIsEnd(s); } else { OscIsEnd(s); }
    if End(Escape(k), s).Some? {
      EndIsSuffix(Escape(k), s);
    }
  }

  // The two passes, read off the input.

  /** The first pass removes the commands; the second removes the control sequences of what
      that leaves. */
  datatype Pass = First | Second

  /** What the pass leaves of `s`. */
  function Out(pass: Pass, s: string): string {
    if pass.First? then StripOsc(s) else StripAnsi(s)
  }

  /** The input from the next character on that the first pass keeps. */
  function Kept(s: string): (t: string)
    ensures |t| <= |s| && (t != "" ==> OscLength(t).None?)
  {
    if s != "" && OscLength(s).Some? then Kept(s[OscLength(s).value..]) else s
  }

  /** What follows the kept characters that finish the opener, if they do. */
  function KeptEnd(part: Part, s: string): (rest: Option<string>)
    ensures rest.Some? ==> |rest.value| < |s|
    decreases |s|
  {
    var t := Kept(s);
    if t == "" then None
    else match Feed(part, t[0])
      case Done => Some(t[1..])
      case More(next) => KeptEnd(next, t[1..])
      case Dead => None
  }

  /** The input from the next character on that the pass reads. */
  function Head(pass: Pass, s: string): (t: string)
    ensures |t| <= |s|
  {
    if pass.First? then s else Kept(s)
  }

  /** What follows the sequence that the pass removes at the start of `t`, if there is one. */
  function Removed(pass: Pass, t: string): (rest: Option<string>)
    requires t != ""
    ensures rest.Some? ==> |rest.value| < |t|
  {
    match pass
    case First => (match OscLength(t) case None => None case Some(n) => Some(t[n..]))
    case Second => if t[0] == ESC then KeptEnd(Escape(Csi), t[1..]) else None
  }

  /** Whatever the pass removes on the way, the characters it keeps finish the opener. */
  predicate Finishes(pass: Pass, part: Part, s: string)
    decreases |s|
  {
    var t := Head(pass, s);
    t != ""
    && match Removed(pass, t)
       case Some(rest) => Finishes(pass, part, rest)
       case None =>
         match Feed(part, t[0])
         case Done => true
         case More(next) => Finishes(pass, next, t[1..])
         case Dead => false
  }

  /** The opener, as far as the characters of `s` go on with it, stands directly before a
      sequence that the pass removes, and what follows that sequence finishes it. */
  predicate StandsBefore(pass: Pass, part: Part, s: string)
    decreases |s|
  {
    var t := Head(pass, s);
    t != ""
    && match Removed(pass, t)
       case Some(rest) => Finishes(pass, part, rest)
       case None => Feed(part, t[0]).More? && StandsBefore(pass, Feed(part, t[0]).part, t[1..])
  }

  /** Somewhere in `s` an unfinished opener of kind `k` stands directly before a sequence
      that the pass removes, and what follows that sequence finishes it. */
  predicate Rejoins(pass: Pass, k: Kind, s: string)
    decreases |s|
  {
    var t := Head(pass, s);
    t != ""
    && match Removed(pass, t)
       case Some(rest) => Rejoins(pass, k, rest)
       case None =>
         (t[0] == ESC && StandsBefore(pass, Escape(k), t[1..])) || Rejoins(pass, k, t[1..])
  }

  /** The pass finishes the opener without removing anything on the way. */
  predicate Straight(pass: Pass, part: Part, s: string)
    decreases |s|
  {
    var t := Head(pass, s);
    t != "" && Removed(pass, t).None?
    && match Feed(part, t[0])
       case Done => true
       case More(next) => Straight(pass, next, t[1..])
       case Dead => false
  }

  // The scans against what the passes leave.

  lemma {:induction false} KeptIs(s: string)
    ensures StripOsc(s) == if Kept(s) == "" then "" else [Kept(s)[0]] + StripOsc(Kept(s)[1..])
    ensures StripOsc(Kept(s)) == StripOsc(s)
    ensures Kept(Kept(s)) == Kept(s)
  {
    if s != "" && OscLength(s).Some? {
      KeptIs(s[OscLength(s).value..]);
    }
  }

  lemma {:induction false} KeptEndIs(part: Part, s: string)
    ensures End(part, StripOsc(s)) == match KeptEnd(part, s)
              { case None => None case Some(rest) => Some(StripOsc(rest)) }
    decreases |s|
  {
    var t := Kept(s);
    KeptIs(s);
    if t != "" {
      var o := StripOsc(t[1..]);
      assert ([t[0]] + o)[1..] == o;
      if Feed(part, t[0]).More? {
        KeptEndIs(Feed(part, t[0]).part, t[1..]);
      }
    }
  }

  /** What the second pass removes are the control sequences of what the first one left. */
  lemma SecondRemoves(t: string)
    requires t != "" && Kept(t) == t
    ensures CsiLength(StripOsc(t)).Some? <==> Removed(Second, t).Some?
    ensures Removed(Second, t).Some? ==>
              StripOsc(t)[CsiLength(StripOsc(t)).value..] == StripOsc(Removed(Second, t).value)
  {
    KeptIs(t);
    var o := StripOsc(t[1..]);
    if t[0] == ESC {
      KeptEndIs(Escape(Csi), t[1..]);
      LengthIsEnd(Csi, o);
      if Removed(Second, t).Some? {
        var rest := StripOsc(Removed(Second, t).value);
        assert ([ESC] + o)[|o| + 1 - |rest|..] == o[|o| - |rest|..];
      }
    } else {
      assert ([t[0]] + o)[0] == t[0];
    }
  }

  /** One turn of a pass. */
  lemma OutIs(pass: Pass, s: string)
    ensures var t := Head(pass, s);
            Out(pass, s) == if t == "" then ""
                            else if Removed(pass, t).Some? then Out(pass, Removed(pass, t).value)
                            else [t[0]] + Out(pass, t[1..])
  {
    if pass.Second? {
      var t := Kept(s);
      KeptIs(s);
      if t != "" {
        SecondRemoves(t);
        var o := StripOsc(t[1..]);
        assert ([t[0]] + o)[1..] == o;
      }
    }
  }

  /** Finishing an opener on the input is finishing it on what the pass leaves. */
  lemma {:induction false} FinishesIs(pass: Pass, part: Part, s: string)
    ensures Finishes(pass, part, s) <==> End(part, Out(pass, s)).Some?
    decreases |s|
  {
    var t := Head(pass, s);
    OutIs(pass, s);
    if t != "" {
      match Removed(pass, t)
      case Some(rest) => FinishesIs(pass, part, rest);
      case None =>
        var o := Out(pass, t[1..]);
        assert ([t[0]] + o)[1..] == o;
        if Feed(part, t[0]).More? {
          FinishesIs(pass, Feed(part, t[0]).part, t[1..]);
        }
    }
  }

  /** It is finished straight on, or over a sequence that is removed. */
  lemma {:induction false} FinishedEitherWay(pass: Pass, part: Part, s: string)
    ensures Finishes(pass, part, s) <==> Straight(pass, part, s) || StandsBefore(pass, part, s)
    decreases |s|
  {
    var t := Head(pass, s);
    if t != "" && Removed(pass, t).None? && Feed(part, t[0]).More? {
      FinishedEitherWay(pass, Feed(part, t[0]).part, t[1..]);
    }
  }

  /** At a character that the pass keeps, a sequence of kind `k` is read after the pass
      exactly when it is an escape character, and an opener from there on is finished
      straight on or over a sequence that is removed. */
  lemma ReadsAfter(pass: Pass, k: Kind, t: string)
    requires t != "" && Head(pass, t) == t && Removed(pass, t).None?
    ensures Length(k, Out(pass, t)).Some?
       <==> t[0] == ESC && (Straight(pass, Escape(k), t[1..]) || StandsBefore(pass, Escape(k), t[1..]))
  {
    OutIs(pass, t);
    var o := Out(pass, t[1..]);
    if t[0] == ESC {
      FinishesIs(pass, Escape(k), t[1..]);
      FinishedEitherWay(pass, Escape(k), t[1..]);
      LengthIsEnd(k, o);
    } else {
      assert ([t[0]] + o)[0] == t[0];
    }
  }

  lemma {:induction false} StraightInFirst(part: Part, s: string)
    requires Straight(First, part, s)
    ensures End(part, s).Some?
    decreases |s|
  {
    if Feed(part, s[0]).More? {
      StraightInFirst(Feed(part, s[0]).part, s[1..]);
    }
  }

  lemma {:induction false} StraightInSecond(part: Part, s: string)
    requires Straight(Second, part, s)
    ensures KeptEnd(part, s).Some?
    decreases |s|
  {
    var t := Kept(s);
    if Feed(part, t[0]).More? {
      StraightInSecond(Feed(part, t[0]).part, t[1..]);
    }
  }

  /** The kind of sequence that a pass removes. */
  function Own(pass: Pass): Kind { if pass.First? then Osc else Csi }

  /** What is finished straight on at a kept character is not of the kind removed. */
  lemma OwnIsRemoved(pass: Pass, t: string)
    requires t != "" && Head(pass, t) == t && Removed(pass, t).None? && t[0] == ESC
    ensures !Straight(pass, Escape(Own(pass)), t[1..])
  {
    assert t == [ESC] + t[1..];
    LengthIsEnd(Osc, t[1..]);
    if Straight(pass, Escape(Own(pass)), t[1..]) {
      if pass.First? {
        StraightInFirst(Escape(Osc), t[1..]);
      } else {
        StraightInSecond(Escape(Csi), t[1..]);
      }
    }
  }

  /** A pass leaves no sequence of its own kind but those it puts together. */
  lemma {:induction false} OwnKindLeft(pass: Pass, s: string)
    ensures Has(Own(pass), Out(pass, s)) <==> Rejoins(pass, Own(pass), s)
    decreases |s|
  {
    var t := Head(pass, s);
    OutIs(pass, s);
    if t != "" {
      match Removed(pass, t)
      case Some(rest) => OwnKindLeft(pass, rest);
      case None =>
        OwnKindLeft(pass, t[1..]);
        HeadIsHead(pass, s);
        ReadsAfter(pass, Own(pass), t);
        if t[0] == ESC { OwnIsRemoved(pass, t); }
        OutIs(pass, t);
        assert ([t[0]] + Out(pass, t[1..]))[1..] == Out(pass, t[1..]);
    }
  }

  lemma HeadIsHead(pass: Pass, s: string)
    ensures Head(pass, Head(pass, s)) == Head(pass, s)
  {
    if pass.Second? { KeptIs(s); }
  }

  // Commands that the second pass finds.

  lemma NoneInside(s: string, n: nat)
    requires n <= |s| && forall i | 0 <= i < n :: s[i] != ESC
    ensures Has(Osc, s) <==> Has(Osc, s[n..])
    decreases n
  {
    if n == 0 {
      assert s[0..] == s;
    } else {
      assert s[1..][n - 1..] == s[n..];
      assert forall i | 0 <= i < n - 1 :: s[1..][i] == s[i + 1];
      NoneInside(s[1..], n - 1);
    }
  }

  /** No command starts inside a control sequence. */
  lemma NoCommandInside(s: string, n: nat)
    requires CsiLength(s) == Some(n)
    ensures Has(Osc, s) <==> Has(Osc, s[n..])
  {
    CsiHasOneEsc(s, n);
    assert OscLength(s).None?;
    assert forall i | 0 <= i < n - 1 :: s[1..][i] == s[1..][..n - 1][i];
    NoneInside(s[1..], n - 1);
    assert s[1..][n - 1..] == s[n..];
  }

  /** What the second pass removes begins with an escape character and `[`. */
  lemma RemovedOpens(t: string)
    requires t != "" && Removed(Second, t).Some?
    ensures t[0] == ESC && Kept(t[1..]) != "" && Kept(t[1..])[0] == '['
  {
  }

  /** No control sequence starts inside a command: one that the first pass left is finished
      straight on in the second. */
  lemma {:induction false} CommandIsWhole(part: Part, s: string)
    requires part == Escape(Osc) || part.Payload? || part.PayloadEscape?
    ensures Straight(Second, part, s) <==> KeptEnd(part, s).Some?
    decreases |s|
  {
    var t := Kept(s);
    if t != "" {
      if Removed(Second, t).Some? {
        RemovedOpens(t);
        assert KeptEnd(PayloadEscape, t[1..]).None?;
      } else if Feed(part, t[0]).More? {
        CommandIsWhole(Feed(part, t[0]).part, t[1..]);
      }
    }
  }

  /** The second pass keeps every command it finds, and may put more together. */
  lemma {:induction false} CommandsLeft(s: string)
    ensures Has(Osc, StripAnsi(s)) <==> Has(Osc, StripOsc(s)) || Rejoins(Second, Osc, s)
    decreases |s|
  {
    var t := Kept(s);
    OutIs(Second, s);
    KeptIs(s);
    if t != "" {
      SecondRemoves(t);
      match Removed(Second, t)
      case Some(rest) =>
        CommandsLeft(rest);
        NoCommandInside(StripOsc(t), CsiLength(StripOsc(t)).value);
      case None =>
        CommandsLeft(t[1..]);
        CommandsAtHead(t);
        OutIs(Second, t);
        assert ([t[0]] + StripOsc(t[1..]))[1..] == StripOsc(t[1..]);
        assert ([t[0]] + StripAnsi(t[1..]))[1..] == StripAnsi(t[1..]);
    }
  }

  lemma CommandsAtHead(t: string)
    requires t != "" && Kept(t) == t && Removed(Second, t).None?
    ensures OscLength(StripAnsi(t)).Some?
       <==> OscLength(StripOsc(t)).Some? || (t[0] == ESC && StandsBefore(Second, Escape(Osc), t[1..]))
  {
    ReadsAfter(Second, Osc, t);
    KeptIs(t);
    var o := StripOsc(t[1..]);
    if t[0] == ESC {
      CommandIsWhole(Escape(Osc), t[1..]);
      KeptEndIs(Escape(Osc), t[1..]);
      LengthIsEnd(Osc, o);
    } else {
      assert ([t[0]] + o)[0] == t[0];
    }
  }

  // Both passes.

  /** In one of the passes over `s`, an unfinished opener stands directly before a sequence
      that is removed, and what follows that sequence finishes it. */
  predicate PutsTogether(s: string) {
    Rejoins(First, Osc, s) || Rejoins(Second, Csi, s) || Rejoins(Second, Osc, s)
  }

  /** Stripping leaves an escape sequence exactly when that is so. */
  lemma SequenceLeftExactly(s: string)
    ensures HasSequence(StripAnsi(s)) <==> PutsTogether(s)
  {
    OwnKindLeft(First, s);
    OwnKindLeft(Second, s);
    CommandsLeft(s);
  }

  function StripKind(k: Kind, s: string): string {
    if k.Csi? then StripCsi(s) else StripOsc(s)
  }

  lemma {:induction false} StripShortens(k: Kind, s: string)
    ensures |StripKind(k, s)| <= |s|
    ensures |StripKind(k, s)| == |s| <==> !Has(k, s)
    ensures !Has(k, s) ==> StripKind(k, s) == s
  {
    if s != "" {
      match Length(k, s)
      case Some(n) => StripShortens(k, s[n..]);
      case None =>
        StripShortens(k, s[1..]);
        assert s == [s[0]] + s[1..];
    }
  }

  /** Stripping once more changes nothing exactly when it is not so. */
  lemma StripsOnceExactly(s: string)
    ensures StripAnsi(StripAnsi(s)) == StripAnsi(s) <==> !PutsTogether(s)
  {
    var t := StripAnsi(s);
    SequenceLeftExactly(s);
    StripShortens(Osc, t);
    StripShortens(Csi, StripOsc(t));
  }

  // Escape characters.

  /** Every escape character that the first pass keeps opens a sequence that the second one
      removes. */
  predicate EveryEscapeOpens(s: string)
    decreases |s|
  {
    var t := Kept(s);
    t != "" ==> (t[0] == ESC ==> Removed(Second, t).Some?) && EveryEscapeOpens(t[1..])
  }

  lemma {:induction false} EscapesOpenOnInput(s: string)
    ensures EscapesOpen(StripOsc(s)) <==> EveryEscapeOpens(s)
    decreases |s|
  {
    var t := Kept(s);
    KeptIs(s);
    if t != "" {
      SecondRemoves(t);
      EscapesOpenOnInput(t[1..]);
      assert ([t[0]] + StripOsc(t[1..]))[1..] == StripOsc(t[1..]);
    }
  }

  /** Stripping leaves no escape character, of a sequence or not, exactly under that
      condition. */
  lemma StripsEveryEscapeExactly(s: string)
    ensures NoEsc(StripAnsi(s)) <==> EveryEscapeOpens(s)
  {
    StripCsiLeavesEsc(StripOsc(s));
    EscapesOpenOnInput(s);
  }
}
