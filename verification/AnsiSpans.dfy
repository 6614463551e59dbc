/** Escape sequences of a recorded terminal, interpreted into styled spans
    (`sgrSpans`, `applySgr`, `stripAnsi` in `apps/web/src/lib/reel.ts`).

    Two kinds of sequence are recognised, both found by a global regular expression
    that takes the leftmost match first: operating system commands, `ESC ] … BEL` or
    `ESC ] … ESC \`, and control sequences, `ESC [ … letter`. */
module AnsiSpans {
  import opened Wrappers

  const ESC: char := '\U{1B}'
  const BEL: char := '\U{07}'

  predicate IsParam(c: char) { '0' <= c <= '9' || c == ';' || c == '?' }
  predicate IsFinal(c: char) { 'A' <= c <= 'Z' || 'a' <= c <= 'z' }

  function ParamRun(s: string): (n: nat)
    ensures n <= |s| && (forall i | 0 <= i < n :: IsParam(s[i])) && (n < |s| ==> !IsParam(s[n]))
  {
    if s != "" && IsParam(s[0]) then 1 + ParamRun(s[1..]) else 0
  }

  /** The length of the control sequence at the start of `s`. */
  function CsiLength(s: string): (n: Option<nat>)
    ensures n.Some? ==> 3 <= n.value <= |s|
  {
    if |s| < 3 || s[0] != ESC || s[1] != '[' then None
    else
      var p := ParamRun(s[2..]);
      if p + 2 < |s| && IsFinal(s[p + 2]) then Some(p + 3) else None
  }

  function PayloadRun(s: string): (n: nat)
    ensures n <= |s| && (forall i | 0 <= i < n :: s[i] != BEL && s[i] != ESC)
    ensures n < |s| ==> s[n] == BEL || s[n] == ESC
  {
    if s != "" && s[0] != BEL && s[0] != ESC then 1 + PayloadRun(s[1..]) else 0
  }

  /** The length of the operating system command at the start of `s`. */
  function OscLength(s: string): (n: Option<nat>)
    ensures n.Some? ==> 3 <= n.value <= |s|
  {
    if |s| < 3 || s[0] != ESC || s[1] != ']' then None
    else
      var p := PayloadRun(s[2..]) + 2;
      if p < |s| && s[p] == BEL then Some(p + 1)
      else if p + 1 < |s| && s[p + 1] == '\\' then Some(p + 2)
      else None
  }

  /** A control sequence, and an operating system command, as the two regular expressions
      spell them. */
  predicate IsCsi(t: string) {
    && |t| >= 3 && t[0] == '\U{1B}' && t[1] == '['
    && (forall i | 2 <= i < |t| - 1 :: '0' <= t[i] <= '9' || t[i] == ';' || t[i] == '?')
    && ('A' <= t[|t| - 1] <= 'Z' || 'a' <= t[|t| - 1] <= 'z')
  }

  predicate IsOsc(t: string) {
    && |t| >= 3 && t[0] == '\U{1B}' && t[1] == ']'
    && ((t[|t| - 1] == '\U{07}' && NeitherInside(t, |t| - 1))
        || (|t| >= 4 && t[|t| - 2] == '\U{1B}' && t[|t| - 1] == '\\' && NeitherInside(t, |t| - 2)))
  }

  predicate NeitherInside(t: string, n: nat)
    requires n <= |t|
  {
    forall i | 2 <= i < n :: t[i] != '\U{07}' && t[i] != '\U{1B}'
  }

  lemma RunIs(s: string, n: nat)
    requires n < |s| && (forall i | 0 <= i < n :: IsParam(s[i])) && !IsParam(s[n])
    ensures ParamRun(s) == n
  {
  }

  lemma PayloadIs(s: string, n: nat)
    requires n < |s| && (forall i | 0 <= i < n :: s[i] != BEL && s[i] != ESC) && (s[n] == BEL || s[n] == ESC)
    ensures PayloadRun(s) == n
  {
  }

  /** The sequence found at the start of a text is the one prefix of it that is a sequence. */
  lemma CsiExactly(s: string, n: nat)
    ensures CsiLength(s) == Some(n) <==> n <= |s| && IsCsi(s[..n])
  {
    if CsiLength(s) == Some(n) {
      assert forall i | 2 <= i < n - 1 :: s[..n][i] == s[2..][i - 2];
    }
    if n <= |s| && IsCsi(s[..n]) {
      assert forall i | 0 <= i < n :: s[..n][i] == s[i];
      assert forall i | 0 <= i < n - 3 :: s[2..][i] == s[..n][i + 2];
      RunIs(s[2..], n - 3);
    }
  }

  lemma OscExactly(s: string, n: nat)
    ensures OscLength(s) == Some(n) <==> n <= |s| && IsOsc(s[..n])
  {
    if OscLength(s) == Some(n) {
      var p := PayloadRun(s[2..]) + 2;
      assert forall i | 2 <= i < p :: s[..n][i] == s[2..][i - 2];
      assert p < |s| && s[p] == s[2..][p - 2];
    }
    if n <= |s| && IsOsc(s[..n]) {
      var p := if s[n - 1] == BEL && NeitherInside(s[..n], n - 1) then n - 1 else n - 2;
      assert forall i | 0 <= i < n :: s[..n][i] == s[i];
      assert forall i | 0 <= i < p - 2 :: s[2..][i] == s[..n][i + 2];
      assert s[2..][p - 2] == s[p];
      PayloadIs(s[2..], p - 2);
    }
  }

  function StripOsc(s: string): string {
    if s == "" then ""
    else match OscLength(s)
      case Some(n) => StripOsc(s[n..])
      case None => [s[0]] + StripOsc(s[1..])
  }

  function StripCsi(s: string): string {
    if s == "" then ""
    else match CsiLength(s)
      case Some(n) => StripCsi(s[n..])
      case None => [s[0]] + StripCsi(s[1..])
  }

  function StripAnsi(s: string): string { StripCsi(StripOsc(s)) }

  /** A sequence that straddles another one is put together by its removal. */
  lemma StrippingMayLeaveASequence()
    ensures exists s :: CsiLength(StripAnsi(s)) == Some(3)
  {
    var s, t := [ESC, ESC, '[', 'm', '[', 'm'], [ESC, '[', 'm', '[', 'm'];
    assert s[1..] == t;
    StraddleHasNoOsc(s, t);
    StraddledGoes(t);
    assert CsiLength(s) == None;
    assert StripAnsi(s) == [ESC] + "[m";
    assert ParamRun(([ESC] + "[m")[2..]) == 0;
  }

  lemma StraddleHasNoOsc(s: string, t: string)
    requires s == [ESC, ESC, '[', 'm', '[', 'm'] && t == [ESC, '[', 'm', '[', 'm']
    ensures StripOsc(s) == s
  {
    assert s[1..] == t && t[1..] == "[m[m";
    assert OscLength(s) == None && OscLength(t) == None;
    NoEscNoOsc("[m[m");
    assert StripOsc(t) == [ESC] + "[m[m";
  }

  lemma StraddledGoes(t: string)
    requires t == [ESC, '[', 'm', '[', 'm']
    ensures StripCsi(t) == "[m"
  {
    assert ParamRun(t[2..]) == 0;
    assert CsiLength(t) == Some(3);
    assert t[3..] == "[m" && "[m"[1..] == "m" && "m"[1..] == "";
    assert StripCsi("m") == "m" && StripCsi("[m") == "[m";
  }

  predicate NoEsc(s: string) { forall i | 0 <= i < |s| :: s[i] != ESC }

  lemma {:induction false} NoEscNoOsc(s: string)
    requires NoEsc(s)
    ensures StripOsc(s) == s
  {
    if s != "" {
      NoEscNoOsc(s[1..]);
    }
  }

  /** Every escape character opens a control sequence. */
  predicate EscapesOpen(s: string) {
    s != "" ==> (s[0] == ESC ==> CsiLength(s).Some?) && EscapesOpen(s[1..])
  }

  lemma {:induction false} EscapesPast(s: string, n: nat)
    requires n <= |s| && NoEsc(s[..n])
    ensures EscapesOpen(s) <==> EscapesOpen(s[n..])
    decreases n
  {
    if n == 0 {
      assert s[0..] == s;
    } else {
      assert s[..n][0] == s[0];
      assert s[1..][..n - 1] == s[..n][1..] && s[1..][n - 1..] == s[n..];
      EscapesPast(s[1..], n - 1);
    }
  }

  lemma CsiHasOneEsc(s: string, n: nat)
    requires CsiLength(s) == Some(n)
    ensures s[0] == ESC && NoEsc(s[1..][..n - 1])
  {
    assert s[1..][..n - 1] == s[1..n];
    forall i | 1 <= i < n ensures s[i] != ESC {
      if 2 <= i < n - 1 {
        assert IsParam(s[2..][i - 2]);
      }
    }
  }

  lemma EscapesPastCsi(s: string, n: nat)
    requires CsiLength(s) == Some(n)
    ensures EscapesOpen(s) <==> EscapesOpen(s[n..])
  {
    CsiHasOneEsc(s, n);
    EscapesPast(s[1..], n - 1);
    assert s[1..][n - 1..] == s[n..];
  }

  lemma NoEscCons(c: char, rest: string)
    ensures NoEsc([c] + rest) <==> c != ESC && NoEsc(rest)
  {
    var s := [c] + rest;
    assert s[0] == c && forall i | 0 <= i < |rest| :: s[i + 1] == rest[i];
  }

  lemma {:induction false} StripCsiLeavesEsc(s: string)
    ensures NoEsc(StripCsi(s)) <==> EscapesOpen(s)
  {
    if s != "" {
      match CsiLength(s)
      case None =>
        StripCsiLeavesEsc(s[1..]);
        NoEscCons(s[0], StripCsi(s[1..]));
      case Some(n) =>
        StripCsiLeavesEsc(s[n..]);
        EscapesPastCsi(s, n);
    }
  }

  // Select graphic rendition.

  /** `ANSI_16`. */
  const Ansi16: seq<string> := [
    "#1c1c1c", "#cc3e28", "#4f9c31", "#c99b2e", "#2f6fb5", "#9b4dca", "#2f9b9b", "#c7c7c7",
    "#5c5c5c", "#f16d5c", "#7ddc63", "#f5d05c", "#5aa9e6", "#c98bdc", "#5fd4d4", "#ffffff"]

  /** A parameter as `Number` reads it; `None` is NaN. */
  type Code = Option<nat>

  datatype Colour = Hex(code: string) | Rgb(r: Code, g: Code, b: Code)

  function Grey(level: nat): Colour { Rgb(Some(level), Some(level), Some(level)) }

  const Steps: seq<nat> := [0, 95, 135, 175, 215, 255]

  function Ansi256(index: Code): Colour {
    match index
    case None => Grey(0)
    case Some(n) =>
      if n < 16 then Hex(Ansi16[n])
      else if n >= 232 then Grey(8 + (n - 232) * 10)
      else
        var cube := n - 16;
        Rgb(Some(Steps[cube / 36 % 6]), Some(Steps[cube / 6 % 6]), Some(Steps[cube % 6]))
  }

  datatype Style = Style(
    color: Option<Colour>, background: Option<Colour>, bold: bool, dim: bool, italic: bool, underline: bool)

  const Plain := Style(None, None, false, false, false, false)

  function WithColour(s: Style, code: nat, c: Colour): Style {
    if code == 38 then s.(color := Some(c)) else s.(background := Some(c))
  }

  /** One parameter that stands alone. */
  function Simple(s: Style, code: nat): Style {
    if code == 0 then Plain
    else if code == 1 then s.(bold := true)
    else if code == 2 then s.(dim := true)
    else if code == 3 then s.(italic := true)
    else if code == 4 then s.(underline := true)
    else if code == 22 then s.(bold := false, dim := false)
    else if code == 23 then s.(italic := false)
    else if code == 24 then s.(underline := false)
    else if 30 <= code <= 37 then s.(color := Some(Hex(Ansi16[code - 30])))
    else if code == 39 then s.(color := None)
    else if 40 <= code <= 47 then s.(background := Some(Hex(Ansi16[code - 40])))
    else if code == 49 then s.(background := None)
    else if 90 <= code <= 97 then s.(color := Some(Hex(Ansi16[code - 90 + 8])))
    else if 100 <= code <= 107 then s.(background := Some(Hex(Ansi16[code - 100 + 8])))
    else s
  }

  /** The colour cube: every triple of steps has its index, and no two share one. */
  lemma CubeColour(r: nat, g: nat, b: nat)
    requires r < 6 && g < 6 && b < 6
    ensures Ansi256(Some(16 + 36 * r + 6 * g + b)) == Rgb(Some(Steps[r]), Some(Steps[g]), Some(Steps[b]))
  {
    var cube := 36 * r + 6 * g + b;
    CubeDigits(r, g, b, cube);
    CubeAt(cube, r, g, b);
  }

  lemma CubeDigits(r: nat, g: nat, b: nat, cube: nat)
    requires r < 6 && g < 6 && b < 6 && cube == 36 * r + 6 * g + b
    ensures cube < 216 && cube / 36 == r && cube / 6 % 6 == g && cube % 6 == b
  {
    DivideBy36(cube, r, 6 * g + b);
    DivideBy6(cube, 6 * r + g, b);
    DivideBy6(6 * r + g, r, g);
  }

  lemma CubeAt(cube: nat, r: nat, g: nat, b: nat)
    requires cube < 216 && r < 6 && cube / 36 == r && cube / 6 % 6 == g && cube % 6 == b
    ensures Ansi256(Some(16 + cube)) == Rgb(Some(Steps[r]), Some(Steps[g]), Some(Steps[b]))
  {
    assert r % 6 == r;
  }

  lemma DivideBy36(n: nat, q: nat, rest: nat)
    requires n == 36 * q + rest && rest < 36
    ensures n / 36 == q
  {
  }

  lemma DivideBy6(n: nat, q: nat, rest: nat)
    requires n == 6 * q + rest && rest < 6
    ensures n / 6 == q && n % 6 == rest
  {
  }

  predicate Extends(code: Code) { code == Some(38) || code == Some(48) }

  /** How many parameters the first one of `cs` speaks for. */
  function Width(cs: seq<Code>): (n: nat)
    requires cs != []
    ensures 1 <= n <= |cs|
  {
    if !Extends(cs[0]) || |cs| == 1 then 1
    else if cs[1] == Some(5) && |cs| > 2 then 3
    else if cs[1] == Some(2) && |cs| > 4 then 5
    else 1
  }

  /** What those parameters do. */
  function Effect(s: Style, cs: seq<Code>): Style
    requires cs != []
  {
    match cs[0]
    case None => s
    case Some(code) =>
      if Width(cs) == 3 then WithColour(s, code, Ansi256(cs[2]))
      else if Width(cs) == 5 then WithColour(s, code, Rgb(cs[2], cs[3], cs[4]))
      else Simple(s, code)
  }

  function Apply(s: Style, cs: seq<Code>): Style
    decreases |cs|
  {
    if cs == [] then s else Apply(Effect(s, cs), cs[Width(cs)..])
  }

  /** No extended colour is cut short at the end. */
  predicate Closed(cs: seq<Code>) {
    if cs == [] then true
    else if Extends(cs[0]) && (|cs| == 1 || (cs[1] == Some(5) && |cs| == 2) || (cs[1] == Some(2) && |cs| < 5))
    then false
    else Closed(cs[Width(cs)..])
  }

  lemma DropFront<T>(p: seq<T>, q: seq<T>, n: nat)
    requires n <= |p|
    ensures (p + q)[n..] == p[n..] + q
  {
  }

  lemma {:induction false} ClosedSplits(s: Style, p: seq<Code>, q: seq<Code>)
    requires Closed(p)
    ensures Apply(s, p + q) == Apply(Apply(s, p), q)
    decreases |p|
  {
    if p == [] {
      assert p + q == q;
    } else {
      var n := Width(p);
      assert Width(p + q) == n && Effect(s, p + q) == Effect(s, p);
      DropFront(p, q, n);
      ClosedSplits(Effect(s, p), p[n..], q);
    }
  }

  /** The parameters that complete an extended colour cut short, the last being `v`. */
  function Completion(cs: seq<Code>, v: nat): seq<Code>
    requires !Closed(cs)
    decreases |cs|
  {
    if Extends(cs[0]) && |cs| == 1 then [Some(5), Some(v)]
    else if Extends(cs[0]) && cs[1] == Some(5) && |cs| == 2 then [Some(v)]
    else if Extends(cs[0]) && cs[1] == Some(2) && |cs| == 2 then [Some(v), Some(v), Some(v)]
    else if Extends(cs[0]) && cs[1] == Some(2) && |cs| == 3 then [Some(v), Some(v)]
    else if Extends(cs[0]) && cs[1] == Some(2) && |cs| == 4 then [Some(v)]
    else Completion(cs[Width(cs)..], v)
  }

  /** Whether text is bold when that extended colour comes. */
  function BoldThen(s: Style, cs: seq<Code>): bool
    requires !Closed(cs)
    decreases |cs|
  {
    if Extends(cs[0]) && (|cs| == 1 || (cs[1] == Some(5) && |cs| == 2) || (cs[1] == Some(2) && |cs| < 5))
    then s.bold
    else BoldThen(Effect(s, cs), cs[Width(cs)..])
  }

  lemma {:induction false} OpenSwallows(s: Style, p: seq<Code>, v: nat)
    requires !Closed(p)
    ensures Apply(s, p + Completion(p, v)).bold == BoldThen(s, p)
    decreases |p|
  {
    var q := Completion(p, v);
    if Extends(p[0]) && (|p| == 1 || (p[1] == Some(5) && |p| == 2) || (p[1] == Some(2) && |p| < 5)) {
      assert (p + q)[0] == p[0] && (|p| > 1 ==> (p + q)[1] == p[1]);
      assert Width(p + q) == |p + q|;
      assert (p + q)[|p + q|..] == [];
    } else {
      var n := Width(p);
      assert Width(p + q) == n && Effect(s, p + q) == Effect(s, p);
      DropFront(p, q, n);
      OpenSwallows(Effect(s, p), p[n..], v);
    }
  }

  lemma ApplyOne(s: Style, c: Code)
    ensures Apply(s, [c]) == Effect(s, [c])
  {
    assert [c][1..] == [];
  }

  lemma ApplyNext(s: Style, c: Code, rest: seq<Code>)
    requires !Extends(c)
    ensures Apply(s, [c] + rest) == Apply(Effect(s, [c]), rest)
  {
    assert ([c] + rest)[1..] == rest;
  }

  /** `1` sets bold and `22` clears it. */
  lemma CompletionAlone(s: Style, p: seq<Code>, v: nat)
    requires !Closed(p) && (v == 1 || v == 22)
    ensures Apply(s, Completion(p, v)).bold <==> v == 1
    decreases |p|
  {
    if Completion(p, v) == [Some(5), Some(v)] {
      ApplyNext(s, Some(5), [Some(v)]);
      ApplyOne(Effect(s, [Some(5)]), Some(v));
    } else if Extends(p[0]) && (|p| == 1 || (p[1] == Some(5) && |p| == 2) || (p[1] == Some(2) && |p| < 5)) {
      var t := Effect(s, [Some(v)]);
      assert [Some(v), Some(v)] == [Some(v)] + [Some(v)];
      assert [Some(v), Some(v), Some(v)] == [Some(v)] + [Some(v), Some(v)];
      ApplyOne(s, Some(v));
      ApplyNext(s, Some(v), [Some(v)]);
      ApplyOne(t, Some(v));
      ApplyNext(s, Some(v), [Some(v), Some(v)]);
      ApplyNext(t, Some(v), [Some(v)]);
      ApplyOne(Effect(t, [Some(v)]), Some(v));
    } else {
      CompletionAlone(s, p[Width(p)..], v);
    }
  }

  /** One sequence with two lists of parameters does what two sequences do, whatever the
      style and the second list, exactly when the first list is closed. */
  lemma SequencesSplitExactly(p: seq<Code>)
    ensures (forall s, q :: Apply(s, p + q) == Apply(Apply(s, p), q)) <==> Closed(p)
  {
    if Closed(p) {
      forall s, q ensures Apply(s, p + q) == Apply(Apply(s, p), q) {
        ClosedSplits(s, p, q);
      }
    } else {
      var v := if BoldThen(Plain, p) then 22 else 1;
      OpenSwallows(Plain, p, v);
      CompletionAlone(Apply(Plain, p), p, v);
      var q := Completion(p, v);
      assert Apply(Plain, p + q) != Apply(Apply(Plain, p), q);
    }
  }

  // The parameters of a sequence.

  function Split(s: string): (parts: seq<string>)
    ensures |parts| >= 1
  {
    if s == "" then [""]
    else
      var rest := Split(s[1..]);
      if s[0] == ';' then [""] + rest else [[s[0]] + rest[0]] + rest[1..]
  }

  function Decimal(s: string, acc: nat): Code {
    if s == "" then Some(acc)
    else if '0' <= s[0] <= '9' then Decimal(s[1..], acc * 10 + (s[0] - '0') as nat)
    else None
  }

  /** An empty part is 0; one with a `?` is not a number. */
  function Number(part: string): Code { Decimal(part, 0) }

  function Numbers(parts: seq<string>): (cs: seq<Code>)
    ensures |cs| == |parts| && forall i | 0 <= i < |cs| :: cs[i] == Number(parts[i])
  {
    if parts == [] then [] else [Number(parts[0])] + Numbers(parts[1..])
  }

  function Codes(params: string): seq<Code> { Numbers(Split(params)) }

  /** The style object of `sgrSpans`, changed in place. */
  class Pen {
    var color: Option<Colour>
    var background: Option<Colour>
    var bold: bool
    var dim: bool
    var italic: bool
    var underline: bool

    constructor ()
      ensures View() == Plain
    {
      color, background := None, None;
      bold, dim, italic, underline := false, false, false, false;
    }

    function View(): Style
      reads this
    {
      Style(color, background, bold, dim, italic, underline)
    }

    method One(code: nat)
      modifies this
      ensures View() == Simple(old(View()), code)
    {
      if code == 0 {
        color, background := None, None;
        bold, dim, italic, underline := false, false, false, false;
      } else if code == 1 { bold := true;
      } else if code == 2 { dim := true;
      } else if code == 3 { italic := true;
      } else if code == 4 { underline := true;
      } else if code == 22 { bold, dim := false, false;
      } else if code == 23 { italic := false;
      } else if code == 24 { underline := false;
      } else if 30 <= code <= 37 { color := Some(Hex(Ansi16[code - 30]));
      } else if code == 39 { color := None;
      } else if 40 <= code <= 47 { background := Some(Hex(Ansi16[code - 40]));
      } else if code == 49 { background := None;
      } else if 90 <= code <= 97 { color := Some(Hex(Ansi16[code - 90 + 8]));
      } else if 100 <= code <= 107 { background := Some(Hex(Ansi16[code - 100 + 8]));
      }
    }

    method Set(code: nat, c: Colour)
      requires Extends(Some(code))
      modifies this
      ensures View() == WithColour(old(View()), code, c)
    {
      if code == 38 { color := Some(c); } else { background := Some(c); }
    }

    /** One turn of the loop in `applySgr`, at the first of the parameters left; `used`
        is how far it steps. */
    method Turn(codes: seq<Code>) returns (used: nat)
      requires codes != []
      modifies this
      ensures used == Width(codes) && View() == Effect(old(View()), codes)
    {
      if codes[0].None? {
        return 1;
      }
      var code := codes[0].value;
      if code != 38 && code != 48 {
        One(code);
        return 1;
      }
      var mode := if |codes| > 1 then codes[1] else None;
      if mode == Some(5) && |codes| > 2 {
        Set(code, Ansi256(codes[2]));
        return 3;
      } else if mode == Some(2) && |codes| > 4 {
        Set(code, Rgb(codes[2], codes[3], codes[4]));
        return 5;
      }
      return 1;
    }

    /** `applySgr`: the loop over the parameters, which steps over those that an
        extended colour takes. */
    method ApplySgr(params: string)
      modifies this
      ensures View() == Apply(old(View()), Codes(params))
    {
      var codes := Codes(params);
      var index := 0;
      assert codes[0..] == codes;
      while index < |codes|
        invariant index <= |codes|
        invariant Apply(View(), codes[index..]) == Apply(old(View()), codes)
      {
        var used := Turn(codes[index..]);
        assert codes[index..][used..] == codes[index + used..];
        index := index + used;
      }
    }
  }

  // Spans.

  datatype Token = Char(c: char) | Sgr(params: string) | Other(sequence: string)

  function Tokens(s: string): seq<Token> {
    if s == "" then []
    else match CsiLength(s)
      case None => [Char(s[0])] + Tokens(s[1..])
      case Some(n) =>
        [TokenOf(s[..n])] + Tokens(s[n..])
  }

  function TokenOf(sequence: string): Token
    requires |sequence| >= 3
  {
    if sequence[|sequence| - 1] == 'm' then Sgr(sequence[2..|sequence| - 1]) else Other(sequence)
  }

  function Source(t: Token): string {
    match t
    case Char(c) => [c]
    case Sgr(params) => [ESC, '['] + params + "m"
    case Other(sequence) => sequence
  }

  function Sources(ts: seq<Token>): string {
    if ts == [] then "" else Source(ts[0]) + Sources(ts[1..])
  }

  lemma SourcesFirst(t: Token, ts: seq<Token>)
    ensures Sources([t] + ts) == Source(t) + Sources(ts)
  {
    assert ([t] + ts)[1..] == ts;
  }

  lemma SequenceSource(s: string, n: nat)
    requires CsiLength(s) == Some(n)
    ensures Source(TokenOf(s[..n])) == s[..n]
  {
    assert [ESC, '['] + s[2..n - 1] + [s[n - 1]] == s[..n];
    assert s[..n][2..n - 1] == s[2..n - 1];
  }

  /** Every character of the text is in one token. */
  lemma {:induction false} TokensCoverText(s: string)
    ensures Sources(Tokens(s)) == s
  {
    if s != "" {
      match CsiLength(s)
      case None =>
        TokensCoverText(s[1..]);
        SourcesFirst(Char(s[0]), Tokens(s[1..]));
      case Some(n) =>
        TokensCoverText(s[n..]);
        SequenceSource(s, n);
        SourcesFirst(TokenOf(s[..n]), Tokens(s[n..]));
    }
  }

  /** What a reader sees: a character in a style, or the marker of a sequence. */
  datatype Cell = Glyph(c: char, style: Style) | Marker(sequence: string)

  function Face(t: Token, style: Style): seq<Cell> {
    match t
    case Char(c) => [Glyph(c, style)]
    case Sgr(_) => []
    case Other(sequence) => [Marker(sequence)]
  }

  function StyleAfter(t: Token, style: Style): Style {
    match t
    case Char(_) => style
    case Sgr(params) => Apply(style, Codes(params))
    case Other(_) => style
  }

  /** The meaning of the tokens, one at a time. */
  function Interpret(ts: seq<Token>, style: Style): seq<Cell> {
    if ts == [] then [] else Face(ts[0], style) + Interpret(ts[1..], StyleAfter(ts[0], style))
  }

  datatype Span = Text(text: string, style: Style) | Unsupported(sequence: string)

  function Glyphs(text: string, style: Style): seq<Cell> {
    if text == "" then [] else [Glyph(text[0], style)] + Glyphs(text[1..], style)
  }

  function CellsOf(s: Span): seq<Cell> {
    match s
    case Text(text, style) => Glyphs(text, style)
    case Unsupported(sequence) => [Marker(sequence)]
  }

  function Cells(spans: seq<Span>): seq<Cell> {
    if spans == [] then [] else Cells(spans[..|spans| - 1]) + CellsOf(spans[|spans| - 1])
  }

  lemma CellsSnoc(spans: seq<Span>, s: Span)
    ensures Cells(spans + [s]) == Cells(spans) + CellsOf(s)
  {
    assert (spans + [s])[..|spans|] == spans;
  }

  /** What the last step of `sgrSpans` keeps. */
  predicate Shows(s: Span) {
    match s
    case Text(text, _) => text != ""
    case Unsupported(sequence) => sequence != ""
  }

  function Shown(spans: seq<Span>): seq<Span> {
    if spans == [] then []
    else Shown(spans[..|spans| - 1]) + (if Shows(spans[|spans| - 1]) then [spans[|spans| - 1]] else [])
  }

  lemma {:induction false} AllShown(spans: seq<Span>)
    requires forall i | 0 <= i < |spans| :: Shows(spans[i])
    ensures Shown(spans) == spans
  {
    if spans != [] {
      AllShown(spans[..|spans| - 1]);
    }
  }

  /** Where the next control sequence begins. */
  function NextMatch(s: string): (i: Option<nat>)
    ensures i.Some? ==> i.value < |s| && CsiLength(s[i.value..]).Some?
  {
    if s == "" then None
    else if CsiLength(s).Some? then assert s[0..] == s; Some(0)
    else
      match NextMatch(s[1..])
      case None => None
      case Some(k) => assert s[k + 1..] == s[1..][k..]; Some(k + 1)
  }

  lemma GlyphFirst(c: char, t: string, style: Style)
    ensures Glyphs([c] + t, style) == [Glyph(c, style)] + Glyphs(t, style)
  {
    assert ([c] + t)[1..] == t;
  }

  lemma InterpretFirst(t: Token, ts: seq<Token>, style: Style)
    ensures Interpret([t] + ts, style) == Face(t, style) + Interpret(ts, StyleAfter(t, style))
  {
    assert ([t] + ts)[1..] == ts;
  }

  lemma OneCharacter(c: char, rest: string, style: Style)
    requires CsiLength([c] + rest).None?
    ensures Interpret(Tokens([c] + rest), style) == [Glyph(c, style)] + Interpret(Tokens(rest), style)
    ensures StripCsi([c] + rest) == [c] + StripCsi(rest)
    ensures OtherSequences([c] + rest) == OtherSequences(rest)
  {
    assert ([c] + rest)[1..] == rest;
    InterpretFirst(Char(c), Tokens(rest), style);
  }

  lemma LaterMatch(c: char, rest: string, k: nat)
    requires NextMatch([c] + rest) == Some(k + 1)
    ensures CsiLength([c] + rest).None? && NextMatch(rest) == Some(k)
  {
    assert ([c] + rest)[1..] == rest;
  }

  lemma OneMoreCharacter(c: char, a: string, b: string, style: Style)
    requires CsiLength([c] + (a + b)).None?
    requires Interpret(Tokens(a + b), style) == Glyphs(a, style) + Interpret(Tokens(b), style)
    ensures Interpret(Tokens([c] + (a + b)), style) == Glyphs([c] + a, style) + Interpret(Tokens(b), style)
  {
    OneCharacter(c, a + b, style);
    GlyphFirst(c, a, style);
    Assoc([Glyph(c, style)], Glyphs(a, style), Interpret(Tokens(b), style));
  }

  lemma Uncons(a: string, b: string)
    requires a != ""
    ensures a == [a[0]] + a[1..] && a + b == [a[0]] + (a[1..] + b)
  {
  }

  /** Up to the next control sequence the text stands as it is. */
  lemma {:induction false} TextUntilMatch(a: string, b: string, style: Style)
    requires NextMatch(a + b) == Some(|a|)
    ensures Interpret(Tokens(a + b), style) == Glyphs(a, style) + Interpret(Tokens(b), style)
    decreases |a|
  {
    if a == "" {
      assert a + b == b;
    } else {
      var c, rest := a[0], a[1..];
      Uncons(a, b);
      LaterMatch(c, rest + b, |rest|);
      TextUntilMatch(rest, b, style);
      OneMoreCharacter(c, rest, b, style);
    }
  }

  lemma {:induction false} TextToTheEnd(s: string, style: Style)
    requires NextMatch(s) == None
    ensures Interpret(Tokens(s), style) == Glyphs(s, style)
  {
    if s != "" {
      TextToTheEnd(s[1..], style);
      InterpretFirst(Char(s[0]), Tokens(s[1..]), style);
    }
  }

  /** Past a control sequence. */
  lemma PastTheSequence(at: string, n: nat, style: Style)
    requires CsiLength(at) == Some(n)
    ensures Interpret(Tokens(at), style)
         == Face(TokenOf(at[..n]), style) + Interpret(Tokens(at[n..]), StyleAfter(TokenOf(at[..n]), style))
  {
    InterpretFirst(TokenOf(at[..n]), Tokens(at[n..]), style);
  }

  ghost predicate Progress(shown: seq<Cell>, rest: string, style: Style, whole: seq<Cell>) {
    shown + Interpret(Tokens(rest), style) == whole
  }

  lemma TextProgress(shown: seq<Cell>, a: string, b: string, style: Style, whole: seq<Cell>)
    requires Progress(shown, a + b, style, whole) && NextMatch(a + b) == Some(|a|)
    ensures Progress(shown + Glyphs(a, style), b, style, whole)
  {
    TextUntilMatch(a, b, style);
    Assoc(shown, Glyphs(a, style), Interpret(Tokens(b), style));
  }

  lemma SequenceProgress(shown: seq<Cell>, at: string, n: nat, style: Style, whole: seq<Cell>)
    requires Progress(shown, at, style, whole) && CsiLength(at) == Some(n)
    ensures Progress(shown + Face(TokenOf(at[..n]), style), at[n..], StyleAfter(TokenOf(at[..n]), style), whole)
  {
    PastTheSequence(at, n, style);
    Assoc(shown, Face(TokenOf(at[..n]), style),
          Interpret(Tokens(at[n..]), StyleAfter(TokenOf(at[..n]), style)));
  }

  lemma TurnProgress(shown: seq<Cell>, a: string, at: string, n: nat, style: Style, whole: seq<Cell>)
    requires Progress(shown, a + at, style, whole)
    requires NextMatch(a + at) == Some(|a|) && CsiLength(at) == Some(n)
    ensures Progress((shown + Glyphs(a, style)) + Face(TokenOf(at[..n]), style), at[n..],
                     StyleAfter(TokenOf(at[..n]), style), whole)
  {
    TextProgress(shown, a, at, style, whole);
    SequenceProgress(shown + Glyphs(a, style), at, n, style, whole);
  }

  /** `sgrSpans`: the loop over the control sequences of the text without its operating
      system commands. What the spans show is the meaning of that text. */
  method SgrSpans(input: string) returns (result: seq<Span>)
    ensures Cells(result) == Interpret(Tokens(StripOsc(input)), Plain)
    ensures Texts(result) == StripAnsi(input)
    ensures Markers(result) == OtherSequences(StripOsc(input))
    ensures forall i | 0 <= i < |result| :: Shows(result[i])
  {
    var spans: seq<Span> := [];
    var state := new Pen();
    var text := StripOsc(input);
    var cursor := 0;
    assert text[0..] == text;
    ghost var whole := Interpret(Tokens(text), Plain);
    var m := NextMatch(text);
    while m.Some?
      invariant cursor <= |text|
      invariant m == NextMatch(text[cursor..])
      invariant Progress(Cells(spans), text[cursor..], state.View(), whole)
      invariant forall i | 0 <= i < |spans| :: Shows(spans[i])
      decreases |text| - cursor
    {
      spans, cursor := Sequence(text, cursor, m.value, state, spans, whole);
      m := NextMatch(text[cursor..]);
    }
    TextToTheEnd(text[cursor..], state.View());
    assert text[cursor..|text|] == text[cursor..];
    spans := Flush(text, cursor, |text|, state.View(), spans);
    AllShown(spans);
    result := Shown(spans);
    SpansSpellStripped(input, result);
  }

  lemma SplitAt(text: string, cursor: nat, start: nat)
    requires cursor <= start <= |text|
    ensures text[cursor..] == text[cursor..start] + text[start..]
    ensures text[cursor..][start - cursor..] == text[start..]
  {
  }

  /** One turn of that loop: the text before the sequence, and the sequence. */
  method Sequence(text: string, cursor: nat, ahead: nat, state: Pen, spans: seq<Span>, ghost whole: seq<Cell>)
    returns (more: seq<Span>, past: nat)
    requires cursor <= |text| && NextMatch(text[cursor..]) == Some(ahead)
    requires Progress(Cells(spans), text[cursor..], state.View(), whole)
    requires forall i | 0 <= i < |spans| :: Shows(spans[i])
    modifies state
    ensures cursor < past <= |text|
    ensures Progress(Cells(more), text[past..], state.View(), whole)
    ensures forall i | 0 <= i < |more| :: Shows(more[i])
  {
    var start := cursor + ahead;
    SplitAt(text, cursor, start);
    var at := text[start..];
    var n := CsiLength(at).value;
    TurnProgress(Cells(spans), text[cursor..start], at, n, state.View(), whole);
    more := Flush(text, cursor, start, state.View(), spans);
    more := Obey(state, at[..n], more);
    past := start + n;
    SplitAt(text, start, past);
  }

  /** A control sequence changes the style or leaves a marker. */
  method Obey(state: Pen, sequence: string, spans: seq<Span>) returns (more: seq<Span>)
    requires |sequence| >= 3
    requires forall i | 0 <= i < |spans| :: Shows(spans[i])
    modifies state
    ensures state.View() == StyleAfter(TokenOf(sequence), old(state.View()))
    ensures Cells(more) == Cells(spans) + Face(TokenOf(sequence), old(state.View()))
    ensures forall i | 0 <= i < |more| :: Shows(more[i])
  {
    if sequence[|sequence| - 1] == 'm' {
      state.ApplySgr(sequence[2..|sequence| - 1]);
      more := spans;
      assert Cells(spans) + [] == Cells(spans);
    } else {
      CellsSnoc(spans, Unsupported(sequence));
      more := spans + [Unsupported(sequence)];
    }
  }

  /** `flush`. */
  method Flush(text: string, cursor: nat, end: nat, style: Style, spans: seq<Span>) returns (more: seq<Span>)
    requires cursor <= end <= |text|
    requires forall i | 0 <= i < |spans| :: Shows(spans[i])
    ensures Cells(more) == Cells(spans) + Glyphs(text[cursor..end], style)
    ensures forall i | 0 <= i < |more| :: Shows(more[i])
  {
    if end <= cursor {
      assert text[cursor..end] == "";
      assert Cells(spans) + [] == Cells(spans);
      return spans;
    }
    CellsSnoc(spans, Text(text[cursor..end], style));
    more := spans + [Text(text[cursor..end], style)];
  }

  // What follows for a reader of the spans.

  /** The style after all of `ts`: the left fold of `applySgr` over its sequences. */
  function StyleAfterAll(ts: seq<Token>, style: Style): Style {
    if ts == [] then style else StyleAfterAll(ts[1..], StyleAfter(ts[0], style))
  }

  /** A character is shown in the style that the sequences before it leave. */
  lemma {:induction false} InterpretSplits(a: seq<Token>, b: seq<Token>, style: Style)
    ensures Interpret(a + b, style) == Interpret(a, style) + Interpret(b, StyleAfterAll(a, style))
    decreases |a|
  {
    if a == [] {
      assert a + b == b;
    } else {
      assert (a + b)[1..] == a[1..] + b;
      InterpretSplits(a[1..], b, StyleAfter(a[0], style));
    }
  }

  function CharOf(cell: Cell): string {
    match cell
    case Glyph(c, _) => [c]
    case Marker(_) => ""
  }

  function MarkerOf(cell: Cell): seq<string> {
    match cell
    case Glyph(_, _) => []
    case Marker(sequence) => [sequence]
  }

  function CharsOf(cells: seq<Cell>): string {
    if cells == [] then "" else CharOf(cells[0]) + CharsOf(cells[1..])
  }

  function MarkersOf(cells: seq<Cell>): seq<string> {
    if cells == [] then [] else MarkerOf(cells[0]) + MarkersOf(cells[1..])
  }

  lemma {:induction false} CharsAdd(a: seq<Cell>, b: seq<Cell>)
    ensures CharsOf(a + b) == CharsOf(a) + CharsOf(b)
    decreases |a|
  {
    if a == [] {
      assert a + b == b;
    } else {
      DropFront(a, b, 1);
      CharsAdd(a[1..], b);
      Assoc(CharOf(a[0]), CharsOf(a[1..]), CharsOf(b));
    }
  }

  lemma {:induction false} MarkersAdd(a: seq<Cell>, b: seq<Cell>)
    ensures MarkersOf(a + b) == MarkersOf(a) + MarkersOf(b)
    decreases |a|
  {
    if a == [] {
      assert a + b == b;
    } else {
      DropFront(a, b, 1);
      MarkersAdd(a[1..], b);
      Assoc(MarkerOf(a[0]), MarkersOf(a[1..]), MarkersOf(b));
    }
  }

  lemma CellsAdd(a: seq<Cell>, b: seq<Cell>)
    ensures CharsOf(a + b) == CharsOf(a) + CharsOf(b)
    ensures MarkersOf(a + b) == MarkersOf(a) + MarkersOf(b)
  {
    CharsAdd(a, b);
    MarkersAdd(a, b);
  }

  lemma OneCell(cell: Cell)
    ensures CharsOf([cell]) == CharOf(cell) && MarkersOf([cell]) == MarkerOf(cell)
  {
    assert [cell][1..] == [];
  }

  lemma {:induction false} GlyphsRead(text: string, style: Style)
    ensures CharsOf(Glyphs(text, style)) == text && MarkersOf(Glyphs(text, style)) == []
  {
    if text != "" {
      GlyphsRead(text[1..], style);
      CellsAdd([Glyph(text[0], style)], Glyphs(text[1..], style));
      OneCell(Glyph(text[0], style));
    }
  }

  /** The concatenated texts of the spans, and their markers. */
  function Texts(spans: seq<Span>): string {
    if spans == [] then ""
    else Texts(spans[..|spans| - 1]) + (match spans[|spans| - 1] case Text(t, _) => t case Unsupported(_) => "")
  }

  function Markers(spans: seq<Span>): seq<string> {
    if spans == [] then []
    else Markers(spans[..|spans| - 1]) + (match spans[|spans| - 1] case Text(_, _) => [] case Unsupported(q) => [q])
  }

  lemma {:induction false} SpansRead(spans: seq<Span>)
    ensures CharsOf(Cells(spans)) == Texts(spans) && MarkersOf(Cells(spans)) == Markers(spans)
  {
    if spans != [] {
      var last := spans[|spans| - 1];
      SpansRead(spans[..|spans| - 1]);
      CellsAdd(Cells(spans[..|spans| - 1]), CellsOf(last));
      match last
      case Text(t, style) => GlyphsRead(t, style);
      case Unsupported(q) => OneCell(Marker(q));
    }
  }

  /** The sequences of `s` that are not for style, in order. */
  function OtherSequences(s: string): seq<string> {
    if s == "" then []
    else match CsiLength(s)
      case Some(n) => (if s[n - 1] == 'm' then [] else [s[..n]]) + OtherSequences(s[n..])
      case None => OtherSequences(s[1..])
  }

  lemma FaceReads(sequence: string, cells: seq<Cell>, style: Style)
    requires |sequence| >= 3
    ensures CharsOf(Face(TokenOf(sequence), style) + cells) == CharsOf(cells)
    ensures MarkersOf(Face(TokenOf(sequence), style) + cells)
         == (if sequence[|sequence| - 1] == 'm' then [] else [sequence]) + MarkersOf(cells)
  {
    CellsAdd(Face(TokenOf(sequence), style), cells);
    OneCell(Marker(sequence));
  }

  lemma GlyphReads(c: char, cells: seq<Cell>, style: Style)
    ensures CharsOf([Glyph(c, style)] + cells) == [c] + CharsOf(cells)
    ensures MarkersOf([Glyph(c, style)] + cells) == MarkersOf(cells)
  {
    CellsAdd([Glyph(c, style)], cells);
    OneCell(Glyph(c, style));
  }

  lemma CharacterReads(c: char, rest: string, style: Style)
    requires CsiLength([c] + rest).None?
    requires CharsOf(Interpret(Tokens(rest), style)) == StripCsi(rest)
    requires MarkersOf(Interpret(Tokens(rest), style)) == OtherSequences(rest)
    ensures CharsOf(Interpret(Tokens([c] + rest), style)) == StripCsi([c] + rest)
    ensures MarkersOf(Interpret(Tokens([c] + rest), style)) == OtherSequences([c] + rest)
  {
    OneCharacter(c, rest, style);
    GlyphReads(c, Interpret(Tokens(rest), style), style);
  }

  lemma {:induction false} MeaningReads(s: string, style: Style)
    ensures CharsOf(Interpret(Tokens(s), style)) == StripCsi(s)
    ensures MarkersOf(Interpret(Tokens(s), style)) == OtherSequences(s)
  {
    if s != "" {
      match CsiLength(s)
      case None =>
        Uncons(s, "");
        MeaningReads(s[1..], style);
        CharacterReads(s[0], s[1..], style);
      case Some(n) =>
        MeaningReads(s[n..], StyleAfter(TokenOf(s[..n]), style));
        SequenceReads(s, n, StyleAfter(TokenOf(s[..n]), style), style);
    }
  }

  lemma SequenceReads(s: string, n: nat, after: Style, style: Style)
    requires CsiLength(s) == Some(n) && after == StyleAfter(TokenOf(s[..n]), style)
    requires CharsOf(Interpret(Tokens(s[n..]), after)) == StripCsi(s[n..])
    requires MarkersOf(Interpret(Tokens(s[n..]), after)) == OtherSequences(s[n..])
    ensures CharsOf(Interpret(Tokens(s), style)) == StripCsi(s)
    ensures MarkersOf(Interpret(Tokens(s), style)) == OtherSequences(s)
  {
    var cells := Interpret(Tokens(s[n..]), after);
    PastTheSequence(s, n, style);
    FaceReads(s[..n], cells, style);
    SequenceGone(s, n);
    assert s[..n][n - 1] == s[n - 1];
    assert Interpret(Tokens(s), style) == Face(TokenOf(s[..n]), style) + cells;
  }

  lemma SequenceGone(s: string, n: nat)
    requires CsiLength(s) == Some(n)
    ensures StripCsi(s) == StripCsi(s[n..])
    ensures OtherSequences(s) == (if s[n - 1] == 'm' then [] else [s[..n]]) + OtherSequences(s[n..])
  {
  }

  /** Spans that show the meaning of the text spell out what stripping leaves, and mark
      each control sequence that is not for style once, in order. */
  lemma SpansSpellStripped(input: string, spans: seq<Span>)
    requires Cells(spans) == Interpret(Tokens(StripOsc(input)), Plain)
    ensures Texts(spans) == StripAnsi(input)
    ensures Markers(spans) == OtherSequences(StripOsc(input))
  {
    SpansRead(spans);
    MeaningReads(StripOsc(input), Plain);
  }
}
