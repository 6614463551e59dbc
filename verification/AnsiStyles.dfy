/** What a style sequence means (`applySgr` in `apps/web/src/lib/reel.ts`).

    The parameters fall into groups: an extended colour with all that belongs to it, or a
    parameter that stands alone. Each attribute of the style is what the last group that
    speaks of it says, whichever sequence it stood in. The codes are written out here; the
    functions that the interpreter is built from are not used. */
module AnsiStyles {
  import opened Wrappers
  import opened AnsiSpans

  /** `38;5;n`, `48;5;n`, `38;2;r;g;b`, `48;2;r;g;b`, or one parameter. */
  function Group(cs: seq<Code>): (g: seq<Code>)
    requires cs != []
    ensures 1 <= |g| <= |cs|
  {
    if (cs[0] == Some(38) || cs[0] == Some(48)) && |cs| >= 3 && cs[1] == Some(5) then cs[..3]
    else if (cs[0] == Some(38) || cs[0] == Some(48)) && |cs| >= 5 && cs[1] == Some(2) then cs[..5]
    else cs[..1]
  }

  function Groups(cs: seq<Code>): seq<seq<Code>>
    decreases |cs|
  {
    if cs == [] then [] else [Group(cs)] + Groups(cs[|Group(cs)|..])
  }

  /** What a group says of the foreground: nothing, a colour, or that there is none. */
  function Foreground(g: seq<Code>): Option<Option<Colour>> {
    if |g| == 3 then (if g[0] == Some(38) then Some(Some(Ansi256(g[2]))) else None)
    else if |g| == 5 then (if g[0] == Some(38) then Some(Some(Rgb(g[2], g[3], g[4]))) else None)
    else if |g| == 1 && g[0].Some? then ForegroundCode(g[0].value)
    else None
  }

  function ForegroundCode(code: nat): Option<Option<Colour>> {
    if code == 0 || code == 39 then Some(None)
    else if 30 <= code <= 37 then Some(Some(Hex(Ansi16[code - 30])))
    else if 90 <= code <= 97 then Some(Some(Hex(Ansi16[code - 82])))
    else None
  }

  function Background(g: seq<Code>): Option<Option<Colour>> {
    if |g| == 3 then (if g[0] == Some(48) then Some(Some(Ansi256(g[2]))) else None)
    else if |g| == 5 then (if g[0] == Some(48) then Some(Some(Rgb(g[2], g[3], g[4]))) else None)
    else if |g| == 1 && g[0].Some? then BackgroundCode(g[0].value)
    else None
  }

  function BackgroundCode(code: nat): Option<Option<Colour>> {
    if code == 0 || code == 49 then Some(None)
    else if 40 <= code <= 47 then Some(Some(Hex(Ansi16[code - 40])))
    else if 100 <= code <= 107 then Some(Some(Hex(Ansi16[code - 92])))
    else None
  }

  /** What a group says of a flag that `on` sets and `off` clears; `0` clears them all. */
  function Flag(on: nat, off: nat, g: seq<Code>): Option<bool> {
    if |g| == 1 && g[0].Some? then FlagCode(on, off, g[0].value) else None
  }

  function FlagCode(on: nat, off: nat, code: nat): Option<bool> {
    if code == on then Some(true) else if code == off || code == 0 then Some(false) else None
  }

  /** The last thing said, or what was there before. */
  function LastForeground(gs: seq<seq<Code>>, was: Option<Colour>): Option<Colour> {
    if gs == [] then was
    else match Foreground(gs[|gs| - 1])
      case Some(said) => said
      case None => LastForeground(gs[..|gs| - 1], was)
  }

  function LastBackground(gs: seq<seq<Code>>, was: Option<Colour>): Option<Colour> {
    if gs == [] then was
    else match Background(gs[|gs| - 1])
      case Some(said) => said
      case None => LastBackground(gs[..|gs| - 1], was)
  }

  function LastFlag(on: nat, off: nat, gs: seq<seq<Code>>, was: bool): bool {
    if gs == [] then was
    else match Flag(on, off, gs[|gs| - 1])
      case Some(said) => said
      case None => LastFlag(on, off, gs[..|gs| - 1], was)
  }

  /** Each attribute of `after` is the last thing that `gs` says of it, and that of `before`
      if they say nothing. */
  predicate LastWriterWins(gs: seq<seq<Code>>, before: Style, after: Style) {
    && after.color == LastForeground(gs, before.color)
    && after.background == LastBackground(gs, before.background)
    && after.bold == LastFlag(1, 22, gs, before.bold)
    && after.dim == LastFlag(2, 22, gs, before.dim)
    && after.italic == LastFlag(3, 23, gs, before.italic)
    && after.underline == LastFlag(4, 24, gs, before.underline)
  }

  lemma {:induction false} ForegroundSplits(a: seq<seq<Code>>, b: seq<seq<Code>>, was: Option<Colour>)
    ensures LastForeground(a + b, was) == LastForeground(b, LastForeground(a, was))
    decreases |b|
  {
    if b == [] {
      assert a + b == a;
    } else {
      assert (a + b)[..|a + b| - 1] == a + b[..|b| - 1];
      ForegroundSplits(a, b[..|b| - 1], was);
    }
  }

  lemma {:induction false} BackgroundSplits(a: seq<seq<Code>>, b: seq<seq<Code>>, was: Option<Colour>)
    ensures LastBackground(a + b, was) == LastBackground(b, LastBackground(a, was))
    decreases |b|
  {
    if b == [] {
      assert a + b == a;
    } else {
      assert (a + b)[..|a + b| - 1] == a + b[..|b| - 1];
      BackgroundSplits(a, b[..|b| - 1], was);
    }
  }

  lemma {:induction false} FlagSplits(on: nat, off: nat, a: seq<seq<Code>>, b: seq<seq<Code>>, was: bool)
    ensures LastFlag(on, off, a + b, was) == LastFlag(on, off, b, LastFlag(on, off, a, was))
    decreases |b|
  {
    if b == [] {
      assert a + b == a;
    } else {
      assert (a + b)[..|a + b| - 1] == a + b[..|b| - 1];
      FlagSplits(on, off, a, b[..|b| - 1], was);
    }
  }

  /** What the groups `a` and then `b` say. */
  lemma WriterSplits(a: seq<seq<Code>>, b: seq<seq<Code>>, before: Style, between: Style, after: Style)
    requires LastWriterWins(a, before, between) && LastWriterWins(b, between, after)
    ensures LastWriterWins(a + b, before, after)
  {
    ForegroundSplits(a, b, before.color);
    BackgroundSplits(a, b, before.background);
    FlagSplits(1, 22, a, b, before.bold);
    FlagSplits(2, 22, a, b, before.dim);
    FlagSplits(3, 23, a, b, before.italic);
    FlagSplits(4, 24, a, b, before.underline);
  }

  function Or<T>(said: Option<T>, was: T): T {
    match said case Some(v) => v case None => was
  }

  lemma OneWriter(g: seq<Code>, before: Style, after: Style)
    requires after.color == Or(Foreground(g), before.color) && after.background == Or(Background(g), before.background)
    requires after.bold == Or(Flag(1, 22, g), before.bold) && after.dim == Or(Flag(2, 22, g), before.dim)
    requires after.italic == Or(Flag(3, 23, g), before.italic) && after.underline == Or(Flag(4, 24, g), before.underline)
    ensures LastWriterWins([g], before, after)
  {
    OneSays(g, before.color, before.background);
    OneFlag(1, 22, g, before.bold);
    OneFlag(2, 22, g, before.dim);
    OneFlag(3, 23, g, before.italic);
    OneFlag(4, 24, g, before.underline);
  }

  lemma OneSays(g: seq<Code>, color: Option<Colour>, background: Option<Colour>)
    ensures LastForeground([g], color) == Or(Foreground(g), color)
    ensures LastBackground([g], background) == Or(Background(g), background)
  {
    assert [g][..0] == [];
  }

  lemma OneFlag(on: nat, off: nat, g: seq<Code>, was: bool)
    ensures LastFlag(on, off, [g], was) == Or(Flag(on, off, g), was)
  {
    assert [g][..0] == [];
  }

  lemma AloneIsTaken(s: Style, code: nat)
    ensures LastWriterWins([[Some(code)]], s, Simple(s, code))
  {
    AloneForeground(s, code);
    AloneBackground(s, code);
    AloneWeight(s, code);
    AloneStrokes(s, code);
    OneWriter([Some(code)], s, Simple(s, code));
  }

  lemma AloneForeground(s: Style, code: nat)
    ensures Simple(s, code).color == Or(ForegroundCode(code), s.color)
  {
  }

  lemma AloneBackground(s: Style, code: nat)
    ensures Simple(s, code).background == Or(BackgroundCode(code), s.background)
  {
  }

  lemma AloneWeight(s: Style, code: nat)
    ensures Simple(s, code).bold == Or(FlagCode(1, 22, code), s.bold)
    ensures Simple(s, code).dim == Or(FlagCode(2, 22, code), s.dim)
  {
  }

  lemma AloneStrokes(s: Style, code: nat)
    ensures Simple(s, code).italic == Or(FlagCode(3, 23, code), s.italic)
    ensures Simple(s, code).underline == Or(FlagCode(4, 24, code), s.underline)
  {
  }

  lemma NothingIsTaken(s: Style)
    ensures LastWriterWins([[None]], s, s)
  {
    OneWriter([None], s, s);
  }

  lemma ColourIsTaken(s: Style, g: seq<Code>, code: nat, c: Colour)
    requires (|g| == 3 && c == Ansi256(g[2])) || (|g| == 5 && c == Rgb(g[2], g[3], g[4]))
    requires g[0] == Some(code) && (code == 38 || code == 48)
    ensures LastWriterWins([g], s, WithColour(s, code, c))
  {
    OneWriter(g, s, WithColour(s, code, c));
  }

  lemma GroupIsTaken(s: Style, cs: seq<Code>)
    requires cs != []
    ensures |Group(cs)| == Width(cs) && LastWriterWins([Group(cs)], s, Effect(s, cs))
  {
    var g := Group(cs);
    if |g| == 1 {
      assert g == [cs[0]];
      if cs[0].Some? { AloneIsTaken(s, cs[0].value); } else { NothingIsTaken(s); }
    } else if |g| == 3 {
      ColourIsTaken(s, g, cs[0].value, Ansi256(cs[2]));
    } else {
      ColourIsTaken(s, g, cs[0].value, Rgb(cs[2], cs[3], cs[4]));
    }
  }

  /** After a whole list of parameters each attribute is what the last group that speaks of it
      says. */
  lemma {:induction false} AppliesLastWriter(s: Style, cs: seq<Code>)
    ensures LastWriterWins(Groups(cs), s, Apply(s, cs))
    decreases |cs|
  {
    if cs != [] {
      GroupIsTaken(s, cs);
      AppliesLastWriter(Effect(s, cs), cs[Width(cs)..]);
      WriterSplits([Group(cs)], Groups(cs[Width(cs)..]), s, Effect(s, cs), Apply(s, cs));
    }
  }

  /** The groups of all style sequences of a text, in order. */
  function AllGroups(ts: seq<Token>): seq<seq<Code>> {
    if ts == [] then []
    else (match ts[0]
          case Sgr(params) => Groups(Codes(params))
          case _ => []) + AllGroups(ts[1..])
  }

  /** A character is shown with what the last group before it that speaks of an attribute said,
      in whichever sequence. */
  lemma {:induction false} ShownLastWriter(ts: seq<Token>, style: Style)
    ensures LastWriterWins(AllGroups(ts), style, StyleAfterAll(ts, style))
  {
    if ts != [] {
      var next := StyleAfter(ts[0], style);
      var first := match ts[0] case Sgr(params) => Groups(Codes(params)) case _ => [];
      if ts[0].Sgr? {
        AppliesLastWriter(style, Codes(ts[0].params));
      }
      ShownLastWriter(ts[1..], next);
      WriterSplits(first, AllGroups(ts[1..]), style, next, StyleAfterAll(ts, style));
    }
  }

  // The palette.

  /** The first sixteen colours of the palette are those that single parameters name. */
  lemma PaletteStartsAlike(s: Style, n: nat)
    requires n < 16
    ensures var alone := if n < 8 then n else n + 52;
            && Apply(s, [Some(38), Some(5), Some(n)]) == Apply(s, [Some(30 + alone)])
            && Apply(s, [Some(48), Some(5), Some(n)]) == Apply(s, [Some(40 + alone)])
  {
    var alone := if n < 8 then n else n + 52;
    ApplyOne(s, Some(30 + alone));
    ApplyOne(s, Some(40 + alone));
    ExtendedAlone(s, 38, n);
    ExtendedAlone(s, 48, n);
  }

  lemma ExtendedAlone(s: Style, code: nat, n: nat)
    requires code == 38 || code == 48
    ensures Apply(s, [Some(code), Some(5), Some(n)]) == WithColour(s, code, Ansi256(Some(n)))
  {
    var cs := [Some(code), Some(5), Some(n)];
    assert cs[3..] == [];
  }

  /** The last colours are greys in steps of ten, from 8 on. */
  lemma Greys(level: nat)
    ensures var v := Some(8 + 10 * level); Ansi256(Some(232 + level)) == Rgb(v, v, v)
  {
  }

  // The parameters as text.

  function Digits(n: nat): (s: string)
    ensures s != "" && forall i | 0 <= i < |s| :: '0' <= s[i] <= '9'
  {
    if n < 10 then [LastDigit(n)] else Digits(n / 10) + [LastDigit(n)]
  }

  function LastDigit(n: nat): (d: char)
    ensures '0' <= d <= '9' && (d - '0') as nat == n % 10
  {
    '0' + (n % 10) as char
  }

  lemma {:induction false} DecimalSnoc(s: string, d: char, acc: nat)
    requires '0' <= d <= '9'
    ensures Decimal(s + [d], acc)
         == match Decimal(s, acc) { case None => None case Some(n) => Some(n * 10 + (d - '0') as nat) }
  {
    if s == "" {
      assert ("" + [d])[1..] == "";
    } else {
      assert (s + [d])[1..] == s[1..] + [d];
      if '0' <= s[0] <= '9' {
        DecimalSnoc(s[1..], d, acc * 10 + (s[0] - '0') as nat);
      }
    }
  }

  /** A number written in decimal is read back. */
  lemma {:induction false} NumberReadsBack(n: nat)
    ensures Number(Digits(n)) == Some(n)
  {
    var d := LastDigit(n);
    if n < 10 {
      DecimalSnoc("", d, 0);
      assert "" + [d] == [d];
    } else {
      NumberReadsBack(n / 10);
      DecimalSnoc(Digits(n / 10), d, 0);
    }
  }

  /** A part is a number exactly when it has nothing but digits, and the empty part is zero. */
  lemma {:induction false} NumbersAreDigits(part: string, acc: nat)
    ensures Decimal(part, acc).Some? <==> forall i | 0 <= i < |part| :: '0' <= part[i] <= '9'
    ensures Number("") == Some(0)
  {
    if part != "" && '0' <= part[0] <= '9' {
      NumbersAreDigits(part[1..], acc * 10 + (part[0] - '0') as nat);
      assert forall i | 1 <= i < |part| :: part[i] == part[1..][i - 1];
    }
  }

  /** The parameters of a sequence, written out. */
  function Written(ns: seq<nat>): string
    requires ns != []
  {
    if |ns| == 1 then Digits(ns[0]) else Digits(ns[0]) + ";" + Written(ns[1..])
  }

  lemma {:induction false} SplitsAt(part: string, rest: string)
    requires forall i | 0 <= i < |part| :: part[i] != ';'
    ensures Split(part + ";" + rest) == [part] + Split(rest)
  {
    var s := part + ";" + rest;
    if part == "" {
      assert s[1..] == rest;
    } else {
      assert s[1..] == part[1..] + ";" + rest;
      SplitsAt(part[1..], rest);
      assert part == [part[0]] + part[1..];
    }
  }

  lemma {:induction false} SplitsNowhere(part: string)
    requires forall i | 0 <= i < |part| :: part[i] != ';'
    ensures Split(part) == [part]
  {
    if part != "" {
      SplitsNowhere(part[1..]);
      assert part == [part[0]] + part[1..];
    }
  }

  /** Numbers written with semicolons between them are read back, one parameter each. */
  lemma {:induction false} CodesReadBack(ns: seq<nat>)
    requires ns != []
    ensures |Codes(Written(ns))| == |ns| && forall i | 0 <= i < |ns| :: Codes(Written(ns))[i] == Some(ns[i])
  {
    NumberReadsBack(ns[0]);
    if |ns| == 1 {
      SplitsNowhere(Digits(ns[0]));
    } else {
      CodesReadBack(ns[1..]);
      SplitsAt(Digits(ns[0]), Written(ns[1..]));
      CodesFirst(Digits(ns[0]), Written(ns[1..]));
      assert forall i | 1 <= i < |ns| :: ns[i] == ns[1..][i - 1];
    }
  }

  lemma CodesFirst(part: string, rest: string)
    requires Split(part + ";" + rest) == [part] + Split(rest)
    ensures Codes(part + ";" + rest) == [Number(part)] + Codes(rest)
  {
    assert ([part] + Split(rest))[1..] == Split(rest);
  }
}
