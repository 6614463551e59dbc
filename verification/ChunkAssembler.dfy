/** Reassembly of a terminal stream into lines (`adapters/base.py`).

    A read returns whatever was available, so the same output may arrive in any
    pieces. The results say exactly when the units do not depend on the pieces, and
    what is never lost even when they do. */
module ChunkAssembler {
  import opened PyText
  import opened Wrappers

  predicate NoBreak(s: string) {
    forall j | 0 <= j < |s| :: s[j] != '\n'
  }

  function BreakFrom(s: string, from: nat): (i: nat)
    requires from <= |s|
    ensures from <= i <= |s|
    ensures i < |s| ==> s[i] == '\n'
    ensures forall j | from <= j < i :: s[j] != '\n'
    decreases |s| - from
  {
    if from == |s| || s[from] == '\n' then from else BreakFrom(s, from + 1)
  }

  /** Where the first line of `s` ends. */
  function Break(s: string): (i: nat)
    ensures i <= |s|
    ensures i < |s| ==> s[i] == '\n'
    ensures forall j | 0 <= j < i :: s[j] != '\n'
  {
    BreakFrom(s, 0)
  }

  /** The complete lines of `s`, without their line breaks ... */
  function Lines(s: string): seq<string> {
    var i := Break(s);
    if i == |s| then [] else [s[..i]] + Lines(s[i + 1..])
  }

  /** ... and what follows the last one. */
  function Rest(s: string): (r: string)
    ensures NoBreak(r)
  {
    var i := Break(s);
    if i == |s| then s else Rest(s[i + 1..])
  }

  function Shown(line: string): seq<string> {
    if IsBlank(line) then [] else [line]
  }

  function NonBlank(ls: seq<string>): seq<string> {
    if ls == [] then [] else Shown(ls[0]) + NonBlank(ls[1..])
  }

  /** What reading the stream line by line would give. */
  function Expected(s: string): seq<string> {
    NonBlank(Lines(s)) + Shown(Rest(s))
  }

  // ---------------------------------------------------------------------
  // The assembler
  // ---------------------------------------------------------------------

  /** The units released by one read, and the text kept for the next. */
  function Units(lineMode: bool, max: nat, buffer: string, text: string): seq<string> {
    if text == "" then []
    else if !lineMode then [text]
    else
      var rest := Rest(buffer + text);
      NonBlank(Lines(buffer + text)) + if |rest| > max then [rest] else []
  }

  function Kept(lineMode: bool, max: nat, buffer: string, text: string): string {
    if text == "" || !lineMode then buffer
    else
      var rest := Rest(buffer + text);
      if |rest| > max then "" else rest
  }

  class Assembler {
    const lineMode: bool
    const maxBuffer: nat
    var buffer: string

    constructor (lineMode: bool, maxBuffer: nat)
      ensures this.lineMode == lineMode && this.maxBuffer == maxBuffer && buffer == ""
    {
      this.lineMode, this.maxBuffer, buffer := lineMode, maxBuffer, "";
    }

    method Feed(text: string) returns (units: seq<string>)
      modifies this
      ensures units == Units(lineMode, maxBuffer, old(buffer), text)
      ensures buffer == Kept(lineMode, maxBuffer, old(buffer), text)
      ensures |old(buffer)| <= maxBuffer ==> |buffer| <= maxBuffer
    {
      if text == "" {
        return [];
      }
      if !lineMode {
        return [text];
      }
      buffer := buffer + text;
      units := [];
      while Break(buffer) < |buffer|
        invariant units + NonBlank(Lines(buffer)) == NonBlank(Lines(old(buffer) + text))
        invariant Rest(buffer) == Rest(old(buffer) + text)
        decreases |buffer|
      {
        var i := Break(buffer);
        var line := buffer[..i];
        ghost var later := NonBlank(Lines(buffer[i + 1..]));
        assert NonBlank(Lines(buffer)) == Shown(line) + later;
        Assoc(units, Shown(line), later);
        buffer := buffer[i + 1..];
        if !IsBlank(line) {
          units := units + [line];
        }
      }
      assert units == NonBlank(Lines(old(buffer) + text)) by { assert Lines(buffer) == []; }
      if |buffer| > maxBuffer {
        units := units + [buffer];
        buffer := "";
      }
    }

    method Flush() returns (units: seq<string>)
      modifies this
      ensures units == Shown(old(buffer)) && buffer == ""
    {
      if buffer == "" {
        return [];
      }
      var remainder := buffer;
      buffer := "";
      units := if !IsBlank(remainder) then [remainder] else [];
    }
  }

  /** Everything released by some reads and the flush that ends the stream. */
  function Run(lineMode: bool, max: nat, buffer: string, chunks: seq<string>): seq<string>
    decreases |chunks|
  {
    if chunks == [] then Shown(buffer)
    else
      Units(lineMode, max, buffer, chunks[0])
      + Run(lineMode, max, Kept(lineMode, max, buffer, chunks[0]), chunks[1..])
  }

  function Concat(chunks: seq<string>): string {
    if chunks == [] then "" else chunks[0] + Concat(chunks[1..])
  }

  /** The reader loop around the assembler. */
  method ReadStream(lineMode: bool, max: nat, chunks: seq<string>) returns (units: seq<string>)
    ensures units == Run(lineMode, max, "", chunks)
  {
    var assembler := new Assembler(lineMode, max);
    units := [];
    var i := 0;
    assert chunks[0..] == chunks;
    while i < |chunks|
      invariant 0 <= i <= |chunks|
      invariant assembler.lineMode == lineMode && assembler.maxBuffer == max
      invariant units + Run(lineMode, max, assembler.buffer, chunks[i..]) == Run(lineMode, max, "", chunks)
    {
      ghost var before, kept := units, Kept(lineMode, max, assembler.buffer, chunks[i]);
      ghost var first := Units(lineMode, max, assembler.buffer, chunks[i]);
      assert chunks[i..][1..] == chunks[i + 1..];
      Assoc(before, first, Run(lineMode, max, kept, chunks[i + 1..]));
      var fed := assembler.Feed(chunks[i]);
      units := units + fed;
      i := i + 1;
    }
    var last := assembler.Flush();
    units := units + last;
  }

  // ---------------------------------------------------------------------
  // When the pieces do not matter
  // ---------------------------------------------------------------------

  /** A line the assembler can hold, or one character more if it is not blank: then it
      is released whole, just before its line break is seen. */
  predicate Fits(max: nat, line: string) {
    |line| <= max || (|line| == max + 1 && !IsBlank(line))
  }

  predicate AllFit(max: nat, s: string) {
    var i := Break(s);
    Fits(max, s[..i]) && (i < |s| ==> AllFit(max, s[i + 1..]))
  }

  lemma BreakIs(s: string, n: nat)
    requires n <= |s| && (n < |s| ==> s[n] == '\n') && forall j | 0 <= j < n :: s[j] != '\n'
    ensures Break(s) == n
  {
  }

  /** The first line of `a + b` when `a` has a line break, and when it has none. */
  lemma BreakOfConcat(a: string, b: string)
    ensures Break(a) < |a| ==> Break(a + b) == Break(a)
    ensures Break(a) == |a| ==> Break(a + b) == |a| + Break(b)
  {
    var s := a + b;
    if Break(a) < |a| {
      BreakIs(s, Break(a));
    } else {
      forall j | 0 <= j < |a| + Break(b) ensures s[j] != '\n' {
        assert j < |a| ==> s[j] == a[j];
        assert j >= |a| ==> s[j] == b[j - |a|];
      }
      BreakIs(s, |a| + Break(b));
    }
  }

  /** Complete lines can be taken off the front. */
  lemma {:induction false} ExpectedSplits(a: string, b: string)
    ensures Expected(a + b) == NonBlank(Lines(a)) + Expected(Rest(a) + b)
    decreases |a|
  {
    BreakOfConcat(a, b);
    var i := Break(a);
    if i == |a| {
      assert [] + Expected(a + b) == Expected(a + b);
      return;
    }
    var line, tail := a[..i], a[i + 1..];
    FirstLineStays(a, b, i);
    ExpectedSplits(tail, b);
    CutExpected(a + b, line, tail + b);
    CutLines(a, line, tail);
    Assoc(Shown(line), NonBlank(Lines(tail)), Expected(Rest(tail) + b));
  }

  lemma FirstLineStays(a: string, b: string, i: nat)
    requires i < |a| && Break(a) == Break(a + b) == i
    ensures Cut(a, a[..i], a[i + 1..]) && Cut(a + b, a[..i], a[i + 1..] + b)
  {
  }

  lemma {:induction false} FitSplits(max: nat, a: string, b: string)
    requires AllFit(max, a + b)
    ensures AllFit(max, Rest(a) + b)
    decreases |a|
  {
    BreakOfConcat(a, b);
    var i := Break(a);
    if i < |a| {
      FirstLineStays(a, b, i);
      CutFits(max, a + b, a[..i], a[i + 1..] + b);
      FitSplits(max, a[i + 1..], b);
    }
  }

  lemma ExpectedCons(s: string)
    requires Break(s) < |s|
    ensures Expected(s) == Shown(s[..Break(s)]) + Expected(s[Break(s) + 1..])
  {
    var tail := s[Break(s) + 1..];
    Assoc(Shown(s[..Break(s)]), NonBlank(Lines(tail)), Shown(Rest(tail)));
  }

  lemma ExpectedOfPart(s: string)
    requires NoBreak(s)
    ensures Expected(s) == Shown(s) && Lines(s) == [] && Rest(s) == s
  {
    BreakIs(s, |s|);
  }

  lemma RunCons(max: nat, buffer: string, chunks: seq<string>)
    requires chunks != [] && chunks[0] != ""
    ensures var b := buffer + chunks[0];
            Run(true, max, buffer, chunks)
            == if |Rest(b)| > max then NonBlank(Lines(b)) + ([Rest(b)] + Run(true, max, "", chunks[1..]))
               else NonBlank(Lines(b)) + Run(true, max, Rest(b), chunks[1..])
  {
    var b := buffer + chunks[0];
    if |Rest(b)| > max {
      Assoc(NonBlank(Lines(b)), [Rest(b)], Run(true, max, "", chunks[1..]));
    } else {
      assert NonBlank(Lines(b)) + [] == NonBlank(Lines(b));
    }
  }

  lemma RunSkipsEmpty(max: nat, buffer: string, chunks: seq<string>)
    requires chunks != [] && chunks[0] == ""
    ensures Run(true, max, buffer, chunks) == Run(true, max, buffer, chunks[1..])
    ensures Concat(chunks) == Concat(chunks[1..])
  {
  }

  lemma LastPart(max: nat, buffer: string)
    requires NoBreak(buffer)
    ensures Run(true, max, buffer, []) == Expected(buffer + Concat([]))
  {
    assert buffer + "" == buffer;
    ExpectedOfPart(buffer);
  }

  /** Every chunking of a stream that fits gives the lines of the stream. */
  lemma {:induction false} FittingStream(max: nat, buffer: string, chunks: seq<string>)
    requires NoBreak(buffer) && |buffer| <= max && AllFit(max, buffer + Concat(chunks))
    ensures Run(true, max, buffer, chunks) == Expected(buffer + Concat(chunks))
    decreases |chunks|
  {
    if chunks == [] {
      LastPart(max, buffer);
    } else if chunks[0] == "" {
      RunSkipsEmpty(max, buffer, chunks);
      FittingStream(max, buffer, chunks[1..]);
    } else {
      var b, more := buffer + chunks[0], Concat(chunks[1..]);
      Assoc(buffer, chunks[0], more);
      FitSplits(max, b, more);
      if |Rest(b)| <= max {
        FittingStream(max, Rest(b), chunks[1..]);
        FittingKept(max, buffer, chunks, b, more);
      } else {
        OverlongLine(max, Rest(b), more);
        assert "" + more == more;
        FittingStream(max, "", chunks[1..]);
        FittingOverrun(max, buffer, chunks, b, more);
      }
    }
  }

  lemma FittingKept(max: nat, buffer: string, chunks: seq<string>, b: string, more: string)
    requires chunks != [] && chunks[0] != "" && b == buffer + chunks[0] && |Rest(b)| <= max
    requires Run(true, max, Rest(b), chunks[1..]) == Expected(Rest(b) + more)
    ensures Run(true, max, buffer, chunks) == Expected(b + more)
  {
    RunCons(max, buffer, chunks);
    ExpectedSplits(b, more);
  }

  lemma FittingOverrun(max: nat, buffer: string, chunks: seq<string>, b: string, more: string)
    requires chunks != [] && chunks[0] != "" && b == buffer + chunks[0] && |Rest(b)| > max
    requires Run(true, max, "", chunks[1..]) == Expected(more)
    requires Expected(Rest(b) + more) == [Rest(b)] + Expected(more)
    ensures Run(true, max, buffer, chunks) == Expected(b + more)
  {
    RunCons(max, buffer, chunks);
    ExpectedSplits(b, more);
  }

  /** `s` is `line`, a line break and `tail`. */
  ghost predicate Cut(s: string, line: string, tail: string) {
    |line| < |s| && Break(s) == |line| && s[..|line|] == line && s[|line| + 1..] == tail
  }

  lemma CutAt(line: string, more: string)
    requires NoBreak(line) && more != "" && more[0] == '\n'
    ensures Cut(line + more, line, more[1..])
  {
    var s := line + more;
    assert forall j | 0 <= j < |line| :: s[j] == line[j];
    BreakIs(s, |line|);
  }

  lemma CutExpected(s: string, line: string, tail: string)
    requires Cut(s, line, tail)
    ensures Expected(s) == Shown(line) + Expected(tail)
  {
    ExpectedCons(s);
  }

  lemma CutLines(s: string, line: string, tail: string)
    requires Cut(s, line, tail)
    ensures NonBlank(Lines(s)) == Shown(line) + NonBlank(Lines(tail)) && Rest(s) == Rest(tail)
  {
    assert Lines(s) == [line] + Lines(tail);
    assert ([line] + Lines(tail))[1..] == Lines(tail);
  }

  lemma CutFits(max: nat, s: string, line: string, tail: string)
    requires Cut(s, line, tail)
    ensures AllFit(max, s) <==> Fits(max, line) && AllFit(max, tail)
  {
  }

  /** A line released one character over the bound was complete. */
  lemma OverlongLine(max: nat, line: string, more: string)
    requires NoBreak(line) && |line| > max && AllFit(max, line + more)
    ensures AllFit(max, more) && Expected(line + more) == [line] + Expected(more)
  {
    if more == "" {
      LastLineFits(max, line);
      assert line + more == line;
      ExpectedOfPart("");
    } else {
      FollowsAtOnce(max, line, more);
      CutAt(line, more);
      OverlongCut(max, line + more, line, more, more[1..]);
    }
  }

  lemma LastLineFits(max: nat, line: string)
    requires NoBreak(line) && |line| > max && AllFit(max, line)
    ensures Expected(line) == [line]
  {
    BreakIs(line, |line|);
    assert line[..|line|] == line;
    ExpectedOfPart(line);
  }

  lemma OverlongCut(max: nat, s: string, line: string, more: string, tail: string)
    requires Cut(s, line, tail) && |line| > max && AllFit(max, s)
    requires more != "" && more[0] == '\n' && more[1..] == tail
    ensures AllFit(max, more) && Expected(s) == [line] + Expected(more)
  {
    CutExpected(s, line, tail);
    CutFits(max, s, line, tail);
    BlankLineFirst(max, more, tail);
  }

  lemma BlankLineFirst(max: nat, more: string, tail: string)
    requires more != "" && more[0] == '\n' && more[1..] == tail
    ensures Expected(more) == Expected(tail) && (AllFit(max, more) <==> AllFit(max, tail))
  {
    CutAt("", more);
    assert "" + more == more;
    CutExpected(more, "", tail);
    CutFits(max, more, "", tail);
  }

  /** The line that fits in `max + 1` characters ends there. */
  lemma FollowsAtOnce(max: nat, line: string, more: string)
    requires NoBreak(line) && |line| > max && more != "" && AllFit(max, line + more)
    ensures more[0] == '\n' && |line| == max + 1
  {
    BreakIs(line, |line|);
    BreakOfConcat(line, more);
  }

  function Letters(s: string): (cs: seq<string>)
    ensures |cs| == |s| && forall i | 0 <= i < |s| :: cs[i] == [s[i]]
  {
    seq(|s|, i requires 0 <= i < |s| => [s[i]])
  }

  lemma {:induction false} LettersConcat(s: string)
    ensures Concat(Letters(s)) == s
  {
    if s != "" {
      LettersConcat(s[1..]);
      assert Letters(s)[1..] == Letters(s[1..]);
    }
  }

  lemma FeedBreak(max: nat, buffer: string)
    requires NoBreak(buffer)
    ensures Units(true, max, buffer, ['\n']) == Shown(buffer) && Kept(true, max, buffer, ['\n']) == ""
  {
    CutAt(buffer, ['\n']);
    ExpectedOfPart("");
    CutLines(buffer + ['\n'], buffer, "");
  }

  lemma FeedLetter(max: nat, buffer: string, c: char)
    requires NoBreak(buffer) && c != '\n'
    ensures var b := buffer + [c];
            Units(true, max, buffer, [c]) == (if |b| > max then [b] else [])
            && Kept(true, max, buffer, [c]) == (if |b| > max then "" else b)
  {
    ExpectedOfPart(buffer + [c]);
  }

  lemma RunLetters(max: nat, buffer: string, s: string)
    requires s != ""
    ensures Run(true, max, buffer, Letters(s))
         == Units(true, max, buffer, [s[0]]) + Run(true, max, Kept(true, max, buffer, [s[0]]), Letters(s[1..]))
  {
    assert Letters(s)[0] == [s[0]] && Letters(s)[1..] == Letters(s[1..]);
  }

  /** What single characters give for a stream, by the length of its first line. */
  function FirstLineRun(max: nat, whole: string): seq<string> {
    var i := Break(whole);
    if i > max then CutShort(max, whole)
    else if i < |whole| then Shown(whole[..i]) + Run(true, max, "", Letters(whole[i + 1..]))
    else Shown(whole)
  }

  function CutShort(max: nat, whole: string): seq<string>
    requires |whole| > max
  {
    [whole[..max + 1]] + Run(true, max, "", Letters(whole[max + 1..]))
  }

  /** One character at a time, the first line of what is buffered and what is to come is
      released whole if it fits, and cut at `max + 1` if it does not. */
  lemma {:induction false} LetterByLetter(max: nat, buffer: string, s: string, whole: string)
    requires NoBreak(buffer) && |buffer| <= max && whole == buffer + s
    ensures Run(true, max, buffer, Letters(s)) == FirstLineRun(max, whole)
    decreases |s|
  {
    if s == "" {
      assert whole == buffer;
      BreakIs(buffer, |buffer|);
    } else {
      var c, tail := s[0], s[1..];
      RunLetters(max, buffer, s);
      OneLetterOn(buffer, s);
      if c == '\n' {
        LetterIsBreak(max, buffer, tail, whole);
      } else if |buffer| == max {
        LetterOverflows(max, buffer, c, tail, whole);
      } else {
        LetterKept(max, buffer, c, tail);
        LetterByLetter(max, buffer + [c], tail, whole);
      }
    }
  }

  lemma OneLetterOn(buffer: string, s: string)
    requires s != ""
    ensures buffer + s == (buffer + [s[0]]) + s[1..]
  {
  }

  lemma LetterKept(max: nat, buffer: string, c: char, tail: string)
    requires NoBreak(buffer) && |buffer| < max && c != '\n'
    ensures NoBreak(buffer + [c])
    ensures Units(true, max, buffer, [c]) + Run(true, max, Kept(true, max, buffer, [c]), Letters(tail))
         == Run(true, max, buffer + [c], Letters(tail))
  {
    FeedLetter(max, buffer, c);
  }

  lemma LetterIsBreak(max: nat, buffer: string, tail: string, whole: string)
    requires NoBreak(buffer) && |buffer| <= max && whole == (buffer + ['\n']) + tail
    ensures Units(true, max, buffer, ['\n']) + Run(true, max, Kept(true, max, buffer, ['\n']), Letters(tail))
         == FirstLineRun(max, whole)
  {
    FeedBreak(max, buffer);
    BreakIs(whole, |buffer|);
    assert whole[..|buffer|] == buffer && whole[|buffer| + 1..] == tail;
  }

  lemma LetterOverflows(max: nat, buffer: string, c: char, tail: string, whole: string)
    requires NoBreak(buffer) && |buffer| == max && c != '\n' && whole == (buffer + [c]) + tail
    ensures Units(true, max, buffer, [c]) + Run(true, max, Kept(true, max, buffer, [c]), Letters(tail))
         == FirstLineRun(max, whole)
  {
    var b := buffer + [c];
    FeedLetter(max, buffer, c);
    BreakIs(b, |b|);
    BreakOfConcat(b, tail);
    assert whole[..max + 1] == b && whole[max + 1..] == tail;
  }

  lemma {:induction false} ExpectedNotBlank(s: string)
    ensures forall i | 0 <= i < |Expected(s)| :: !IsBlank(Expected(s)[i])
    decreases |s|
  {
    if Break(s) < |s| {
      ExpectedCons(s);
      ExpectedNotBlank(s[Break(s) + 1..]);
    }
  }

  lemma EmptyLineLetters(max: nat, more: string)
    requires more != "" && more[0] == '\n'
    ensures Run(true, max, "", Letters(more)) == Run(true, max, "", Letters(more[1..]))
  {
    RunLetters(max, "", more);
    FeedBreak(max, "");
  }

  /** A line that fits comes out whole in single characters, too. */
  lemma FittingLineLetters(max: nat, s: string, line: string, tail: string)
    requires Cut(s, line, tail) && Fits(max, line)
    ensures Run(true, max, "", Letters(s)) == Shown(line) + Run(true, max, "", Letters(tail))
  {
    FromTheStart(max, s);
    FirstLineOf(max, s, line, tail);
    if |line| > max {
      CutShortAtBreak(max, s, line, tail);
    }
  }

  lemma FromTheStart(max: nat, s: string)
    ensures Run(true, max, "", Letters(s)) == FirstLineRun(max, s)
  {
    assert "" + s == s;
    LetterByLetter(max, "", s, s);
  }

  lemma FirstLineOf(max: nat, s: string, line: string, tail: string)
    requires Cut(s, line, tail)
    ensures FirstLineRun(max, s)
         == if |line| > max then CutShort(max, s) else Shown(line) + Run(true, max, "", Letters(tail))
  {
  }

  lemma CutShortAtBreak(max: nat, s: string, line: string, tail: string)
    requires Cut(s, line, tail) && |line| == max + 1 && !IsBlank(line)
    ensures CutShort(max, s) == Shown(line) + Run(true, max, "", Letters(tail))
  {
    var more := s[max + 1..];
    assert more[0] == '\n' && more[1..] == tail;
    EmptyLineLetters(max, more);
  }

  /** The first unit of a stream whose first line does not fit is not its first
      non-blank line. */
  lemma LongLineLetters(max: nat, s: string)
    requires !Fits(max, s[..Break(s)])
    ensures Run(true, max, "", Letters(s)) != Expected(s)
  {
    FromTheStart(max, s);
    WrongFirstUnit(max, s, Run(true, max, "", Letters(s)));
  }

  lemma WrongFirstUnit(max: nat, s: string, units: seq<string>)
    requires !Fits(max, s[..Break(s)])
    requires units != [] && units[0] == s[..max + 1]
    ensures units != Expected(s)
  {
    var i := Break(s);
    var line := s[..i];
    if IsBlank(line) {
      ExpectedNotBlank(s);
      assert forall j | 0 <= j < |units[0]| :: units[0][j] == line[j];
    } else if i < |s| {
      ExpectedCons(s);
      assert Expected(s)[0] == line;
    } else {
      assert s == line;
      ExpectedOfPart(s);
    }
  }

  /** A stream that does not fit is not read correctly in single characters. */
  lemma {:induction false} OverflowShows(max: nat, s: string)
    requires !AllFit(max, s)
    ensures Run(true, max, "", Letters(s)) != Expected(s)
    decreases |s|
  {
    var i := Break(s);
    if Fits(max, s[..i]) {
      OverflowShows(max, s[i + 1..]);
      ShowsLater(max, s, s[..i], s[i + 1..]);
    } else {
      LongLineLetters(max, s);
    }
  }

  lemma ShowsLater(max: nat, s: string, line: string, tail: string)
    requires Cut(s, line, tail) && Fits(max, line) && Run(true, max, "", Letters(tail)) != Expected(tail)
    ensures Run(true, max, "", Letters(s)) != Expected(s)
  {
    CutExpected(s, line, tail);
    FittingLineLetters(max, s, line, tail);
    CancelPrefix(Shown(line), Run(true, max, "", Letters(tail)), Expected(tail));
  }

  lemma CancelPrefix<T>(p: seq<T>, a: seq<T>, b: seq<T>)
    ensures p + a == p + b <==> a == b
  {
    assert (p + a)[|p|..] == a && (p + b)[|p|..] == b;
  }

  /** Exactly: every chunking of the stream yields its non-blank lines if and only if
      every line fits. */
  lemma ChunkingIndependentExactly(max: nat, stream: string)
    ensures AllFit(max, stream)
       <==> forall chunks :: Concat(chunks) == stream ==> Run(true, max, "", chunks) == Expected(stream)
  {
    if AllFit(max, stream) {
      forall chunks | Concat(chunks) == stream
        ensures Run(true, max, "", chunks) == Expected(stream)
      {
        assert "" + stream == stream;
        FittingStream(max, "", chunks);
      }
    } else {
      LettersConcat(stream);
      OverflowShows(max, stream);
    }
  }

  // ---------------------------------------------------------------------
  // What is kept whatever the pieces and the bound
  // ---------------------------------------------------------------------

  /** What may be lost between two units: blank segments, each with its line break. */
  predicate Gap(g: string) {
    IsBlank(g) && (g != "" ==> g[|g| - 1] == '\n')
  }

  /** A unit ends where its line ends, or where the buffer ran over. */
  predicate EndsWell(max: nat, u: string, rest: string) {
    rest == "" || rest[0] == '\n' || |u| > max
  }

  /** `units` are contiguous pieces of lines of `s`, in order. What lies before each of them is a
      gap, and what follows the last one is blank: nothing inside a piece is lost. */
  predicate Woven(max: nat, s: string, units: seq<string>)
    decreases |units|
  {
    if units == [] then IsBlank(s)
    else exists i | 0 <= i <= |s| :: Gap(s[..i]) && Follows(max, s[i..], units)
  }

  /** The first unit starts `s`, and the others are woven into what follows it. */
  predicate Follows(max: nat, s: string, units: seq<string>)
    requires units != []
    decreases |units|, 0
  {
    var u := units[0];
    && NoBreak(u) && |u| <= |s| && s[..|u|] == u
    && EndsWell(max, u, s[|u|..]) && Woven(max, s[|u|..], units[1..])
  }

  lemma WovenUnit(max: nat, u: string, rest: string, units: seq<string>)
    requires Woven(max, rest, units) && NoBreak(u) && EndsWell(max, u, rest)
    ensures Woven(max, u + rest, [u] + units)
  {
    var s, all := u + rest, [u] + units;
    assert s[..|u|] == u && s[|u|..] == rest && all[1..] == units;
    assert s[..0] == "" && s[0..] == s;
    assert Gap(s[..0]) && Follows(max, s[0..], all);
  }

  lemma GapGrows(line: string, g: string)
    requires IsBlank(line) && Gap(g)
    ensures Gap((line + "\n") + g)
  {
    var h := (line + "\n") + g;
    assert h[|h| - 1] == '\n';
  }

  /** A blank line in front is lost. */
  lemma WovenBlank(max: nat, line: string, rest: string, units: seq<string>)
    requires Woven(max, rest, units) && IsBlank(line)
    ensures Woven(max, (line + "\n") + rest, units)
  {
    var s, n := (line + "\n") + rest, |line| + 1;
    if units != [] {
      var i :| 0 <= i <= |rest| && Gap(rest[..i]) && Follows(max, rest[i..], units);
      GapGrows(line, rest[..i]);
      assert s[..n + i] == (line + "\n") + rest[..i] && s[n + i..] == rest[i..];
    }
  }

  lemma WovenLine(max: nat, line: string, rest: string, units: seq<string>)
    requires Woven(max, rest, units) && NoBreak(line)
    ensures Woven(max, (line + "\n") + rest, Shown(line) + units)
  {
    if IsBlank(line) {
      WovenBlank(max, line, rest, units);
      assert [] + units == units;
    } else {
      WovenBlank(max, "", rest, units);
      assert "" + "\n" == "\n";
      WovenUnit(max, line, "\n" + rest, units);
      Assoc(line, "\n", rest);
    }
  }

  lemma {:induction false} WovenLines(max: nat, b: string, more: string, units: seq<string>)
    requires Woven(max, Rest(b) + more, units)
    ensures Woven(max, b + more, NonBlank(Lines(b)) + units)
    decreases |b|
  {
    var i := Break(b);
    if i == |b| {
      assert [] + units == units;
    } else {
      var line, tail := b[..i], b[i + 1..];
      WovenLines(max, tail, more, units);
      WovenLine(max, line, tail + more, NonBlank(Lines(tail)) + units);
      JoinedLine(b, line, tail, more);
      CutLines(b, line, tail);
      Assoc(Shown(line), NonBlank(Lines(tail)), units);
    }
  }

  lemma JoinedLine(b: string, line: string, tail: string, more: string)
    requires Cut(b, line, tail)
    ensures b + more == (line + "\n") + (tail + more)
  {
    assert b == (line + "\n") + tail;
    Assoc(line + "\n", tail, more);
  }

  lemma WovenEnd(max: nat, buffer: string)
    requires NoBreak(buffer)
    ensures Woven(max, buffer, Shown(buffer))
  {
    if !IsBlank(buffer) {
      assert Woven(max, "", []);
      WovenUnit(max, buffer, "", []);
      assert buffer + "" == buffer && [buffer] + [] == [buffer];
    }
  }

  /** Conservation in line mode, for every bound and every chunking, overflow included:
      the units are contiguous pieces of the lines of the stream, in order, and only line
      breaks and blank segments are lost between them. */
  lemma OnlyBlanksLost(max: nat, chunks: seq<string>)
    ensures Woven(max, Concat(chunks), Run(true, max, "", chunks))
  {
    WovenFrom(max, "", chunks, Concat(chunks));
  }

  lemma {:induction false} WovenFrom(max: nat, buffer: string, chunks: seq<string>, stream: string)
    requires NoBreak(buffer) && stream == buffer + Concat(chunks)
    ensures Woven(max, stream, Run(true, max, buffer, chunks))
    decreases |chunks|
  {
    if chunks == [] {
      assert stream == buffer;
      WovenEnd(max, buffer);
    } else if chunks[0] == "" {
      RunSkipsEmpty(max, buffer, chunks);
      WovenFrom(max, buffer, chunks[1..], stream);
    } else {
      var b, more := buffer + chunks[0], Concat(chunks[1..]);
      Assoc(buffer, chunks[0], more);
      assert stream == b + more;
      if |Rest(b)| > max {
        WovenFrom(max, "", chunks[1..], more);
        WovenOverrun(max, buffer, chunks, b, more);
      } else {
        WovenFrom(max, Rest(b), chunks[1..], Rest(b) + more);
        WovenKept(max, buffer, chunks, b, more);
      }
    }
  }

  lemma WovenKept(max: nat, buffer: string, chunks: seq<string>, b: string, more: string)
    requires chunks != [] && chunks[0] != "" && b == buffer + chunks[0] && |Rest(b)| <= max
    requires Woven(max, Rest(b) + more, Run(true, max, Rest(b), chunks[1..]))
    ensures Woven(max, b + more, Run(true, max, buffer, chunks))
  {
    RunCons(max, buffer, chunks);
    WovenLines(max, b, more, Run(true, max, Rest(b), chunks[1..]));
  }

  lemma WovenOverrun(max: nat, buffer: string, chunks: seq<string>, b: string, more: string)
    requires chunks != [] && chunks[0] != "" && b == buffer + chunks[0] && |Rest(b)| > max
    requires Woven(max, more, Run(true, max, "", chunks[1..]))
    ensures Woven(max, b + more, Run(true, max, buffer, chunks))
  {
    RunCons(max, buffer, chunks);
    var later := Run(true, max, "", chunks[1..]);
    WovenUnit(max, Rest(b), more, later);
    WovenLines(max, b, more, [Rest(b)] + later);
  }

  /** The reads that are not empty. */
  function NonEmpty(chunks: seq<string>): seq<string> {
    if chunks == [] then [] else (if chunks[0] == "" then [] else [chunks[0]]) + NonEmpty(chunks[1..])
  }

  /** In the other mode every read comes out as it is, so nothing is lost. */
  lemma {:induction false} RawKeepsReads(max: nat, chunks: seq<string>)
    ensures Run(false, max, "", chunks) == NonEmpty(chunks)
    ensures Concat(Run(false, max, "", chunks)) == Concat(chunks)
  {
    if chunks != [] {
      RawKeepsReads(max, chunks[1..]);
      var later := NonEmpty(chunks[1..]);
      assert chunks[0] == "" ==> [] + later == later;
      assert ([chunks[0]] + later)[1..] == later;
    }
  }
}
