/** The managed block of AGENTS.md (`brain/agents_md.py`).

    `merge_into` replaces the text between two markers, or appends a new block. The
    results say exactly for which files a second sync does what the first one would
    have done, and what it keeps of the text around the block. */
module ManagedBlock {
  import opened PyText
  import opened Wrappers

  // ---------------------------------------------------------------------
  // Substring search
  // ---------------------------------------------------------------------

  predicate At(text: string, pat: string, i: nat) {
    i + |pat| <= |text| && text[i..i + |pat|] == pat
  }

  predicate Occurs(text: string, pat: string) {
    exists i | 0 <= i <= |text| :: At(text, pat, i)
  }

  function FindFrom(text: string, pat: string, from: nat): (i: int)
    requires from <= |text|
    ensures i == -1 || (from <= i <= |text| && At(text, pat, i))
    ensures forall j | from <= j < (if i < 0 then |text| + 1 else i) :: !At(text, pat, j)
    decreases |text| - from
  {
    if At(text, pat, from) then from
    else if from == |text| then -1
    else FindFrom(text, pat, from + 1)
  }

  /** `text.find(pat)`: the first occurrence, or -1. */
  function Find(text: string, pat: string): (i: int)
    ensures i == -1 || (0 <= i <= |text| && At(text, pat, i))
    ensures forall j | 0 <= j < (if i < 0 then |text| + 1 else i) :: !At(text, pat, j)
  {
    FindFrom(text, pat, 0)
  }

  lemma FindIs(text: string, pat: string, i: nat)
    requires At(text, pat, i) && forall j | 0 <= j < i :: !At(text, pat, j)
    ensures Find(text, pat) == i
  {
  }

  // ---------------------------------------------------------------------
  // The markers
  // ---------------------------------------------------------------------

  datatype Markers = Markers(begin: string, end: string, notice: string)

  const MARKERS := Markers(
    "<!-- openburrow:brain:begin -->",
    "<!-- openburrow:brain:end -->",
    "<!-- Generated by OpenBurrow." + " Edit outside these markers. -->")

  /** A marker opens with a character it does not repeat, so that it cannot overlap
      another one, and has no line break. */
  predicate IsMarker(m: string, opening: char) {
    && |m| > 0 && m[0] == opening && m[|m| - 1] != '\n'
    && forall j | 0 < j < |m| :: m[j] != opening && m[j] != '\n'
  }

  /** All that the results need of the two markers. */
  predicate Proper(m: Markers) {
    && IsMarker(m.begin, '<') && IsMarker(m.end, '<')
    && (exists k | 0 <= k < |m.begin| && k < |m.end| :: m.begin[k] != m.end[k])
    && IsMarker(m.notice, '<')
    && (exists k | 0 <= k < |m.notice| && k < |m.end| :: m.notice[k] != m.end[k])
  }

  lemma MarkersAreProper()
    ensures Proper(MARKERS)
  {
    BeginIsMarker();
    EndIsMarker();
    NoticeIsMarker();
    assert MARKERS.begin[22] == 'b' && MARKERS.end[22] == 'e';
    assert MARKERS.notice[5] == 'G' && MARKERS.end[5] == 'o';
  }

  lemma BeginIsMarker()
    ensures IsMarker(MARKERS.begin, '<')
  {
  }

  lemma EndIsMarker()
    ensures IsMarker(MARKERS.end, '<')
  {
  }

  lemma NoticeIsMarker()
    ensures IsMarker(MARKERS.notice, '<')
  {
  }

  // ---------------------------------------------------------------------
  // Rendering
  // ---------------------------------------------------------------------

  datatype Kind = Convention | Decision | Gotcha

  datatype Entry = Entry(kind: Kind, path: string, title: string, body: string)

  function Label(k: Kind): string {
    match k case Decision => "DECISION" case Gotcha => "GOTCHA" case Convention => "CONVENTION"
  }

  /** One entry as a bullet of the file. */
  function Bullet(e: Entry): string {
    var scope := if e.path != "" then " (`" + e.path + "`)" else "";
    RStrip("- **" + Label(e.kind) + "**" + scope + ": " + e.title + " \U{2014} " + e.body)
  }

  function KindRank(k: Kind): nat {
    match k case Convention => 0 case Decision => 1 case Gotcha => 2
  }

  /** The sort key of the source, `(str(type), title)`. */
  predicate Before(a: Entry, b: Entry) {
    KindRank(a.kind) < KindRank(b.kind) || (a.kind == b.kind && NotAfter(a.title, b.title))
  }

  function InsertEntry(e: Entry, es: seq<Entry>): seq<Entry> {
    if es == [] || Before(es[|es| - 1], e) then es + [e]
    else InsertEntry(e, es[..|es| - 1]) + [es[|es| - 1]]
  }

  function Sorted(es: seq<Entry>): seq<Entry> {
    if es == [] then [] else InsertEntry(es[|es| - 1], Sorted(es[..|es| - 1]))
  }

  const GAP := "\n\n"

  ghost predicate Ordered(es: seq<Entry>) {
    forall i | 0 < i < |es| :: Before(es[i - 1], es[i])
  }

  lemma OrderedSnoc(es: seq<Entry>, e: Entry)
    requires Ordered(es) && (es != [] ==> Before(es[|es| - 1], e))
    ensures Ordered(es + [e])
  {
  }

  lemma {:induction false} InsertPermutes(e: Entry, es: seq<Entry>)
    ensures multiset(InsertEntry(e, es)) == multiset(es) + multiset{e}
  {
    if es != [] && !Before(es[|es| - 1], e) {
      var init, last := es[..|es| - 1], es[|es| - 1];
      assert es == init + [last];
      InsertPermutes(e, init);
    }
  }

  lemma {:induction false} InsertOrders(e: Entry, es: seq<Entry>)
    requires Ordered(es)
    ensures var r := InsertEntry(e, es);
            Ordered(r) && r != [] && (r[|r| - 1] == e || (es != [] && r[|r| - 1] == es[|es| - 1]))
  {
    if es == [] || Before(es[|es| - 1], e) {
      OrderedSnoc(es, e);
    } else {
      var init, last := es[..|es| - 1], es[|es| - 1];
      InsertOrders(e, init);
      NotAfterTotal(last.title, e.title);
      OrderedSnoc(InsertEntry(e, init), last);
    }
  }

  /** The rendered order is a permutation of the entries, ordered by the key. */
  lemma {:induction false} SortedSorts(es: seq<Entry>)
    ensures multiset(Sorted(es)) == multiset(es)
    ensures Ordered(Sorted(es))
  {
    if es != [] {
      var init, last := es[..|es| - 1], es[|es| - 1];
      assert es == init + [last];
      SortedSorts(init);
      InsertPermutes(last, Sorted(init));
      InsertOrders(last, Sorted(init));
    }
  }

  function Rendered(es: seq<Entry>): (ts: seq<string>)
    ensures |ts| == |es| && forall i | 0 <= i < |es| :: ts[i] == Bullet(es[i])
  {
    seq(|es|, i requires 0 <= i < |es| => Bullet(es[i]))
  }

  function Bullets(texts: seq<string>): string {
    if texts == [] then "" else Bullets(texts[..|texts| - 1]) + (texts[|texts| - 1] + GAP)
  }

  /** Everything between the two markers. */
  function Middle(m: Markers, es: seq<Entry>): string {
    GAP + m.notice + GAP + Bullets(Rendered(Sorted(es)))
  }

  function Wrap(m: Markers, middle: string): string {
    m.begin + middle + m.end
  }

  function Block(m: Markers, es: seq<Entry>): string {
    Wrap(m, Middle(m, es))
  }

  /** Lines so far, each with its line break. */
  function Lines(parts: seq<string>): string {
    if parts == [] then "" else Lines(parts[..|parts| - 1]) + parts[|parts| - 1] + "\n"
  }

  lemma {:induction false} JoinIsLines(parts: seq<string>, last: string)
    ensures Join("\n", parts + [last]) == Lines(parts) + last
  {
    if parts == [] {
      assert parts + [last] == [last];
    } else {
      var init, p := parts[..|parts| - 1], parts[|parts| - 1];
      assert parts == init + [p];
      JoinIsLines(init, p);
      JoinSnoc(parts, last);
    }
  }

  lemma {:induction false} JoinSnoc(parts: seq<string>, last: string)
    requires parts != []
    ensures Join("\n", parts + [last]) == Join("\n", parts) + "\n" + last
  {
    if |parts| > 1 {
      assert (parts + [last])[1..] == parts[1..] + [last];
      JoinSnoc(parts[1..], last);
    }
  }

  lemma LinesSnoc(parts: seq<string>, p: string)
    ensures Lines(parts + [p]) == Lines(parts) + p + "\n"
  {
    assert (parts + [p])[..|parts|] == parts;
  }

  lemma OneMoreBullet(lines: seq<string>, header: string, texts: seq<string>, t: string)
    requires Lines(lines) == header + Bullets(texts)
    ensures Lines(lines + [t] + [""]) == header + Bullets(texts + [t])
  {
    LinesSnoc(lines, t);
    LinesSnoc(lines + [t], "");
    assert (texts + [t])[..|texts|] == texts;
    Assoc(header, Bullets(texts), t + GAP);
  }

  lemma NextBullet(lines: seq<string>, header: string, texts: seq<string>, i: nat)
    requires i < |texts| && Lines(lines) == header + Bullets(texts[..i])
    ensures Lines(lines + [texts[i]] + [""]) == header + Bullets(texts[..i + 1])
  {
    OneMoreBullet(lines, header, texts[..i], texts[i]);
    assert texts[..i + 1] == texts[..i] + [texts[i]];
  }

  lemma HeaderLines(m: Markers)
    ensures Lines([m.begin, "", m.notice, ""]) == m.begin + (GAP + m.notice + GAP)
  {
    var none: seq<string> := [];
    LinesSnoc(none, m.begin);
    LinesSnoc([m.begin], "");
    LinesSnoc([m.begin, ""], m.notice);
    LinesSnoc([m.begin, "", m.notice], "");
    assert none + [m.begin] == [m.begin];
    assert [m.begin] + [""] == [m.begin, ""];
    assert [m.begin, ""] + [m.notice] == [m.begin, "", m.notice];
    assert [m.begin, "", m.notice] + [""] == [m.begin, "", m.notice, ""];
  }

  /** `render_block`: the lines, one entry at a time, and their join. */
  method RenderBlock(m: Markers, es: seq<Entry>) returns (block: string)
    ensures block == Block(m, es)
  {
    var lines := [m.begin, "", m.notice, ""];
    HeaderLines(m);
    var texts := Rendered(Sorted(es));
    ghost var header := m.begin + (GAP + m.notice + GAP);
    var i := 0;
    while i < |texts|
      invariant 0 <= i <= |texts|
      invariant Lines(lines) == header + Bullets(texts[..i])
    {
      NextBullet(lines, header, texts, i);
      lines := lines + [texts[i]] + [""];
      i := i + 1;
    }
    assert texts[..i] == texts;
    JoinedBlock(m, lines, Bullets(texts));
    lines := lines + [m.end];
    block := Join("\n", lines);
  }

  lemma JoinedBlock(m: Markers, lines: seq<string>, bullets: string)
    requires Lines(lines) == m.begin + (GAP + m.notice + GAP) + bullets
    ensures Join("\n", lines + [m.end]) == Wrap(m, GAP + m.notice + GAP + bullets)
  {
    JoinIsLines(lines, m.end);
    Assoc(m.begin, GAP + m.notice + GAP, bullets);
  }

  // ---------------------------------------------------------------------
  // Merging
  // ---------------------------------------------------------------------

  function Separator(existing: string): string {
    if |existing| >= 2 && existing[|existing| - 2..] == GAP then "" else GAP
  }

  /** `merge_into`, for an already rendered middle. */
  function Splice(m: Markers, existing: string, middle: string): string {
    var start, end := Find(existing, m.begin), Find(existing, m.end);
    if start != -1 && end != -1 && end > start then
      existing[..start] + Wrap(m, middle) + existing[end + |m.end|..]
    else if IsBlank(existing) then
      Wrap(m, middle) + "\n"
    else
      existing + Separator(existing) + Wrap(m, middle) + "\n"
  }

  function MergeInto(m: Markers, existing: string, es: seq<Entry>): string {
    Splice(m, existing, Middle(m, es))
  }

  /** The files the merge is made for: the first end marker follows the first begin
      marker, or there is no marker at all. */
  predicate WellMarked(m: Markers, existing: string) {
    var start, end := Find(existing, m.begin), Find(existing, m.end);
    (start == -1 && end == -1) || (start != -1 && end > start)
  }

  /** No entry's rendered line contains the end marker. */
  predicate Clean(m: Markers, es: seq<Entry>) {
    forall i | 0 <= i < |es| :: !Occurs(Bullet(es[i]), m.end)
  }

  // --- occurrences ---------------------------------------------------------

  lemma SliceOfSlice(text: string, a: nat, b: nat, c: nat, d: nat)
    requires a <= b <= |text| && c <= d <= b - a
    ensures text[a..b][c..d] == text[a + c..a + d]
  {
    var l, r := text[a..b][c..d], text[a + c..a + d];
    assert forall i | 0 <= i < d - c :: l[i] == text[a + c + i] == r[i];
  }

  /** An occurrence in a part is one in the whole, and back. */
  lemma AtPart(text: string, off: nat, part: string, pat: string, q: nat)
    requires off + |part| <= |text| && text[off..off + |part|] == part && q + |pat| <= |part|
    ensures At(text, pat, off + q) <==> At(part, pat, q)
  {
    SliceOfSlice(text, off, off + |part|, q, q + |pat|);
  }

  /** No occurrence of a marker straddles the start of another one ... */
  lemma NoStraddle(text: string, pat: string, p: nat, s: nat)
    requires IsMarker(pat, '<') && p < s < p + |pat| && s < |text| && text[s] == '<'
    ensures !At(text, pat, p)
  {
    assert pat[s - p] != '<';
    assert p + |pat| <= |text| ==> text[p..p + |pat|][s - p] == text[s];
  }

  /** ... so one that starts before a marker lies before it. */
  lemma NotBefore(text: string, pre: string, pat: string)
    requires IsMarker(pat, '<') && !Occurs(pre, pat)
    requires |text| > |pre| && text[|pre|] == '<' && text[..|pre|] == pre
    ensures forall p | 0 <= p < |pre| :: !At(text, pat, p)
  {
    forall p | 0 <= p < |pre| ensures !At(text, pat, p) {
      if p + |pat| > |pre| {
        NoStraddle(text, pat, p, |pre|);
      } else {
        AtPart(text, 0, pre, pat, p);
        assert !At(pre, pat, p);
      }
    }
  }

  lemma FindBeginInSplice(m: Markers, pre: string, middle: string, post: string)
    requires Proper(m) && !Occurs(pre, m.begin)
    ensures Find(pre + Wrap(m, middle) + post, m.begin) == |pre|
  {
    var text := pre + Wrap(m, middle) + post;
    assert text[..|pre|] == pre && text[|pre|] == '<';
    NotBefore(text, pre, m.begin);
    assert text[|pre|..|pre| + |m.begin|] == m.begin;
    FindIs(text, m.begin, |pre|);
  }

  lemma EndsWithItself(text: string, pat: string)
    ensures At(text + pat, pat, |text|)
  {
    assert (text + pat)[|text|..] == pat;
  }

  /** Where the middle, continued by the end marker itself, first contains one. */
  function EndOffset(m: Markers, middle: string): (n: nat)
    ensures n <= |middle|
  {
    EndsWithItself(middle, m.end);
    Find(middle + m.end, m.end)
  }

  lemma NoEndBefore(m: Markers, text: string, pre: string, open: nat)
    requires Proper(m) && open == |pre| + |m.begin| <= |text|
    requires !Occurs(pre, m.end) && text[..|pre|] == pre && text[|pre|..open] == m.begin
    ensures forall p | 0 <= p < open :: !At(text, m.end, p)
  {
    assert text[|pre|] == text[|pre|..open][0];
    NotBefore(text, pre, m.end);
    NotAtBegin(m, text, |pre|);
  }

  lemma FindEndAt(m: Markers, text: string, pre: string, open: nat, inner: string, off: nat)
    requires Proper(m) && open == |pre| + |m.begin| && open + |inner| <= |text| && |m.end| <= |inner|
    requires !Occurs(pre, m.end) && text[..|pre|] == pre
    requires text[|pre|..open] == m.begin && text[open..open + |inner|] == inner
    requires At(inner, m.end, |inner| - |m.end|) && off == Find(inner, m.end)
    ensures Find(text, m.end) == open + off
  {
    NoEndBefore(m, text, pre, open);
    FirstPastOpen(text, open, inner, m.end, off);
  }

  lemma FirstPastOpen(text: string, open: nat, inner: string, pat: string, off: nat)
    requires open + |inner| <= |text| && text[open..open + |inner|] == inner
    requires off == Find(inner, pat) && 0 < |pat| <= |inner| && At(inner, pat, |inner| - |pat|)
    requires forall p | 0 <= p < open :: !At(text, pat, p)
    ensures Find(text, pat) == open + off
  {
    FirstInPart(text, open, inner, pat, off);
    FirstOfTwo(text, pat, open, open + off);
  }

  lemma FirstOfTwo(text: string, pat: string, b: nat, c: nat)
    requires b <= c && At(text, pat, c)
    requires forall p | 0 <= p < b :: !At(text, pat, p)
    requires forall p | b <= p < c :: !At(text, pat, p)
    ensures Find(text, pat) == c
  {
    FindIs(text, pat, c);
  }

  lemma FirstInPart(text: string, open: nat, inner: string, pat: string, off: nat)
    requires open + |inner| <= |text| && text[open..open + |inner|] == inner
    requires off == Find(inner, pat) && 0 < |pat| <= |inner| && At(inner, pat, |inner| - |pat|)
    ensures At(text, pat, open + off) && forall p | open <= p < open + off :: !At(text, pat, p)
  {
    forall p | open <= p < open + off ensures !At(text, pat, p) {
      AtPart(text, open, inner, pat, p - open);
      assert !At(inner, pat, p - open);
    }
    AtPart(text, open, inner, pat, off);
  }

  lemma FindEndInSplice(m: Markers, pre: string, middle: string, post: string)
    requires Proper(m) && !Occurs(pre, m.end)
    ensures Find(pre + Wrap(m, middle) + post, m.end) == |pre| + |m.begin| + EndOffset(m, middle)
  {
    PartsOf(pre, m.begin, middle, m.end, post);
    FindEndOfParts(m, pre + Wrap(m, middle) + post, pre, middle, |pre| + |m.begin|);
  }

  lemma FindEndOfParts(m: Markers, text: string, pre: string, middle: string, open: nat)
    requires Proper(m) && !Occurs(pre, m.end)
    requires open == |pre| + |m.begin| && open + |middle + m.end| <= |text|
    requires text[..|pre|] == pre && text[|pre|..open] == m.begin
    requires text[open..open + |middle + m.end|] == middle + m.end
    ensures Find(text, m.end) == open + EndOffset(m, middle)
  {
    EndsWithItself(middle, m.end);
    FindEndAt(m, text, pre, open, middle + m.end, EndOffset(m, middle));
  }

  lemma PartsOf(pre: string, begin: string, middle: string, end: string, post: string)
    ensures var text, open, inner := pre + (begin + middle + end) + post, |pre| + |begin|, middle + end;
            && |text| == open + |inner| + |post|
            && text[..|pre|] == pre && text[|pre|..open] == begin && text[open..open + |inner|] == inner
  {
  }

  lemma NotAtBegin(m: Markers, text: string, s: nat)
    requires Proper(m) && s + |m.begin| <= |text| && text[s..s + |m.begin|] == m.begin
    ensures forall p | s <= p < s + |m.begin| :: !At(text, m.end, p)
  {
    var k :| 0 <= k < |m.begin| && k < |m.end| && m.begin[k] != m.end[k];
    forall p | s <= p < s + |m.begin| ensures !At(text, m.end, p) {
      assert text[p] == text[s..s + |m.begin|][p - s];
      assert text[s + k] == text[s..s + |m.begin|][k];
      assert p + |m.end| <= |text| ==> text[p..p + |m.end|][0] == text[p];
      assert s + |m.end| <= |text| ==> text[s..s + |m.end|][k] == text[s + k];
    }
  }

  lemma OccursIffFind(text: string, pat: string)
    ensures Occurs(text, pat) <==> Find(text, pat) != -1
  {
  }

  lemma {:induction false} NoneBeforeFirst(text: string, pat: string, n: nat)
    requires |pat| > 0 && n <= |text| && (Find(text, pat) == -1 || n <= Find(text, pat))
    ensures !Occurs(text[..n], pat)
  {
    forall i | 0 <= i <= n ensures !At(text[..n], pat, i) {
      if i + |pat| <= n {
        AtPart(text, 0, text[..n], pat, i);
        assert !At(text, pat, i);
      }
    }
  }

  // --- the three shapes of a merge -------------------------------------------

  /** What `merge_into` puts before and after the block in a well-marked file. */
  function Prefix(m: Markers, existing: string): string {
    var start, end := Find(existing, m.begin), Find(existing, m.end);
    if start != -1 && end > start then existing[..start]
    else if IsBlank(existing) then ""
    else existing + Separator(existing)
  }

  function Suffix(m: Markers, existing: string): string {
    var start, end := Find(existing, m.begin), Find(existing, m.end);
    if start != -1 && end > start then existing[end + |m.end|..] else "\n"
  }

  lemma SpliceShape(m: Markers, existing: string, middle: string)
    ensures Splice(m, existing, middle) == Prefix(m, existing) + Wrap(m, middle) + Suffix(m, existing)
  {
  }

  lemma SeparatedHasNoMarker(existing: string, pat: string)
    requires IsMarker(pat, '<') && !Occurs(existing, pat)
    ensures !Occurs(existing + Separator(existing), pat)
  {
    var text := existing + Separator(existing);
    forall p | 0 <= p <= |text| ensures !At(text, pat, p) {
      if p + |pat| <= |existing| {
        AtPart(text, 0, existing, pat, p);
        assert !At(existing, pat, p);
      } else if p + |pat| <= |text| {
        assert text[p..p + |pat|][|pat| - 1] == text[p + |pat| - 1] == '\n';
      }
    }
  }

  lemma PrefixHasNoMarker(m: Markers, existing: string)
    requires Proper(m) && WellMarked(m, existing)
    ensures !Occurs(Prefix(m, existing), m.begin) && !Occurs(Prefix(m, existing), m.end)
  {
    var start, end := Find(existing, m.begin), Find(existing, m.end);
    if start != -1 {
      NoneBeforeFirst(existing, m.begin, start);
      NoneBeforeFirst(existing, m.end, start);
    } else {
      OccursIffFind(existing, m.begin);
      OccursIffFind(existing, m.end);
      SeparatedHasNoMarker(existing, m.begin);
      SeparatedHasNoMarker(existing, m.end);
    }
  }

  /** What an earlier end marker inside the middle leaves behind. */
  function Residue(m: Markers, middle: string): string {
    (middle + m.end)[EndOffset(m, middle) + |m.end|..]
  }

  lemma CutAt(m: Markers, pre: string, middle: string, post: string)
    ensures var once := pre + Wrap(m, middle) + post;
            var cut := |pre| + |m.begin| + EndOffset(m, middle) + |m.end|;
            cut <= |once| && once[..|pre|] == pre && once[cut..] == Residue(m, middle) + post
  {
    var once := pre + Wrap(m, middle) + post;
    var inner := middle + m.end;
    var k := EndOffset(m, middle) + |m.end|;
    assert once == (pre + m.begin) + (inner + post);
    assert once[|pre| + |m.begin|..] == inner + post;
    assert once[|pre| + |m.begin| + k..] == (inner + post)[k..];
    assert (inner + post)[k..] == inner[k..] + post;
  }

  /** A second splice keeps the text around the block, and what the first middle has
      after its own end marker, if it has one. */
  lemma SecondSplice(m: Markers, existing: string, first: string, second: string)
    requires Proper(m) && WellMarked(m, existing)
    ensures var once := Splice(m, existing, first);
            WellMarked(m, once)
            && Splice(m, once, second)
            == Prefix(m, existing) + Wrap(m, second) + (Residue(m, first) + Suffix(m, existing))
  {
    var pre, post := Prefix(m, existing), Suffix(m, existing);
    PrefixHasNoMarker(m, existing);
    SpliceShape(m, existing, first);
    ShapeSpliced(m, pre, first, post, second);
  }

  /** A splice into a file whose first begin marker is at `|pre|` and whose first end
      marker ends at `cut`. */
  lemma Spliced(m: Markers, text: string, pre: string, cut: nat, tail: string, middle: string)
    requires Find(text, m.begin) == |pre| && Find(text, m.end) == cut - |m.end| > |pre| && cut <= |text|
    requires text[..|pre|] == pre && text[cut..] == tail
    ensures WellMarked(m, text) && Splice(m, text, middle) == pre + Wrap(m, middle) + tail
  {
  }

  lemma ShapeSpliced(m: Markers, pre: string, first: string, post: string, second: string)
    requires Proper(m) && !Occurs(pre, m.begin) && !Occurs(pre, m.end)
    ensures var once := pre + Wrap(m, first) + post;
            WellMarked(m, once) && Splice(m, once, second) == pre + Wrap(m, second) + (Residue(m, first) + post)
  {
    FindBeginInSplice(m, pre, first, post);
    FindEndInSplice(m, pre, first, post);
    CutAt(m, pre, first, post);
    Spliced(m, pre + Wrap(m, first) + post, pre, |pre| + |m.begin| + EndOffset(m, first) + |m.end|,
            Residue(m, first) + post, second);
  }

  // --- clean entries ----------------------------------------------------------

  /** No occurrence of a marker contains a line break ... */
  lemma NoBreakInside(text: string, pat: string, p: nat, q: nat)
    requires IsMarker(pat, '<') && p <= q < p + |pat| && q < |text| && text[q] == '\n'
    ensures !At(text, pat, p)
  {
    assert pat[q - p] != '\n';
    assert p + |pat| <= |text| ==> text[p..p + |pat|][q - p] == text[q];
  }

  /** ... so cutting a text at a line break cuts no occurrence. */
  lemma OccursInParts(a: string, b: string, pat: string)
    requires IsMarker(pat, '<')
    requires (a != "" && a[|a| - 1] == '\n') || (b != "" && b[0] == '\n') || a == ""
    ensures Occurs(a + b, pat) <==> Occurs(a, pat) || Occurs(b, pat)
  {
    var text := a + b;
    assert text[0..|a|] == a && text[|a|..|a| + |b|] == b;
    NoneAcross(a, b, pat);
    forall p | 0 <= p <= |text| && At(text, pat, p) ensures Occurs(a, pat) || Occurs(b, pat) {
      if p + |pat| <= |a| {
        AtPart(text, 0, a, pat, p);
      } else {
        AtPart(text, |a|, b, pat, p - |a|);
      }
    }
    forall p | 0 <= p <= |a| && At(a, pat, p) ensures Occurs(text, pat) {
      AtPart(text, 0, a, pat, p);
    }
    forall p | 0 <= p <= |b| && At(b, pat, p) ensures Occurs(text, pat) {
      AtPart(text, |a|, b, pat, p);
    }
  }

  lemma NoneAcross(a: string, b: string, pat: string)
    requires IsMarker(pat, '<')
    requires (a != "" && a[|a| - 1] == '\n') || (b != "" && b[0] == '\n') || a == ""
    ensures forall p | 0 <= p < |a| < p + |pat| :: !At(a + b, pat, p)
  {
    var text := a + b;
    forall p | 0 <= p < |a| < p + |pat| ensures !At(text, pat, p) {
      if a[|a| - 1] == '\n' {
        NoBreakInside(text, pat, p, |a| - 1);
      } else {
        NoBreakInside(text, pat, p, |a|);
      }
    }
  }

  lemma NoneInGap(pat: string)
    requires IsMarker(pat, '<')
    ensures !Occurs(GAP, pat) && !Occurs("", pat)
  {
    forall p | 0 <= p <= 2 ensures !At(GAP, pat, p) {
      if p < 2 {
        NoBreakInside(GAP, pat, p, p);
      }
    }
    assert !At("", pat, 0);
  }

  lemma {:induction false} BulletsOccur(texts: seq<string>, pat: string)
    requires IsMarker(pat, '<')
    ensures Occurs(Bullets(texts), pat) <==> exists i | 0 <= i < |texts| :: Occurs(texts[i], pat)
    ensures texts == [] || (Bullets(texts) != "" && Bullets(texts)[|Bullets(texts)| - 1] == '\n')
  {
    NoneInGap(pat);
    if texts != [] {
      var init, last := texts[..|texts| - 1], texts[|texts| - 1];
      BulletsOccur(init, pat);
      OccursInParts(last, GAP, pat);
      OccursInParts(Bullets(init), last + GAP, pat);
      assert forall i | 0 <= i < |init| :: init[i] == texts[i];
    }
  }

  lemma NoticeHasNoEnd(m: Markers)
    requires Proper(m)
    ensures !Occurs(m.notice, m.end)
  {
    var k :| 0 <= k < |m.notice| && k < |m.end| && m.notice[k] != m.end[k];
    forall p | 0 <= p <= |m.notice| ensures !At(m.notice, m.end, p) {
      if p + |m.end| <= |m.notice| {
        assert m.notice[p..p + |m.end|][0] == m.notice[p];
        assert m.notice[p..p + |m.end|][k] == m.notice[p + k];
      }
    }
  }

  /** The middle hides no end marker exactly when no rendered entry does. */
  lemma CleanExactly(m: Markers, es: seq<Entry>)
    requires Proper(m)
    ensures Residue(m, Middle(m, es)) == "" <==> Clean(m, es)
  {
    var texts := Rendered(Sorted(es));
    MiddleOccurs(m, Bullets(texts));
    BulletsOccur(texts, m.end);
    SortedClean(m, es);
    ResidueExactly(m, Middle(m, es));
  }

  lemma MiddleOccurs(m: Markers, bullets: string)
    requires Proper(m)
    ensures Occurs(GAP + m.notice + GAP + bullets, m.end) <==> Occurs(bullets, m.end)
  {
    NoneInGap(m.end);
    NoticeHasNoEnd(m);
    OccursInParts(GAP, m.notice, m.end);
    OccursInParts(GAP + m.notice, GAP, m.end);
    OccursInParts(GAP + m.notice + GAP, bullets, m.end);
  }

  lemma SortedClean(m: Markers, es: seq<Entry>)
    ensures Clean(m, Sorted(es)) <==> Clean(m, es)
  {
    SortedSorts(es);
    forall i | 0 <= i < |es| ensures es[i] in Sorted(es) {
      assert es[i] in multiset(es);
    }
    forall i | 0 <= i < |Sorted(es)| ensures Sorted(es)[i] in es {
      assert Sorted(es)[i] in multiset(Sorted(es));
    }
  }

  lemma ResidueExactly(m: Markers, middle: string)
    requires Proper(m)
    ensures Residue(m, middle) == "" <==> !Occurs(middle, m.end)
  {
    var inner := middle + m.end;
    assert inner[..|middle|] == middle && inner[|middle|] == '<';
    if Occurs(middle, m.end) {
      var p :| 0 <= p <= |middle| && At(middle, m.end, p);
      AtPart(inner, 0, middle, m.end, p);
    } else {
      NotBefore(inner, middle, m.end);
    }
  }

  // ---------------------------------------------------------------------
  // The laws
  // ---------------------------------------------------------------------

  lemma NotBlank(existing: string, pat: string)
    requires IsMarker(pat, '<') && Occurs(existing, pat)
    ensures !IsBlank(existing)
  {
    var p :| 0 <= p <= |existing| && At(existing, pat, p);
    assert existing[p] == existing[p..p + |pat|][0] == '<';
  }

  lemma FindInExtension(text: string, rest: string, pat: string)
    requires Find(text, pat) != -1
    ensures Find(text + rest, pat) == Find(text, pat)
  {
    var i, whole := Find(text, pat), text + rest;
    assert whole[..|text|] == text;
    AtPart(whole, 0, text, pat, i);
    forall p | 0 <= p < i ensures !At(whole, pat, p) {
      AtPart(whole, 0, text, pat, p);
    }
    FindIs(whole, pat, i);
  }

  /** What the second sync finds in a file that had a begin marker and no end marker. */
  lemma LoneBeginFinds(m: Markers, existing: string, middle: string)
    requires Proper(m) && Find(existing, m.begin) != -1 && Find(existing, m.end) == -1
    ensures var pre := existing + Separator(existing);
            var once := pre + Wrap(m, middle) + "\n";
            Find(once, m.begin) == Find(existing, m.begin)
            && Find(once, m.end) == |pre| + |m.begin| + EndOffset(m, middle)
  {
    var pre := existing + Separator(existing);
    OccursIffFind(existing, m.end);
    SeparatedHasNoMarker(existing, m.end);
    FindEndInSplice(m, pre, middle, "\n");
    FindInExtension(existing, Separator(existing), m.begin);
    FindInExtension(pre, Wrap(m, middle), m.begin);
    FindInExtension(pre + Wrap(m, middle), "\n", m.begin);
  }

  lemma LoneBeginAppends(m: Markers, existing: string, middle: string)
    requires Proper(m) && Find(existing, m.begin) != -1 && Find(existing, m.end) == -1
    ensures Splice(m, existing, middle) == existing + Separator(existing) + Wrap(m, middle) + "\n"
  {
    OccursIffFind(existing, m.begin);
    NotBlank(existing, m.begin);
  }

  lemma TakenPrefix(existing: string, rest: string, s: nat)
    requires s <= |existing|
    ensures (existing + rest)[..s] == existing[..s]
  {
  }

  /** A file with a begin marker and no end marker: the second sync takes everything
      from that marker to the appended block for the old block. */
  lemma LoneBegin(m: Markers, existing: string, first: string, second: string)
    requires Proper(m) && Find(existing, m.begin) != -1 && Find(existing, m.end) == -1
    ensures Splice(m, Splice(m, existing, first), second)
         == existing[..Find(existing, m.begin)] + Wrap(m, second) + (Residue(m, first) + "\n")
  {
    LoneBeginAppends(m, existing, first);
    LoneBeginAgain(m, existing, first, second);
  }

  lemma LoneBeginAgain(m: Markers, existing: string, first: string, second: string)
    requires Proper(m) && Find(existing, m.begin) != -1 && Find(existing, m.end) == -1
    ensures Splice(m, existing + Separator(existing) + Wrap(m, first) + "\n", second)
         == existing[..Find(existing, m.begin)] + Wrap(m, second) + (Residue(m, first) + "\n")
  {
    var pre := existing + Separator(existing);
    var once, cut := pre + Wrap(m, first) + "\n", |pre| + |m.begin| + EndOffset(m, first) + |m.end|;
    LoneBeginCuts(m, existing, first, once, cut);
    Spliced(m, once, existing[..Find(existing, m.begin)], cut, Residue(m, first) + "\n", second);
  }

  lemma LoneBeginCuts(m: Markers, existing: string, first: string, once: string, cut: nat)
    requires Proper(m) && Find(existing, m.begin) != -1 && Find(existing, m.end) == -1
    requires once == existing + Separator(existing) + Wrap(m, first) + "\n"
    requires cut == |existing + Separator(existing)| + |m.begin| + EndOffset(m, first) + |m.end|
    ensures Find(once, m.begin) == Find(existing, m.begin) < cut - |m.end| == Find(once, m.end)
    ensures cut <= |once| && once[cut..] == Residue(m, first) + "\n"
    ensures once[..Find(existing, m.begin)] == existing[..Find(existing, m.begin)]
  {
    LoneBeginFinds(m, existing, first);
    CutAt(m, existing + Separator(existing), first, "\n");
    OnceStarts(m, existing, first, Find(existing, m.begin));
  }

  lemma OnceStarts(m: Markers, existing: string, first: string, s: nat)
    requires s <= |existing|
    ensures (existing + Separator(existing) + Wrap(m, first) + "\n")[..s] == existing[..s]
  {
    Reassociate(existing, Separator(existing), Wrap(m, first), "\n");
    TakenPrefix(existing, Separator(existing) + Wrap(m, first) + "\n", s);
  }

  lemma Reassociate(a: string, b: string, c: string, d: string)
    ensures a + b + c + d == a + (b + c + d)
  {
    Assoc(a, b, c);
    Assoc(a, b + c, d);
  }

  /** ... which is never what the second sync alone would have left. */
  lemma LoneBeginDiffers(m: Markers, existing: string, first: string, second: string)
    requires Proper(m) && Find(existing, m.begin) != -1 && Find(existing, m.end) == -1
    ensures Splice(m, Splice(m, existing, first), second) != Splice(m, existing, second)
  {
    var s := Find(existing, m.begin);
    LoneBegin(m, existing, first, second);
    LoneBeginAppends(m, existing, second);
    LoneBeginFinds(m, existing, second);
    NoneBeforeFirst(existing, m.end, s);
    FindEndInSplice(m, existing[..s], second, Residue(m, first) + "\n");
  }

  predicate Stray(m: Markers, text: string) {
    && Find(text, m.end) != -1
    && (Find(text, m.begin) == -1 || Find(text, m.end) <= Find(text, m.begin))
  }

  lemma StrayAppends(m: Markers, text: string, middle: string)
    requires Proper(m) && Stray(m, text)
    ensures Splice(m, text, middle) == text + Separator(text) + Wrap(m, middle) + "\n"
  {
    OccursIffFind(text, m.end);
    NotBlank(text, m.end);
  }

  lemma StaysStray(m: Markers, text: string, middle: string, once: string)
    requires Proper(m) && Stray(m, text) && once == text + (Separator(text) + Wrap(m, middle) + "\n")
    ensures Stray(m, once)
  {
    var tail := Separator(text) + Wrap(m, middle) + "\n";
    FindInExtension(text, tail, m.end);
    if Find(text, m.begin) != -1 {
      FindInExtension(text, tail, m.begin);
    } else {
      OccursIffFind(text, m.begin);
      SeparatedHasNoMarker(text, m.begin);
      FindBeginInSplice(m, text + Separator(text), middle, "\n");
      Reassociate(text, Separator(text), Wrap(m, middle), "\n");
    }
  }

  /** A file whose first end marker precedes its first begin marker, or has none: every
      sync appends another block. */
  lemma StrayEnd(m: Markers, existing: string, first: string, second: string)
    requires Proper(m) && Stray(m, existing)
    ensures var once := Splice(m, existing, first);
            Splice(m, once, second) == once + Separator(once) + Wrap(m, second) + "\n"
    ensures Splice(m, Splice(m, existing, first), second) != Splice(m, existing, second)
  {
    var tail := Separator(existing) + Wrap(m, first) + "\n";
    var once := existing + tail;
    StrayAppends(m, existing, first);
    StrayAppends(m, existing, second);
    Reassociate(existing, Separator(existing), Wrap(m, first), "\n");
    StaysStray(m, existing, first, once);
    StrayAppends(m, once, second);
    assert |once + Separator(once) + Wrap(m, second) + "\n"| > |existing + Separator(existing) + Wrap(m, second) + "\n"|;
  }

  /** Idempotence, exactly. Syncing `first` and then `second` leaves the file that
      syncing `second` alone would have left if and only if the file was well marked
      and no entry of `first` renders to text with the end marker in it. */
  lemma SecondSyncExactly(m: Markers, existing: string, first: seq<Entry>, second: seq<Entry>)
    requires Proper(m)
    ensures MergeInto(m, MergeInto(m, existing, first), second) == MergeInto(m, existing, second)
       <==> WellMarked(m, existing) && Clean(m, first)
  {
    var a, b := Middle(m, first), Middle(m, second);
    if WellMarked(m, existing) {
      SecondSplice(m, existing, a, b);
      SpliceShape(m, existing, b);
      CleanExactly(m, first);
      var post := Suffix(m, existing);
      assert Residue(m, a) == "" ==> Residue(m, a) + post == post;
      assert Residue(m, a) != "" ==> |Residue(m, a) + post| > |post|;
    } else if Find(existing, m.end) == -1 {
      LoneBeginDiffers(m, existing, a, b);
    } else {
      StrayEnd(m, existing, a, b);
    }
  }

  /** Everything a person wrote outside the markers survives a sync of a well-marked
      file, character for character; a file without markers gets the block after a blank
      line. */
  lemma OutsidePreserved(m: Markers, existing: string, es: seq<Entry>)
    requires Proper(m) && WellMarked(m, existing)
    ensures Find(existing, m.begin) != -1 ==>
              MergeInto(m, existing, es)
              == existing[..Find(existing, m.begin)] + Block(m, es)
                 + existing[Find(existing, m.end) + |m.end|..]
    ensures Find(existing, m.begin) == -1 && !IsBlank(existing) ==>
              MergeInto(m, existing, es)
              == existing + (if |existing| >= 2 && existing[|existing| - 2..] == "\n\n" then "" else "\n\n")
                 + Block(m, es) + "\n"
    ensures Find(existing, m.begin) == -1 && IsBlank(existing) ==> MergeInto(m, existing, es) == Block(m, es) + "\n"
    ensures WellMarked(m, MergeInto(m, existing, es))
  {
    SecondSplice(m, existing, Middle(m, es), "");
    OutsideOf(m, existing, Middle(m, es));
  }

  lemma OutsideOf(m: Markers, existing: string, middle: string)
    requires WellMarked(m, existing)
    ensures Find(existing, m.begin) != -1 ==>
              Splice(m, existing, middle)
              == existing[..Find(existing, m.begin)] + Wrap(m, middle)
                 + existing[Find(existing, m.end) + |m.end|..]
  {
  }

  function SyncAll(m: Markers, existing: string, syncs: seq<seq<Entry>>): string {
    if syncs == [] then existing
    else MergeInto(m, SyncAll(m, existing, syncs[..|syncs| - 1]), syncs[|syncs| - 1])
  }

  /** Any number of syncs amounts to the last one. */
  lemma {:induction false} LastSyncWins(m: Markers, existing: string, syncs: seq<seq<Entry>>)
    requires Proper(m) && WellMarked(m, existing) && syncs != []
    requires forall i | 0 <= i < |syncs| - 1 :: Clean(m, syncs[i])
    ensures SyncAll(m, existing, syncs) == MergeInto(m, existing, syncs[|syncs| - 1])
  {
    var before, last := syncs[..|syncs| - 1], syncs[|syncs| - 1];
    if before != [] {
      LastSyncWins(m, existing, before);
      SecondSyncExactly(m, existing, before[|before| - 1], last);
    }
  }
}
