/** How the managed block is laid out, and where a first sync puts it (`render_block` and
    `merge_into` in `brain/agents_md.py`, `to_agents_md` in `core/models/knowledge.py`).

    Told on the text itself, without the functions that the merge is built from. */
module BlockLayout {
  import opened PyText
  import opened Wrappers
  import opened ManagedBlock

  /** A first sync, or one of a file whose markers are gone. The text before the block is what
      a person wrote, with at most a blank line added, and it ends in a blank line; in a file
      without text the block stands first. After the block comes one line break. */
  lemma BlockStandsAlone(m: Markers, existing: string, es: seq<Entry>)
    requires Proper(m) && !Occurs(existing, m.begin)
    ensures var merged := MergeInto(m, existing, es);
            var at := Find(merged, m.begin);
            && at >= 0
            && merged[at..] == Block(m, es) + "\n"
            && if IsBlank(existing) then at == 0
               else at >= 2 && merged[at - 2..at] == "\n\n"
                    && (merged[..at] == existing || merged[..at] == existing + "\n\n")
                    && (merged[..at] == existing <==> |existing| >= 2 && existing[|existing| - 2..] == "\n\n")
  {
    OccursIffFind(existing, m.begin);
    if IsBlank(existing) {
      assert !Occurs("", m.begin) by { NoneInside("", m.begin, existing); }
      FindBeginInSplice(m, "", Middle(m, es), "\n");
      assert "" + Block(m, es) + "\n" == Block(m, es) + "\n";
    } else {
      var pre := existing + Separator(existing);
      SeparatedHasNoMarker(existing, m.begin);
      FindBeginInSplice(m, pre, Middle(m, es), "\n");
      SeparatedEnds(existing, pre);
      CutOff(pre, Block(m, es), "\n");
    }
  }

  lemma NoneInside(part: string, pat: string, text: string)
    requires part == "" && |pat| > 0
    ensures !Occurs(part, pat)
  {
  }

  lemma SeparatedEnds(existing: string, pre: string)
    requires pre == existing + Separator(existing)
    ensures |pre| >= 2 && pre[|pre| - 2..] == "\n\n" && (pre == existing || pre == existing + "\n\n")
    ensures pre == existing <==> |existing| >= 2 && existing[|existing| - 2..] == "\n\n"
  {
    if pre != existing {
      assert pre[|existing|..] == "\n\n";
    } else {
      assert |Separator(existing)| == 0;
    }
  }

  lemma CutOff(pre: string, block: string, end: string)
    ensures (pre + block + end)[..|pre|] == pre && (pre + block + end)[|pre|..] == block + end
    ensures |pre| >= 2 ==> (pre + block + end)[|pre| - 2..|pre|] == pre[|pre| - 2..]
  {
  }

  // The lines of the block.

  /** Each text on a line of its own, followed by an empty line. */
  function Spaced(texts: seq<string>): seq<string> {
    if texts == [] then [] else Spaced(texts[..|texts| - 1]) + [texts[|texts| - 1], ""]
  }

  lemma {:induction false} SpacedLines(header: seq<string>, texts: seq<string>)
    ensures Lines(header + Spaced(texts)) == Lines(header) + Bullets(texts)
  {
    if texts == [] {
      assert header + [] == header;
    } else {
      var init, t := texts[..|texts| - 1], texts[|texts| - 1];
      SpacedLines(header, init);
      OneMoreBullet(header + Spaced(init), Lines(header), init, t);
      TwoMore(header, Spaced(init), t);
      assert texts == init + [t];
    }
  }

  lemma TwoMore(header: seq<string>, lines: seq<string>, t: string)
    ensures header + (lines + [t, ""]) == (header + lines) + [t] + [""]
  {
  }

  /** The lines of the block: the markers around the notice and one bullet for each entry, in
      the rendered order, with an empty line after each. */
  lemma BlockIsLines(m: Markers, es: seq<Entry>)
    ensures Block(m, es)
         == Join("\n", [m.begin, "", m.notice, ""] + Spaced(Rendered(Sorted(es))) + [m.end])
  {
    var header, texts := [m.begin, "", m.notice, ""], Rendered(Sorted(es));
    HeaderLines(m);
    SpacedLines(header, texts);
    JoinedBlock(m, header + Spaced(texts), Bullets(texts));
  }

  /** A bullet is its parts in order, without the white space at the end. */
  lemma BulletSays(e: Entry)
    ensures var word := if e.kind == Decision then "DECISION" else if e.kind == Gotcha then "GOTCHA" else "CONVENTION";
            var scope := if e.path == "" then "" else " (`" + e.path + "`)";
            var line := "- **" + word + "**" + scope + ": " + e.title + " \U{2014} " + e.body;
            && Bullet(e) <= line && IsBlank(line[|Bullet(e)|..])
            && Bullet(e) != "" && !IsSpace(Bullet(e)[|Bullet(e)| - 1])
  {
    var scope := if e.path != "" then " (`" + e.path + "`)" else "";
    var start := "- **" + Label(e.kind) + "**" + scope + ": " + e.title;
    var line := start + " \U{2014} " + e.body;
    RStripStrips(line);
    SomethingLeft(line);
  }

  lemma SomethingLeft(line: string)
    requires line != "" && !IsSpace(line[0])
    ensures RStrip(line) != ""
  {
    RStripStrips(line);
    assert line[0..] == line;
  }

  /** How the kinds are written in the sort key. */
  function Name(k: Kind): string {
    match k case Convention => "convention" case Decision => "decision" case Gotcha => "gotcha"
  }

  /** The bullets come in the order of the names of their kinds, and of their titles within one
      kind, each entry once. */
  lemma SortedByName(es: seq<Entry>, i: nat)
    requires 0 < i < |Sorted(es)|
    ensures multiset(Sorted(es)) == multiset(es)
    ensures var a, b := Sorted(es)[i - 1], Sorted(es)[i];
            if a.kind == b.kind then NotAfter(a.title, b.title) else NotAfter(Name(a.kind), Name(b.kind))
  {
    SortedSorts(es);
    assert Before(Sorted(es)[i - 1], Sorted(es)[i]);
  }
}
