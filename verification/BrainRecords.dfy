/** What the knowledge store holds of an entry (`brain/store.py`, `core/models/knowledge.py`).

    Every field of every entry is told here from the calls of the run alone: the candidate that
    made it, the reports that found it and the calls that named it. Strings, numbers and the
    test for a duplicate are written out. */
module BrainRecords {
  import opened Wrappers
  import opened PyText
  import opened BrainStore

  // Which entry a candidate is a duplicate of.

  /** The same letter, whatever its case, among the letters of ASCII. */
  predicate SameLetter(a: char, b: char) {
    || a == b
    || ('A' <= a <= 'Z' && b as int == a as int + 32)
    || ('A' <= b <= 'Z' && a as int == b as int + 32)
  }

  lemma {:induction false} FoldsAlikeExactly(a: string, b: string)
    ensures Casefold(a) == Casefold(b) <==> |a| == |b| && forall i | 0 <= i < |a| :: SameLetter(a[i], b[i])
  {
    if a != "" && b != "" {
      FoldsAlikeExactly(a[1..], b[1..]);
      FoldsFirst(a);
      FoldsFirst(b);
      LettersFold(a[0], b[0]);
      if |a| == |b| && forall i | 0 <= i < |a[1..]| :: SameLetter(a[1..][i], b[1..][i]) {
        assert forall i | 1 <= i < |a| :: a[i] == a[1..][i - 1] && b[i] == b[1..][i - 1];
      }
      if |a| == |b| && forall i | 0 <= i < |a| :: SameLetter(a[i], b[i]) {
        assert forall i | 0 <= i < |a[1..]| :: a[1..][i] == a[i + 1] && b[1..][i] == b[i + 1];
      }
    }
  }

  lemma FoldsFirst(s: string)
    requires s != ""
    ensures Casefold(s)[0] == FoldChar(s[0]) && Casefold(s)[1..] == Casefold(s[1..])
    ensures Casefold(s) == [Casefold(s)[0]] + Casefold(s)[1..]
  {
  }

  lemma LettersFold(a: char, b: char)
    ensures FoldChar(a) == FoldChar(b) <==> SameLetter(a, b)
  {
  }

  /** The entry is not retired, has the candidate's title but for case and the space around
      it, and the candidate's path. */
  predicate Duplicates(e: Entry, c: Candidate) {
    && e.status != Retired
    && Casefold(Strip(e.title)) == Casefold(Strip(c.title))
    && e.anchorPath == c.anchorPath
  }

  /** In every run a promotion reports the newest entry that the candidate duplicates; with
      none it makes one, unless the candidate has no title. */
  lemma PromotionExactly(h: History, c: Candidate)
    ensures match Resolve(Entries(h), Promote(c))
            case Report(i, lane) =>
              && lane == c.sourceLane && i < |Entries(h)| && Duplicates(Entries(h)[i], c)
              && forall j | i < j < |Entries(h)| :: !Duplicates(Entries(h)[j], c)
            case Make(_) => Strip(c.title) != "" && forall j | 0 <= j < |Entries(h)| :: !Duplicates(Entries(h)[j], c)
            case Refuse => Strip(c.title) == "" && forall j | 0 <= j < |Entries(h)| :: !Duplicates(Entries(h)[j], c)
            case _ => false
  {
    var es, ks := Entries(h), LiveKeys(Entries(h));
    forall j | 0 <= j < |es| ensures ks[j] == Some(Sought(c)) <==> Duplicates(es[j], c) {
      NormalTitles(h, j);
    }
    FoundIsNewest(ks, |ks|, Sought(c));
  }

  lemma {:induction false} FoundIsNewest<K>(ks: seq<Option<K>>, n: nat, k: K)
    requires n <= |ks|
    ensures FindLast(ks, n, k).Some? ==> forall j | FindLast(ks, n, k).value < j < n :: ks[j] != Some(k)
  {
    if n > 0 && ks[n - 1] != Some(k) {
      FoundIsNewest(ks, n - 1, k);
    }
  }

  // The fields.

  function Shortened(title: string): string {
    if |Strip(title)| > 200 then Strip(Strip(title)[..200]) else Strip(Strip(title))
  }

  /** The candidate whose promotion made entry `i`. */
  function Maker(h: History, i: nat): (c: Option<Candidate>)
  {
    match h
    case Start => None
    case Then(p, t) =>
      if i == |Entries(p)| && t.Promote? && i < |Entries(h)| then Some(t.c) else Maker(p, i)
  }

  /** The last call that named entry `i` to supersede or retire it says what it is. */
  function StatusIn(h: History, i: nat): Status {
    match h
    case Start => Active
    case Then(p, Supersede(j)) => if i == j && i < |Entries(p)| then Stale else StatusIn(p, i)
    case Then(p, Retire(j)) => if i == j && i < |Entries(p)| then Retired else StatusIn(p, i)
    case Then(p, _) => StatusIn(p, i)
  }

  /** The promotion `c` reports entry `i`, in the name of another lane than the entry's own,
      both having names. */
  predicate SecondName(p: History, c: Candidate, i: nat) {
    && i < |Entries(p)| && Resolve(Entries(p), Promote(c)) == Report(i, c.sourceLane)
    && c.sourceLane != "" && Entries(p)[i].sourceLane != "" && c.sourceLane != Entries(p)[i].sourceLane
  }

  /** Who is said to have promoted entry `i`, and who to have confirmed it. */
  function PromoterIn(h: History, i: nat): string {
    match h
    case Start => ""
    case Then(p, Promote(c)) =>
      if i >= |Entries(p)| then Strip(c.promotedBy)
      else if SecondName(p, c, i) then "corroborated"
      else PromoterIn(p, i)
    case Then(p, _) => PromoterIn(p, i)
  }

  function ConfirmerIn(h: History, i: nat): string {
    match h
    case Start => ""
    case Then(p, Promote(c)) =>
      if i >= |Entries(p)| then (if c.promotedBy == "human" then "human" else "")
      else if SecondName(p, c, i) && ConfirmerIn(p, i) == "" then "corroborated"
      else ConfirmerIn(p, i)
    case Then(p, Confirm(j, who)) => if i == j && i < |Entries(p)| then Strip(who) else ConfirmerIn(p, i)
    case Then(p, _) => ConfirmerIn(p, i)
  }

  /** The candidate's own fields, cut and stripped as they are when they are kept. */
  ghost predicate KeptFrom(e: Entry, c: Candidate) {
    && e.title == Shortened(c.title) && e.body == Strip(c.body)
    && e.anchorPath == Strip(c.anchorPath) && e.sourceLane == Strip(c.sourceLane)
  }

  ghost predicate RecordTold(h: History, i: nat)
    requires i < |Entries(h)|
  {
    var e := Entries(h)[i];
    && Maker(h, i).Some? && KeptFrom(e, Maker(h, i).value)
    && e.status == StatusIn(h, i) && e.promotedBy == PromoterIn(h, i) && e.confirmedBy == ConfirmerIn(h, i)
  }

  lemma MadeIsTold(p: History, t: Step)
    requires |Entries(Then(p, t))| > |Entries(p)|
    ensures RecordTold(Then(p, t), |Entries(p)|)
  {
    var a := Resolve(Entries(p), t);
    GrowsByOne(Entries(p), a);
    assert t.Promote? && a == Make(NewEntry(t.c));
    NewEntryKeeps(t.c);
    NoStatusYet(p, |Entries(p)|);
  }

  lemma NewEntryKeeps(c: Candidate)
    ensures var e := NewEntry(c);
            && KeptFrom(e, c) && e.status == Active && e.promotedBy == Strip(c.promotedBy)
            && e.confirmedBy == (if c.promotedBy == "human" then "human" else "")
  {
  }

  lemma {:induction false} NoStatusYet(h: History, i: nat)
    requires i >= |Entries(h)|
    ensures StatusIn(h, i) == Active
  {
    if h.Then? {
      GrowsByOne(Entries(h.past), Resolve(Entries(h.past), h.step));
      NoStatusYet(h.past, i);
    }
  }

  lemma ReportIsTold(p: History, c: Candidate, i: nat)
    requires i < |Entries(p)| && RecordTold(p, i)
    ensures i < |Entries(Then(p, Promote(c)))| && RecordTold(Then(p, Promote(c)), i)
  {
    var es := Entries(p);
    var a := Resolve(es, Promote(c));
    GrowsByOne(es, a);
    if a.Report? && a.at == i {
      WitnessCount(es[i].sourceLane, c.sourceLane);
    }
  }

  lemma ConfirmIsTold(p: History, j: nat, who: string, i: nat)
    requires i < |Entries(p)| && RecordTold(p, i)
    ensures i < |Entries(Then(p, Confirm(j, who)))| && RecordTold(Then(p, Confirm(j, who)), i)
  {
  }

  lemma SupersedeIsTold(p: History, j: nat, i: nat)
    requires i < |Entries(p)| && RecordTold(p, i)
    ensures i < |Entries(Then(p, Supersede(j)))| && RecordTold(Then(p, Supersede(j)), i)
  {
  }

  lemma RetireIsTold(p: History, j: nat, i: nat)
    requires i < |Entries(p)| && RecordTold(p, i)
    ensures i < |Entries(Then(p, Retire(j)))| && RecordTold(Then(p, Retire(j)), i)
  {
  }

  /** In every run the title, body, path and lane of an entry are those of the candidate that
      made it, and its status, promoter and confirmer are told by the calls since. */
  lemma {:induction false} RecordIsTold(h: History, i: nat)
    requires i < |Entries(h)|
    ensures RecordTold(h, i)
  {
    var p, t := h.past, h.step;
    GrowsByOne(Entries(p), Resolve(Entries(p), t));
    if i == |Entries(p)| {
      MadeIsTold(p, t);
    } else {
      RecordIsTold(p, i);
      match t
      case Promote(c) => ReportIsTold(p, c, i);
      case Confirm(j, who) => ConfirmIsTold(p, j, who, i);
      case Supersede(j) => SupersedeIsTold(p, j, i);
      case Retire(j) => RetireIsTold(p, j, i);
    }
  }

  // The confidence.

  /** A human made the entry, or somebody confirmed it. */
  predicate VouchedIn(h: History, i: nat) {
    match h
    case Start => false
    case Then(p, Promote(c)) => if i >= |Entries(p)| then c.promotedBy == "human" else VouchedIn(p, i)
    case Then(p, Confirm(j, _)) => (i == j && i < |Entries(p)|) || VouchedIn(p, i)
    case Then(p, _) => VouchedIn(p, i)
  }

  lemma {:induction false} VouchedIsTold(h: History, i: nat)
    requires i < |Entries(h)|
    ensures Vouched(h, i) == VouchedIn(h, i)
  {
    var p, t := h.past, h.step;
    var a := Resolve(Entries(p), t);
    GrowsByOne(Entries(p), a);
    if i == |Entries(p)| {
      assert t.Promote? && a == Make(NewEntry(t.c));
      NewEntryKeeps(t.c);
    } else {
      VouchedIsTold(p, i);
    }
  }

  lemma {:induction false} IndependentExactly(source: string, lanes: seq<string>)
    ensures AnyIndependent(source, lanes)
       <==> source != "" && exists k | 0 <= k < |lanes| :: lanes[k] != "" && lanes[k] != source
  {
    if lanes != [] {
      var front := lanes[..|lanes| - 1];
      IndependentExactly(source, front);
      assert forall k | 0 <= k < |front| :: front[k] == lanes[k];
    }
  }

  lemma {:induction false} SameExactly(source: string, lanes: seq<string>)
    ensures AllSame(source, lanes) <==> forall k | 0 <= k < |lanes| :: lanes[k] == source && source != ""
  {
    if lanes != [] {
      var front := lanes[..|lanes| - 1];
      SameExactly(source, front);
      assert forall k | 0 <= k < |front| :: front[k] == lanes[k];
    }
  }

  /** In every run: 0.8 once two lanes that both have names stand behind an entry; else 1 if
      somebody vouched for it; else 0.45 while nobody but its own lane, by name, reported it,
      and 0.6 after any other report. */
  lemma ConfidenceIsTold(h: History, i: nat)
    requires i < |Entries(h)|
    ensures var e, lanes := Entries(h)[i], Reports(h, i);
            e.confidence
            == if e.sourceLane != "" && (exists k | 0 <= k < |lanes| :: lanes[k] != "" && lanes[k] != e.sourceLane) then 0.8
               else if VouchedIn(h, i) then 1.0
               else if forall k | 0 <= k < |lanes| :: lanes[k] == e.sourceLane && e.sourceLane != "" then 0.45
               else 0.6
  {
    ConfidenceIsBelief(h, i);
    VouchedIsTold(h, i);
    IndependentExactly(Entries(h)[i].sourceLane, Reports(h, i));
    SameExactly(Entries(h)[i].sourceLane, Reports(h, i));
  }
}
