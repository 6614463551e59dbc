/** The durable knowledge of a repository (`brain/store.py`, with the entry model of
    `core/models/knowledge.py`): promotion of candidates, detection of duplicates and
    the corroboration rule.

    The persisted models strip the white space around every string they are given,
    which the candidates they are compared with have not been through. */
module BrainStore {
  import opened Wrappers
  import opened PyText

  const Uncorroborated: real := 0.45
  const AnonymousWitness: real := 0.6
  const CorroboratedConfidence: real := 0.8
  const InjectionFloor: real := 0.5
  const CorroborationThreshold: nat := 2
  const TitleLimit: nat := 200

  datatype Status = Active | Stale | Retired

  /** An entry. `normalTitle` is what the comparison of titles makes of `title`. */
  datatype Entry = Entry(
    title: string, normalTitle: string, body: string, anchorPath: string, sourceLane: string, promotedBy: string,
    confirmedBy: string, confidence: real, status: Status)

  datatype Candidate = Candidate(
    title: string, body: string, anchorPath: string, sourceLane: string, promotedBy: string)

  function FoldChar(c: char): char {
    if 'A' <= c <= 'Z' then c - 'A' + 'a' else c
  }

  /** `casefold`, on the letters of ASCII. */
  function Casefold(s: string): (r: string)
    ensures |r| == |s|
  {
    if s == "" then "" else [FoldChar(s[0])] + Casefold(s[1..])
  }

  function Normalised(title: string): string { Casefold(Strip(title)) }

  /** The validator of `title`, and the stripping of every field after it. */
  function StoredTitle(title: string): string {
    var text := Strip(title);
    Strip(if |text| > TitleLimit then text[..TitleLimit] else text)
  }

  type Key = (string, string)

  function KeyOf(e: Entry): Key { (e.normalTitle, e.anchorPath) }

  /** What `_find_match` looks for, and what it would find of an entry made from `c`. */
  function Sought(c: Candidate): Key { (Normalised(c.title), c.anchorPath) }
  function Kept(c: Candidate): Key { (Normalised(StoredTitle(c.title)), Strip(c.anchorPath)) }

  function NewEntry(c: Candidate): Entry {
    var human := c.promotedBy == "human";
    Entry(StoredTitle(c.title), Normalised(StoredTitle(c.title)), Strip(c.body), Strip(c.anchorPath), Strip(c.sourceLane), Strip(c.promotedBy),
          if human then "human" else "", if human then 1.0 else Uncorroborated, Active)
  }

  /** The key under which an entry can be found; a retired one never is. */
  function LiveKey(e: Entry): Option<Key> {
    if e.status == Retired then None else Some(KeyOf(e))
  }

  function LiveKeys(es: seq<Entry>): (ks: seq<Option<Key>>)
    ensures |ks| == |es| && forall i | 0 <= i < |es| :: ks[i] == LiveKey(es[i])
  {
    seq(|es|, i requires 0 <= i < |es| => LiveKey(es[i]))
  }

  /** The newest of the first `n` places that holds `k`. */
  function FindLast<K(==)>(ks: seq<Option<K>>, n: nat, k: K): (i: Option<nat>)
    requires n <= |ks|
    ensures i.Some? ==> i.value < n && ks[i.value] == Some(k)
    ensures i.None? ==> forall j | 0 <= j < n :: ks[j] != Some(k)
  {
    if n == 0 then None
    else if ks[n - 1] == Some(k) then Some(n - 1)
    else FindLast(ks, n - 1, k)
  }

  predicate SameSource(source: string, lane: string) {
    lane != "" && lane == source
  }

  function Witnesses(source: string, lane: string): set<string> {
    {source, lane} - {""}
  }

  function Max(a: real, b: real): real { if a >= b then a else b }
  function Min(a: real, b: real): real { if a <= b then a else b }

  /** `_corroborate`. */
  function Corroborated(e: Entry, lane: string): Entry {
    if SameSource(e.sourceLane, lane) then e
    else if |Witnesses(e.sourceLane, lane)| < CorroborationThreshold then
      e.(confidence := Max(e.confidence, Min(CorroboratedConfidence, AnonymousWitness)))
    else
      e.(confidence := CorroboratedConfidence, promotedBy := "corroborated",
         confirmedBy := if e.confirmedBy != "" then e.confirmedBy else "corroborated")
  }

  lemma WitnessCount(source: string, lane: string)
    ensures |Witnesses(source, lane)| >= CorroborationThreshold
       <==> source != "" && lane != "" && source != lane
  {
    if source != "" && lane != "" && source != lane {
      assert Witnesses(source, lane) == {source, lane};
    } else if lane != "" {
      assert Witnesses(source, lane) == {lane};
    } else if source != "" {
      assert Witnesses(source, lane) == {source};
    } else {
      assert Witnesses(source, lane) == {};
    }
  }

  /** What a step comes to: a report of an entry that is there, a new entry, nothing,
      a human's word or a change of status. */
  datatype Act =
    | Report(at: nat, lane: string)
    | Make(entry: Entry)
    | Refuse
    | Vouch(at: nat, who: string)
    | Demote(at: nat, status: Status)

  function Do(es: seq<Entry>, a: Act): seq<Entry> {
    match a
    case Report(i, lane) => if i < |es| then es[i := Corroborated(es[i], lane)] else es
    case Make(e) => es + [e]
    case Refuse => es
    case Vouch(i, who) => if i < |es| then es[i := es[i].(confirmedBy := who, confidence := 1.0)] else es
    case Demote(i, status) => if i < |es| then es[i := es[i].(status := status)] else es
  }

  datatype Step =
    | Promote(c: Candidate)
    | Confirm(entry: nat, who: string)
    | Supersede(entry: nat)
    | Retire(entry: nat)

  /** `promote`: `made` is what it comes to when no entry has the key. */
  function Promotion(es: seq<Entry>, sought: Key, lane: string, made: Act): Act {
    match FindLast(LiveKeys(es), |es|, sought)
    case Some(i) => Report(i, lane)
    case None => made
  }

  /** A candidate without a title is refused when it would make an entry. */
  function Made(c: Candidate): Act {
    if Strip(c.title) == "" then Refuse else Make(NewEntry(c))
  }

  function Resolve(es: seq<Entry>, t: Step): Act {
    match t
    case Promote(c) => Promotion(es, Sought(c), c.sourceLane, Made(c))
    case Confirm(i, who) => Vouch(i, Strip(who))
    case Supersede(i) => Demote(i, Stale)
    case Retire(i) => Demote(i, Retired)
  }

  function Promoted(es: seq<Entry>, c: Candidate): seq<Entry> {
    Do(es, Resolve(es, Promote(c)))
  }

  datatype History = Start | Then(past: History, step: Step)

  /** The entries, in the order they were made. */
  function Entries(h: History): seq<Entry> {
    match h
    case Start => []
    case Then(p, t) => Do(Entries(p), Resolve(Entries(p), t))
  }

  // At most one entry for a key.

  ghost predicate UniqueKeys<K(!new)>(ks: seq<Option<K>>) {
    forall i, j | 0 <= i < j < |ks| && ks[i].Some? :: ks[i] != ks[j]
  }

  ghost predicate Unique(es: seq<Entry>) { UniqueKeys(LiveKeys(es)) }

  /** The candidate is looked for under the key it would be kept under. */
  predicate Stable(c: Candidate) {
    |Strip(c.title)| <= TitleLimit && Strip(c.anchorPath) == c.anchorPath
  }

  lemma StoredTitleFits(title: string)
    ensures |Strip(title)| <= TitleLimit ==> Normalised(StoredTitle(title)) == Normalised(title)
    ensures |Strip(title)| > TitleLimit ==> Normalised(StoredTitle(title)) != Normalised(title)
  {
    StripStrips(title);
    StripStrips(Strip(title));
    StripStrips(StoredTitle(title));
    if |Strip(title)| > TitleLimit {
      StripStrips(Strip(title)[..TitleLimit]);
      assert |StoredTitle(title)| <= TitleLimit;
    }
  }

  /** Case folding by a table: what each character becomes, put together. */
  function FoldWith(fold: char -> string, s: string): string {
    if s == "" then "" else fold(s[0]) + FoldWith(fold, s[1..])
  }

  lemma {:induction false} FoldSplits(fold: char -> string, a: string, b: string)
    requires forall c :: fold(c) != ""
    ensures FoldWith(fold, a + b) == FoldWith(fold, a) + FoldWith(fold, b)
    ensures b != "" ==> FoldWith(fold, b) != ""
    decreases |a|
  {
    if a == "" {
      assert a + b == b;
    } else {
      assert (a + b)[1..] == a[1..] + b;
      FoldSplits(fold, a[1..], b);
      Assoc(fold(a[0]), FoldWith(fold, a[1..]), FoldWith(fold, b));
    }
  }

  lemma CutTitle(title: string)
    requires |Strip(title)| > TitleLimit
    ensures Strip(StoredTitle(title)) <= Strip(title) && |Strip(StoredTitle(title))| <= TitleLimit
  {
    var s := Strip(title);
    StripStrips(title);
    StripStrips(StoredTitle(title));
    StripStrips(s[..TitleLimit]);
    assert LStrip(s[..TitleLimit]) == s[..TitleLimit];
    RStripStrips(s[..TitleLimit]);
  }

  /** Whatever the table, as long as no character vanishes, a stored title folds to what
      the title it was made from folds to exactly when that has at most 200 characters
      without the space around it. */
  lemma StoredTitleFitsExactly(fold: char -> string, title: string)
    requires forall c :: fold(c) != ""
    ensures FoldWith(fold, Strip(StoredTitle(title))) == FoldWith(fold, Strip(title))
       <==> |Strip(title)| <= TitleLimit
  {
    if |Strip(title)| <= TitleLimit {
      WholeTitle(title);
    } else {
      CutTitle(title);
      FoldsShorter(fold, Strip(StoredTitle(title)), Strip(title));
    }
  }

  lemma WholeTitle(title: string)
    requires |Strip(title)| <= TitleLimit
    ensures Strip(StoredTitle(title)) == Strip(title)
  {
    StripStrips(title);
    StripStrips(Strip(title));
  }

  lemma FoldsShorter(fold: char -> string, part: string, s: string)
    requires part <= s && |part| < |s| && forall c :: fold(c) != ""
    ensures FoldWith(fold, part) != FoldWith(fold, s)
  {
    assert s == part + s[|part|..];
    FoldSplits(fold, part, s[|part|..]);
  }

  lemma StableExactly(c: Candidate)
    ensures Stable(c) <==> Sought(c) == Kept(c)
  {
    StoredTitleFits(c.title);
  }

  lemma NewEntryKey(c: Candidate)
    ensures LiveKey(NewEntry(c)) == Some(Kept(c))
  {
  }

  lemma CorroborationKeepsKey(e: Entry, lane: string)
    ensures var d := Corroborated(e, lane);
            d.normalTitle == e.normalTitle && d.anchorPath == e.anchorPath && d.status == e.status && d.sourceLane == e.sourceLane
  {
  }

  lemma SameKey(d: Entry, e: Entry)
    requires d.normalTitle == e.normalTitle && d.anchorPath == e.anchorPath
    ensures KeyOf(d) == KeyOf(e)
  {
  }

  lemma LiveKeysUpdate(es: seq<Entry>, i: nat, e: Entry)
    requires i < |es|
    ensures LiveKeys(es[i := e]) == LiveKeys(es)[i := LiveKey(e)]
  {
  }

  lemma LiveKeysSnoc(es: seq<Entry>, e: Entry)
    ensures LiveKeys(es + [e]) == LiveKeys(es) + [LiveKey(e)]
  {
  }

  /** An entry that keeps its key, or loses it, leaves the keys unique. */
  lemma UpdateKeepsUnique(es: seq<Entry>, i: nat, e: Entry)
    requires Unique(es) && i < |es| && e.normalTitle == es[i].normalTitle && e.anchorPath == es[i].anchorPath
    requires e.status != Retired ==> es[i].status != Retired
    ensures Unique(es[i := e])
  {
    SameKey(e, es[i]);
    LiveKeysUpdate(es, i, e);
    UniqueUpdate(LiveKeys(es), i, LiveKey(e));
  }

  lemma UniqueUpdate<K(!new)>(ks: seq<Option<K>>, i: nat, k: Option<K>)
    requires UniqueKeys(ks) && i < |ks| && (k == None || k == ks[i])
    ensures UniqueKeys(ks[i := k])
  {
  }

  lemma UniqueSnoc<K(!new)>(ks: seq<Option<K>>, k: K)
    requires UniqueKeys(ks) && FindLast(ks, |ks|, k).None?
    ensures UniqueKeys(ks + [Some(k)])
  {
  }

  lemma ReportKeepsUnique(es: seq<Entry>, i: nat, lane: string)
    requires Unique(es)
    ensures Unique(Do(es, Report(i, lane)))
  {
    if i < |es| {
      CorroborationKeepsKey(es[i], lane);
      UpdateKeepsUnique(es, i, Corroborated(es[i], lane));
    }
  }

  lemma MakeKeepsUnique(es: seq<Entry>, e: Entry, k: Key)
    requires Unique(es) && LiveKey(e) == Some(k) && FindLast(LiveKeys(es), |es|, k).None?
    ensures Unique(Do(es, Make(e)))
  {
    LiveKeysSnoc(es, e);
    UniqueSnoc(LiveKeys(es), k);
  }

  lemma TakenKey<K(!new)>(ks: seq<Option<K>>, k: K)
    requires FindLast(ks, |ks|, k).Some?
    ensures !UniqueKeys(ks + [Some(k)])
  {
    var i := FindLast(ks, |ks|, k).value;
    assert (ks + [Some(k)])[i] == (ks + [Some(k)])[|ks|];
  }

  /** A promotion that searched earlier, while another one ran, and now saves a new entry
      keeps the keys unique exactly when its key is still free. */
  lemma LateSaveExactly(es: seq<Entry>, e: Entry, k: Key)
    requires Unique(es) && LiveKey(e) == Some(k)
    ensures Unique(Do(es, Make(e))) <==> FindLast(LiveKeys(es), |es|, k).None?
  {
    LiveKeysSnoc(es, e);
    if FindLast(LiveKeys(es), |es|, k).None? {
      UniqueSnoc(LiveKeys(es), k);
    } else {
      TakenKey(LiveKeys(es), k);
    }
  }

  lemma PromotionKeepsUnique(es: seq<Entry>, k: Key, lane: string, made: Act)
    requires Unique(es)
    requires made.Refuse? || (made.Make? && LiveKey(made.entry) == Some(k))
    ensures Unique(Do(es, Promotion(es, k, lane, made)))
  {
    match FindLast(LiveKeys(es), |es|, k)
    case Some(i) => ReportKeepsUnique(es, i, lane);
    case None => if made.Make? { MakeKeepsUnique(es, made.entry, k); }
  }

  lemma PromoteKeepsUnique(es: seq<Entry>, c: Candidate)
    requires Unique(es) && Stable(c)
    ensures Unique(Promoted(es, c))
  {
    StableExactly(c);
    NewEntryKey(c);
    PromotionKeepsUnique(es, Sought(c), c.sourceLane, Made(c));
  }

  lemma LiveKeysUpdateTo(es: seq<Entry>, i: nat, e: Entry, k: Option<Key>)
    requires i < |es| && LiveKey(e) == k
    ensures LiveKeys(es[i := e]) == LiveKeys(es)[i := k]
  {
    LiveKeysUpdate(es, i, e);
  }

  lemma LiveKeyAt(es: seq<Entry>, i: nat)
    requires i < |es|
    ensures LiveKeys(es)[i] == LiveKey(es[i])
  {
  }

  lemma SupersededKey(e: Entry)
    ensures LiveKey(e.(status := Stale)) == Some(KeyOf(e))
  {
    SameKey(e.(status := Stale), e);
  }

  predicate MaySupersede(es: seq<Entry>, i: nat)
    requires i < |es|
  {
    es[i].status != Retired || FindLast(LiveKeys(es), |es|, KeyOf(es[i])).None?
  }

  lemma Demotes(es: seq<Entry>, i: nat, d: Entry)
    requires i < |es| && d == es[i].(status := Stale)
    ensures Do(es, Demote(i, Stale)) == es[i := d]
  {
  }

  lemma UniqueAfter(es: seq<Entry>, i: nat, d: Entry, k: Key, retired: bool)
    requires i < |es| && Unique(es) && LiveKey(d) == Some(k)
    requires LiveKeys(es)[i] == if retired then None else Some(k)
    ensures Unique(es[i := d]) <==> !retired || FindLast(LiveKeys(es), |es|, k).None?
  {
    LiveKeysUpdateTo(es, i, d, Some(k));
    Revived(LiveKeys(es), i, k, retired);
  }

  /** Superseding an entry keeps the keys unique exactly when it is not a retired one
      whose key another entry has taken: superseding brings that one back. */
  lemma SupersedeExactly(es: seq<Entry>, i: nat)
    requires Unique(es) && i < |es|
    ensures Unique(Do(es, Demote(i, Stale))) <==> MaySupersede(es, i)
  {
    Demotes(es, i, es[i].(status := Stale));
    SupersededKey(es[i]);
    LiveKeyAt(es, i);
    UniqueAfter(es, i, es[i].(status := Stale), KeyOf(es[i]), es[i].status == Retired);
  }

  lemma Revived<K(!new)>(ks: seq<Option<K>>, i: nat, k: K, retired: bool)
    requires UniqueKeys(ks) && i < |ks| && ks[i] == if retired then None else Some(k)
    ensures UniqueKeys(ks[i := Some(k)]) <==> !retired || FindLast(ks, |ks|, k).None?
  {
    var revived := ks[i := Some(k)];
    if retired && FindLast(ks, |ks|, k).Some? {
      var j := FindLast(ks, |ks|, k).value;
      assert revived[j] == revived[i] && i != j;
    }
  }

  predicate AllStable(h: History) {
    h.Then? ==> AllStable(h.past) && (h.step.Promote? ==> Stable(h.step.c))
  }

  /** No supersession brings back an entry whose key has been taken. */
  predicate NoneRevived(h: History) {
    h.Then? ==>
      && NoneRevived(h.past)
      && (h.step.Supersede? && h.step.entry < |Entries(h.past)| ==> MaySupersede(Entries(h.past), h.step.entry))
  }

  lemma VouchKeepsUnique(es: seq<Entry>, i: nat, who: string)
    requires Unique(es)
    ensures Unique(Do(es, Vouch(i, who)))
  {
    if i < |es| { UpdateKeepsUnique(es, i, es[i].(confirmedBy := who, confidence := 1.0)); }
  }

  lemma RetireKeepsUnique(es: seq<Entry>, i: nat)
    requires Unique(es)
    ensures Unique(Do(es, Demote(i, Retired)))
  {
    if i < |es| { UpdateKeepsUnique(es, i, es[i].(status := Retired)); }
  }

  /** A new entry finds its key free, and a supersession revives no entry whose key has
      been taken. */
  predicate SafeAct(es: seq<Entry>, a: Act) {
    && (a.Make? ==> FindLast(LiveKeys(es), |es|, KeyOf(a.entry)).None?)
    && (a.Demote? && a.status == Stale && a.at < |es| ==> MaySupersede(es, a.at))
  }

  lemma ActKeepsUniqueExactly(es: seq<Entry>, a: Act)
    requires Unique(es)
    requires a.Make? ==> a.entry.status == Active
    requires a.Demote? ==> a.status != Active
    ensures Unique(Do(es, a)) <==> SafeAct(es, a)
  {
    match a
    case Report(i, lane) => ReportKeepsUnique(es, i, lane);
    case Make(e) => LateSaveExactly(es, e, KeyOf(e));
    case Refuse =>
    case Vouch(i, who) => VouchKeepsUnique(es, i, who);
    case Demote(i, status) =>
      if status == Retired { RetireKeepsUnique(es, i); } else if i < |es| { SupersedeExactly(es, i); }
  }

  /** The keys are unique after every step of the run. */
  ghost predicate UniqueThroughout(h: History) {
    Unique(Entries(h)) && (h.Then? ==> UniqueThroughout(h.past))
  }

  predicate SafeThroughout(h: History) {
    h.Then? ==> SafeThroughout(h.past) && SafeAct(Entries(h.past), Resolve(Entries(h.past), h.step))
  }

  /** Over every run of promotions, confirmations, supersessions and retirements there is at
      all times at most one entry that is not retired for a title and path, if and only if
      every promotion that makes an entry finds the key of that entry free and no
      supersession revives an entry whose key has been taken. */
  lemma {:induction false} UniqueExactly(h: History)
    ensures UniqueThroughout(h) <==> SafeThroughout(h)
  {
    if h.Then? {
      var es := Entries(h.past);
      UniqueExactly(h.past);
      ResolvedIsLive(es, h.step);
      if Unique(es) {
        ActKeepsUniqueExactly(es, Resolve(es, h.step));
      }
    }
  }

  lemma ResolvedIsLive(es: seq<Entry>, t: Step)
    ensures Resolve(es, t).Make? ==> Resolve(es, t).entry.status == Active
    ensures Resolve(es, t).Demote? ==> Resolve(es, t).status != Active
  {
  }

  lemma PromotionIsSafe(es: seq<Entry>, k: Key, lane: string, made: Act)
    requires made.Refuse? || (made.Make? && LiveKey(made.entry) == Some(k))
    ensures SafeAct(es, Promotion(es, k, lane, made))
  {
  }

  lemma StableIsSafe(es: seq<Entry>, c: Candidate)
    requires Stable(c)
    ensures SafeAct(es, Resolve(es, Promote(c)))
  {
    StableExactly(c);
    NewEntryKey(c);
    PromotionIsSafe(es, Sought(c), c.sourceLane, Made(c));
  }

  /** That is so when the titles fit, no path has space around it and no supersession
      revives an entry. */
  lemma {:induction false} OneEntryPerKey(h: History)
    requires AllStable(h) && NoneRevived(h)
    ensures UniqueThroughout(h)
  {
    StableRunIsSafe(h);
    UniqueExactly(h);
  }

  lemma {:induction false} StableRunIsSafe(h: History)
    requires AllStable(h) && NoneRevived(h)
    ensures SafeThroughout(h)
  {
    if h.Then? {
      StableRunIsSafe(h.past);
      if h.step.Promote? {
        StableIsSafe(Entries(h.past), h.step.c);
      }
    }
  }

  /** The entries after the same candidate has been promoted `n` times. */
  function Repeated(sought: Key, lane: string, made: Act, n: nat): seq<Entry> {
    if n == 0 then []
    else
      var es := Repeated(sought, lane, made, n - 1);
      Do(es, Promotion(es, sought, lane, made))
  }

  lemma {:induction false} RepeatedUnique(k: Key, lane: string, made: Act, n: nat)
    requires made.Make? && LiveKey(made.entry) == Some(k)
    ensures Unique(Repeated(k, lane, made, n))
  {
    if n > 0 {
      RepeatedUnique(k, lane, made, n - 1);
      PromotionKeepsUnique(Repeated(k, lane, made, n - 1), k, lane, made);
    }
  }

  lemma LiveKeysAlone(e: Entry, k: Key)
    requires LiveKey(e) == Some(k)
    ensures LiveKeys([e]) == [Some(k)] && LiveKeys([e] + [e]) == [Some(k), Some(k)]
  {
  }

  lemma MakesAgain(es: seq<Entry>, sought: Key, lane: string, e: Entry)
    requires FindLast(LiveKeys(es), |es|, sought).None?
    ensures Do(es, Promotion(es, sought, lane, Make(e))) == es + [e]
  {
  }

  /** The second promotion of a candidate that is kept under another key than the one it
      is looked for under. */
  lemma RepeatedTwice(sought: Key, kept: Key, lane: string, e: Entry)
    requires LiveKey(e) == Some(kept) && kept != sought
    ensures !Unique(Repeated(sought, lane, Make(e), 2))
  {
    LiveKeysAlone(e, kept);
    MakesAgain([], sought, lane, e);
    assert [] + [e] == [e];
    assert Repeated(sought, lane, Make(e), 0) == [];
    assert Repeated(sought, lane, Make(e), 1) == [e];
    MakesAgain([e], sought, lane, e);
    assert LiveKeys([e] + [e])[0] == LiveKeys([e] + [e])[1];
  }

  /** The run in which `c` is promoted `n` times. */
  function Times(c: Candidate, n: nat): History {
    if n == 0 then Start else Then(Times(c, n - 1), Promote(c))
  }

  lemma EntriesPromote(h: History, c: Candidate)
    ensures Entries(Then(h, Promote(c)))
         == Do(Entries(h), Promotion(Entries(h), Sought(c), c.sourceLane, Made(c)))
  {
  }

  lemma TimesAdds(c: Candidate, n: nat)
    requires n > 0 && Entries(Times(c, n - 1)) == Repeated(Sought(c), c.sourceLane, Made(c), n - 1)
    ensures Entries(Times(c, n)) == Repeated(Sought(c), c.sourceLane, Made(c), n)
  {
    EntriesPromote(Times(c, n - 1), c);
  }

  lemma {:induction false} TimesRepeats(h: History, c: Candidate, n: nat)
    requires h == Times(c, n)
    ensures Entries(h) == Repeated(Sought(c), c.sourceLane, Made(c), n)
    decreases h
  {
    if n > 0 {
      TimesRepeats(h.past, c, n - 1);
      TimesAdds(c, n);
    }
  }

  lemma TimesUnique(c: Candidate, n: nat)
    requires Strip(c.title) != "" && Stable(c)
    ensures Unique(Entries(Times(c, n)))
  {
    TimesRepeats(Times(c, n), c, n);
    StableExactly(c);
    NewEntryKey(c);
    RepeatedUnique(Sought(c), c.sourceLane, Made(c), n);
  }

  /** A title of more than 200 characters, or a path with space around it, promoted
      twice. */
  lemma UnstableTwice(c: Candidate)
    requires Strip(c.title) != "" && !Stable(c)
    ensures !Unique(Entries(Then(Then(Start, Promote(c)), Promote(c))))
  {
    TimesRepeats(Times(c, 2), c, 2);
    StableExactly(c);
    NewEntryKey(c);
    RepeatedTwice(Sought(c), Kept(c), c.sourceLane, NewEntry(c));
    assert Times(c, 2) == Then(Times(c, 1), Promote(c)) && Times(c, 1) == Then(Times(c, 0), Promote(c));
  }

  /** However often a candidate is promoted there is one entry for it, exactly when its
      title fits and its path has no space around it. */
  lemma PromotedOnceExactly(c: Candidate)
    requires Strip(c.title) != ""
    ensures (forall n :: Unique(Entries(Times(c, n)))) <==> Stable(c)
  {
    if Stable(c) {
      forall n ensures Unique(Entries(Times(c, n))) {
        TimesUnique(c, n);
      }
    } else {
      UnstableTwice(c);
      assert Times(c, 2) == Then(Times(c, 1), Promote(c)) && Times(c, 1) == Then(Times(c, 0), Promote(c));
      assert !Unique(Entries(Times(c, 2)));
    }
  }

  /** An entry retired, made anew and then superseded: two are live again. */
  lemma SupersedeAfterRetire(c: Candidate)
    requires Strip(c.title) != "" && Stable(c)
    ensures var h := Then(Then(Then(Then(Start, Promote(c)), Retire(0)), Promote(c)), Supersede(0));
            !Unique(Entries(h))
  {
    StableExactly(c);
    NewEntryKey(c);
    var es1, es2, es3, es4 := RevivingRun(c, Made(c));
    SupersedeRevives(NewEntry(c), Sought(c), c.sourceLane, es1, es2, es3, es4);
  }

  lemma EntriesDemote(h: History, i: nat)
    ensures Entries(Then(h, Retire(i))) == Do(Entries(h), Demote(i, Retired))
    ensures Entries(Then(h, Supersede(i))) == Do(Entries(h), Demote(i, Stale))
  {
  }

  lemma RevivingRun(c: Candidate, made: Act)
    returns (es1: seq<Entry>, es2: seq<Entry>, es3: seq<Entry>, es4: seq<Entry>)
    requires made == Made(c)
    ensures es1 == Do([], Promotion([], Sought(c), c.sourceLane, made)) && es2 == Do(es1, Demote(0, Retired))
    ensures es3 == Do(es2, Promotion(es2, Sought(c), c.sourceLane, made)) && es4 == Do(es3, Demote(0, Stale))
    ensures es4 == Entries(Then(Then(Then(Then(Start, Promote(c)), Retire(0)), Promote(c)), Supersede(0)))
  {
    var h1 := Then(Start, Promote(c));
    var h2 := Then(h1, Retire(0));
    var h3 := Then(h2, Promote(c));
    EntriesPromote(Start, c);
    EntriesDemote(h1, 0);
    EntriesPromote(h2, c);
    EntriesDemote(h3, 0);
    es1, es2, es3, es4 := Entries(h1), Entries(h2), Entries(h3), Entries(Then(h3, Supersede(0)));
  }

  lemma SupersedeRevives(e: Entry, k: Key, lane: string, es1: seq<Entry>, es2: seq<Entry>, es3: seq<Entry>, es4: seq<Entry>)
    requires LiveKey(e) == Some(k)
    requires es1 == Do([], Promotion([], k, lane, Make(e))) && es2 == Do(es1, Demote(0, Retired))
    requires es3 == Do(es2, Promotion(es2, k, lane, Make(e))) && es4 == Do(es3, Demote(0, Stale))
    ensures !Unique(es4)
  {
    var gone := e.(status := Retired);
    MakesAgain([], k, lane, e);
    assert es1 == [e] && es2 == [gone];
    assert LiveKeys([gone])[0] == None;
    MakesAgain([gone], k, lane, e);
    assert es3 == [gone, e];
    SameKey(e.(status := Stale), e);
    TwoLive(e.(status := Stale), e, k);
    assert es4 == [e.(status := Stale), e];
  }

  lemma TwoLive(d: Entry, e: Entry, k: Key)
    requires LiveKey(d) == Some(k) && LiveKey(e) == Some(k)
    ensures !Unique([d, e])
  {
    assert LiveKeys([d, e])[0] == LiveKeys([d, e])[1];
  }

  // What the confidence of an entry says.

  /** The lanes whose reports found entry `i`, since it was made or last confirmed. */
  function Reports(h: History, i: nat): seq<string> {
    match h
    case Start => []
    case Then(p, t) =>
      if i >= |Entries(p)| then []
      else ReportsNext(Reports(p, i), Resolve(Entries(p), t), i)
  }

  function ReportsNext(lanes: seq<string>, a: Act, i: nat): seq<string> {
    match a
    case Report(j, lane) => if i == j then lanes + [lane] else lanes
    case Make(_) => lanes
    case Refuse => lanes
    case Vouch(j, _) => if i == j then [] else lanes
    case Demote(_, _) => lanes
  }

  /** A human made or confirmed it. */
  function Vouched(h: History, i: nat): bool {
    match h
    case Start => false
    case Then(p, t) =>
      if i > |Entries(p)| then false
      else if i == |Entries(p)| then MadeByHuman(Resolve(Entries(p), t))
      else Vouched(p, i) || (t.Confirm? && t.entry == i)
  }

  predicate MadeByHuman(a: Act) {
    a.Make? && a.entry.confirmedBy == "human"
  }

  predicate Independent(source: string, lane: string) {
    source != "" && lane != "" && source != lane
  }

  predicate AnyIndependent(source: string, lanes: seq<string>) {
    lanes != [] && (Independent(source, lanes[|lanes| - 1]) || AnyIndependent(source, lanes[..|lanes| - 1]))
  }

  predicate AllSame(source: string, lanes: seq<string>) {
    lanes != [] ==> SameSource(source, lanes[|lanes| - 1]) && AllSame(source, lanes[..|lanes| - 1])
  }

  /** The confidence in an entry from `source` that `lanes` reported again. */
  function Belief(vouched: bool, source: string, lanes: seq<string>): real {
    if AnyIndependent(source, lanes) then CorroboratedConfidence
    else if vouched then 1.0
    else if AllSame(source, lanes) then Uncorroborated
    else AnonymousWitness
  }

  lemma {:induction false} IndependentIsNotSame(source: string, lanes: seq<string>)
    requires AnyIndependent(source, lanes)
    ensures !AllSame(source, lanes)
  {
    if !Independent(source, lanes[|lanes| - 1]) {
      IndependentIsNotSame(source, lanes[..|lanes| - 1]);
    }
  }

  lemma BeliefSnoc(vouched: bool, e: Entry, lanes: seq<string>, lane: string)
    requires e.confidence == Belief(vouched, e.sourceLane, lanes)
    ensures Corroborated(e, lane).confidence == Belief(vouched, e.sourceLane, lanes + [lane])
  {
    assert (lanes + [lane])[..|lanes|] == lanes;
    WitnessCount(e.sourceLane, lane);
    if AnyIndependent(e.sourceLane, lanes) {
      IndependentIsNotSame(e.sourceLane, lanes);
    }
  }

  lemma GrowsByOne(es: seq<Entry>, a: Act)
    ensures |es| <= |Do(es, a)| <= |es| + 1
    ensures |Do(es, a)| > |es| ==> a.Make? && Do(es, a) == es + [a.entry]
  {
  }

  lemma StepConfidence(es: seq<Entry>, a: Act, i: nat)
    requires i < |es|
    ensures |es| <= |Do(es, a)|
    ensures Do(es, a)[i].sourceLane == es[i].sourceLane
    ensures Do(es, a)[i].confidence
         == (if a.Report? && a.at == i then Corroborated(es[i], a.lane).confidence
             else if a.Vouch? && a.at == i then 1.0 else es[i].confidence)
  {
  }

  ghost predicate WellMade(e: Entry) {
    e.confidence == Belief(e.confirmedBy == "human", e.sourceLane, [])
  }

  lemma NewEntryWellMade(c: Candidate)
    ensures WellMade(NewEntry(c))
  {
  }

  lemma ResolvedWellMade(es: seq<Entry>, t: Step)
    ensures Resolve(es, t).Make? ==> WellMade(Resolve(es, t).entry)
  {
    if t.Promote? {
      NewEntryWellMade(t.c);
    }
  }

  lemma BeliefStep(vouched: bool, lanes: seq<string>, es: seq<Entry>, a: Act, i: nat)
    requires i < |es| && es[i].confidence == Belief(vouched, es[i].sourceLane, lanes)
    ensures |es| <= |Do(es, a)|
    ensures Do(es, a)[i].confidence
         == Belief(vouched || (a.Vouch? && a.at == i), Do(es, a)[i].sourceLane, ReportsNext(lanes, a, i))
  {
    StepConfidence(es, a, i);
    if a.Report? && a.at == i {
      BeliefSnoc(vouched, es[i], lanes, a.lane);
    }
  }

  lemma FirstMarks(p: History, t: Step, a: Act)
    requires a == Resolve(Entries(p), t)
    ensures Vouched(Then(p, t), |Entries(p)|) == MadeByHuman(a)
    ensures Reports(Then(p, t), |Entries(p)|) == []
  {
  }

  lemma FirstBelief(p: History, t: Step, es: seq<Entry>, a: Act)
    requires es == Entries(p) && a == Resolve(es, t) && a.Make?
    ensures var h, i := Then(p, t), |es|;
            i < |Entries(h)| &&
            Entries(h)[i].confidence == Belief(Vouched(h, i), Entries(h)[i].sourceLane, Reports(h, i))
  {
    ResolvedWellMade(es, t);
    FirstMarks(p, t, a);
    assert Entries(Then(p, t)) == es + [a.entry];
  }

  lemma NextBelief(p: History, t: Step, i: nat)
    requires i < |Entries(p)| <= |Entries(Then(p, t))|
    requires Entries(p)[i].confidence == Belief(Vouched(p, i), Entries(p)[i].sourceLane, Reports(p, i))
    ensures var h := Then(p, t);
            Entries(h)[i].confidence == Belief(Vouched(h, i), Entries(h)[i].sourceLane, Reports(h, i))
  {
    BeliefStep(Vouched(p, i), Reports(p, i), Entries(p), Resolve(Entries(p), t), i);
  }

  /** Over every run, the confidence in an entry is settled by its source, by whether a
      human vouched for it and by who reported it since. */
  lemma {:induction false} ConfidenceIsBelief(h: History, i: nat)
    requires i < |Entries(h)|
    ensures Entries(h)[i].confidence == Belief(Vouched(h, i), Entries(h)[i].sourceLane, Reports(h, i))
  {
    GrowsByOne(Entries(h.past), Resolve(Entries(h.past), h.step));
    if i == |Entries(h.past)| {
      FirstBelief(h.past, h.step, Entries(h.past), Resolve(Entries(h.past), h.step));
    } else {
      ConfidenceIsBelief(h.past, i);
      NextBelief(h.past, h.step, i);
    }
  }

  /** An entry that no human vouched for passes the injection floor exactly when some
      report did not come, by name, from its own lane; one without a name is enough. */
  lemma PassesFloorExactly(h: History, i: nat)
    requires i < |Entries(h)| && !Vouched(h, i)
    ensures Entries(h)[i].confidence >= InjectionFloor <==> !AllSame(Entries(h)[i].sourceLane, Reports(h, i))
  {
    ConfidenceIsBelief(h, i);
    if AnyIndependent(Entries(h)[i].sourceLane, Reports(h, i)) {
      IndependentIsNotSame(Entries(h)[i].sourceLane, Reports(h, i));
    }
  }

  /** It is corroborated exactly when two different names stand behind it, one of them
      its own: an entry whose first report had no name never is. */
  lemma CorroboratedExactly(h: History, i: nat)
    requires i < |Entries(h)| && !Vouched(h, i)
    ensures Entries(h)[i].confidence == CorroboratedConfidence
       <==> AnyIndependent(Entries(h)[i].sourceLane, Reports(h, i))
  {
    ConfidenceIsBelief(h, i);
  }

  /** The confidence in an entry that a human vouched for goes down when a lane agrees. */
  lemma AgreementLowersExactly(h: History, i: nat)
    requires i < |Entries(h)| && Vouched(h, i)
    ensures Entries(h)[i].confidence < 1.0 <==> AnyIndependent(Entries(h)[i].sourceLane, Reports(h, i))
  {
    ConfidenceIsBelief(h, i);
  }

  /** What the record says of an entry from `source` that no human vouched for. */
  ghost predicate Marked(e: Entry, source: string, lanes: seq<string>) {
    if AnyIndependent(source, lanes) then e.confirmedBy == "corroborated" && e.promotedBy == "corroborated"
    else e.confirmedBy == ""
  }

  lemma ReportMarks(e: Entry, lanes: seq<string>, lane: string)
    requires Marked(e, e.sourceLane, lanes)
    ensures Marked(Corroborated(e, lane), e.sourceLane, lanes + [lane])
  {
    assert (lanes + [lane])[..|lanes|] == lanes;
    WitnessCount(e.sourceLane, lane);
  }

  lemma StepMarks(lanes: seq<string>, es: seq<Entry>, a: Act, i: nat)
    requires i < |es| && Marked(es[i], es[i].sourceLane, lanes) && !(a.Vouch? && a.at == i)
    ensures |es| <= |Do(es, a)|
    ensures Marked(Do(es, a)[i], es[i].sourceLane, ReportsNext(lanes, a, i))
  {
    if a.Report? && a.at == i {
      ReportMarks(es[i], lanes, a.lane);
    }
  }

  /** Over every run, an entry that no human vouched for is marked as corroborated exactly
      when two different names stand behind it; otherwise nobody confirmed it. */
  lemma {:induction false} MarkedExactly(h: History, i: nat)
    requires i < |Entries(h)| && !Vouched(h, i)
    ensures Marked(Entries(h)[i], Entries(h)[i].sourceLane, Reports(h, i))
  {
    var es := Entries(h.past);
    var a := Resolve(es, h.step);
    GrowsByOne(es, a);
    if i == |es| {
      NewIsUnmarked(es, h.step);
      FirstMarks(h.past, h.step, a);
    } else {
      MarkedExactly(h.past, i);
      StepConfidence(es, a, i);
      StepMarks(Reports(h.past, i), es, a, i);
    }
  }

  lemma NewIsUnmarked(es: seq<Entry>, t: Step)
    ensures Resolve(es, t).Make? ==> Resolve(es, t).entry.confirmedBy in {"human", ""}
  {
    if t.Promote? {
      NewIsUnconfirmed(t.c);
    }
  }

  lemma NewIsUnconfirmed(c: Candidate)
    ensures NewEntry(c).confirmedBy == "human" || NewEntry(c).confirmedBy == ""
  {
  }

  lemma {:induction false} UnnamedHasNoPartner(lanes: seq<string>)
    ensures !AnyIndependent("", lanes)
  {
    if lanes != [] {
      UnnamedHasNoPartner(lanes[..|lanes| - 1]);
    }
  }

  /** In no run does an entry whose first report had no name reach 0.8, whoever reports it,
      unless a human vouches for it. */
  lemma UnnamedNeverCorroborated(h: History, i: nat)
    requires i < |Entries(h)| && !Vouched(h, i) && Entries(h)[i].sourceLane == ""
    ensures Entries(h)[i].confidence != CorroboratedConfidence
  {
    ConfidenceIsBelief(h, i);
    UnnamedHasNoPartner(Reports(h, i));
  }

  /** In every run an entry that no human vouched for is at 0.45 exactly while every report
      of it came, by name, from its own lane. */
  lemma UncorroboratedExactly(h: History, i: nat)
    requires i < |Entries(h)| && !Vouched(h, i)
    ensures Entries(h)[i].confidence == Uncorroborated <==> AllSame(Entries(h)[i].sourceLane, Reports(h, i))
  {
    ConfidenceIsBelief(h, i);
    if AnyIndependent(Entries(h)[i].sourceLane, Reports(h, i)) {
      IndependentIsNotSame(Entries(h)[i].sourceLane, Reports(h, i));
    }
  }

  /** A lane that repeats itself. */
  function Repeat(lane: string, n: nat): (lanes: seq<string>)
    ensures |lanes| == n
  {
    if n == 0 then [] else Repeat(lane, n - 1) + [lane]
  }

  lemma {:induction false} RepeatSame(lane: string, n: nat)
    ensures AllSame(Strip(lane), Repeat(lane, n)) <==> n == 0 || (lane != "" && Strip(lane) == lane)
  {
    if n > 0 {
      RepeatSame(lane, n - 1);
      assert Repeat(lane, n)[..n - 1] == Repeat(lane, n - 1);
    }
  }

  /** What one entry is after `n + 1` promotions that all find it. */
  ghost predicate ToldByOne(es: seq<Entry>, k: Key, source: string, lane: string, n: nat) {
    && |es| == 1 && LiveKey(es[0]) == Some(k) && es[0].sourceLane == source
    && es[0].confidence == Belief(false, source, Repeat(lane, n))
  }

  lemma {:induction false} RepeatedIsOne(k: Key, lane: string, e: Entry, n: nat)
    requires LiveKey(e) == Some(k) && e.confidence == Uncorroborated
    ensures ToldByOne(Repeated(k, lane, Make(e), n + 1), k, e.sourceLane, lane, n)
  {
    if n == 0 {
      MakesAgain([], k, lane, e);
      assert Repeated(k, lane, Make(e), 0) == [] && [] + [e] == [e];
    } else {
      RepeatedIsOne(k, lane, e, n - 1);
      ToldAgain(Repeated(k, lane, Make(e), n), k, e.sourceLane, lane, n - 1, Make(e));
    }
  }

  lemma ToldAgain(es: seq<Entry>, k: Key, source: string, lane: string, n: nat, made: Act)
    requires ToldByOne(es, k, source, lane, n)
    ensures ToldByOne(Do(es, Promotion(es, k, lane, made)), k, source, lane, n + 1)
  {
    var e := es[0];
    LiveKeyAt(es, 0);
    assert FindLast(LiveKeys(es), 1, k) == Some(0);
    CorroborationKeepsKey(e, lane);
    SameKey(Corroborated(e, lane), e);
    BeliefSnoc(false, e, Repeat(lane, n), lane);
  }

  /** In the run in which one lane, and no human, promotes the same candidate again and
      again, its entry stays at 0.45 exactly when the lane has a name and no space around
      it. */
  lemma OwnWordExactly(c: Candidate)
    requires Stable(c) && Strip(c.title) != "" && c.promotedBy != "human"
    ensures (forall n: nat :: StaysAtFirst(c, n))
       <==> c.sourceLane != "" && Strip(c.sourceLane) == c.sourceLane
  {
    var lane := c.sourceLane;
    if lane != "" && Strip(lane) == lane {
      forall n: nat ensures StaysAtFirst(c, n) {
        TimesBelief(c, n);
        OwnBelief(lane, n);
      }
    } else {
      TimesBelief(c, 1);
      OwnBelief(lane, 1);
      assert !StaysAtFirst(c, 1);
    }
  }

  /** After `n + 1` promotions of `c` there is one entry, at its first confidence. */
  predicate StaysAtFirst(c: Candidate, n: nat) {
    var es := Entries(Times(c, n + 1));
    |es| == 1 && es[0].confidence == Uncorroborated
  }

  lemma TimesBelief(c: Candidate, n: nat)
    requires Stable(c) && Strip(c.title) != "" && c.promotedBy != "human"
    ensures |Entries(Times(c, n + 1))| == 1
    ensures Entries(Times(c, n + 1))[0].confidence == Belief(false, Strip(c.sourceLane), Repeat(c.sourceLane, n))
  {
    TimesRepeats(Times(c, n + 1), c, n + 1);
    StableExactly(c);
    NewEntryKey(c);
    NewEntryTold(c);
    RepeatedIsOne(Sought(c), c.sourceLane, NewEntry(c), n);
  }

  lemma NewEntryTold(c: Candidate)
    requires c.promotedBy != "human"
    ensures NewEntry(c).confidence == Uncorroborated && NewEntry(c).sourceLane == Strip(c.sourceLane)
  {
  }

  lemma OwnBelief(lane: string, n: nat)
    ensures Belief(false, Strip(lane), Repeat(lane, n)) == Uncorroborated
       <==> n == 0 || (lane != "" && Strip(lane) == lane)
  {
    RepeatSame(lane, n);
    if AnyIndependent(Strip(lane), Repeat(lane, n)) {
      IndependentIsNotSame(Strip(lane), Repeat(lane, n));
    }
  }

  ghost predicate TitleIsNormal(e: Entry) {
    e.normalTitle == Normalised(e.title)
  }

  lemma NewTitleIsNormal(c: Candidate)
    ensures TitleIsNormal(NewEntry(c))
  {
  }

  lemma MadeTitleIsNormal(es: seq<Entry>, t: Step)
    ensures Resolve(es, t).Make? ==> TitleIsNormal(Resolve(es, t).entry)
  {
    if t.Promote? {
      NewTitleIsNormal(t.c);
    }
  }

  /** `normalTitle` is at all times what the comparison would make of the title. */
  lemma {:induction false} NormalTitles(h: History, i: nat)
    requires i < |Entries(h)|
    ensures TitleIsNormal(Entries(h)[i])
  {
    var es := Entries(h.past);
    var a := Resolve(es, h.step);
    GrowsByOne(es, a);
    if i < |es| {
      NormalTitles(h.past, i);
      TitlesStay(es, a, i);
    } else {
      MadeTitleIsNormal(es, h.step);
    }
  }

  lemma TitlesStay(es: seq<Entry>, a: Act, i: nat)
    requires i < |es|
    ensures |es| <= |Do(es, a)|
    ensures Do(es, a)[i].normalTitle == es[i].normalTitle && Do(es, a)[i].title == es[i].title
  {
  }

  lemma UniqueFinds<K(!new)>(ks: seq<Option<K>>, i: nat, k: K)
    requires UniqueKeys(ks) && i < |ks| && ks[i] == Some(k)
    ensures FindLast(ks, |ks|, k) == Some(i)
  {
  }

  /** A superseded entry takes every later report of its key: none makes a new entry, and
      none makes it active again. */
  lemma SupersededTakesReports(es: seq<Entry>, i: nat, k: Key, lane: string, made: Act)
    requires Unique(es) && i < |es| && es[i].status == Stale && KeyOf(es[i]) == k
    ensures var after := Do(es, Promotion(es, k, lane, made));
            |after| == |es| && after[i].status == Stale
  {
    LiveKeyAt(es, i);
    UniqueFinds(LiveKeys(es), i, k);
  }

  // The store.

  datatype Outcome = Refused | Created | SameLane | OneWitness | Confirmed

  /** What a lane hears of its report of an entry from `source`: it said so itself, two names
      stand behind it now, or one of the two has no name. */
  function Answer(source: string, lane: string): Outcome {
    if lane != "" && lane == source then SameLane
    else if lane != "" && source != "" then Confirmed
    else OneWitness
  }

  function RunOf(steps: seq<Step>): History {
    if steps == [] then Start else Then(RunOf(steps[..|steps| - 1]), steps[|steps| - 1])
  }

  class BrainStore {
    /** The persisted rows, oldest first. */
    var entries: seq<Entry>

    constructor ()
      ensures entries == []
    {
      entries := [];
    }

    /** `_find_match`: the loop over the entries, newest first. */
    method FindMatch(sought: Key) returns (i: Option<nat>)
      ensures i == FindLast(LiveKeys(entries), |entries|, sought)
    {
      var n: nat := |entries|;
      while n > 0
        invariant n <= |entries|
        invariant FindLast(LiveKeys(entries), |entries|, sought) == FindLast(LiveKeys(entries), n, sought)
      {
        var e := entries[n - 1];
        LiveKeyAt(entries, n - 1);
        if e.status != Retired && e.normalTitle == sought.0 && e.anchorPath == sought.1 {
          return Some(n - 1);
        }
        n := n - 1;
      }
      return None;
    }

    /** `_corroborate`. */
    method Corroborate(i: nat, lane: string) returns (r: Outcome)
      requires i < |entries|
      modifies this
      ensures entries == Do(old(entries), Report(i, lane))
      ensures r == Answer(old(entries)[i].sourceLane, lane)
    {
      var e := entries[i];
      WitnessCount(e.sourceLane, lane);
      if lane != "" && lane == e.sourceLane {
        assert entries == entries[i := e];
        return SameLane;
      }
      var witnesses := {e.sourceLane, lane} - {""};
      if |witnesses| < CorroborationThreshold {
        e := e.(confidence := Max(e.confidence, Min(CorroboratedConfidence, AnonymousWitness)));
        entries := entries[i := e];
        return OneWitness;
      }
      e := e.(confidence := CorroboratedConfidence, promotedBy := "corroborated",
              confirmedBy := if e.confirmedBy != "" then e.confirmedBy else "corroborated");
      entries := entries[i := e];
      return Confirmed;
    }

    /** The rest of `promote`: `made` is what it comes to when no entry has the key. */
    method Settle(sought: Key, lane: string, made: Act) returns (r: Outcome)
      requires made.Make? || made.Refuse?
      modifies this
      ensures entries == Do(old(entries), Promotion(old(entries), sought, lane, made))
      ensures match Promotion(old(entries), sought, lane, made)
              case Report(i, _) => i < |old(entries)| && r == Answer(old(entries)[i].sourceLane, lane)
              case Make(e) => r == Created && entries == old(entries) + [e]
              case Refuse => r == Refused && entries == old(entries)
              case _ => false
    {
      var found := FindMatch(sought);
      if found.Some? {
        r := Corroborate(found.value, lane);
      } else if made.Refuse? {
        r := Refused;
      } else {
        r := Created;
        entries := entries + [made.entry];
      }
    }

    method PromoteCandidate(c: Candidate) returns (r: Outcome)
      modifies this
      ensures entries == Do(old(entries), Resolve(old(entries), Promote(c)))
      ensures match Resolve(old(entries), Promote(c))
              case Report(i, _) => i < |old(entries)| && r == Answer(old(entries)[i].sourceLane, c.sourceLane)
              case Make(e) => r == Created && entries == old(entries) + [e] && e == NewEntry(c)
              case Refuse => r == Refused && entries == old(entries) && Strip(c.title) == ""
              case _ => false
    {
      r := Settle(Sought(c), c.sourceLane, Made(c));
    }

    method ConfirmEntry(i: nat, who: string)
      modifies this
      ensures entries == Do(old(entries), Vouch(i, Strip(who)))
    {
      if i < |entries| {
        entries := entries[i := entries[i].(confirmedBy := Strip(who), confidence := 1.0)];
      }
    }

    method SupersedeEntry(i: nat)
      modifies this
      ensures entries == Do(old(entries), Demote(i, Stale))
    {
      if i < |entries| {
        entries := entries[i := entries[i].(status := Stale)];
      }
    }

    method RetireEntry(i: nat)
      modifies this
      ensures entries == Do(old(entries), Demote(i, Retired))
    {
      if i < |entries| {
        entries := entries[i := entries[i].(status := Retired)];
      }
    }

    method Take(t: Step)
      modifies this
      ensures entries == Do(old(entries), Resolve(old(entries), t))
    {
      match t
      case Promote(c) => var _ := PromoteCandidate(c);
      case Confirm(i, who) => ConfirmEntry(i, who);
      case Supersede(i) => SupersedeEntry(i);
      case Retire(i) => RetireEntry(i);
    }

    /** A run of calls leaves the entries of its history. */
    method Drive(steps: seq<Step>)
      requires entries == []
      modifies this
      ensures entries == Entries(RunOf(steps))
    {
      for i := 0 to |steps|
        invariant entries == Entries(RunOf(steps[..i]))
      {
        Take(steps[i]);
        assert steps[..i + 1][..i] == steps[..i];
      }
      assert steps[..|steps|] == steps;
    }
  }
}
