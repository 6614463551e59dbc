/** Change batches of a lane's worktree (`daemon/filewatch.py`): the polling watcher,
    which compares snapshots, and the collapse of pending paths into one batch. */
module FileWatch {
  import opened Wrappers
  import opened PyText

  /** Paths and their modification times. */
  type Snapshot = map<string, real>

  datatype Batch = Batch(added: seq<string>, modified: seq<string>, deleted: seq<string>)

  function Paths(s: seq<string>): set<string> { set p | p in s }

  predicate Precedes(a: string, b: string) { NotAfter(a, b) && a != b }

  ghost predicate Ascending(s: seq<string>) {
    forall i, j | 0 <= i < j < |s| :: Precedes(s[i], s[j])
  }

  lemma PrecedesTotal(a: string, b: string)
    ensures a == b || Precedes(a, b) || Precedes(b, a)
  {
    NotAfterTotal(a, b);
  }

  lemma PrecedesTransitive(a: string, b: string, c: string)
    requires Precedes(a, b) && Precedes(b, c)
    ensures Precedes(a, c)
  {
    NotAfterTransitive(a, b, c);
    if a == c {
      NotAfterAntisymmetric(a, b);
    }
  }

  /** `sorted(set(…))`, one path at a time. */
  function InsertPath(p: string, s: seq<string>): seq<string> {
    if s == [] || Precedes(s[|s| - 1], p) then s + [p]
    else if s[|s| - 1] == p then s
    else InsertPath(p, s[..|s| - 1]) + [s[|s| - 1]]
  }

  function SortedSet(s: seq<string>): seq<string> {
    if s == [] then [] else InsertPath(s[|s| - 1], SortedSet(s[..|s| - 1]))
  }

  lemma PathsSnoc(s: seq<string>, p: string)
    ensures Paths(s + [p]) == Paths(s) + {p}
  {
  }

  lemma AscendingSnoc(s: seq<string>, p: string)
    requires Ascending(s) && forall i | 0 <= i < |s| :: Precedes(s[i], p)
    ensures Ascending(s + [p])
  {
  }

  lemma LastIsLargest(s: seq<string>, p: string)
    requires Ascending(s) && s != [] && Precedes(s[|s| - 1], p)
    ensures forall i | 0 <= i < |s| :: Precedes(s[i], p)
  {
    forall i | 0 <= i < |s| - 1 ensures Precedes(s[i], p) {
      PrecedesTransitive(s[i], s[|s| - 1], p);
    }
  }

  lemma {:induction false} InsertPathSorts(p: string, s: seq<string>)
    requires Ascending(s)
    ensures Ascending(InsertPath(p, s)) && Paths(InsertPath(p, s)) == Paths(s) + {p}
  {
    if s == [] || Precedes(s[|s| - 1], p) {
      if s != [] { LastIsLargest(s, p); }
      AscendingSnoc(s, p);
      PathsSnoc(s, p);
    } else {
      var front, last := s[..|s| - 1], s[|s| - 1];
      assert s == front + [last];
      if last == p {
        PathsSnoc(front, last);
      } else {
        PrecedesTotal(last, p);
        InsertPathSorts(p, front);
        InsertedBefore(p, front, InsertPath(p, front), last);
      }
    }
  }

  lemma InsertedBefore(p: string, front: seq<string>, r: seq<string>, last: string)
    requires Ascending(front + [last]) && Precedes(p, last)
    requires Ascending(r) && Paths(r) == Paths(front) + {p}
    ensures Ascending(r + [last]) && Paths(r + [last]) == Paths(front + [last]) + {p}
  {
    PathsSnoc(r, last);
    PathsSnoc(front, last);
    assert (front + [last])[|front|] == last && forall i | 0 <= i < |front| :: (front + [last])[i] == front[i];
    forall i | 0 <= i < |r| ensures Precedes(r[i], last) {
      assert r[i] in Paths(r);
    }
    AscendingSnoc(r, last);
  }

  lemma {:induction false} SortedSetSorts(s: seq<string>)
    ensures Ascending(SortedSet(s)) && Paths(SortedSet(s)) == Paths(s)
  {
    if s != [] {
      var front := s[..|s| - 1];
      SortedSetSorts(front);
      InsertPathSorts(s[|s| - 1], SortedSet(front));
      PathsSnoc(front, s[|s| - 1]);
      assert s == front + [s[|s| - 1]];
    }
  }

  function Minus(s: seq<string>, out: set<string>): (r: seq<string>)
    ensures Paths(r) == Paths(s) - out
  {
    if s == [] then []
    else
      var front, last := s[..|s| - 1], s[|s| - 1];
      assert s == front + [last];
      PathsSnoc(front, last);
      PathsSnoc(Minus(front, out), last);
      if last in out then Minus(front, out) else Minus(front, out) + [last]
  }

  /** The batch that `_flush` makes of the pending lists. */
  function Collapse(b: Batch): Batch {
    var added := SortedSet(Minus(b.added, Paths(b.deleted)));
    Batch(added, SortedSet(Minus(Minus(b.modified, Paths(b.deleted)), Paths(added))), SortedSet(b.deleted))
  }

  function All(b: Batch): set<string> {
    Paths(b.added) + Paths(b.modified) + Paths(b.deleted)
  }

  ghost predicate Partition(b: Batch) {
    && Ascending(b.added) && Ascending(b.modified) && Ascending(b.deleted)
    && Paths(b.added) !! Paths(b.modified) && Paths(b.added) !! Paths(b.deleted)
    && Paths(b.modified) !! Paths(b.deleted)
  }

  lemma CollapseSets(b: Batch)
    ensures Paths(Collapse(b).deleted) == Paths(b.deleted)
    ensures Paths(Collapse(b).added) == Paths(b.added) - Paths(b.deleted)
    ensures Paths(Collapse(b).modified) == Paths(b.modified) - Paths(b.deleted) - Paths(b.added)
    ensures Ascending(Collapse(b).added) && Ascending(Collapse(b).modified) && Ascending(Collapse(b).deleted)
  {
    var c := Collapse(b);
    SortedSetSorts(b.deleted);
    SortedSetSorts(Minus(b.added, Paths(b.deleted)));
    SortedSetSorts(Minus(Minus(b.modified, Paths(b.deleted)), Paths(c.added)));
  }

  /** However paths were recorded, the batch lists each of them once, in one of three
      sorted lists, and no other. */
  lemma CollapsePartitions(b: Batch)
    ensures Partition(Collapse(b)) && All(Collapse(b)) == All(b)
  {
    CollapseSets(b);
  }

  predicate IsEmpty(b: Batch) { b.added == [] && b.modified == [] && b.deleted == [] }

  /** What was worth collapsing is worth emitting. */
  lemma CollapseKeepsSomething(b: Batch)
    requires !IsEmpty(b)
    ensures !IsEmpty(Collapse(b))
  {
    CollapsePartitions(b);
    var p := if b.added != [] then b.added[0] else if b.modified != [] then b.modified[0] else b.deleted[0];
    assert p in All(b);
  }

  // What a batch does to a set of files.

  function Replay(files: set<string>, b: Batch): set<string> {
    (files - Paths(b.deleted)) + Paths(b.added)
  }

  // Raw events of the operating system.

  datatype RawEvent = Added(path: string) | Modified(path: string) | Deleted(path: string)

  /** What a burst does to the files. */
  function Outcome(files: set<string>, burst: seq<RawEvent>): set<string> {
    if burst == [] then files
    else
      var before := Outcome(files, burst[..|burst| - 1]);
      match burst[|burst| - 1]
      case Added(p) => before + {p}
      case Modified(_) => before
      case Deleted(p) => before - {p}
  }

  /** What `_record` keeps of a burst. */
  function Recorded(burst: seq<RawEvent>): Batch {
    if burst == [] then Batch([], [], [])
    else
      var b := Recorded(burst[..|burst| - 1]);
      match burst[|burst| - 1]
      case Added(p) => b.(added := b.added + [p])
      case Modified(p) => b.(modified := b.modified + [p])
      case Deleted(p) => b.(deleted := b.deleted + [p])
  }

  /** Whether a burst leaves `p` in place, if it says so. */
  function LastWord(burst: seq<RawEvent>, p: string): Option<bool> {
    if burst == [] then None
    else
      match burst[|burst| - 1]
      case Added(q) => if p == q then Some(true) else LastWord(burst[..|burst| - 1], p)
      case Modified(_) => LastWord(burst[..|burst| - 1], p)
      case Deleted(q) => if p == q then Some(false) else LastWord(burst[..|burst| - 1], p)
  }

  /** `p` is deleted and made again in the same burst. */
  predicate Recreated(burst: seq<RawEvent>, p: string) {
    p in Paths(Recorded(burst).deleted) && LastWord(burst, p) == Some(true)
  }

  lemma {:induction false} OutcomeIsLastWord(files: set<string>, burst: seq<RawEvent>, p: string)
    ensures p in Outcome(files, burst) <==> (if LastWord(burst, p).Some? then LastWord(burst, p).value else p in files)
  {
    if burst != [] {
      OutcomeIsLastWord(files, burst[..|burst| - 1], p);
    }
  }

  lemma {:induction false} RecordedIsLastWord(burst: seq<RawEvent>, p: string)
    ensures LastWord(burst, p) == Some(true) ==> p in Paths(Recorded(burst).added)
    ensures LastWord(burst, p) == Some(false) ==> p in Paths(Recorded(burst).deleted)
    ensures LastWord(burst, p) == None ==> p !in Paths(Recorded(burst).added) && p !in Paths(Recorded(burst).deleted)
  {
    if burst != [] {
      var b, e := Recorded(burst[..|burst| - 1]), burst[|burst| - 1];
      RecordedIsLastWord(burst[..|burst| - 1], p);
      PathsSnoc(b.added, e.path);
      PathsSnoc(b.deleted, e.path);
    }
  }

  lemma ReplayOfBurst(files: set<string>, burst: seq<RawEvent>, p: string)
    ensures p in Replay(files, Collapse(Recorded(burst)))
       <==> p in Outcome(files, burst) && !Recreated(burst, p)
  {
    CollapseSets(Recorded(burst));
    OutcomeIsLastWord(files, burst, p);
    RecordedIsLastWord(burst, p);
  }

  /** The batch of a burst tells a reader which files there are, whatever there were,
      exactly when no path is deleted and then made again within the burst. */
  lemma BurstReplaysExactly(burst: seq<RawEvent>)
    ensures (forall files :: Replay(files, Collapse(Recorded(burst))) == Outcome(files, burst))
       <==> (forall p :: !Recreated(burst, p))
  {
    if p :| Recreated(burst, p) {
      ReplayOfBurst({}, burst, p);
      OutcomeIsLastWord({}, burst, p);
      assert Replay({}, Collapse(Recorded(burst))) != Outcome({}, burst);
    } else {
      forall files ensures Replay(files, Collapse(Recorded(burst))) == Outcome(files, burst) {
        forall p ensures p in Replay(files, Collapse(Recorded(burst))) <==> p in Outcome(files, burst) {
          ReplayOfBurst(files, burst, p);
        }
      }
    }
  }

  // The polling watcher.

  /** The batch `b` says how snapshot `before` became `after`. */
  ghost predicate Tells(before: Snapshot, after: Snapshot, b: Batch) {
    && Partition(b)
    && Paths(b.added) == after.Keys - before.Keys
    && Paths(b.deleted) == before.Keys - after.Keys
    && (forall p :: p in Paths(b.modified) <==> p in before && p in after && before[p] != after[p])
  }

  function Touched(before: Snapshot, after: Snapshot): set<string> {
    set p | p in after.Keys * before.Keys && after[p] != before[p]
  }

  ghost predicate Reports(before: Snapshot, after: Snapshot, r: Option<Batch>) {
    match r
    case None => before == after
    case Some(b) => Tells(before, after, b)
  }

  /** The files after a batch, if there is one. */
  function ReplayOne(files: set<string>, r: Option<Batch>): set<string> {
    match r
    case None => files
    case Some(b) => Replay(files, b)
  }

  function ReplayAll(files: set<string>, rs: seq<Option<Batch>>): set<string> {
    if rs == [] then files else ReplayOne(ReplayAll(files, rs[..|rs| - 1]), rs[|rs| - 1])
  }

  lemma ReportReplays(before: Snapshot, after: Snapshot, r: Option<Batch>)
    requires Reports(before, after, r)
    ensures ReplayOne(before.Keys, r) == after.Keys
  {
  }

  /** A chain of reports between snapshots leads, at every one of them, from the files of
      the first to the files of that one. */
  lemma {:induction false} ReportsReplay(snaps: seq<Snapshot>, rs: seq<Option<Batch>>, k: nat)
    requires |snaps| == |rs| + 1 && k <= |rs|
    requires forall i | 0 <= i < |rs| :: Reports(snaps[i], snaps[i + 1], rs[i])
    ensures ReplayAll(snaps[0].Keys, rs[..k]) == snaps[k].Keys
  {
    if k > 0 {
      ReportsReplay(snaps, rs, k - 1);
      assert rs[..k][..k - 1] == rs[..k - 1];
      ReportReplays(snaps[k - 1], snaps[k], rs[k - 1]);
    }
  }

  /** What a reader holds who drops the paths reported as deleted and looks again at those
      reported as added or modified, and at no others. */
  function Reread(held: Snapshot, now: Snapshot, r: Option<Batch>): Snapshot {
    match r
    case None => held
    case Some(b) =>
      var again := Paths(b.added) + Paths(b.modified);
      map p | p in held.Keys + now.Keys && ((p in held && p !in Paths(b.deleted)) || (p in now && p in again))
        :: if p in now && p in again then now[p] else held[p]
  }

  function RereadAll(snaps: seq<Snapshot>, rs: seq<Option<Batch>>, k: nat): Snapshot
    requires |snaps| == |rs| + 1 && k <= |rs|
  {
    if k == 0 then snaps[0] else Reread(RereadAll(snaps, rs, k - 1), snaps[k], rs[k - 1])
  }

  lemma ReportRereads(before: Snapshot, after: Snapshot, r: Option<Batch>)
    requires Reports(before, after, r)
    ensures Reread(before, after, r) == after
  {
    if r.Some? {
      var held := Reread(before, after, r);
      forall p ensures p in held <==> p in after {
      }
      forall p | p in held ensures held[p] == after[p] {
      }
    }
  }

  /** Whatever was polled, a reader who looks again at the reported paths only has every file
      with its latest time. */
  lemma {:induction false} RereadsReplay(snaps: seq<Snapshot>, rs: seq<Option<Batch>>, k: nat)
    requires |snaps| == |rs| + 1 && k <= |rs|
    requires forall i | 0 <= i < |rs| :: Reports(snaps[i], snaps[i + 1], rs[i])
    ensures RereadAll(snaps, rs, k) == snaps[k]
  {
    if k > 0 {
      RereadsReplay(snaps, rs, k - 1);
      ReportRereads(snaps[k - 1], snaps[k], rs[k - 1]);
    }
  }

  lemma Inhabited(s: set<string>)
    requires s != {}
    ensures exists p :: p in s
  {
  }

  lemma NoPaths(s: seq<string>)
    ensures Paths(s) == {} <==> s == []
  {
    if s != [] {
      assert s[0] in Paths(s);
    }
  }

  lemma SameExactly(before: Snapshot, after: Snapshot)
    ensures before == after
       <==> after.Keys - before.Keys == {} && before.Keys - after.Keys == {} && Touched(before, after) == {}
  {
    if after.Keys - before.Keys == {} && before.Keys - after.Keys == {} && Touched(before, after) == {} {
      assert before.Keys == after.Keys;
      forall p | p in before ensures before[p] == after[p] {
        assert p !in Touched(before, after);
      }
    }
  }

  lemma CollapsedTells(before: Snapshot, after: Snapshot, b: Batch)
    requires Paths(b.added) == after.Keys - before.Keys
    requires Paths(b.deleted) == before.Keys - after.Keys
    requires Paths(b.modified) == Touched(before, after)
    ensures Tells(before, after, Collapse(b))
  {
    CollapsePartitions(b);
    CollapseSets(b);
  }

  lemma EmptyExactly(before: Snapshot, after: Snapshot, b: Batch)
    requires Paths(b.added) == after.Keys - before.Keys
    requires Paths(b.deleted) == before.Keys - after.Keys
    requires Paths(b.modified) == Touched(before, after)
    ensures IsEmpty(b) <==> before == after
  {
    NoPaths(b.added);
    NoPaths(b.modified);
    NoPaths(b.deleted);
    SameExactly(before, after);
  }

  class Watcher {
    var pending: Batch
    var snapshot: Snapshot

    constructor (first: Snapshot)
      ensures snapshot == first && pending == Batch([], [], [])
    {
      snapshot, pending := first, Batch([], [], []);
    }

    /** The paths of a set, in the order in which the set gives them. */
    static method Listed(paths: set<string>) returns (s: seq<string>)
      ensures Paths(s) == paths
    {
      s := [];
      var left := paths;
      while left != {}
        invariant left <= paths && Paths(s) == paths - left
        decreases left
      {
        Inhabited(left);
        var p :| p in left;
        PathsSnoc(s, p);
        s := s + [p];
        left := left - {p};
      }
    }

    /** One turn of the loop of `_run_polling`. */
    method Tick(current: Snapshot) returns (r: Option<Batch>)
      requires pending == Batch([], [], [])
      modifies this
      ensures snapshot == current && pending == Batch([], [], [])
      ensures Reports(old(snapshot), current, r)
      ensures r.None? <==> old(snapshot) == current
    {
      var added := Listed(current.Keys - snapshot.Keys);
      var deleted := Listed(snapshot.Keys - current.Keys);
      var modified := Listed(Touched(snapshot, current));
      pending := Batch(pending.added + added, pending.modified + modified, pending.deleted + deleted);
      assert pending == Batch(added, modified, deleted);
      CollapsedTells(snapshot, current, pending);
      EmptyExactly(snapshot, current, pending);
      snapshot := current;
      r := Flush();
    }

    /** `_flush`: the batch that is emitted, if it is worth emitting. The test of the
        collapsed batch never finds it empty. */
    method Flush() returns (r: Option<Batch>)
      modifies this`pending
      ensures pending == Batch([], [], [])
      ensures r == (if IsEmpty(old(pending)) then None else Some(Collapse(old(pending))))
    {
      if IsEmpty(pending) {
        return None;
      }
      var batch := pending;
      pending := Batch([], [], []);
      CollapseKeepsSomething(batch);
      batch := Collapse(batch);
      if |batch.added| + |batch.modified| + |batch.deleted| == 0 {
        assert false;
      }
      r := Some(batch);
    }

    /** `_record`, for a path of the worktree that is not ignored. */
    method Record(e: RawEvent)
      modifies this`pending
      ensures pending == match e
                case Added(p) => old(pending).(added := old(pending).added + [p])
                case Modified(p) => old(pending).(modified := old(pending).modified + [p])
                case Deleted(p) => old(pending).(deleted := old(pending).deleted + [p])
    {
      match e
      case Added(p) => pending := pending.(added := pending.added + [p]);
      case Modified(p) => pending := pending.(modified := pending.modified + [p]);
      case Deleted(p) => pending := pending.(deleted := pending.deleted + [p]);
    }

    /** The watching loop, for one burst of events. */
    method Burst(burst: seq<RawEvent>) returns (r: Option<Batch>)
      requires pending == Batch([], [], [])
      modifies this`pending
      ensures pending == Batch([], [], [])
      ensures r == (if IsEmpty(Recorded(burst)) then None else Some(Collapse(Recorded(burst))))
    {
      for i := 0 to |burst|
        invariant pending == Recorded(burst[..i])
      {
        assert burst[..i + 1][..i] == burst[..i];
        Record(burst[i]);
      }
      assert burst[..|burst|] == burst;
      r := Flush();
    }
  }

  /** The polling loop over the snapshots it takes. At every tick the batches so far lead
      from the first snapshot's files to the latest one's. */
  method RunPolling(snaps: seq<Snapshot>) returns (rs: seq<Option<Batch>>)
    requires snaps != []
    ensures |snaps| == |rs| + 1
    ensures forall i | 0 <= i < |rs| :: Reports(snaps[i], snaps[i + 1], rs[i])
    ensures forall k | 0 <= k < |snaps| :: ReplayAll(snaps[0].Keys, rs[..k]) == snaps[k].Keys
  {
    var w := new Watcher(snaps[0]);
    rs := [];
    for i := 1 to |snaps|
      invariant |rs| == i - 1 && w.snapshot == snaps[i - 1] && w.pending == Batch([], [], [])
      invariant forall k | 0 <= k < |rs| :: Reports(snaps[k], snaps[k + 1], rs[k])
    {
      var r := w.Tick(snaps[i]);
      rs := rs + [r];
    }
    forall k | 0 <= k < |snaps| ensures ReplayAll(snaps[0].Keys, rs[..k]) == snaps[k].Keys {
      ReportsReplay(snaps, rs, k);
    }
  }
}
