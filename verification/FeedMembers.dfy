/** Which events the dashboard's feed holds (`useBusFeed` in `apps/web/src/lib/use-poll.ts`),
    told on the pages and on the log, without the functions of the merge. */
module FeedMembers {
  import opened BusFeed

  /** The numbers of all events of some pages. */
  function Came(pages: seq<seq<Event>>): set<int> {
    set i, k | 0 <= i < |pages| && 0 <= k < |pages[i]| :: pages[i][k].seqNo
  }

  function Higher(s: set<int>, q: int): set<int> { set x | x in s && x > q }

  lemma CameIsHeld(pages: seq<seq<Event>>, q: int)
    ensures q in Came(pages) <==> q in Everything(pages)
  {
    EverythingHeld(pages, q);
    if q in Came(pages) {
      var i, k :| 0 <= i < |pages| && 0 <= k < |pages[i]| && pages[i][k].seqNo == q;
      HeldAt(pages[i], k);
    }
    if i :| 0 <= i < |pages| && q in Held(pages[i]) {
      var k := HeldWhere(pages[i], q);
      assert pages[i][k].seqNo == q;
    }
  }

  /** The members of the `k` highest are those with fewer than `k` above them. */
  lemma {:induction false} TopKMembers(s: set<int>, k: nat, q: int)
    ensures q in TopK(s, k) <==> q in s && |Higher(s, q)| < k
    decreases k
  {
    if k == 0 || s == {} {
      return;
    }
    var m := Max(s);
    TopKMembers(s - {m}, k - 1, q);
    if q == m {
      assert Higher(s, m) == {};
    } else if q in s {
      assert Higher(s, q) == Higher(s - {m}, q) + {m};
    }
  }

  /** After any pages, the feed holds an event if and only if fewer than `limit` of the numbers
      that came are higher than its own; it holds each once, ascending. */
  lemma FeedMembers(pages: seq<seq<Event>>, limit: int, q: int)
    requires forall i | 0 <= i < |pages| :: Distinct(pages[i])
    ensures var feed := RunPages(pages, limit).feed;
            && ((exists i :: 0 <= i < |feed| && feed[i].seqNo == q)
                <==> q in Came(pages) && |Higher(Came(pages), q)| < limit)
            && forall i, j | 0 <= i < j < |feed| :: feed[i].seqNo < feed[j].seqNo
  {
    var feed := RunPages(pages, limit).feed;
    FeedIsTop(pages, limit);
    forall x ensures x in Came(pages) <==> x in Everything(pages).Keys {
      CameIsHeld(pages, x);
    }
    assert Came(pages) == Everything(pages).Keys;
    TopKMembers(Came(pages), Size(limit), q);
    SameNumbers(feed, q);
  }

  lemma SameNumbers(feed: seq<Event>, q: int)
    ensures q in Numbers(feed) <==> exists i :: 0 <= i < |feed| && feed[i].seqNo == q
  {
    if i :| 0 <= i < |feed| && feed[i].seqNo == q {
      assert Numbers(feed)[i] == q;
    }
  }

  /** `e` stands in one of the pages, and no earlier page has its number. */
  ghost predicate FirstCame(pages: seq<seq<Event>>, e: Event) {
    exists p :: 0 <= p < |pages| && e in pages[p]
                && forall r, k | 0 <= r < p && 0 <= k < |pages[r]| :: pages[r][k].seqNo != e.seqNo
  }

  lemma {:induction false} ContentsInPage(page: seq<Event>, q: int)
    requires q in Contents(page)
    ensures Event(q, Contents(page)[q]) in page
  {
    var init, last := page[..|page| - 1], page[|page| - 1];
    if q in Contents(init) {
      ContentsInPage(init, q);
      assert Event(q, Contents(page)[q]) in init;
    }
  }

  lemma {:induction false} EverythingFirstCame(pages: seq<seq<Event>>, q: int)
    requires q in Everything(pages)
    ensures FirstCame(pages, Event(q, Everything(pages)[q]))
  {
    var front, last := pages[..|pages| - 1], pages[|pages| - 1];
    if q in Everything(front) {
      EverythingFirstCame(front, q);
      StillFirst(front, last, Event(q, Everything(front)[q]));
      assert pages == front + [last];
    } else {
      ContentsInPage(last, q);
      EverythingHeld(front, q);
      var e := Event(q, Contents(last)[q]);
      forall r, k | 0 <= r < |pages| - 1 && 0 <= k < |pages[r]| ensures pages[r][k].seqNo != q {
        assert pages[r] == front[r];
        HeldAt(front[r], k);
      }
      assert e in pages[|pages| - 1];
    }
  }

  lemma StillFirst(front: seq<seq<Event>>, last: seq<Event>, e: Event)
    requires FirstCame(front, e)
    ensures FirstCame(front + [last], e)
  {
    var pages := front + [last];
    var p :| 0 <= p < |front| && e in front[p]
             && forall r, k | 0 <= r < p && 0 <= k < |front[r]| :: front[r][k].seqNo != e.seqNo;
    assert pages[p] == front[p] && forall r | 0 <= r < p :: pages[r] == front[r];
  }

  /** Every event of the feed is the one of the first page that had its number. */
  lemma FeedKeepsTheFirst(pages: seq<seq<Event>>, limit: int, i: nat)
    requires forall p | 0 <= p < |pages| :: Distinct(pages[p])
    requires i < |RunPages(pages, limit).feed|
    ensures FirstCame(pages, RunPages(pages, limit).feed[i])
  {
    FeedIsTop(pages, limit);
    EverythingFirstCame(pages, RunPages(pages, limit).feed[i].seqNo);
  }

  /** In every interleaving the feed is a slice of the log: it ends where the log passes the
      cursor, and is `limit` long or begins with the log. */
  lemma FeedIsLogSlice(steps: seq<Step>, limit: int) returns (n: nat)
    ensures var w := RunWorld(steps, limit);
            && n <= |w.log|
            && (forall i | 0 <= i < |w.log| :: i < n <==> w.log[i].seqNo <= w.st.cursor)
            && w.st.feed == w.log[if limit <= 0 then n else if n > limit then n - limit else 0..n]
  {
    var w := RunWorld(steps, limit);
    RunsHaveNoHoles(steps, limit);
    FeedIsLogWindow(steps, limit);
    n := QueriesAreSlices(w.log, w.st.cursor);
    assert limit > 0 && n > limit ==> w.log[..n][n - limit..] == w.log[n - limit..n];
    assert w.log[0..n] == w.log[..n];
  }
}
