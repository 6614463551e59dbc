/** The incremental bus feed of the dashboard (`apps/web/src/lib/use-poll.ts`).

    A cursor and a bounded, deduplicated, sorted feed are merged from pages that may
    overlap, repeat or arrive late. The feed is compared with a specification that
    knows nothing of pages: the highest-numbered events of everything received. */
module BusFeed {
  import opened Wrappers

  datatype Event = Event(seqNo: int, body: string)

  // ---------------------------------------------------------------------
  // The fetcher
  // ---------------------------------------------------------------------

  /** The reduce that advances the cursor. */
  function Highest(page: seq<Event>, start: int): (h: int)
    ensures h >= start
    ensures forall i | 0 <= i < |page| :: page[i].seqNo <= h
    ensures h == start || exists i | 0 <= i < |page| :: page[i].seqNo == h
  {
    if page == [] then start
    else Highest(page[1..], if page[0].seqNo > start then page[0].seqNo else start)
  }

  function Held(feed: seq<Event>): set<int> {
    if feed == [] then {} else Held(feed[..|feed| - 1]) + {feed[|feed| - 1].seqNo}
  }

  /** The events of the page that the feed does not hold, in page order. */
  function News(page: seq<Event>, held: set<int>): seq<Event> {
    if page == [] then []
    else
      var last := page[|page| - 1];
      News(page[..|page| - 1], held) + if last.seqNo in held then [] else [last]
  }

  /** Places `e` after every event that is not above it: the stable order. */
  function Insert(e: Event, s: seq<Event>): seq<Event> {
    if s == [] || s[|s| - 1].seqNo <= e.seqNo then s + [e]
    else Insert(e, s[..|s| - 1]) + [s[|s| - 1]]
  }

  function Sort(s: seq<Event>): seq<Event> {
    if s == [] then [] else Insert(s[|s| - 1], Sort(s[..|s| - 1]))
  }

  function Size(limit: int): nat {
    if limit < 0 then 0 else limit
  }

  function LastOf<T>(s: seq<T>, k: nat): seq<T> {
    if |s| > k then s[|s| - k..] else s
  }

  datatype State = State(feed: seq<Event>, cursor: int)

  const EMPTY := State([], 0)

  function Merged(feed: seq<Event>, page: seq<Event>, limit: int): seq<Event> {
    var news := News(page, Held(feed));
    if news == [] then feed else LastOf(Sort(feed + news), Size(limit))
  }

  function Received(st: State, page: seq<Event>, limit: int): State {
    State(Merged(st.feed, page, limit), Highest(page, st.cursor))
  }

  class FeedRefs {
    const limit: int
    var feed: seq<Event>
    var cursor: int

    constructor (limit: int)
      ensures this.limit == limit && feed == [] && cursor == 0
    {
      this.limit, feed, cursor := limit, [], 0;
    }

    /** The fetcher, from the page it awaited to the feed it returns. */
    method Accept(page: seq<Event>) returns (shown: seq<Event>)
      modifies this
      ensures State(feed, cursor) == Received(State(old(feed), old(cursor)), page, limit)
      ensures shown == feed
    {
      if |page| == 0 {
        return feed;
      }
      cursor := Highest(page, cursor);
      var seen := Held(feed);
      var news := News(page, seen);
      if |news| == 0 {
        return feed;
      }
      var merged := Sort(feed + news);
      var kept := Size(limit);
      feed := if |merged| > kept then merged[|merged| - kept..] else merged;
      return feed;
    }
  }

  // ---------------------------------------------------------------------
  // The specification: the k highest numbers of a set
  // ---------------------------------------------------------------------

  lemma Inhabited(s: set<int>)
    requires s != {}
    ensures exists x :: x in s
  {
    assert (forall x :: x !in s) ==> s == {};
  }

  ghost function Max(s: set<int>): (m: int)
    requires s != {}
    ensures m in s && forall x | x in s :: x <= m
  {
    Inhabited(s);
    var x :| x in s;
    if s == {x} then x
    else
      assert s == (s - {x}) + {x};
      var m := Max(s - {x});
      if m > x then m else x
  }

  /** The `k` highest members of `s`, ascending. */
  ghost function TopK(s: set<int>, k: nat): (t: seq<int>)
    ensures forall q | q in t :: q in s
  {
    if k == 0 || s == {} then [] else TopK(s - {Max(s)}, k - 1) + [Max(s)]
  }

  lemma MaxIs(s: set<int>, m: int)
    requires m in s && forall x | x in s :: x <= m
    ensures Max(s) == m
  {
  }

  lemma {:induction false} TopKMonotone(s: set<int>, k: nat)
    ensures forall q | q in TopK(s, k) :: q in TopK(s, k + 1)
  {
    if k > 0 && s != {} {
      TopKMonotone(s - {Max(s)}, k - 1);
    }
  }

  /** Removing the overall maximum `x` from a set of which `x` bounds every member
      costs at most one place. */
  lemma TopKWithout(s: set<int>, k: nat, x: int)
    requires k > 0 && forall y | y in s :: y <= x
    ensures forall q | q in TopK(s - {x}, k - 1) :: q in TopK(s, k) && q != x
    ensures forall q | q in TopK(s, k) && q != x && x in s :: q in TopK(s - {x}, k - 1)
  {
    if x in s {
      MaxIs(s, x);
      assert TopK(s, k) == TopK(s - {x}, k - 1) + [x];
    } else {
      assert s - {x} == s;
      TopKMonotone(s, k - 1);
    }
  }

  /** The core law. Merging new numbers `p` into any part of `s` that keeps its `k`
      highest gives the same `k` highest as merging them into all of `s`. */
  lemma {:induction false} TopKAbsorbs(s: set<int>, kept: set<int>, p: set<int>, k: nat)
    requires kept <= s && forall q | q in TopK(s, k) :: q in kept
    ensures TopK(kept + p, k) == TopK(s + p, k)
  {
    if k > 0 && s + p != {} {
      var x := Max(s + p);
      TopKWithout(s, k, x);
      if x in s {
        MaxIs(s, x);
        assert x in TopK(s, k);
      }
      MaxIs(kept + p, x);
      TopKAbsorbs(s - {x}, kept - {x}, p - {x}, k - 1);
      assert (s + p) - {x} == (s - {x}) + (p - {x});
      assert (kept + p) - {x} == (kept - {x}) + (p - {x});
    }
  }

  /** A number once trimmed never returns, whatever arrives later. */
  lemma {:induction false} TrimmedStays(s: set<int>, p: set<int>, k: nat, q: int)
    requires q in s && q !in TopK(s, k)
    ensures q !in TopK(s + p, k)
  {
    if k > 0 {
      var x := Max(s + p);
      TopKWithout(s, k, x);
      if q == x {
        MaxIs(s, x);
        assert false;
      }
      TrimmedStays(s - {x}, p - {x}, k - 1, q);
      assert (s + p) - {x} == (s - {x}) + (p - {x});
    }
  }

  // ---------------------------------------------------------------------
  // Sorting
  // ---------------------------------------------------------------------

  function Numbers(s: seq<Event>): (ns: seq<int>)
    ensures |ns| == |s| && forall i | 0 <= i < |s| :: ns[i] == s[i].seqNo
  {
    seq(|s|, i requires 0 <= i < |s| => s[i].seqNo)
  }

  predicate Ascending(s: seq<Event>) {
    forall i, j | 0 <= i < j < |s| :: s[i].seqNo < s[j].seqNo
  }

  predicate Distinct(s: seq<Event>) {
    forall i, j | 0 <= i < j < |s| :: s[i].seqNo != s[j].seqNo
  }

  lemma {:induction false} HeldAt(s: seq<Event>, i: nat)
    requires i < |s|
    ensures s[i].seqNo in Held(s)
  {
    if i < |s| - 1 {
      HeldAt(s[..|s| - 1], i);
    }
  }

  lemma {:induction false} HeldWhere(s: seq<Event>, q: int) returns (i: nat)
    requires q in Held(s)
    ensures i < |s| && s[i].seqNo == q
  {
    if q in Held(s[..|s| - 1]) {
      i := HeldWhere(s[..|s| - 1], q);
    } else {
      i := |s| - 1;
    }
  }

  lemma HeldSnoc(s: seq<Event>, e: Event)
    ensures Held(s + [e]) == Held(s) + {e.seqNo}
  {
    assert (s + [e])[..|s|] == s;
  }

  lemma {:induction false} HeldConcat(a: seq<Event>, b: seq<Event>)
    ensures Held(a + b) == Held(a) + Held(b)
  {
    if b == [] {
      assert a + b == a;
    } else {
      var init, last := b[..|b| - 1], b[|b| - 1];
      assert a + b == (a + init) + [last];
      HeldConcat(a, init);
      HeldSnoc(a + init, last);
    }
  }

  lemma AscendingSnoc(s: seq<Event>, e: Event)
    requires Ascending(s) && forall q | q in Held(s) :: q < e.seqNo
    ensures Ascending(s + [e])
  {
    forall i | 0 <= i < |s| ensures s[i].seqNo < e.seqNo {
      HeldAt(s, i);
    }
  }

  lemma LastIsHighest(s: seq<Event>, q: int)
    requires Ascending(s) && s != [] && q in Held(s[..|s| - 1])
    ensures q < s[|s| - 1].seqNo
  {
    var i := HeldWhere(s[..|s| - 1], q);
  }

  lemma {:induction false} InsertPermutes(e: Event, s: seq<Event>)
    ensures multiset(Insert(e, s)) == multiset(s) + multiset{e}
    ensures Held(Insert(e, s)) == Held(s) + {e.seqNo}
  {
    if s == [] || s[|s| - 1].seqNo <= e.seqNo {
      HeldSnoc(s, e);
    } else {
      var init, last := s[..|s| - 1], s[|s| - 1];
      assert s == init + [last];
      InsertPermutes(e, init);
      HeldSnoc(Insert(e, init), last);
    }
  }

  lemma {:induction false} InsertSorts(e: Event, s: seq<Event>)
    requires Ascending(s) && e.seqNo !in Held(s)
    ensures Ascending(Insert(e, s))
  {
    if s == [] {
      assert Insert(e, s) == [e];
    } else {
      var init, last := s[..|s| - 1], s[|s| - 1];
      forall q | q in Held(init) ensures q < last.seqNo {
        LastIsHighest(s, q);
      }
      if last.seqNo <= e.seqNo {
        AscendingSnoc(s, e);
      } else {
        InsertSorts(e, init);
        InsertPermutes(e, init);
        AscendingSnoc(Insert(e, init), last);
      }
    }
  }

  lemma {:induction false} SortPermutes(s: seq<Event>)
    ensures multiset(Sort(s)) == multiset(s) && Held(Sort(s)) == Held(s)
  {
    if s != [] {
      var init, last := s[..|s| - 1], s[|s| - 1];
      assert s == init + [last];
      SortPermutes(init);
      InsertPermutes(last, Sort(init));
    }
  }

  lemma {:induction false} SortSorts(s: seq<Event>)
    requires Distinct(s)
    ensures Ascending(Sort(s))
  {
    if s != [] {
      var init, last := s[..|s| - 1], s[|s| - 1];
      SortSorts(init);
      SortPermutes(init);
      if last.seqNo in Held(init) {
        var i := HeldWhere(init, last.seqNo);
        assert false;
      }
      InsertSorts(last, Sort(init));
    }
  }

  lemma TopKStep(s: set<int>, m: int, k: nat)
    requires m !in s && forall q | q in s :: q < m
    ensures TopK(s + {m}, k + 1) == TopK(s, k) + [m]
  {
    MaxIs(s + {m}, m);
    assert s + {m} - {m} == s;
  }

  lemma NumbersSnoc(s: seq<Event>, e: Event)
    ensures Numbers(s + [e]) == Numbers(s) + [e.seqNo]
  {
  }

  lemma LastOfSnoc<T>(s: seq<T>, x: T, k: nat)
    ensures LastOf(s + [x], k + 1) == LastOf(s, k) + [x]
  {
  }

  lemma TopOfSnoc(s: seq<Event>, last: Event, k: nat)
    requires Ascending(s + [last])
    ensures TopK(Held(s + [last]), k + 1) == TopK(Held(s), k) + [last.seqNo]
  {
    var t := s + [last];
    assert t[..|t| - 1] == s;
    forall q | q in Held(s) ensures q < last.seqNo {
      LastIsHighest(t, q);
    }
    TopKStep(Held(s), last.seqNo, k);
  }

  lemma AscendingFront(s: seq<Event>)
    requires Ascending(s) && s != []
    ensures Ascending(s[..|s| - 1]) && s == s[..|s| - 1] + [s[|s| - 1]]
  {
  }

  lemma TailStep(s: seq<Event>, last: Event, k: nat)
    requires Ascending(s + [last]) && Numbers(LastOf(s, k)) == TopK(Held(s), k)
    ensures Numbers(LastOf(s + [last], k + 1)) == TopK(Held(s + [last]), k + 1)
  {
    TopOfSnoc(s, last, k);
    LastOfSnoc(s, last, k);
    NumbersSnoc(LastOf(s, k), last);
  }

  /** The tail of an ascending feed holds exactly the highest numbers. */
  lemma {:induction false} TailIsTop(s: seq<Event>, k: nat)
    requires Ascending(s)
    ensures Numbers(LastOf(s, k)) == TopK(Held(s), k)
  {
    if k > 0 && s != [] {
      var init, last := s[..|s| - 1], s[|s| - 1];
      AscendingFront(s);
      TailIsTop(init, k - 1);
      TailStep(init, last, k - 1);
    }
  }

  // ---------------------------------------------------------------------
  // The feed against everything received
  // ---------------------------------------------------------------------

  /** What a page says: of two events with one number, the earlier. */
  function Contents(page: seq<Event>): (m: map<int, string>)
    ensures m.Keys == Held(page)
  {
    if page == [] then map[]
    else
      var last := page[|page| - 1];
      map[last.seqNo := last.body] + Contents(page[..|page| - 1])
  }

  ghost predicate Faithful(feed: seq<Event>, received: map<int, string>) {
    forall i | 0 <= i < |feed| :: feed[i].seqNo in received && received[feed[i].seqNo] == feed[i].body
  }

  ghost predicate IsTop(feed: seq<Event>, received: map<int, string>, k: nat) {
    Ascending(feed) && Numbers(feed) == TopK(received.Keys, k) && Faithful(feed, received)
  }

  lemma NumbersHeld(feed: seq<Event>)
    ensures forall q :: q in Held(feed) <==> q in Numbers(feed)
  {
    forall q | q in Held(feed) ensures q in Numbers(feed) {
      var i := HeldWhere(feed, q);
      assert Numbers(feed)[i] == q;
    }
    forall q | q in Numbers(feed) ensures q in Held(feed) {
      var i :| 0 <= i < |feed| && Numbers(feed)[i] == q;
      HeldAt(feed, i);
    }
  }

  lemma {:induction false} NewsHeld(page: seq<Event>, held: set<int>)
    ensures Held(News(page, held)) == Held(page) - held
  {
    if page != [] {
      var init, last := page[..|page| - 1], page[|page| - 1];
      NewsHeld(init, held);
      HeldSnoc(News(init, held), last);
      assert News(init, held) + [] == News(init, held);
    }
  }

  lemma {:induction false} NewsFaithful(page: seq<Event>, held: set<int>)
    requires Distinct(News(page, held))
    ensures Faithful(News(page, held), Contents(page))
  {
    if page != [] {
      var init, last := page[..|page| - 1], page[|page| - 1];
      var before, now := News(init, held), News(page, held);
      assert forall i | 0 <= i < |before| && |now| > |before| :: now[i].seqNo != now[|before|].seqNo;
      assert forall i | 0 <= i < |before| :: now[i] == before[i];
      NewsFaithful(init, held);
      NewsHeld(init, held);
      if last.seqNo !in held && last.seqNo in Held(init) {
        var i := HeldWhere(before, last.seqNo);
        assert false;
      }
    }
  }

  lemma {:induction false} TopKSize(s: set<int>, k: nat)
    ensures |TopK(s, k)| <= k
  {
    if k > 0 && s != {} {
      TopKSize(s - {Max(s)}, k - 1);
    }
  }

  lemma MergeDistinct(feed: seq<Event>, news: seq<Event>)
    requires Ascending(feed) && Distinct(news) && Held(feed) !! Held(news)
    ensures Distinct(feed + news)
  {
    forall i, j | 0 <= i < |feed| && 0 <= j < |news| ensures feed[i].seqNo != news[j].seqNo {
      HeldAt(feed, i);
      HeldAt(news, j);
    }
  }

  lemma MergedHeld(feed: seq<Event>, page: seq<Event>)
    ensures Held(feed + News(page, Held(feed))) == Held(feed) + Held(page)
    ensures Held(feed) !! Held(News(page, Held(feed)))
  {
    NewsHeld(page, Held(feed));
    HeldConcat(feed, News(page, Held(feed)));
  }

  lemma FeedIsEnough(feed: seq<Event>, received: map<int, string>, p: set<int>, k: nat)
    requires IsTop(feed, received, k)
    ensures TopK(Held(feed) + p, k) == TopK(received.Keys + p, k)
  {
    NumbersHeld(feed);
    forall q | q in Held(feed) ensures q in received.Keys {
      assert q in TopK(received.Keys, k);
    }
    TopKAbsorbs(received.Keys, Held(feed), p, k);
  }

  lemma MergedNumbers(feed: seq<Event>, received: map<int, string>, page: seq<Event>, limit: int)
    requires IsTop(feed, received, Size(limit))
    requires Distinct(News(page, Held(feed)))
    ensures Ascending(Merged(feed, page, limit))
    ensures Numbers(Merged(feed, page, limit)) == TopK(received.Keys + Held(page), Size(limit))
  {
    var k, news := Size(limit), News(page, Held(feed));
    MergedHeld(feed, page);
    FeedIsEnough(feed, received, Held(page), k);
    if news == [] {
      assert feed + news == feed;
      TopKSize(received.Keys, k);
      assert LastOf(feed, k) == feed by { assert |Numbers(feed)| <= k; }
      TailIsTop(feed, k);
    } else {
      MergeDistinct(feed, news);
      SortSorts(feed + news);
      SortPermutes(feed + news);
      TailIsTop(Sort(feed + news), k);
    }
  }

  lemma MergedFaithful(feed: seq<Event>, received: map<int, string>, page: seq<Event>, limit: int)
    requires IsTop(feed, received, Size(limit))
    requires Distinct(News(page, Held(feed)))
    requires Numbers(Merged(feed, page, limit)) == TopK(received.Keys + Held(page), Size(limit))
    ensures Faithful(Merged(feed, page, limit), Contents(page) + received)
  {
    var all, next := feed + News(page, Held(feed)), Merged(feed, page, limit);
    NewsFaithful(page, Held(feed));
    SortPermutes(all);
    forall i | 0 <= i < |next|
      ensures var now := Contents(page) + received; next[i].seqNo in now && now[next[i].seqNo] == next[i].body
    {
      assert Numbers(next)[i] == next[i].seqNo;
      if News(page, Held(feed)) != [] {
        MergedFrom(all, Size(limit), i);
      }
      KeptBody(feed, received, page, next[i], Size(limit));
    }
  }

  /** One page keeps the feed the top of everything received. Duplicates inside the
      page matter only among events the feed does not hold. */
  lemma PageKeepsTop(feed: seq<Event>, received: map<int, string>, page: seq<Event>, limit: int)
    requires IsTop(feed, received, Size(limit))
    requires Distinct(News(page, Held(feed)))
    ensures IsTop(Merged(feed, page, limit), Contents(page) + received, Size(limit))
  {
    MergedNumbers(feed, received, page, limit);
    MergedFaithful(feed, received, page, limit);
    assert (Contents(page) + received).Keys == received.Keys + Held(page);
  }

  lemma MergedFrom(all: seq<Event>, k: nat, i: nat)
    requires multiset(Sort(all)) == multiset(all) && i < |LastOf(Sort(all), k)|
    ensures LastOf(Sort(all), k)[i] in all
  {
    var e := LastOf(Sort(all), k)[i];
    assert e in Sort(all);
    assert e in multiset(Sort(all));
  }

  lemma KeptBody(feed: seq<Event>, received: map<int, string>, page: seq<Event>, e: Event, k: nat)
    requires IsTop(feed, received, k)
    requires Faithful(News(page, Held(feed)), Contents(page))
    requires e in feed || e in News(page, Held(feed))
    requires e.seqNo in TopK(received.Keys + Held(page), k)
    ensures var now := Contents(page) + received; e.seqNo in now && now[e.seqNo] == e.body
  {
    if e in feed {
      var j :| 0 <= j < |feed| && feed[j] == e;
    } else {
      var news := News(page, Held(feed));
      var j :| 0 <= j < |news| && news[j] == e;
      HeldAt(news, j);
      NewsHeld(page, Held(feed));
      NumbersHeld(feed);
      if e.seqNo in received {
        TrimmedStays(received.Keys, Held(page), k, e.seqNo);
        assert false;
      }
    }
  }

  function RunPages(pages: seq<seq<Event>>, limit: int): State {
    if pages == [] then EMPTY
    else Received(RunPages(pages[..|pages| - 1], limit), pages[|pages| - 1], limit)
  }

  function Everything(pages: seq<seq<Event>>): map<int, string> {
    if pages == [] then map[] else Contents(pages[|pages| - 1]) + Everything(pages[..|pages| - 1])
  }

  lemma {:induction false} DistinctNews(page: seq<Event>, held: set<int>)
    requires Distinct(page)
    ensures Distinct(News(page, held))
  {
    if page != [] {
      var init, last := page[..|page| - 1], page[|page| - 1];
      DistinctNews(init, held);
      NewsHeld(init, held);
      forall i | 0 <= i < |News(init, held)| ensures News(init, held)[i].seqNo != last.seqNo {
        HeldAt(News(init, held), i);
        var j := HeldWhere(init, News(init, held)[i].seqNo);
        assert page[j].seqNo != page[|page| - 1].seqNo;
      }
    }
  }

  /** After any pages, overlapping, repeated and in any order, the feed is the `limit`
      highest events of everything ever received, each once, ascending; and the
      cursor is the highest number received. */
  lemma {:induction false} FeedIsTop(pages: seq<seq<Event>>, limit: int)
    requires forall i | 0 <= i < |pages| :: Distinct(pages[i])
    ensures IsTop(RunPages(pages, limit).feed, Everything(pages), Size(limit))
    ensures var c := RunPages(pages, limit).cursor;
            c >= 0 && (c == 0 || c in Everything(pages)) && forall q | q in Everything(pages) :: q <= c
  {
    if pages == [] {
      assert Numbers([]) == [];
    } else {
      var before, page := pages[..|pages| - 1], pages[|pages| - 1];
      FeedIsTop(before, limit);
      DistinctNews(page, Held(RunPages(before, limit).feed));
      PageKeepsTop(RunPages(before, limit).feed, Everything(before), page, limit);
      forall q | q in Held(page) ensures q <= RunPages(pages, limit).cursor {
        var i := HeldWhere(page, q);
      }
      forall i | 0 <= i < |page| ensures page[i].seqNo in Held(page) {
        HeldAt(page, i);
      }
    }
  }

  /** An event that fell out of the feed is never shown again. */
  lemma NeverReturns(pages: seq<seq<Event>>, page: seq<Event>, limit: int, q: int)
    requires forall i | 0 <= i < |pages| :: Distinct(pages[i])
    requires Distinct(page)
    requires q in Everything(pages) && q !in Held(RunPages(pages, limit).feed)
    ensures q !in Held(RunPages(pages + [page], limit).feed)
  {
    assert (pages + [page])[..|pages|] == pages;
    FeedIsTop(pages, limit);
    FeedIsTop(pages + [page], limit);
    NumbersHeld(RunPages(pages, limit).feed);
    NumbersHeld(RunPages(pages + [page], limit).feed);
    TrimmedStays(Everything(pages).Keys, Held(page), Size(limit), q);
    assert Everything(pages + [page]).Keys == Everything(pages).Keys + Held(page);
  }

  /** The highest number of the feed is the fetcher's cursor exactly when the feed may hold
      an event, or no event was received. */
  lemma FeedCursor(pages: seq<seq<Event>>, limit: int)
    requires forall i | 0 <= i < |pages| :: Distinct(pages[i])
    ensures var st := RunPages(pages, limit);
            Highest(st.feed, 0) == st.cursor <==> limit >= 1 || st.cursor == 0
  {
    var st := RunPages(pages, limit);
    FeedIsTop(pages, limit);
    NumbersHeld(st.feed);
    if limit >= 1 && st.cursor > 0 {
      MaxIs(Everything(pages).Keys, st.cursor);
      assert st.cursor in TopK(Everything(pages).Keys, Size(limit));
      var i := HeldWhere(st.feed, st.cursor);
    }
    forall i | 0 <= i < |st.feed| ensures st.feed[i].seqNo <= st.cursor {
      assert Numbers(st.feed)[i] in Everything(pages).Keys;
    }
    assert limit < 1 ==> st.feed == [];
  }

  /** Which pages were fetched for a run of the polling effect that was still on when they
      came: the others move the references and not what is displayed. */
  type Heard = seq<bool>

  /** The feed on display. */
  function Displayed(pages: seq<seq<Event>>, heard: Heard, limit: int): seq<Event>
    requires |heard| == |pages|
    decreases |pages|
  {
    var n := |pages|;
    if n == 0 then []
    else if heard[n - 1] then RunPages(pages, limit).feed
    else Displayed(pages[..n - 1], heard[..n - 1], limit)
  }

  /** How many pages came up to the last heard one. */
  function LastHeard(heard: Heard): (m: nat)
    ensures m <= |heard|
    ensures m > 0 ==> heard[m - 1]
    ensures forall i | m <= i < |heard| :: !heard[i]
  {
    var n := |heard|;
    if n == 0 then 0 else if heard[n - 1] then n else LastHeard(heard[..n - 1])
  }

  lemma {:induction false} DisplayedWhenHeard(pages: seq<seq<Event>>, heard: Heard, limit: int)
    requires |heard| == |pages|
    ensures Displayed(pages, heard, limit) == RunPages(pages[..LastHeard(heard)], limit).feed
    decreases |pages|
  {
    var n, m := |pages|, LastHeard(heard);
    if n > 0 && !heard[n - 1] {
      DisplayedWhenHeard(pages[..n - 1], heard[..n - 1], limit);
      assert pages[..n - 1][..m] == pages[..m];
    } else {
      assert pages[..m] == pages;
    }
  }

  /** With a limit of at least one the feed on display reaches the cursor of the moment it
      was put there; with none it is empty. */
  lemma DisplayedCursor(pages: seq<seq<Event>>, heard: Heard, limit: int)
    requires |heard| == |pages| && forall i | 0 <= i < |pages| :: Distinct(pages[i])
    ensures limit >= 1 ==>
              Highest(Displayed(pages, heard, limit), 0) == RunPages(pages[..LastHeard(heard)], limit).cursor
    ensures limit < 1 ==> Displayed(pages, heard, limit) == []
  {
    var first := pages[..LastHeard(heard)];
    DisplayedWhenHeard(pages, heard, limit);
    FeedCursor(first, limit);
    FeedIsTop(first, limit);
    assert limit < 1 ==> RunPages(first, limit).feed == [];
  }

  /** No number of the later pages is above every number of the earlier ones; the cursor
      begins at zero. */
  ghost predicate NothingHigher(earlier: seq<seq<Event>>, later: seq<seq<Event>>) {
    forall q | q in Everything(later) && q > 0 :: exists r :: r in Everything(earlier) && q <= r
  }

  lemma {:induction false} EverythingHeld(pages: seq<seq<Event>>, q: int)
    ensures q in Everything(pages) <==> exists i :: 0 <= i < |pages| && q in Held(pages[i])
  {
    if pages != [] {
      var init := pages[..|pages| - 1];
      EverythingHeld(init, q);
      assert forall i | 0 <= i < |init| :: init[i] == pages[i];
      assert q in Everything(pages) <==> q in Held(pages[|pages| - 1]) || q in Everything(init);
    }
  }

  lemma EverythingSplits(pages: seq<seq<Event>>, m: nat, q: int)
    requires m <= |pages|
    ensures q in Everything(pages) <==> q in Everything(pages[..m]) || q in Everything(pages[m..])
  {
    EverythingHeld(pages, q);
    EverythingHeld(pages[..m], q);
    EverythingHeld(pages[m..], q);
    if i :| 0 <= i < |pages| && q in Held(pages[i]) {
      if i < m {
        assert pages[..m][i] == pages[i];
      } else {
        assert pages[m..][i - m] == pages[i];
      }
    }
  }

  /** Later pages leave the cursor where it is exactly when they hold nothing higher. */
  lemma CursorStays(pages: seq<seq<Event>>, m: nat, limit: int)
    requires m <= |pages| && forall i | 0 <= i < |pages| :: Distinct(pages[i])
    ensures RunPages(pages[..m], limit).cursor == RunPages(pages, limit).cursor
       <==> NothingHigher(pages[..m], pages[m..])
  {
    FeedIsTop(pages[..m], limit);
    FeedIsTop(pages, limit);
    forall q ensures q in Everything(pages) <==> q in Everything(pages[..m]) || q in Everything(pages[m..]) {
      EverythingSplits(pages, m, q);
    }
    assert Everything(pages).Keys == Everything(pages[..m]).Keys + Everything(pages[m..]).Keys;
    HighestStays(Everything(pages[..m]).Keys, Everything(pages[m..]).Keys,
                 RunPages(pages[..m], limit).cursor, RunPages(pages, limit).cursor);
  }

  /** `c` is the highest of `s`, or zero above all of it. */
  ghost predicate IsHighest(s: set<int>, c: int) {
    c >= 0 && (c == 0 || c in s) && forall q | q in s :: q <= c
  }

  lemma HighestStays(earlier: set<int>, later: set<int>, was: int, now: int)
    requires IsHighest(earlier, was) && IsHighest(earlier + later, now)
    ensures was == now <==> forall q | q in later && q > 0 :: exists r :: r in earlier && q <= r
  {
    if was == now {
      forall q | q in later && q > 0 ensures was in earlier && q <= was {
        assert q in earlier + later;
      }
    } else {
      assert now in earlier + later;
    }
  }

  /** The cursor shown next to the feed is derived from the feed on display. With a limit of
      at least one it is the fetcher's cursor exactly when no page after the last heard one
      holds a number above all that came before; with none, exactly when no page does. */
  lemma ShownCursor(pages: seq<seq<Event>>, heard: Heard, limit: int)
    requires |heard| == |pages| && forall i | 0 <= i < |pages| :: Distinct(pages[i])
    ensures var cursor := RunPages(pages, limit).cursor;
            Highest(Displayed(pages, heard, limit), 0) == cursor
            <==> (var m := if limit >= 1 then LastHeard(heard) else 0;
                  NothingHigher(pages[..m], pages[m..]))
  {
    DisplayedCursor(pages, heard, limit);
    CursorStays(pages, if limit >= 1 then LastHeard(heard) else 0, limit);
  }

  /** Without distinct numbers inside a page the feed shows an event twice. */
  lemma DuplicateInsidePage(e: Event, limit: int)
    requires limit >= 2
    ensures RunPages([[e, e]], limit).feed == [e, e]
  {
    var page := [e, e];
    var none: seq<seq<Event>> := [];
    assert [page][..0] == none;
    assert RunPages([page], limit) == Received(RunPages(none, limit), page, limit);
    NewsOfTwo(e);
    SortOfTwo(e);
    assert [] + page == page;
  }

  lemma NewsOfTwo(e: Event)
    ensures News([e, e], Held([])) == [e, e]
  {
    assert [e, e][..1] == [e] && [e][..0] == [];
    assert News([], {}) == [];
    assert News([e], {}) == [] + [e];
    assert News([e, e], {}) == News([e], {}) + [e];
  }

  lemma SortLast(s: seq<Event>, e: Event)
    ensures Sort(s + [e]) == Insert(e, Sort(s))
  {
    assert (s + [e])[..|s|] == s;
  }

  lemma SortOfTwo(e: Event)
    ensures Sort([e, e]) == [e, e]
  {
    SortLast([], e);
    SortLast([e], e);
    assert [] + [e] == [e] && [e] + [e] == [e, e];
  }

  // ---------------------------------------------------------------------
  // Against an append-only log
  // ---------------------------------------------------------------------

  /** The log's tail query: the events above `since`, in log order. */
  function Above(log: seq<Event>, since: int): seq<Event> {
    if log == [] then []
    else if log[0].seqNo > since then [log[0]] + Above(log[1..], since)
    else Above(log[1..], since)
  }

  function UpTo(log: seq<Event>, c: int): seq<Event> {
    if log == [] then []
    else if log[0].seqNo <= c then [log[0]] + UpTo(log[1..], c)
    else UpTo(log[1..], c)
  }

  /** The log, the fetcher's state, the cursors of the requests still in flight, and
      (for the specification only) the pages applied so far. */
  datatype World = World(log: seq<Event>, st: State, inFlight: seq<int>, pages: seq<seq<Event>>)

  /** Requests may be answered late or out of order, or be lost; `size` is however
      many events the server chose to send. */
  datatype Step = Append(e: Event) | Ask | Answer(request: nat, size: nat) | Lose(request: nat)

  predicate Enabled(w: World, a: Step) {
    match a
    case Append(e) => e.seqNo > 0 && forall i | 0 <= i < |w.log| :: w.log[i].seqNo < e.seqNo
    case Ask => true
    case Answer(r, size) => r < |w.inFlight| && size <= |Above(w.log, w.inFlight[r])|
    case Lose(r) => r < |w.inFlight|
  }

  function Without<T>(s: seq<T>, r: nat): seq<T>
    requires r < |s|
  {
    s[..r] + s[r + 1..]
  }

  /** A step that cannot happen changes nothing. */
  function Next(w: World, a: Step, limit: int): World {
    if !Enabled(w, a) then w
    else
      match a
      case Append(e) => World(w.log + [e], w.st, w.inFlight, w.pages)
      case Ask => World(w.log, w.st, w.inFlight + [w.st.cursor], w.pages)
      case Answer(r, size) =>
        var page := Above(w.log, w.inFlight[r])[..size];
        World(w.log, Received(w.st, page, limit), Without(w.inFlight, r), w.pages + [page])
      case Lose(r) => World(w.log, w.st, Without(w.inFlight, r), w.pages)
  }

  const BEGINNING := World([], EMPTY, [], [])

  function RunWorld(steps: seq<Step>, limit: int): World {
    if steps == [] then BEGINNING
    else Next(RunWorld(steps[..|steps| - 1], limit), steps[|steps| - 1], limit)
  }

  /** In an ascending log both queries are slices. */
  lemma {:induction false} QueriesAreSlices(log: seq<Event>, c: int) returns (n: nat)
    requires Ascending(log)
    ensures n <= |log| && UpTo(log, c) == log[..n] && Above(log, c) == log[n..]
    ensures forall i | 0 <= i < |log| :: i < n <==> log[i].seqNo <= c
  {
    if log == [] {
      n := 0;
    } else {
      var rest := log[1..];
      assert log == [log[0]] + rest;
      AscendingRest(log[0], rest);
      var m := QueriesAreSlices(rest, c);
      n := QueryFirst(log[0], rest, c, m);
    }
  }

  lemma AscendingRest(e: Event, rest: seq<Event>)
    requires Ascending([e] + rest)
    ensures Ascending(rest) && forall i | 0 <= i < |rest| :: e.seqNo < rest[i].seqNo
  {
    assert forall i | 0 <= i < |rest| :: rest[i] == ([e] + rest)[i + 1];
    assert ([e] + rest)[0] == e;
  }

  lemma QueryFirst(e: Event, rest: seq<Event>, c: int, m: nat) returns (n: nat)
    requires m <= |rest| && UpTo(rest, c) == rest[..m] && Above(rest, c) == rest[m..]
    requires forall i | 0 <= i < |rest| :: i < m <==> rest[i].seqNo <= c
    requires forall i | 0 <= i < |rest| :: e.seqNo < rest[i].seqNo
    ensures var log := [e] + rest;
            && n <= |log| && UpTo(log, c) == log[..n] && Above(log, c) == log[n..]
            && forall i | 0 <= i < |log| :: i < n <==> log[i].seqNo <= c
  {
    var log := [e] + rest;
    assert log[1..] == rest;
    if e.seqNo <= c {
      n := m + 1;
      assert log[..n] == [e] + rest[..m] && log[n..] == rest[m..];
    } else {
      n := 0;
      assert m == 0;
      assert log[0..] == [e] + rest[0..];
    }
  }

  lemma SliceHeld(log: seq<Event>, a: nat, b: nat, c: nat)
    requires a <= b <= c <= |log|
    ensures Held(log[a..c]) == Held(log[a..b]) + Held(log[b..c])
  {
    HeldConcat(log[a..b], log[b..c]);
    assert log[a..c] == log[a..b] + log[b..c];
  }

  lemma {:induction false} ContentsAt(s: seq<Event>, i: nat)
    requires Ascending(s) && i < |s|
    ensures s[i].seqNo in Contents(s) && Contents(s)[s[i].seqNo] == s[i].body
  {
    var init, last := s[..|s| - 1], s[|s| - 1];
    if i < |s| - 1 {
      ContentsAt(init, i);
    } else if last.seqNo in Held(init) {
      LastIsHighest(s, last.seqNo);
      assert false;
    }
  }

  lemma SliceAscends(log: seq<Event>, a: nat, b: nat)
    requires Ascending(log) && a <= b <= |log|
    ensures Ascending(log[a..b])
  {
    var s := log[a..b];
    assert forall i | 0 <= i < |s| :: s[i] == log[a + i];
  }

  predicate Agrees(part: map<int, string>, whole: map<int, string>) {
    forall q | q in part :: q in whole && whole[q] == part[q]
  }

  /** What a slice of the log says is what the log says. */
  lemma SliceAgreesAt(log: seq<Event>, k: nat, slice: seq<Event>, i: nat)
    requires Ascending(log) && Ascending(slice) && k < |log| && i < |slice| && slice[i] == log[k]
    ensures var q := slice[i].seqNo;
            q in Contents(slice) && q in Contents(log) && Contents(log)[q] == Contents(slice)[q]
  {
    ContentsAt(slice, i);
    ContentsAt(log, k);
  }

  lemma SliceAgreesFor(log: seq<Event>, a: nat, slice: seq<Event>, q: int)
    requires Ascending(log) && Ascending(slice) && a + |slice| <= |log| && q in Held(slice)
    requires forall i | 0 <= i < |slice| :: slice[i] == log[a + i]
    ensures q in Contents(log) && Contents(log)[q] == Contents(slice)[q]
  {
    var i := HeldWhere(slice, q);
    SliceAgreesAt(log, a + i, slice, i);
  }

  lemma SliceAgrees(log: seq<Event>, a: nat, slice: seq<Event>)
    requires Ascending(log) && Ascending(slice) && a + |slice| <= |log|
    requires forall i | 0 <= i < |slice| :: slice[i] == log[a + i]
    ensures Agrees(Contents(slice), Contents(log))
  {
    forall q | q in Contents(slice) ensures q in Contents(log) && Contents(log)[q] == Contents(slice)[q] {
      assert q in Held(slice);
      SliceAgreesFor(log, a, slice, q);
    }
  }

  lemma AgreeingMaps(l: map<int, string>, r: map<int, string>, whole: map<int, string>)
    requires l.Keys == r.Keys && Agrees(l, whole) && Agrees(r, whole)
    ensures l == r
  {
    forall q | q in l ensures q in r && l[q] == r[q] {
      assert q in r.Keys;
    }
  }

  lemma ExtendHeld(log: seq<Event>, p: nat, j: nat, n: nat)
    requires p <= n <= |log| && p <= j <= |log|
    ensures Held(log[p..j]) + Held(log[0..n]) == Held(log[0..if j > n then j else n])
  {
    if j > n {
      SliceHeld(log, 0, p, n);
      SliceHeld(log, 0, p, j);
      SliceHeld(log, p, n, j);
    } else {
      SliceHeld(log, 0, p, n);
      SliceHeld(log, p, j, n);
    }
  }

  /** A page that starts at or below the first unread entry extends what was read to
      a longer prefix of the log. */
  lemma PageExtends(log: seq<Event>, p: nat, j: nat, n: nat)
    requires Ascending(log) && p <= n <= |log| && p <= j <= |log|
    ensures Contents(log[p..j]) + Contents(log[0..n]) == Contents(log[0..if j > n then j else n])
  {
    var m := if j > n then j else n;
    ExtendHeld(log, p, j, n);
    PartAgrees(log, 0, m);
    PartAgrees(log, 0, n);
    PartAgrees(log, p, j);
    UnionAgrees(Contents(log[p..j]), Contents(log[0..n]), Contents(log[0..m]), Contents(log));
  }

  lemma PartAgrees(log: seq<Event>, a: nat, b: nat)
    requires Ascending(log) && a <= b <= |log|
    ensures Agrees(Contents(log[a..b]), Contents(log))
  {
    SliceAscends(log, a, b);
    SliceAgrees(log, a, log[a..b]);
  }

  lemma UnionAgrees(l: map<int, string>, m: map<int, string>, r: map<int, string>, whole: map<int, string>)
    requires Agrees(l, whole) && Agrees(m, whole) && Agrees(r, whole)
    requires l.Keys + m.Keys == r.Keys
    ensures l + m == r
  {
    AgreeingMaps(l + m, r, whole);
  }

  predicate IsLog(log: seq<Event>) {
    Ascending(log) && forall i | 0 <= i < |log| :: log[i].seqNo > 0
  }

  /** Nothing below the cursor is missing and nothing above it was received. */
  ghost predicate ReadsLog(log: seq<Event>, st: State, pages: seq<seq<Event>>, limit: int) {
    && st.cursor >= 0
    && (st.cursor == 0 || st.cursor in Held(log))
    && Everything(pages) == Contents(UpTo(log, st.cursor))
    && st == RunPages(pages, limit)
    && (forall i | 0 <= i < |pages| :: Distinct(pages[i]))
  }

  ghost predicate NoHoles(w: World, limit: int) {
    && IsLog(w.log)
    && ReadsLog(w.log, w.st, w.pages, limit)
    && (forall i | 0 <= i < |w.inFlight| :: w.inFlight[i] <= w.st.cursor)
  }

  lemma AppendUnread(log: seq<Event>, e: Event, c: int)
    requires Ascending(log) && forall i | 0 <= i < |log| :: log[i].seqNo < e.seqNo
    requires c < e.seqNo
    ensures Ascending(log + [e]) && UpTo(log + [e], c) == UpTo(log, c)
  {
    var more := log + [e];
    assert forall i | 0 <= i < |log| :: more[i] == log[i];
    var n := QueriesAreSlices(log, c);
    var m := QueriesAreSlices(more, c);
    assert more[|log|].seqNo > c;
    assert m <= |log|;
    assert n < |log| ==> more[n].seqNo > c;
    assert m < |log| ==> log[m].seqNo > c;
    assert m == n;
    assert more[..m] == log[..n];
  }

  lemma AppendKeepsNoHoles(w: World, e: Event, limit: int)
    requires NoHoles(w, limit) && Enabled(w, Append(e))
    ensures NoHoles(Next(w, Append(e), limit), limit)
  {
    HeldSnoc(w.log, e);
    if w.st.cursor > 0 {
      var i := HeldWhere(w.log, w.st.cursor);
    }
    AppendUnread(w.log, e, w.st.cursor);
  }

  /** Where the cursor lands after a page of the log. */
  lemma {:induction false} HighestOfSlice(log: seq<Event>, p: nat, j: nat, c: int)
    requires Ascending(log) && p <= j <= |log|
    ensures Highest(log[p..j], c) == if p < j && log[j - 1].seqNo > c then log[j - 1].seqNo else c
    decreases j - p
  {
    if p < j {
      assert log[p..j][1..] == log[p + 1..j];
      HighestOfSlice(log, p + 1, j, if log[p].seqNo > c then log[p].seqNo else c);
    }
  }

  lemma PageIsSlice(log: seq<Event>, since: int, c: int, size: nat) returns (p: nat)
    requires Ascending(log) && since <= c && size <= |Above(log, since)|
    ensures p + size <= |log| && Above(log, since)[..size] == log[p..p + size]
    ensures forall i | 0 <= i < p :: log[i].seqNo <= c
  {
    p := QueriesAreSlices(log, since);
  }

  /** After an answer, what was read is again everything up to the cursor. */
  lemma AnswerReads(log: seq<Event>, since: int, c: int, size: nat, page: seq<Event>)
    requires Ascending(log) && since <= c && size <= |Above(log, since)| && page == Above(log, since)[..size]
    ensures Contents(page) + Contents(UpTo(log, c)) == Contents(UpTo(log, Highest(page, c)))
    ensures Ascending(page) && (Highest(page, c) == c || Highest(page, c) in Held(log))
  {
    var p := PageIsSlice(log, since, c, size);
    SliceReads(log, p, p + size, c, page);
  }

  lemma SliceReads(log: seq<Event>, p: nat, j: nat, c: int, page: seq<Event>)
    requires Ascending(log) && p <= j <= |log| && page == log[p..j]
    requires forall i | 0 <= i < p :: log[i].seqNo <= c
    ensures Contents(page) + Contents(UpTo(log, c)) == Contents(UpTo(log, Highest(page, c)))
    ensures Ascending(page) && (Highest(page, c) == c || Highest(page, c) in Held(log))
  {
    SliceAscends(log, p, j);
    var n := QueriesAreSlices(log, c);
    HighestOfSlice(log, p, j, c);
    var c' := Highest(page, c);
    var n' := QueriesAreSlices(log, c');
    assert n < |log| ==> log[n].seqNo > c;
    CursorAfter(log, p, j, c, c', n, n');
    PageExtends(log, p, j, n);
    assert log[0..n] == log[..n] && log[0..n'] == log[..n'];
    if c' != c {
      HeldAt(log, j - 1);
    }
  }

  lemma AnswerKeepsReading(log: seq<Event>, st: State, pages: seq<seq<Event>>, since: int, size: nat, limit: int)
    requires IsLog(log) && ReadsLog(log, st, pages, limit)
    requires since <= st.cursor && size <= |Above(log, since)|
    ensures var page := Above(log, since)[..size];
            ReadsLog(log, Received(st, page, limit), pages + [page], limit)
  {
    var page := Above(log, since)[..size];
    AnswerReads(log, since, st.cursor, size, page);
    PagesSnoc(pages, page, limit);
  }

  lemma WithoutStaysBelow(s: seq<int>, r: nat, c: int)
    requires r < |s| && forall i | 0 <= i < |s| :: s[i] <= c
    ensures forall i | 0 <= i < |Without(s, r)| :: Without(s, r)[i] <= c
  {
  }

  lemma AnswerKeepsNoHoles(w: World, r: nat, size: nat, limit: int)
    requires NoHoles(w, limit) && Enabled(w, Answer(r, size))
    ensures NoHoles(Next(w, Answer(r, size), limit), limit)
    ensures w.st.cursor <= Next(w, Answer(r, size), limit).st.cursor
  {
    AnswerKeepsReading(w.log, w.st, w.pages, w.inFlight[r], size, limit);
    var page := Above(w.log, w.inFlight[r])[..size];
    var st := Received(w.st, page, limit);
    assert Next(w, Answer(r, size), limit) == World(w.log, st, Without(w.inFlight, r), w.pages + [page]);
    assert w.st.cursor <= st.cursor;
    WithoutStaysBelow(w.inFlight, r, st.cursor);
  }

  lemma PagesSnoc(pages: seq<seq<Event>>, page: seq<Event>, limit: int)
    ensures RunPages(pages + [page], limit) == Received(RunPages(pages, limit), page, limit)
    ensures Everything(pages + [page]) == Contents(page) + Everything(pages)
  {
    assert (pages + [page])[..|pages|] == pages;
  }

  lemma CursorAfter(log: seq<Event>, p: nat, j: nat, c: int, c': int, n: nat, n': nat)
    requires Ascending(log) && p <= n <= |log| && p <= j <= |log| && n' <= |log|
    requires forall i | 0 <= i < |log| :: i < n <==> log[i].seqNo <= c
    requires forall i | 0 <= i < |log| :: i < n' <==> log[i].seqNo <= c'
    requires c' == if p < j && log[j - 1].seqNo > c then log[j - 1].seqNo else c
    ensures n' == if j > n then j else n
  {
    if j > n {
      assert log[j - 1].seqNo > c;
      assert j == |log| || log[j].seqNo > log[j - 1].seqNo;
    } else {
      assert p < j ==> log[j - 1].seqNo <= c;
      assert forall i | 0 <= i < |log| && log[i].seqNo <= c :: i < n && i < n';
      assert n < |log| ==> log[n].seqNo > c;
      assert n' < |log| ==> log[n'].seqNo > c;
    }
  }

  lemma {:induction false} RunsHaveNoHoles(steps: seq<Step>, limit: int)
    ensures NoHoles(RunWorld(steps, limit), limit)
  {
    if steps != [] {
      var before, a := steps[..|steps| - 1], steps[|steps| - 1];
      RunsHaveNoHoles(before, limit);
      var w := RunWorld(before, limit);
      if Enabled(w, a) {
        match a
        case Append(e) => AppendKeepsNoHoles(w, e, limit);
        case Answer(r, size) => AnswerKeepsNoHoles(w, r, size, limit);
        case _ =>
      }
    }
  }

  lemma {:induction false} AscendingUnique(a: seq<Event>, b: seq<Event>)
    requires Numbers(a) == Numbers(b)
    requires exists m :: Faithful(a, m) && Faithful(b, m)
    ensures a == b
  {
    var m :| Faithful(a, m) && Faithful(b, m);
    forall i | 0 <= i < |a| ensures |a| == |b| && a[i] == b[i] {
      assert Numbers(a)[i] == Numbers(b)[i];
    }
    assert |Numbers(a)| == |Numbers(b)|;
  }

  lemma LastOfFaithful(s: seq<Event>, k: nat)
    requires Ascending(s)
    ensures Faithful(LastOf(s, k), Contents(s))
  {
    var window := LastOf(s, k);
    forall i | 0 <= i < |window|
      ensures window[i].seqNo in Contents(s) && Contents(s)[window[i].seqNo] == window[i].body
    {
      ContentsAt(s, |s| - |window| + i);
    }
  }

  /** The whole claim, for every interleaving of appends, requests, late answers and
      losses: what is shown is exactly the last `limit` log entries at or below the
      cursor, so no entry is skipped or shown twice. */
  lemma FeedIsLogWindow(steps: seq<Step>, limit: int)
    ensures var w := RunWorld(steps, limit);
            w.st.feed == LastOf(UpTo(w.log, w.st.cursor), Size(limit))
  {
    var w := RunWorld(steps, limit);
    RunsHaveNoHoles(steps, limit);
    FeedIsTop(w.pages, limit);
    var n := QueriesAreSlices(w.log, w.st.cursor);
    var read := w.log[..n];
    TailIsTop(read, Size(limit));
    var window := LastOf(read, Size(limit));
    LastOfFaithful(read, Size(limit));
    assert Faithful(w.st.feed, Contents(read));
    AscendingUnique(w.st.feed, window);
  }

  /** The cursor never goes back, even when an old request is answered last. */
  lemma CursorNeverRewinds(steps: seq<Step>, a: Step, limit: int)
    ensures RunWorld(steps, limit).st.cursor <= RunWorld(steps + [a], limit).st.cursor
  {
    assert (steps + [a])[..|steps|] == steps;
    RunsHaveNoHoles(steps, limit);
    var w := RunWorld(steps, limit);
    if a.Answer? && Enabled(w, a) {
      AnswerKeepsNoHoles(w, a.request, a.size, limit);
    }
  }

  /** A fresh request answered with at least one event makes progress: a lost tick is
      made up for by the next one. */
  lemma PollMakesProgress(steps: seq<Step>, r: nat, size: nat, limit: int)
    requires var w := RunWorld(steps, limit);
             Enabled(w, Answer(r, size)) && size > 0 && w.inFlight[r] == w.st.cursor
    ensures var w := RunWorld(steps, limit);
            var c := Next(w, Answer(r, size), limit).st.cursor;
            c == Above(w.log, w.st.cursor)[size - 1].seqNo && c > w.st.cursor
  {
    RunsHaveNoHoles(steps, limit);
    var w := RunWorld(steps, limit);
    PageAdvances(w.log, w.st.cursor, size);
  }

  lemma SliceTake<T>(s: seq<T>, p: nat, size: nat)
    requires 0 < size <= |s| - p
    ensures s[p..][..size] == s[p..p + size] && s[p..][size - 1] == s[p + size - 1]
  {
  }

  lemma SliceAdvances(log: seq<Event>, p: nat, c: int, size: nat)
    requires Ascending(log) && 0 < size <= |log| - p && log[p + size - 1].seqNo > c
    ensures Highest(log[p..][..size], c) == log[p..][size - 1].seqNo > c
  {
    SliceTake(log, p, size);
    HighestOfSlice(log, p, p + size, c);
  }

  lemma PageAdvances(log: seq<Event>, c: int, size: nat)
    requires Ascending(log) && 0 < size <= |Above(log, c)|
    ensures Highest(Above(log, c)[..size], c) == Above(log, c)[size - 1].seqNo > c
  {
    var p := QueriesAreSlices(log, c);
    SliceAdvances(log, p, c, size);
  }
}
