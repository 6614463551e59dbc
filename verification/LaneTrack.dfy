/** Scrubbing through a lane's output (`buildLaneTrack`, `textAt` in
    `apps/web/src/lib/reel.ts`): the whole output is joined once, and a binary search
    finds how much of it a moment shows. */
module LaneTrack {
  /** A string as the program counts it: a sequence of UTF-16 code units. */
  newtype Unit = u: int | 0 <= u < 0x1_0000

  type Text = seq<Unit>

  datatype LaneEvent = LaneEvent(time: real, text: Text)

  datatype Track = Track(events: seq<LaneEvent>, joined: Text, offsets: seq<nat>, times: seq<real>, totalChars: nat)

  const MaxRenderChars := 60000

  function Joined(events: seq<LaneEvent>): Text {
    if events == [] then [] else Joined(events[..|events| - 1]) + events[|events| - 1].text
  }

  lemma JoinedSnoc(events: seq<LaneEvent>, i: nat)
    requires i < |events|
    ensures Joined(events[..i + 1]) == Joined(events[..i]) + events[i].text
  {
    assert events[..i + 1][..i] == events[..i];
  }

  /** Later events only add to the end. */
  lemma {:induction false} JoinedExtends(events: seq<LaneEvent>, i: nat)
    requires i <= |events|
    ensures |Joined(events[..i])| <= |Joined(events)|
    ensures Joined(events)[..|Joined(events[..i])|] == Joined(events[..i])
    decreases |events| - i
  {
    if i == |events| {
      assert events[..i] == events;
    } else {
      JoinedSnoc(events, i);
      JoinedExtends(events, i + 1);
      var short, long, all := Joined(events[..i]), Joined(events[..i + 1]), Joined(events);
      assert long[..|short|] == short;
      assert all[..|long|][..|short|] == all[..|short|];
    }
  }

  /** What a track is of its lane. */
  ghost predicate Built(t: Track) {
    && t.joined == Joined(t.events)
    && |t.offsets| == |t.events| == |t.times|
    && t.totalChars == |t.joined|
    && (forall i | 0 <= i < |t.events| :: t.times[i] == t.events[i].time)
    && (forall i | 0 <= i < |t.events| :: t.offsets[i] == |Joined(t.events[..i + 1])|)
  }

  method BuildLaneTrack(events: seq<LaneEvent>) returns (track: Track)
    ensures track.events == events && Built(track)
  {
    var offsets: seq<nat>, times: seq<real> := [], [];
    var running := 0;
    assert events[..0] == [];
    for index := 0 to |events|
      invariant |offsets| == |times| == index && running == |Joined(events[..index])|
      invariant forall i | 0 <= i < index :: times[i] == events[i].time
      invariant forall i | 0 <= i < index :: offsets[i] == |Joined(events[..i + 1])|
    {
      JoinedSnoc(events, index);
      running := running + |events[index].text|;
      offsets := offsets + [running];
      times := times + [events[index].time];
    }
    assert events[..|events|] == events;
    track := Track(events, Joined(events), offsets, times, running);
  }

  /** The search of `textAt`: halve `low..high` until it is empty, keeping in `found`
      the last middle that was not after `t`. */
  function Search(times: seq<real>, t: real, low: nat, high: int, found: int): int
    requires high < |times|
    decreases high - low + 1
  {
    if low > high then found
    else
      var mid := (low + high) / 2;
      if times[mid] <= t then Search(times, t, mid + 1, high, mid)
      else Search(times, t, low, mid - 1, found)
  }

  function Find(times: seq<real>, t: real): int {
    Search(times, t, 0, |times| - 1, -1)
  }

  predicate Sorted(times: seq<real>) {
    forall i, j | 0 <= i < j < |times| :: times[i] <= times[j]
  }

  /** The entries not after `t` are those up to `k`. */
  predicate CutsAt(times: seq<real>, t: real, k: int) {
    -1 <= k < |times| && forall i | 0 <= i < |times| :: times[i] <= t <==> i <= k
  }

  lemma {:induction false} SearchCuts(times: seq<real>, t: real, low: nat, high: int)
    requires Sorted(times) && -1 <= high < |times| && low <= high + 1
    requires forall i | 0 <= i < low :: times[i] <= t
    requires forall i | high < i < |times| :: times[i] > t
    ensures CutsAt(times, t, Search(times, t, low, high, low - 1))
    decreases high - low + 1
  {
    if low <= high {
      var mid := (low + high) / 2;
      if times[mid] <= t {
        SearchCuts(times, t, mid + 1, high);
      } else {
        SearchCuts(times, t, low, mid - 1);
      }
    }
  }

  /** The search finds, for every moment, exactly the events up to it if and only if the
      times of the lane are in order. */
  lemma SearchRightExactly(times: seq<real>)
    ensures (forall t :: CutsAt(times, t, Find(times, t))) <==> Sorted(times)
  {
    if Sorted(times) {
      forall t ensures CutsAt(times, t, Find(times, t)) {
        SearchCuts(times, t, 0, |times| - 1);
      }
    } else {
      var i, j :| 0 <= i < j < |times| && times[i] > times[j];
      assert !CutsAt(times, times[j], Find(times, times[j]));
    }
  }

  /** The events of the lane that are not after `t`, wherever they stand. */
  function UpTo(events: seq<LaneEvent>, t: real): seq<LaneEvent> {
    if events == [] then []
    else UpTo(events[..|events| - 1], t)
         + (if events[|events| - 1].time <= t then [events[|events| - 1]] else [])
  }

  lemma {:induction false} UpToCut(events: seq<LaneEvent>, t: real, k: int)
    requires -1 <= k < |events|
    requires forall i | 0 <= i < |events| :: events[i].time <= t <==> i <= k
    ensures UpTo(events, t) == events[..k + 1]
  {
    if events != [] {
      var front := events[..|events| - 1];
      if k == |events| - 1 {
        UpToCut(front, t, k - 1);
        assert front[..k] + [events[k]] == events[..k + 1];
      } else {
        UpToCut(front, t, k);
      }
    }
  }

  /** The end of a text, at most as long as what is rendered at once. */
  function Clip(text: Text): (r: Text)
    ensures |r| <= MaxRenderChars
  {
    if |text| > MaxRenderChars then text[|text| - MaxRenderChars..] else text
  }

  function ShownAt(track: Track, found: int): Text
    requires Built(track) && found < |track.events|
  {
    if found < 0 then [] else Joined(track.events[..found + 1])
  }

  /** On a lane in order the search stops at everything said up to `t`. */
  lemma ShownIsUpTo(track: Track, t: real)
    requires Built(track) && Sorted(track.times)
    ensures -1 <= Find(track.times, t) < |track.events|
    ensures ShownAt(track, Find(track.times, t)) == Joined(UpTo(track.events, t))
  {
    SearchCuts(track.times, t, 0, |track.times| - 1);
    var k := Find(track.times, t);
    assert forall i | 0 <= i < |track.events| :: track.events[i].time <= t <==> track.times[i] <= t;
    UpToCut(track.events, t, k);
  }

  /** The binary search of `textAt`. */
  method FindEvent(times: seq<real>, t: real) returns (found: int)
    ensures found == Find(times, t) && -1 <= found < |times|
  {
    var low, high := 0, |times| - 1;
    found := -1;
    while low <= high
      invariant 0 <= low && -1 <= high < |times| && low <= high + 1
      invariant -1 <= found < |times|
      invariant Search(times, t, low, high, found) == Find(times, t)
      decreases high - low + 1
    {
      var mid := (low + high) / 2;
      if times[mid] <= t {
        found := mid;
        low := mid + 1;
      } else {
        high := mid - 1;
      }
    }
  }

  /** `textAt`. On a lane in order it shows everything said up to `t`, or the last 60000
      characters of it when that is longer. */
  method TextAt(track: Track, t: real) returns (text: Text, clipped: bool)
    requires Built(track)
    ensures var found := Find(track.times, t);
            -1 <= found < |track.events|
            && text == Clip(ShownAt(track, found))
            && (clipped <==> |ShownAt(track, found)| > MaxRenderChars)
    ensures Sorted(track.times) ==>
              var said := Joined(UpTo(track.events, t));
              && text == (if |said| > 60000 then said[|said| - 60000..] else said)
              && (clipped <==> |said| > 60000)
  {
    if Sorted(track.times) {
      ShownIsUpTo(track, t);
    }
    var found := FindEvent(track.times, t);
    if found < 0 {
      return [], false;
    }
    text, clipped := EndOf(track, found);
  }

  /** The slice of the joined output that ends with event `found`. */
  method EndOf(track: Track, found: nat) returns (text: Text, clipped: bool)
    requires Built(track) && found < |track.events|
    ensures text == Clip(Joined(track.events[..found + 1]))
    ensures clipped <==> |Joined(track.events[..found + 1])| > MaxRenderChars
  {
    JoinedExtends(track.events, found + 1);
    var end := track.offsets[found];
    clipped := end > MaxRenderChars;
    var start := if clipped then end - MaxRenderChars else 0;
    assert track.joined[..end][start..] == track.joined[start..end];
    text := track.joined[start..end];
  }
}
