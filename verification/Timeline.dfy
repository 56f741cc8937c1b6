/**
 Searching in utils/grid.py: the binary searches of a time line over intervals and
 over events, and the windows cut out by them.
 */
module Timeline {

  datatype Range = Range(start: real, end: real, value: string)
  datatype Event = Event(at: real, value: string)

  /** Python's s[lo:hi] for lo, hi >= 0. */
  function Slice<T>(s: seq<T>, lo: nat, hi: nat): seq<T> {
    var h := if hi < |s| then hi else |s|;
    if lo <= h then s[lo..h] else []
  }

  // ----- intervals

  predicate Contains(r: Range, key: real) {
    r.start <= key <= r.end
  }

  predicate Meets(r: Range, start: real, end: real) {
    r.start <= end && start <= r.end
  }

  /** In ascending order; neighbours may share an end point. */
  ghost predicate SortedRanges(rs: seq<Range>) {
    && (forall i :: 0 <= i < |rs| ==> rs[i].start <= rs[i].end)
    && (forall i, j :: 0 <= i < j < |rs| ==> rs[i].end <= rs[j].start)
  }

  /** No two of them have a point in common. */
  ghost predicate DisjointRanges(rs: seq<Range>) {
    SortedRanges(rs) && forall i, j :: 0 <= i < j < |rs| ==> rs[i].end < rs[j].start
  }

  /** Where the search ends up that has narrowed the index to l..u. */
  function FindRange(rs: seq<Range>, key: real, l: int, u: int): int
    requires 0 <= l <= u + 1 <= |rs|
    decreases u - l + 1
  {
    if l > u then -1
    else
      var i := (l + u) / 2;
      if Contains(rs[i], key) then i
      else if key < rs[i].start then FindRange(rs, key, l, i - 1)
      else FindRange(rs, key, i + 1, u)
  }

  function RangeAt(rs: seq<Range>, key: real): int {
    FindRange(rs, key, 0, |rs| - 1)
  }

  /** The search finds an interval with the key exactly when there is one. */
  lemma {:induction false} FindRangeMeans(rs: seq<Range>, key: real, l: int, u: int)
    requires 0 <= l <= u + 1 <= |rs| && SortedRanges(rs)
    ensures var i := FindRange(rs, key, l, u);
      && (i == -1 || (l <= i <= u && Contains(rs[i], key)))
      && (i == -1 <==> forall j :: l <= j <= u ==> !Contains(rs[j], key))
    decreases u - l + 1
  {
    if l <= u {
      var i := (l + u) / 2;
      if !Contains(rs[i], key) {
        RestWithout(rs, key, i);
        if key < rs[i].start {
          FindRangeMeans(rs, key, l, i - 1);
        } else {
          FindRangeMeans(rs, key, i + 1, u);
        }
      }
    }
  }

  /** What the search drops does not have the key. */
  lemma RestWithout(rs: seq<Range>, key: real, i: nat)
    requires SortedRanges(rs) && i < |rs| && !Contains(rs[i], key)
    ensures key < rs[i].start ==> forall j :: i <= j < |rs| ==> !Contains(rs[j], key)
    ensures !(key < rs[i].start) ==> forall j :: 0 <= j <= i ==> !Contains(rs[j], key)
  {
    forall j | 0 <= j < |rs| && (if key < rs[i].start then i <= j else j <= i) ensures !Contains(rs[j], key) {
      assert j < i ==> rs[j].end <= rs[i].start;
      assert i < j ==> rs[i].end <= rs[j].start;
    }
  }

  lemma RangeAtMeans(rs: seq<Range>, key: real)
    ensures SortedRanges(rs) && RangeAt(rs, key) == -1 ==> forall j :: 0 <= j < |rs| ==> !Contains(rs[j], key)
  {
    if SortedRanges(rs) {
      FindRangeMeans(rs, key, 0, |rs| - 1);
    }
  }

  /** The window as index bounds: lower inclusive, upper exclusive. */
  function RangeBounds(rs: seq<Range>, start: real, end: real): (int, int) {
    var s, e := RangeAt(rs, start), RangeAt(rs, end);
    if s == -1 && e == -1 then (0, 0)
    else if s == -1 then (0, e + 1)
    else if e == -1 then (s, |rs|)
    else (s, e + 1)
  }

  /** The window has exactly the intervals that meet [start, end]. */
  ghost predicate ExactRanges(rs: seq<Range>, start: real, end: real) {
    var (lo, hi) := RangeBounds(rs, start, end);
    forall i :: 0 <= i < |rs| ==> (lo <= i < hi <==> Meets(rs[i], start, end))
  }

  /** Every interval that meets [start, end] is in the window. */
  ghost predicate AllMeeting(rs: seq<Range>, start: real, end: real) {
    var (lo, hi) := RangeBounds(rs, start, end);
    forall i :: 0 <= i < |rs| && Meets(rs[i], start, end) ==> lo <= i < hi
  }

  /** The lower end of the window is right: no interval before it reaches start, and none in it ends before. */
  ghost predicate LowRight(rs: seq<Range>, start: real) {
    var s := RangeAt(rs, start);
    if s == -1 then |rs| == 0 || start <= rs[0].end else s == 0 || (0 < s <= |rs| && rs[s - 1].end < start)
  }

  ghost predicate HighRight(rs: seq<Range>, end: real) {
    var e := RangeAt(rs, end);
    if e == -1 then |rs| == 0 || rs[|rs| - 1].start <= end else e == |rs| - 1 || (0 <= e < |rs| - 1 && end < rs[e + 1].start)
  }

  /**
   When an end point is inside an interval the window is exact just if both its ends are right.  When
   neither is, the window is empty, and exact just if no interval lies between them.
   */
  lemma RangeWindow(rs: seq<Range>, start: real, end: real)
    requires SortedRanges(rs) && start <= end
    ensures var s, e := RangeAt(rs, start), RangeAt(rs, end);
      ExactRanges(rs, start, end) <==>
        if s == -1 && e == -1 then forall i :: 0 <= i < |rs| ==> !(start < rs[i].start && rs[i].end < end)
        else LowRight(rs, start) && HighRight(rs, end)
  {
    FindRangeMeans(rs, start, 0, |rs| - 1);
    FindRangeMeans(rs, end, 0, |rs| - 1);
    var s, e := RangeAt(rs, start), RangeAt(rs, end);
    if s == -1 && e == -1 {
      forall i | 0 <= i < |rs| ensures Meets(rs[i], start, end) <==> start < rs[i].start && rs[i].end < end {}
    } else {
      WindowOrder(rs, start, end);
      var (lo, hi) := RangeBounds(rs, start, end);
      LowEnd(rs, start, lo);
      HighEnd(rs, end, hi);
      assert LowRight(rs, start) && HighRight(rs, end) ==> ExactRanges(rs, start, end);
      if ExactRanges(rs, start, end) {
        ExactMeansRight(rs, start, end);
      }
    }
  }

  lemma WindowOrder(rs: seq<Range>, start: real, end: real)
    requires SortedRanges(rs) && start <= end
    ensures var s, e := RangeAt(rs, start), RangeAt(rs, end);
      && -1 <= s < |rs| && -1 <= e < |rs|
      && (s != -1 && e != -1 ==> s <= e)
  {
    FindRangeMeans(rs, start, 0, |rs| - 1);
    FindRangeMeans(rs, end, 0, |rs| - 1);
  }

  /** At the lower end: what is cut off lies before start, what is kept does not, just if LowRight. */
  lemma LowEnd(rs: seq<Range>, start: real, lo: int)
    requires SortedRanges(rs) && lo == (if RangeAt(rs, start) == -1 then 0 else RangeAt(rs, start))
    ensures LowRight(rs, start) <==> forall i :: 0 <= i < |rs| ==> (lo <= i <==> start <= rs[i].end)
  {
    FindRangeMeans(rs, start, 0, |rs| - 1);
    var s := RangeAt(rs, start);
    if s == -1 {
      assert |rs| > 0 && start <= rs[0].end ==> forall i :: 0 <= i < |rs| ==> start <= rs[i].end;
    } else {
      assert forall i :: s < i < |rs| ==> rs[s].end <= rs[i].start <= rs[i].end;
      assert s > 0 && rs[s - 1].end < start ==> forall i :: 0 <= i < s ==> rs[i].end <= rs[s - 1].end;
    }
  }

  lemma HighEnd(rs: seq<Range>, end: real, hi: int)
    requires SortedRanges(rs) && hi == (if RangeAt(rs, end) == -1 then |rs| else RangeAt(rs, end) + 1)
    ensures HighRight(rs, end) <==> forall i :: 0 <= i < |rs| ==> (i < hi <==> rs[i].start <= end)
  {
    FindRangeMeans(rs, end, 0, |rs| - 1);
    var e := RangeAt(rs, end);
    if e == -1 {
      assert |rs| > 0 ==> forall i :: 0 <= i < |rs| ==> rs[i].start <= rs[|rs| - 1].start;
    } else {
      assert forall i :: 0 <= i < e ==> rs[i].start <= rs[i].end <= rs[e].start;
      assert e + 1 < |rs| ==> forall i :: e < i < |rs| ==> rs[e + 1].start <= rs[i].start;
    }
  }

  lemma ExactMeansRight(rs: seq<Range>, start: real, end: real)
    requires SortedRanges(rs) && start <= end && ExactRanges(rs, start, end)
    requires RangeAt(rs, start) != -1 || RangeAt(rs, end) != -1
    ensures LowRight(rs, start) && HighRight(rs, end)
  {
    FindRangeMeans(rs, start, 0, |rs| - 1);
    FindRangeMeans(rs, end, 0, |rs| - 1);
    WindowOrder(rs, start, end);
  }

  /** On disjoint intervals: exact with both ends inside intervals, nothing missing with one end inside. */
  lemma DisjointWindow(rs: seq<Range>, start: real, end: real)
    requires DisjointRanges(rs) && start <= end
    ensures RangeAt(rs, start) != -1 && RangeAt(rs, end) != -1 ==> ExactRanges(rs, start, end)
    ensures RangeAt(rs, start) != -1 || RangeAt(rs, end) != -1 ==> AllMeeting(rs, start, end)
  {
    FindRangeMeans(rs, start, 0, |rs| - 1);
    FindRangeMeans(rs, end, 0, |rs| - 1);
    WindowOrder(rs, start, end);
  }

  /** Those of the first n intervals that meet [start, end], in order. */
  function Meeting(rs: seq<Range>, start: real, end: real, n: nat): seq<Range>
    requires n <= |rs|
  {
    if n == 0 then []
    else Meeting(rs, start, end, n - 1) + (if Meets(rs[n - 1], start, end) then [rs[n - 1]] else [])
  }

  lemma LastMeeting(rs: seq<Range>, start: real, end: real, n: nat)
    requires 0 < n <= |rs|
    ensures Meeting(rs, start, end, n) ==
      if Meets(rs[n - 1], start, end) then Meeting(rs, start, end, n - 1) + [rs[n - 1]] else Meeting(rs, start, end, n - 1)
  {
    assert Meeting(rs, start, end, n - 1) + [] == Meeting(rs, start, end, n - 1);
  }

  lemma {:induction false} MeetingIsSlice(rs: seq<Range>, start: real, end: real, lo: nat, hi: nat, n: nat)
    requires lo <= hi <= |rs| && n <= |rs|
    requires forall i :: 0 <= i < |rs| ==> (lo <= i < hi <==> Meets(rs[i], start, end))
    ensures Meeting(rs, start, end, n) == if n <= lo then [] else if n <= hi then rs[lo..n] else rs[lo..hi]
    decreases n
  {
    if n == 0 {
    } else {
      MeetingIsSlice(rs, start, end, lo, hi, n - 1);
      LastMeeting(rs, start, end, n);
      assert Meets(rs[n - 1], start, end) <==> lo <= n - 1 < hi;
      if lo < n <= hi {
        assert rs[lo..n - 1] + [rs[n - 1]] == rs[lo..n];
      }
    }
  }

  lemma {:induction false} MeetingHas(rs: seq<Range>, start: real, end: real, n: nat, r: Range)
    requires n <= |rs|
    ensures r in Meeting(rs, start, end, n) <==> Meets(r, start, end) && r in rs[..n]
  {
    if n == 0 {
    } else {
      MeetingHas(rs, start, end, n - 1, r);
      assert rs[..n] == rs[..n - 1] + [rs[n - 1]];
    }
  }

  /** What get_ranges returns. */
  function RangesWindow(rs: seq<Range>, start: real, end: real): seq<Range> {
    var (lo, hi) := RangeBounds(rs, start, end);
    if 0 <= lo && 0 <= hi then Slice(rs, lo, hi) else []
  }

  /** The window is the sequence of the intervals that meet [start, end] just if it has exactly those. */
  lemma WindowIsMeeting(rs: seq<Range>, start: real, end: real)
    requires DisjointRanges(rs) && start <= end
    ensures RangesWindow(rs, start, end) == Meeting(rs, start, end, |rs|) <==> ExactRanges(rs, start, end)
  {
    var (lo, hi) := RangeBounds(rs, start, end);
    WindowOrder(rs, start, end);
    assert 0 <= lo <= hi <= |rs| && RangesWindow(rs, start, end) == rs[lo..hi];
    if ExactRanges(rs, start, end) {
      MeetingIsSlice(rs, start, end, lo, hi, |rs|);
    }
    if rs[lo..hi] == Meeting(rs, start, end, |rs|) {
      forall i | 0 <= i < |rs| ensures lo <= i < hi <==> Meets(rs[i], start, end) {
        MeetingHas(rs, start, end, |rs|, rs[i]);
        assert rs[i] in rs[..|rs|];
        InSlice(rs, lo, hi, i);
      }
    }
  }

  lemma InSlice(rs: seq<Range>, lo: nat, hi: nat, i: nat)
    requires DisjointRanges(rs) && lo <= hi <= |rs| && i < |rs|
    ensures rs[i] in rs[lo..hi] <==> lo <= i < hi
  {
    if lo <= i < hi {
      assert rs[lo..hi][i - lo] == rs[i];
    }
    if rs[i] in rs[lo..hi] {
      var k :| 0 <= k < hi - lo && rs[lo..hi][k] == rs[i];
      assert rs[lo + k] == rs[i];
    }
  }

  // ----- when the window is right, in terms of the intervals alone

  ghost predicate InsideSome(rs: seq<Range>, key: real) {
    exists i :: 0 <= i < |rs| && Contains(rs[i], key)
  }

  /**
   With start inside an interval, end must be inside one too or not before the last one's start; with end only
   inside, nothing may end before start; with neither, no interval may lie between them.
   */
  ghost predicate WindowFits(rs: seq<Range>, start: real, end: real) {
    if InsideSome(rs, start) then InsideSome(rs, end) || rs[|rs| - 1].start <= end
    else if InsideSome(rs, end) then start <= rs[0].end
    else forall i :: 0 <= i < |rs| ==> !(start < rs[i].start && rs[i].end < end)
  }

  /** On disjoint intervals the window is the intervals that meet [start, end] just if that fits. */
  lemma RangeWindowIffFits(rs: seq<Range>, start: real, end: real)
    requires DisjointRanges(rs) && start <= end
    ensures RangesWindow(rs, start, end) == Meeting(rs, start, end, |rs|) <==> WindowFits(rs, start, end)
  {
    FindRangeMeans(rs, start, 0, |rs| - 1);
    FindRangeMeans(rs, end, 0, |rs| - 1);
    RangeWindow(rs, start, end);
    WindowIsMeeting(rs, start, end);
  }

  /** Three ranges: one lies between the ends and is missed; one lies before the start and is returned. */
  lemma RangeWindowFails(rs: seq<Range>)
    requires |rs| == 3 && (forall i :: 0 <= i < 3 ==> rs[i].start == 2.0 * i as real + 1.0 && rs[i].end == 2.0 * i as real + 2.0)
    ensures DisjointRanges(rs)
    ensures RangesWindow(rs, 2.5, 4.5) == [] && Meeting(rs, 2.5, 4.5, 3) == [rs[1]]
    ensures RangesWindow(rs, 2.5, 3.5) == [rs[0], rs[1]] && Meeting(rs, 2.5, 3.5, 3) == [rs[1]]
  {
    OnlyTheMiddle(rs, 2.5, 4.5);
    OnlyTheMiddle(rs, 2.5, 3.5);
    FindRangeMeans(rs, 2.5, 0, 2);
    FindRangeMeans(rs, 4.5, 0, 2);
    FindRangeMeans(rs, 3.5, 0, 2);
    assert Contains(rs[1], 3.5);
    assert rs[0..2] == [rs[0], rs[1]];
  }

  lemma OnlyTheMiddle(rs: seq<Range>, start: real, end: real)
    requires |rs| == 3 && !Meets(rs[0], start, end) && Meets(rs[1], start, end) && !Meets(rs[2], start, end)
    ensures Meeting(rs, start, end, 3) == [rs[1]]
  {
    MeetingIsSlice(rs, start, end, 1, 2, 3);
    assert rs[1..2] == [rs[1]];
  }

  /** The bounds: the ranges with the two ends, as far as there are any; nothing when there is neither. */
  ghost predicate BoundsAt(rs: seq<Range>, start: real, end: real, lo: int, hi: int) {
    && 0 <= lo <= |rs| && 0 <= hi <= |rs|
    && if InsideSome(rs, start) then
        && lo < |rs| && Contains(rs[lo], start)
        && (if InsideSome(rs, end) then hi > 0 && Contains(rs[hi - 1], end) else hi == |rs|)
      else lo == 0 && (if InsideSome(rs, end) then hi > 0 && Contains(rs[hi - 1], end) else hi == 0)
  }

  lemma BoundsAreAt(rs: seq<Range>, start: real, end: real)
    requires SortedRanges(rs)
    ensures var (lo, hi) := RangeBounds(rs, start, end); BoundsAt(rs, start, end, lo, hi)
  {
    FindRangeMeans(rs, start, 0, |rs| - 1);
    FindRangeMeans(rs, end, 0, |rs| - 1);
  }

  /** The first midpoint of the bisection of l..u that falls in a..b-1. */
  function FirstProbe(l: int, u: int, a: int, b: int): (i: int)
    requires 0 <= l <= a < b <= u + 1
    ensures a <= i < b
    decreases u - l + 1
  {
    var i := (l + u) / 2;
    if b <= i then FirstProbe(l, i - 1, a, b)
    else if i < a then FirstProbe(i + 1, u, a, b)
    else i
  }

  /** Which of several touching intervals with the key is found depends on their indices alone. */
  lemma {:induction false} RangeFound(rs: seq<Range>, key: real, l: int, u: int, a: nat, b: nat)
    requires SortedRanges(rs) && 0 <= l <= a < b <= u + 1 <= |rs|
    requires forall i :: 0 <= i < |rs| ==> (a <= i < b <==> Contains(rs[i], key))
    ensures FindRange(rs, key, l, u) == FirstProbe(l, u, a, b)
    decreases u - l + 1
  {
    var i := (l + u) / 2;
    assert Contains(rs[a], key) && Contains(rs[b - 1], key);
    if b <= i {
      assert rs[b - 1].end <= rs[i].start;
      RangeFound(rs, key, l, i - 1, a, b);
    } else if i < a {
      assert rs[i].end <= rs[a].start;
      RangeFound(rs, key, i + 1, u, a, b);
    } else {
      assert Contains(rs[i], key);
    }
  }

  class TimelineDataRange {
    var ranges: seq<Range>

    constructor (ranges: seq<Range>)
      ensures this.ranges == ranges
    {
      this.ranges := ranges;
    }

    /** The index of an interval with the key, or -1; on sorted intervals -1 only if there is none. */
    method Search(key: real) returns (index: int)
      ensures index == RangeAt(ranges, key)
      ensures index == -1 || (0 <= index < |ranges| && Contains(ranges[index], key))
      ensures SortedRanges(ranges) && index == -1 ==> forall j :: 0 <= j < |ranges| ==> !Contains(ranges[j], key)
    {
      RangeAtMeans(ranges, key);
      var l, u := 0, |ranges| - 1;
      while l <= u
        invariant 0 <= l <= u + 1 <= |ranges|
        invariant RangeAt(ranges, key) == FindRange(ranges, key, l, u)
        decreases u - l + 1
      {
        var i := (l + u) / 2;
        if key >= ranges[i].start && key <= ranges[i].end {
          return i;
        } else if key < ranges[i].start {
          u := i - 1;
        } else {
          l := i + 1;
        }
      }
      return -1;
    }

    method GetRangesBounds(start: real, end: real) returns (lo: int, hi: int)
      ensures (lo, hi) == RangeBounds(ranges, start, end)
      ensures SortedRanges(ranges) ==> BoundsAt(ranges, start, end, lo, hi)
    {
      if SortedRanges(ranges) {
        BoundsAreAt(ranges, start, end);
      }
      var s := Search(start);
      var e := Search(end);
      if s == -1 && e == -1 {
        return 0, 0;
      } else if s == -1 {
        return 0, e + 1;
      } else if e == -1 {
        return s, |ranges|;
      } else {
        return s, e + 1;
      }
    }

    /**
     The window of intervals: what the bounds of get_ranges_bounds cut out.  On disjoint intervals it is
     the intervals that meet [start, end] exactly if the window fits.
     */
    method GetRanges(start: real, end: real) returns (window: seq<Range>)
      ensures var (lo, hi) := RangeBounds(ranges, start, end);
        0 <= lo <= |ranges| && 0 <= hi && window == Slice(ranges, lo, hi)
      ensures DisjointRanges(ranges) && start <= end ==>
        (window == Meeting(ranges, start, end, |ranges|) <==> WindowFits(ranges, start, end))
    {
      if DisjointRanges(ranges) && start <= end {
        RangeWindowIffFits(ranges, start, end);
      }
      var s := Search(start);
      var e := Search(end);
      if s == -1 && e == -1 {
        return [];
      } else if s == -1 {
        return Slice(ranges, 0, e + 1);
      } else if e == -1 {
        return Slice(ranges, s, |ranges|);
      } else {
        return Slice(ranges, s, e + 1);
      }
    }
  }

  // ----- events

  /** In ascending order; several events may have the same time. */
  ghost predicate SortedEvents(es: seq<Event>) {
    forall i, j :: 0 <= i < j < |es| ==> es[i].at <= es[j].at
  }

  ghost predicate IncreasingEvents(es: seq<Event>) {
    forall i, j :: 0 <= i < j < |es| ==> es[i].at < es[j].at
  }

  function FindEvent(es: seq<Event>, key: real, l: int, u: int): (i: int)
    requires 0 <= l <= u + 1 <= |es|
    ensures l <= i <= u + 1
    decreases u - l + 1
  {
    if l > u then l
    else
      var i := (l + u) / 2;
      if key == es[i].at then i
      else if key < es[i].at then FindEvent(es, key, l, i - 1)
      else FindEvent(es, key, i + 1, u)
  }

  function EventAt(es: seq<Event>, key: real): (i: int)
    ensures 0 <= i <= |es|
  {
    FindEvent(es, key, 0, |es| - 1)
  }

  /** An event at the key is at index i, or else one would have to be put there. */
  ghost predicate PlaceOf(es: seq<Event>, key: real, i: int) {
    && 0 <= i <= |es|
    && ((i < |es| && es[i].at == key)
        || ((forall j :: 0 <= j < i ==> es[j].at < key) && (forall j :: i <= j < |es| ==> key < es[j].at)))
  }

  /** The search gives an event at the key, or else the place where one would have to be. */
  lemma {:induction false} FindEventMeans(es: seq<Event>, key: real, l: int, u: int)
    requires 0 <= l <= u + 1 <= |es| && SortedEvents(es)
    requires forall j :: 0 <= j < l ==> es[j].at < key
    requires forall j :: u < j < |es| ==> key < es[j].at
    ensures PlaceOf(es, key, FindEvent(es, key, l, u))
    decreases u - l + 1
  {
    if l <= u {
      var i := (l + u) / 2;
      if key < es[i].at {
        FindEventMeans(es, key, l, i - 1);
      } else if key > es[i].at {
        FindEventMeans(es, key, i + 1, u);
      }
    }
  }

  lemma EventWindowEnds(es: seq<Event>, start: real, end: real)
    requires SortedEvents(es) && start <= end
    ensures var s, e := EventAt(es, start), EventAt(es, end);
      && s <= e
      && (forall i :: s <= i < |es| ==> start <= es[i].at)
      && (forall i :: 0 <= i < e && i < |es| ==> es[i].at <= end)
      && (e < |es| ==> end <= es[e].at)
      && (s > 0 ==> es[s - 1].at <= start)
  {
    FindEventMeans(es, start, 0, |es| - 1);
    FindEventMeans(es, end, 0, |es| - 1);
  }

  /** The events of [start, end] are all in the window just if none with the time of an end is cut off. */
  lemma EventWindowComplete(es: seq<Event>, start: real, end: real)
    requires SortedEvents(es) && start <= end
    ensures var s, e := EventAt(es, start), EventAt(es, end);
      (forall i :: 0 <= i < |es| && start <= es[i].at <= end ==> s <= i <= e) <==>
      (s == 0 || es[s - 1].at < start) && (e + 1 >= |es| || end < es[e + 1].at)
  {
    EventWindowEnds(es, start, end);
    var s, e := EventAt(es, start), EventAt(es, end);
    if s > 0 {
      assert forall i :: 0 <= i < s ==> es[i].at <= es[s - 1].at;
    }
    if e + 1 < |es| {
      assert forall i :: e < i < |es| ==> es[e + 1].at <= es[i].at;
    }
  }

  /** At most the last event of the window is later than end, and it is just if no event found is at end. */
  lemma EventWindowExtra(es: seq<Event>, start: real, end: real)
    requires SortedEvents(es) && start <= end
    ensures var s, e := EventAt(es, start), EventAt(es, end);
      && (forall i :: s <= i <= e && i < |es| && !(start <= es[i].at <= end) ==> i == e)
      && ((forall i :: s <= i <= e && i < |es| ==> start <= es[i].at <= end) <==> e == |es| || es[e].at == end)
  {
    EventWindowEnds(es, start, end);
  }

  /** The window has only events of [start, end] just if some event is at end or all are before it. */
  lemma NoExtraIff(es: seq<Event>, start: real, end: real)
    requires SortedEvents(es) && start <= end
    ensures var s, e := EventAt(es, start), EventAt(es, end);
      (forall i :: s <= i <= e && i < |es| ==> start <= es[i].at <= end)
      <==> (exists i :: 0 <= i < |es| && es[i].at == end) || (forall i :: 0 <= i < |es| ==> es[i].at < end)
  {
    EventWindowExtra(es, start, end);
    FindEventMeans(es, end, 0, |es| - 1);
  }

  /** At most one event at each end is enough for none to be cut off. */
  lemma CompleteWithoutTies(es: seq<Event>, start: real, end: real)
    requires SortedEvents(es) && start <= end
    requires forall i, j :: 0 <= i < j < |es| && es[i].at == es[j].at ==> es[i].at != start && es[i].at != end
    ensures var s, e := EventAt(es, start), EventAt(es, end);
      forall i :: 0 <= i < |es| && start <= es[i].at <= end ==> s <= i <= e
  {
    EventWindowComplete(es, start, end);
    EventWindowEnds(es, start, end);
    FindEventMeans(es, start, 0, |es| - 1);
    FindEventMeans(es, end, 0, |es| - 1);
  }

  /** The events at the key are those from index a up to b; none if a == b. */
  ghost predicate At(es: seq<Event>, key: real, a: nat, b: nat) {
    a <= b <= |es| && forall i :: 0 <= i < |es| ==> (a <= i < b <==> es[i].at == key)
  }

  /** Which of several events at the key is found depends on their indices alone. */
  lemma {:induction false} FindsFirstProbe(es: seq<Event>, key: real, l: int, u: int, a: nat, b: nat)
    requires SortedEvents(es) && At(es, key, a, b) && 0 <= l <= a < b <= u + 1 <= |es|
    ensures FindEvent(es, key, l, u) == FirstProbe(l, u, a, b)
    decreases u - l + 1
  {
    var i := (l + u) / 2;
    assert es[a].at == key;
    if b <= i {
      FindsFirstProbe(es, key, l, i - 1, a, b);
    } else if i < a {
      FindsFirstProbe(es, key, i + 1, u, a, b);
    } else {
      assert es[i].at == key;
    }
  }

  /**
   The window has all events of [start, end] exactly when the bisection meets those at start in their first one
   and those at end in their last one, if there are any.
   */
  lemma CompleteIffProbes(es: seq<Event>, start: real, end: real, a: nat, b: nat, c: nat, d: nat)
    requires SortedEvents(es) && start <= end && At(es, start, a, b) && At(es, end, c, d)
    ensures var s, e := EventAt(es, start), EventAt(es, end);
      (forall i :: 0 <= i < |es| && start <= es[i].at <= end ==> s <= i <= e) <==>
      && (a == b || FirstProbe(0, |es| - 1, a, b) == a)
      && (c == d || FirstProbe(0, |es| - 1, c, d) == d - 1)
  {
    EventWindowComplete(es, start, end);
    LowProbe(es, start, a, b);
    HighProbe(es, end, c, d);
  }

  lemma LowProbe(es: seq<Event>, start: real, a: nat, b: nat)
    requires SortedEvents(es) && At(es, start, a, b)
    ensures var s := EventAt(es, start);
      (s == 0 || es[s - 1].at < start) <==> (a == b || FirstProbe(0, |es| - 1, a, b) == a)
  {
    FindEventMeans(es, start, 0, |es| - 1);
    if a < b {
      FindsFirstProbe(es, start, 0, |es| - 1, a, b);
    }
  }

  lemma HighProbe(es: seq<Event>, end: real, c: nat, d: nat)
    requires SortedEvents(es) && At(es, end, c, d)
    ensures var e := EventAt(es, end);
      (e + 1 >= |es| || end < es[e + 1].at) <==> (c == d || FirstProbe(0, |es| - 1, c, d) == d - 1)
  {
    FindEventMeans(es, end, 0, |es| - 1);
    if c < d {
      FindsFirstProbe(es, end, 0, |es| - 1, c, d);
    }
  }

  /** An event behind the window is returned; of three events at one time two are cut off. */
  lemma EventWindowFails(es: seq<Event>, ties: seq<Event>)
    requires |es| == 2 && es[0].at == 1.0 && es[1].at == 3.0
    requires |ties| == 3 && ties[0].at == ties[1].at == ties[2].at == 1.0
    ensures IncreasingEvents(es) && Slice(es, EventAt(es, 1.0), EventAt(es, 2.0) + 1) == [es[0], es[1]]
    ensures SortedEvents(ties) && Slice(ties, EventAt(ties, 1.0), EventAt(ties, 1.0) + 1) == [ties[1]]
  {
    FindEventMeans(es, 1.0, 0, 1);
    FindEventMeans(es, 2.0, 0, 1);
  }

  /** With distinct times the window is the events of [start, end], and the next one if none is at end. */
  lemma IncreasingWindow(es: seq<Event>, start: real, end: real, i: nat)
    requires IncreasingEvents(es) && start <= end && i < |es|
    ensures var s, e := EventAt(es, start), EventAt(es, end);
      s <= i <= e <==> start <= es[i].at <= end || (i == e && start <= es[i].at)
    ensures start <= es[i].at && i == EventAt(es, end) ==> forall j :: 0 <= j < |es| && end < es[j].at ==> i <= j
  {
    EventWindowEnds(es, start, end);
    EventWindowComplete(es, start, end);
    FindEventMeans(es, start, 0, |es| - 1);
    FindEventMeans(es, end, 0, |es| - 1);
  }

  /** Those of the first n events that are in [start, end], in order. */
  function Within(es: seq<Event>, start: real, end: real, n: nat): seq<Event>
    requires n <= |es|
  {
    if n == 0 then []
    else Within(es, start, end, n - 1) + (if start <= es[n - 1].at <= end then [es[n - 1]] else [])
  }

  lemma LastWithin(es: seq<Event>, start: real, end: real, n: nat)
    requires 0 < n <= |es|
    ensures Within(es, start, end, n) ==
      if start <= es[n - 1].at <= end then Within(es, start, end, n - 1) + [es[n - 1]] else Within(es, start, end, n - 1)
  {
    assert Within(es, start, end, n - 1) + [] == Within(es, start, end, n - 1);
  }

  lemma {:induction false} WithinIsSlice(es: seq<Event>, start: real, end: real, lo: nat, hi: nat, n: nat)
    requires lo <= hi <= |es| && n <= |es|
    requires forall i :: 0 <= i < |es| ==> (lo <= i < hi <==> start <= es[i].at <= end)
    ensures Within(es, start, end, n) == if n <= lo then [] else if n <= hi then es[lo..n] else es[lo..hi]
    decreases n
  {
    if n == 0 {
    } else {
      WithinIsSlice(es, start, end, lo, hi, n - 1);
      LastWithin(es, start, end, n);
      assert start <= es[n - 1].at <= end <==> lo <= n - 1 < hi;
      if lo < n <= hi {
        assert es[lo..n - 1] + [es[n - 1]] == es[lo..n];
      }
    }
  }

  /** What the window has behind end: the first event there, unless an event is at end or none follows. */
  function Extra(es: seq<Event>, end: real): seq<Event> {
    var e := EventAt(es, end);
    if e < |es| && es[e].at != end then [es[e]] else []
  }

  /** Where the events of [start, end] are, for distinct times. */
  lemma InsideBounds(es: seq<Event>, start: real, end: real) returns (lo: nat, hi: nat)
    requires IncreasingEvents(es) && start <= end
    ensures lo == EventAt(es, start) && lo <= hi <= |es|
    ensures hi == EventAt(es, end) + (if EventAt(es, end) < |es| && es[EventAt(es, end)].at == end then 1 else 0)
    ensures forall i :: 0 <= i < |es| ==> (lo <= i < hi <==> start <= es[i].at <= end)
  {
    EventWindowEnds(es, start, end);
    var e := EventAt(es, end);
    lo, hi := EventAt(es, start), if e < |es| && es[e].at == end then e + 1 else e;
    forall i | 0 <= i < |es| ensures lo <= i < hi <==> start <= es[i].at <= end {
      IncreasingWindow(es, start, end, i);
    }
  }

  /** With distinct times the window is the events of [start, end], and perhaps the first one behind. */
  lemma WindowIsWithin(es: seq<Event>, start: real, end: real)
    requires IncreasingEvents(es) && start <= end
    ensures Slice(es, EventAt(es, start), EventAt(es, end) + 1) == Within(es, start, end, |es|) + Extra(es, end)
  {
    var lo, hi := InsideBounds(es, start, end);
    WithinIsSlice(es, start, end, lo, hi, |es|);
    assert Within(es, start, end, |es|) == es[lo..hi];
    if hi == EventAt(es, end) < |es| {
      assert es[lo..hi + 1] == es[lo..hi] + [es[hi]];
    } else {
      assert es[lo..hi] + [] == es[lo..hi];
    }
  }

  class TimelineEvent {
    var events: seq<Event>

    constructor (events: seq<Event>)
      ensures this.events == events
    {
      this.events := events;
    }

    /** The index of an event at the key, or else of the first event behind it. */
    method Search(key: real) returns (index: int)
      ensures index == EventAt(events, key) && 0 <= index <= |events|
      ensures SortedEvents(events) ==> PlaceOf(events, key, index)
    {
      if SortedEvents(events) {
        FindEventMeans(events, key, 0, |events| - 1);
      }
      var l, u := 0, |events| - 1;
      while l <= u
        invariant 0 <= l <= u + 1 <= |events|
        invariant EventAt(events, key) == FindEvent(events, key, l, u)
        decreases u - l + 1
      {
        var i := (l + u) / 2;
        if key == events[i].at {
          return i;
        } else if key < events[i].at {
          u := i - 1;
        } else {
          l := i + 1;
        }
      }
      return l;
    }

    /** With distinct times: the events of [start, end], and perhaps the first one behind. */
    method GetEvents(start: real, end: real) returns (window: seq<Event>)
      ensures window == Slice(events, EventAt(events, start), EventAt(events, end) + 1)
      ensures IncreasingEvents(events) && start <= end ==>
        window == Within(events, start, end, |events|) + Extra(events, end)
    {
      if IncreasingEvents(events) && start <= end {
        WindowIsWithin(events, start, end);
      }
      var s := Search(start);
      var e := Search(end);
      window := Slice(events, s, e + 1);
    }

    method GetEventsBounds(start: real, end: real) returns (lo: int, hi: int)
      ensures lo == EventAt(events, start) && hi == EventAt(events, end) + 1
    {
      lo := Search(start);
      var e := Search(end);
      hi := e + 1;
    }
  }
}
