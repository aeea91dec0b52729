/** The time covered by intervals that may overlap (src/evidence/reconstructor.ts, unionDuration). */
module Intervals {
  import opened Prelude
  import opened Ordering

  /** From `start` up to, but without, `end`. */
  datatype Interval = Interval(start: int, end: int)

  predicate Within(start: int, t: int, end: int) {
    start <= t < end
  }

  function Range(start: int, end: int): set<int> {
    set t | start <= t < end && Within(start, t, end)
  }

  /** The milliseconds that lie in at least one interval. */
  ghost function Covered(intervals: seq<Interval>): set<int> {
    set i, t | 0 <= i < |intervals| && t in Range(intervals[i].start, intervals[i].end) :: t
  }

  lemma {:induction false} RangeSize(start: int, end: int)
    requires start <= end
    ensures |Range(start, end)| == end - start
    decreases end - start
  {
    if start < end {
      RangeSize(start, end - 1);
      assert Range(start, end) == Range(start, end - 1) + {end - 1};
    } else {
      assert Range(start, end) == {};
    }
  }

  predicate StartsEarlier(a: Interval, b: Interval) {
    a.start < b.start || (a.start == b.start && a.end < b.end)
  }

  function ByStart(): (Interval, Interval) -> bool {
    (a, b) => StartsEarlier(a, b)
  }

  ghost predicate StartsAscend(s: seq<Interval>) {
    forall i, j :: 0 <= i < j < |s| ==> s[i].start <= s[j].start
  }

  lemma {:induction false} InsertByStart(x: Interval, s: seq<Interval>)
    requires StartsAscend(s)
    ensures StartsAscend(Insert(x, s, ByStart()))
  {
    if s != [] && !ByStart()(x, s[0]) {
      assert StartsAscend(s[1..]);
      InsertByStart(x, s[1..]);
      var r := Insert(x, s[1..], ByStart());
      forall k | 0 <= k < |r| ensures s[0].start <= r[k].start {
        assert r[k] in multiset(r);
        assert r[k] == x || r[k] in s[1..];
      }
      assert Insert(x, s, ByStart()) == [s[0]] + r;
    }
  }

  lemma {:induction false} SortByStart(s: seq<Interval>)
    ensures StartsAscend(Sort(s, ByStart()))
  {
    if s != [] {
      SortByStart(s[1..]);
      InsertByStart(s[0], Sort(s[1..], ByStart()));
    }
  }

  lemma SameElementsCoverTheSame(s: seq<Interval>, r: seq<Interval>)
    requires multiset(s) == multiset(r)
    ensures Covered(s) == Covered(r)
  {
    forall t ensures t in Covered(s) <==> t in Covered(r) {
      if i :| 0 <= i < |s| && t in Range(s[i].start, s[i].end) {
        assert s[i] in multiset(s);
        var j :| 0 <= j < |r| && r[j] == s[i];
      }
      if j :| 0 <= j < |r| && t in Range(r[j].start, r[j].end) {
        assert r[j] in multiset(r);
        var i :| 0 <= i < |s| && s[i] == r[j];
      }
    }
  }

  lemma CoveredGrows(s: seq<Interval>, n: nat)
    requires n < |s|
    ensures Covered(s[..n + 1]) == Covered(s[..n]) + Range(s[n].start, s[n].end)
  {
    assert forall i :: 0 <= i < n ==> s[..n + 1][i] == s[..n][i];
    forall t ensures t in Covered(s[..n + 1]) <==> t in Covered(s[..n]) + Range(s[n].start, s[n].end) {
      if t in Range(s[n].start, s[n].end) {
        assert s[..n + 1][n] == s[n];
      }
      if i :| 0 <= i < n && t in Range(s[i].start, s[i].end) {
        assert s[..n + 1][i] == s[i] && s[..n][i] == s[i];
      }
    }
  }

  /** No interval ends before it starts. */
  ghost predicate RunForward(intervals: seq<Interval>) {
    forall i :: 0 <= i < |intervals| ==> intervals[i].start <= intervals[i].end
  }

  /**
   * The sweep so far: what is closed lies before the current interval, and the rest starts no earlier than that one.
   */
  ghost predicate Swept(ordered: seq<Interval>, n: nat, closed: set<int>, current: Interval)
    requires n <= |ordered|
  {
    && current.start <= current.end
    && (forall j :: n <= j < |ordered| ==> current.start <= ordered[j].start)
    && Covered(ordered[..n]) == closed + Range(current.start, current.end)
    && (forall t :: t in closed ==> t < current.start)
  }

  function Later(a: int, b: int): int {
    if a < b then b else a
  }

  lemma SweepStep(ordered: seq<Interval>, n: nat, closed: set<int>, current: Interval)
    requires StartsAscend(ordered) && n < |ordered| && ordered[n].start <= ordered[n].end
             && Swept(ordered, n, closed, current)
    ensures ordered[n].start > current.end ==>
              && Swept(ordered, n + 1, closed + Range(current.start, current.end), ordered[n])
              && |closed + Range(current.start, current.end)| == |closed| + (current.end - current.start)
    ensures ordered[n].start <= current.end ==>
              Swept(ordered, n + 1, closed, Interval(current.start, Later(current.end, ordered[n].end)))
  {
    hide Covered, Range;
    CoveredGrows(ordered, n);
    Closes(closed, current);
    if ordered[n].start <= current.end {
      Merges(current, ordered[n]);
      assert (closed + Range(current.start, current.end)) + Range(ordered[n].start, ordered[n].end)
          == closed + (Range(current.start, current.end) + Range(ordered[n].start, ordered[n].end));
    }
  }

  /** What lies before an interval and the interval do not overlap. */
  lemma Closes(closed: set<int>, current: Interval)
    requires current.start <= current.end && forall t :: t in closed ==> t < current.start
    ensures |closed + Range(current.start, current.end)| == |closed| + (current.end - current.start)
    ensures forall t :: t in closed + Range(current.start, current.end) ==> t < current.end
  {
    RangeSize(current.start, current.end);
    assert closed !! Range(current.start, current.end);
  }

  lemma Merges(a: Interval, b: Interval)
    requires a.start <= b.start <= a.end && b.start <= b.end
    ensures Range(a.start, a.end) + Range(b.start, b.end) == Range(a.start, Later(a.end, b.end))
  {
    forall t ensures t in Range(a.start, a.end) + Range(b.start, b.end) <==> t in Range(a.start, Later(a.end, b.end)) {
      assert Within(a.start, t, a.end) || Within(b.start, t, b.end) <==> Within(a.start, t, Later(a.end, b.end));
    }
  }

  /** The sweep over the intervals in the order of their starts measures exactly what they cover. */
  method UnionDuration(intervals: seq<Interval>) returns (total: nat)
    requires RunForward(intervals)
    ensures total == |Covered(intervals)|
  {
    hide Covered, Swept, StartsAscend, Range;
    var ordered := Sort(intervals, ByStart());
    SortByStart(intervals);
    SameElementsCoverTheSame(intervals, ordered);
    assert forall i :: 0 <= i < |ordered| ==> ordered[i] in multiset(ordered);
    total := 0;
    var current: Option<Interval> := None;
    ghost var closed: set<int> := {};
    for i := 0 to |ordered|
      invariant current.None? ==> i == 0
      invariant current.Some? ==> Swept(ordered, i, closed, current.value)
      invariant total == |closed| && (current.None? ==> closed == {})
    {
      var next := ordered[i];
      if current.None? {
        current := Some(next);
        SweepBegins(ordered);
      } else {
        SweepStep(ordered, i, closed, current.value);
        if next.start > current.value.end {
          closed := closed + Range(current.value.start, current.value.end);
          total := total + (current.value.end - current.value.start);
          current := Some(next);
        } else {
          current := Some(Interval(current.value.start, Later(current.value.end, next.end)));
        }
      }
    }
    SweepEnds(ordered, closed, current);
    if current.Some? {
      total := total + (current.value.end - current.value.start);
    }
  }

  lemma SweepBegins(ordered: seq<Interval>)
    requires StartsAscend(ordered) && ordered != [] && ordered[0].start <= ordered[0].end
    ensures Swept(ordered, 1, {}, ordered[0])
  {
    CoveredGrows(ordered, 0);
    assert Covered(ordered[..0]) == {};
  }

  lemma SweepEnds(ordered: seq<Interval>, closed: set<int>, current: Option<Interval>)
    requires if current.Some? then Swept(ordered, |ordered|, closed, current.value) else closed == {} && ordered == []
    ensures |Covered(ordered)| == |closed| + if current.Some? then current.value.end - current.value.start else 0
    ensures current.Some? ==> current.value.start <= current.value.end
  {
    assert ordered[..|ordered|] == ordered;
    if current.Some? {
      Closes(closed, current.value);
    }
  }

  /** Intervals within a span cover no more than the span. */
  lemma CoveredFits(intervals: seq<Interval>, start: int, end: int)
    requires start <= end
    requires forall i :: 0 <= i < |intervals| ==> start <= intervals[i].start && intervals[i].end <= end
    ensures |Covered(intervals)| <= end - start
  {
    RangeSize(start, end);
    SubsetSize(Covered(intervals), Range(start, end));
  }
}
