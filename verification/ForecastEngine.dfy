/** The integer side of the forecasting engine: the step between forecast points (the
    median gap of the history) and the seasonal-naive forecast, whose values are
    copied from the last season of the history. Timestamps are ticks (100 ns);
    values are only copied. */
module ForecastEngine {
  import opened Common

  datatype ForecastPoint = ForecastPoint(timestamp: int, value: real)

  /** TimeSpan.FromDays(1), in ticks. */
  const TicksPerDay: int := 864_000_000_000

  // ------------------------------------------------------------------ sorting

  predicate Sorted(s: seq<int>) {
    forall p, q :: 0 <= p < q < |s| ==> s[p] <= s[q]
  }

  /** Inserts x before the first element not smaller than it. */
  function Insert(x: int, s: seq<int>): (r: seq<int>)
    ensures |r| == |s| + 1
    ensures multiset(r) == multiset(s) + multiset{x}
  {
    if s == [] then [x]
    else if x <= s[0] then [x] + s
    else
      assert s == [s[0]] + s[1..];
      [s[0]] + Insert(x, s[1..])
  }

  /** Inserting into an ascending list keeps it ascending; the head is x or the old head. */
  lemma {:induction false} InsertSorted(x: int, s: seq<int>)
    requires Sorted(s)
    ensures Sorted(Insert(x, s))
    ensures s != [] ==> Insert(x, s)[0] == x || Insert(x, s)[0] == s[0]
    decreases |s|
  {
    if s != [] && x > s[0] {
      var rest := Insert(x, s[1..]);
      assert Sorted(s[1..]);
      InsertSorted(x, s[1..]);
      assert s[0] <= rest[0];
      assert forall q :: 0 <= q < |rest| ==> s[0] <= rest[q];
    }
  }

  /** The reference sort: the same values in ascending order. */
  function SortSeq(s: seq<int>): (r: seq<int>)
    ensures Sorted(r) && multiset(r) == multiset(s)
  {
    if s == [] then []
    else
      assert s == [s[0]] + s[1..];
      var rest := SortSeq(s[1..]);
      InsertSorted(s[0], rest);
      Insert(s[0], rest)
  }

  /** Two ascending lists with the same values are the same list; so any correct
      sort agrees with SortSeq. */
  lemma {:induction false} SortedPermutationUnique(a: seq<int>, b: seq<int>)
    requires Sorted(a) && Sorted(b) && multiset(a) == multiset(b)
    ensures a == b
    decreases |a|
  {
    assert |a| == |multiset(a)| == |multiset(b)| == |b|;
    if a != [] {
      SmallestFirst(a, b);
      SmallestFirst(b, a);
      DropFirst(a);
      DropFirst(b);
      SortedPermutationUnique(a[1..], b[1..]);
      assert a == [a[0]] + a[1..] && b == [b[0]] + b[1..];
    }
  }

  /** The head of an ascending list is at most every value of a list with the same values. */
  lemma SmallestFirst(a: seq<int>, b: seq<int>)
    requires Sorted(a) && a != [] && b != [] && multiset(a) == multiset(b)
    ensures a[0] <= b[0]
  {
    assert b[0] in multiset(a);
    var j :| 0 <= j < |a| && a[j] == b[0];
    assert a[0] <= a[j];
  }

  /** Dropping the head keeps a list ascending and removes one copy of the head's value. */
  lemma DropFirst(a: seq<int>)
    requires a != []
    ensures Sorted(a) ==> Sorted(a[1..])
    ensures multiset(a[1..]) == multiset(a) - multiset{a[0]}
  {
    assert a == [a[0]] + a[1..];
    assert multiset(a) == multiset{a[0]} + multiset(a[1..]);
  }

  /** a[..i + 1] is ascending when position j is ignored. */
  predicate SortedExcept(s: seq<int>, i: int, j: int)
    requires i < |s|
  {
    forall p, q :: 0 <= p < q <= i && p != j && q != j ==> s[p] <= s[q]
  }

  /** The value at j is at most every value after it, up to i. */
  predicate BelowRest(s: seq<int>, i: int, j: int)
    requires 0 <= j <= i < |s|
  {
    forall q :: j < q <= i ==> s[j] <= s[q]
  }

  /** Swapping the moving value with its larger left neighbour keeps both facts, one
      position further left, and the values. */
  lemma SwapStep(s: seq<int>, i: int, j: int)
    requires 0 < j <= i < |s| && SortedExcept(s, i, j) && BelowRest(s, i, j) && s[j - 1] > s[j]
    ensures var t := s[j - 1 := s[j]][j := s[j - 1]];
            SortedExcept(t, i, j - 1) && BelowRest(t, i, j - 1) && multiset(t) == multiset(s)
  {
    var t := s[j - 1 := s[j]][j := s[j - 1]];
    forall p, q | 0 <= p < q <= i && p != j - 1 && q != j - 1
      ensures t[p] <= t[q]
    {
      if p == j {
        assert t[p] == s[j - 1] && t[q] == s[q];
      } else if q == j {
        assert t[p] == s[p] && t[q] == s[j - 1];
      } else {
        assert t[p] == s[p] && t[q] == s[q];
      }
    }
  }

  /** Once the moving value is not smaller than its left neighbour, a[..i + 1] is ascending. */
  lemma SettledSorted(s: seq<int>, i: int, j: int)
    requires 0 <= j <= i < |s| && SortedExcept(s, i, j) && BelowRest(s, i, j)
    requires j == 0 || s[j - 1] <= s[j]
    ensures Sorted(s[..i + 1])
  {
    forall p, q | 0 <= p < q <= i
      ensures s[p] <= s[q]
    {
      if q == j && p < j - 1 {
        assert s[p] <= s[j - 1];
      }
    }
  }

  /** One insertion step: a[i] moves left past the larger elements of the sorted
      prefix a[..i], so that a[..i + 1] is sorted. */
  method InsertAt(a: array<int>, i: int)
    requires 0 <= i < a.Length && Sorted(a[..i])
    modifies a
    ensures Sorted(a[..i + 1]) && multiset(a[..]) == multiset(old(a[..]))
  {
    var j := i;
    while j > 0 && a[j - 1] > a[j]
      invariant 0 <= j <= i
      invariant multiset(a[..]) == multiset(old(a[..]))
      invariant SortedExcept(a[..], i, j) && BelowRest(a[..], i, j)
    {
      SwapStep(a[..], i, j);
      a[j - 1], a[j] := a[j], a[j - 1];
      j := j - 1;
    }
    SettledSorted(a[..], i, j);
  }

  /** List.Sort on the gaps: an insertion sort, in place. */
  method SortInPlace(a: array<int>)
    modifies a
    ensures Sorted(a[..]) && multiset(a[..]) == multiset(old(a[..]))
  {
    for i := 0 to a.Length
      invariant Sorted(a[..i])
      invariant multiset(a[..]) == multiset(old(a[..]))
    {
      InsertAt(a, i);
    }
    assert a[..a.Length] == a[..];
  }

  /** x % m is the remainder of any division of x by m. */
  lemma ModUnique(x: int, m: int, q: int, r: int)
    requires m >= 1 && 0 <= r < m && x == q * m + r
    ensures x % m == r
  {
    var d := q - x / m;
    assert d * m == x % m - r;
    SmallMultipleIsZero(d, m);
  }

  /** The only multiple of m strictly between -m and m is 0. */
  lemma SmallMultipleIsZero(d: int, m: int)
    requires m >= 1 && -m < d * m < m
    ensures d == 0
  {
  }

  // -------------------------------------------------------------------- step

  /** The gaps between consecutive timestamps. */
  function Gaps(history: seq<ForecastPoint>): (r: seq<int>)
    ensures |history| >= 1 ==> |r| == |history| - 1
  {
    if |history| < 2 then []
    else seq(|history| - 1, i requires 0 <= i < |history| - 1 => history[i + 1].timestamp - history[i].timestamp)
  }

  /** The step InferStep promises: one day for fewer than two points, otherwise the
      gap at position count / 2 of the sorted gaps (the upper median), replaced by one
      day when it is not positive. */
  function InferredStep(history: seq<ForecastPoint>): (step: int)
    ensures step > 0
  {
    if |history| < 2 then TicksPerDay
    else
      var sorted := SortSeq(Gaps(history));
      assert |sorted| == |history| - 1 by { assert |multiset(sorted)| == |multiset(Gaps(history))|; }
      var median := sorted[|sorted| / 2];
      if median <= 0 then TicksPerDay else median
  }

  /** InferStep: the gaps go into a list, which is sorted in place; the middle one
      is the step. */
  method InferStep(history: seq<ForecastPoint>) returns (step: int)
    ensures step == InferredStep(history)
  {
    if |history| < 2 {
      return TicksPerDay;
    }
    var gaps := new int[|history| - 1];
    for i := 1 to |history|
      invariant gaps[..i - 1] == Gaps(history)[..i - 1]
    {
      gaps[i - 1] := history[i].timestamp - history[i - 1].timestamp;
      assert gaps[..i] == gaps[..i - 1] + [gaps[i - 1]];
    }
    assert gaps[..] == Gaps(history) by { assert gaps[..|history| - 1] == gaps[..]; }
    SortInPlace(gaps);
    SortedPermutationUnique(gaps[..], SortSeq(Gaps(history)));
    var median := gaps[gaps.Length / 2];
    step := if median <= 0 then TicksPerDay else median;
  }

  /** A regularly spaced history has its spacing as step. */
  lemma RegularHistoryStep(history: seq<ForecastPoint>, d: int)
    requires |history| >= 2 && d > 0
    requires forall i :: 0 <= i < |history| - 1 ==> history[i + 1].timestamp - history[i].timestamp == d
    ensures InferredStep(history) == d
  {
    var gaps := Gaps(history);
    var constant := seq(|gaps|, _ => d);
    assert gaps == constant;
    SortedPermutationUnique(SortSeq(gaps), constant);
  }

  /** The step is one of the gaps, unless it is the one-day fallback. */
  lemma StepIsAGap(history: seq<ForecastPoint>)
    ensures InferredStep(history) == TicksPerDay || InferredStep(history) in Gaps(history)
  {
    if |history| >= 2 {
      var sorted := SortSeq(Gaps(history));
      assert |sorted| == |history| - 1 by { assert |multiset(sorted)| == |multiset(Gaps(history))|; }
      assert sorted[|sorted| / 2] in multiset(sorted);
    }
  }

  // ---------------------------------------------------------- seasonal naive

  /** Where the value of forecast point h (from 1) comes from: the same phase of the
      last season of the history, clamped into the history. */
  function SeasonIndex(count: int, season: int, h: int): (idx: int)
    requires count >= 1 && season >= 1 && h >= 1
    ensures 0 <= idx < count
  {
    Clamp(count - season + (h - 1) % season, 0, count - 1)
  }

  /** The time of forecast point k (from 0): k + 1 steps after `start`. */
  function StepTime(start: int, step: int, k: int): (r: int)
    ensures k >= 0 && step > 0 ==> start < r
    ensures r - step == start + k * step
  {
    start + (k + 1) * step
  }

  /** `start.Add(step * h)` is the time of point h - 1. */
  lemma StepTimeOfH(start: int, step: int, h: int)
    ensures start + step * h == StepTime(start, step, h - 1)
  {
  }

  /** Forecast point k (from 0) of the seasonal-naive forecast: k + 1 steps after the
      last observation, with the value found at SeasonIndex. */
  function SeasonalPoint(history: seq<ForecastPoint>, season: int, step: int, k: int): (r: ForecastPoint)
    requires history != [] && season >= 1 && k >= 0
    ensures step > 0 ==> r.timestamp > history[|history| - 1].timestamp
    ensures exists j :: 0 <= j < |history| && r.value == history[j].value
  {
    ForecastPoint(StepTime(history[|history| - 1].timestamp, step, k),
                  history[SeasonIndex(|history|, season, k + 1)].value)
  }

  /** The point the loop appends at step h is SeasonalPoint h - 1. */
  lemma SeasonalStep(history: seq<ForecastPoint>, season: int, step: int, h: int, idx: int)
    requires history != [] && season >= 1 && h >= 1
    requires idx == Clamp(|history| - season + (h - 1) % season, 0, |history| - 1)
    ensures ForecastPoint(history[|history| - 1].timestamp + step * h, history[idx].value)
            == SeasonalPoint(history, season, step, h - 1)
  {
    StepTimeOfH(history[|history| - 1].timestamp, step, h);
  }

  /** SeasonalNaive: None when the method throws, for an empty history or a negative
      horizon (the capacity of the result list); otherwise `horizon` points, point k
      being SeasonalPoint k for the inferred step. A season length below 1 counts as 1. */
  method SeasonalNaive(history: seq<ForecastPoint>, horizon: int, seasonLength: int)
    returns (result: Option<seq<ForecastPoint>>)
    ensures result.None? <==> history == [] || horizon < 0
    ensures result.Some? ==>
              |result.value| == horizon
              && forall k :: 0 <= k < |result.value| ==>
                   result.value[k] == SeasonalPoint(history, Max(1, seasonLength), InferredStep(history), k)
  {
    if history == [] || horizon < 0 {
      return None;
    }
    var season := Max(1, seasonLength);
    var step := InferStep(history);
    var start := history[|history| - 1].timestamp;
    var points: seq<ForecastPoint> := [];
    var h := 1;
    while h <= horizon
      invariant 1 <= h && |points| == h - 1
      invariant h <= horizon + 1
      invariant forall k :: 0 <= k < |points| ==> points[k] == SeasonalPoint(history, season, step, k)
    {
      var idx := |history| - season + (h - 1) % season;
      idx := Clamp(idx, 0, |history| - 1);
      SeasonalStep(history, season, step, h, idx);
      points := points + [ForecastPoint(start + step * h, history[idx].value)];
      h := h + 1;
    }
    return Some(points);
  }

  /** ExponentialSmoothing, its integer side: None when the method throws, for an empty
      history or a negative horizon; otherwise `horizon` points on the same time grid as
      SeasonalNaive, each carrying the smoothed level. The level itself is a
      floating-point recursion over the history values and is a parameter here. */
  method ExponentialSmoothing(history: seq<ForecastPoint>, horizon: int, level: real)
    returns (result: Option<seq<ForecastPoint>>)
    ensures result.None? <==> history == [] || horizon < 0
    ensures result.Some? ==>
              var last := history[|history| - 1].timestamp;
              |result.value| == horizon
              && forall k :: 0 <= k < |result.value| ==>
                   result.value[k] == ForecastPoint(StepTime(last, InferredStep(history), k), level)
  {
    if history == [] || horizon < 0 {
      return None;
    }
    var step := InferStep(history);
    var start := history[|history| - 1].timestamp;
    var points: seq<ForecastPoint> := [];
    var h := 1;
    while h <= horizon
      invariant 1 <= h && |points| == h - 1
      invariant h <= horizon + 1
      invariant forall k :: 0 <= k < |points| ==> points[k] == ForecastPoint(StepTime(start, step, k), level)
    {
      StepTimeOfH(start, step, h);
      points := points + [ForecastPoint(start + step * h, level)];
      h := h + 1;
    }
    return Some(points);
  }

  /** Forecast times lie after the last observation and strictly increase, one step
      apart. */
  lemma ForecastTimesIncrease(history: seq<ForecastPoint>, k: int)
    requires history != [] && k >= 0
    ensures var last, step := history[|history| - 1].timestamp, InferredStep(history);
            last < StepTime(last, step, k) < StepTime(last, step, k + 1)
            && StepTime(last, step, k + 1) - StepTime(last, step, k) == step
  {
    var step := InferredStep(history);
    assert (k + 1) * step == k * step + step;
    assert (k + 2) * step == (k + 1) * step + step;
    assert k * step >= 0;
  }

  /** When the season fits in the history, forecast values repeat with the season's
      period. */
  lemma SeasonalRepeat(count: int, season: int, h: int)
    requires count >= 1 && 1 <= season <= count && h >= 1
    ensures SeasonIndex(count, season, h + season) == SeasonIndex(count, season, h)
    ensures SeasonIndex(count, season, h) == count - season + (h - 1) % season
  {
    var x := h - 1;
    ModUnique(x, season, x / season, x % season);
    ModUnique(x + season, season, x / season + 1, x % season);
  }

  /** With the season longer than the history, the early points repeat the first
      value of the history. */
  lemma LongSeasonStartsAtFirstPoint(count: int, season: int, h: int)
    requires count >= 1 && season >= count && 1 <= h <= season - count + 1
    ensures SeasonIndex(count, season, h) == 0
  {
    ModUnique(h - 1, season, 0, h - 1);
  }
}
