/** The series handlers that touch the forecasting core: importing points into a
    series (replace or append) and running a forecast (feature flag, parameter
    clamping, train/holdout split, method dispatch, holdout evaluation pairs). */
module SeriesEndpoints {
  import opened Common
  import opened Data
  import opened ForecastEngine
  import opened FeatureFlags

  // ------------------------------------------------------------------ import

  /** The rows a list of imported points becomes in series `id`. */
  function Rows(id: Guid, points: seq<ForecastPoint>): (r: seq<SeriesPoint>)
    ensures |r| == |points|
    ensures forall i :: 0 <= i < |r| ==>
              r[i].seriesId == id && r[i].timestamp == points[i].timestamp && r[i].value == points[i].value
  {
    seq(|points|, i requires 0 <= i < |points| => SeriesPoint(id, points[i].timestamp, points[i].value))
  }

  function InSeries(id: Guid): SeriesPoint -> bool {
    (p: SeriesPoint) => p.seriesId == id
  }

  function OutsideSeries(id: Guid): SeriesPoint -> bool {
    (p: SeriesPoint) => p.seriesId != id
  }

  /** The rows of series `id`, in table order (`Where(p => p.SeriesId == id)`). */
  function PointsOf(rows: seq<SeriesPoint>, id: Guid): (r: seq<SeriesPoint>)
    ensures Elems(r) == set p | p in rows && p.seriesId == id
  {
    Filter(rows, InSeries(id))
  }

  datatype ImportResult =
    | SeriesNotFound
    | NotAForm
    | NoFile
    | Imported(count: nat, mode: string)

  /** ImportPoints. The request is reduced to what the handler inspects: whether it is
      a form, the points parsed from its first file (None when there is no file), and
      the raw `mode` query value ("" when absent). The mode is lower-cased but not
      trimmed; only exactly "replace" removes the series' points first; a blank mode
      is reported as "append". */
  method ImportPoints(db: AppDb, id: Guid, isForm: bool, file: Option<seq<ForecastPoint>>, modeQuery: string)
    returns (result: ImportResult)
    modifies db`seriesPoints
    ensures id !in db.series ==> result == SeriesNotFound
    ensures id in db.series && !isForm ==> result == NotAForm
    ensures id in db.series && isForm && file.None? ==> result == NoFile
    ensures !result.Imported? ==> db.seriesPoints == old(db.seriesPoints)
    ensures result.Imported? ==>
              var mode := ToLowerInvariant(modeQuery);
              id in db.series && isForm && file.Some?
              && result == Imported(|file.value|, if IsBlank(mode) then "append" else mode)
              && db.seriesPoints
                 == (if mode == "replace" then Filter(old(db.seriesPoints), OutsideSeries(id))
                     else old(db.seriesPoints)) + Rows(id, file.value)
  {
    if id !in db.series {
      return SeriesNotFound;
    }
    if !isForm {
      return NotAForm;
    }
    if file.None? {
      return NoFile;
    }
    var points := file.value;
    var mode := ToLowerInvariant(modeQuery);
    if mode == "replace" {
      db.seriesPoints := Filter(db.seriesPoints, OutsideSeries(id));
    }
    ghost var base := db.seriesPoints;
    for i := 0 to |points|
      invariant db.seriesPoints == base + Rows(id, points[..i])
    {
      assert Rows(id, points[..i + 1]) == Rows(id, points[..i]) + [SeriesPoint(id, points[i].timestamp, points[i].value)];
      db.seriesPoints := db.seriesPoints + [SeriesPoint(id, points[i].timestamp, points[i].value)];
    }
    assert points[..|points|] == points;
    result := Imported(|points|, if IsBlank(mode) then "append" else mode);
  }

  /** After a replace, the series holds exactly the imported points, in file order. */
  lemma ReplaceLeavesOnlyImported(rows: seq<SeriesPoint>, id: Guid, points: seq<ForecastPoint>)
    ensures PointsOf(Filter(rows, OutsideSeries(id)) + Rows(id, points), id) == Rows(id, points)
  {
    var kept := Filter(rows, OutsideSeries(id));
    FilterConcat(kept, Rows(id, points), InSeries(id));
    forall i | 0 <= i < |kept|
      ensures !InSeries(id)(kept[i])
    {
      assert kept[i] in Elems(kept);
      assert OutsideSeries(id)(kept[i]);
    }
    FilterKeepsNone(kept, InSeries(id));
    FilterKeepsAll(Rows(id, points), InSeries(id));
  }

  /** An append keeps the series' existing points and adds the imported ones after them. */
  lemma AppendKeepsExisting(rows: seq<SeriesPoint>, id: Guid, points: seq<ForecastPoint>)
    ensures PointsOf(rows + Rows(id, points), id) == PointsOf(rows, id) + Rows(id, points)
  {
    FilterConcat(rows, Rows(id, points), InSeries(id));
    FilterKeepsAll(Rows(id, points), InSeries(id));
  }

  /** Removing one series' points leaves every other series' points as they were. */
  lemma {:induction false} RemovalKeepsOtherSeries(rows: seq<SeriesPoint>, id: Guid, other: Guid)
    requires other != id
    ensures PointsOf(Filter(rows, OutsideSeries(id)), other) == PointsOf(rows, other)
    decreases |rows|
  {
    if rows != [] {
      RemovalKeepsOtherSeries(rows[1..], id, other);
    }
  }

  /** An import, in either mode, leaves the points of every other series unchanged. */
  lemma ImportKeepsOtherSeries(rows: seq<SeriesPoint>, id: Guid, other: Guid, points: seq<ForecastPoint>,
                               replace: bool)
    requires other != id
    ensures var base := if replace then Filter(rows, OutsideSeries(id)) else rows;
            PointsOf(base + Rows(id, points), other) == PointsOf(rows, other)
  {
    var base := if replace then Filter(rows, OutsideSeries(id)) else rows;
    FilterConcat(base, Rows(id, points), InSeries(other));
    FilterKeepsNone(Rows(id, points), InSeries(other));
    if replace {
      RemovalKeepsOtherSeries(rows, id, other);
    }
  }

  // ---------------------------------------------------------------- forecast

  const ForecastFlag: string := "series.forecast"
  const MinHistory: int := 3
  const MaxHorizon: int := 3650
  const DefaultSeasonLength: int := 7

  /** The request body; `alpha` only feeds the floating-point smoothing and is not kept. */
  datatype ForecastDto = ForecastDto(methodName: string, horizon: int, holdout: int, seasonLength: Option<int>)

  /** The stored method name: "ets" and "exp" (after trimming and lower-casing) select
      exponential smoothing and are kept as given; anything else runs the seasonal-naive
      forecast and is recorded as "seasonalnaive". */
  function MethodName(requested: string): (r: string)
    ensures r == "ets" || r == "exp" || r == "seasonalnaive"
    ensures r != "seasonalnaive" <==> Normalize(requested) == "ets" || Normalize(requested) == "exp"
    ensures r != "seasonalnaive" ==> r == Normalize(requested)
  {
    var m := Normalize(requested);
    if m == "ets" || m == "exp" then m else "seasonalnaive"
  }

  /** The holdout actually used: at most 3650 and always leaving one training point. */
  function Holdout(count: int, requested: int): (r: int)
    requires count >= MinHistory
    ensures 0 <= r <= MaxHorizon && r < count
    ensures 0 <= requested <= Min(MaxHorizon, count - 1) ==> r == requested
    ensures requested < 0 ==> r == 0
    ensures requested > Min(MaxHorizon, count - 1) ==> r == Min(MaxHorizon, count - 1)
  {
    Clamp(requested, 0, Min(MaxHorizon, count - 1))
  }

  function Values(s: seq<ForecastPoint>): (r: seq<real>)
    ensures |r| == |s| && forall i :: 0 <= i < |s| ==> r[i] == s[i].value
  {
    seq(|s|, i requires 0 <= i < |s| => s[i].value)
  }

  /** The training points (all but the last `holdout`) and the actual values of the
      held-out points. */
  function Split(history: seq<ForecastPoint>, holdout: int): (r: (seq<ForecastPoint>, seq<real>))
    requires 0 <= holdout < |history|
    ensures |r.0| >= 1 && |r.0| + |r.1| == |history|
    ensures |r.1| == holdout
  {
    if holdout > 0 then (history[..|history| - holdout], Values(history[|history| - holdout..]))
    else (history, [])
  }

  /** The training points are a prefix of the history and the actual values are the
      values of the rest: together they are the whole history. */
  lemma SplitPartitions(history: seq<ForecastPoint>, holdout: int)
    requires 0 <= holdout < |history|
    ensures var r := Split(history, holdout);
            history == r.0 + history[|r.0|..] && Values(history) == Values(r.0) + r.1
  {
    var r := Split(history, holdout);
    assert history == r.0 + history[|r.0|..];
    assert Values(history) == Values(r.0) + r.1;
  }

  /** The lists handed to Evaluate: the first `holdout` forecast values and as many
      actual values as there are predictions. */
  function HoldoutPairs(forecast: seq<ForecastPoint>, actual: seq<real>, holdout: int)
    : (r: (seq<real>, seq<real>))
    requires 0 <= holdout && |actual| == holdout
    ensures |r.0| == |r.1| == Min(holdout, |forecast|)
    ensures forall i :: 0 <= i < |r.0| ==> r.0[i] == forecast[i].value && r.1[i] == actual[i]
  {
    var predicted := Values(forecast[..Min(holdout, |forecast|)]);
    (predicted, actual[..Min(|actual|, |predicted|)])
  }

  /** The history a forecast reads: the rows of series `id`, ordered by timestamp (the
      order of equal timestamps is the database's). */
  predicate IsHistoryOf(rows: seq<SeriesPoint>, id: Guid, history: seq<ForecastPoint>) {
    multiset(Rows(id, history)) == multiset(PointsOf(rows, id))
    && forall i, j :: 0 <= i < j < |history| ==> history[i].timestamp <= history[j].timestamp
  }

  /** Runs the selected method on the training points. */
  method RunMethod(train: seq<ForecastPoint>, horizon: int, methodName: string, seasonLength: Option<int>,
                   level: real)
    returns (forecast: seq<ForecastPoint>)
    requires train != [] && horizon >= 1
    ensures |forecast| == horizon
    ensures forall k :: 0 <= k < horizon ==>
              forecast[k].timestamp == StepTime(train[|train| - 1].timestamp, InferredStep(train), k)
    ensures methodName != "seasonalnaive" ==> forall k :: 0 <= k < horizon ==> forecast[k].value == level
    ensures methodName == "seasonalnaive" ==>
              var season := Max(1, if seasonLength.Some? then seasonLength.value else DefaultSeasonLength);
              forall k :: 0 <= k < horizon ==> forecast[k] == SeasonalPoint(train, season, InferredStep(train), k)
  {
    var r;
    if methodName != "seasonalnaive" {
      r := ExponentialSmoothing(train, horizon, level);
    } else {
      r := SeasonalNaive(train, horizon, if seasonLength.Some? then seasonLength.value else DefaultSeasonLength);
    }
    forecast := r.value;
  }

  datatype ForecastResult =
    | Forbidden
    | NotEnoughData
    | Ran(run: ForecastRun, predicted: seq<real>, actual: seq<real>)

  /** The part of Forecast after the two guards: clamp, split, dispatch, forecast on
      the training points, pair the holdout for evaluation, and record the run under a
      fresh id. */
  method RecordRun(db: AppDb, id: Guid, history: seq<ForecastPoint>, dto: ForecastDto, level: real)
    returns (result: ForecastResult)
    requires db.Valid() && |history| >= MinHistory
    modifies db`forecastRuns, db`nextId
    ensures db.Valid() && result.Ran?
    ensures var run, horizon, holdout := result.run, Clamp(dto.horizon, 1, MaxHorizon), Holdout(|history|, dto.holdout);
            var train := Split(history, holdout).0;
            db.forecastRuns == old(db.forecastRuns) + [run] && run.id == old(db.nextId)
            && run.seriesId == id && run.methodName == MethodName(dto.methodName)
            && run.horizon == horizon && run.holdout == holdout
            && |run.forecast| == horizon
            && (forall k :: 0 <= k < horizon ==>
                  run.forecast[k].timestamp == StepTime(train[|train| - 1].timestamp, InferredStep(train), k))
            && (run.methodName != "seasonalnaive" ==> forall k :: 0 <= k < horizon ==> run.forecast[k].value == level)
            && (run.methodName == "seasonalnaive" ==>
                  var season := Max(1, if dto.seasonLength.Some? then dto.seasonLength.value else DefaultSeasonLength);
                  forall k :: 0 <= k < horizon ==> run.forecast[k] == SeasonalPoint(train, season, InferredStep(train), k))
            && (result.predicted, result.actual) == HoldoutPairs(run.forecast, Split(history, holdout).1, holdout)
            && |result.predicted| == |result.actual| == Min(holdout, horizon)
  {
    var horizon := Clamp(dto.horizon, 1, MaxHorizon);
    var holdout := Holdout(|history|, dto.holdout);
    var split := Split(history, holdout);
    var methodName := MethodName(dto.methodName);
    var forecast := RunMethod(split.0, horizon, methodName, dto.seasonLength, level);
    var pairs := HoldoutPairs(forecast, split.1, holdout);
    var runId := db.NewGuid();
    var run := ForecastRun(runId, id, methodName, horizon, holdout, forecast);
    db.forecastRuns := db.forecastRuns + [run];
    result := Ran(run, pairs.0, pairs.1);
  }

  /** Forecast. `history` is what the ordered query returns, `level` the result of the
      floating-point smoothing recursion; the flag is read through the cache. Without
      the flag: 403; with fewer than three points: 400; otherwise RecordRun. */
  method Forecast(db: AppDb, flags: FeatureFlagsService, id: Guid, history: seq<ForecastPoint>,
                  dto: ForecastDto, level: real, now: int)
    returns (result: ForecastResult)
    requires db.Valid() && IsHistoryOf(db.seriesPoints, id, history)
    modifies db`forecastRuns, db`nextId, flags`cache
    ensures db.Valid()
    ensures result == Forbidden <==> !Lookup(old(flags.cache), flags.db.featureFlags, ForecastFlag, now)
    ensures result == NotEnoughData <==>
              Lookup(old(flags.cache), flags.db.featureFlags, ForecastFlag, now) && |history| < MinHistory
    ensures !result.Ran? ==> db.forecastRuns == old(db.forecastRuns) && db.nextId == old(db.nextId)
    ensures result.Ran? ==>
              var run := result.run;
              db.forecastRuns == old(db.forecastRuns) + [run] && run.id == old(db.nextId)
              && run.seriesId == id && run.methodName == MethodName(dto.methodName)
              && run.horizon == Clamp(dto.horizon, 1, MaxHorizon)
              && run.holdout == Holdout(|history|, dto.holdout)
              && |result.predicted| == |result.actual| == Min(run.holdout, run.horizon)
  {
    var enabled := flags.IsEnabled(ForecastFlag, now);
    if !enabled {
      return Forbidden;
    }
    if |history| < MinHistory {
      return NotEnoughData;
    }
    result := RecordRun(db, id, history, dto, level);
  }
}
