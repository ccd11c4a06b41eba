/**
 * The numbers behind the daily price forecast message: the cheapest and the
 * most expensive contiguous window of a forecast vector, the wall-clock hours
 * those windows start and end at, and the monthly savings estimate.
 * Prices are reals; the message text itself is not modelled.
 */
module Formatter {
  import opened Wrappers

  /** Width of the recommended usage window, in hours. */
  const WindowHours: nat := 3
  /** Hours on the clock face the start and end hours are reduced to. */
  const HoursPerDay: nat := 24

  function Sum(s: seq<real>): real
  {
    if s == [] then 0.0 else s[0] + Sum(s[1..])
  }

  /** Sum of the `width` prices starting at index `i`. */
  function WindowSum(values: seq<real>, i: nat, width: nat): real
    requires i + width <= |values|
  {
    Sum(values[i..i + width])
  }

  /** `total` is a strict improvement on `best`: smaller when minimizing, larger when maximizing. */
  predicate Beats(minimize: bool, total: real, best: real)
  {
    if minimize then total < best else total > best
  }

  /**
   * The loop's improvement test against the running best total. `None` is the
   * initial sentinel (+infinity when minimizing, -infinity when maximizing),
   * which every finite total beats.
   */
  predicate Improves(minimize: bool, total: real, best: Option<real>)
  {
    match best
    case None => true
    case Some(b) => Beats(minimize, total, b)
  }

  /** Number of window starts the scan visits: `len(values) - window + 1`, or none. */
  function WindowCount(n: nat, width: nat): nat
  {
    if width <= n then n - width + 1 else 0
  }

  /**
   * `k` starts a width-`width` window whose sum no other window beats, and
   * every window starting before `k` is strictly worse (first-best tie-break).
   */
  ghost predicate IsFirstBest(values: seq<real>, width: nat, minimize: bool, k: nat)
  {
    && k + width <= |values|
    && (forall j :: 0 <= j && j + width <= |values| ==>
          !Beats(minimize, WindowSum(values, j, width), WindowSum(values, k, width)))
    && (forall j :: 0 <= j < k ==>
          Beats(minimize, WindowSum(values, k, width), WindowSum(values, j, width)))
  }

  /** `best` is the first-best start among the starts below `i`. */
  ghost predicate IsFirstBestBelow(values: seq<real>, width: nat, minimize: bool, best: nat, i: nat)
    requires best < i && i + width <= |values| + 1
  {
    && (forall j :: 0 <= j < i ==>
          !Beats(minimize, WindowSum(values, j, width), WindowSum(values, best, width)))
    && (forall j :: 0 <= j < best ==>
          Beats(minimize, WindowSum(values, best, width), WindowSum(values, j, width)))
  }

  /**
   * Reference scan without the infinite sentinel: the candidate is seeded with
   * window 0 and starts `i`, `i + 1`, ... replace it only on strict improvement.
   */
  function Scan(values: seq<real>, width: nat, minimize: bool, i: nat, best: nat): (r: nat)
    requires width <= |values| && best < i <= |values| - width + 1
    ensures r + width <= |values|
    decreases |values| - width + 1 - i
  {
    if i == |values| - width + 1 then best
    else
      var next := if Beats(minimize, WindowSum(values, i, width), WindowSum(values, best, width)) then i else best;
      Scan(values, width, minimize, i + 1, next)
  }

  /** The start index `_find_best_window` returns: 0 when no window fits. */
  function BestWindow(values: seq<real>, width: nat, minimize: bool): (r: nat)
    ensures |values| < width ==> r == 0
    ensures width <= |values| ==> r + width <= |values|
  {
    if |values| < width then 0 else Scan(values, width, minimize, 1, 0)
  }

  lemma {:induction false} ScanIsFirstBest(values: seq<real>, width: nat, minimize: bool, i: nat, best: nat)
    requires width <= |values| && best < i <= |values| - width + 1
    requires IsFirstBestBelow(values, width, minimize, best, i)
    ensures IsFirstBest(values, width, minimize, Scan(values, width, minimize, i, best))
    decreases |values| - width + 1 - i
  {
    if i < |values| - width + 1 {
      var next := if Beats(minimize, WindowSum(values, i, width), WindowSum(values, best, width)) then i else best;
      ScanIsFirstBest(values, width, minimize, i + 1, next);
    }
  }

  /** When a window fits, the scan's answer is the first optimal window. */
  lemma BestWindowIsFirstBest(values: seq<real>, width: nat, minimize: bool)
    requires width <= |values|
    ensures IsFirstBest(values, width, minimize, BestWindow(values, width, minimize))
  {
    ScanIsFirstBest(values, width, minimize, 1, 0);
  }

  /** Optimality plus the first-best tie-break pin the window down uniquely. */
  lemma FirstBestIsUnique(values: seq<real>, width: nat, minimize: bool, k1: nat, k2: nat)
    requires IsFirstBest(values, width, minimize, k1) && IsFirstBest(values, width, minimize, k2)
    ensures k1 == k2
  {
    var w1, w2 := WindowSum(values, k1, width), WindowSum(values, k2, width);
    assert k1 < k2 ==> Beats(minimize, w2, w1);
    assert k2 < k1 ==> Beats(minimize, w1, w2);
  }

  /**
   * `_find_best_window`: slide a width-`width` window over `values` and return
   * the start of the window with the smallest (or largest) sum.
   */
  method FindBestWindow(values: seq<real>, width: nat, minimize: bool) returns (bestIdx: nat)
    ensures |values| < width ==> bestIdx == 0
    ensures width <= |values| ==> IsFirstBest(values, width, minimize, bestIdx)
    ensures bestIdx == BestWindow(values, width, minimize)
  {
    bestIdx := 0;
    var bestTotal: Option<real> := None;
    var i := 0;
    while i < |values| - width + 1
      invariant 0 <= i <= WindowCount(|values|, width)
      invariant i == 0 ==> bestIdx == 0 && bestTotal == None
      invariant i > 0 ==> width <= |values| && bestIdx < i
      invariant i > 0 ==> bestTotal == Some(WindowSum(values, bestIdx, width))
      invariant i > 0 ==> Scan(values, width, minimize, i, bestIdx) == Scan(values, width, minimize, 1, 0)
    {
      var total := Sum(values[i..i + width]);
      if Improves(minimize, total, bestTotal) {
        bestTotal := Some(total);
        bestIdx := i;
      }
      i := i + 1;
    }
    if width <= |values| {
      BestWindowIsFirstBest(values, width, minimize);
    }
  }

  function Min(s: seq<real>): (m: real)
    requires |s| > 0
    ensures m in s
    ensures forall k :: 0 <= k < |s| ==> m <= s[k]
  {
    if |s| == 1 then s[0]
    else
      var rest := Min(s[1..]);
      if s[0] <= rest then s[0] else rest
  }

  function Max(s: seq<real>): (m: real)
    requires |s| > 0
    ensures m in s
    ensures forall k :: 0 <= k < |s| ==> s[k] <= m
  {
    if |s| == 1 then s[0]
    else
      var rest := Max(s[1..]);
      if s[0] >= rest then s[0] else rest
  }

  /** The figures `format_price_forecast` renders into its message. */
  datatype Forecast = Forecast(
    minPrice: real,
    maxPrice: real,
    avgPrice: real,
    cheapStart: int,
    cheapEnd: int,
    peakStart: int,
    peakEnd: int,
    monthlySavings: real)

  /** numpy's `min` on an empty forecast raises. */
  datatype ForecastError = EmptyForecast

  /** A window start index as a clock hour, `(start_hour + idx) % 24`. */
  function ClockHour(startHour: int, offset: int): (h: int)
    ensures 0 <= h < HoursPerDay
  {
    (startHour + offset) % HoursPerDay
  }

  /** Mean of a non-empty forecast. */
  function Mean(s: seq<real>): real
    requires |s| > 0
  {
    Sum(s) / (|s| as real)
  }

  /** The figures of a non-empty forecast whose first hour is `startHour`. */
  function ForecastOf(predictions: seq<real>, startHour: int): (r: Forecast)
    requires |predictions| > 0
    ensures 0 <= r.cheapStart < HoursPerDay && 0 <= r.cheapEnd < HoursPerDay
    ensures 0 <= r.peakStart < HoursPerDay && 0 <= r.peakEnd < HoursPerDay
    ensures r.minPrice <= r.maxPrice
  {
    var minPrice := Min(predictions);
    var maxPrice := Max(predictions);
    var cheapStart := ClockHour(startHour, BestWindow(predictions, WindowHours, true));
    var peakStart := ClockHour(startHour, BestWindow(predictions, WindowHours, false));
    // a 3-hour load shifted from the peak price to the cheapest price, daily for 30 days
    Forecast(minPrice, maxPrice, Mean(predictions),
             cheapStart, ClockHour(cheapStart, WindowHours),
             peakStart, ClockHour(peakStart, WindowHours),
             (maxPrice - minPrice) * 3.0 * 30.0)
  }

  /**
   * `format_price_forecast`: extreme and mean prices, the cheapest and the peak
   * 3-hour window as clock hours relative to `startHour`, and the savings estimate.
   */
  method FormatPriceForecast(predictions: seq<real>, startHour: int) returns (r: Result<Forecast, ForecastError>)
    ensures r.Failure? <==> predictions == []
    ensures r.Success? ==> r.value == ForecastOf(predictions, startHour)
  {
    if predictions == [] {
      return Failure(EmptyForecast);
    }
    var minPrice := Min(predictions);
    var maxPrice := Max(predictions);
    var avgPrice := Mean(predictions);

    var cheapIdx := FindBestWindow(predictions, WindowHours, true);
    var cheapStart := ClockHour(startHour, cheapIdx);
    var cheapEnd := ClockHour(cheapStart, WindowHours);

    var peakIdx := FindBestWindow(predictions, WindowHours, false);
    var peakStart := ClockHour(startHour, peakIdx);
    var peakEnd := ClockHour(peakStart, WindowHours);

    var monthlySavings := (maxPrice - minPrice) * 3.0 * 30.0;
    r := Success(Forecast(minPrice, maxPrice, avgPrice, cheapStart, cheapEnd, peakStart, peakEnd, monthlySavings));
  }

  /** The reported minimum and maximum are forecast prices and bound every price. */
  lemma ForecastPriceRange(predictions: seq<real>, startHour: int)
    requires |predictions| > 0
    ensures var f := ForecastOf(predictions, startHour);
      && f.minPrice in predictions && f.maxPrice in predictions
      && forall k :: 0 <= k < |predictions| ==> f.minPrice <= predictions[k] <= f.maxPrice
  {
  }

  /** `avg` is the mean of `s`: it times the number of prices is their total. */
  predicate IsMeanOf(avg: real, s: seq<real>)
  {
    avg * (|s| as real) == Sum(s)
  }

  lemma MeanIsMean(s: seq<real>)
    requires |s| > 0
    ensures IsMeanOf(Mean(s), s)
  {
    var n, t := |s| as real, Sum(s);
    assert Mean(s) == t / n;
    assert (t / n) * n == t;
  }

  /** The reported average is the mean forecast price. */
  lemma ForecastAverage(predictions: seq<real>, startHour: int)
    requires |predictions| > 0
    ensures IsMeanOf(ForecastOf(predictions, startHour).avgPrice, predictions)
  {
    MeanIsMean(predictions);
  }

  /**
   * The cheap (peak) window starts at the clock hour of the first window with
   * the least (greatest) 3-hour total, and ends 3 hours later on the clock;
   * a forecast shorter than 3 hours reports the start hour itself.
   */
  lemma ForecastWindows(predictions: seq<real>, startHour: int)
    requires |predictions| > 0
    ensures var f := ForecastOf(predictions, startHour);
      && (|predictions| < WindowHours ==> f.cheapStart == f.peakStart == startHour % HoursPerDay)
      && (WindowHours <= |predictions| ==>
            exists c: nat, p: nat ::
              && IsFirstBest(predictions, WindowHours, true, c)
              && IsFirstBest(predictions, WindowHours, false, p)
              && f.cheapStart == (startHour + c) % HoursPerDay
              && f.peakStart == (startHour + p) % HoursPerDay)
      && f.cheapEnd == (f.cheapStart + WindowHours) % HoursPerDay
      && f.peakEnd == (f.peakStart + WindowHours) % HoursPerDay
      && 0 <= f.cheapStart < HoursPerDay && 0 <= f.cheapEnd < HoursPerDay
      && 0 <= f.peakStart < HoursPerDay && 0 <= f.peakEnd < HoursPerDay
  {
    if WindowHours <= |predictions| {
      var c := BestWindow(predictions, WindowHours, true);
      var p := BestWindow(predictions, WindowHours, false);
      BestWindowIsFirstBest(predictions, WindowHours, true);
      BestWindowIsFirstBest(predictions, WindowHours, false);
      assert IsFirstBest(predictions, WindowHours, true, c) && IsFirstBest(predictions, WindowHours, false, p);
    }
  }

  /** The savings estimate is never negative. */
  lemma ForecastSavingsNonNegative(predictions: seq<real>, startHour: int)
    requires |predictions| > 0
    ensures ForecastOf(predictions, startHour).monthlySavings >= 0.0
  {
    var f := ForecastOf(predictions, startHour);
    assert f.minPrice <= predictions[0] <= f.maxPrice;
  }

  lemma {:induction false} SumBounds(s: seq<real>, lo: real, hi: real)
    requires forall k :: 0 <= k < |s| ==> lo <= s[k] <= hi
    ensures (|s| as real) * lo <= Sum(s) <= (|s| as real) * hi
  {
    if s != [] {
      SumBounds(s[1..], lo, hi);
      assert (|s| as real) * lo == (|s[1..]| as real) * lo + lo;
      assert (|s| as real) * hi == (|s[1..]| as real) * hi + hi;
    }
  }

  lemma ScaleByWidth(n: real, x: real)
    requires n == 3.0
    ensures n * x == 3.0 * x
  {
  }

  /** Every 3-hour window total lies between three times the cheapest and three times the dearest hour. */
  lemma WindowSumBounds(p: seq<real>, i: nat)
    requires i + WindowHours <= |p|
    ensures 3.0 * Min(p) <= WindowSum(p, i, WindowHours) <= 3.0 * Max(p)
  {
    var lo, hi := Min(p), Max(p);
    var w := p[i..i + WindowHours];
    assert forall k :: 0 <= k < |w| ==> lo <= w[k] <= hi by {
      forall k | 0 <= k < |w| ensures lo <= w[k] <= hi { assert w[k] == p[i + k]; }
    }
    SumBounds(w, lo, hi);
    ScaleByWidth(|w| as real, hi);
    ScaleByWidth(|w| as real, lo);
  }

  lemma GapOfBoundedTotals(a: real, b: real, lo: real, hi: real)
    requires a <= 3.0 * hi && 3.0 * lo <= b
    ensures (a - b) * 30.0 <= (hi - lo) * 3.0 * 30.0
  {
  }

  /**
   * The savings figure uses the single-hour extremes, so it is never below the
   * monthly gap between any two 3-hour windows, in particular between the peak
   * and the cheapest window.
   */
  lemma SavingsCoverWindowGap(p: seq<real>, i: nat, j: nat)
    requires i + WindowHours <= |p| && j + WindowHours <= |p|
    ensures (WindowSum(p, i, WindowHours) - WindowSum(p, j, WindowHours)) * 30.0 <= (Max(p) - Min(p)) * 3.0 * 30.0
  {
    WindowSumBounds(p, i);
    WindowSumBounds(p, j);
    GapOfBoundedTotals(WindowSum(p, i, WindowHours), WindowSum(p, j, WindowHours), Min(p), Max(p));
  }
}
