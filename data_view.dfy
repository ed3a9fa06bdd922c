/** The `useEffect` body of `DataView` (src/pages/Location.tsx): the trend of
    the latest reading, the trailing two-week averages per time-of-day band,
    the 25-point hour-of-day pattern and its tick scale. The current time
    `now` and the local-hour function `hourOf` are parameters. */
module DataView {
  import opened Wrappers
  import opened Measurements

  // ---------------------------------------------------------------------
  // Trend of the latest reading (lines 59-66) and its direction symbol
  // (lines 173-177)
  // ---------------------------------------------------------------------

  /** What the trend step did: nothing for empty data; for a single reading
      the source reads `data[-1]` (undefined) and throws, aborting the effect;
      otherwise it wrote `change` on the last reading. */
  datatype TrendOutcome = Skipped | NoPrevious | Updated(last: Measurement)

  /** Writes `last.change = last.mean - secondLast.mean` in place. */
  method ApplyTrend(data: array<Measurement>) returns (outcome: TrendOutcome)
    modifies data
    ensures data.Length == 0 ==> outcome == Skipped
    ensures data.Length == 1 ==> outcome == NoPrevious
    ensures data.Length < 2 ==> data[..] == old(data[..])
    ensures data.Length >= 2 ==>
      var n := data.Length;
      && data[n - 1] == old(data[n - 1]).(change := Some(old(data[n - 1]).mean - old(data[n - 2]).mean))
      && outcome == Updated(data[n - 1])
      && data[..n - 1] == old(data[..n - 1])
  {
    if data.Length > 0 {
      if data.Length < 2 {
        return NoPrevious;
      }
      var last := data[data.Length - 1];
      var secondLast := data[data.Length - 2];
      data[data.Length - 1] := last.(change := Some(last.mean - secondLast.mean));
      outcome := Updated(data[data.Length - 1]);
    } else {
      outcome := Skipped;
    }
  }

  /** The symbol shown before the change: "- " for none, an up triangle for a
      rise, a down triangle otherwise. */
  function ChangeSymbol(change: real): (symbol: string)
    ensures symbol == "- " <==> change == 0.0
    ensures symbol == "\U{25B2} " <==> change > 0.0
    ensures symbol == "\U{25BC} " <==> change < 0.0
  {
    if change == 0.0 then "- " else if change > 0.0 then "\U{25B2} " else "\U{25BC} "
  }

  // ---------------------------------------------------------------------
  // Trailing two-week window (lines 68-74)
  // ---------------------------------------------------------------------

  const MsPerDay: int := 86_400_000

  /** dayjs's `now.diff(t, "day")`: whole days between the instants,
      truncated toward zero. */
  function DayDiff(now: int, t: int): (days: int)
    ensures now - t >= 0 ==> 0 <= days && days * MsPerDay <= now - t < (days + 1) * MsPerDay
    ensures now - t < 0 ==> days <= 0 && (days - 1) * MsPerDay < now - t <= days * MsPerDay
  {
    var d := now - t;
    if d >= 0 then d / MsPerDay else -((-d) / MsPerDay)
  }

  predicate InTrailingWindow(now: int, t: int)
  {
    DayDiff(now, t) <= 14
  }

  /** Because the day count is truncated, the window keeps readings up to just
      under 15 days old, and every reading from the future. */
  lemma TrailingWindowBoundary(now: int, t: int)
    ensures InTrailingWindow(now, t) <==> now - t < 15 * MsPerDay
  {
    var d := now - t;
    if d >= 0 {
      assert d == (d / MsPerDay) * MsPerDay + d % MsPerDay;
    } else {
      assert (-d) / MsPerDay >= 0;
    }
  }

  function InWindowAt(now: int): Measurement -> bool
  {
    (m: Measurement) => InTrailingWindow(now, m.timestamp)
  }

  /** `data.filter(...)` with the window test: the readings of `data` inside
      the window, in data order. */
  function TrailingWindow(data: seq<Measurement>, now: int): (window: seq<Measurement>)
    ensures forall m :: m in window <==> m in data && InTrailingWindow(now, m.timestamp)
  {
    Filter(data, InWindowAt(now))
  }

  // ---------------------------------------------------------------------
  // Time-of-day bands (lines 76-108)
  // ---------------------------------------------------------------------

  const MorningHours: seq<Hour> := [23, 0, 1, 2, 3, 4, 5, 6]
  const DayHours: seq<Hour> := [7, 8, 9, 10, 11, 12, 13, 14, 15, 16, 17, 18]
  const EveningHours: seq<Hour> := [19, 20, 21, 22]

  /** The three bands are pairwise disjoint and cover every hour of the day. */
  lemma BandsPartitionHours()
    ensures forall h: Hour :: h in MorningHours || h in DayHours || h in EveningHours
    ensures forall h: Hour :: !(h in MorningHours && h in DayHours)
    ensures forall h: Hour :: !(h in MorningHours && h in EveningHours)
    ensures forall h: Hour :: !(h in DayHours && h in EveningHours)
  {
  }

  function InBand(hourOf: int -> Hour, band: seq<Hour>): Measurement -> bool
  {
    (m: Measurement) => hourOf(m.timestamp) in band
  }

  /** The readings of `window` whose local hour is in `band`. */
  function BandData(window: seq<Measurement>, hourOf: int -> Hour, band: seq<Hour>): (subset: seq<Measurement>)
    ensures forall m :: m in subset <==> m in window && hourOf(m.timestamp) in band
  {
    Filter(window, InBand(hourOf, band))
  }

  /** `mean` is the average of the means of `subset`: undefined exactly when
      the subset is empty, and otherwise times the subset's size it gives their
      sum. */
  predicate IsMeanOf(mean: Option<real>, subset: seq<Measurement>)
  {
    && (mean.None? <==> |subset| == 0)
    && (mean.Some? ==> mean.value * (|subset| as real) == Total(Values(subset)))
  }

  function MeanOf(subset: seq<Measurement>): (mean: Option<real>)
    ensures IsMeanOf(mean, subset)
  {
    Average(Values(subset))
  }

  datatype BiweeklyMeans = BiweeklyMeans(all: Option<real>, morning: Option<real>, day: Option<real>, evening: Option<real>)

  /** The four two-week means: of the whole window and of its three bands. */
  function ComputeBiweeklyMeans(data: seq<Measurement>, now: int, hourOf: int -> Hour): (means: BiweeklyMeans)
    ensures IsMeanOf(means.all, TrailingWindow(data, now))
    ensures IsMeanOf(means.morning, BandData(TrailingWindow(data, now), hourOf, MorningHours))
    ensures IsMeanOf(means.day, BandData(TrailingWindow(data, now), hourOf, DayHours))
    ensures IsMeanOf(means.evening, BandData(TrailingWindow(data, now), hourOf, EveningHours))
  {
    var window := TrailingWindow(data, now);
    BiweeklyMeans(
      MeanOf(window),
      MeanOf(BandData(window, hourOf, MorningHours)),
      MeanOf(BandData(window, hourOf, DayHours)),
      MeanOf(BandData(window, hourOf, EveningHours)))
  }

  /** The band subsets split the window: their counts and their sums of means
      add up to the window's. */
  lemma BandCountsAndSums(data: seq<Measurement>, now: int, hourOf: int -> Hour)
    ensures var w := TrailingWindow(data, now);
      |BandData(w, hourOf, MorningHours)| + |BandData(w, hourOf, DayHours)| + |BandData(w, hourOf, EveningHours)| == |w|
    ensures var w := TrailingWindow(data, now);
      Total(Values(BandData(w, hourOf, MorningHours))) + Total(Values(BandData(w, hourOf, DayHours)))
        + Total(Values(BandData(w, hourOf, EveningHours))) == Total(Values(w))
  {
    BandsPartitionHours();
    FilterPartition3(TrailingWindow(data, now), InBand(hourOf, MorningHours), InBand(hourOf, DayHours), InBand(hourOf, EveningHours));
  }

  /** What a band contributes to the overall sum: mean times count, or
      nothing when the band is empty. */
  function Weighted(mean: Option<real>, count: nat): real
  {
    if mean.Some? then mean.value * (count as real) else 0.0
  }

  /** A band's contribution is its sum of means. */
  lemma WeightedAverage(xs: seq<real>)
    ensures Weighted(Average(xs), |xs|) == Total(xs)
  {
  }

  /** The overall mean times the window size is the count-weighted sum of the
      three band means. */
  lemma BiweeklyMeansConsistent(data: seq<Measurement>, now: int, hourOf: int -> Hour)
    ensures var w := TrailingWindow(data, now);
      var means := ComputeBiweeklyMeans(data, now, hourOf);
      Weighted(means.all, |w|)
            == Weighted(means.morning, |BandData(w, hourOf, MorningHours)|)
               + Weighted(means.day, |BandData(w, hourOf, DayHours)|)
               + Weighted(means.evening, |BandData(w, hourOf, EveningHours)|)
  {
    var w := TrailingWindow(data, now);
    var means := ComputeBiweeklyMeans(data, now, hourOf);
    var mo := BandData(w, hourOf, MorningHours);
    var da := BandData(w, hourOf, DayHours);
    var ev := BandData(w, hourOf, EveningHours);
    assert means == BiweeklyMeans(Average(Values(w)), Average(Values(mo)), Average(Values(da)), Average(Values(ev)));
    BandCountsAndSums(data, now, hourOf);
    WeightedAverage(Values(mo));
    WeightedAverage(Values(da));
    WeightedAverage(Values(ev));
    WeightedAverage(Values(w));
    assert Weighted(means.all, |w|) == Weighted(means.morning, |mo|) + Weighted(means.day, |da|) + Weighted(means.evening, |ev|);
  }

  /** Readings all inside the window, all in the day band and all equal to `c`:
      the overall and day means are `c`, the morning and evening means are
      undefined. */
  lemma DayOnlyScenario(data: seq<Measurement>, now: int, hourOf: int -> Hour, c: real)
    requires |data| > 0
    requires forall m :: m in data ==> InTrailingWindow(now, m.timestamp) && hourOf(m.timestamp) in DayHours && m.mean == c
    ensures ComputeBiweeklyMeans(data, now, hourOf) == BiweeklyMeans(Some(c), None, Some(c), None)
  {
    FilterKeepsAll(data, InWindowAt(now));
    var w := TrailingWindow(data, now);
    assert w == data;
    FilterKeepsAll(w, InBand(hourOf, DayHours));
    assert BandData(w, hourOf, DayHours) == data;
    BandsPartitionHours();
    NoneInBand(data, hourOf, MorningHours);
    NoneInBand(data, hourOf, EveningHours);
    forall i | 0 <= i < |data| ensures Values(data)[i] == c {
      assert data[i] in data;
    }
    AverageOfConstant(Values(data), c);
  }

  lemma AverageOfConstant(xs: seq<real>, c: real)
    requires |xs| > 0
    requires forall i :: 0 <= i < |xs| ==> xs[i] == c
    ensures Average(xs) == Some(c)
  {
    TotalOfConstant(xs, c);
    var n := |xs| as real;
    assert Total(xs) == c * n;
    assert (c * n) / n == c;
    assert Average(xs) == Some(Total(xs) / n);
  }

  lemma NoneInBand(data: seq<Measurement>, hourOf: int -> Hour, band: seq<Hour>)
    requires forall m :: m in data ==> hourOf(m.timestamp) !in band
    ensures BandData(data, hourOf, band) == []
  {
    FilterDropsAll(data, InBand(hourOf, band));
  }

  // ---------------------------------------------------------------------
  // Hour-of-day pattern (lines 110-128) and its ticks (lines 130-143)
  // ---------------------------------------------------------------------

  function AtHour(hourOf: int -> Hour, h: int): Measurement -> bool
  {
    (m: Measurement) => hourOf(m.timestamp) == h
  }

  /** The means of all readings of `data` (not only the window) at hour `h`,
      in data order. */
  function HourBucket(data: seq<Measurement>, hourOf: int -> Hour, h: int): (bucket: seq<real>)
  {
    Values(Filter(data, AtHour(hourOf, h)))
  }

  datatype Point = Point(hour: int, value: Option<real>)

  /** Builds the 24 buckets with a loop, averages each, and appends the
      hour-24 point that repeats hour 0 so the chart closes. */
  method DailyPatterns(data: seq<Measurement>, hourOf: int -> Hour) returns (patterns: seq<Point>)
    ensures |patterns| == 25
    ensures forall h :: 0 <= h < 24 ==> patterns[h] == Point(h, Average(HourBucket(data, hourOf, h)))
    ensures patterns[24] == Point(24, patterns[0].value)
  {
    var buckets: seq<seq<real>> := [];
    for i := 0 to 24
      invariant |buckets| == i
      invariant forall h :: 0 <= h < i ==> buckets[h] == HourBucket(data, hourOf, h)
    {
      var hourData := Filter(data, AtHour(hourOf, i));
      buckets := buckets + [Values(hourData)];
    }
    patterns := seq(24, h requires 0 <= h < 24 => Point(h, Average(buckets[h])));
    var zeroHour := patterns[0];
    patterns := patterns + [Point(24, zeroHour.value)];
  }

  lemma HourBucketSnoc(data: seq<Measurement>, x: Measurement, hourOf: int -> Hour, h: int)
    ensures HourBucket(data + [x], hourOf, h)
            == HourBucket(data, hourOf, h) + (if hourOf(x.timestamp) == h then [x.mean] else [])
  {
    FilterSnoc(data, x, AtHour(hourOf, h));
    ValuesSnoc(Filter(data, AtHour(hourOf, h)), x);
  }

  /** The readings that fall in buckets 0 .. k-1, as a multiset. */
  function BucketsReadings(data: seq<Measurement>, hourOf: int -> Hour, k: nat): multiset<Measurement>
  {
    if k == 0 then multiset{} else BucketsReadings(data, hourOf, k - 1) + multiset(Filter(data, AtHour(hourOf, k - 1)))
  }

  /** A reading of a later hour does not enter buckets 0 .. k-1. */
  lemma {:induction false} BucketsReadingsSnocLater(data: seq<Measurement>, x: Measurement, hourOf: int -> Hour, k: nat)
    requires k <= hourOf(x.timestamp)
    ensures BucketsReadings(data + [x], hourOf, k) == BucketsReadings(data, hourOf, k)
  {
    if k > 0 {
      BucketsReadingsSnocLater(data, x, hourOf, k - 1);
      FilterSnoc(data, x, AtHour(hourOf, k - 1));
    }
  }

  /** A reading of an hour below k enters buckets 0 .. k-1 exactly once. */
  lemma {:induction false} BucketsReadingsSnoc(data: seq<Measurement>, x: Measurement, hourOf: int -> Hour, k: nat)
    requires hourOf(x.timestamp) < k
    ensures BucketsReadings(data + [x], hourOf, k) == BucketsReadings(data, hourOf, k) + multiset{x}
  {
    var f, f' := Filter(data, AtHour(hourOf, k - 1)), Filter(data + [x], AtHour(hourOf, k - 1));
    FilterSnoc(data, x, AtHour(hourOf, k - 1));
    if hourOf(x.timestamp) == k - 1 {
      BucketsReadingsSnocLater(data, x, hourOf, k - 1);
      assert f' == f + [x];
    } else {
      BucketsReadingsSnoc(data, x, hourOf, k - 1);
      assert f' == f;
    }
  }

  /** The sum of the means in each of the 24 buckets. */
  function BucketTotals(data: seq<Measurement>, hourOf: int -> Hour): (totals: seq<real>)
    ensures |totals| == 24
  {
    seq(24, h requires 0 <= h < 24 => Total(HourBucket(data, hourOf, h)))
  }

  /** Appending a reading adds its mean to the sum of its own hour's bucket
      and leaves the other 23 sums alone. */
  lemma BucketTotalsSnoc(data: seq<Measurement>, x: Measurement, hourOf: int -> Hour)
    ensures var h := hourOf(x.timestamp); var totals := BucketTotals(data, hourOf);
      BucketTotals(data + [x], hourOf) == totals[h := totals[h] + x.mean]
  {
    forall h | 0 <= h < 24
      ensures BucketTotals(data + [x], hourOf)[h] == Total(HourBucket(data, hourOf, h)) + (if hourOf(x.timestamp) == h then x.mean else 0.0)
    {
      HourBucketTotalSnoc(data, x, hourOf, h);
    }
  }

  /** Raising one entry by `v` raises the sum by `v`. */
  lemma {:induction false} TotalBump(xs: seq<real>, i: int, v: real)
    requires 0 <= i < |xs|
    ensures Total(xs[i := xs[i] + v]) == Total(xs) + v
  {
    var n := |xs| - 1;
    if i < n {
      assert xs[i := xs[i] + v][..n] == xs[..n][i := xs[i] + v];
      TotalBump(xs[..n], i, v);
    } else {
      assert xs[i := xs[i] + v][..n] == xs[..n];
    }
  }

  lemma HourBucketTotalSnoc(data: seq<Measurement>, x: Measurement, hourOf: int -> Hour, h: int)
    ensures Total(HourBucket(data + [x], hourOf, h))
            == Total(HourBucket(data, hourOf, h)) + (if hourOf(x.timestamp) == h then x.mean else 0.0)
  {
    HourBucketSnoc(data, x, hourOf, h);
    if hourOf(x.timestamp) == h {
      TotalSnoc(HourBucket(data, hourOf, h), x.mean);
    }
  }

  lemma {:induction false} BucketsOfNothing(data: seq<Measurement>, hourOf: int -> Hour, k: nat)
    requires |data| == 0
    ensures BucketsReadings(data, hourOf, k) == multiset{}
  {
    if k > 0 {
      BucketsOfNothing(data, hourOf, k - 1);
    }
  }

  /** The 24 hourly buckets partition the whole data: taken together they
      hold every reading exactly as often as the data does, and their sums
      add up to the sum of all means. */
  lemma HourlyBucketsPartition(data: seq<Measurement>, hourOf: int -> Hour)
    ensures BucketsReadings(data, hourOf, 24) == multiset(data)
    ensures Total(BucketTotals(data, hourOf)) == Total(Values(data))
  {
    BucketsCoverReadings(data, hourOf);
    BucketsCoverTotal(data, hourOf);
  }

  lemma {:induction false} BucketsCoverReadings(data: seq<Measurement>, hourOf: int -> Hour)
    ensures BucketsReadings(data, hourOf, 24) == multiset(data)
  {
    if |data| == 0 {
      BucketsOfNothing(data, hourOf, 24);
    } else {
      var d' := data[..|data| - 1];
      var x := data[|data| - 1];
      assert data == d' + [x];
      BucketsCoverReadings(d', hourOf);
      BucketsReadingsSnoc(d', x, hourOf, 24);
    }
  }

  lemma {:induction false} BucketsCoverTotal(data: seq<Measurement>, hourOf: int -> Hour)
    ensures Total(BucketTotals(data, hourOf)) == Total(Values(data))
  {
    if |data| == 0 {
      TotalOfConstant(BucketTotals(data, hourOf), 0.0);
    } else {
      var d' := data[..|data| - 1];
      var x := data[|data| - 1];
      assert data == d' + [x];
      BucketsCoverTotal(d', hourOf);
      BucketTotalsSnoc(d', x, hourOf);
      TotalBump(BucketTotals(d', hourOf), hourOf(x.timestamp), x.mean);
      TotalValuesSnoc(d', x);
    }
  }

  /** Bucket `h` holds exactly the means of the readings at local hour `h`. */
  lemma BucketMembers(data: seq<Measurement>, hourOf: int -> Hour, h: int, v: real)
    ensures v in HourBucket(data, hourOf, h)
            <==> exists m :: m in data && hourOf(m.timestamp) == h && m.mean == v
  {
    var f := Filter(data, AtHour(hourOf, h));
    if v in HourBucket(data, hourOf, h) {
      var i :| 0 <= i < |f| && Values(f)[i] == v;
      assert f[i] in f;
    }
    if exists m :: m in data && hourOf(m.timestamp) == h && m.mean == v {
      var m :| m in data && hourOf(m.timestamp) == h && m.mean == v;
      assert m in f;
      var i :| 0 <= i < |f| && f[i] == m;
      assert Values(f)[i] == v;
    }
  }

  datatype TickScale = TickScale(low: real, mid: real, high: real)

  predicate AllDefined(points: seq<Point>)
  {
    forall i :: 0 <= i < |points| ==> points[i].value.Some?
  }

  function PointValues(points: seq<Point>): (xs: seq<real>)
    requires AllDefined(points)
    ensures |xs| == |points|
    ensures forall i :: 0 <= i < |points| ==> xs[i] == points[i].value.value
  {
    seq(|points|, i requires 0 <= i < |points| && AllDefined(points) => points[i].value.value)
  }

  /** `Math.min(...xs)` for a non-empty `xs`. */
  function Lowest(xs: seq<real>): (lo: real)
    requires |xs| > 0
    ensures lo in xs
    ensures forall i :: 0 <= i < |xs| ==> lo <= xs[i]
  {
    if |xs| == 1 then xs[0]
    else
      var rest := Lowest(xs[1..]);
      if xs[0] <= rest then xs[0] else rest
  }

  /** `Math.max(...xs)` for a non-empty `xs`. */
  function Highest(xs: seq<real>): (hi: real)
    requires |xs| > 0
    ensures hi in xs
    ensures forall i :: 0 <= i < |xs| ==> xs[i] <= hi
  {
    if |xs| == 1 then xs[0]
    else
      var rest := Highest(xs[1..]);
      if xs[0] >= rest then xs[0] else rest
  }

  /** `[min, (min + max) / 2, max]` over the pattern values. A NaN value
      makes `Math.min` and `Math.max` NaN, so the ticks exist only when every
      value is defined; then min <= mid <= max and min and max are attained. */
  function Ticks(points: seq<Point>): (r: Option<TickScale>)
    requires |points| > 0
    ensures r.Some? <==> AllDefined(points)
    ensures r.Some? ==> r.value.low <= r.value.mid <= r.value.high
    ensures r.Some? ==> r.value.mid == (r.value.low + r.value.high) / 2.0
    ensures r.Some? ==> forall i :: 0 <= i < |points| ==> r.value.low <= points[i].value.value <= r.value.high
    ensures r.Some? ==> exists i :: 0 <= i < |points| && points[i].value == Some(r.value.low)
    ensures r.Some? ==> exists j :: 0 <= j < |points| && points[j].value == Some(r.value.high)
  {
    if AllDefined(points) then
      var xs := PointValues(points);
      var lo := Lowest(xs);
      var hi := Highest(xs);
      Some(TickScale(lo, (lo + hi) / 2.0, hi))
    else
      None
  }

  /** Some reading of `data` falls in local hour `h`. */
  predicate HasReadingAt(data: seq<Measurement>, hourOf: int -> Hour, h: Hour)
  {
    exists m :: m in data && hourOf(m.timestamp) == h
  }

  lemma HourBucketEmptyIff(data: seq<Measurement>, hourOf: int -> Hour, h: Hour)
    ensures |HourBucket(data, hourOf, h)| == 0 <==> !HasReadingAt(data, hourOf, h)
  {
    var f := Filter(data, AtHour(hourOf, h));
    if HasReadingAt(data, hourOf, h) {
      var m :| m in data && hourOf(m.timestamp) == h;
      assert m in f;
    } else {
      FilterDropsAll(data, AtHour(hourOf, h));
    }
  }

  /** The tick scale exists exactly when every hour of the day has at least
      one reading. */
  lemma TicksDefinedIff(data: seq<Measurement>, hourOf: int -> Hour, patterns: seq<Point>)
    requires |patterns| == 25
    requires forall h :: 0 <= h < 24 ==> patterns[h] == Point(h, Average(HourBucket(data, hourOf, h)))
    requires patterns[24] == Point(24, patterns[0].value)
    ensures Ticks(patterns).Some? <==> forall h: Hour :: HasReadingAt(data, hourOf, h)
  {
    if Ticks(patterns).Some? {
      forall h: Hour ensures HasReadingAt(data, hourOf, h) {
        assert patterns[h].value.Some?;
        HourBucketEmptyIff(data, hourOf, h);
      }
    } else {
      var i :| 0 <= i < 25 && patterns[i].value.None?;
      var h: Hour := if i == 24 then 0 else i;
      assert patterns[h].value.None?;
      HourBucketEmptyIff(data, hourOf, h);
    }
  }

  /** The trend write changes only `change`, which no aggregate reads: the
      window means and every hourly bucket are the same before and after it. */
  lemma TrendWriteKeepsAggregates(s: seq<Measurement>, t: seq<Measurement>, now: int, hourOf: int -> Hour)
    requires SameReadings(s, t)
    ensures ComputeBiweeklyMeans(s, now, hourOf) == ComputeBiweeklyMeans(t, now, hourOf)
    ensures forall h :: HourBucket(s, hourOf, h) == HourBucket(t, hourOf, h)
  {
    FilterSameReadings(s, t, InWindowAt(now));
    var ws, wt := TrailingWindow(s, now), TrailingWindow(t, now);
    FilterSameReadings(ws, wt, InBand(hourOf, MorningHours));
    FilterSameReadings(ws, wt, InBand(hourOf, DayHours));
    FilterSameReadings(ws, wt, InBand(hourOf, EveningHours));
    forall h ensures HourBucket(s, hourOf, h) == HourBucket(t, hourOf, h) {
      FilterSameReadings(s, t, AtHour(hourOf, h));
    }
  }

  // ---------------------------------------------------------------------
  // The whole effect
  // ---------------------------------------------------------------------

  /** What one run of the effect writes into the view's state.
      `lastMeasurement` is `None` when it was not written by this run (no
      readings); the view then keeps whatever it held before. */
  datatype EffectOutcome =
    | Aborted
    | Completed(lastMeasurement: Option<Measurement>, means: BiweeklyMeans, patterns: seq<Point>, ticks: Option<TickScale>)

  /** Runs the effect on `data`: the trend write, then the window means, the
      pattern and the ticks. A single reading aborts it before anything else
      is computed. */
  method RunEffect(data: array<Measurement>, now: int, hourOf: int -> Hour) returns (outcome: EffectOutcome)
    modifies data
    ensures data.Length == 1 <==> outcome == Aborted
    ensures data.Length < 2 ==> data[..] == old(data[..])
    ensures data.Length >= 2 ==>
      var n := data.Length;
      && data[n - 1] == old(data[n - 1]).(change := Some(old(data[n - 1]).mean - old(data[n - 2]).mean))
      && data[..n - 1] == old(data[..n - 1])
    ensures outcome.Completed? ==>
      && (data.Length == 0 <==> outcome.lastMeasurement.None?)
      && (data.Length > 0 ==> outcome.lastMeasurement == Some(data[data.Length - 1]))
      && outcome.means == ComputeBiweeklyMeans(old(data[..]), now, hourOf)
      && |outcome.patterns| == 25
      && (forall h :: 0 <= h < 24 ==> outcome.patterns[h] == Point(h, Average(HourBucket(old(data[..]), hourOf, h))))
      && outcome.patterns[24] == Point(24, outcome.patterns[0].value)
      && outcome.ticks == Ticks(outcome.patterns)
  {
    ghost var before := data[..];
    var trend := ApplyTrend(data);
    if trend == NoPrevious {
      return Aborted;
    }
    assert SameReadings(data[..], before) by {
      if data.Length >= 2 {
        assert forall i :: 0 <= i < data.Length - 1 ==> data[..data.Length - 1][i] == data[i];
      }
    }
    TrendWriteKeepsAggregates(data[..], before, now, hourOf);
    var lastMeasurement := if trend.Updated? then Some(trend.last) else None;
    var means := ComputeBiweeklyMeans(data[..], now, hourOf);
    var patterns := DailyPatterns(data[..], hourOf);
    outcome := Completed(lastMeasurement, means, patterns, Ticks(patterns));
  }
}
