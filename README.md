# Noise dashboard aggregation, modelled in Dafny

This project models the client-side logic of a noise-monitoring dashboard.
The dashboard fetches a location's hourly noise readings page by page. It
derives a trend for the latest reading, two-week averages per time-of-day
band, a 25-point hour-of-day pattern and a three-value tick scale for that
pattern. On the overview map it fits the view to the bounding box of all
locations.

- `wrappers.dfy` (`Wrappers`): `Option`. `None` stands for a value JavaScript
  computes as NaN, such as an average over nothing.
- `measurements.dfy` (`Measurements`): the `Measurement` record
  (`timestamp` in milliseconds, `mean`, and the `change` field the view
  writes). It also holds the `filter` / `map` / `reduce` steps the view
  chains: `Filter`, `Values`, `Total` and `Average`.
- `fetch.dfy` (`Fetch`): the `getLocationNoiseData` loop. The backend is a
  page oracle `pages: seq<seq<Measurement>>`, where `pages[k]` is the answer
  for page `k`. The method returns the measurements and the list of page
  indices it requested.
- `data_view.dfy` (`DataView`): the `DataView` effect. `ApplyTrend` writes
  `change` on the last element of the `data` array in place. `DailyPatterns`
  builds the hourly buckets with a loop. The band means and the ticks are
  pure functions. `RunEffect` runs the whole effect in source order. The
  current time `now` and the local-hour function `hourOf: int -> Hour` are
  parameters.
- `map_bounds.dfy` (`MapBounds`): the bounds `reduce` of `ChangeView` as a
  left fold over `Extended` reals (`NegInf | Finite | PosInf`), plus the
  corners given to `fitBounds`.

Two behaviours of the code are easy to misread:

- **Single reading.** The trend step guards only `data.length > 0`. With one
  reading it reads `data[-1]`, which is `undefined`, and then `.mean` of it
  throws. The effect then stops before any average is computed.
  `ApplyTrend` returns `NoPrevious` and `RunEffect` returns `Aborted`; the
  data is unchanged.
- **Window edge.** The two-week window keeps a reading when dayjs's
  whole-day difference, truncated toward zero, is at most 14. So it keeps
  readings up to just under 15 days old, and every reading with a future
  timestamp. `TrailingWindowBoundary` proves the exact edge.

## Model

| member | source | states |
|---|---|---|
| `Measurements.Filter` | src/pages/Location.tsx:80-88 | the result holds exactly the input elements that pass the predicate, and is no longer than the input |
| `Measurements.FilterConcat` | src/pages/Location.tsx:111-116 | filtering keeps data order: it distributes over concatenation |
| `Measurements.Average` | src/pages/Location.tsx:103-108 | sum divided by count is undefined exactly when the subset is empty; otherwise the mean times the count is the sum |
| `Measurements.FilterPartition3` | src/pages/Location.tsx:80-101 | if each reading passes exactly one of three predicates, the three subsets' counts and sums of means add up to those of the whole |
| `Measurements.TotalSnoc` | src/pages/Location.tsx:71-74 | one step of the `reduce` fold from zero: appending a value adds it to the sum |
| `Measurements.TotalValuesSnoc` | src/pages/Location.tsx:71-74 | the `reduce` sum of the means grows by exactly the mean of an appended reading |
| `Measurements.FilterSameReadings` | src/pages/Location.tsx:68-70 | a filter whose test reads only the timestamp picks, from two sequences that differ only in `change`, subsets with the same timestamps and the same means |
| `Fetch.Concat` | src/api/base.ts:33 | a measurement is in the concatenation iff it is on one of the pages |
| `Fetch.FirstEmptyPage` | src/api/base.ts:32-37 | the page that stops the loop is empty, and every earlier page is non-empty |
| `Fetch.GetLocationNoiseData` | src/api/base.ts:23-41 | the pages requested are exactly 0, 1, ..., k, where k is the first empty page, so k+1 requests are made; the result is pages 0..k-1 concatenated in page order; an empty page 0 gives an empty result |
| `Fetch.PageKeptInPlace` | src/api/base.ts:33 | each page appears whole in the result, as one block right after the pages before it (nothing dropped or re-sorted) |
| `Fetch.ConcatLength` | src/api/base.ts:33 | the result's length is the sum of the page lengths |
| `Fetch.ThreePageScenario` | src/api/base.ts:27-38 | pages of sizes 50, 50, 0 give 3 requests and 100 measurements |
| `DataView.ApplyTrend` | src/pages/Location.tsx:59-66 | with two or more readings, the last one's `change` becomes last.mean - secondLast.mean and no other element or field changes; with none it is skipped; with one the source throws and nothing changes |
| `DataView.ChangeSymbol` | src/pages/Location.tsx:173-177 | the symbol is "- " iff the change is zero, the up triangle iff it is positive, the down triangle iff it is negative |
| `DataView.DayDiff` | src/pages/Location.tsx:69 | the whole-day difference truncates toward zero: for a non-negative gap d it is the largest n with n days <= d, for a negative gap the smallest n with d <= n days |
| `DataView.TrailingWindow` | src/pages/Location.tsx:68-70 | a reading is in the window iff it is in the data and its whole-day difference from `now` is at most 14 |
| `DataView.TrailingWindowBoundary` | src/pages/Location.tsx:68-70 | a reading is in the two-week window iff it is less than 15 whole days old; future readings are kept |
| `DataView.BandsPartitionHours` | src/pages/Location.tsx:76-78 | the morning, day and evening hour lists are pairwise disjoint and cover every hour 0..23 |
| `DataView.BandData` | src/pages/Location.tsx:80-88 | a reading is in a band's subset iff it is in the window and its local hour is one of the band's hours |
| `DataView.MeanOf` | src/pages/Location.tsx:103-108 | the mean of a subset is undefined (NaN) exactly when the subset is empty, and otherwise times the subset's size is the sum of its means |
| `DataView.ComputeBiweeklyMeans` | src/pages/Location.tsx:68-108 | `all` is the mean of the window, and `morning`, `day`, `evening` the means of the window's band subsets, each in the sense of `MeanOf` |
| `DataView.BandCountsAndSums` | src/pages/Location.tsx:80-101 | the band subsets' counts and sums of means add up to the window's count and sum |
| `DataView.BiweeklyMeansConsistent` | src/pages/Location.tsx:103-108 | the overall mean times the window size equals the count-weighted sum of the three band means |
| `DataView.DayOnlyScenario` | src/pages/Location.tsx:68-108 | readings all in the window, all in the day band and all equal to c give overall = day = c, and leave morning and evening undefined |
| `DataView.DailyPatterns` | src/pages/Location.tsx:110-126 | exactly 25 points; point h < 24 has hour h and the average of hour h's bucket; point 24 has hour 24 and point 0's value |
| `DataView.HourlyBucketsPartition` | src/pages/Location.tsx:111-116 | the readings of the 24 buckets, taken together, are the data as a multiset (each reading as often as in the data), and the 24 bucket sums add up to the sum of all means |
| `DataView.BucketTotalsSnoc` | src/pages/Location.tsx:111-116 | appending a reading adds its mean to the sum of its own hour's bucket and leaves the other 23 bucket sums unchanged |
| `DataView.BucketMembers` | src/pages/Location.tsx:112-115 | bucket h holds exactly the means of the readings, over the whole data and not only the window, whose local hour is h |
| `DataView.HourBucketEmptyIff` | src/pages/Location.tsx:117-120 | an hour's bucket is empty (its average undefined) iff no reading falls in that hour |
| `DataView.Lowest` | src/pages/Location.tsx:130-132 | `Math.min` over the values returns one of them, and it is at most every value |
| `DataView.Highest` | src/pages/Location.tsx:133-135 | `Math.max` over the values returns one of them, and it is at least every value |
| `DataView.Ticks` | src/pages/Location.tsx:130-143 | ticks exist iff every point value is defined; then min <= mid <= max, mid is their midpoint, every value lies between min and max, and min and max are attained |
| `DataView.TicksDefinedIff` | src/pages/Location.tsx:117-143 | the ticks of the 25-point pattern exist iff every hour of the day has at least one reading |
| `DataView.TrendWriteKeepsAggregates` | src/pages/Location.tsx:58-120 | the trend write touches only `change`, so the four means and every hourly bucket are the same before and after it |
| `DataView.RunEffect` | src/pages/Location.tsx:58-144 | one reading aborts the effect with data unchanged; with two or more the last reading's `change` becomes last.mean - secondLast.mean and every other element stays as it was; the last measurement is the last reading when there is one; the band means, the 25-point pattern and its ticks are those of the data as it was before the call |
| `MapBounds.Max` | src/pages/Main.tsx:23-24 | `Math.max` returns one of its arguments, and it is at least both |
| `MapBounds.Min` | src/pages/Main.tsx:25-26 | `Math.min` returns one of its arguments, and it is at most both |
| `MapBounds.Extend` | src/pages/Main.tsx:17-28 | a location with a NaN coordinate leaves the accumulator unchanged; a placeable one widens each side to contain it, never shrinks a side, and each side is its old value or the new coordinate |
| `MapBounds.BoundsTight` | src/pages/Main.tsx:16-35 | north/south are the largest/smallest latitude and east/west the largest/smallest longitude of the placeable locations; with none they keep their infinite initial values |
| `MapBounds.BoundsOf` | src/pages/Main.tsx:16-35 | every placeable location satisfies south <= lat <= north and west <= lon <= east; with no placeable location the bounds are the initial -inf/-inf/+inf/+inf |
| `MapBounds.UnboundedIffNothingPlaceable` | src/pages/Main.tsx:29-34 | the bounds stay at -inf/-inf/+inf/+inf iff no location is placeable (for example an empty list); otherwise they are finite with south <= north and west <= east |
| `MapBounds.BoundsOrderIndependent` | src/pages/Main.tsx:16-35 | two marker lists with the same elements, in any order, give the same bounds |
| `MapBounds.FitBoundsCorners` | src/pages/Main.tsx:39-45 | the box spanned by the two corners holds exactly the placeable locations the bounds contain, and with ordered bounds the first corner is below and left of the second |
| `MapBounds.FitBoundsSouthWestFirst` | src/pages/Main.tsx:39-45 | for the folded bounds, the first corner is (smallest latitude, smallest longitude) and the second (largest latitude, largest longitude) of the placeable locations; with one placeable location the first is south-west of the second, with none the corners are the inverted infinite box |

## Left out

- Rendering is not modelled: React components, `useState`, the loading guards, Leaflet maps and Recharts charts. It is UI built on foreign libraries.
- The router in src/main.tsx and the styling in tailwind.config.js are not modelled; they hold no logic.
- HTTP is not modelled: the axios client, base URL, headers, `getLocations` and `getLocation`. A failed request is not handled by the source; it rejects the whole fetch, and the model has no such path.
- The fetch's `start` query parameter is not modelled. It is "now minus one month" as an ISO 8601 string, which the server filters by. The page oracle already stands for the server's filtered answers.
- Fetch.GetLocationNoiseData: requires that some page is empty. If the backend never answers with an empty page, the source's `while (true)` loop never ends.
- dayjs is replaced by parameters. The local-time hour is the parameter `hourOf`. The day difference is the truncated whole-day count of the millisecond difference; the daylight-saving offset correction dayjs applies is not modelled.
- DataView.TrailingWindow: the source reads the clock (`dayjs()`) once per reading inside the window filter (src/pages/Location.tsx:69); the model reads it once, as the parameter `now`. A run that straddles a day boundary of some reading may keep or drop that reading differently; the model does not capture that.
- DataView.RunEffect: with no readings the effect never calls `setLastMeasurement`, so the view keeps whatever value the state already held (`null` at mount, src/pages/Location.tsx:51, or an earlier run's reading). `lastMeasurement` is then `None`, meaning "not written by this run"; the state carried across runs is not modelled.
- IEEE-754 arithmetic is replaced by exact reals. NaN results are `None` and the -Infinity/+Infinity start values are `NegInf`/`PosInf`. The `toPrecision(3)` tick labels and `toFixed(1)` displays are not modelled, so ticks are reals, not strings.
- DataView.Ticks: requires at least one point. `Math.min()` with no arguments is +Infinity, which the model does not represent; the source always passes 25 points.
- The in-place write to a shared measurement object becomes an update of an array slot. Other references to that object, such as the React state set by `setLastMeasurement`, are not modelled.
- MapBounds.Extend: a coordinate is a real or `None` (isNaN holds). JavaScript's coercions inside `isNaN` and `Math.max` (`null` counts as 0, numeric strings) and infinite coordinates are not modelled. Location fields other than latitude and longitude play no part in the fold and are omitted.
- The concurrent `getLocation` / `getLocationNoiseData` promises and stale-result races are concurrency, not aggregation.
- The `console.log` of the bounds is not modelled.
