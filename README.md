# Verified model of the EV dashboard's data preparation and layouts

The EV dashboard is a React application. It reads a table of electric-vehicle registrations and draws about thirty charts from it. Most of each component is rendering, but inside almost every chart there is hand-written logic that does one of two things:

- it turns the records into numbers: counting, sorting, bucketing, averaging and renaming;
- it turns numbers into geometry: spans, stacks, bands and radii.

This project models that logic in Dafny, one module per source file, and proves what each chart promises about its own output.

A record is the text map the CSV parser produces (`Vehicles.Record = map<string, string>`); a missing field reads as `undefined`. Numbers are exact: counts are `int`, layouts are `real`. `Math.PI` is the constant `3.141592653589793`. No square root is ever computed:

- the Pearson coefficient and Cramér's V are returned as a numerator and a radicand, and the model proves the radicand non-negative;
- the force simulation's `force / distance * dx` is rewritten as `dx·k²/d²`.

## Shared modules

- **Options**: `Option` and `Result` for the error paths.
- **Seqs**: sums, counts, distinct elements, minimum and maximum, `slice`, reversal.
- **Sorting**: JavaScript's stable `Array.prototype.sort` over a comparator that is a total preorder, modelled as a stable insertion sort. It is proved sorted, a permutation, and stable.
- **JsObject**: the counting `reduce` into a dictionary, as a method updating a map in place against the function `Tallied`, and the order of `Object.entries`. That order puts array-index keys first in ascending order, then every other key in insertion order.
- **Text**: digits, `parseInt` as `Option<int>`, `String(n)`, `split` and `join`.
- **Geometry**: π, the large-arc flag of the SVG path `A` command (section 8.3.8 of SVG 1.1), and the d3 linear scale.
- **JsMath**: `Math.round` and `indexOf`.
- **Partition**: proportional shares of a length, and contiguous packing with padding.
- **Vehicles**: field lookup and the "positive electric range" filter.

## Charts

- **Record aggregation.** These charts count records by a field and sort the counts (insertion order for ties), then take a top-N:
  - AvgRange, RangeHistogram, TrendsChart, ModelYearChart, MakeBarchart, CityChart and CountyChart;
  - PopularMakesChart, with make × year counts and the top five makes;
  - CAFVEligibilityChart, a class whose `Refresh` renames and sorts in place;
  - EVTypeChart, with the `/ \([A-Z]+\)$/` suffix stripper.

  The model proves that counts add up to the number of records and that outputs are sorted. It proves that a kept entry has at least the count of any dropped one, that each histogram range falls in exactly one bucket, and that running totals rise strictly.
- **SankeyDiagram.** Covers:
  - node deduplication;
  - link indexing;
  - node value = max(in, out);
  - the column-layering `while` loop, which terminates exactly on acyclic input (a cycle makes it run forever);
  - per-column stacking;
  - link paths.
- **ParallelSets.** Covers per-dimension counts, node stacking, co-occurrence ribbons between adjacent dimensions, and the ribbon stacking loop. A category containing `-` breaks the ribbon key, and the model proves where that throws.
- **MatrixPlot.** `computeMatrix` with the Pearson coefficient and Cramér's V:
  - the contingency table counts everything;
  - chi-square is non-negative;
  - the Pearson branch is symmetric;
  - a single category divides by zero.
- **Circle and rectangle partitions.**
  - ChordDiagram: group arcs and chord sub-arcs.
  - Sunburst: spans with the 0.005 floor, ring radii, the recursion and its `setPaths` calls, and the breadcrumb walk.
  - TreeMap: the one-level slice layout, in which every cell is given the whole parent area.
  - HorizonChart: bands, and layers that add back to each value.
  - PolarArea, SpiralPlot, RadarChart, CircularProgress and GaugeChart: angles and radii.
- **Kernel density.**
  - The Epanechnikov kernel and estimator, shared by RidgelinePlot and ViolinPlot.
  - The evaluation grid and max-normalisation.
  - ViolinPlot's outline, whose `reverse()` flips the stored density array in place (a class holding an array).
- **NetworkGraph.** One `applyForces` step over an array of bodies, in a class:
  - pairwise repulsion, visited once per order;
  - link attraction;
  - damping by 0.9;
  - clamping to the 30-pixel margin.

  The force phase conserves total momentum.
- **CalendarHeatmap.** The day loop that builds weeks and months: every day of the year once, in order; every week after the year's first starts on a Sunday; months labelled 0 to 11.
- **VehicleLocationMap.** The `POINT (lng lat)` matcher, a narrow subset of the OGC Well-Known Text point syntax, and the loop that samples up to 200 located records.
- **DataTable, Timeline, ParallelCoordinates.** Each is a class over the component's state:
  - DataTable: sort toggling, the sorted copy, pagination and its clamped prev/next;
  - Timeline: a drag that keeps `start < end` within 0 to 100;
  - ParallelCoordinates: scales, paths, brushing and the filter.
- **TrendCard and BubbleChart.**
  - TrendCard: trend direction and the sparkline points.
  - BubbleChart: its scales and the bubble size.

## Model

| member | source | states |
|---|---|---|
| Vehicles.Key | src/components/MakeBarchart.jsx:9-12 | `vehicle[name]` used as a dictionary key is the field's text, and the text "undefined" when the row lacks the column |
| Vehicles.Column | src/components/CityChart.jsx:7-11 | the column holds, row by row, the key each record contributes |
| Vehicles.WithRange | src/components/AvgRange.jsx:7-10 | the filter keeps only rows whose parsed range is a number above 0, and never adds a row |
| Vehicles.Ranges | src/components/RangeHistogram.jsx:9-16 | one parsed range per kept row, every one of them positive |
| Vehicles.RangesOfKept | src/components/AvgRange.jsx:7-11 | exactly the rows with a positive range are kept, and the ranges summed are theirs, in order |
| Vehicles.MissingRangeDropped | src/components/AvgRange.jsx:8-9 | a row without the column is dropped, since `parseInt(undefined)` is `NaN` |
| Text.ParseIntOfNatToString | src/components/AvgRange.jsx:8 | `parseInt` reads back the decimal text of every natural number |
| Text.ParseIntOfIntToString | src/components/RangeHistogram.jsx:21 | `parseInt` reads back the decimal text of every integer, sign included |
| Text.NatToStringValue | src/components/RangeHistogram.jsx:21 | the decimal text of `n` is digits without a leading zero whose value is `n` |
| Text.TrimStartNoSpace | src/components/AvgRange.jsx:8 | `parseInt` first drops the leading white space and nothing after it |
| Text.SplitJoin | src/components/ParallelSets/ParallelSets.jsx:71-76 | `split` on the separator gives back the parts `join` put together when no part holds the separator |
| Text.JoinSplit | src/components/ParallelSets/ParallelSets.jsx:71-76 | `join` gives back the text `split` cut up |
| Text.StrLeTotalPreorder | src/components/DataTable/DataTable.jsx:26-34 | the default string comparison is total and transitive |
| Text.StrLeAntisymmetric | src/components/DataTable/DataTable.jsx:26-34 | two strings each ordered before the other are equal, so the comparison is antisymmetric |
| Sorting.SortSorted | src/components/MakeBarchart.jsx:16-18 | `sort` with a consistent comparator leaves the array ordered by it |
| Sorting.SortPermutation | src/components/MakeBarchart.jsx:16-18 | `sort` rearranges the elements without adding or dropping any (same multiset) |
| Sorting.SortStable | src/components/CityChart.jsx:14-17 | `sort` is stable: the elements the comparator calls equal keep their input order |
| Sorting.SortMembers | src/components/CAFVEligibilityChart.jsx:25 | sorting keeps exactly the elements it was given |
| Sorting.SortAgree | src/components/DataTable/DataTable.jsx:26-34 | two comparators that agree on the elements present sort them alike |
| Sorting.SortDistinct | src/components/MakeBarchart.jsx:16-18 | distinct elements stay distinct after sorting |
| Seqs.DedupProperties | src/components/MatrixPlot/MatrixPlot.jsx:81-82 | the distinct values are exactly the values present, each once; each prefix of the input gives a prefix of the result, and an earlier result comes first in the input (`indexOf` order) |
| Seqs.Take | src/components/CityChart.jsx:17 | `slice(0, n)` keeps the first `min(n, length)` elements |
| Seqs.MaxIntIsMax | src/components/RangeHistogram.jsx:16 | `Math.max(...xs)` of a non-empty array is one of its elements and no element exceeds it |
| Seqs.MinIntIsMin | src/components/AvgRange.jsx:11-12 | the smallest element is one of the elements and no element is below it |
| Seqs.MaxRealIsMax | src/components/BubbleChart/BubbleChart.jsx:15-20 | the largest number of a non-empty array is one of its elements and bounds all of them |
| Seqs.MinRealIsMin | src/components/BubbleChart/BubbleChart.jsx:15-20 | the smallest number of a non-empty array is one of its elements and bounds all of them |
| Seqs.SumIntBounds | src/components/AvgRange.jsx:11 | a sum of `n` terms between `lo` and `hi` lies between `n·lo` and `n·hi` |
| Geometry.LargeArcFlagShift | src/components/Sunburst/Sunburst.jsx:88 | rotating both ends of an arc by the same angle leaves its large-arc flag unchanged |
| Geometry.PlotRadius | src/components/SpiralPlot/SpiralPlot.jsx:26-30 | the radius is half the smaller of the plot area's inner width and height: it fits both and meets one |
| Geometry.LinearEnds | src/components/PolarArea/PolarArea.jsx:33-41 | a linear scale maps its domain's ends to its range's ends |
| Geometry.LinearMonotone | src/components/SpiralPlot/SpiralPlot.jsx:33-36 | over an increasing domain a linear scale keeps the order of its inputs, or reverses it when the range decreases |
| Geometry.LinearWithin | src/components/PolarArea/PolarArea.jsx:33-36 | a value inside the domain lands inside the range |
| JsMath.Round | src/components/Timeline/Timeline.jsx:25 | `Math.round` gives the integer within a half of its argument, halves going up |
| JsMath.RoundProperties | src/components/ParallelCoordinates/ParallelCoordinates.jsx:75 | rounding an integer gives it back; rounding keeps order |
| JsMath.IndexOf | src/components/ParallelCoordinates/ParallelCoordinates.jsx:52 | `indexOf` gives the first position holding the value, or -1 exactly when no position does |
| JsMath.IndexOfUnique | src/components/SankeyDiagram/SankeyDiagram.jsx:28-29 | among distinct elements `indexOf` finds each element at its own position |
| Partition.SharesSum | src/components/SankeyDiagram/SankeyDiagram.jsx:58-60 | shares `value / total * extent` add up to the values' sum over the total times the extent |
| Partition.ShareAdd | src/components/ParallelSets/ParallelSets.jsx:108-116 | the share of a sum is the sum of the shares |
| Partition.SharesOfWhole | src/components/SankeyDiagram/SankeyDiagram.jsx:58-60 | shares of the values' own sum fill the extent exactly |
| Partition.SharesBounded | src/components/SankeyDiagram/SankeyDiagram.jsx:58-60 | non-negative values over a positive sum give shares between 0 and the extent |
| Partition.PackedAt | src/components/SankeyDiagram/SankeyDiagram.jsx:53-61 | each box laid end to end starts at the first start plus the heights and gaps before it |
| Partition.PackedEnd | src/components/SankeyDiagram/SankeyDiagram.jsx:53-61 | the last box ends at the start plus all heights and the gaps between them |
| Partition.PackedOrdered | src/components/SankeyDiagram/SankeyDiagram.jsx:53-61 | with non-negative heights and gap, an earlier box ends no later than a later one starts |
| AvgRange.AverageBetween | src/components/AvgRange.jsx:7-12 | the card shows 0 when no row has a positive range; otherwise the mean of the kept ranges, which lies between the smallest and the largest of them and is positive |
| AvgRange.MeanBetween | src/components/AvgRange.jsx:11-12 | `totalRange / filteredData.length` times the count gives back the total, and lies between the smallest and largest range |
| AvgRange.MeanPositive | src/components/AvgRange.jsx:9-12 | the mean of positive ranges is positive |
| RangeHistogram.MaxRange | src/components/RangeHistogram.jsx:16 | `maxRange` is a kept range, positive, and no kept range exceeds it |
| RangeHistogram.BucketCount | src/components/RangeHistogram.jsx:17 | `Math.ceil(maxRange / 50)` is the least bucket count whose buckets reach `maxRange` |
| RangeHistogram.BucketIndexExact | src/components/RangeHistogram.jsx:20-30 | `Math.floor((range - 1) / 50)` names the one bucket whose bounds `i·50 + 1` to `(i + 1)·50` hold the range, and no other bucket holds it |
| RangeHistogram.Histogram | src/components/RangeHistogram.jsx:9-34 | no bars exist when no row has a positive range (the spread of nothing throws); otherwise one bar per 50 miles up to the largest range, each with its label, bounds and the number of kept ranges inside them |
| RangeHistogram.Bars | src/components/RangeHistogram.jsx:16-34 | the bucket array and the counting loop give every bucket the number of ranges within its bounds |
| RangeHistogram.CountsSum | src/components/RangeHistogram.jsx:28-34 | the guard `bucketIndex < rangeBuckets.length` drops nothing: the counts add up to the number of kept ranges |
| RangeHistogram.HistogramComplete | src/components/RangeHistogram.jsx:16-34 | every kept range falls in an existing bucket whose bounds hold it, and the counts add up to the number of kept rows |
| MakeBarchart.ChartData | src/components/MakeBarchart.jsx:9-18 | the rows are in non-increasing count order, one per distinct make, each with its number of rows; every make appears and the counts add up to the number of rows |
| CountyChart.ChartData | src/components/CountyChart.jsx:9-19 | at most ten rows, largest counts first, each a distinct county with its number of rows; a county left out has no more rows than the tenth; with ten or fewer counties the counts add up to the number of rows |
| CityChart.ChartData | src/components/CityChart.jsx:7-17 | at most ten rows, largest counts first, each a distinct city with its number of rows; a city left out has no more rows than the tenth |
| CityChart.MaxCountFirst | src/components/CityChart.jsx:20 | on the sorted rows `maxCount` is the first row's count |
| CityChart.PercentBounds | src/components/CityChart.jsx:20-53 | the first bar is 100% wide and every bar lies in (0, 100] |
| ModelYearChart.ChartData | src/components/ModelYearChart.jsx:9-18 | one row per distinct model year, a missing or non-numeric one included, with its number of rows; the counts add up to the number of rows; in ascending numeric year order when every year is digits |
| ModelYearChart.YearRowsFacts | src/components/ModelYearChart.jsx:16-18 | the sorted tally of the years is ordered by year and counts each year exactly |
| TrendsChart.CumulativeData | src/components/TrendsChart.jsx:9-29 | whatever the years, the points hold each distinct year once with its count, each with the running total up to and including it, the last equal to the number of rows; with digit years the points follow the rows in ascending numeric year order |
| TrendsChart.Accumulate | src/components/TrendsChart.jsx:21-29 | the `map` that adds to `cumulativeCount` gives point `i` the total of rows 0 to `i` |
| TrendsChart.RunningTotals | src/components/TrendsChart.jsx:21-29 | the first running total is the first count, each later one adds its row's count, they rise strictly and end at the total |
| TrendsChart.CumulativeRises | src/components/TrendsChart.jsx:9-29 | the years ascend and the cumulative line rises strictly to the number of rows |
| EvTypeChart.StripCode | src/components/EVTypeChart.jsx:18 | `replace(/ \([A-Z]+\)$/, '')` returns a prefix of the type, and shortens it only by a trailing space, parenthesis, capitals and closing parenthesis |
| EvTypeChart.StripCodeOf | src/components/EVTypeChart.jsx:18 | whenever the type ends in " (" capitals ")" exactly that suffix is removed |
| EvTypeChart.UpperTail | src/components/EVTypeChart.jsx:18 | counts the run of capitals at the end of a text, and no more |
| EvTypeChart.ChartData | src/components/EVTypeChart.jsx:9-20 | one row per distinct type in the dictionary's own order, named without its code and carrying its number of rows; every type is represented and the values add up to the number of rows |
| CafvEligibilityChart.Label | src/components/CAFVEligibilityChart.jsx:12 | a missing or empty eligibility text counts as "Unknown", any other text as itself |
| CafvEligibilityChart.EligibilityChart.constructor | src/components/CAFVEligibilityChart.jsx:5 | the chart data starts empty |
| CafvEligibilityChart.EligibilityChart.Refresh | src/components/CAFVEligibilityChart.jsx:8-29 | the effect recomputes the chart data from non-empty data and leaves it unchanged for missing or empty data |
| CafvEligibilityChart.EligibilityProperties | src/components/CAFVEligibilityChart.jsx:11-25 | the rows are in non-increasing order, one per distinct raw label under its display name with its number of records, adding up to the number of records |
| CafvEligibilityChart.UnknownCounted | src/components/CAFVEligibilityChart.jsx:12-13 | records without an eligibility text are counted in an "Unknown" row |
| JsObject.Tally | src/components/MakeBarchart.jsx:9-13 | the counting `reduce`, updating the accumulator in place, ends with the dictionary `Tallied(keys)` |
| JsObject.Locate | src/components/MakeBarchart.jsx:11 | the lookup of `acc[make]` finds the first property with that key, or reports that there is none |
| JsObject.Find | src/components/MakeBarchart.jsx:11 | a property is found exactly when the key is one of the dictionary's, at its first position |
| JsObject.TalliedKeys | src/components/MakeBarchart.jsx:9-13 | the dictionary's keys are the distinct counted values in order of first appearance |
| JsObject.TalliedCountOf | src/components/MakeBarchart.jsx:11 | `acc[k] \|\| 0` equals the number of times `k` was counted, for every key `k` that is not a property name of `Object.prototype` |
| JsObject.TalliedCounts | src/components/MakeBarchart.jsx:9-13 | every property holds the number of occurrences of its key, at least 1 |
| JsObject.TalliedSum | src/components/MakeBarchart.jsx:9-13 | the counts add up to the number of counted values |
| JsObject.TalliedTotalWhere | src/components/ParallelSets/ParallelSets.jsx:69-73 | the counts of the keys that satisfy a test add up to the number of counted values that satisfy it |
| JsObject.EntriesPermutation | src/components/MakeBarchart.jsx:16 | `Object.entries` lists every property exactly once |
| JsObject.EntriesOrder | src/components/ModelYearChart.jsx:16 | `Object.entries` lists the array-index keys first, in ascending numeric order, then every other key in insertion order |
| JsObject.EntriesNoIndexKeys | src/components/EVTypeChart.jsx:16 | without array-index keys, `Object.entries` is plain insertion order |
| JsObject.EntriesTotalWhere | src/components/ParallelSets/ParallelSets.jsx:75 | the counts read through `Object.entries` still add up per test to the number of values that pass it |
| JsObject.SortedTallyProperties | src/components/MakeBarchart.jsx:16-18 | the sorted entries are ordered by the comparator, hold each distinct key once with its number of occurrences, and add up to the number of values |
| JsObject.SortedTallyTies | src/components/MakeBarchart.jsx:16-18 | rows the comparator calls equal keep their `Object.entries` order |
| JsObject.TopCountsProperties | src/components/CountyChart.jsx:16-19 | sorting by count and `slice(0, n)` keeps at most `n` rows, largest first, each a distinct key with its count; an omitted key never outnumbers the last kept row; with at most `n` keys nothing is omitted |
| JsObject.RelabeledTally | src/components/EVTypeChart.jsx:16-20 | renamed rows keep one row per distinct key with its count, every key has a row under its new name, no rows merge, and the counts add up to the number of values |
| JsObject.PermutedRows | src/components/MakeBarchart.jsx:16-18 | any reordering of the counting rows still counts the same keys |
| PopularMakesChart.GroupByMakeYear | src/components/PopularMakesChart.jsx:9-19 | the nested reduce, updating `acc[make][year]` in place, ends with the dictionary `Grouped(data)` |
| PopularMakesChart.LookUpMake | src/components/PopularMakesChart.jsx:13-14 | the lookup `acc[make]` returns the position of the make's property, or the end of the dictionary when the make is new |
| PopularMakesChart.GroupedCell | src/components/PopularMakesChart.jsx:9-19 | every cell `makeYearData[m]?.[y] \|\| 0` counts the vehicles of make `m` and model year `y` |
| PopularMakesChart.AddVehicleCell | src/components/PopularMakesChart.jsx:13-17 | adding one vehicle raises its own (make, year) cell by one and leaves every other cell alone |
| PopularMakesChart.AddVehicleTotals | src/components/PopularMakesChart.jsx:13-17 | adding one vehicle raises its make's total by one, adding the make at the end when it is new |
| PopularMakesChart.GroupedTotals | src/components/PopularMakesChart.jsx:22-26 | the per-make totals of `makeYearData`, in its own order, are exactly the counts of a plain tally of the makes |
| PopularMakesChart.ValuesSum | src/components/PopularMakesChart.jsx:25 | summing `Object.values(years)` gives the same total as summing the year counts in insertion order |
| PopularMakesChart.MakeTotals | src/components/PopularMakesChart.jsx:22-26 | one `{ make, count }` per make, in dictionary order, whose count is the sum of its year counts |
| PopularMakesChart.MakeTotalsSum | src/components/PopularMakesChart.jsx:22-26 | the make totals add up to the number of vehicles |
| PopularMakesChart.TopMakesProperties | src/components/PopularMakesChart.jsx:22-30 | at most five top makes, distinct, in non-increasing order of vehicle count; an omitted make never has more vehicles than the fifth |
| PopularMakesChart.AllYearsProperties | src/components/PopularMakesChart.jsx:33 | `allYears` is strictly ascending in string order, has no repeats, and holds exactly the model years that occur |
| PopularMakesChart.YearCells | src/components/PopularMakesChart.jsx:39-41 | the inner `forEach` writes, for each top make in order, its cell for the year |
| PopularMakesChart.YearRows | src/components/PopularMakesChart.jsx:36-44 | one row per year of `allYears`, in order, holding the year and the cells of the top makes |
| PopularMakesChart.RowsMeaning | src/components/PopularMakesChart.jsx:36-44 | each row's value for a top make is that make's count in that year, and each make's line adds up to its total |
| PopularMakesChart.PairCountsSum | src/components/PopularMakesChart.jsx:33-44 | over distinct years that cover every vehicle, a make's year counts add up to its number of vehicles |
| PopularMakesChart.ChartData | src/components/PopularMakesChart.jsx:9-44 | the component body: the top makes as above, one row per model year in ascending order, each cell the count of its make and year, each line summing to its make's total |
| DataTable.ClicksAlternate | src/components/DataTable/DataTable.jsx:13-21 | a click sorts by the clicked column; a new column starts ascending, clicks on the same column alternate the direction, and another column resets to ascending |
| DataTable.NotLessIsAtMost | src/components/DataTable/DataTable.jsx:27-33 | "not `b < a`" on the cells is exactly string order `a <= b` |
| DataTable.KeyOrderTotal | src/components/DataTable/DataTable.jsx:26-34 | the column order in either direction is total and transitive, so the sort is well defined |
| DataTable.ComparatorIsKeyOrder | src/components/DataTable/DataTable.jsx:26-34 | on rows that have the column, the comparator's -1/0/1 agrees with ascending or descending string order of the cells |
| DataTable.SortedRowsOrdered | src/components/DataTable/DataTable.jsx:23-35 | with a key every row has, `sortedData` is a permutation of the rows, ordered by that column in the chosen direction, and rows with equal cells keep their input order |
| DataTable.SortedRowsPermutation | src/components/DataTable/DataTable.jsx:23-35 | whatever the configuration the rows shown are the rows given, reordered; with no key they are the rows as given |
| DataTable.TotalPagesIsCeiling | src/components/DataTable/DataTable.jsx:37 | `Math.ceil(data.length / pageSize)` is the least number of pages that hold every row, and 0 exactly when there are no rows |
| DataTable.Window | src/components/DataTable/DataTable.jsx:38-41 | `slice` with non-negative bounds is the window clamped to the length, no longer than the bounds' distance, and non-empty when it starts inside the rows |
| DataTable.PageContents | src/components/DataTable/DataTable.jsx:38-41 | page `p` shows rows `(p - 1) * pageSize` up to `p * pageSize`, at most `pageSize` of them; page 0 shows nothing |
| DataTable.PageNonEmpty | src/components/DataTable/DataTable.jsx:37-41 | every page from 1 to the page count shows at least one row |
| DataTable.PagesPrefix | src/components/DataTable/DataTable.jsx:38-41 | pages 1 to `m` read one after another are the first `m * pageSize` rows |
| DataTable.PagesCover | src/components/DataTable/DataTable.jsx:37-41 | pages 1 to the count, read one after another, are exactly the sorted rows: none lost, none repeated |
| DataTable.Table.constructor | src/components/DataTable/DataTable.jsx:4-11 | the table starts on page 1, unsorted and ascending, with its props as given |
| DataTable.Table.HandleSort | src/components/DataTable/DataTable.jsx:13-21 | a sortable table moves to the next sort configuration; an unsortable one changes nothing; the page is unchanged |
| DataTable.Table.Previous | src/components/DataTable/DataTable.jsx:77-78 | the page goes down by one but not below 1, and stays within the page count |
| DataTable.Table.Next | src/components/DataTable/DataTable.jsx:87-90 | the page goes up by one but not beyond the page count (0 for an empty table) |
| Timeline.Percentage | src/components/Timeline/Timeline.jsx:17-25 | the pointer reading is a whole percentage between 0 and 100 |
| Timeline.Share | src/components/Timeline/Timeline.jsx:19-20 | the clamped offset divided by the track width is between 0 and 1, and 0 or 1 at the ends |
| Timeline.PercentageOnTrack | src/components/Timeline/Timeline.jsx:19-25 | off the left end the reading is 0, off the right end 100, and on the track within half a percent of the exact position |
| Timeline.PercentageMonotone | src/components/Timeline/Timeline.jsx:19-25 | moving the pointer right never lowers the reading |
| Timeline.Drag | src/components/Timeline/Timeline.jsx:22-33 | the handle not dragged stays where it was |
| Timeline.DragKeepsOrder | src/components/Timeline/Timeline.jsx:28-33 | a drag to a value on the track keeps start before end within 0..100, and the dragged handle lands on the value exactly when that keeps the order |
| Timeline.DragInPlace | src/components/Timeline/Timeline.jsx:22-33 | dragging a handle to where it already is changes nothing |
| Timeline.Timeline.constructor | src/components/Timeline/Timeline.jsx:5-6 | the range starts at 0 to 100 with no handle dragged and nothing reported |
| Timeline.Timeline.MouseDown | src/components/Timeline/Timeline.jsx:9-12 | the pressed handle becomes the dragged one; the range is unchanged |
| Timeline.Timeline.MouseUp | src/components/Timeline/Timeline.jsx:40-42 | no handle is dragged any more; the range is unchanged |
| Timeline.Timeline.MouseMove | src/components/Timeline/Timeline.jsx:14-38 | without a drag or a mounted track nothing changes; otherwise the range becomes the drag to the pointer's reading, stays ordered, and is reported when `onRangeChange` is given |
| SankeyDiagram.NodeIdsProperties | src/components/SankeyDiagram/SankeyDiagram.jsx:16-18 | the node ids have no repeats, are exactly the sources and targets of the flows, and come in order of first appearance among all sources then all targets |
| SankeyDiagram.FindIndex | src/components/SankeyDiagram/SankeyDiagram.jsx:21-22 | `findIndex` gives the first position holding the id, or -1 exactly when the id is absent |
| SankeyDiagram.LinksValid | src/components/SankeyDiagram/SankeyDiagram.jsx:20-24 | every link points at the nodes carrying its flow's source and target, never -1, and keeps the flow's value |
| SankeyDiagram.NodeValues | src/components/SankeyDiagram/SankeyDiagram.jsx:27-34 | each node's value is the larger of what leaves it and what enters it |
| SankeyDiagram.OutSumsTotal | src/components/SankeyDiagram/SankeyDiagram.jsx:27-34 | what leaves all nodes together is the total of the link values: each link is counted once, at its source |
| SankeyDiagram.SumsAtLeast | src/components/SankeyDiagram/SankeyDiagram.jsx:28-33 | with non-negative values, a link's value counts toward what leaves its source and what enters its target |
| SankeyDiagram.SumsNonNegative | src/components/SankeyDiagram/SankeyDiagram.jsx:31-32 | with non-negative values, both sums of every node are non-negative |
| SankeyDiagram.EndingFlow | src/components/SankeyDiagram/SankeyDiagram.jsx:16-24 | some link starts or ends at every node and carries its flow's value |
| SankeyDiagram.NodeValuePositive | src/components/SankeyDiagram/SankeyDiagram.jsx:27-34 | with positive flows every node's value is positive |
| SankeyDiagram.ReadyOf | src/components/SankeyDiagram/SankeyDiagram.jsx:40-42 | the column holds exactly the remaining nodes whose incoming links all start at placed nodes |
| SankeyDiagram.Remove | src/components/SankeyDiagram/SankeyDiagram.jsx:45 | the filter drops exactly the node, and shortens the list when the node was in it |
| SankeyDiagram.PlaceColumn | src/components/SankeyDiagram/SankeyDiagram.jsx:43-46 | the column's nodes get `x` set to the column number, others keep theirs, and they leave `remaining` |
| SankeyDiagram.NextRound | src/components/SankeyDiagram/SankeyDiagram.jsx:39-48 | one round of the column loop keeps the loop invariant: placed nodes are in their columns and every link into a placed node comes from a lower column |
| SankeyDiagram.RoundColumns | src/components/SankeyDiagram/SankeyDiagram.jsx:43-47 | after a round each node is in exactly the column its `x` names |
| SankeyDiagram.RoundLinks | src/components/SankeyDiagram/SankeyDiagram.jsx:40-47 | after a round every link into a placed node starts at a node placed in a lower column |
| SankeyDiagram.RoundFirst | src/components/SankeyDiagram/SankeyDiagram.jsx:40-42 | the first column holds exactly the nodes no link enters |
| SankeyDiagram.ReadyExists | src/components/SankeyDiagram/SankeyDiagram.jsx:39-42 | on acyclic links, witnessed by a rank rising along every link, some remaining node is always ready, so the loop progresses |
| SankeyDiagram.CycleNotRanked | src/components/SankeyDiagram/SankeyDiagram.jsx:39-48 | links that form a cycle admit no such rank |
| SankeyDiagram.CycleNeverReady | src/components/SankeyDiagram/SankeyDiagram.jsx:40-42 | no node of a cycle of unplaced nodes is ever ready |
| SankeyDiagram.StuckRound | src/components/SankeyDiagram/SankeyDiagram.jsx:39-48 | when every remaining node has a link from an unplaced node the column is empty, so on cyclic data the loop never ends |
| SankeyDiagram.AssignColumns | src/components/SankeyDiagram/SankeyDiagram.jsx:36-48 | on acyclic links the loop ends with every node in exactly one non-empty column, the first column the nodes no link enters, and every link going to a higher column |
| SankeyDiagram.ByValueDescPreorder | src/components/SankeyDiagram/SankeyDiagram.jsx:55 | `b.value - a.value` orders by value, largest first, as a total preorder |
| SankeyDiagram.SortedColumn | src/components/SankeyDiagram/SankeyDiagram.jsx:54-55 | the sorted column is a permutation of the column, in non-increasing value order |
| SankeyDiagram.PositiveColumnTotal | src/components/SankeyDiagram/SankeyDiagram.jsx:58-60 | a non-empty column of positive values has a positive total, so its division is defined |
| SankeyDiagram.StackShares | src/components/SankeyDiagram/SankeyDiagram.jsx:56-62 | each node's height is its share of the column total times the column height, and each `y` is the previous one plus its height and the padding, from 0 |
| SankeyDiagram.StackEnd | src/components/SankeyDiagram/SankeyDiagram.jsx:52-62 | heights that add up to `height - nodePadding * (n - 1)` end the last node exactly at `height` |
| SankeyDiagram.StackColumn | src/components/SankeyDiagram/SankeyDiagram.jsx:51-63 | one column of the y pass: no numeric heights exactly when the column total is zero; otherwise sorted by value, heights proportional to values adding up to the column height, nodes stacked from 0 with the padding between, the last ending at `height` |
| SankeyDiagram.StackColumns | src/components/SankeyDiagram/SankeyDiagram.jsx:51-63 | every column is stacked as above, or has no numeric heights exactly when its total is zero |
| SankeyDiagram.LinkPathShape | src/components/SankeyDiagram/SankeyDiagram.jsx:66-84 | a link into a higher column runs left to right, leaves and arrives horizontally, starts and ends within its nodes' heights, and spans the columns between them |
| SankeyDiagram.Layout | src/components/SankeyDiagram/SankeyDiagram.jsx:14-87 | the whole effect for acyclic flows of any value: the nodes, the links, node values the larger of outflow and inflow, every node in one column with links going right, every column stacked unless its total is zero; with positive flows every node value is positive and every column is stacked |
| SankeyDiagram.PositiveValues | src/components/SankeyDiagram/SankeyDiagram.jsx:27-34 | with positive flows every node value the effect computes is positive |
| SankeyDiagram.PositiveColumns | src/components/SankeyDiagram/SankeyDiagram.jsx:51-60 | columns of nodes with positive values all have positive totals |
| SankeyDiagram.PositiveLayout | src/components/SankeyDiagram/SankeyDiagram.jsx:27-60 | with positive flows every node value is positive and every column total is non-zero, so every column is stacked |
| ParallelSets.DimensionNodes | src/components/ParallelSets/ParallelSets.jsx:35-59 | one node per category of the dimension, in `Object.entries` order, with its count, stacked without gaps from the top margin, each as tall as its count's share of the available height |
| ParallelSets.PlaceNodes | src/components/ParallelSets/ParallelSets.jsx:43-57 | the `y +=` map keeps each entry's key and count, gives it its share of the height, and starts each node where the previous one ends |
| ParallelSets.NoDataNoCategories | src/components/ParallelSets/ParallelSets.jsx:36-40 | with no records a dimension has no categories |
| ParallelSets.StackedEnd | src/components/ParallelSets/ParallelSets.jsx:43-57 | stacked nodes end at the top plus their summed heights |
| ParallelSets.DimensionFill | src/components/ParallelSets/ParallelSets.jsx:36-57 | a dimension's counts add up to the number of records, so its nodes fill the available height exactly, the last ending at `top + available` |
| ParallelSets.FlattenAt | src/components/ParallelSets/ParallelSets.jsx:61 | each position of the flattened node list lies in exactly one dimension's block |
| ParallelSets.FindNode | src/components/ParallelSets/ParallelSets.jsx:77-82 | `find` gives the first node with the name and dimension, or `undefined` exactly when there is none |
| ParallelSets.FindPlaced | src/components/ParallelSets/ParallelSets.jsx:61-82 | with distinct dimensions, a node's name and dimension single it out: `find` returns that very node |
| ParallelSets.DimensionNodeFacts | src/components/ParallelSets/ParallelSets.jsx:36-57 | a dimension's nodes have distinct names, each a value of its column counted by the node's value, and every value of the column has a node |
| ParallelSets.PairEntriesOrder | src/components/ParallelSets/ParallelSets.jsx:71-75 | every pair key holds "-", so none is an array index and `Object.entries(links)` lists the pairs in first-seen order |
| ParallelSets.NameOnPairKey | src/components/ParallelSets/ParallelSets.jsx:71-76 | when neither value holds "-", `key.split("-")` gives back the two values the key was made of |
| ParallelSets.BuildLinks | src/components/ParallelSets/ParallelSets.jsx:64-93 | the loop over adjacent pairs pushes, pair after pair, one ribbon per entry of the pair's counts |
| ParallelSets.PushPair | src/components/ParallelSets/ParallelSets.jsx:75-92 | the `forEach` appends the entries' ribbons in order to those already pushed |
| ParallelSets.AllLinksShape | src/components/ParallelSets/ParallelSets.jsx:75-91 | every ribbon end is a node or `undefined`, and every ribbon is as tall as its count's share of the available height |
| ParallelSets.PairFill | src/components/ParallelSets/ParallelSets.jsx:69-91 | a pair's counts add up to the number of records, so its ribbons together are exactly the available height |
| ParallelSets.CountWhereNamed | src/components/ParallelSets/ParallelSets.jsx:71-76 | without "-" in the values, the keys naming `a` on one side are the records whose value on that side's dimension is `a` |
| ParallelSets.PairCountOccurrences | src/components/ParallelSets/ParallelSets.jsx:69-76 | without "-", a pair's counts whose key names `a` on one side add up to `a`'s occurrences in that side's column |
| ParallelSets.NodeStackCount | src/components/ParallelSets/ParallelSets.jsx:64-119 | without "-" and with distinct dimensions, the counts of the ribbons leaving a node (all but the last dimension) and of those entering it (all but the first) each add up to the node's own count; there are none on the other side |
| ParallelSets.NodeStackFilled | src/components/ParallelSets/ParallelSets.jsx:102-118 | in heights: a node's outgoing ribbons, stacked from `node.y`, end exactly at `node.y + node.height`, and so do its incoming ones |
| ParallelSets.NoDashNoThrow | src/components/ParallelSets/ParallelSets.jsx:76-100 | without "-" in any value of a chosen dimension every ribbon finds both its nodes, so the `dimLinks` filter never throws |
| ParallelSets.DashedCategoryThrows | src/components/ParallelSets/ParallelSets.jsx:71-100 | a category holding "-" breaks its key apart: for the single record `{A: "x-y", B: "z"}` no node is found for the source piece "x" and the filter throws |
| ParallelSets.FirstFailure | src/components/ParallelSets/ParallelSets.jsx:98-100 | the first ribbon on which the `dimLinks` filter throws, or none |
| ParallelSets.StackNode | src/components/ParallelSets/ParallelSets.jsx:103-118 | each ribbon at the node on one side gets the node's `y` plus the heights of the earlier ribbons there; the others are untouched |
| ParallelSets.StackDimension | src/components/ParallelSets/ParallelSets.jsx:97-119 | after a dimension's nodes are visited, every ribbon end at a node of that or an earlier dimension is placed |
| ParallelSets.StackLinks | src/components/ParallelSets/ParallelSets.jsx:96-120 | the stacking loop throws exactly when some ribbon breaks the filter, and otherwise places every end at a visited node |
| ParallelSets.StackHeightShare | src/components/ParallelSets/ParallelSets.jsx:90-118 | ribbons stacked at a node are as tall as the share of their summed counts |
| ParallelSets.AllDimensionNodes | src/components/ParallelSets/ParallelSets.jsx:34-61 | the `dimensions.map(...).flat()` gives every dimension's nodes, block after block |
| ParallelSets.ComputeLayout | src/components/ParallelSets/ParallelSets.jsx:26-124 | the nodes of every dimension, the ribbons of every adjacent pair, then the stacking loop; the result is the TypeError exactly when an undefined ribbon end reaches the filter |
| ChordDiagram.RowTotals | src/components/ChordDiagram/ChordDiagram.jsx:29-31 | one total per group, the full sum of its row with the diagonal included |
| ChordDiagram.GroupArcs | src/components/ChordDiagram/ChordDiagram.jsx:35-46 | arc `i` carries group `i`'s total, starts where arc `i - 1` ends (the first at 0), and spans its share `2π · total / grand total` of the turn |
| ChordDiagram.SpanFraction | src/components/ChordDiagram/ChordDiagram.jsx:37 | `(2π · v) / total` is the fraction `v / total` of the full turn |
| ChordDiagram.SpanAdd | src/components/ChordDiagram/ChordDiagram.jsx:37-44 | spans add: the span of two values together is the sum of their spans |
| ChordDiagram.ArcStart | src/components/ChordDiagram/ChordDiagram.jsx:35-46 | arc `k` starts at the share of the turn taken by the groups before it |
| ChordDiagram.ArcsCloseCircle | src/components/ChordDiagram/ChordDiagram.jsx:32-46 | because the total is the sum of the group totals, the last arc ends exactly at 2π |
| ChordDiagram.ArcLargeFlag | src/components/ChordDiagram/ChordDiagram.jsx:109 | over a positive total, a group arc is drawn with the large-arc flag exactly when the group has more than half the total |
| ChordDiagram.LaidFits | src/components/ChordDiagram/ChordDiagram.jsx:29-52 | the laid-out arcs give every emitting cell a non-zero arc value at both ends, so every chord angle is a number |
| ChordDiagram.CalculateLayout | src/components/ChordDiagram/ChordDiagram.jsx:27-97 | `calculateLayout`: the group arcs as above, then the chords of the emitting cells pushed row by row |
| ChordDiagram.ChordsExactly | src/components/ChordDiagram/ChordDiagram.jsx:49-93 | the chords are exactly the cells `(i, j)` with `i != j` and a positive value, each once, in row-major order |
| ChordDiagram.AppendCell | src/components/ChordDiagram/ChordDiagram.jsx:52-90 | pushing the chord of an emitting cell keeps the row's chords exactly those of its emitting cells so far |
| ChordDiagram.SkipCell | src/components/ChordDiagram/ChordDiagram.jsx:52 | a cell on the diagonal or without a positive value adds no chord |
| ChordDiagram.AppendRow | src/components/ChordDiagram/ChordDiagram.jsx:50-93 | appending a row's chords to those of the earlier rows keeps row-major order |
| ChordDiagram.PrefixFacts | src/components/ChordDiagram/ChordDiagram.jsx:59 | the prefix sums `row.slice(0, j)` of a non-negative row grow by each cell and stay within the row total |
| ChordDiagram.Within | src/components/ChordDiagram/ChordDiagram.jsx:56-65 | two consecutive portions of an arc whose parts add up to at most its value stay inside the arc |
| ChordDiagram.Before | src/components/ChordDiagram/ChordDiagram.jsx:56-65 | portions are monotone: parts adding up to at most `q` end no later than portion `q` |
| ChordDiagram.SpanNonNegative | src/components/ChordDiagram/ChordDiagram.jsx:29-46 | with non-negative flows each arc has the row sum as value and a non-negative span, and the grand total is positive |
| ChordDiagram.SourceInside | src/components/ChordDiagram/ChordDiagram.jsx:53-65 | with non-negative flows a chord's source sub-arc lies inside its group's arc |
| ChordDiagram.SourcesOrdered | src/components/ChordDiagram/ChordDiagram.jsx:51-65 | with non-negative flows the source sub-arcs of one row follow each other in column order without overlap |
| ChordDiagram.TargetInsideWhenSymmetric | src/components/ChordDiagram/ChordDiagram.jsx:67-76 | when the matrix is symmetric at the cell the target sub-arc also lies inside its group's arc |
| ChordDiagram.TargetOverflows | src/components/ChordDiagram/ChordDiagram.jsx:67-76 | without symmetry the target sub-arc can run past its group arc: for `[[0, 2], [1, 0]]` the chord 0→1 ends beyond arc 1 |
| MatrixPlot.ColumnOf | src/components/MatrixPlot/MatrixPlot.jsx:39-40 | `data.map((d) => d[key])` holds each row's value of the key, in order |
| MatrixPlot.ComputeCorrelation | src/components/MatrixPlot/MatrixPlot.jsx:57-77 | `computeCorrelation`: 0 for empty columns, the Pearson quotient when both first values are numbers, Cramér's V otherwise |
| MatrixPlot.NumbersNonEmpty | src/components/MatrixPlot/MatrixPlot.jsx:62-64 | a column whose first value is a number gives `d3.mean` at least one number |
| MatrixPlot.PearsonSymmetric | src/components/MatrixPlot/MatrixPlot.jsx:63-72 | the Pearson branch gives the same result with its two columns swapped |
| MatrixPlot.CrossTermsSwap | src/components/MatrixPlot/MatrixPlot.jsx:66 | the numerator's terms are the same with the columns and their means swapped |
| MatrixPlot.PearsonRadicand | src/components/MatrixPlot/MatrixPlot.jsx:67-72 | the product under `Math.sqrt` is never negative, so the denominator is 0 only when the product is, and a quotient is taken only over a positive root |
| MatrixPlot.QuotientSwap | src/components/MatrixPlot/MatrixPlot.jsx:67-72 | the quotient does not depend on the order of the two sums of squares |
| MatrixPlot.SquaresNonNegative | src/components/MatrixPlot/MatrixPlot.jsx:68-69 | a sum of squared deviations is never negative |
| MatrixPlot.Contribution | src/components/MatrixPlot/MatrixPlot.jsx:99-101 | a cell adds a non-negative amount to chi-square |
| MatrixPlot.ComputeCramersV | src/components/MatrixPlot/MatrixPlot.jsx:79-107 | `computeCramersV`: counting every key into the table, then adding every cell's contribution row by row, gives the root of chi-square over `x.length * (minDimension - 1)` |
| MatrixPlot.AddRowTerms | src/components/MatrixPlot/MatrixPlot.jsx:92-102 | the inner loop adds the contribution of every cell of the row, read from the counted table |
| MatrixPlot.TermOfTable | src/components/MatrixPlot/MatrixPlot.jsx:84-93 | `contingencyTable.get(key) \|\| 0` is the number of indices whose pair has that key |
| MatrixPlot.ContributionAdded | src/components/MatrixPlot/MatrixPlot.jsx:99-101 | adding the term only when `expected > 0` adds exactly the cell's contribution |
| MatrixPlot.ContingencyTotal | src/components/MatrixPlot/MatrixPlot.jsx:84-87 | the table's counts add up to `x.length` |
| MatrixPlot.ExpectedPositive | src/components/MatrixPlot/MatrixPlot.jsx:94-99 | every pair of categories that occur has a positive expected count, so the guard never skips a cell |
| MatrixPlot.ChiSquareNonNegative | src/components/MatrixPlot/MatrixPlot.jsx:90-103 | chi-square is never negative |
| MatrixPlot.CramersVRadicand | src/components/MatrixPlot/MatrixPlot.jsx:105-106 | Cramér's V takes the root of a non-negative number |
| MatrixPlot.SingleCategory | src/components/MatrixPlot/MatrixPlot.jsx:105-106 | with a single category on either side, `minDimension - 1` is 0 and the result is a division by zero |
| MatrixPlot.ComputeMatrix | src/components/MatrixPlot/MatrixPlot.jsx:27-55 | `computeMatrix` throws on an empty array, and otherwise hands `setMatrix` one row per variable with one cell per variable |
| MatrixPlot.CorrelationRow | src/components/MatrixPlot/MatrixPlot.jsx:33-43 | the inner `forEach` fills row `i` of the correlation matrix, cell by cell |
| MatrixPlot.ComputeCoefficient | src/components/MatrixPlot/MatrixPlot.jsx:35-42 | a cell is 1 on the diagonal and the correlation of the two columns elsewhere |
| MatrixPlot.MatrixShape | src/components/MatrixPlot/MatrixPlot.jsx:32-54 | the matrix is square, names the variables in order along both axes, has 1 on the diagonal, and is symmetric between numeric columns |
| Sunburst.Span | src/components/Sunburst/Sunburst.jsx:35 | a child's span is its proportional angle raised to the floor `minAngle`: at least both, and equal to one of them |
| Sunburst.Siblings | src/components/Sunburst/Sunburst.jsx:34-59 | one path per child of the node being laid out |
| Sunburst.SiblingsLaid | src/components/Sunburst/Sunburst.jsx:34-59 | siblings are laid end to end from the start angle: each path holds its child, starts where the previous one ended, spans that child's span and sits on the call's ring |
| Sunburst.LayoutLaid | src/components/Sunburst/Sunburst.jsx:24-62 | every path one call hands to `setPaths` is on that call's ring and spans at least `minAngle` |
| Sunburst.SiblingsEnd | src/components/Sunburst/Sunburst.jsx:31-46 | when no span is raised to the floor, the siblings end at the start plus the angle of their summed values |
| Sunburst.SiblingsCloseCircle | src/components/Sunburst/Sunburst.jsx:31-46 | when the children's values add up to the node's value and none is floored, the last path ends a full turn after the start |
| Sunburst.ProportionalAdd | src/components/Sunburst/Sunburst.jsx:31-35 | the angle of a sum of values is the sum of their angles |
| Sunburst.WholeRatio | src/components/Sunburst/Sunburst.jsx:31 | the node's own value spans the whole circle |
| Sunburst.GrandchildEscapes | src/components/Sunburst/Sunburst.jsx:48-50 | the recursive call spreads a child's children over a full turn of their own rather than inside the child's span: a witness where the grandchild ends past its parent |
| Sunburst.ArcFlag | src/components/Sunburst/Sunburst.jsx:64-97 | the arc path's large-arc flag is 1 exactly when the path spans more than half a turn |
| Sunburst.ChainShape | src/components/Sunburst/Sunburst.jsx:99-109 | the breadcrumb chain ends at the clicked node, starts at a node without a parent and links each node to its parent |
| Sunburst.SunburstChart.constructor | src/components/Sunburst/Sunburst.jsx:12-17 | the radius is half the smaller side; no paths and no breadcrumbs yet |
| Sunburst.SunburstChart.CalculateLayout | src/components/Sunburst/Sunburst.jsx:24-62 | after the recursive calls the paths state is the top call's own list, since its `setPaths` runs last; breadcrumbs are untouched |
| Sunburst.SunburstChart.HandlePathClick | src/components/Sunburst/Sunburst.jsx:99-109 | the breadcrumbs become the chain of ancestors of the clicked node, root first; paths are untouched |
| TreeMap.SplitSpan | src/components/TreeMap/TreeMap.jsx:23-35 | a child's span along the cut is zero exactly when its value or the cut side is zero |
| TreeMap.SplitSpanIs | src/components/TreeMap/TreeMap.jsx:29-34 | the span is `width * ratio` when the parent is wider than tall, else `height * ratio` |
| TreeMap.ZeroShare | src/components/TreeMap/TreeMap.jsx:23-33 | a proportional share is zero exactly when the value or the extent is zero |
| TreeMap.Row | src/components/TreeMap/TreeMap.jsx:22-52 | one cell per child |
| TreeMap.CalculateLayout | src/components/TreeMap/TreeMap.jsx:15-58 | the loop that moves the running corner produces exactly the specified cells |
| TreeMap.TotalOf | src/components/TreeMap/TreeMap.jsx:17 | the reduce gives the sum of the children's values |
| TreeMap.RowStep | src/components/TreeMap/TreeMap.jsx:37-50 | one step of the map emits the child's cell and moves the corner along the cut by its span |
| TreeMap.CellOfWide | src/components/TreeMap/TreeMap.jsx:29-31 | for a wide parent the cell is `childWidth = width * ratio` wide and `area / childWidth` tall |
| TreeMap.CellOfTall | src/components/TreeMap/TreeMap.jsx:32-34 | for a tall parent the cell is `childHeight = height * ratio` tall and `area / childHeight` wide |
| TreeMap.PlaceChild | src/components/TreeMap/TreeMap.jsx:22-43 | the callback's arithmetic gives exactly the specified cell |
| TreeMap.CellSlice | src/components/TreeMap/TreeMap.jsx:23-43 | a cell starts at the running corner, spans the child's share of the cut side and has the parent's whole area |
| TreeMap.RowSliced | src/components/TreeMap/TreeMap.jsx:22-52 | the cells hold the children in order, each starting where the previous one ended along the cut |
| TreeMap.LayoutSliced | src/components/TreeMap/TreeMap.jsx:54-60 | only the direct children are laid out, each exactly once, in order, from the parent's corner; no children gives no cells |
| TreeMap.LayoutFills | src/components/TreeMap/TreeMap.jsx:22-52 | the slices exactly fill the side being cut: the last cell ends on the parent's far edge |
| TreeMap.SlicesOverlapArea | src/components/TreeMap/TreeMap.jsx:31-34 | every cell takes the parent's whole area, so two children on a 4 by 2 parent get cells 4 tall, twice the parent's height |
| HorizonChart.MaxMagnitude | src/components/HorizonChart/HorizonChart.jsx:30-31 | the larger magnitude of the extent's ends: non-negative, one of them, and bounding every value |
| HorizonChart.BandRanges | src/components/HorizonChart/HorizonChart.jsx:35-39 | band `i` runs from `i * bandSize` to `(i + 1) * bandSize` |
| HorizonChart.PositiveLayer | src/components/HorizonChart/HorizonChart.jsx:42-47 | a layer holds every value's part above the band's bottom, capped at one band, in input order |
| HorizonChart.NegativeLayer | src/components/HorizonChart/HorizonChart.jsx:49-54 | a layer holds every value's magnitude below minus the band's bottom, capped at one band |
| HorizonChart.ComputeLayers | src/components/HorizonChart/HorizonChart.jsx:28-60 | as many positive and negative layers as bands |
| HorizonChart.DomainHoldsValues | src/components/HorizonChart/HorizonChart.jsx:30-32 | the domain is symmetric, `[-max, max]`, and holds every value |
| HorizonChart.BandsContiguous | src/components/HorizonChart/HorizonChart.jsx:35-39 | the bands are contiguous from 0, each one band wide, the last ending at the largest magnitude |
| HorizonChart.LayerValuesBounded | src/components/HorizonChart/HorizonChart.jsx:42-54 | every layer value is between 0 and one band |
| HorizonChart.NegativeMirror | src/components/HorizonChart/HorizonChart.jsx:44-51 | the negative layers treat `-v` as the positive ones treat `v` |
| HorizonChart.LowIs | src/components/HorizonChart/HorizonChart.jsx:37 | the bottom of band `k` is `k * bandSize` |
| HorizonChart.SharesAt | src/components/HorizonChart/HorizonChart.jsx:42-47 | entry `i` of a value's shares is its share of band `i` |
| HorizonChart.SharesSum | src/components/HorizonChart/HorizonChart.jsx:42-47 | the first `k` bands together take `min(v, k * bandSize)` of a non-negative value |
| HorizonChart.BandStep | src/components/HorizonChart/HorizonChart.jsx:44 | the next band's share extends the covered part of a value by one band |
| HorizonChart.ColumnShares | src/components/HorizonChart/HorizonChart.jsx:42-54 | a value's entries across the positive layers are its shares, and across the negative ones its negation's shares |
| HorizonChart.ValueSplit | src/components/HorizonChart/HorizonChart.jsx:42-54 | a non-negative value within the bands is exactly the sum of its shares, and the negative layers take none of it |
| HorizonChart.WholeBands | src/components/HorizonChart/HorizonChart.jsx:35-38 | `bands` bands of `max / bands` reach exactly `max` |
| HorizonChart.LayerEntries | src/components/HorizonChart/HorizonChart.jsx:42-54 | entry `k` of layer `i` is value `k`'s share of band `i` |
| HorizonChart.PositiveDecomposition | src/components/HorizonChart/HorizonChart.jsx:42-54 | a non-negative value is split exactly across the positive layers and appears in no negative layer |
| HorizonChart.AbsentFromNegative | src/components/HorizonChart/HorizonChart.jsx:49-54 | a non-negative value contributes zero to every negative layer |
| HorizonChart.NegativeDecomposition | src/components/HorizonChart/HorizonChart.jsx:42-54 | a negative value's magnitude is split exactly across the negative layers and it appears in no positive layer |
| HorizonChart.AbsentFromPositive | src/components/HorizonChart/HorizonChart.jsx:42-47 | a negative value contributes zero to every positive layer |
| TreeMap.SlicedEnd | src/components/TreeMap/TreeMap.jsx:22-52 | slices laid end to end from the running corner end exactly the children's shares of the cut side, all together, after it |
| KernelDensity.KernelBounds | src/components/RidgelinePlot/RidgelinePlot.jsx:65-67 | for a positive bandwidth the Epanechnikov kernel lies between 0 and its peak `0.75 / k`, takes the peak at 0, and is positive exactly strictly inside the window `-k < v < k` |
| KernelDensity.KernelSymmetric | src/components/ViolinPlot/ViolinPlot.jsx:86-88 | the kernel is symmetric: `kernel(-v) == kernel(v)` |
| KernelDensity.Terms | src/components/RidgelinePlot/RidgelinePlot.jsx:60 | one kernel term per sample value |
| KernelDensity.MeanBounds | src/components/RidgelinePlot/RidgelinePlot.jsx:60 | the density at any point lies between 0 and the kernel's peak, and is positive whenever a sample value lies strictly within one bandwidth |
| KernelDensity.Estimate | src/components/ViolinPlot/ViolinPlot.jsx:80-84 | one `[x, density]` pair per grid point |
| KernelDensity.EstimateBounds | src/components/ViolinPlot/ViolinPlot.jsx:80-84 | the estimate keeps the grid as its `x` values, in order, and every density lies between 0 and the peak |
| KernelDensity.MaxDensityPositive | src/components/RidgelinePlot/RidgelinePlot.jsx:41 | when the grid holds a sample value the largest density is positive, so dividing by it is defined |
| RidgelinePlot.Grid | src/components/RidgelinePlot/RidgelinePlot.jsx:59 | the grid has the estimator's 100 points |
| RidgelinePlot.GridShape | src/components/RidgelinePlot/RidgelinePlot.jsx:57-59 | the grid starts at the sample's minimum, ends at its maximum, is evenly spaced by `(max - min) / 99` and ascends |
| RidgelinePlot.Density | src/components/RidgelinePlot/RidgelinePlot.jsx:55-63 | `kde(values)` has one pair per grid point |
| RidgelinePlot.DensityPositive | src/components/RidgelinePlot/RidgelinePlot.jsx:41-42 | a group's largest density is positive, since the first grid point is its smallest value |
| RidgelinePlot.Normalise | src/components/RidgelinePlot/RidgelinePlot.jsx:42 | normalising keeps the number of points |
| RidgelinePlot.NormaliseBounds | src/components/RidgelinePlot/RidgelinePlot.jsx:42 | dividing non-negative densities by their maximum puts each in `[0, 1]` and brings the largest to exactly 1 |
| RidgelinePlot.Normalised | src/components/RidgelinePlot/RidgelinePlot.jsx:38-42 | after normalisation every density of a group lies in `[0, 1]` and one of them is 1 |
| RidgelinePlot.ColorAt | src/components/RidgelinePlot/RidgelinePlot.jsx:47 | `colors[i % colors.length]` is one of the colours, and is undefined exactly when there are none |
| RidgelinePlot.ComputeDistributions | src/components/RidgelinePlot/RidgelinePlot.jsx:26-53 | one entry per group |
| RidgelinePlot.DistributionsShape | src/components/RidgelinePlot/RidgelinePlot.jsx:36-50 | entry `i` keeps group `i`'s key and position, takes colour `i` cyclically, and its grid runs from the group's smallest to its largest value |
| RidgelinePlot.XDomain | src/components/RidgelinePlot/RidgelinePlot.jsx:28-29 | the extent is defined exactly when some group has a value |
| RidgelinePlot.XDomainHolds | src/components/RidgelinePlot/RidgelinePlot.jsx:28-30 | the x domain holds every value of every group, and both its ends are values |
| RidgelinePlot.ValueListed | src/components/RidgelinePlot/RidgelinePlot.jsx:28 | the flattened list holds every value of every group |
| ViolinPlot.ScaleDensity | src/components/ViolinPlot/ViolinPlot.jsx:61-66 | scaling keeps the number of points |
| ViolinPlot.Density | src/components/ViolinPlot/ViolinPlot.jsx:43-47 | the estimate with bandwidth 7 has one pair per tick |
| ViolinPlot.ScaleBounds | src/components/ViolinPlot/ViolinPlot.jsx:61-66 | scaling keeps every `y` and puts every half-width in `[0, xMax]`, the widest point at exactly `xMax` |
| ViolinPlot.ScaledBounds | src/components/ViolinPlot/ViolinPlot.jsx:41-66 | a group's scaled estimate keeps the ticks as its `y` values, stays within half a band and reaches it |
| ViolinPlot.ComputeDistributions | src/components/ViolinPlot/ViolinPlot.jsx:24-78 | one entry per group key, in key order, each at its band position with one point per tick |
| ViolinPlot.RightSide | src/components/ViolinPlot/ViolinPlot.jsx:100 | one outline point per density point |
| ViolinPlot.LeftSide | src/components/ViolinPlot/ViolinPlot.jsx:101 | one outline point per density point |
| ViolinPlot.StoredDistribution.constructor | src/components/ViolinPlot/ViolinPlot.jsx:68-73 | the stored entry holds the group's position and a fresh array of its density |
| ViolinPlot.StoredDistribution.ReverseDensity | src/components/ViolinPlot/ViolinPlot.jsx:101 | `reverse()` reverses the stored array in place |
| ViolinPlot.StoredDistribution.CreateViolinPath | src/components/ViolinPlot/ViolinPlot.jsx:90-103 | the outline is the right side in stored order then the left side reversed, and the stored density is left reversed |
| ViolinPlot.OutlineCloses | src/components/ViolinPlot/ViolinPlot.jsx:99-102 | the outline has twice the points; point `i` is `x + d` at the `i`-th height and its mirror `x - d` sits at the same distance from the end |
| ViolinPlot.SecondCallFlips | src/components/ViolinPlot/ViolinPlot.jsx:101 | since `reverse()` mutates the stored array, a second call's right side runs the other way; reversing twice restores the data |
| NetworkGraph.Impulse | src/components/NetworkGraph/NetworkGraph.jsx:81-90 | two nodes at the same place exchange no impulse, since the `distance > 0` guard skips them |
| NetworkGraph.Repulsion | src/components/NetworkGraph/NetworkGraph.jsx:81-90 | coincident nodes repel with zero impulse |
| NetworkGraph.RepulsionAntisymmetric | src/components/NetworkGraph/NetworkGraph.jsx:81-89 | swapping the two nodes negates the repulsive impulse |
| NetworkGraph.Exchange | src/components/NetworkGraph/NetworkGraph.jsx:86-89 | one node loses what the other gains; the node count is kept |
| NetworkGraph.Pair | src/components/NetworkGraph/NetworkGraph.jsx:79-92 | visiting one ordered pair keeps the node count |
| NetworkGraph.RepelRow | src/components/NetworkGraph/NetworkGraph.jsx:79-92 | one row of the inner loop keeps the node count |
| NetworkGraph.RepelAll | src/components/NetworkGraph/NetworkGraph.jsx:78-93 | the repulsion loops keep the node count |
| NetworkGraph.Attract | src/components/NetworkGraph/NetworkGraph.jsx:96-109 | one link's attraction keeps the node count |
| NetworkGraph.AttractAll | src/components/NetworkGraph/NetworkGraph.jsx:96-109 | the link loop keeps the node count |
| NetworkGraph.Clamp | src/components/NetworkGraph/NetworkGraph.jsx:119-120 | `Math.max(lo, Math.min(hi, v))` lands in `[lo, hi]` when that is non-empty and leaves a value already inside unchanged |
| NetworkGraph.SettleAll | src/components/NetworkGraph/NetworkGraph.jsx:112-121 | settling keeps the node count |
| NetworkGraph.Forces | src/components/NetworkGraph/NetworkGraph.jsx:75-109 | the force phase keeps the node count |
| NetworkGraph.Step | src/components/NetworkGraph/NetworkGraph.jsx:72-122 | a step keeps the node count |
| NetworkGraph.Steps | src/components/NetworkGraph/NetworkGraph.jsx:54-63 | repeated steps keep the node count |
| NetworkGraph.MomentumUpdate | src/components/NetworkGraph/NetworkGraph.jsx:86-89 | changing one node's velocity changes the total momentum by the difference |
| NetworkGraph.ExchangeConserves | src/components/NetworkGraph/NetworkGraph.jsx:86-89 | an exchange between two distinct nodes keeps the total momentum |
| NetworkGraph.RepelRowConserves | src/components/NetworkGraph/NetworkGraph.jsx:79-92 | a row of repulsions keeps the total momentum |
| NetworkGraph.RepelAllConserves | src/components/NetworkGraph/NetworkGraph.jsx:78-93 | the repulsion loops keep the total momentum |
| NetworkGraph.AttractEffect | src/components/NetworkGraph/NetworkGraph.jsx:99-108 | a link moves `0.1 * (dx, dy)` of velocity from its target to its source when they are apart, and touches no other node |
| NetworkGraph.AttractConserves | src/components/NetworkGraph/NetworkGraph.jsx:96-109 | one link's attraction keeps the total momentum, a self-link included |
| NetworkGraph.AttractAllConserves | src/components/NetworkGraph/NetworkGraph.jsx:96-109 | the link loop keeps the total momentum |
| NetworkGraph.ForcesConserve | src/components/NetworkGraph/NetworkGraph.jsx:77-109 | the whole force phase keeps the total momentum |
| NetworkGraph.StepDampsMomentum | src/components/NetworkGraph/NetworkGraph.jsx:112-114 | one step scales the total momentum by 0.9 |
| NetworkGraph.RestStaysBalanced | src/components/NetworkGraph/NetworkGraph.jsx:31-63 | nodes started at rest keep a total momentum of zero over any number of steps |
| NetworkGraph.RepelKeepsPlaces | src/components/NetworkGraph/NetworkGraph.jsx:79-92 | a row of repulsions changes velocities only |
| NetworkGraph.RepelAllKeepsPlaces | src/components/NetworkGraph/NetworkGraph.jsx:78-93 | the repulsion loops change velocities only |
| NetworkGraph.AttractKeepsPlaces | src/components/NetworkGraph/NetworkGraph.jsx:96-109 | the link loop changes velocities only |
| NetworkGraph.StepMoves | src/components/NetworkGraph/NetworkGraph.jsx:112-121 | each new velocity is the force phase's times 0.9, each node moves by it from where it was and is clamped 30 inside the area, which holds it whenever the area is at least 60 by 60 |
| NetworkGraph.TwoNodeVisits | src/components/NetworkGraph/NetworkGraph.jsx:78-93 | with two nodes the loops visit `(0, 1)` then `(1, 0)`; self-visits do nothing |
| NetworkGraph.PairVisitedTwice | src/components/NetworkGraph/NetworkGraph.jsx:78-93 | each unordered pair is visited twice, so two nodes apart exchange twice one visit's impulse |
| NetworkGraph.Simulation.constructor | src/components/NetworkGraph/NetworkGraph.jsx:24-36 | every node starts at its given position with zero velocity |
| NetworkGraph.Simulation.ApplyForces | src/components/NetworkGraph/NetworkGraph.jsx:72-122 | the in-place loops leave the node array equal to one specified step of the old one |
| NetworkGraph.Simulation.VisitPair | src/components/NetworkGraph/NetworkGraph.jsx:80-91 | the inner loop body updates the array to that pair's visit |
| NetworkGraph.Simulation.PullLink | src/components/NetworkGraph/NetworkGraph.jsx:97-108 | the link loop body updates the array to that link's attraction |
| CalendarHeatmap.DaysIn | src/components/CalendarHeatmap/CalendarHeatmap.jsx:44 | a month has 28 to 31 days, and February has 29 exactly in a Gregorian leap year |
| CalendarHeatmap.NewYearWeekday | src/components/CalendarHeatmap/CalendarHeatmap.jsx:18-26 | the weekday of 1 January is one of the seven |
| CalendarHeatmap.Weekday | src/components/CalendarHeatmap/CalendarHeatmap.jsx:26 | `getDay()` is one of the seven weekdays, 0 for Sunday |
| CalendarHeatmap.NextDay | src/components/CalendarHeatmap/CalendarHeatmap.jsx:44 | `setDate(getDate() + 1)` on a valid date gives a valid date |
| CalendarHeatmap.Dates | src/components/CalendarHeatmap/CalendarHeatmap.jsx:18-25 | the months before `m` hold as many dates as the days before month `m` |
| CalendarHeatmap.YearCells | src/components/CalendarHeatmap/CalendarHeatmap.jsx:39-42 | one cell per day of the year |
| CalendarHeatmap.MonthStartGrows | src/components/CalendarHeatmap/CalendarHeatmap.jsx:44 | later months start later in the year |
| CalendarHeatmap.DatesAt | src/components/CalendarHeatmap/CalendarHeatmap.jsx:18-25 | entry `k` is a valid date of the year in an earlier month, whose position in the year is `k` |
| CalendarHeatmap.DatesFind | src/components/CalendarHeatmap/CalendarHeatmap.jsx:18-25 | every valid date of those months is listed, at its position |
| CalendarHeatmap.YearListsEachDay | src/components/CalendarHeatmap/CalendarHeatmap.jsx:18-25 | a date is listed exactly when it is a valid date of the year, and then at its position |
| CalendarHeatmap.YearLength | src/components/CalendarHeatmap/CalendarHeatmap.jsx:18-25 | the loop walks 366 days in a leap year and 365 otherwise |
| CalendarHeatmap.NextDayAdvances | src/components/CalendarHeatmap/CalendarHeatmap.jsx:44 | before 31 December the next day stays in the year, at the next position and the next weekday |
| CalendarHeatmap.YearInOrder | src/components/CalendarHeatmap/CalendarHeatmap.jsx:25-45 | each listed date is the day after the one before it |
| CalendarHeatmap.YearEnds | src/components/CalendarHeatmap/CalendarHeatmap.jsx:18-25 | the walk starts at 1 January and ends at 31 December, whose next day fails `currentDate <= endDate` |
| CalendarHeatmap.CellsValid | src/components/CalendarHeatmap/CalendarHeatmap.jsx:39-42 | every cell holds a valid date |
| CalendarHeatmap.VisitAppends | src/components/CalendarHeatmap/CalendarHeatmap.jsx:26-42 | one visit appends the day at the end of everything the state holds |
| CalendarHeatmap.StepAppends | src/components/CalendarHeatmap/CalendarHeatmap.jsx:26-42 | whichever of the two closing conditions hold, the new day lands at the end |
| CalendarHeatmap.CloseWeekFlat | src/components/CalendarHeatmap/CalendarHeatmap.jsx:26-29 | closing the week moves its days into the month and keeps their order |
| CalendarHeatmap.CloseMonthFlat | src/components/CalendarHeatmap/CalendarHeatmap.jsx:31-37 | closing the month moves its weeks into the list of months and keeps their order |
| CalendarHeatmap.RunKeepsDays | src/components/CalendarHeatmap/CalendarHeatmap.jsx:25-45 | the loop loses no day and repeats none: its state holds the visited days in order |
| CalendarHeatmap.FinishKeepsDays | src/components/CalendarHeatmap/CalendarHeatmap.jsx:47-55 | the final pushes keep every day, in order |
| CalendarHeatmap.ShapedCount | src/components/CalendarHeatmap/CalendarHeatmap.jsx:26-29 | within a week the weekday grows by one per day |
| CalendarHeatmap.ShapedShort | src/components/CalendarHeatmap/CalendarHeatmap.jsx:26-29 | a week never holds more than seven days |
| CalendarHeatmap.FirstVisit | src/components/CalendarHeatmap/CalendarHeatmap.jsx:25-42 | after visiting 1 January the loop's invariant holds |
| CalendarHeatmap.ShapedPush | src/components/CalendarHeatmap/CalendarHeatmap.jsx:27 | pushing a well-shaped week keeps the month well shaped |
| CalendarHeatmap.ClosedPush | src/components/CalendarHeatmap/CalendarHeatmap.jsx:32-35 | pushing month `i` after months 0 to `i - 1` keeps the months numbered in order |
| CalendarHeatmap.WeekExtend | src/components/CalendarHeatmap/CalendarHeatmap.jsx:39-42 | a non-Sunday that follows the week's last day extends the week |
| CalendarHeatmap.VisitProgress | src/components/CalendarHeatmap/CalendarHeatmap.jsx:25-45 | visiting the next day keeps the loop's invariant |
| CalendarHeatmap.CellsInOrder | src/components/CalendarHeatmap/CalendarHeatmap.jsx:25-45 | consecutive cells are consecutive days, the earlier one not 31 December |
| CalendarHeatmap.RunExtend | src/components/CalendarHeatmap/CalendarHeatmap.jsx:25-45 | one more cell is one more visit |
| CalendarHeatmap.RunProgress | src/components/CalendarHeatmap/CalendarHeatmap.jsx:25-45 | after the first `n` days the loop's invariant holds |
| CalendarHeatmap.LayoutShape | src/components/CalendarHeatmap/CalendarHeatmap.jsx:15-58 | the layout has twelve months labelled 0 to 11 in order, made of well-shaped weeks of which every one but the year's first begins on a Sunday, holding every day of the year exactly once in order |
| CalendarHeatmap.WeekLength | src/components/CalendarHeatmap/CalendarHeatmap.jsx:26-49 | every week of the layout holds one to seven days |
| CalendarHeatmap.TrailingDaysJoin | src/components/CalendarHeatmap/CalendarHeatmap.jsx:26-39 | when a month starts mid-week, the previous month's last days stay in the week in progress and are drawn with the new month |
| CalendarHeatmap.WeekKept | src/components/CalendarHeatmap/CalendarHeatmap.jsx:26-42 | a day that is not a Sunday joins the week in progress |
| CalendarHeatmap.VisitDay | src/components/CalendarHeatmap/CalendarHeatmap.jsx:26-42 | the loop body updates the three variables as one specified visit |
| CalendarHeatmap.ComputeLayout | src/components/CalendarHeatmap/CalendarHeatmap.jsx:15-58 | the effect's loop produces exactly the specified layout |
| CalendarHeatmap.FinishMonths | src/components/CalendarHeatmap/CalendarHeatmap.jsx:47-55 | the final pushes produce the specified closing of the layout |
| VehicleLocationMap.RunEnd | src/components/VehicleLocationMap.jsx:32 | `\d+` is greedy: the run covers digits only and stops at the first non-digit |
| VehicleLocationMap.NumberAt | src/components/VehicleLocationMap.jsx:32 | a number matched by `-?\d+\.\d+` is well formed and ends after where it started |
| VehicleLocationMap.Attempts | src/components/VehicleLocationMap.jsx:32 | one match attempt per starting position, the end of the text included |
| VehicleLocationMap.Search | src/components/VehicleLocationMap.jsx:32-33 | when `match` succeeds both captured groups are well-formed numbers |
| VehicleLocationMap.NumberText | src/components/VehicleLocationMap.jsx:32 | a number read at a position is exactly the text from there to its end |
| VehicleLocationMap.MatchIsPoint | src/components/VehicleLocationMap.jsx:32 | a match at a position is the text `POINT (lng lat)` there |
| VehicleLocationMap.MatchAtSome | src/components/VehicleLocationMap.jsx:32 | a match is the prefix, a number, a space, a number and a closing parenthesis |
| VehicleLocationMap.PointAt | src/components/VehicleLocationMap.jsx:32 | those pieces, put together, spell `POINT (lng lat)` at the match's position |
| VehicleLocationMap.PointText | src/components/VehicleLocationMap.jsx:32 | the pieces of a match, in place, are the text of the match and end at its closing parenthesis |
| VehicleLocationMap.RunEndAt | src/components/VehicleLocationMap.jsx:32 | a digit run that ends at a non-digit is the greedy run |
| VehicleLocationMap.RenderedNumber | src/components/VehicleLocationMap.jsx:32 | the text of a number followed by no digit is read back as that number, ending after its text |
| VehicleLocationMap.NumberAtParts | src/components/VehicleLocationMap.jsx:32 | the sign, the digits before the dot and the digits after it make up the matched number |
| VehicleLocationMap.MatchAtParts | src/components/VehicleLocationMap.jsx:32 | the prefix and two numbers with their separators are a match |
| VehicleLocationMap.PointMatches | src/components/VehicleLocationMap.jsx:32 | conversely, the text `POINT (lng lat)` of two well-formed numbers is a match there |
| VehicleLocationMap.PointPieces | src/components/VehicleLocationMap.jsx:32 | inside `POINT (lng lat)` the prefix, the numbers and the separators sit where the pattern reads them |
| VehicleLocationMap.FirstFound | src/components/VehicleLocationMap.jsx:32 | `match` reports the first position where the pattern matches and none before it |
| VehicleLocationMap.MatchNeedsDot | src/components/VehicleLocationMap.jsx:32 | a match needs a '.' in the text |
| VehicleLocationMap.NoPrefixNoLocation | src/components/VehicleLocationMap.jsx:32-33 | a text without "POINT (" (such as "POINT(1.5 2.5)") gives no location |
| VehicleLocationMap.NoFractionNoLocation | src/components/VehicleLocationMap.jsx:32-33 | a text without a '.' (whole numbers, "POINT (1 2)") gives no location |
| VehicleLocationMap.PointLocation | src/components/VehicleLocationMap.jsx:32-40 | a text starting `POINT (lng lat)` is located at `[lat, lng]`: the second number is the latitude |
| VehicleLocationMap.ExampleLocation | src/components/VehicleLocationMap.jsx:31-40 | "POINT (-122.30839 47.610365)" places the marker at latitude 47.610365, longitude -122.30839 |
| VehicleLocationMap.AllLocated | src/components/VehicleLocationMap.jsx:27-50 | no more located rows than rows |
| VehicleLocationMap.Markers | src/components/VehicleLocationMap.jsx:38-48 | one marker per located row |
| VehicleLocationMap.MarkersAppend | src/components/VehicleLocationMap.jsx:38-48 | the next marker is numbered by the count of markers before it |
| VehicleLocationMap.AllLocatedAppend | src/components/VehicleLocationMap.jsx:27-50 | the located rows of two runs of rows are those of the first then those of the second |
| VehicleLocationMap.SampleShape | src/components/VehicleLocationMap.jsx:22-48 | the sample holds the first `min(200, located)` located rows at `[lat, lng]`, keyed by the count exactly when "DOL Vehicle ID" is falsy |
| VehicleLocationMap.LocatedRows | src/components/VehicleLocationMap.jsx:29-37 | a row is located exactly when its "Vehicle Location" is non-empty and matches |
| VehicleLocationMap.LaterRowsIgnored | src/components/VehicleLocationMap.jsx:27 | once 200 markers are collected the rows after are never read |
| VehicleLocationMap.UnlocatedRowIgnored | src/components/VehicleLocationMap.jsx:29-33 | a row without a location does not advance the count |
| VehicleLocationMap.ScanStep | src/components/VehicleLocationMap.jsx:27-50 | scanning one more row adds its location, if it has one |
| VehicleLocationMap.ScanDone | src/components/VehicleLocationMap.jsx:27 | where the loop stops, at the end of the rows or with 200 markers, it has the sample |
| VehicleLocationMap.ProcessData | src/components/VehicleLocationMap.jsx:18-60 | with no rows the effect sets nothing; otherwise the loop collects exactly the sample |
| ParallelCoordinates.ScaleOfBounds | src/components/ParallelCoordinates/ParallelCoordinates.jsx:29-35 | a numeric axis spans exactly the column's smallest to largest value, both attained; a categorical axis runs from 0 to the row count minus one and lists each distinct value of the column once, in order of first appearance in the column |
| ParallelCoordinates.ScalesCover | src/components/ParallelCoordinates/ParallelCoordinates.jsx:27-37 | every dimension's key gets a scale and no other key does; with distinct keys each key holds its own dimension's scale |
| ParallelCoordinates.ScalesKeys | src/components/ParallelCoordinates/ParallelCoordinates.jsx:27-36 | the keys of `newScales` are exactly the dimensions' keys |
| ParallelCoordinates.ScalesOwn | src/components/ParallelCoordinates/ParallelCoordinates.jsx:27-36 | with distinct keys no later dimension overwrites an earlier one's scale |
| ParallelCoordinates.GetY | src/components/ParallelCoordinates/ParallelCoordinates.jsx:40-57 | a dimension without a scale puts every value at 0 |
| ParallelCoordinates.NumberAxis | src/components/ParallelCoordinates/ParallelCoordinates.jsx:46-50 | a numeric axis puts its minimum at the bottom padding and its maximum at the top, larger values higher |
| ParallelCoordinates.CategoryAxis | src/components/ParallelCoordinates/ParallelCoordinates.jsx:51-55 | category `i` of `n` sits `i / (n - 1)` of the way down, the first at the top padding and the last at the bottom |
| ParallelCoordinates.CategoryEnds | src/components/ParallelCoordinates/ParallelCoordinates.jsx:51-55 | the first category is at the top padding and the last at the bottom padding |
| ParallelCoordinates.CategoryY | src/components/ParallelCoordinates/ParallelCoordinates.jsx:52-55 | a categorical value sits by its `indexOf` among the categories |
| ParallelCoordinates.Line | src/components/ParallelCoordinates/ParallelCoordinates.jsx:59-67 | one vertex per dimension, a move to the first and lines to the rest, each on its axis |
| ParallelCoordinates.AxisSpacing | src/components/ParallelCoordinates/ParallelCoordinates.jsx:22-62 | the axes stand one axis width apart, from the left padding to the right padding |
| ParallelCoordinates.LastAxis | src/components/ParallelCoordinates/ParallelCoordinates.jsx:22-23 | the last axis stands at the right padding |
| ParallelCoordinates.LineHeights | src/components/ParallelCoordinates/ParallelCoordinates.jsx:63 | each vertex is at the item's value on that axis |
| ParallelCoordinates.LineShape | src/components/ParallelCoordinates/ParallelCoordinates.jsx:59-67 | the path moves to the left padding and draws to each next axis one axis width on, ending at the right padding |
| ParallelCoordinates.BrushNarrows | src/components/ParallelCoordinates/ParallelCoordinates.jsx:83-102 | with no brush every line shows; brushing a key shows exactly the lines that the other brushes show and that pass the new extent |
| ParallelCoordinates.Chart.constructor | src/components/ParallelCoordinates/ParallelCoordinates.jsx:17-20 | no scales, no hover, no selection and no brushes at first |
| ParallelCoordinates.Chart.ComputeScales | src/components/ParallelCoordinates/ParallelCoordinates.jsx:25-38 | the effect replaces the scales by one per dimension and touches nothing else |
| ParallelCoordinates.Chart.MouseMove | src/components/ParallelCoordinates/ParallelCoordinates.jsx:69-81 | the hovered line becomes the item, and the selected axis becomes the rounded index's dimension when that index is in range, else stays |
| ParallelCoordinates.Chart.MouseLeave | src/components/ParallelCoordinates/ParallelCoordinates.jsx:117-120 | leaving clears the hover and the selection |
| ParallelCoordinates.Chart.Brush | src/components/ParallelCoordinates/ParallelCoordinates.jsx:83-88 | a brush replaces one key's extent and keeps every other |
| ParallelCoordinates.NearestAxis | src/components/ParallelCoordinates/ParallelCoordinates.jsx:74-78 | the axis picked for a given x offset is the one nearest it: within half an axis width of that x |
| CircularProgress.ProgressBounds | src/components/CircularProgress/CircularProgress.jsx:27-28 | progress starts at 0, never goes back, stays at most 1 and is 1 from one second on |
| CircularProgress.Frame | src/components/CircularProgress/CircularProgress.jsx:30-33 | one shown item per datum |
| CircularProgress.Still | src/components/CircularProgress/CircularProgress.jsx:44-46 | one shown item per datum |
| CircularProgress.FrameBounds | src/components/CircularProgress/CircularProgress.jsx:13-46 | the initial state is the frame at time 0; a non-negative value shows between 0 and itself and grows frame by frame; from one second on the frame is the still picture |
| CircularProgress.TotalIsSum | src/components/CircularProgress/CircularProgress.jsx:67 | the reduce is the sum of the values |
| CircularProgress.LabelBounds | src/components/CircularProgress/CircularProgress.jsx:115-123 | a label shows exactly above a tenth of the total, reads the share in percent rounded, and reads 10 to 100 for shares of at most the whole |
| CircularProgress.Segments | src/components/CircularProgress/CircularProgress.jsx:68-130 | the render loop threading `currentAngle` from twelve o'clock lays the segments end to end, each spanning its share of the turn, with its large-arc flag and label |
| CircularProgress.AngleAdd | src/components/CircularProgress/CircularProgress.jsx:90-128 | the angle of a sum of values is the sum of their angles |
| CircularProgress.SegmentStart | src/components/CircularProgress/CircularProgress.jsx:68-128 | segment `k` starts past twelve o'clock by the share of the turn the values before it take |
| CircularProgress.SegmentEnd | src/components/CircularProgress/CircularProgress.jsx:90-95 | segment `k` ends past twelve o'clock by the share of the turn it and the values before it take |
| CircularProgress.StillSum | src/components/CircularProgress/CircularProgress.jsx:44-67 | the still picture shows the values that make up the total |
| CircularProgress.StillRingCloses | src/components/CircularProgress/CircularProgress.jsx:89-130 | with the still picture, or the last animation frame, the last segment ends a full turn after twelve o'clock |
| CircularProgress.WholeTurn | src/components/CircularProgress/CircularProgress.jsx:90 | the total spans the whole turn |
| CircularProgress.LargeArcOverHalf | src/components/CircularProgress/CircularProgress.jsx:59 | over a positive total a segment takes the large-arc flag exactly when it shows more than half the total |
| PolarArea.Radii | src/components/PolarArea/PolarArea.jsx:32-49 | one outer radius per value |
| PolarArea.RadiiAt | src/components/PolarArea/PolarArea.jsx:32-49 | radius `i` is value `i` on the scale from `[0, max]` to `[innerRadius, radius]` |
| PolarArea.Layout | src/components/PolarArea/PolarArea.jsx:25-60 | one wedge per datum |
| PolarArea.LayoutKeeps | src/components/PolarArea/PolarArea.jsx:46-57 | each wedge keeps its datum and the given inner radius and takes colour `i` cyclically, undefined without colours |
| PolarArea.WedgeAngles | src/components/PolarArea/PolarArea.jsx:38-48 | the wedges are equal, `2π / n` wide, follow one another without gaps and close the circle |
| PolarArea.LayoutAngles | src/components/PolarArea/PolarArea.jsx:38-48 | wedge `i` runs from the angle scale at `i` to the angle scale at `i + 1` |
| PolarArea.EvenWedges | src/components/PolarArea/PolarArea.jsx:38-48 | wedges placed by the angle scale are spread evenly round the circle |
| PolarArea.Steps | src/components/PolarArea/PolarArea.jsx:38-48 | the angle scale puts `i` at `i` steps and `i + 1` one step further |
| PolarArea.AngleAt | src/components/PolarArea/PolarArea.jsx:38-42 | the angle scale puts `i` at `i` steps |
| PolarArea.FullTurn | src/components/PolarArea/PolarArea.jsx:38-42 | `n` steps make a full turn |
| PolarArea.OuterRadii | src/components/PolarArea/PolarArea.jsx:32-49 | with a positive largest value a zero value reaches only the inner radius, the largest reaches the plot radius, non-negative values stay between them, and larger values reach further |
| PolarArea.AxisAndLabel | src/components/PolarArea/PolarArea.jsx:76-95 | the axis and the label point at the wedge's middle angle, strictly inside the wedge, and the label stands 10 beyond the axis' end |
| SpiralPlot.Layout | src/components/SpiralPlot/SpiralPlot.jsx:25-57 | one point per datum |
| SpiralPlot.LayoutAt | src/components/SpiralPlot/SpiralPlot.jsx:39-54 | point `i` is datum `i` placed by its index, on the value scale from `[0, max]` to `[0, radius]` |
| SpiralPlot.CycleIndex | src/components/SpiralPlot/SpiralPlot.jsx:40-52 | the turn and the place within it recover the index, the place is below `cycles`, and the point keeps its datum |
| SpiralPlot.AngleInTurn | src/components/SpiralPlot/SpiralPlot.jsx:41 | the angle lies in `[0, 2π)` |
| SpiralPlot.SpiralGrows | src/components/SpiralPlot/SpiralPlot.jsx:40-42 | later points are never on an earlier turn, nor closer in by turn |
| SpiralPlot.ValueOffset | src/components/SpiralPlot/SpiralPlot.jsx:42-43 | with a positive largest value a zero value adds nothing to the turn's radius, the largest adds the whole radius, and values in between add in between |
| SpiralPlot.ColorRule | src/components/SpiralPlot/SpiralPlot.jsx:67-72 | points at the same place of every turn share a colour, cyclic in the place; only points off the selected turn are darkened |
| RadarChart.AxisAngles | src/components/RadarChart/RadarChart.jsx:12-17 | axis 0 points straight up, each next axis is one step of `2π / n` further round, and axis `n` comes back a full turn on |
| RadarChart.PointDistance | src/components/RadarChart/RadarChart.jsx:18 | a value sits at its share of `maxValue` along the radius: 0 at the centre, `maxValue` on the rim, larger values further out, values in `[0, maxValue]` inside the chart |
| RadarChart.Trace | src/components/RadarChart/RadarChart.jsx:27-30 | one command per value |
| RadarChart.PathShape | src/components/RadarChart/RadarChart.jsx:25-32 | the path moves to the first value's point, draws a line to each next value's point on its own axis, and closes with `Z` |
| RadarChart.Ring | src/components/RadarChart/RadarChart.jsx:47-52 | one vertex per category |
| RadarChart.AxisEnds | src/components/RadarChart/RadarChart.jsx:59-71 | one axis end per category |
| RadarChart.LabelPoints | src/components/RadarChart/RadarChart.jsx:103-104 | one label per category |
| RadarChart.GridAndLabels | src/components/RadarChart/RadarChart.jsx:44-104 | ring `i` crosses every axis at `(i + 1) / 5` of the radius, the outer ring runs through the axis ends, opacities stay in `[0.1, 0.5]`, and each label stands a fifth of the radius beyond its axis |
| GaugeChart.RotationBounds | src/components/Gauge/GaugeChart.jsx:16-17 | the dial turns from 0 degrees at `min` to 180 at `max`, stays in `[0, 180]` in between, and turns further for larger values |
| GaugeChart.FirstAtLeast | src/components/Gauge/GaugeChart.jsx:20 | `find` returns the first threshold at or above the value, every earlier one being below it, or nothing when every threshold is below it |
| GaugeChart.ColorBands | src/components/Gauge/GaugeChart.jsx:19-24 | with ascending thresholds a share in band `i` takes colour `i`, and a share above every threshold takes the last colour |
| GaugeChart.DefaultStroke | src/components/Gauge/GaugeChart.jsx:10-44 | with the default bands the dial's low end is red, its middle amber and its high end green |
| GaugeChart.RotationShare | src/components/Gauge/GaugeChart.jsx:16-17 | the rotation is the value's share of `[min, max]` times 180 degrees |
| GaugeChart.ArcFlag | src/components/Gauge/GaugeChart.jsx:40 | the value arc takes the large-arc flag exactly when the value is past the middle of `[min, max]` |
| GaugeChart.ArcEndX | src/components/Gauge/GaugeChart.jsx:41 | the arc's end x runs from 20 at `min` to 180 at `max`, staying in between and moving right as the value grows |
| GaugeChart.LegendBands | src/components/Gauge/GaugeChart.jsx:87-91 | each legend label reads back as its band, from the previous threshold (0 for the first) to its own, followed by '%' |
| TrendCard.IndicatorAgrees | src/components/TrendCard/TrendCard.jsx:5-13 | the arrow agrees with the trend type; the magnitude is non-negative, zero exactly for a neutral trend, and the same for a trend and its opposite, whose types are opposite |
| TrendCard.Sparkline | src/components/TrendCard/TrendCard.jsx:34-43 | one point per data value |
| TrendCard.SparkAcross | src/components/TrendCard/TrendCard.jsx:40 | the points run across from 0 to 100, evenly spaced |
| TrendCard.SparkUp | src/components/TrendCard/TrendCard.jsx:35-41 | every point lies between 5 and 30, the smallest values at 30 and the largest at 5, larger values higher |
| TrendCard.SparkPathLines | src/components/TrendCard/TrendCard.jsx:45 | the path starts with `M ` and draws one line for each point after the first |
| BubbleChart.ShareBounds | src/components/BubbleChart/BubbleChart.jsx:19-36 | a value's share of the extent is 0 at its minimum and 1 at its maximum, keeps order and stays in `[0, 1]` inside the extent |
| BubbleChart.Scales | src/components/BubbleChart/BubbleChart.jsx:15-37 | x runs from 40 to 760 and y from 360 up to 40 over the extent, the bubble size from 10 to 50, each monotone and staying within those ranges |
| BubbleChart.Bubbles | src/components/BubbleChart/BubbleChart.jsx:110-113 | one bubble per record |
| BubbleChart.BubblesInside | src/components/BubbleChart/BubbleChart.jsx:110-113 | every bubble is centred inside the padded plot area with a radius from 10 to 50, the smallest x value on the left edge and the largest on the right |
| BubbleChart.InExtent | src/components/BubbleChart/BubbleChart.jsx:17-18 | a column's values lie within its `Math.min` and `Math.max` |
| BubbleChart.AxisLabels | src/components/BubbleChart/BubbleChart.jsx:76-98 | the six labels run from the axis' `min` to its `max` in equal steps, and when the axis extent is the data's extent label `i` stands where the scale puts its value, at `40 + 144 i` across and `360 - 64 i` up |
| AvgRange.MeanBounds | src/components/AvgRange.jsx:11-12 | a total between `n·lo` and `n·hi`, divided by the count `n`, lies between `lo` and `hi` |
| CityChart.Ratio | src/components/CityChart.jsx:51-53 | a count no larger than `maxCount` gives a width ratio in (0, 1] |
| EvTypeChart.UpperTailOf | src/components/EVTypeChart.jsx:18 | a run of capitals after a non-capital is exactly the run `[A-Z]+` can take at the end |
| TrendsChart.PrefixTotalsRise | src/components/TrendsChart.jsx:21-28 | when every year has at least one row, a later running total is strictly larger than an earlier one |
| JsObject.TalliedDistinct | src/components/MakeBarchart.jsx:9-13 | the dictionary's keys are distinct and are exactly the counted values |
| JsObject.EntriesTallyProperties | src/components/MakeBarchart.jsx:9-16 | the rows of `Object.entries(tally)` name each counted value once, with its number of occurrences |
| JsObject.SplitPermutation | src/components/ModelYearChart.jsx:16 | putting the array-index keys before the other keys loses and adds no property |
| MatrixPlot.CategoriesPresent | src/components/MatrixPlot/MatrixPlot.jsx:81-82 | a non-empty column has at least one category |
| MatrixPlot.SingleDedup | src/components/MatrixPlot/MatrixPlot.jsx:81-82 | a column of one repeated value has exactly one category |
| ParallelSets.SinglePair | src/components/ParallelSets/ParallelSets.jsx:64-93 | with two dimensions the loop runs once, and its ribbons are all the ribbons |
| ParallelSets.NameAbsent | src/components/ParallelSets/ParallelSets.jsx:77-82 | `dimensionNodes.find` returns `undefined` for a name that is no value of the dimension's column |
| Text.Split | src/components/ParallelSets/ParallelSets.jsx:76 | `split` gives at least one piece and no piece holds the separator |
| Text.TrimStart | src/components/AvgRange.jsx:8 | `parseInt` skips a leading run of white space: what is left is a suffix that starts with no space |
| Text.NatToString | src/components/RangeHistogram.jsx:21 | the decimal text of a number is non-empty, all digits, and has no leading zero |
| Seqs.ReverseReverse | src/components/ViolinPlot/ViolinPlot.jsx:101 | reversing twice gives back the sequence |

## Left out

- Rendering: SVG and JSX markup, recharts components, legends, tooltips, hover and selection state, CSS classes and dark mode. None of it changes the numbers the model computes.
- Colours: `d3.color` brighter/darker, the Sunburst hue string, the Ridgeline and Spiral palettes beyond the index rule, and BubbleChart's colour scale.
- Number formatting: `toFixed` and `toLocaleString` are not modelled. Averages, percentages and labels are exact reals or integers.
- Trigonometry: the `cos`/`sin` endpoints of arcs, chords and polar points in ChordDiagram, Sunburst, CircularProgress, RadarChart, SpiralPlot, PolarArea and GaugeChart. Each chart is modelled by its angles and radii.
- Square roots: never computed. The Pearson coefficient and Cramér's V are returned as numerator and radicand, and NetworkGraph's `k` and distances are eliminated algebraically.
- Library layouts: d3's force simulation, pack, tree, treemap, stack, ticks, quantile, extent and curve interpolators. Scales are plain linear interpolation, and tick grids are inputs.
- Animation and time: the `requestAnimationFrame` loops, `performance.now` and `setTimeout`. The elapsed time is a parameter.
- NetworkGraph: `startAnimation` runs `animate` once, and `animate` tests the `simulation` state captured before `setSimulation` took effect. On the first mount that state is `null`, so no force is applied and no frame is requested. The frame loop is not modelled; `Steps` models repeated calls of `applyForces`.
- NetworkGraph: the `Math.random` start positions are constructor input.
- NetworkGraph: two list entries for the same node object would alias. The model keeps one value per entry, so this aliasing is not modelled.
- I/O: the CSV file, papaparse, `localStorage`, the DOM, window listeners and Leaflet tiles and markers. Records arrive as a parameter.
- JavaScript number semantics: `NaN`, `Infinity` and floating-point rounding are not modelled.
- Division by zero: wherever the source divides by zero and draws `NaN` or `Infinity`, the model requires a non-zero divisor. This applies to:
  - the Chord row totals (`ChordDiagram.Defined`);
  - the TreeMap `area / childWidth` and `area / childHeight` divisions, for a zero-valued child or a zero side (`TreeMap.Divisible`);
  - the Sunburst node values (`Sunburst.Divisible`);
  - the RadarChart `maxValue`, and the axis count `n` in `2π / n`;
  - the GaugeChart `max - min`;
  - the kernel-density maxima;
  - the TrendCard and BubbleChart extents;
  - the ParallelCoordinates `getY` scale span: a numeric axis needs `max != min` and a categorical one at least two categories (`ParallelCoordinates.Plottable`);
  - the ParallelCoordinates axis spacing `(width - 2 * padding) / (count - 1)`, which needs at least two dimensions;
  - the CircularProgress total of the values (`total != 0`);
  - the SpiralPlot `cycles` points per turn, which must be positive;
  - the DataTable `pageSize` in `Math.ceil(data.length / pageSize)`, which defaults to 10 but can be set to 0 by the caller;
  - the Timeline track width in `(e.clientX - rect.left) / rect.width`.

  The divisions by zero the charts are known to hit are stated as lemmas instead: MatrixPlot with a single category. For TreeMap, `TreeMap.ZeroShare` and `TreeMap.SplitSpan` show that a zero-valued child or a zero side gets a zero span, which is the divisor `TreeMap.Divisible` excludes.
- SankeyDiagram.StackColumn: a column whose values add up to zero gets `None`. The source divides by that zero total and gives its nodes `NaN` or infinite heights, which the model does not compute.
- SankeyDiagram.Layout: termination is proved for link sets that admit a ghost rank, which is exactly the acyclic ones. The infinite loop on a cycle is shown by lemmas, not by running a loop that never ends.
- Sunburst.SunburstChart.HandlePathClick: `parent` links are a map with a ghost depth that shows the walk reaches the root. A cyclic parent chain, which would loop forever, is excluded.
- HorizonChart.ComputeLayers: requires at least one value. On an empty array `d3.max` gives `undefined` and the source draws nothing.
- RangeHistogram.Histogram: with no kept range the source throws on a negative array length. The model returns `None` there.
- ModelYearChart.ChartData: a record whose "Model Year" is missing (the "undefined" key of a trailing empty CSV line) or not digits is counted like any other, but `a.year - b.year` is then `NaN` and the order of the sort is up to the engine. The model sorts such a year as 0 and promises ascending order only when every year is digits.
- TrendsChart.CumulativeData: for the same records the points are running totals over some order of the year rows; the model promises that they follow the ascending year rows only when every year is digits.
- JsObject.Tally: the counting dictionary is modelled as starting with no properties. In the source it is `{}`, which inherits the names of `Object.prototype`: for a key such as "constructor" or "toString", `acc[k] || 0` reads the inherited function and stores a string, and "__proto__" never becomes an own key. Such keys are not modelled.
- Text.StrLe: strings are compared by code point. JavaScript compares UTF-16 code units, which orders a character above U+FFFF before one from U+E000 to U+FFFF; the model orders it after.
- MatrixPlot: a `null` field has no encoding. `d3.mean` skips it while `null - xMean` reads it as 0. Parsed CSV text never holds `null`.
- ParallelSets: the node's `x: xScale(dim)`, from a `d3.scalePoint`, is not modelled; a dimension's position is its `dimensionIndex`, and the ribbon paths that read `x` are rendering.
- NetworkGraph.AttractAll: links must name nodes in range (`LinksIn`). A link whose `source` or `target` is out of range makes `simulation.nodes[...]` `undefined`, and `target.x - source.x` throws a TypeError; that error path is not modelled.
- PopularMakesChart.AllYears: a record without a "Model Year" field is read as the text "undefined" and sorted among the years by string order. In the source the value `undefined` stays apart from that text, and `.sort()` always puts it last; the row for it then has `year` `undefined`.
- ParallelCoordinates.Brushable: every brushed key must have a scale. In the source, `handleBrush` on a key without a scale would throw a TypeError reading `.min` of `undefined`; `handleBrush` is never wired to an event, so that path is not reached.
- ParallelCoordinates.NearestAxis: the pointer's x offset is a parameter. The source reads it as `clientX` minus the hovered path's bounding-box left edge, which is DOM input.
- DataTable: a row maps each column to its text (`Row = map<string, string>`). The source's comparator uses `<` and `>`, which compare numbers numerically; the table is only given parsed CSV text, so numeric cells are not modelled.
- CalendarHeatmap: the lookup key is `toISOString().split("T")[0]`, which is the UTC date. The model keys each day by its local calendar date, so the time zone shift near midnight UTC is not modelled.
- CalendarHeatmap: the weekday of 1 January comes from the model's own calendar arithmetic, with the Gregorian leap-year rule.
- GaugeChart.GetColor: requires at least one threshold. The source reads `.color` of `undefined` otherwise.
- GaugeChart: threshold values are whole numbers, as in the default thresholds. The source accepts any number, but the legend label needs a whole number to print.
- GaugeChart: the tick marks and `toLocaleString` of the value are not modelled.
- TrendCard.Sparkline: requires at least two points that are not all equal. The source divides by zero otherwise.
- BubbleChart: the grid and hover state are not modelled, and every record is assumed to carry the three keys.
- RadarChart: the point strings are not modelled; points are given as angle and distance.
- VehicleLocationMap: the Leaflet markers and popups are not modelled; the matcher covers only the `POINT (lng lat)` form that the regular expression accepts.
- DataTable and ParallelCoordinates: the React re-render after `setState` is modelled as the next method call on the class.
- Presentation-only components are not part of this model: Header, MetricBadge, ChartContainer, Dashboard, App, StatsGrid, FilterBar, Heatmap, TotalEVs, ForceGraph, PackedBubbles, Dendrogram, VoronoiTreemap, StreamGraph and MapVisualization.
