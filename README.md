# Health dashboard chart pipeline, in Dafny

This project models the data pipeline behind the four metric charts of a
health dashboard: heart rate, HRV, stress and blood oxygen. Each chart takes
raw timestamped samples and runs them through the same steps:

- **`parseISODate`** normalises a timestamp string and hands it to the host
  date parser (`date_parsing.dfy`).
- **`aggregateData`** is the resampler (`aggregation.dfy`):
  - it drops samples that do not parse or that lie after "now";
  - a one-day window with fewer than 500 surviving samples passes through
    one row per sample;
  - every other window becomes a continuous series of fixed-width buckets.
    A bucket is one hour up to seven days and two hours beyond. Each row
    holds the rounded mean of the bucket's positive values, or null.
- **`processGaps`** is the gap bridger (`gap_bridging.dfy`). It adds a
  `dashedValue` to every row:
  - a genuine row (one with a value) mirrors its value;
  - a null row gets the linear interpolation between its two nearest genuine
    neighbours, when their instants are more than 0 and at most `maxGapMs`
    apart;
  - every other row stays null.
- **Each chart** (`chart_series.dfy` and one file per chart) maps the rows
  to plot points and sorts them by time. It then computes its summary
  figures from the genuine values. The heart-rate chart also computes its
  Y-axis domain.
- **`getChartXAxisConfig`** gives the X-axis settings of each window
  (`axis_config.dfy`).

How each part is written:

- `aggregateData` and `processGaps` update arrays and accumulators step by
  step. They are methods with loops (`Aggregation.AggregateData`,
  `GapBridging.ProcessGaps`). Each is proved equal to a specification
  function (`Aggregation.Resampled`, `GapBridging.BridgedSeries`), and the
  properties are proved as lemmas about those functions.
- The chart computations and `parseISODate` are expression code. They are
  modelled as functions and lemmas.
- The JavaScript `sort` is modelled as a stable insertion sort
  (`Sorting.SortBy`). It is proved sorted, a permutation and stable.

Modelling choices:

- Timestamps are integer milliseconds.
- The host's `new Date(s).getTime()` is a parameter,
  `engine: string -> Option<int>` (None stands for NaN).
- The clock reading `now` is a parameter.
- Values are `Option<int>`, where None is the source's null.
- `dashedValue` is an exact `Option<real>`.
- `Math.round(x)` is `floor(x + 1/2)`.

## Model

| member | source | states |
|---|---|---|
| DateParsing.Normalize | utils.ts:6-13 | The normalised string handed to the host parser: the first space turned into 'T', cut to its first three ':'-separated parts, and ":00" appended to a 'T'-string with only hours and minutes. `DateParsing.NormalizeShape` states its result case by case; `DateParsing.ReplaceFirstChangesOne`, `DateParsing.JoinSplit` and `DateParsing.SplitJoin` state the steps it is built from. |
| DateParsing.ParseISODate | utils.ts:4-16 | An empty string gives null. Any other string gives what the host parser returns for the normalised string. |
| DateParsing.NormalizeShape | utils.ts:6-13 | The first space becomes 'T'. At most three ':'-separated parts survive. With more than three, the text before the third ':' is kept. A 'T'-string with only hours and minutes gains ":00". Any other string passes unchanged. |
| DateParsing.ReplaceFirstChangesOne | utils.ts:6 | `replace(' ', 'T')` changes only the first space and leaves the length alone. |
| DateParsing.JoinSplit | utils.ts:7-9 | Joining the `split(':')` parts gives the string back. This is why cutting to three parts keeps a prefix. |
| DateParsing.SplitJoin | utils.ts:9-11 | Splitting what was joined from separator-free parts gives the same parts back. |
| Aggregation.Resampled | utils.ts:31-107 | The declarative result of `aggregateData`: [] for empty input, otherwise the surviving readings passed through (one-day range, fewer than 500 survivors) or bucketed. `Aggregation.AggregateData` is proved equal to it. `Aggregation.PassThroughRows`, `Aggregation.BucketedResampled`, `Aggregation.RejectedSampleIgnored`, `Aggregation.StaleSampleIgnored` and `Aggregation.ResampledPositive` state its properties. |
| Aggregation.AggregateData | utils.ts:31-107 | For every input, the step-by-step resampler (filter, pass-through branch, accumulating pass, bucket loop, final sort) returns exactly `Resampled`. Empty input gives []. |
| Aggregation.BucketedRows | utils.ts:53-106 | The step and window of the range, the accumulating pass, the bucket loop and the final sort give the bucket series of the window [now - days*24h, now]. |
| Aggregation.GroupSamples | utils.ts:62-82 | After the `forEach` pass, each bucket's accumulator holds the sum and count of exactly the positive in-window values that fall into it. A bucket without an accumulator received none. |
| Aggregation.EmitBuckets | utils.ts:84-104 | The loop `t <= now; t += step` emits one row per bucket, from the bucket holding the window start to the one holding now. Each row is valued from its accumulator: the rounded mean, or null without an accumulator or with a zero count. |
| Aggregation.GroupMeansAgree | utils.ts:62-90 | Reading the accumulators of the `forEach` pass back gives, for every bucket, the rounded mean of the positive in-window values that fell into it, and null when none did. |
| Aggregation.Accept | utils.ts:38-43 | The test applied to one sample: its timestamp must parse and the instant must be at or before now. An accepted sample becomes a reading at that instant with the sample's own value. `Aggregation.AcceptedSampleFiltered`, `Aggregation.FilterKeepsNow` and `Aggregation.RejectedSampleIgnored` state what the filter then does with it. |
| Aggregation.FilterFuture | utils.ts:38-43 | The readings that survive the filter, in input order, never more than the samples. `Aggregation.FilterFutureNotLater`, `Aggregation.FilterInsert`, `Aggregation.AcceptedSampleFiltered` and `Aggregation.FilterKeepsNow` characterise which samples survive and with what instant. |
| Aggregation.FilterFutureNotLater | utils.ts:38-43 | No sample that survives the filter lies after now. |
| Aggregation.FilterInsert | utils.ts:38-43 | The filter judges each sample on its own, so the output for `a + [s] + b` is the outputs of the three parts concatenated. |
| Aggregation.AcceptedSampleFiltered | utils.ts:38-43 | A kept sample contributes exactly its own reading, at its place in the input order. |
| Aggregation.FilterKeepsNow | utils.ts:42 | A sample stamped exactly now is kept. The comparison is `<=`. |
| Aggregation.RejectedSampleIgnored | utils.ts:38-43 | Inserting a sample that does not parse, or that parses to an instant after now, leaves the output unchanged. |
| Aggregation.PassThrough | utils.ts:46-51 | The pass-through `map`: one row per surviving reading, in order. `Aggregation.PassThroughAt` states that row k is `PassRow` of reading k. `Aggregation.PassThroughRows` states it for the output of `aggregateData`. |
| Aggregation.PassRow | utils.ts:47-50 | One pass-through row: the reading's instant, its value when positive (`Number(v) > 0 ? v : null`) and otherwise null, without the aggregated flag. `Aggregation.PassThroughAt` and `Aggregation.ResampledPositive` rely on this. |
| Aggregation.PassThroughRows | utils.ts:46-51 | A one-day window with fewer than 500 survivors gives one row per survivor, in input order, not aggregated and not after now. A positive value is kept. A missing or non-positive value becomes null. |
| Aggregation.BucketedResampled | utils.ts:46-104 | Outside the pass-through case, the output is the bucket series of the surviving readings over the window [now - days*24h, now], with the range's step. |
| Aggregation.BucketSeries | utils.ts:84-104 | One row per bucket, from the bucket holding the window start to the bucket holding now, each valued by its bucket's rounded mean. `Aggregation.EmitBuckets` is proved equal to it. `Aggregation.BucketAxis`, `Aggregation.BucketSeriesSorted`, `Aggregation.BucketSeriesValues` and `Aggregation.BucketedValue` state its shape and values. |
| Aggregation.BucketedShape | utils.ts:53-104 | In bucketed mode there are exactly days*24+1 rows (up to seven days) or days*12+1 rows (beyond). The rows form an axis: consecutive multiples of the step, strictly increasing, the first bucket holding the window start and the last holding now. |
| Aggregation.StepFor | utils.ts:54-56 | The bucket step: one hour up to seven days, two hours beyond. `Aggregation.WindowBucketCount` and `Aggregation.BucketedShape` turn it into the row count and the time axis. |
| Aggregation.WindowBucketCount | utils.ts:54-60 | The number of buckets of a whole window is days*24/(step in hours) + 1. |
| Aggregation.BucketAxis | utils.ts:86 | The bucket loop's instants start at `floor(start/step)*step` and go up by one step per row. The last one is the bucket holding now. |
| Aggregation.BucketedValue | utils.ts:71-95 | A row of the bucket series is null exactly when no in-window positive value falls into its bucket. Otherwise it is the rounded mean of those values: positive, and between their minimum and maximum. |
| Aggregation.BucketValues | utils.ts:65-82 | The values added to a bucket's sum, in arrival order. `Aggregation.BucketValuesMembers` (both directions) and `Aggregation.BucketValuesPositive` characterise them. |
| Aggregation.BucketMean | utils.ts:88-90 | A bucket row's value: null when nothing was added, else `Math.round(sum / count)`. `Aggregation.BucketMeanCases`, `Aggregation.GroupMeansAgree` and `Aggregation.BucketedValue` characterise it. |
| Aggregation.BucketMeanCases | utils.ts:76-81 | The same statement for a single bucket's mean. |
| Aggregation.BucketValuesMembers | utils.ts:71-81 | The values a bucket accumulates are exactly those of the readings that fall into it with a positive value. |
| Aggregation.BucketValuesPositive | utils.ts:76-77 | Only positive values reach an accumulator. |
| Aggregation.ReadingLandsInItsBucket | utils.ts:65-95 | No valid sample is lost: a surviving in-window sample with a positive value has a row at its bucket, and that row has a value. The lemma returns that row's index. |
| Aggregation.StaleSampleIgnored | utils.ts:69 | In bucketed mode, inserting a sample older than the window start changes nothing. |
| Aggregation.StaleReadingIgnored | utils.ts:69 | A reading older than the window start adds nothing to any bucket. |
| Aggregation.ResampledPositive | utils.ts:49-77 | Every value the resampler emits is positive. |
| Aggregation.BucketSeriesSorted | utils.ts:86-104 | The bucket loop emits its rows in time order. |
| Aggregation.FinalSortKeepsOrder | utils.ts:106 | So the final sort by time returns the rows unchanged. |
| Aggregation.SeriesTimes | utils.ts:86 | The instants of the bucket rows strictly increase. |
| Aggregation.BucketSeriesValues | utils.ts:88-103 | Each bucket row carries the mean of its own bucket. |
| Aggregation.BucketOf | utils.ts:71 | `Math.floor(t/step)*step` is the multiple of the step at or below t and less than one step below it. |
| Aggregation.BucketIndex | utils.ts:86-88 | Every instant of the window has a row, within the row count, whose bucket holds it. |
| GapBridging.BridgedSeries | utils.ts:113-174 | The declarative result of `processGaps`: every row kept, its `dashedValue` given by `GapBridging.DashedAt`, or null for a series under two rows. `GapBridging.ProcessGaps` is proved equal to it. `GapBridging.BridgedKeepsRows`, `GapBridging.ShortSeriesUnbridged`, `GapBridging.GenuineRowMirrored` and `GapBridging.BridgedExactly` state its properties. |
| GapBridging.DashedAt | utils.ts:119-169 | The `dashedValue` of one row: its own value when genuine; otherwise the interpolation between its nearest genuine neighbours when these exist and lie more than 0 and at most maxGapMs apart, else null. `GapBridging.BridgedExactly` characterises when it is non-null and `GapBridging.BridgedValue` what it then is. |
| GapBridging.ProcessGaps | utils.ts:113-174 | For every input, the copy, the mirroring pass and the bridging pass return exactly `BridgedSeries`. |
| GapBridging.MirrorPass | utils.ts:119-123 | The first loop gives every genuine row its own value as `dashedValue` and leaves every null row's `dashedValue` null. |
| GapBridging.BridgePass | utils.ts:126-171 | The second loop leaves genuine rows alone. It gives every null row the `dashedValue` of the specification. |
| GapBridging.BridgeAt | utils.ts:127-169 | For one null row: the two neighbour scans, the gap test, the `hasValidBetween` scan and the interpolation give that row's `dashedValue`. |
| GapBridging.FindPrev | utils.ts:128-134 | The backward scan finds the nearest genuine row before i, or -1 when there is none. |
| GapBridging.FindNext | utils.ts:136-142 | The forward scan finds the nearest genuine row after i, or -1 when there is none. |
| GapBridging.AnyGenuine | utils.ts:152-158 | The scan reports true exactly when some row in [lo, hi) is genuine. |
| GapBridging.NothingBetweenNeighbours | utils.ts:152-160 | No genuine row lies strictly between a null row's two neighbours, so `hasValidBetween` is never true. |
| GapBridging.PrevFrom | utils.ts:128-134 | The specification of the backward scan: a genuine index at or before j, with nothing genuine after it up to j, or -1. |
| GapBridging.NextFrom | utils.ts:136-142 | The specification of the forward scan: a genuine index at or after j, with nothing genuine before it from j on, or -1. |
| GapBridging.BridgedKeepsRows | utils.ts:116 | Bridging keeps every row and all its fields. It only adds `dashedValue`. |
| GapBridging.ShortSeriesUnbridged | utils.ts:114 | A series of fewer than two rows gets no `dashedValue` at all. |
| GapBridging.GenuineRowMirrored | utils.ts:119-123 | In a longer series, every genuine row's `dashedValue` equals its value. |
| GapBridging.BridgedExactly | utils.ts:126-169 | A null row gets a `dashedValue` exactly when it lies between two genuine rows with nothing genuine in between, whose instants are more than 0 and at most maxGapMs apart (inclusive). So leading and trailing runs of nulls, and gaps that are too wide, stay null. |
| GapBridging.BridgedValue | utils.ts:161-166 | A bridged value is the linear interpolation between the two neighbours at the row's own instant. When the three instants are in order, it lies between the neighbours' values. |
| GapBridging.Interpolate | utils.ts:161-166 | `v0 + (v1 - v0) * ((t - t0) / (t1 - t0))` on exact reals. `GapBridging.InterpolateBounds` states it hits v0 and v1 at the two ends and stays between them. `GapBridging.BridgedValue` uses that bound for a bridged row. |
| GapBridging.InterpolateBounds | utils.ts:165-166 | The interpolation is exact at both ends (ratio 0 and 1). Between the ends it stays within the two end values. |
| GapBridging.MidpointExample | utils.ts:150 | 60, null, 100 an hour apart bridges to 80 with a 2-hour limit. With a limit 1 ms shorter it stays null. |
| Sorting.SortBy | utils.ts:106 | `sort((a, b) => key(a) - key(b))` answers a list of the same length, sorted by key. |
| Sorting.SortByPermutes | components/charts/HeartRateChart.tsx:64 | Sorting is a permutation. |
| Sorting.SortByStable | components/charts/HeartRateChart.tsx:64 | Elements with equal keys keep their relative order. |
| Sorting.SortBySorted | utils.ts:106 | Sorting a list already in key order changes nothing. |
| ChartSeries.Mapped | components/charts/HeartRateChart.tsx:46-63 | A chart's rows before its sort: aggregated, bridged and mapped to plot points. `ChartSeries.ToChartPoints` states the mapping row by row. `ChartSeries.PlottedIsSortedBridged` relates it to the sorted `processedData`. |
| ChartSeries.ToChartPoints | components/charts/HeartRateChart.tsx:49-63 | Every bridged row maps to one plot point. The point carries the row's value, its untouched `dashedValue` and its instant. |
| ChartSeries.Plotted | components/charts/HeartRateChart.tsx:45-64 | A chart's `processedData`: the aggregated rows, bridged, mapped to plot points and sorted by time. `ChartSeries.PlottedIsSortedBridged` and each chart's `ProcessedDataInTimeOrder` state that it is the mapped rows in stable time order. |
| ChartSeries.PlottedIsSortedBridged | components/charts/HeartRateChart.tsx:45-64 | A chart's `processedData` holds the mapped bridged rows in time order: sorted, a permutation, and rows with equal instants kept in order. |
| ChartSeries.GenuineValues | components/charts/HeartRateChart.tsx:77-79 | `valid.map(d => d.value)`: the values of the non-null points, in order. `ChartSeries.GenuineValuesEmpty`, `ChartSeries.GenuineValuesMembers` and `ChartSeries.GenuineBetween` characterise it. |
| ChartSeries.GenuineValuesEmpty | components/charts/HeartRateChart.tsx:78-79 | `processedData.filter(d => d.value !== null)` is empty exactly when every point is null. |
| ChartSeries.GenuineValuesMembers | components/charts/HeartRateChart.tsx:78-80 | The genuine values are exactly the non-null values of the points. |
| ChartSeries.GenuineBetween | components/charts/HeartRateChart.tsx:78-83 | Every genuine value lies between the minimum and the maximum of the genuine values. |
| HeartRateChart.Samples | components/charts/HeartRateChart.tsx:46 | The `timestamp`/`bpm` cells of each record, one sample per record, in order, as `aggregateData` reads them. |
| HeartRateChart.ProcessedData | components/charts/HeartRateChart.tsx:45-64 | The chart's `processedData`: its samples aggregated, bridged with a gap limit of one hour (3,600,000 ms), mapped and sorted by time. `HeartRateChart.ProcessedDataInTimeOrder` states that it is the mapped rows in stable time order. |
| HeartRateChart.ProcessedDataInTimeOrder | components/charts/HeartRateChart.tsx:45-64 | The heart-rate `processedData` is the `timestamp`/`bpm` series, bridged with a one-hour limit, mapped and in time order. |
| HeartRateChart.YDomain | components/charts/HeartRateChart.tsx:66-74 | The Y domain: `max(0, floor(min - 10))` to `ceil(max + 10)` over all values and `dashedValue`s, from [60, 100] when there are none. `HeartRateChart.YDomainEncloses` and `HeartRateChart.YDomainDefault` state what it encloses and its default. |
| HeartRateChart.YDomainEncloses | components/charts/HeartRateChart.tsx:66-74 | The Y domain encloses every plotted value, genuine or bridged, with 10 to spare above. It has 10 to spare below unless the floor of 0 applies, and a non-negative value is always above the lower bound. |
| HeartRateChart.YDomainDefault | components/charts/HeartRateChart.tsx:68-73 | With nothing to plot, the domain is [50, 110]. |
| HeartRateChart.AllValues | components/charts/HeartRateChart.tsx:67 | `flatMap` over each point's value and `dashedValue`, with the nulls dropped. `HeartRateChart.AllValuesMembers` and `HeartRateChart.AllValuesEmpty` characterise it. |
| HeartRateChart.MinReal | components/charts/HeartRateChart.tsx:68 | `Math.min(...allVals)` is one of the values and no value is smaller. |
| HeartRateChart.MaxReal | components/charts/HeartRateChart.tsx:69 | `Math.max(...allVals)` is one of the values and no value is larger. |
| HeartRateChart.AllValuesMembers | components/charts/HeartRateChart.tsx:67 | Every value and every `dashedValue` of the points is in `allVals`. |
| HeartRateChart.AllValuesEmpty | components/charts/HeartRateChart.tsx:67 | `allVals` is empty when no point has a value or a `dashedValue`. |
| HeartRateChart.Stats | components/charts/HeartRateChart.tsx:76-85 | The `stats` block: null without genuine values, otherwise peak, rounded mean and resting rate of the genuine values. `HeartRateChart.StatsNull`, `HeartRateChart.StatsOfOrdered` and `HeartRateChart.StatsEnclose` characterise it. |
| HeartRateChart.StatsNull | components/charts/HeartRateChart.tsx:77-80 | The statistics are null exactly when no point has a value. |
| HeartRateChart.StatsOfOrdered | components/charts/HeartRateChart.tsx:81-85 | resting <= average <= peak. Peak is the maximum genuine value and resting is the minimum. |
| HeartRateChart.StatsEnclose | components/charts/HeartRateChart.tsx:77-86 | Every genuine value lies between the resting and the peak rate. |
| HRVChart.Samples | components/charts/HRVChart.tsx:46 | The `date`/`hrv` cells of each record, one sample per record, in order, as `aggregateData` reads them. |
| HRVChart.ProcessedData | components/charts/HRVChart.tsx:45-64 | The chart's `processedData`: its samples aggregated, bridged with a gap limit of three hours (10,800,000 ms), mapped and sorted by time. `HRVChart.ProcessedDataInTimeOrder` states that it is the mapped rows in stable time order. |
| HRVChart.ProcessedDataInTimeOrder | components/charts/HRVChart.tsx:45-64 | The HRV `processedData` is the `date`/`hrv` series, bridged with a three-hour limit, mapped and in time order. |
| HRVChart.Stats | components/charts/HRVChart.tsx:66-74 | The `stats` block: null without genuine values, otherwise the rounded mean and the peak of the genuine values. `HRVChart.StatsNull`, `HRVChart.StatsOfOrdered` and `HRVChart.StatsEnclose` characterise it. |
| HRVChart.StatsNull | components/charts/HRVChart.tsx:66-69 | The statistics are null exactly when no point has a value. |
| HRVChart.StatsOfOrdered | components/charts/HRVChart.tsx:70-73 | The peak is the maximum genuine value. The mean lies between the minimum and the peak. |
| HRVChart.StatsEnclose | components/charts/HRVChart.tsx:66-74 | No genuine value exceeds the peak. |
| StressChart.Samples | components/charts/StressChart.tsx:46 | The `date`/`stress` cells of each record, one sample per record, in order, as `aggregateData` reads them. |
| StressChart.ProcessedData | components/charts/StressChart.tsx:45-64 | The chart's `processedData`: its samples aggregated, bridged with a gap limit of three hours (10,800,000 ms), mapped and sorted by time. `StressChart.ProcessedDataInTimeOrder` states that it is the mapped rows in stable time order. |
| StressChart.ProcessedDataInTimeOrder | components/charts/StressChart.tsx:45-64 | The stress `processedData` is the `date`/`stress` series, bridged with a three-hour limit, mapped and in time order. |
| StressChart.Stats | components/charts/StressChart.tsx:66-75 | The `stats` block: null without genuine values, otherwise the rounded mean and its state. `StressChart.StatsNull`, `StressChart.StatsOrdered` and `StressChart.StatusOfUniformReadings` characterise it. |
| StressChart.StatsNull | components/charts/StressChart.tsx:66-69 | The statistics are null exactly when no point has a value. |
| StressChart.StatsOrdered | components/charts/StressChart.tsx:70-74 | The mean lies between the minimum and the maximum genuine value. The state is the one the mean falls into. |
| StressChart.Level | components/charts/StressChart.tsx:73 | The state of a mean: relaxed, balanced or loaded. `StressChart.LevelBands` and `StressChart.LevelMonotone` state its bands at 30 and 60 and that it never falls as the mean rises. |
| StressChart.LevelBands | components/charts/StressChart.tsx:73 | The three states partition the integers: relaxed below 30, balanced from 30 up to 60, loaded from 60. |
| StressChart.LevelMonotone | components/charts/StressChart.tsx:73 | A higher mean never gives a calmer state. |
| StressChart.Label | components/charts/StressChart.tsx:73 | The text shown for each state: 放松, 平衡 or 负荷, each two characters long. `StressChart.LabelsDistinct` states that the three differ. |
| StressChart.LabelsDistinct | components/charts/StressChart.tsx:73 | The three labels 放松, 平衡 and 负荷 differ. |
| StressChart.StatusOfUniformReadings | components/charts/StressChart.tsx:70-73 | If every genuine value is below 30, the state is relaxed. If every one is at least 60, it is loaded. |
| OxygenChart.Samples | components/charts/OxygenChart.tsx:46 | The `date`/`soa2` cells of each record, one sample per record, in order, as `aggregateData` reads them. |
| OxygenChart.ProcessedData | components/charts/OxygenChart.tsx:45-64 | The chart's `processedData`: its samples aggregated, bridged with a gap limit of three hours (10,800,000 ms), mapped and sorted by time. `OxygenChart.ProcessedDataInTimeOrder` states that it is the mapped rows in stable time order. |
| OxygenChart.ProcessedDataInTimeOrder | components/charts/OxygenChart.tsx:45-64 | The blood-oxygen `processedData` is the `date`/`soa2` series, bridged with a three-hour limit, mapped and in time order. |
| OxygenChart.Stats | components/charts/OxygenChart.tsx:66-73 | The `stats` block: null without genuine values, otherwise the rounded mean saturation and the constant level label. `OxygenChart.StatsNull`, `OxygenChart.StatsOrdered` and `OxygenChart.StatsAbove` characterise it. |
| OxygenChart.StatsNull | components/charts/OxygenChart.tsx:66-69 | The statistics are null exactly when no point has a value. |
| OxygenChart.StatsOrdered | components/charts/OxygenChart.tsx:70-72 | The mean saturation lies between the minimum and the maximum genuine value. The level label is the constant 优秀. |
| OxygenChart.StatsAbove | components/charts/OxygenChart.tsx:70-71 | If every reading is at least some floor, so is the mean. |
| AxisConfig.ChartXAxisConfig | utils.ts:176-185 | Labels are never tilted and the tick interval is at least 1. The format is "HH:mm" exactly for the one-day window and "MM/DD" for every other. |
| Base.RoundedMeanBetween | components/charts/HeartRateChart.tsx:83 | `Math.round(sum / count)` lies between the minimum and the maximum of the values. |
| Base.MinOf | components/charts/HeartRateChart.tsx:84 | `Math.min(...values)` is one of the values and no value is smaller. |
| Base.MaxOf | components/charts/HeartRateChart.tsx:82 | `Math.max(...values)` is one of the values and no value is larger. |
| Base.MathRound | utils.ts:90 | `Math.round` gives the integer within one half of x. |

## Left out

- Rows carry instants after `aggregateData`. In the source they carry strings:
  - the pass-through branch keeps the original timestamp string;
  - the bucket rows carry `toISOString()`.

  The model stores the parsed instant in each row. It assumes every later
  re-parse reads back the same instant: `processGaps`' `new Date(...)`, the
  charts' `parseISODate`, and the comparator of the final sort.
- Because of that assumption, the charts' sort-key fallback `date ? ... : 0`
  never applies and is not modelled.
- The host date parser (`new Date(s)`) is a parameter. What it accepts is not
  part of this model.
- The clock (`new Date()` in `aggregateData`) is a parameter, `now`.
- `formatFullTime`, `displayTime` and `fullTime` are left out. They are locale
  formatting of dates for display. So are the tooltips, the table columns
  and the rendering.
- Raw values are whole numbers or missing. Fractional readings and
  `Number(...)` of non-numeric strings are not modelled beyond "missing".
  IEEE floating point is replaced by exact integers and reals, so rounding
  errors of `sum / count` and of the interpolation are not captured.
- Summary figures are numbers, not the strings the source builds (`"42 ms"`,
  `"97%"`).
- GapBridging.ProcessGaps: a series of fewer than two rows comes back in the
  source without any `dashedValue` (`return data`). The charts read that as
  undefined and drop it like null, so the model gives every such row a None
  `dashedValue`.
- GapBridging.BridgedValue: its "between the neighbours' values" bound is
  stated only when the row's instant lies between theirs. `processGaps`
  looks for neighbours in input order. In the pass-through branch the input
  order is the order of the raw samples, which need not be time order.
- The bucketed branch of `Aggregation.Resampled` is stated without the final
  sort. `Aggregation.FinalSortKeepsOrder` proves that the sort changes
  nothing there, and the method `Aggregation.AggregateData` performs the sort.
- `hasValidBetween` in `processGaps` is modelled in `GapBridging.BridgeAt`.
  It is proved never true (`GapBridging.NothingBetweenNeighbours`), so its
  true branch holds only `assert false`.
- The `default` branch of `getChartXAxisConfig` cannot be reached with the
  five-member `TimeRange` enum. In Dafny the match over the enum is
  exhaustive, so that branch does not exist.
- Values in the source are `null` or `undefined`; both are None here.
