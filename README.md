# Ground-station pass prediction and scheduling, in Dafny

This project models the algorithmic core of a satellite ground-pass service:

- **`Optimizer`** (`optimizer.dfy`) is the scheduler. `weight` picks a pass's duration or
  peak elevation. `best_non_overlapping_weighted` is weighted interval scheduling. It sorts
  by `(end_ts, start_ts)`, finds each pass's predecessor with `bisect_right`, fills the
  `dp`/`take` tables and walks back to rebuild the chosen passes. `top_k_passes` is a stable
  sort by descending weight followed by a prefix.
- **`PassPrediction`** (`pass_prediction.dfy`) is the pass detector. `predict_passes` builds
  a sampling grid, then runs the in-pass/out-of-pass state machine over consecutive samples.
  Rise and set instants are refined with the fixed-count bisection `_bisect_crossing`.
  Elevation is an abstract function of time.
- **`BatchDriver`** (`batch_driver.dfy`) is the chunk loop of the seven-day generator, for
  one satellite and one station. It covers tiling the horizon into chunks, scanning each
  chunk with a clamped ten-minute margin, the "owned by the chunk of its start" keep rule,
  clipping to the horizon and the five-second rounded minimum.
- **`ScheduleRouter`** (`schedule_router.dfy`) is the query side. It covers
  `clip_row_to_window` (and its duplicate `clip_pass`), the candidate query with its
  filter and its `ORDER BY end_ts`, the `start >= end` rejection, and the `/schedule/best`
  and `/schedule/top` pipelines from the pass table to scheduler output.
- **`TleParser`** (`tle_parser.dfy`) is the two-line element set text scanner
  `parse_tle_blocks`. It covers the epoch-field validation and year pivot of
  `parse_tle_epoch`, and the `max(limit, 0)` cut of the fetch script.
- **`StableSort`**, **`TimeArith`**, **`SeqFacts`** and **`Wrappers`** are shared helpers:
  - a stable insertion sort that stands for Python's `sorted`/`list.sort`;
  - Python's half-even `round` (the same rule `timedelta` division uses) and `int()` truncation;
  - two facts about sequence concatenation;
  - `Option` and `Result`.

Time is an integer count of microseconds, the resolution of Python's `datetime`. Weights and
elevations are reals. Where the source loops and updates variables, the model is a `method`
with loop invariants, proved equal to a recursive specification function. The properties
are proved about that function.

## Model

| member | source | states |
|---|---|---|
| Optimizer.ParseMetric | app/schedule/optimizer.py:30-35 | a metric name is accepted exactly when it is "duration" or "max_elev", and "duration" selects the duration weight; any other name is the error case of `weight` |
| Optimizer.ByEndThenStartIsTotalPreorder | app/schedule/optimizer.py:51 | the sort key `(end_ts, start_ts)` is a total preorder, so the sort is well defined |
| Optimizer.ByWeightDescendingIsTotalPreorder | app/schedule/optimizer.py:105 | descending weight is a total preorder |
| Optimizer.BisectRight | app/schedule/optimizer.py:61 | on a sorted list, the result is the boundary index: every element before it is `<= x`, every element from it on is `> x` |
| Optimizer.LastEndingBy | app/schedule/optimizer.py:58-62 | the count of sorted items ending by `t`: every item from it on ends after `t`, and the one before it ends by `t` |
| Optimizer.BisectIsPred | app/schedule/optimizer.py:58-62 | the bisection boundary over the end times is exactly the predecessor count, so `p_idx[i]` is -1 or the last item ending by `items[i].start_ts` |
| Optimizer.Predecessors | app/schedule/optimizer.py:56-62 | the loop fills `p_idx` with the predecessor index of every item |
| Optimizer.FillTable | app/schedule/optimizer.py:64-78 | the loop fills `dp[i]` with the best score over the first `i + 1` items and `take[i]` with "include is strictly better than exclude" |
| Optimizer.BestMonotone | app/schedule/optimizer.py:68-78 | the best score is non-decreasing in the number of items considered |
| Optimizer.Reconstruct | app/schedule/optimizer.py:80-90 | the backward walk with `append` and the final `reverse` yields exactly the specification's chosen sequence |
| Optimizer.ChosenScore | app/schedule/optimizer.py:81-91 | the weights of the rebuilt passes sum to `dp[n - 1]` |
| Optimizer.ChosenChained | app/schedule/optimizer.py:48-49 | consecutive rebuilt passes satisfy `prev.end_ts <= next.start_ts` |
| Optimizer.BestIsOptimal | app/schedule/optimizer.py:43-45 | no pairwise non-overlapping sub-multiset of the first `n` sorted items weighs more than the best score |
| Optimizer.BestNonOverlapping | app/schedule/optimizer.py:38-91 | empty input gives `([], 0.0)` before any weight is taken; an unknown metric on non-empty input is an error; otherwise the result is the schedule, which is chained, drawn from the input, scored by its weight sum and at least as heavy as every non-overlapping selection |
| Optimizer.ScheduleIsFeasible | app/schedule/optimizer.py:81-91 | the schedule is chained, a sub-multiset of the input, and its score is its weight sum |
| Optimizer.ScheduleIsOptimal | app/schedule/optimizer.py:43-45 | every pairwise non-overlapping selection from the input weighs at most the schedule's score |
| Optimizer.ThreePassExample | app/schedule/optimizer.py:68-91 | on three passes where the middle one overlaps both others, the two outer passes are chosen with score 200 |
| Optimizer.TopK | app/schedule/optimizer.py:102-106 | `k <= 0` gives `[]`; an unknown metric on non-empty input is the only error; otherwise `min(k, n)` passes drawn from the input |
| Optimizer.TopKIsPrefix | app/schedule/optimizer.py:104-106 | the result is the first `min(k, n)` passes of the input stably sorted by descending weight |
| Optimizer.TopKOrdered | app/schedule/optimizer.py:105 | the result's weights are non-increasing |
| Optimizer.TopKHeaviest | app/schedule/optimizer.py:102-106 | no pass left out weighs more than a pass returned |
| Optimizer.TopKStable | app/schedule/optimizer.py:105 | passes of equal weight keep their input order |
| StableSort.SortBy | app/schedule/optimizer.py:51 | sorting is a permutation of its input |
| StableSort.SortBySorted | app/schedule/optimizer.py:51 | under a total preorder the result is sorted |
| StableSort.SortByStable | app/schedule/optimizer.py:105 | the items tied with any value keep their relative order |
| TimeArith.DivideAndRound | app/orbit/pass_prediction.py:141 | the quotient is within half a divisor of the exact value and ties go to the even neighbour, as Python's `round` |
| TimeArith.TruncDiv | app/routers/schedule.py:33 | for a non-negative span, the whole number of seconds it contains, as `int()` |
| TimeArith.RoundVersusTruncate | app/scripts/generate_passes_7d_batched.py:185 | the rounded seconds of a span exceed its truncated seconds by at most one |
| PassPrediction.Midpoint | app/orbit/pass_prediction.py:64 | `lo + (hi - lo) / 2` lies in `[lo, hi]` and splits it into halves that differ by at most a microsecond |
| PassPrediction.Halve | app/orbit/pass_prediction.py:63-71 | one bisection step stays inside the bracket and at least halves its width |
| PassPrediction.OppositeSidesIsProductSign | app/orbit/pass_prediction.py:68 | the test `(elo - cutoff) * (emid - cutoff) <= 0` holds exactly when the two values are on opposite sides of the cutoff or one is on it |
| PassPrediction.HalveKeepsBracket | app/orbit/pass_prediction.py:67-71 | a step keeps a bracket that straddles the cutoff straddling it, with endpoint elevations sampled from the elevation function |
| PassPrediction.HalveTieKeepsLower | app/orbit/pass_prediction.py:68-69 | when the midpoint elevation equals the cutoff, the lower half is kept |
| PassPrediction.RefineKeepsBracket | app/orbit/pass_prediction.py:63-71 | the straddle and sampling invariants hold after any number of steps |
| PassPrediction.RefineWidth | app/orbit/pass_prediction.py:63-71 | after `k` steps the width is at most the initial width halved `k` times |
| PassPrediction.CrossingPrecision | app/orbit/pass_prediction.py:63-73 | when the interval is at most `2^k` microseconds wide, `k` steps leave a straddling bracket at most one microsecond wide inside `[t0, t1]`, and the returned instant lies in it |
| PassPrediction.BisectCrossing | app/orbit/pass_prediction.py:44-73 | the fixed-count loop returns the specification's crossing instant, which lies in `[t0, t1]` |
| PassPrediction.Grid | app/orbit/pass_prediction.py:96-101 | the sampling grid is non-empty exactly when `start <= end` |
| PassPrediction.GridBounds | app/orbit/pass_prediction.py:96-101 | the first sample is `start`, all samples lie in `[start, end]`, and the next sample would pass `end` |
| PassPrediction.GridIncreasing | app/orbit/pass_prediction.py:96-101 | samples strictly increase |
| PassPrediction.GridSample | app/orbit/pass_prediction.py:96-101 | sample `i` is `start + i * step` |
| PassPrediction.SampleTimes | app/orbit/pass_prediction.py:96-101 | the `while t <= end` loop builds exactly the grid |
| PassPrediction.StepContinues | app/orbit/pass_prediction.py:124-128 | inside a pass that does not set at this sample, only the peak and the previous sample change |
| PassPrediction.StepCloses | app/orbit/pass_prediction.py:129-147 | a pass that sets at this sample is closed, and its window is appended exactly when it lasts at least the minimum, with the rounded duration and the peak including this sample |
| PassPrediction.PeakOver | app/orbit/pass_prediction.py:122-127 | the running peak is the largest sampled elevation over the samples it covers |
| PassPrediction.RunInvariant | app/orbit/pass_prediction.py:111-150 | after every prefix of the samples the scan state satisfies the loop invariant: each emitted window is witnessed by a rise and a later set sample, and an open pass has its rise and running peak recorded |
| PassPrediction.DetectWindows | app/orbit/pass_prediction.py:111-152 | every emitted window comes from a rise sample and a later set sample, the windows are in ascending order without overlap, and so a pass still open at the last sample is never emitted |
| PassPrediction.RunExtends | app/orbit/pass_prediction.py:111-150 | the scan only appends: the windows found after a prefix of the samples begin the windows found after any longer prefix |
| PassPrediction.DetectComplete | app/orbit/pass_prediction.py:111-152 | every complete pass (a rise sample, all later samples above the cutoff up to a set sample, and a refined span of at least the minimum) has its window, with its refined bounds, rounded duration and peak, among the windows returned |
| PassPrediction.DetectExactly | app/orbit/pass_prediction.py:111-152 | a window is returned if and only if it is the window of a complete pass that lasts at least the minimum |
| PassPrediction.TriangleOneWindow | app/orbit/pass_prediction.py:76-152 | an elevation with a single peak of 25 degrees at 500 s, scanned over `[0 s, 1000 s]` at a 100 s step with cutoff 0 and minimum 5 s, gives exactly one window: it starts between 200 s and 300 s, ends between 700 s and 800 s, lasts 400 s to 600 s and peaks at 25 degrees |
| PassPrediction.WindowFacts | app/orbit/pass_prediction.py:134-143 | an emitted window lies between its rise and set samples, lasts at least the minimum, carries its duration rounded to whole seconds, and has a peak above the cutoff and at least every sample in between |
| PassPrediction.DetectWithin | app/orbit/pass_prediction.py:111-152 | every emitted window lies within `[start, end]` |
| PassPrediction.PredictPasses | app/orbit/pass_prediction.py:76-152 | `start >= end` is rejected before sampling; otherwise the result is the detector run over the grid |
| BatchDriver.Chunks | app/scripts/generate_passes_7d_batched.py:145-150 | the chunk loop visits at least one chunk exactly when `start < end` |
| BatchDriver.ChunksTile | app/scripts/generate_passes_7d_batched.py:145-150 | chunks start at `start`, end at `end`, are contiguous and disjoint, non-empty and at most `chunk_hours` long |
| BatchDriver.OwnedOnce | app/scripts/generate_passes_7d_batched.py:149-150 | every instant of `[start, end)` lies in exactly one chunk |
| BatchDriver.ScanCoversChunk | app/scripts/generate_passes_7d_batched.py:153-155 | the scan interval contains the chunk, lies within `[start, end]` and is non-empty |
| BatchDriver.StraddleNeverKeeps | app/scripts/generate_passes_7d_batched.py:172-174 | a window the scan detects never straddles `start`, so the special keep branch adds nothing and a chunk keeps exactly the windows starting in it |
| BatchDriver.KeptOnce | app/scripts/generate_passes_7d_batched.py:168-177 | a window starting in `[start, end)`, or straddling `start`, is kept by exactly one chunk |
| BatchDriver.ClipToHorizon | app/scripts/generate_passes_7d_batched.py:179-190 | a stored row has the clipped bounds inside `[start, end]`, a rounded duration of at least 5 s and the pass's peak unchanged; nothing is stored exactly when the clip is empty or rounds below 5 s |
| BatchDriver.KeptRowCases | app/scripts/generate_passes_7d_batched.py:168-191 | a window yields no row when not kept, when its clip is empty, or when it rounds below 5 s, and otherwise exactly its clipped row |
| BatchDriver.ClipInsideKeeps | app/scripts/generate_passes_7d_batched.py:179-191 | a window already inside the horizon and at least 5 rounded seconds long is stored unchanged |
| BatchDriver.ChunkRowsValid | app/scripts/generate_passes_7d_batched.py:168-192 | every row a chunk appends lies inside the horizon, lasts at least 5 s and carries the satellite and station ids |
| BatchDriver.KeepWindows | app/scripts/generate_passes_7d_batched.py:168-192 | the inner loop appends exactly the chunk's rows, and the counter equals the number of rows |
| BatchDriver.RowsOfValid | app/scripts/generate_passes_7d_batched.py:145-194 | every row the driver stores for a station, over all chunks, lies inside the horizon, lasts at least 5 rounded seconds within half a second of its span, and carries the satellite and station ids |
| BatchDriver.ChunkScanNonEmpty | app/scripts/generate_passes_7d_batched.py:149-155 | the widened scan interval of a chunk inside the horizon (the first chunk, when `chunk_hours` is negative) is non-empty exactly when `chunk_hours` is positive, so a negative `chunk_hours` scans an interval that ends before it starts |
| BatchDriver.StationPasses | app/scripts/generate_passes_7d_batched.py:145-194 | a negative `chunk_hours` on a non-empty horizon fails with the `start must be < end` error of the first chunk's scan; otherwise the chunk loop stores, chunk by chunk, the rows of the windows each scan detects, and `station_pred` counts them |
| ScheduleRouter.ClipRowToWindow | app/routers/schedule.py:28-44 | the clip is `[max(row.start, qstart), min(row.end, qend)]`; it is dropped exactly when the overlap is under five whole seconds; a kept item lies in the query window and the row, has the truncated seconds of its span as duration (at least 5), and copies every other field |
| ScheduleRouter.ClipIdempotent | app/scripts/schedule_smoke.py:19-35 | clipping an already clipped item to the same window returns it unchanged |
| ScheduleRouter.ClipNarrower | app/routers/schedule.py:28-44 | clipping to a sub-window equals clipping the clipped item to it |
| ScheduleRouter.ClipAll | app/routers/schedule.py:93-97 | the loop collects exactly the clipped rows, in order |
| ScheduleRouter.ClipRowsInWindow | app/routers/schedule.py:93-97 | every collected item lies in the query window with start before end |
| ScheduleRouter.ClipRowsMembers | app/routers/schedule.py:93-97 | an item is collected exactly when it is the clip of some fetched row |
| ScheduleRouter.StationRows | app/routers/schedule.py:47-75 | the station (and optional satellite) filter keeps only matching rows of the table |
| ScheduleRouter.CandidateRows | app/routers/schedule.py:47-75 | the full SQL filter keeps only matching rows that overlap the query window |
| ScheduleRouter.FetchCandidatePasses | app/routers/schedule.py:47-75 | the fetched rows are a permutation of the rows the query filter keeps, ordered by ascending `end_ts` |
| ScheduleRouter.ClipRowsKeepsEndOrder | app/routers/schedule.py:93-97 | rows in ascending end order clip to items in ascending end order |
| ScheduleRouter.QueryTimeFilterIsRedundant | app/routers/schedule.py:55-57 | clipping makes the query's overlap condition redundant: the clipped items are the same with or without it |
| ScheduleRouter.BestSchedule | app/routers/schedule.py:78-99 | `qstart >= qend` is the only error; otherwise the result is the schedule of the clipped candidate rows, fetched in ascending end order, chained, inside the query window, drawn from the clipped rows, scored by its weight sum and optimal |
| ScheduleRouter.TopSchedule | app/routers/schedule.py:124-146 | `qstart >= qend` is the only error; otherwise the first `min(k, n)` clipped candidate rows by descending weight, ties in fetch order (ascending end), inside the query window |
| ScheduleRouter.MetricName | app/routers/schedule.py:16 | each metric the endpoint accepts has a name the scheduler accepts |
| ScheduleRouter.StoredRowBelowFiveSecondsIsDropped | app/routers/schedule.py:33-35 | a 4.6 s pass is stored by the batch driver (rounds to 5 s) but dropped by the router (truncates to 4 s) |
| TleParser.StripBy | app/scripts/fetch_tles.py:51 | a stripped string neither starts nor ends with a stripped character |
| TleParser.StripBlank | app/scripts/fetch_tles.py:51 | a line strips to nothing exactly when all its characters are whitespace |
| TleParser.StripIdempotent | app/scripts/fetch_tles.py:55-57 | stripping twice is stripping once |
| TleParser.CarriageReturnFree | app/scripts/fetch_tles.py:51 | `strip("\r")` on a piece of `splitlines()` changes nothing |
| TleParser.NonBlankLines | app/scripts/fetch_tles.py:51 | every scanned line is non-blank and free of line breaks |
| TleParser.LinesOfJoin | app/scripts/fetch_tles.py:51 | lines that are non-blank and break-free, joined with newlines, split back into the same lines |
| TleParser.ParseTleBlocks | app/scripts/fetch_tles.py:50-79 | the window loop yields exactly the specification's blocks of the non-blank lines |
| TleParser.ScanStep | app/scripts/fetch_tles.py:54-77 | a window without the "1 "/"2 " prefixes moves by one line and emits nothing; one with a bad catalogue number moves by three and emits nothing; otherwise it emits its block and moves by three |
| TleParser.BlocksConsistent | app/scripts/fetch_tles.py:59-77 | every block has lines headed "1 " and "2 ", an all-digit catalogue field, the catalogue number of that field and the epoch of its first line |
| TleParser.NoradBound | app/scripts/fetch_tles.py:63-73 | a catalogue number read from the five-column field is below 100000 |
| TleParser.BlocksInOrder | app/scripts/fetch_tles.py:53-77 | the blocks come from windows of three lines at increasing, non-overlapping positions, in input order |
| TleParser.RenderRoundTrip | app/scripts/fetch_tles.py:50-79 | blocks written as name, line 1, line 2 are scanned back as the same blocks |
| TleParser.TextRoundTrip | app/scripts/fetch_tles.py:50-79 | the same holds for the text of those lines joined with newlines |
| TleParser.ParseEpochField | app/scripts/fetch_tles.py:33-40 | an epoch is produced exactly when the field is five digits, optionally followed by a dot and one or more digits |
| TleParser.PivotYear | app/scripts/fetch_tles.py:39-40 | the two-digit year maps into 1957-2056 and keeps its last two digits |
| TleParser.PivotInverse | app/scripts/fetch_tles.py:39-40 | every year in 1957-2056 is the pivot of its last two digits |
| TleParser.ParseEpochCanonical | app/scripts/fetch_tles.py:31-40 | a parsed epoch is valid and renders back to the field it came from |
| TleParser.EpochRoundTrip | app/scripts/fetch_tles.py:31-40 | a valid epoch, rendered as a field, parses back to itself |
| TleParser.EpochExample | app/scripts/fetch_tles.py:39-40 | the field "24001.50000000" is year 2024, day 1, fraction "50000000" |
| TleParser.DigitsValue | app/scripts/fetch_tles.py:39 | reading the decimal digits of a number written in a fixed width gives the number |
| TleParser.ValueDigits | app/scripts/fetch_tles.py:39 | writing the value of a digit string in its own width gives the string |
| TleParser.SelectBlocks | app/scripts/fetch_tles.py:97-102 | no blocks is the fetch script's error; otherwise the first `max(limit, 0)` blocks, or all of them when fewer |

## Left out

- Orbit propagation (SGP4) and the look-angle trigonometry are not part of this model. Elevation is an abstract function of time, so propagation errors (`PassPredictionError`) and the UTC conversion `_to_utc` are not modelled.
- Floating point: times are exact microseconds and weights and elevations are reals. `(e - s).total_seconds()` is exact division by 10^6, so the float rounding of large spans is not modelled.
- `PassPrediction.BisectCrossing` states the bracket after 25 steps. The model does not bound the elevation function, so it says nothing about how close the returned instant is to a true crossing.
- The database and HTTP layers are left out: SQL execution, `insert_pass_rows`, `delete_existing_passes`, `load_*`, the upsert loop of the fetch script, `fetch_text` and FastAPI parameter validation. The router model takes the pass table as a sequence of rows. Its metric is an already-validated `Metric`, because FastAPI rejects other names and `k` outside 1..100 before the handler runs.
- `ScheduleRouter.FetchCandidatePasses` keeps rows with equal `end_ts` in table order. The query's `ORDER BY end_ts` leaves their order to the database, so for `/top` a tie in both weight and end may come out in another order there.
- `BatchDriver.StationPasses` models one satellite and one ground station. The outer loops over satellites and stations, the deletion option and the progress printing are not modelled.
- `PassPrediction.PredictPasses` and `BatchDriver.StationPasses` require `step_seconds > 0` when `start < end`. A zero step makes the source's sampling loop append the same instant without end. A negative step walks the samples backwards, appending until memory or the `datetime` range runs out, and then it raises. Neither outcome is modelled.
- `BatchDriver.StationPasses` requires `chunk_hours != 0` when `start < end`, because a zero `chunk_hours` never advances the chunk loop. A negative `chunk_hours` is modelled: the first chunk's scan interval is empty, and `predict_passes` raises `ValueError`. With `start >= end` neither value matters: `predict_passes` rejects the interval, and the driver's loop never runs.
- The optimizer requires every pass to have `start_ts < end_ts`. Without it the predecessor of a pass can be the pass itself and the source's reconstruction loop need not terminate. The router's clip guarantees it.
- `parse_tle_epoch`: only the field validation and the year pivot are modelled. The `datetime` built from the day fraction (lines 41-47) is not; an epoch is kept as year, day number and fraction digits.
- `str.isdigit` and the `\d` of the regular expression are modelled as ASCII digits only. The Unicode digits they also accept are not.
- `str.splitlines` is modelled as cutting at each line-break character. It differs from Python only in `\r\n` and in a trailing empty piece; both give blank pieces, which the scan drops.
- `app/schedule/network_optimizer.py` is not part of this model. It imports a name `optimizer.py` does not define.
- `parse_utc` is not part of this model. Query bounds arrive as microsecond instants.

## Notes on the source

- On a tie, `_bisect_crossing` keeps the lower half: when `emid` equals the cutoff, the product is `<= 0` and `hi` moves to `mid`. The model follows this (`PassPrediction.HalveTieKeepsLower`).
- The batch driver rounds a clipped span to whole seconds (`round`), while the router and the smoke script truncate (`int`). A stored pass of more than 4.5 s and under 5 s therefore passes the driver's 5 s minimum but is dropped at query time (`ScheduleRouter.StoredRowBelowFiveSecondsIsDropped`).
- `strip("\r")` after `splitlines()` never changes a line, because `\r` is itself a line break (`TleParser.CarriageReturnFree`).
- The detector never emits a window that starts before its scan start, and the scan start is clamped to the horizon start. So the driver's "window straddles the start" branch never fires (`BatchDriver.StraddleNeverKeeps`).
