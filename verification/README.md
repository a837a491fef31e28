# combine_data, in Dafny

A model of the data-shaping core of `combine_data.py`, the script that folds a
download of intervals.icu data (activities, activity streams, wellness days,
calendar events) into one export for a language model. The model covers:

- the three stream analyses:
  - per-kilometre splits cut from the cumulative distance stream (`Splits`);
  - best sustained efforts over 1, 5, 10 and 20 minutes (`Peaks`);
  - the heart-rate zone distribution (`HrZones`);
- the three record builders, each a projection of one raw dictionary onto a
  fixed list of output keys with `None` values dropped:
  - activities (`Activities`);
  - wellness days (`Wellness`);
  - calendar events (`Calendar`);
- the summary statistics over the processed records (`Summary`);
- what `main` does between loading and writing (`Selection`):
  - the per-activity loop that looks up each activity's streams by id;
  - the stable newest-first sorts of activities and wellness days;
  - the selection of planned workouts from the calendar.

Supporting modules:

- `Json`: untyped JSON values, Python truthiness, and `dict.get` with and
  without a default.
- `Seqs`: list comprehensions with `if` filters, and Python's clamped slicing.
- `Stats`: the averaging idioms.
- `Streams`: the `{s["type"]: s["data"] for s in streams}` lookup.
- `Records`: timestamp slicing shared by the builders.
- `Order`: Python's string order, which `sorted`, `min` and `max` use on ISO
  dates.
- `Wrappers`: `Option`, and `Result` for the exceptions the code can raise
  on well-typed input.

Those exceptions are modelled as values, not excluded:

- `ZeroDivisionError` when a split's cadence slice is non-empty but all zero.
- `ZeroDivisionError` when a peak window's velocity slice is non-empty but
  all zero.
- `KeyError` when `activity["id"]` is read from an activity without an id.
  The main loop reads it for every activity. `process_activity` reads it
  again for a run that has streams.

Computed numbers are the unrounded reals that the source passes to `round`.
Every place where the source tests an unrounded value for `None` or
truthiness is modelled on that unrounded value. So which keys appear in each
record is exact.

## Model

| member | source | states |
|---|---|---|
| Json.ScaledIfTruthy | src/combine_data.py:209 | `f(x) if r.get(k) else None`: `None` exactly when the field is missing or falsy, otherwise the field's number times the unit factor |
| Json.OptNum | src/combine_data.py:90-91 | a missing optional mean is written as JSON `null`, and only then; a present one is written as that number |
| Records.DatePart | src/combine_data.py:196 | `start_date_local[:10]` is the first `min(10, len)` characters, a prefix of the timestamp (empty when it is missing) |
| Records.TimePart | src/combine_data.py:197 | `start_date_local[11:16]` has at most 5 characters; it is characters 11-15 of a full timestamp, everything from character 11 on for a timestamp of 12 to 15 characters, and empty for one of 11 characters or fewer |
| Records.StampParts | src/combine_data.py:196-197 | a `YYYY-MM-DDTHH:MM...` timestamp splits back into exactly its date and its hours and minutes |
| Seqs.Filter | src/combine_data.py:342 | a filtering comprehension keeps only elements that pass, keeps every element that passes, and is never longer than its input |
| Seqs.FilterCount | src/combine_data.py:342-343 | the filtered list has one element per input position that passes the test |
| Seqs.Slice | src/combine_data.py:72 | Python's `s[lo:hi]`: both bounds clamped to `len(s)`, empty when the start is at or past the end, the ordinary subsequence when both bounds are in range, and the rest of the list from the start when only the end runs past it (a channel shorter than the distance or time stream) |
| Seqs.ElemsCard | src/combine_data.py:360 | `len(set(xs))` is at most `len(xs)`, positive for a non-empty list, and equal to `len(xs)` exactly when no element repeats |
| Streams.KindsMembers | src/combine_data.py:48 | a stream type is a key of the lookup exactly when some stream carries it |
| Streams.ByKind | src/combine_data.py:48 | the lookup has exactly the types present as keys, and each maps to the data of the last stream of that type, as a dict comprehension keeps the last duplicate |
| Streams.Channel | src/combine_data.py:55-56 | `stream_data.get(kind, [])`: empty when no stream has that type, else the data of the last stream that has it |
| Stats.SumNonZero | src/combine_data.py:77 | dropping the zero samples (`if c`) leaves the sum unchanged |
| Stats.Average | src/combine_data.py:73 | `sum(s) / len(s) if s else None`: `None` exactly for an empty slice, otherwise a value that times the count gives back the sum |
| Stats.AverageWithin | src/combine_data.py:73 | a mean lies between any lower and upper bound of its samples |
| Stats.NonZeroEmpty | src/combine_data.py:77 | no sample survives `if c` exactly when every sample is zero |
| Stats.NonZeroMean | src/combine_data.py:77 | the cadence mean is `None` exactly for an empty slice; it raises `ZeroDivisionError` exactly for a non-empty all-zero slice; otherwise it times the non-zero count gives the sum |
| Stats.MeanOfNonZero | src/combine_data.py:141 | the mean of the non-zero samples times their count is the sum of all samples |
| Stats.DropZero | src/combine_data.py:90-91 | `round(v) if v else None`: a zero or missing mean reads as missing, any other value is kept |
| Splits.Altitude | src/combine_data.py:57 | an empty or missing `altitude` stream falls back to `fixed_altitude` |
| Splits.ElevationGain | src/combine_data.py:80-85 | the gain is never negative and never below the net climb from the first sample to the last |
| Splits.ElevationGainSplit | src/combine_data.py:80-95 | consecutive splits share their boundary sample, so the gains of the two parts add up to the gain of the whole profile |
| Splits.ElevationGainOfClimb | src/combine_data.py:83-85 | a profile that never descends gains exactly its net climb |
| Splits.HrMean | src/combine_data.py:72-90 | the split's heart rate is present exactly when its slice is non-empty with a non-zero sum; it is then non-zero, and times the slice length it gives the slice sum |
| Splits.SplitAt | src/combine_data.py:66-93 | one split raises exactly when its cadence slice is non-empty and all zero; otherwise it has the given kilometre, pace times 60 equal to the elapsed time, the heart-rate mean of its slice, the non-zero mean of its cadence slice with a zero mean dropped, and the elevation gain of its altitude slice, which is non-negative and zero without altitude |
| Splits.ScanSplits | src/combine_data.py:59-97 | the loop emits at most one split per remaining sample, numbered consecutively from the kilometre it starts at |
| Splits.ExtractSplits | src/combine_data.py:48-99 | no splits without both a distance and a time stream; otherwise at most one split per distance sample, numbered 1, 2, 3, ... |
| Splits.FindReach | src/combine_data.py:65-66 | the search returns the first sample from its start whose distance reaches the target, or reports that none does |
| Splits.Crossings | src/combine_data.py:65-97 | an independent description of where splits fall: boundary `k` is the first sample after boundary `k-1` to reach `(k+1)` km, and no sample after the last boundary reaches the next kilometre |
| Splits.ScanFollowsCrossings | src/combine_data.py:59-97 | the source's single pass over the samples yields exactly the splits cut at those crossings, failing exactly where they fail |
| Splits.SplitsAtCrossings | src/combine_data.py:42-99 | `extract_splits_from_stream` has one split per crossing: split `k` is kilometre `k+1`, cut from the previous crossing (sample 0 and time 0 for the first) to crossing `k`; it raises exactly when one of those splits raises |
| Peaks.FindEnd | src/combine_data.py:130-134 | the inner search finds the first sample at least `dur` seconds after the window start, or reports that none is |
| Peaks.WindowEnd | src/combine_data.py:129-137 | the window starting at `i` ends at the first sample `dur` seconds on, or has no end |
| Peaks.WindowEffort | src/combine_data.py:139-149 | a window raises exactly when its velocity slice is non-empty and all zero; an effort has positive pace, and no heart rate without a heart-rate stream |
| Peaks.WindowEffortValue | src/combine_data.py:139-149 | a window has an effort exactly when its non-zero velocities have a positive mean; the effort's pace is `(1000 / mean) / 60` of that mean, and with a heart-rate stream its heart rate is the mean of the heart-rate window (`None` when that window is empty) |
| Stats.NonZeroMeanSome | src/combine_data.py:77 | a mean of the non-zero samples that does not raise is present exactly when some sample is non-zero, and is then their mean |
| Peaks.PaceOfSpeed | src/combine_data.py:144 | `(1000 / v) / 60` is positive and converts back to the speed: pace times speed times 60 is 1000 |
| Peaks.StopFrom | src/combine_data.py:128-137 | the outer loop visits every start before the first start that has no window end, where it `break`s |
| Peaks.StepKeepsBest | src/combine_data.py:143-149 | `best_pace is None or pace < best_pace` keeps the running best the first fastest window seen so far |
| Peaks.ScanIsFold | src/combine_data.py:128-149 | the source's nested loops are a left fold over the candidate windows, stopping at the first that raises |
| Peaks.PeakForSpec | src/combine_data.py:123-149 | for one duration: the effort found is the first fastest candidate window; none is found exactly when no window has a positive mean velocity; it raises exactly when some window raises |
| Peaks.Collect | src/combine_data.py:123-155 | the loop over the durations stores efforts only under the durations' names |
| Peaks.CollectOk | src/combine_data.py:151-155 | when the loop completes, each duration's name is a key exactly when its scan found an effort, holding that effort and `round(best_hr) if best_hr else None` |
| Peaks.CollectErr | src/combine_data.py:123-155 | the loop raises exactly when some duration's scan raises, and with the error of the first such scan |
| Peaks.ExtractPeaks | src/combine_data.py:107-157 | nothing without a time stream or a non-empty velocity stream; otherwise it raises exactly when some duration's scan raises, and each name is present exactly when its scan found an effort, holding that effort's pace and its heart rate with a zero mean dropped |
| HrZones.ZoneFromIff | src/combine_data.py:174-177 | the zone search from any zone finds `z` exactly when `z` is the first bound above the sample, and finds nothing exactly when no bound is above it |
| HrZones.ZoneOfIff | src/combine_data.py:174-177 | a sample lands in the first zone whose bound is above it, and in none when it is at or above every bound |
| HrZones.ZoneCountsExact | src/combine_data.py:170-177 | each zone's counter is the number of non-zero samples whose zone it is |
| HrZones.TotalIsCounted | src/combine_data.py:179 | `sum(zone_times)` is the number of samples that are non-zero and below some bound |
| HrZones.NatToStringInjective | src/combine_data.py:184 | different numbers are formatted differently |
| HrZones.ZoneKeyInjective | src/combine_data.py:184 | different zones get different `zone_{i+1}_pct` keys |
| HrZones.Shares | src/combine_data.py:183-186 | zone `i`'s key is present exactly when its count is positive, holding `100 * count / total`, and every key is some zone's key |
| HrZones.ShareListSum | src/combine_data.py:183-186 | the shares add up to 100 times the counted fraction of the total |
| HrZones.SharesSumTo100 | src/combine_data.py:179-186 | the unrounded percentages of all the zones add up to exactly 100 |
| HrZones.HrZonesDetail | src/combine_data.py:164-186 | empty without heart-rate samples, zones or a counted sample; otherwise each zone with samples maps to its count as a percentage of all counted samples, and no other key appears |
| Activities.AvgPace | src/combine_data.py:208 | the average pace is present exactly when the distance is truthy, and pace times distance in km is the moving time in minutes |
| Activities.SplitValue | src/combine_data.py:87-93 | each split entry has exactly the five keys, holding the split's kilometre, pace, elevation gain, and heart rate and cadence (`null` when missing) |
| Activities.SplitsValue | src/combine_data.py:249-251 | `km_splits` lists one entry per split, in order |
| Activities.PeakValue | src/combine_data.py:152-155 | each peak entry has exactly the keys `pace_min_per_km` and `avg_hr`, holding the peak's pace and its heart rate (`null` when missing) |
| Activities.PeaksValue | src/combine_data.py:151-155 | `peak_efforts` has exactly the peaks' names as keys, each holding that peak's entry |
| Activities.StreamFields | src/combine_data.py:245-256 | the stream block raises exactly when there are streams and either a run lacks its id, a run's splits raise, or the peaks raise; a missing id is a `KeyError("id")`; the splits' error comes before the peaks'; without streams nothing is added |
| Activities.StreamFieldsEntries | src/combine_data.py:245-256 | `km_splits` is added exactly for a run with streams and at least one split, `peak_efforts` exactly when some peak was found, each holding the corresponding analysis |
| Activities.Assemble | src/combine_data.py:258-259 | after dropping `None` values, a field is present exactly when its value is not `None`, and no value is `None`; the values themselves are stated field by field by `ProcessActivityCopies`, `ProcessActivityPace`, `ProcessActivityMetrics`, `ProcessActivityFlags` and `ProcessActivityStreams` |
| Activities.ProcessActivity | src/combine_data.py:189-259 | `process_activity` raises exactly when the stream block does; otherwise it returns the assembled record for the stream entries, with no `None` value |
| Activities.ProcessActivityCopies | src/combine_data.py:194-243 | every pass-through field (`id`, `type`, `name`, `gap_pace`, `avg_hr`, `device`, ...) is present exactly when its input is not `None`, and then holds the input unchanged |
| Activities.ProcessActivityPace | src/combine_data.py:196-208 | date, time, distance and moving time are always present, converting back to the input; average pace is present exactly when the distance is truthy, and pace times distance is moving time |
| Activities.ProcessActivityFlags | src/combine_data.py:241-242 | `is_race` and `is_commute` default to false when the input lacks them; otherwise they hold the input's `race` and `commute` values, and are dropped only for an explicit `None` |
| Activities.ProcessActivityMetrics | src/combine_data.py:205-232 | elapsed minutes and elevation gain and loss are always present, from their inputs with 0 for a missing one; the km/h speeds (input times 3.6), cadence, trimp, ctl and atl are present exactly when their input is truthy, and then hold it |
| Activities.ProcessActivityStreams | src/combine_data.py:245-256 | `km_splits` appears exactly for a run with streams and at least one split, numbered from 1; `peak_efforts` appears exactly when a peak was found, under the peaks' names |
| Wellness.ProcessDay | src/combine_data.py:269-307 | a processed day has no `None` value, and a field is present exactly when its value before the drop is not `None` |
| Wellness.ProcessDayCopies | src/combine_data.py:270-303 | every pass-through wellness field is present exactly when its input is not `None`, and holds it unchanged |
| Wellness.ProcessDayForm | src/combine_data.py:273-276 | fitness, fatigue, form and ramp rate are always present, a missing input reading as 0, and form is fitness minus fatigue |
| Wellness.ProcessDaySleep | src/combine_data.py:287 | sleep hours are present exactly when the sleep seconds are truthy, and times 3600 give them back |
| Wellness.ProcessWellness | src/combine_data.py:262-309 | one processed day per input day, in input order |
| Calendar.ProcessEvent | src/combine_data.py:319-333 | a processed event has no `None` value, and a field is present exactly when its value before the drop is not `None` |
| Calendar.ProcessEventCopies | src/combine_data.py:320-330 | every pass-through event field is present exactly when its input is not `None`, and holds it unchanged |
| Calendar.ProcessEventCompleted | src/combine_data.py:321-330 | `date` and `completed` are always present, and `completed` is true exactly when the event carries a paired activity id |
| Calendar.ProcessEventPlanned | src/combine_data.py:326-327 | the planned distance and duration appear exactly when their inputs are truthy, and convert back to them |
| Calendar.ProcessCalendarEvents | src/combine_data.py:312-335 | one processed event per input event, in input order |
| Order.StrLeIsLex | src/combine_data.py:353 | the recursive string order is the lexicographic order: a prefix comes first, otherwise the first differing code point decides |
| Order.StrLeTotal | src/combine_data.py:353 | any two strings are comparable |
| Order.StrLeAntisym | src/combine_data.py:353 | two strings each at most the other are equal |
| Order.StrLeTrans | src/combine_data.py:353 | the order is transitive |
| Order.MinStr | src/combine_data.py:358 | `sorted(ds)[0]` is an element of `ds` and at most every element |
| Order.MaxStr | src/combine_data.py:359 | `sorted(ds)[-1]` is an element of `ds` and at least every element |
| Order.MinBeforeMax | src/combine_data.py:358-359 | the earliest date does not come after the latest |
| Summary.TruthyNumsEmpty | src/combine_data.py:349-350 | `avg_field` has no values exactly when no record has a truthy value |
| Summary.TruthyNumsSum | src/combine_data.py:345-350 | the values `avg_field` averages add up to `sum_field` of the same field |
| Summary.AvgField | src/combine_data.py:348-350 | `avg_field` is `None` exactly when no record has a truthy value; otherwise the mean times the number of truthy values is `sum_field` |
| Summary.SumFieldSplit | src/combine_data.py:345-346 | splitting the records by any test splits `sum_field` into the two parts' sums |
| Summary.TruthyStrsMembers | src/combine_data.py:353 | a date is collected exactly when it is non-empty and some record holds it |
| Summary.PeriodOf | src/combine_data.py:353-361 | `start` and `end` are both missing or both present, and then `start` is not after `end` |
| Summary.CtlChangeOf | src/combine_data.py:390 | `ctl_change` is present exactly from two wellness days on |
| Summary.AvgOrZero | src/combine_data.py:393 | `avg_steps` is 0 when no day has a step count; otherwise times the number of days with steps it is their total |
| Summary.CalculateSummary | src/combine_data.py:338-395 | the report counts every activity; its run and ride counts match the breakdowns and together never exceed the activities; the period bounds are both present or both missing; `days` never exceeds the wellness days; `ctl_change` is present exactly from two days on |
| Summary.CountsArePositions | src/combine_data.py:342-365 | `runs` and `rides` are the numbers of activities whose type is `Run`, and `Ride` or `VirtualRide` |
| Summary.PeriodBounds | src/combine_data.py:353-359 | `start` and `end` are missing exactly when no activity has a date; otherwise both are activity dates, and every activity date lies between them |
| Summary.PeriodDays | src/combine_data.py:354-360 | `days` is the number of distinct wellness dates: zero exactly when no day has a date, and the number of dated days exactly when no date repeats |
| Summary.TotalsSplitByRuns | src/combine_data.py:363-378 | total distance, time and climbing are the running figures plus those of the other activities |
| Summary.CtlChangeOfProcessed | src/combine_data.py:388-390 | over processed wellness days, `ctl_start` and `ctl_end` are the first and last day's `ctl` (0 when missing), and `ctl_change` is their difference |
| Selection.SortDesc | src/combine_data.py:446 | the sort returns a permutation of its input whose keys never increase |
| Selection.SortStable | src/combine_data.py:446 | the sort is stable: the elements with any one key come out in input order |
| Selection.NewestFirst | src/combine_data.py:446-447 | `sorted(..., key=date or "", reverse=True)` is a permutation of the records, with dates never increasing under Python's string order |
| Selection.NewestFirstStable | src/combine_data.py:446-447 | records with the same date keep their input order |
| Selection.PlannedWorkouts | src/combine_data.py:448 | the planned workouts are exactly the events whose category is `WORKOUT`, one per such position |
| Selection.WorkoutKept | src/combine_data.py:323 | a processed event is a workout exactly when its raw event was |
| Selection.PlannedFromRaw | src/combine_data.py:431-448 | selecting workouts after processing gives the same list as processing only the raw workout events |
| Selection.ProcessAll | src/combine_data.py:422-425 | a completed loop has one processed activity per raw activity |
| Selection.ProcessAllOk | src/combine_data.py:422-425 | on success, output `i` is raw activity `i` processed with the streams stored under its own id |
| Selection.ProcessAllErr | src/combine_data.py:422-425 | the loop raises exactly when some activity's step raises, with the exception of the first one that does |

## Left out

- Rounding: every `round(...)` is left out, and the model keeps the unrounded reals. The summary tests processed values for truthiness. A processed value that rounds to 0 is falsy in the script but truthy in the model.
- Input and output are left out, because they are I/O: `find_latest_download`, `load_json`, `sys.argv`, writing the output file, and every `print`.
- `generate_export_id` is left out because it uses randomness. The `generated` timestamp is left out because it reads the clock.
- The `athlete` name and id are left out; they are copied from the athlete file without processing.
- Key order in dictionaries and the JSON encoding are left out. Records are maps from field to value.
- `None` samples inside a stream's data are not modelled; samples are reals. A zero sample plays their part in the `if c` / `if hr` filters.
- Integers and floats are both JSON numbers (reals). `bool` values taking part in arithmetic are not modelled.
- `TypeError` paths are excluded by requires, not modelled as errors: slicing or adding a field of the wrong type (`ActivityInputOk`, `DayInputOk`, `EventInputOk`, `ActivitiesOk`, `DaysOk`).
- `Splits.ExtractSplits`: the script reads `time[i]` only at a sample `i` that completes a kilometre, and raises `IndexError` only when such an `i` is at or past the end of the time stream. The requirement `StreamsAligned` asks instead that the time stream be at least as long as the distance stream. So it also excludes inputs the script accepts: those with a shorter time stream where no kilometre completes past its end. Neither the `IndexError` nor those inputs are modelled.
- A stream without a `type` or `data` key raises `KeyError` in the lookup; this is not modelled because streams are typed.
- The unused `activity_id` parameter of `extract_splits_from_stream` is dropped, and so is the unused `activity_type` parameter of `extract_peak_efforts`.
- `extract_hr_zones_detail` is modelled on its own. Nothing in the script calls it, and it takes the zone bounds as a parameter.
- Summary dates must be strings when truthy. Python could also sort dates that are all integers; that case is not modelled.
- `Selection.ProcessAll` takes the stream table as a map keyed by JSON value. It does not model that keys loaded from JSON are always strings. Because of that, an integer activity id finds no streams in the real script.

