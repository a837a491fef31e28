/** `process_activity`: one activity dictionary projected onto the fixed
    activity fields, the stream analyses added for a run with streams, and
    `None` values dropped. */
module Activities {
  import opened Wrappers
  import opened Json
  import opened Streams
  import opened Records
  import Splits
  import Peaks

  /** The keys of a processed activity. */
  datatype Field =
    | Id | Date | Time | Type | Name | Description
    | DistanceKm | MovingTimeMin | ElapsedTimeMin
    | AvgPaceMinPerKm | AvgSpeedKmh | MaxSpeedKmh | GapPace
    | AvgHr | MaxHr | HrZoneTimesSec | AvgCadence
    | ElevationGainM | ElevationLossM
    | TrainingLoad | Trimp | Calories | CtlFitness | AtlFatigue
    | PaceZoneTimesSec | Device | IsRace | IsCommute | KmSplits | PeakEfforts

  /** The JSON name of a field. */
  function Key(f: Field): string {
    match f
    case Id => "id"
    case Date => "date"
    case Time => "time"
    case Type => "type"
    case Name => "name"
    case Description => "description"
    case DistanceKm => "distance_km"
    case MovingTimeMin => "moving_time_min"
    case ElapsedTimeMin => "elapsed_time_min"
    case AvgPaceMinPerKm => "avg_pace_min_per_km"
    case AvgSpeedKmh => "avg_speed_kmh"
    case MaxSpeedKmh => "max_speed_kmh"
    case GapPace => "gap_pace"
    case AvgHr => "avg_hr"
    case MaxHr => "max_hr"
    case HrZoneTimesSec => "hr_zone_times_sec"
    case AvgCadence => "avg_cadence"
    case ElevationGainM => "elevation_gain_m"
    case ElevationLossM => "elevation_loss_m"
    case TrainingLoad => "training_load"
    case Trimp => "trimp"
    case Calories => "calories"
    case CtlFitness => "ctl_fitness"
    case AtlFatigue => "atl_fatigue"
    case PaceZoneTimesSec => "pace_zone_times_sec"
    case Device => "device"
    case IsRace => "is_race"
    case IsCommute => "is_commute"
    case KmSplits => "km_splits"
    case PeakEfforts => "peak_efforts"
  }

  /** A processed activity. */
  type Activity = map<Field, Value>

  /** The fields the builder does arithmetic on are numbers, and the start
      timestamp is a string, when present. */
  predicate ActivityInputOk(a: Record) {
    StrOrAbsent(a, "start_date_local") &&
    NumOrAbsent(a, "distance") && NumOrAbsent(a, "moving_time") &&
    NumOrAbsent(a, "elapsed_time") &&
    NumOrAbsent(a, "total_elevation_gain") && NumOrAbsent(a, "total_elevation_loss") &&
    NumWhenTruthy(a, "average_speed") && NumWhenTruthy(a, "max_speed") &&
    NumWhenTruthy(a, "average_cadence") && NumWhenTruthy(a, "trimp") &&
    NumWhenTruthy(a, "icu_ctl") && NumWhenTruthy(a, "icu_atl")
  }

  /** The activity fields passed through unchanged, with their input keys. */
  function Source(f: Field): Option<string> {
    match f
    case Id => Some("id")
    case Type => Some("type")
    case Name => Some("name")
    case Description => Some("description")
    case GapPace => Some("gap")
    case AvgHr => Some("average_heartrate")
    case MaxHr => Some("max_heartrate")
    case HrZoneTimesSec => Some("icu_hr_zone_times")
    case TrainingLoad => Some("icu_training_load")
    case Calories => Some("calories")
    case PaceZoneTimesSec => Some("pace_zone_times")
    case Device => Some("device_name")
    case _ => None
  }

  /** `activity.get("type") == "Run"`. */
  predicate IsRun(a: Record) {
    Get(a, "type") == Str("Run")
  }

  /** `(moving_time / 60) / (distance / 1000)` once `distance` is truthy. */
  function AvgPace(a: Record): (v: Value)
    requires NumOrAbsent(a, "distance") && NumOrAbsent(a, "moving_time")
    ensures v != Null <==> Truthy(Get(a, "distance"))
    ensures v != Null ==>
              v.Num? && v.n * (NumOr(a, "distance", 1.0) / 1000.0) == NumOr(a, "moving_time", 0.0) / 60.0
  {
    if Truthy(Get(a, "distance")) then
      var km := NumOr(a, "distance", 1.0) / 1000.0;
      Num((NumOr(a, "moving_time", 0.0) / 60.0) / km)
    else Null
  }

  /** One entry of `km_splits`; its `None` values are kept. */
  function SplitValue(s: Splits.Split): (v: Value)
    ensures v.Obj? && v.fields.Keys ==
              {"km", "pace_min_per_km", "avg_hr", "avg_cadence", "elevation_gain_m"}
    ensures v.fields["km"] == Num(s.km as real)
    ensures v.fields["pace_min_per_km"] == Num(s.paceMinPerKm)
    ensures v.fields["avg_hr"] == OptNum(s.avgHr)
    ensures v.fields["avg_cadence"] == OptNum(s.avgCadence)
    ensures v.fields["elevation_gain_m"] == Num(s.elevationGainM)
  {
    Obj(map[
      "km" := Num(s.km as real),
      "pace_min_per_km" := Num(s.paceMinPerKm),
      "avg_hr" := OptNum(s.avgHr),
      "avg_cadence" := OptNum(s.avgCadence),
      "elevation_gain_m" := Num(s.elevationGainM)])
  }

  /** The `km_splits` list. */
  function SplitsValue(splits: seq<Splits.Split>): (v: Value)
    ensures v.Arr? && |v.items| == |splits|
    ensures forall k :: 0 <= k < |splits| ==> v.items[k] == SplitValue(splits[k])
  {
    Arr(seq(|splits|, k requires 0 <= k < |splits| => SplitValue(splits[k])))
  }

  /** One entry of `peak_efforts`; its `None` heart rate is kept. */
  function PeakValue(p: Peaks.Peak): (v: Value)
    ensures v.Obj? && v.fields.Keys == {"pace_min_per_km", "avg_hr"}
    ensures v.fields["pace_min_per_km"] == Num(p.paceMinPerKm)
    ensures v.fields["avg_hr"] == OptNum(p.avgHr)
  {
    Obj(map["pace_min_per_km" := Num(p.paceMinPerKm), "avg_hr" := OptNum(p.avgHr)])
  }

  /** The `peak_efforts` dictionary, under the same names as the peaks. */
  function PeaksValue(peaks: map<string, Peaks.Peak>): (v: Value)
    ensures v.Obj? && v.fields.Keys == peaks.Keys
    ensures forall name :: name in peaks ==> v.fields[name] == PeakValue(peaks[name])
  {
    Obj(map name | name in peaks :: PeakValue(peaks[name]))
  }

  /** The stream-derived entries of an activity, `None` where the entry is
      not added. */
  datatype StreamEntries = StreamEntries(kmSplits: Value, peakEfforts: Value)

  /** The `if streams:` block: `km_splits` for a run with at least one
      split, `peak_efforts` when some peak was found. Reading
      `activity["id"]` raises when a run with streams has no id; the splits
      are computed before the peaks, so their error wins. */
  function StreamFields(a: Record, ss: seq<Stream>): (r: Result<StreamEntries>)
    requires IsRun(a) ==> Splits.StreamsAligned(ss)
    ensures r.Err? <==>
              |ss| > 0 &&
              ((IsRun(a) && ("id" !in a || Splits.ExtractSplits(ss).Err?)) ||
               Peaks.ExtractPeaks(ss).Err?)
    ensures |ss| > 0 && IsRun(a) && "id" !in a ==> r == Err(KeyError("id"))
    ensures |ss| > 0 && IsRun(a) && "id" in a && Splits.ExtractSplits(ss).Err? ==>
              r == Err(Splits.ExtractSplits(ss).error)
    ensures |ss| == 0 ==> r == Ok(StreamEntries(Null, Null))
  {
    if |ss| == 0 then Ok(StreamEntries(Null, Null))
    else
      var splits :-
        if !IsRun(a) then Ok([])
        else if "id" !in a then Err(KeyError("id"))
        else Splits.ExtractSplits(ss);
      var peaks :- Peaks.ExtractPeaks(ss);
      Ok(StreamEntries(
        if |splits| > 0 then SplitsValue(splits) else Null,
        if |peaks| > 0 then PeaksValue(peaks) else Null))
  }

  /** `km_splits` is there exactly for a run with streams and at least one
      split, one entry per split; `peak_efforts` exactly when a peak was
      found, under the peaks' names. */
  lemma StreamFieldsEntries(a: Record, ss: seq<Stream>)
    requires IsRun(a) ==> Splits.StreamsAligned(ss)
    requires StreamFields(a, ss).Ok?
    ensures var o := StreamFields(a, ss).value;
            (o.kmSplits != Null <==>
               |ss| > 0 && IsRun(a) && |Splits.ExtractSplits(ss).value| > 0) &&
            (o.kmSplits != Null ==> o.kmSplits == SplitsValue(Splits.ExtractSplits(ss).value))
    ensures var o := StreamFields(a, ss).value;
            (o.peakEfforts != Null <==> |ss| > 0 && |Peaks.ExtractPeaks(ss).value| > 0) &&
            (o.peakEfforts != Null ==> o.peakEfforts == PeaksValue(Peaks.ExtractPeaks(ss).value))
  {
  }

  /** The value of each field before `None` values are dropped. */
  function FieldValue(a: Record, o: StreamEntries, f: Field): Value
    requires ActivityInputOk(a)
  {
    match f
    case Date => Str(DatePart(a))
    case Time => Str(TimePart(a))
    case DistanceKm => Num(NumOr(a, "distance", 0.0) / 1000.0)
    case MovingTimeMin => Num(NumOr(a, "moving_time", 0.0) / 60.0)
    case ElapsedTimeMin => Num(NumOr(a, "elapsed_time", 0.0) / 60.0)
    case AvgPaceMinPerKm => AvgPace(a)
    case AvgSpeedKmh => ScaledIfTruthy(a, "average_speed", 3.6)
    case MaxSpeedKmh => ScaledIfTruthy(a, "max_speed", 3.6)
    case AvgCadence => ScaledIfTruthy(a, "average_cadence", 1.0)
    case ElevationGainM => Num(NumOr(a, "total_elevation_gain", 0.0))
    case ElevationLossM => Num(NumOr(a, "total_elevation_loss", 0.0))
    case Trimp => ScaledIfTruthy(a, "trimp", 1.0)
    case CtlFitness => ScaledIfTruthy(a, "icu_ctl", 1.0)
    case AtlFatigue => ScaledIfTruthy(a, "icu_atl", 1.0)
    case IsRace => GetOr(a, "race", Bool(false))
    case IsCommute => GetOr(a, "commute", Bool(false))
    case KmSplits => o.kmSplits
    case PeakEfforts => o.peakEfforts
    case _ => Get(a, Source(f).value)
  }

  /** The record once `None` values are dropped: every field whose value
      is not `None`. */
  function Assemble(a: Record, o: StreamEntries): (r: Activity)
    requires ActivityInputOk(a)
    ensures NoNulls(r)
    ensures forall f :: f in r <==> FieldValue(a, o, f) != Null
  {
    map f: Field | FieldValue(a, o, f) != Null :: FieldValue(a, o, f)
  }

  /** `process_activity`: raises exactly when reading the id of a run with
      streams fails or a stream analysis raises; otherwise every field
      whose value is not `None`. */
  function ProcessActivity(a: Record, ss: seq<Stream>): (r: Result<Activity>)
    requires ActivityInputOk(a)
    requires IsRun(a) ==> Splits.StreamsAligned(ss)
    ensures r.Err? <==>
              |ss| > 0 &&
              ((IsRun(a) && ("id" !in a || Splits.ExtractSplits(ss).Err?)) ||
               Peaks.ExtractPeaks(ss).Err?)
    ensures |ss| > 0 && IsRun(a) && "id" !in a ==> r == Err(KeyError("id"))
    ensures r.Ok? ==> NoNulls(r.value)
    ensures r.Ok? ==> StreamFields(a, ss).Ok? && r.value == Assemble(a, StreamFields(a, ss).value)
  {
    var o :- StreamFields(a, ss);
    Ok(Assemble(a, o))
  }

  /** The copied fields are present exactly when their input is not
      `None`, and hold it unchanged. */
  lemma ProcessActivityCopies(a: Record, ss: seq<Stream>)
    requires ActivityInputOk(a)
    requires IsRun(a) ==> Splits.StreamsAligned(ss)
    requires ProcessActivity(a, ss).Ok?
    ensures CopiesAll(ProcessActivity(a, ss).value, a, Source)
  {
    var o := StreamFields(a, ss).value;
    var r := ProcessActivity(a, ss).value;
    forall f | Source(f).Some?
      ensures (f in r <==> Get(a, Source(f).value) != Null) &&
              (f in r ==> r[f] == a[Source(f).value])
    {
      assert FieldValue(a, o, f) == Get(a, Source(f).value);
    }
  }

  /** The start stamp splits into date and time, distance and moving time
      convert back to their inputs, and the pace is present exactly when the
      distance is truthy, times the distance giving the moving time. */
  predicate PaceFacts(a: Record, r: Activity)
    requires ActivityInputOk(a)
  {
    Date in r && r[Date] == Str(DatePart(a)) &&
    Time in r && r[Time] == Str(TimePart(a)) &&
    DistanceKm in r && r[DistanceKm].Num? &&
    r[DistanceKm].n * 1000.0 == NumOr(a, "distance", 0.0) &&
    MovingTimeMin in r && r[MovingTimeMin].Num? &&
    r[MovingTimeMin].n * 60.0 == NumOr(a, "moving_time", 0.0) &&
    (AvgPaceMinPerKm in r <==> Truthy(Get(a, "distance"))) &&
    (AvgPaceMinPerKm in r ==>
       r[AvgPaceMinPerKm].Num? &&
       r[AvgPaceMinPerKm].n * r[DistanceKm].n == r[MovingTimeMin].n)
  }

  /** Date, time, distance and moving time are always there; the average
      pace appears exactly when the distance is truthy, and pace times
      distance is the moving time. */
  lemma ProcessActivityPace(a: Record, ss: seq<Stream>)
    requires ActivityInputOk(a)
    requires IsRun(a) ==> Splits.StreamsAligned(ss)
    requires ProcessActivity(a, ss).Ok?
    ensures PaceFacts(a, ProcessActivity(a, ss).value)
  {
    AssemblePace(a, StreamFields(a, ss).value);
  }

  /** The pace facts hold of the assembled record whatever the stream
      entries. */
  lemma AssemblePace(a: Record, o: StreamEntries)
    requires ActivityInputOk(a)
    ensures PaceFacts(a, Assemble(a, o))
  {
    var r := Assemble(a, o);
    assert r[Date] == FieldValue(a, o, Date);
    assert r[Time] == FieldValue(a, o, Time);
    assert r[DistanceKm] == FieldValue(a, o, DistanceKm);
    assert r[MovingTimeMin] == FieldValue(a, o, MovingTimeMin);
    assert AvgPaceMinPerKm in r <==> FieldValue(a, o, AvgPaceMinPerKm) != Null;
    if AvgPaceMinPerKm in r {
      assert r[AvgPaceMinPerKm] == AvgPace(a);
      assert Truthy(Get(a, "distance"));
    }
  }

  /** The race and commute flags are copied from the input when it has
      them, an explicit `None` dropping them, and are false when it lacks
      them. */
  predicate FlagFacts(a: Record, r: Activity) {
    ("race" !in a ==> IsRace in r && r[IsRace] == Bool(false)) &&
    ("race" in a ==> (IsRace in r <==> a["race"] != Null) && (IsRace in r ==> r[IsRace] == a["race"])) &&
    ("commute" !in a ==> IsCommute in r && r[IsCommute] == Bool(false)) &&
    ("commute" in a ==> (IsCommute in r <==> a["commute"] != Null) && (IsCommute in r ==> r[IsCommute] == a["commute"]))
  }

  /** The race and commute flags default to false when the input lacks
      them, and otherwise hold the input's value unless it is `None`. */
  lemma ProcessActivityFlags(a: Record, ss: seq<Stream>)
    requires ActivityInputOk(a)
    requires IsRun(a) ==> Splits.StreamsAligned(ss)
    requires ProcessActivity(a, ss).Ok?
    ensures FlagFacts(a, ProcessActivity(a, ss).value)
  {
    AssembleFlags(a, StreamFields(a, ss).value);
  }

  /** The flag facts hold of the assembled record whatever the stream
      entries. */
  lemma AssembleFlags(a: Record, o: StreamEntries)
    requires ActivityInputOk(a)
    ensures FlagFacts(a, Assemble(a, o))
  {
    var r := Assemble(a, o);
    assert IsRace in r <==> FieldValue(a, o, IsRace) != Null;
    assert IsCommute in r <==> FieldValue(a, o, IsCommute) != Null;
    if IsRace in r {
      assert r[IsRace] == FieldValue(a, o, IsRace);
    }
    if IsCommute in r {
      assert r[IsCommute] == FieldValue(a, o, IsCommute);
    }
  }

  /** A field computed as `f(a.get(key)) if a.get(key) else None` with
      `f` scaling by `factor`: present exactly when the input is truthy, and
      then the scaled input. */
  predicate ScaledFact(a: Record, r: Activity, f: Field, key: string, factor: real) {
    (f in r <==> Truthy(Get(a, key))) &&
    (f in r ==> key in a && a[key].Num? && r[f] == Num(a[key].n * factor))
  }

  /** The always-present metrics: elapsed minutes and the elevation gain
      and loss, a missing input reading as 0. */
  predicate PlainMetrics(a: Record, r: Activity)
    requires ActivityInputOk(a)
  {
    ElapsedTimeMin in r && r[ElapsedTimeMin] == Num(NumOr(a, "elapsed_time", 0.0) / 60.0) &&
    ElevationGainM in r && r[ElevationGainM] == Num(NumOr(a, "total_elevation_gain", 0.0)) &&
    ElevationLossM in r && r[ElevationLossM] == Num(NumOr(a, "total_elevation_loss", 0.0))
  }

  /** The movement metrics kept only when their input is truthy: the
      speeds in km/h and the cadence. */
  predicate MotionMetrics(a: Record, r: Activity) {
    ScaledFact(a, r, AvgSpeedKmh, "average_speed", 3.6) &&
    ScaledFact(a, r, MaxSpeedKmh, "max_speed", 3.6) &&
    ScaledFact(a, r, AvgCadence, "average_cadence", 1.0)
  }

  /** The load metrics kept only when their input is truthy: trimp and
      the fitness context. */
  predicate LoadMetrics(a: Record, r: Activity) {
    ScaledFact(a, r, Trimp, "trimp", 1.0) &&
    ScaledFact(a, r, CtlFitness, "icu_ctl", 1.0) &&
    ScaledFact(a, r, AtlFatigue, "icu_atl", 1.0)
  }

  /** The computed metrics, each from its input field. */
  predicate MetricFacts(a: Record, r: Activity)
    requires ActivityInputOk(a)
  {
    PlainMetrics(a, r) && MotionMetrics(a, r) && LoadMetrics(a, r)
  }

  /** Elapsed time, speeds, cadence, elevation, trimp and the fitness
      context hold the values computed from their input fields. */
  lemma ProcessActivityMetrics(a: Record, ss: seq<Stream>)
    requires ActivityInputOk(a)
    requires IsRun(a) ==> Splits.StreamsAligned(ss)
    requires ProcessActivity(a, ss).Ok?
    ensures MetricFacts(a, ProcessActivity(a, ss).value)
  {
    AssembleMetrics(a, StreamFields(a, ss).value);
  }

  /** The metric facts hold of the assembled record whatever the stream
      entries. */
  lemma AssembleMetrics(a: Record, o: StreamEntries)
    requires ActivityInputOk(a)
    ensures MetricFacts(a, Assemble(a, o))
  {
    AssemblePlain(a, o);
    AssembleMotion(a, o);
    AssembleLoad(a, o);
  }

  lemma AssemblePlain(a: Record, o: StreamEntries)
    requires ActivityInputOk(a)
    ensures PlainMetrics(a, Assemble(a, o))
  {
    AssembleNum(a, o, ElapsedTimeMin, NumOr(a, "elapsed_time", 0.0) / 60.0);
    AssembleNum(a, o, ElevationGainM, NumOr(a, "total_elevation_gain", 0.0));
    AssembleNum(a, o, ElevationLossM, NumOr(a, "total_elevation_loss", 0.0));
  }

  lemma AssembleMotion(a: Record, o: StreamEntries)
    requires ActivityInputOk(a)
    ensures MotionMetrics(a, Assemble(a, o))
  {
    AssembleScaled(a, o, AvgSpeedKmh, "average_speed", 3.6);
    AssembleScaled(a, o, MaxSpeedKmh, "max_speed", 3.6);
    AssembleScaled(a, o, AvgCadence, "average_cadence", 1.0);
  }

  lemma AssembleLoad(a: Record, o: StreamEntries)
    requires ActivityInputOk(a)
    ensures LoadMetrics(a, Assemble(a, o))
  {
    AssembleScaled(a, o, Trimp, "trimp", 1.0);
    AssembleScaled(a, o, CtlFitness, "icu_ctl", 1.0);
    AssembleScaled(a, o, AtlFatigue, "icu_atl", 1.0);
  }

  /** One always-present numeric field of the assembled record. */
  lemma AssembleNum(a: Record, o: StreamEntries, f: Field, x: real)
    requires ActivityInputOk(a)
    requires FieldValue(a, o, f) == Num(x)
    ensures f in Assemble(a, o) && Assemble(a, o)[f] == Num(x)
  {
  }

  /** One scaled field of the assembled record. */
  lemma AssembleScaled(a: Record, o: StreamEntries, f: Field, key: string, factor: real)
    requires ActivityInputOk(a) && NumWhenTruthy(a, key)
    requires FieldValue(a, o, f) == ScaledIfTruthy(a, key, factor)
    ensures ScaledFact(a, Assemble(a, o), f, key, factor)
  {
    var r := Assemble(a, o);
    if f in r {
      assert r[f] == FieldValue(a, o, f);
    }
  }

  /** The stream entries land in the record exactly when they are not
      `None`. */
  lemma AssembleStreams(a: Record, o: StreamEntries)
    requires ActivityInputOk(a)
    ensures var r := Assemble(a, o);
            (KmSplits in r <==> o.kmSplits != Null) &&
            (KmSplits in r ==> r[KmSplits] == o.kmSplits) &&
            (PeakEfforts in r <==> o.peakEfforts != Null) &&
            (PeakEfforts in r ==> r[PeakEfforts] == o.peakEfforts)
  {
    var r := Assemble(a, o);
    assert KmSplits in r <==> FieldValue(a, o, KmSplits) != Null;
    assert PeakEfforts in r <==> FieldValue(a, o, PeakEfforts) != Null;
  }

  /** `km_splits` appears exactly for a run with streams and at least one
      split, numbered from 1; `peak_efforts` appears exactly when a peak
      was found, under the peaks' names. */
  lemma ProcessActivityStreams(a: Record, ss: seq<Stream>)
    requires ActivityInputOk(a)
    requires IsRun(a) ==> Splits.StreamsAligned(ss)
    requires ProcessActivity(a, ss).Ok?
    ensures var r := ProcessActivity(a, ss).value;
            (KmSplits in r <==>
               |ss| > 0 && IsRun(a) && Splits.ExtractSplits(ss).Ok? &&
               |Splits.ExtractSplits(ss).value| > 0) &&
            (PeakEfforts in r <==>
               |ss| > 0 && Peaks.ExtractPeaks(ss).Ok? && |Peaks.ExtractPeaks(ss).value| > 0)
    ensures var r := ProcessActivity(a, ss).value;
            KmSplits in r ==>
              r[KmSplits].Arr? &&
              |r[KmSplits].items| == |Splits.ExtractSplits(ss).value| &&
              forall k :: 0 <= k < |r[KmSplits].items| ==>
                r[KmSplits].items[k].Obj? && "km" in r[KmSplits].items[k].fields &&
                r[KmSplits].items[k].fields["km"] == Num((k + 1) as real)
    ensures var r := ProcessActivity(a, ss).value;
            PeakEfforts in r ==>
              r[PeakEfforts].Obj? &&
              r[PeakEfforts].fields.Keys == Peaks.ExtractPeaks(ss).value.Keys
  {
    StreamFieldsEntries(a, ss);
    AssembleStreams(a, StreamFields(a, ss).value);
    var r := ProcessActivity(a, ss).value;
    if KmSplits in r {
      var splits := Splits.ExtractSplits(ss).value;
      assert r[KmSplits] == SplitsValue(splits);
    }
  }
}
