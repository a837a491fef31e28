/** `process_wellness`: each daily wellness dictionary projected onto the
    fixed wellness fields, with `None` values dropped. */
module Wellness {
  import opened Wrappers
  import opened Json
  import opened Records
  import opened Seqs

  /** The keys of a processed wellness day. */
  datatype Field =
    | Date | CtlFitness | AtlFatigue | TsbForm | RampRate | TrainingLoad
    | RestingHr | Hrv | HrvSdnn | WeightKg | Vo2Max
    | SleepHours | SleepScore | SleepQuality | Steps
    | Soreness | Fatigue | Stress | Mood | Motivation | Readiness | SportInfo

  /** The JSON name of a field. */
  function Key(f: Field): string {
    match f
    case Date => "date"
    case CtlFitness => "ctl_fitness"
    case AtlFatigue => "atl_fatigue"
    case TsbForm => "tsb_form"
    case RampRate => "ramp_rate"
    case TrainingLoad => "training_load"
    case RestingHr => "resting_hr"
    case Hrv => "hrv"
    case HrvSdnn => "hrv_sdnn"
    case WeightKg => "weight_kg"
    case Vo2Max => "vo2max"
    case SleepHours => "sleep_hours"
    case SleepScore => "sleep_score"
    case SleepQuality => "sleep_quality"
    case Steps => "steps"
    case Soreness => "soreness"
    case Fatigue => "fatigue"
    case Stress => "stress"
    case Mood => "mood"
    case Motivation => "motivation"
    case Readiness => "readiness"
    case SportInfo => "sport_info"
  }

  /** A processed wellness day. */
  type Day = map<Field, Value>

  /** The wellness fields the builder does arithmetic on are numbers. */
  predicate DayInputOk(d: Record) {
    NumOrAbsent(d, "ctl") && NumOrAbsent(d, "atl") && NumOrAbsent(d, "rampRate") &&
    NumWhenTruthy(d, "sleepSecs")
  }

  /** The wellness fields passed through unchanged, with their input keys. */
  function Source(f: Field): Option<string> {
    match f
    case Date => Some("id")
    case TrainingLoad => Some("ctlLoad")
    case RestingHr => Some("restingHR")
    case Hrv => Some("hrv")
    case HrvSdnn => Some("hrvSDNN")
    case WeightKg => Some("weight")
    case Vo2Max => Some("vo2max")
    case SleepScore => Some("sleepScore")
    case SleepQuality => Some("sleepQuality")
    case Steps => Some("steps")
    case Soreness => Some("soreness")
    case Fatigue => Some("fatigue")
    case Stress => Some("stress")
    case Mood => Some("mood")
    case Motivation => Some("motivation")
    case Readiness => Some("readiness")
    case SportInfo => Some("sportInfo")
    case _ => None
  }

  /** The value of each field before `None` values are dropped. */
  function FieldValue(d: Record, f: Field): Value
    requires DayInputOk(d)
  {
    match f
    case CtlFitness => Num(NumOr(d, "ctl", 0.0))
    case AtlFatigue => Num(NumOr(d, "atl", 0.0))
    case TsbForm => Num(NumOr(d, "ctl", 0.0) - NumOr(d, "atl", 0.0))
    case RampRate => Num(NumOr(d, "rampRate", 0.0))
    case SleepHours => ScaledIfTruthy(d, "sleepSecs", 1.0 / 3600.0)
    case _ => Get(d, Source(f).value)
  }

  /** One processed wellness day: every field whose value is not `None`. */
  function ProcessDay(d: Record): (r: Day)
    requires DayInputOk(d)
    ensures NoNulls(r)
    ensures forall f :: f in r <==> FieldValue(d, f) != Null
  {
    map f: Field | FieldValue(d, f) != Null :: FieldValue(d, f)
  }

  /** The copied fields are present exactly when their input is not
      `None`, and hold it unchanged. */
  lemma ProcessDayCopies(d: Record)
    requires DayInputOk(d)
    ensures CopiesAll(ProcessDay(d), d, Source)
  {
    var r := ProcessDay(d);
    forall f | Source(f).Some?
      ensures (f in r <==> Get(d, Source(f).value) != Null) &&
              (f in r ==> r[f] == d[Source(f).value])
    {
      assert FieldValue(d, f) == Get(d, Source(f).value);
    }
  }

  /** The fitness numbers are always there, missing inputs reading as 0,
      and the form is fitness minus fatigue. */
  lemma ProcessDayForm(d: Record)
    requires DayInputOk(d)
    ensures var r := ProcessDay(d);
            CtlFitness in r && AtlFatigue in r && TsbForm in r && RampRate in r &&
            r[CtlFitness] == Num(NumOr(d, "ctl", 0.0)) &&
            r[AtlFatigue] == Num(NumOr(d, "atl", 0.0)) &&
            r[TsbForm] == Num(r[CtlFitness].n - r[AtlFatigue].n) &&
            r[RampRate] == Num(NumOr(d, "rampRate", 0.0))
  {
    var r := ProcessDay(d);
    assert r[CtlFitness] == FieldValue(d, CtlFitness);
    assert r[AtlFatigue] == FieldValue(d, AtlFatigue);
    assert r[TsbForm] == FieldValue(d, TsbForm);
    assert r[RampRate] == FieldValue(d, RampRate);
  }

  /** Sleep hours appear exactly when the sleep seconds are truthy, and
      convert back to them. */
  lemma ProcessDaySleep(d: Record)
    requires DayInputOk(d)
    ensures var r := ProcessDay(d);
            (SleepHours in r <==> Truthy(Get(d, "sleepSecs"))) &&
            (SleepHours in r ==>
               "sleepSecs" in d && r[SleepHours].Num? && r[SleepHours].n * 3600.0 == d["sleepSecs"].n)
  {
    var r := ProcessDay(d);
    assert SleepHours in r <==> FieldValue(d, SleepHours) != Null;
    if SleepHours in r {
      assert r[SleepHours] == FieldValue(d, SleepHours);
    }
  }

  /** `process_wellness`: one processed day per input day, in order. */
  function ProcessWellness(ws: seq<Record>): (r: seq<Day>)
    requires forall i :: 0 <= i < |ws| ==> DayInputOk(ws[i])
    ensures |r| == |ws|
    ensures forall i :: 0 <= i < |ws| ==> r[i] == ProcessDay(ws[i])
  {
    MapSeq(ws, ProcessDay)
  }
}
