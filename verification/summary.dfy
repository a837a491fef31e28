/** `calculate_summary_stats`: the period the export covers, totals over all
    activities, the running and cycling breakdowns and the fitness trend,
    computed from the records the builders produced. Quantities are the
    unrounded reals. */
module Summary {
  import opened Wrappers
  import opened Seqs
  import opened Stats
  import opened Json
  import opened Order
  import Activities
  import Wellness

  type Activity = Activities.Activity
  type Day = Wellness.Day

  // ---------------------------------------------------------------------
  // sum_field and avg_field

  /** Every record can take part in `sum_field` / `avg_field` for `key`. */
  predicate AllNumWhenTruthy<K>(items: seq<map<K, Value>>, key: K) {
    forall x :: x in items ==> NumWhenTruthy(x, key)
  }

  /** `i.get(field, 0) or 0`: the field's number when it is truthy, else 0. */
  function OrZero<K>(i: map<K, Value>, key: K): real
    requires NumWhenTruthy(i, key)
  {
    if key in i && Truthy(i[key]) then i[key].n else 0.0
  }

  /** `sum_field(items, field)`: `sum(i.get(field, 0) or 0 for i in items)`. */
  function SumField<K>(items: seq<map<K, Value>>, key: K): real
    requires AllNumWhenTruthy(items, key)
    decreases |items|
  {
    if |items| == 0 then 0.0
    else SumField(items[..|items| - 1], key) + OrZero(items[|items| - 1], key)
  }

  /** `[i.get(field) for i in items if i.get(field)]`, the values being
      numbers. */
  function TruthyNums<K>(items: seq<map<K, Value>>, key: K): (vs: seq<real>)
    requires AllNumWhenTruthy(items, key)
    ensures |vs| <= |items|
    ensures forall j :: 0 <= j < |vs| ==> vs[j] != 0.0
    decreases |items|
  {
    if |items| == 0 then []
    else
      var init := TruthyNums(items[..|items| - 1], key);
      var last := items[|items| - 1];
      assert last in items;
      if key in last && Truthy(last[key]) then init + [last[key].n] else init
  }

  /** No record has a truthy value for `key`. */
  predicate NoneTruthy<K>(items: seq<map<K, Value>>, key: K) {
    forall j :: 0 <= j < |items| ==> !Truthy(Get(items[j], key))
  }

  /** The values `avg_field` averages are empty exactly when no record has
      a truthy value. */
  lemma {:induction false} TruthyNumsEmpty<K>(items: seq<map<K, Value>>, key: K)
    requires AllNumWhenTruthy(items, key)
    ensures |TruthyNums(items, key)| == 0 <==> NoneTruthy(items, key)
    decreases |items|
  {
    if |items| > 0 {
      var n := |items| - 1;
      TruthyNumsEmpty(items[..n], key);
      assert forall j :: 0 <= j < n ==> items[..n][j] == items[j];
    }
  }

  /** `avg_field` and `sum_field` add up the same numbers: falsy values
      count as zero in one and are skipped by the other. */
  lemma {:induction false} TruthyNumsSum<K>(items: seq<map<K, Value>>, key: K)
    requires AllNumWhenTruthy(items, key)
    ensures Sum(TruthyNums(items, key)) == SumField(items, key)
    decreases |items|
  {
    if |items| > 0 {
      var n := |items| - 1;
      TruthyNumsSum(items[..n], key);
      var init := TruthyNums(items[..n], key);
      var last := items[n];
      assert last in items;
      if key in last && Truthy(last[key]) {
        assert (init + [last[key].n])[..|init|] == init;
      }
    }
  }

  /** `avg_field(items, field)`: `None` when no record has a truthy value,
      otherwise the mean of the truthy values, which times their count is
      `sum_field(items, field)`. */
  function AvgField<K>(items: seq<map<K, Value>>, key: K): (r: Option<real>)
    requires AllNumWhenTruthy(items, key)
    ensures r.None? <==> NoneTruthy(items, key)
    ensures r.Some? ==> r.value * (|TruthyNums(items, key)| as real) == SumField(items, key)
  {
    TruthyNumsEmpty(items, key);
    TruthyNumsSum(items, key);
    Average(TruthyNums(items, key))
  }


  /** Splitting the records by any test splits `sum_field` the same way. */
  lemma {:induction false} SumFieldSplit<K>(items: seq<map<K, Value>>, p: map<K, Value> -> bool, key: K)
    requires AllNumWhenTruthy(items, key)
    ensures SumField(items, key) == SumField(Filter(items, p), key) + SumField(Filter(items, Not(p)), key)
    decreases |items|
  {
    if |items| > 0 {
      var n := |items| - 1;
      var x := items[n];
      SumFieldSplit(items[..n], p, key);
      var yes := Filter(items[..n], p);
      var no := Filter(items[..n], Not(p));
      if p(x) {
        assert Filter(items, p) == yes + [x];
        assert (yes + [x])[..|yes|] == yes;
        assert Filter(items, Not(p)) == no;
      } else {
        assert Filter(items, Not(p)) == no + [x];
        assert (no + [x])[..|no|] == no;
        assert Filter(items, p) == yes;
      }
    }
  }

  // ---------------------------------------------------------------------
  // Activity types

  /** `a.get("type") == "Run"`. */
  predicate IsRunning(a: Activity) {
    Get(a, Activities.Type) == Str("Run")
  }

  /** `a.get("type") in ["Ride", "VirtualRide"]`. */
  predicate IsCycling(a: Activity) {
    Get(a, Activities.Type) == Str("Ride") || Get(a, Activities.Type) == Str("VirtualRide")
  }

  /** `runs`, in input order. */
  function Runs(acts: seq<Activity>): seq<Activity> {
    Filter(acts, IsRunning)
  }

  /** `rides`, in input order. */
  function Rides(acts: seq<Activity>): seq<Activity> {
    Filter(acts, IsCycling)
  }

  // ---------------------------------------------------------------------
  // Dates

  /** Every record's date is a string when truthy, so the dates can be
      sorted together. */
  predicate AllStrWhenTruthy<K>(items: seq<map<K, Value>>, key: K) {
    forall x :: x in items ==> StrWhenTruthy(x, key)
  }

  /** `[x.get("date") for x in items if x.get("date")]`: the non-empty date
      strings, in input order. */
  function TruthyStrs<K>(items: seq<map<K, Value>>, key: K): (ds: seq<string>)
    requires AllStrWhenTruthy(items, key)
    ensures |ds| <= |items|
    ensures forall j :: 0 <= j < |ds| ==> |ds[j]| > 0
    decreases |items|
  {
    if |items| == 0 then []
    else
      var init := TruthyStrs(items[..|items| - 1], key);
      var last := items[|items| - 1];
      assert last in items;
      if key in last && Truthy(last[key]) then init + [last[key].s] else init
  }

  /** A date is listed exactly when some record carries it. */
  lemma {:induction false} TruthyStrsMembers<K>(items: seq<map<K, Value>>, key: K, d: string)
    requires AllStrWhenTruthy(items, key)
    ensures d in TruthyStrs(items, key) <==>
              |d| > 0 && exists j :: 0 <= j < |items| && Get(items[j], key) == Str(d)
    decreases |items|
  {
    if |items| > 0 {
      var n := |items| - 1;
      var last := items[n];
      assert last in items;
      TruthyStrsMembers(items[..n], key, d);
      var init := TruthyStrs(items[..n], key);
      if key in last && Truthy(last[key]) {
        assert TruthyStrs(items, key) == init + [last[key].s];
      } else {
        assert TruthyStrs(items, key) == init;
      }
      if j :| 0 <= j < |items| && Get(items[j], key) == Str(d) {
        if j < n {
          assert Get(items[..n][j], key) == Str(d);
        }
      }
      if j :| 0 <= j < n && Get(items[..n][j], key) == Str(d) {
        assert Get(items[j], key) == Str(d);
      }
    }
  }

  /** `period`: the earliest and latest activity date and the number of
      distinct wellness dates. */
  datatype Period = Period(start: Option<string>, end: Option<string>, days: nat)

  function PeriodOf(acts: seq<Activity>, ws: seq<Day>): (p: Period)
    requires AllStrWhenTruthy(acts, Activities.Date) && AllStrWhenTruthy(ws, Wellness.Date)
    ensures p.start.None? <==> p.end.None?
    ensures p.start.Some? ==> StrLe(p.start.value, p.end.value)
  {
    var dates := TruthyStrs(acts, Activities.Date);
    if |dates| == 0 then Period(None, None, |Elems(TruthyStrs(ws, Wellness.Date))|)
    else
      MinBeforeMax(dates);
      Period(Some(MinStr(dates)), Some(MaxStr(dates)), |Elems(TruthyStrs(ws, Wellness.Date))|)
  }

  // ---------------------------------------------------------------------
  // The report

  datatype Totals = Totals(
    activities: nat, runs: nat, rides: nat,
    distanceKm: real, timeHours: real, elevationM: real, trainingLoad: real, calories: real)

  datatype Running = Running(
    count: nat, distanceKm: real, timeHours: real,
    avgPaceMinPerKm: Option<real>, avgHr: Option<real>, elevationGainM: real)

  datatype Cycling = Cycling(
    count: nat, distanceKm: real, timeHours: real, avgSpeedKmh: Option<real>, avgHr: Option<real>)

  datatype Trend = Trend(
    ctlStart: Value, ctlEnd: Value, ctlChange: Option<real>,
    avgRestingHr: Option<real>, avgSleepHours: Option<real>, avgSteps: real)

  datatype Report = Report(period: Period, totals: Totals, running: Running, cycling: Cycling, trend: Trend)

  /** The fields the summary adds up or averages are numbers when truthy,
      and the dates are strings. */
  predicate ActivitiesOk(acts: seq<Activity>) {
    AllStrWhenTruthy(acts, Activities.Date) &&
    AllNumWhenTruthy(acts, Activities.DistanceKm) && AllNumWhenTruthy(acts, Activities.MovingTimeMin) &&
    AllNumWhenTruthy(acts, Activities.ElevationGainM) && AllNumWhenTruthy(acts, Activities.TrainingLoad) &&
    AllNumWhenTruthy(acts, Activities.Calories) && AllNumWhenTruthy(acts, Activities.AvgPaceMinPerKm) &&
    AllNumWhenTruthy(acts, Activities.AvgHr) && AllNumWhenTruthy(acts, Activities.AvgSpeedKmh)
  }

  /** Likewise for the wellness days; `ctl_change` reads the first and last
      day's `ctl_fitness` with default 0, so those are numbers when present. */
  predicate DaysOk(ws: seq<Day>) {
    AllStrWhenTruthy(ws, Wellness.Date) &&
    AllNumWhenTruthy(ws, Wellness.RestingHr) && AllNumWhenTruthy(ws, Wellness.SleepHours) &&
    AllNumWhenTruthy(ws, Wellness.Steps) && CtlEndsOk(ws)
  }

  predicate CtlEndsOk(ws: seq<Day>) {
    |ws| >= 2 ==> NumOrAbsent(ws[0], Wellness.CtlFitness) && NumOrAbsent(ws[|ws| - 1], Wellness.CtlFitness)
  }

  /** `ctl_change`: from two days on, the last day's `ctl_fitness` minus the
      first day's, a missing one reading as 0. */
  function CtlChangeOf(ws: seq<Day>): (r: Option<real>)
    requires CtlEndsOk(ws)
    ensures r.Some? <==> |ws| >= 2
  {
    var n := |ws|;
    if n >= 2 then Some(NumOr(ws[n - 1], Wellness.CtlFitness, 0.0) - NumOr(ws[0], Wellness.CtlFitness, 0.0))
    else None
  }

  /** A filtered list of activities keeps the field types. */
  lemma FilterOk(acts: seq<Activity>, p: Activity -> bool)
    requires ActivitiesOk(acts)
    ensures ActivitiesOk(Filter(acts, p))
  {
  }

  function TotalsOf(acts: seq<Activity>): (t: Totals)
    requires ActivitiesOk(acts)
  {
    Totals(
      |acts|, |Runs(acts)|, |Rides(acts)|,
      SumField(acts, Activities.DistanceKm),
      SumField(acts, Activities.MovingTimeMin) / 60.0,
      SumField(acts, Activities.ElevationGainM),
      SumField(acts, Activities.TrainingLoad),
      SumField(acts, Activities.Calories))
  }

  function RunningOf(acts: seq<Activity>): (r: Running)
    requires ActivitiesOk(acts)
  {
    var runs := Runs(acts);
    FilterOk(acts, IsRunning);
    Running(
      |runs|,
      SumField(runs, Activities.DistanceKm),
      SumField(runs, Activities.MovingTimeMin) / 60.0,
      AvgField(runs, Activities.AvgPaceMinPerKm),
      AvgField(runs, Activities.AvgHr),
      SumField(runs, Activities.ElevationGainM))
  }

  function CyclingOf(acts: seq<Activity>): (c: Cycling)
    requires ActivitiesOk(acts)
  {
    var rides := Rides(acts);
    FilterOk(acts, IsCycling);
    Cycling(
      |rides|,
      SumField(rides, Activities.DistanceKm),
      SumField(rides, Activities.MovingTimeMin) / 60.0,
      AvgField(rides, Activities.AvgSpeedKmh),
      AvgField(rides, Activities.AvgHr))
  }

  /** `avg_field(items, field) or 0`, as `avg_steps` is computed: 0 when no
      record has a truthy value, otherwise their mean. */
  function AvgOrZero<K>(items: seq<map<K, Value>>, key: K): (a: real)
    requires AllNumWhenTruthy(items, key)
    ensures NoneTruthy(items, key) ==> a == 0.0
    ensures !NoneTruthy(items, key) ==>
              a * (|TruthyNums(items, key)| as real) == SumField(items, key)
  {
    match AvgField(items, key)
    case Some(v) => v
    case None => 0.0
  }

  function TrendOf(ws: seq<Day>): (t: Trend)
    requires DaysOk(ws)
  {
    var n := |ws|;
    Trend(
      if n > 0 then Get(ws[0], Wellness.CtlFitness) else Null,
      if n > 0 then Get(ws[n - 1], Wellness.CtlFitness) else Null,
      CtlChangeOf(ws),
      AvgField(ws, Wellness.RestingHr),
      AvgField(ws, Wellness.SleepHours),
      AvgOrZero(ws, Wellness.Steps))
  }

  /** `calculate_summary_stats(activities, wellness)`. */
  function CalculateSummary(acts: seq<Activity>, ws: seq<Day>): (r: Report)
    requires ActivitiesOk(acts) && DaysOk(ws)
    ensures r.totals.activities == |acts|
    ensures r.totals.runs == r.running.count && r.totals.rides == r.cycling.count
    ensures r.totals.runs + r.totals.rides <= |acts|
    ensures r.period.start.None? <==> r.period.end.None?
    ensures r.period.days <= |ws|
    ensures r.trend.ctlChange.Some? <==> |ws| >= 2
  {
    FilterDisjoint(acts, IsRunning, IsCycling);
    ElemsCard(TruthyStrs(ws, Wellness.Date));
    Report(PeriodOf(acts, ws), TotalsOf(acts), RunningOf(acts), CyclingOf(acts), TrendOf(ws))
  }

  // ---------------------------------------------------------------------
  // What the report says about its inputs

  /** `runs` and `rides` count the activities of each type, position by
      position. */
  lemma CountsArePositions(acts: seq<Activity>)
    requires ActivitiesOk(acts)
    ensures TotalsOf(acts).runs == |set i | 0 <= i < |acts| && IsRunning(acts[i])|
    ensures TotalsOf(acts).rides == |set i | 0 <= i < |acts| && IsCycling(acts[i])|
  {
    FilterCount(acts, IsRunning);
    FilterCount(acts, IsCycling);
    assert Positions(acts, IsRunning) == set i | 0 <= i < |acts| && IsRunning(acts[i]);
    assert Positions(acts, IsCycling) == set i | 0 <= i < |acts| && IsCycling(acts[i]);
  }

  /** `period.start` is the earliest activity date and `period.end` the
      latest, under Python's string order; both are `None` exactly when no
      activity has a date. */
  lemma PeriodBounds(acts: seq<Activity>, ws: seq<Day>)
    requires AllStrWhenTruthy(acts, Activities.Date) && AllStrWhenTruthy(ws, Wellness.Date)
    ensures var p := PeriodOf(acts, ws);
            (p.start.None? <==> NoneTruthy(acts, Activities.Date)) &&
            (p.start.Some? ==>
               IsValueOf(acts, Activities.Date, p.start.value) &&
               IsValueOf(acts, Activities.Date, p.end.value) &&
               Brackets(acts, Activities.Date, p.start.value, p.end.value))
  {
    var dates := TruthyStrs(acts, Activities.Date);
    var p := PeriodOf(acts, ws);
    TruthyStrsEmpty(acts, Activities.Date);
    if |dates| > 0 {
      assert p.start == Some(MinStr(dates)) && p.end == Some(MaxStr(dates));
      TruthyStrsBounds(acts, Activities.Date);
    } else {
      assert p.start == None;
    }
  }

  /** Some record holds the string `d` under `key`. */
  ghost predicate IsValueOf<K>(items: seq<map<K, Value>>, key: K, d: string) {
    exists j :: 0 <= j < |items| && Get(items[j], key) == Str(d)
  }

  /** Every non-empty string under `key` lies between `lo` and `hi`. */
  ghost predicate Brackets<K>(items: seq<map<K, Value>>, key: K, lo: string, hi: string) {
    forall j, d :: 0 <= j < |items| && Get(items[j], key) == Str(d) && |d| > 0 ==>
      StrLe(lo, d) && StrLe(d, hi)
  }

  /** No string is collected exactly when no record has a truthy value. */
  lemma TruthyStrsEmpty<K>(items: seq<map<K, Value>>, key: K)
    requires AllStrWhenTruthy(items, key)
    ensures |TruthyStrs(items, key)| == 0 <==> NoneTruthy(items, key)
  {
    var dates := TruthyStrs(items, key);
    if |dates| > 0 {
      TruthyStrsMembers(items, key, dates[0]);
    } else {
      forall j | 0 <= j < |items|
        ensures !Truthy(Get(items[j], key))
      {
        assert items[j] in items;
        if Truthy(Get(items[j], key)) {
          TruthyStrsMembers(items, key, items[j][key].s);
        }
      }
    }
  }

  /** The least and greatest collected strings are record values, and
      bound every non-empty string value. */
  lemma TruthyStrsBounds<K>(items: seq<map<K, Value>>, key: K)
    requires AllStrWhenTruthy(items, key) && |TruthyStrs(items, key)| > 0
    ensures var dates := TruthyStrs(items, key);
            var lo, hi := MinStr(dates), MaxStr(dates);
            IsValueOf(items, key, lo) && IsValueOf(items, key, hi) && Brackets(items, key, lo, hi)
  {
    var dates := TruthyStrs(items, key);
    TruthyStrsMembers(items, key, MinStr(dates));
    TruthyStrsMembers(items, key, MaxStr(dates));
    forall j, d | 0 <= j < |items| && Get(items[j], key) == Str(d) && |d| > 0
      ensures StrLe(MinStr(dates), d) && StrLe(d, MaxStr(dates))
    {
      TruthyStrBound(items, key, j, d);
    }
  }

  lemma TruthyStrBound<K>(items: seq<map<K, Value>>, key: K, j: int, d: string)
    requires AllStrWhenTruthy(items, key) && |TruthyStrs(items, key)| > 0
    requires 0 <= j < |items| && Get(items[j], key) == Str(d) && |d| > 0
    ensures StrLe(MinStr(TruthyStrs(items, key)), d) && StrLe(d, MaxStr(TruthyStrs(items, key)))
  {
    var dates := TruthyStrs(items, key);
    TruthyStrsMembers(items, key, d);
    var k :| 0 <= k < |dates| && dates[k] == d;
  }

  /** `period.days` counts distinct wellness dates: zero exactly when no
      day has a date, and the number of dated days exactly when no date
      repeats. */
  lemma PeriodDays(acts: seq<Activity>, ws: seq<Day>)
    requires AllStrWhenTruthy(acts, Activities.Date) && AllStrWhenTruthy(ws, Wellness.Date)
    ensures var days := PeriodOf(acts, ws).days;
            var dates := TruthyStrs(ws, Wellness.Date);
            days == |Elems(dates)| &&
            (days == 0 <==> NoneTruthy(ws, Wellness.Date)) &&
            (days == |dates| <==> Distinct(dates))
  {
    var dates := TruthyStrs(ws, Wellness.Date);
    ElemsCard(dates);
    if |dates| == 0 {
      forall j | 0 <= j < |ws|
        ensures !Truthy(Get(ws[j], Wellness.Date))
      {
        assert ws[j] in ws;
        if Truthy(Get(ws[j], Wellness.Date)) {
          TruthyStrsMembers(ws, Wellness.Date, ws[j][Wellness.Date].s);
        }
      }
    } else {
      TruthyStrsMembers(ws, Wellness.Date, dates[0]);
    }
  }

  /** Running activities and the rest share out every total: distance,
      moving time and climbing. */
  lemma TotalsSplitByRuns(acts: seq<Activity>)
    requires ActivitiesOk(acts)
    ensures var t := TotalsOf(acts);
            var r := RunningOf(acts);
            var others := Filter(acts, Not(IsRunning));
            t.distanceKm == r.distanceKm + SumField(others, Activities.DistanceKm) &&
            t.timeHours == r.timeHours + SumField(others, Activities.MovingTimeMin) / 60.0 &&
            t.elevationM == r.elevationGainM + SumField(others, Activities.ElevationGainM)
  {
    FilterOk(acts, Not(IsRunning));
    FilterOk(acts, IsRunning);
    SumFieldSplit(acts, IsRunning, Activities.DistanceKm);
    SumFieldSplit(acts, IsRunning, Activities.MovingTimeMin);
    SumFieldSplit(acts, IsRunning, Activities.ElevationGainM);
  }

  /** `ctl_change` is the end fitness minus the start fitness whenever both
      ends carry one. */
  lemma CtlChange(ws: seq<Day>)
    requires DaysOk(ws)
    requires |ws| >= 2 && Wellness.CtlFitness in ws[0] && Wellness.CtlFitness in ws[|ws| - 1]
    ensures var t := TrendOf(ws);
            t.ctlStart == ws[0][Wellness.CtlFitness] && t.ctlEnd == ws[|ws| - 1][Wellness.CtlFitness] &&
            t.ctlStart.Num? && t.ctlEnd.Num? && t.ctlChange == Some(t.ctlEnd.n - t.ctlStart.n)
  {
  }

  /** Every processed day carries its fitness, the input's `ctl` or 0. */
  lemma ProcessedCtl(raw: seq<Record>, i: nat)
    requires forall i :: 0 <= i < |raw| ==> Wellness.DayInputOk(raw[i])
    requires i < |raw|
    ensures var d := Wellness.ProcessWellness(raw)[i];
            Wellness.CtlFitness in d && d[Wellness.CtlFitness] == Num(NumOr(raw[i], "ctl", 0.0))
  {
    Wellness.ProcessDayForm(raw[i]);
  }

  /** Over processed wellness days the fitness trend is always defined from
      two days on: it runs from the first day's `ctl` to the last day's, a
      missing `ctl` reading as 0. */
  lemma CtlChangeOfProcessed(raw: seq<Record>)
    requires forall i :: 0 <= i < |raw| ==> Wellness.DayInputOk(raw[i])
    requires |raw| >= 2
    ensures var ws := Wellness.ProcessWellness(raw);
            Get(ws[0], Wellness.CtlFitness) == Num(NumOr(raw[0], "ctl", 0.0)) &&
            Get(ws[|ws| - 1], Wellness.CtlFitness) == Num(NumOr(raw[|raw| - 1], "ctl", 0.0)) &&
            CtlEndsOk(ws) &&
            CtlChangeOf(ws) == Some(NumOr(raw[|raw| - 1], "ctl", 0.0) - NumOr(raw[0], "ctl", 0.0))
  {
    ProcessedCtl(raw, 0);
    ProcessedCtl(raw, |raw| - 1);
  }
}
