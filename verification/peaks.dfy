/** Best sustained efforts over fixed durations (`extract_peak_efforts`):
    a sliding window over the time stream, scored by average velocity. */
module Peaks {
  import opened Wrappers
  import opened Seqs
  import opened Stats
  import opened Streams

  /** The window lengths, in seconds, and the key each result is stored
      under. */
  const Durations: seq<real> := [60.0, 300.0, 600.0, 1200.0]
  const Names: seq<string> := ["peak_1min", "peak_5min", "peak_10min", "peak_20min"]

  /** A window's effort: its pace in minutes per kilometre and its mean
      heart rate, unrounded. */
  datatype Effort = Effort(pace: real, hr: Option<real>)

  /** The reported peak for one duration. */
  datatype Peak = Peak(paceMinPerKm: real, avgHr: Option<real>)

  /** The channels the scan reads; a missing channel is empty. */
  datatype PeakInput = PeakInput(time: seq<real>, velocity: seq<real>, heartrate: seq<real>)

  // ---------------------------------------------------------------------
  // Windows

  /** `e` ends the window starting at `i`: the first sample from `i` on at
      least `dur` seconds after it. */
  predicate IsWindowEnd(time: seq<real>, i: int, e: int, dur: real) {
    0 <= i <= e < |time| && time[e] - time[i] >= dur &&
    forall m :: i <= m < e ==> time[m] - time[i] < dur
  }

  /** No sample from `i` on is `dur` seconds after it. */
  predicate NoWindowEnd(time: seq<real>, i: int, dur: real) {
    forall m :: 0 <= i <= m < |time| ==> time[m] - time[i] < dur
  }

  /** The inner `for j in range(i, len(time))` search, resumed at `j`. */
  function FindEnd(time: seq<real>, i: nat, j: nat, dur: real): (r: Option<nat>)
    requires i <= j <= |time|
    requires forall m :: i <= m < j ==> time[m] - time[i] < dur
    ensures r.Some? ==> IsWindowEnd(time, i, r.value, dur)
    ensures r.None? ==> NoWindowEnd(time, i, dur)
    decreases |time| - j
  {
    if j == |time| then None
    else if time[j] - time[i] >= dur then Some(j)
    else FindEnd(time, i, j + 1, dur)
  }

  /** The end of the window starting at `i`, if there is one. */
  function WindowEnd(time: seq<real>, i: nat, dur: real): (r: Option<nat>)
    requires i <= |time|
    ensures r.Some? ==> IsWindowEnd(time, i, r.value, dur)
    ensures r.None? ==> NoWindowEnd(time, i, dur)
  {
    FindEnd(time, i, i, dur)
  }

  /** The effort over samples `i..e` (inclusive): no effort unless the mean
      of the non-zero velocities is positive; raises when the velocity slice
      is non-empty but all zero. */
  function WindowEffort(c: PeakInput, i: nat, e: nat): (r: Result<Option<Effort>>)
    ensures r.Err? <==> |Slice(c.velocity, i, e + 1)| > 0 && AllZero(Slice(c.velocity, i, e + 1))
    ensures r.Ok? && r.value.Some? ==> r.value.value.pace > 0.0
    ensures r.Ok? && r.value.Some? && |c.heartrate| == 0 ==> r.value.value.hr.None?
  {
    var avg :- NonZeroMean(Slice(c.velocity, i, e + 1));
    if avg.Some? && avg.value > 0.0 then
      var hr := if |c.heartrate| > 0 then Average(Slice(c.heartrate, i, e + 1)) else None;
      Ok(Some(Effort(PaceOfSpeed(avg.value), hr)))
    else
      Ok(None)
  }

  /** A window has an effort exactly when its non-zero velocities have a
      positive mean; the effort's pace is that mean speed as minutes per
      kilometre (so pace times speed times 60 is 1000), and its heart rate the mean of the heart-rate window. */
  lemma WindowEffortValue(c: PeakInput, i: nat, e: nat)
    ensures var v := Slice(c.velocity, i, e + 1);
            var r := WindowEffort(c, i, e);
            r.Ok? ==>
              (r.value.Some? <==> |NonZero(v)| > 0 && MeanOfNonZero(v) > 0.0) &&
              (r.value.Some? ==> r.value.value.pace == PaceOfSpeed(MeanOfNonZero(v))) &&
              (r.value.Some? && |c.heartrate| > 0 ==> r.value.value.hr == Average(Slice(c.heartrate, i, e + 1)))
  {
    var v := Slice(c.velocity, i, e + 1);
    NonZeroMeanSome(v);
    var avg := NonZeroMean(v);
    if avg.Ok? {
      if avg.value.Some? && avg.value.value > 0.0 {
        var m := avg.value.value;
        var hr := if |c.heartrate| > 0 then Average(Slice(c.heartrate, i, e + 1)) else None;
        assert WindowEffort(c, i, e) == Ok(Some(Effort(PaceOfSpeed(m), hr)));
        assert m == MeanOfNonZero(v);
      } else {
        assert WindowEffort(c, i, e) == Ok(None);
      }
    }
  }

  /** `(1000 / v) / 60`: a speed in metres per second as a pace in minutes
      per kilometre. */
  function PaceOfSpeed(v: real): (p: real)
    requires v > 0.0
    ensures p > 0.0
    ensures p * v * 60.0 == 1000.0
  {
    var perKm := 1000.0 / v;
    assert perKm * v == 1000.0;
    perKm / 60.0
  }

  /** The candidate at start `i`: the effort of its window, or none when no
      window starts there. */
  function Candidate(c: PeakInput, dur: real, i: int): Result<Option<Effort>> {
    if i < 0 || i >= |c.time| then Ok(None)
    else
      match WindowEnd(c.time, i, dur)
      case None => Ok(None)
      case Some(e) => WindowEffort(c, i, e)
  }

  /** Where the scan from `i` stops: the first start with no window, or the
      end of the stream. */
  function StopFrom(time: seq<real>, dur: real, i: nat): (s: nat)
    requires i <= |time|
    ensures i <= s <= |time|
    ensures forall m :: i <= m < s ==> WindowEnd(time, m, dur).Some?
    ensures s < |time| ==> WindowEnd(time, s, dur).None?
    decreases |time| - i
  {
    if i == |time| || WindowEnd(time, i, dur).None? then i else StopFrom(time, dur, i + 1)
  }

  // ---------------------------------------------------------------------
  // The scan, as the source writes it

  /** The candidate improves on the running best: the source's
      `best_pace is None or pace < best_pace`. */
  function Improve(best: Option<Effort>, w: Option<Effort>): Option<Effort> {
    if w.Some? && (best.None? || w.value.pace < best.value.pace) then w else best
  }

  /** The outer `for i in range(len(time))` loop for one duration, from
      start `i` with the best effort found so far. */
  function ScanPeak(c: PeakInput, dur: real, i: nat, best: Option<Effort>): Result<Option<Effort>>
    requires i <= |c.time|
    decreases |c.time| - i
  {
    if i == |c.time| then Ok(best)
    else
      match WindowEnd(c.time, i, dur)
      case None => Ok(best)
      case Some(e) =>
        var w :- WindowEffort(c, i, e);
        ScanPeak(c, dur, i + 1, Improve(best, w))
  }

  /** The best effort for one duration. */
  function PeakFor(c: PeakInput, dur: real): Result<Option<Effort>> {
    ScanPeak(c, dur, 0, None)
  }

  // ---------------------------------------------------------------------
  // What the scan finds

  /** The candidates the scan visits: one per start below the first start
      that has no window. */
  function Candidates(c: PeakInput, dur: real): (cs: seq<Result<Option<Effort>>>)
    ensures |cs| == StopFrom(c.time, dur, 0)
    ensures forall m :: 0 <= m < |cs| ==> cs[m] == Candidate(c, dur, m)
  {
    seq(StopFrom(c.time, dur, 0), m => Candidate(c, dur, m))
  }

  predicate HasCandidate(cs: seq<Result<Option<Effort>>>, m: nat)
    requires m < |cs|
  {
    cs[m].Ok? && cs[m].value.Some?
  }

  /** No candidate raises. */
  predicate NoError(cs: seq<Result<Option<Effort>>>) {
    forall m :: 0 <= m < |cs| ==> cs[m].Ok?
  }

  /** No candidate yields an effort. */
  predicate NoCandidate(cs: seq<Result<Option<Effort>>>) {
    forall m :: 0 <= m < |cs| ==> !HasCandidate(cs, m)
  }

  /** No candidate is faster than pace `p`. */
  predicate NoneFaster(cs: seq<Result<Option<Effort>>>, p: real) {
    forall m :: 0 <= m < |cs| && HasCandidate(cs, m) ==> p <= cs[m].value.value.pace
  }

  /** `w` is candidate `m`, and every earlier candidate is strictly slower:
      the first fastest window wins ties. */
  predicate FirstFastestAt(cs: seq<Result<Option<Effort>>>, m: nat, w: Effort) {
    m < |cs| && cs[m] == Ok(Some(w)) &&
    forall m' :: 0 <= m' < m && HasCandidate(cs, m') ==> w.pace < cs[m'].value.value.pace
  }

  /** `w` is the effort the scan keeps: the first of the fastest. */
  predicate IsBest(cs: seq<Result<Option<Effort>>>, w: Effort) {
    NoneFaster(cs, w.pace) && exists m :: 0 <= m < |cs| && FirstFastestAt(cs, m, w)
  }

  /** What the running best means after the candidates `cs`. */
  predicate BestSoFar(cs: seq<Result<Option<Effort>>>, best: Option<Effort>) {
    NoError(cs) &&
    (best.None? ==> NoCandidate(cs)) &&
    (best.Some? ==> IsBest(cs, best.value))
  }

  /** Taking in one more candidate keeps `BestSoFar`. */
  lemma StepKeepsBest(cs: seq<Result<Option<Effort>>>, w: Option<Effort>, best: Option<Effort>)
    requires BestSoFar(cs, best)
    ensures BestSoFar(cs + [Ok(w)], Improve(best, w))
  {
    var cs' := cs + [Ok(w)];
    var i := |cs|;
    assert forall m :: 0 <= m < i ==> cs'[m] == cs[m];
    if w.Some? && (best.None? || w.value.pace < best.value.pace) {
      assert FirstFastestAt(cs', i, w.value) by {
        forall m' | 0 <= m' < i && HasCandidate(cs', m')
          ensures w.value.pace < cs'[m'].value.value.pace
        {
          assert HasCandidate(cs, m');
        }
      }
      assert NoneFaster(cs', w.value.pace) by {
        forall m | 0 <= m < i + 1 && HasCandidate(cs', m)
          ensures w.value.pace <= cs'[m].value.value.pace
        {
          if m < i {
            assert HasCandidate(cs, m);
          }
        }
      }
    } else if best.Some? {
      var m :| 0 <= m < i && FirstFastestAt(cs, m, best.value);
      assert FirstFastestAt(cs', m, best.value) by {
        forall m' | 0 <= m' < m && HasCandidate(cs', m')
          ensures best.value.pace < cs'[m'].value.value.pace
        {
          assert HasCandidate(cs, m');
        }
      }
      assert NoneFaster(cs', best.value.pace) by {
        forall k | 0 <= k < i + 1 && HasCandidate(cs', k)
          ensures best.value.pace <= cs'[k].value.value.pace
        {
          if k < i {
            assert HasCandidate(cs, k);
          }
        }
      }
    } else {
      assert NoCandidate(cs') by {
        forall k | 0 <= k < i + 1 ensures !HasCandidate(cs', k) {
          if k < i {
            assert !HasCandidate(cs, k);
          }
        }
      }
    }
  }

  /** One step of the scan reads candidate `i`; at the stopping start the
      scan returns what it has. */
  lemma ScanStep(c: PeakInput, dur: real, i: nat, best: Option<Effort>)
    requires i <= StopFrom(c.time, dur, 0)
    ensures i < StopFrom(c.time, dur, 0) ==>
              ScanPeak(c, dur, i, best)
              == match Candidate(c, dur, i)
                 case Err(e) => Err(e)
                 case Ok(w) => ScanPeak(c, dur, i + 1, Improve(best, w))
    ensures i == StopFrom(c.time, dur, 0) ==> ScanPeak(c, dur, i, best) == Ok(best)
  {
    if i < StopFrom(c.time, dur, 0) {
      assert WindowEnd(c.time, i, dur).Some?;
    }
  }

  /** The scan replayed over a list of candidates: stop at the first that
      raises, otherwise keep improving the running best. */
  function Fold(cs: seq<Result<Option<Effort>>>, i: nat, best: Option<Effort>): Result<Option<Effort>>
    requires i <= |cs|
    decreases |cs| - i
  {
    if i == |cs| then Ok(best)
    else
      match cs[i]
      case Err(e) => Err(e)
      case Ok(w) => Fold(cs, i + 1, Improve(best, w))
  }

  /** The source's scan is the fold over its candidates. */
  lemma {:induction false} ScanIsFold(c: PeakInput, dur: real, i: nat, best: Option<Effort>)
    requires i <= StopFrom(c.time, dur, 0)
    ensures ScanPeak(c, dur, i, best) == Fold(Candidates(c, dur), i, best)
    decreases StopFrom(c.time, dur, 0) - i
  {
    ScanStep(c, dur, i, best);
    var cs := Candidates(c, dur);
    if i < |cs| {
      assert cs[i] == Candidate(c, dur, i);
      match cs[i]
      case Err(e) =>
        assert Fold(cs, i, best) == Err(e);
      case Ok(w) =>
        ScanIsFold(c, dur, i + 1, Improve(best, w));
        assert Fold(cs, i, best) == Fold(cs, i + 1, Improve(best, w));
    } else {
      assert Fold(cs, i, best) == Ok(best);
    }
  }

  /** A fold from `i` that returns ends with the best effort over all the
      candidates. */
  lemma {:induction false} FoldOk(cs: seq<Result<Option<Effort>>>, i: nat, best: Option<Effort>)
    requires i <= |cs|
    requires BestSoFar(cs[..i], best)
    ensures Fold(cs, i, best).Ok? ==> BestSoFar(cs, Fold(cs, i, best).value)
    decreases |cs| - i
  {
    if i < |cs| {
      if cs[i].Ok? {
        StepKeepsBest(cs[..i], cs[i].value, best);
        assert cs[..i] + [Ok(cs[i].value)] == cs[..i + 1];
        FoldOk(cs, i + 1, Improve(best, cs[i].value));
      }
    } else {
      assert cs[..i] == cs;
    }
  }

  /** A fold from `i` raises exactly when some candidate from `i` on
      raises. */
  lemma {:induction false} FoldErr(cs: seq<Result<Option<Effort>>>, i: nat, best: Option<Effort>)
    requires i <= |cs|
    ensures Fold(cs, i, best).Err? <==> exists m :: i <= m < |cs| && cs[m].Err?
    decreases |cs| - i
  {
    if i < |cs| && cs[i].Ok? {
      FoldErr(cs, i + 1, Improve(best, cs[i].value));
    }
  }

  /** The peak for one duration, over the candidates up to the first start
      that has no window: an effort is the first fastest candidate; none
      means no candidate had a positive mean velocity; and the call raises
      exactly when a candidate raises. */
  lemma PeakForSpec(c: PeakInput, dur: real)
    ensures PeakFor(c, dur).Ok? && PeakFor(c, dur).value.Some? ==>
              IsBest(Candidates(c, dur), PeakFor(c, dur).value.value)
    ensures PeakFor(c, dur) == Ok(None) ==> NoCandidate(Candidates(c, dur))
    ensures PeakFor(c, dur).Err? <==>
              exists m :: 0 <= m < |Candidates(c, dur)| && Candidates(c, dur)[m].Err?
  {
    var cs := Candidates(c, dur);
    assert cs[..0] == [];
    ScanIsFold(c, dur, 0, None);
    FoldOk(cs, 0, None);
    FoldErr(cs, 0, None);
  }

  // ---------------------------------------------------------------------
  // All four durations

  /** The reported form of an effort: `round(best_hr) if best_hr else None`. */
  function ToPeak(w: Effort): Peak {
    Peak(w.pace, DropZero(w.hr))
  }

  lemma NamesDistinct()
    ensures forall j, k :: 0 <= j < k < |Names| ==> Names[j] != Names[k]
  {
    assert |Names[0]| == |Names[1]| == 9 && |Names[2]| == |Names[3]| == 10;
    assert Names[0][5] != Names[1][5] && Names[2][5] != Names[3][5];
  }

  /** The scan result for each duration, in order. */
  function Scans(c: PeakInput): (rs: seq<Result<Option<Effort>>>)
    ensures |rs| == |Durations|
    ensures forall j :: 0 <= j < |Durations| ==> rs[j] == PeakFor(c, Durations[j])
  {
    seq(|Durations|, j requires 0 <= j < |Durations| => PeakFor(c, Durations[j]))
  }

  /** The loop over the durations from index `k` on, given their scan
      results: the first scan that raises aborts it; otherwise each effort
      found is stored under its duration's name. */
  function Collect(rs: seq<Result<Option<Effort>>>, k: nat): (r: Result<map<string, Peak>>)
    requires |rs| == |Names| && k <= |rs|
    ensures r.Ok? ==> forall name :: name in r.value ==> name in Names[k..]
    decreases |rs| - k
  {
    if k == |rs| then Ok(map[])
    else
      var best :- rs[k];
      var rest :- Collect(rs, k + 1);
      Ok(if best.Some? then rest[Names[k] := ToPeak(best.value)] else rest)
  }

  /** The name of duration `j` is in `r` exactly when its scan found an
      effort, and then holds that effort. */
  predicate PeakNamed(r: map<string, Peak>, rs: seq<Result<Option<Effort>>>, j: nat)
    requires j < |rs| && j < |Names| && rs[j].Ok?
  {
    (Names[j] in r <==> rs[j].value.Some?) &&
    (Names[j] in r ==> r[Names[j]] == ToPeak(rs[j].value.value))
  }

  /** When the loop completes, every scan from `k` on completed, and each
      duration's name is in the result exactly when its scan found an
      effort. */
  lemma {:induction false} CollectOk(rs: seq<Result<Option<Effort>>>, k: nat)
    requires |rs| == |Names| && k <= |rs|
    requires Collect(rs, k).Ok?
    ensures forall j :: k <= j < |rs| ==> rs[j].Ok?
    ensures forall j :: k <= j < |rs| ==> PeakNamed(Collect(rs, k).value, rs, j)
    decreases |rs| - k
  {
    if k < |rs| {
      var r := Collect(rs, k).value;
      var rest := Collect(rs, k + 1).value;
      var best := rs[k].value;
      CollectOk(rs, k + 1);
      NamesDistinct();
      assert r == if best.Some? then rest[Names[k] := ToPeak(best.value)] else rest;
      assert Names[k] !in rest;
      forall j | k <= j < |rs|
        ensures PeakNamed(r, rs, j)
      {
        if j > k {
          assert PeakNamed(rest, rs, j);
        }
      }
    }
  }

  /** The loop raises exactly when the scan of some duration from `k` on
      raises, and then with the error of the first such scan. */
  lemma {:induction false} CollectErr(rs: seq<Result<Option<Effort>>>, k: nat)
    requires |rs| == |Names| && k <= |rs|
    ensures Collect(rs, k).Err? <==> exists j :: k <= j < |rs| && rs[j].Err?
    ensures Collect(rs, k).Err? ==>
              exists j :: k <= j < |rs| && rs[j] == Err(Collect(rs, k).error) &&
                          forall m :: k <= m < j ==> rs[m].Ok?
    decreases |rs| - k
  {
    if k < |rs| {
      CollectErr(rs, k + 1);
      if rs[k].Ok? && Collect(rs, k + 1).Err? {
        var j :| k + 1 <= j < |rs| && rs[j] == Err(Collect(rs, k + 1).error) &&
                 forall m :: k + 1 <= m < j ==> rs[m].Ok?;
        assert forall m :: k <= m < j ==> rs[m].Ok?;
      }
    }
  }

  function Inputs(ss: seq<Stream>): PeakInput {
    PeakInput(Channel(ss, "time"), Channel(ss, "velocity_smooth"), Channel(ss, "heartrate"))
  }

  /** `extract_peak_efforts`: nothing without a time stream or a velocity
      stream; otherwise it raises exactly when some duration's scan raises,
      and holds one entry per duration whose scan found an effort, under
      that duration's name and holding that effort's pace and heart rate. */
  function ExtractPeaks(ss: seq<Stream>): (r: Result<map<string, Peak>>)
    ensures !Has(ss, "time") || |Channel(ss, "velocity_smooth")| == 0 ==> r == Ok(map[])
    ensures r.Err? <==>
              Has(ss, "time") && |Channel(ss, "velocity_smooth")| > 0 &&
              exists j :: 0 <= j < |Durations| && PeakFor(Inputs(ss), Durations[j]).Err?
    ensures r.Ok? ==> forall name :: name in r.value ==> name in Names
    ensures Has(ss, "time") && |Channel(ss, "velocity_smooth")| > 0 && r.Ok? ==>
              forall j :: 0 <= j < |Durations| ==>
                PeakFor(Inputs(ss), Durations[j]).Ok? &&
                (Names[j] in r.value <==> PeakFor(Inputs(ss), Durations[j]).value.Some?) &&
                (Names[j] in r.value ==> r.value[Names[j]] == ToPeak(PeakFor(Inputs(ss), Durations[j]).value.value))
  {
    if !Has(ss, "time") then Ok(map[])
    else if |Channel(ss, "velocity_smooth")| == 0 then Ok(map[])
    else
      var rs := Scans(Inputs(ss));
      CollectErr(rs, 0);
      if Collect(rs, 0).Ok? then
        CollectOk(rs, 0);
        ScansNamed(Inputs(ss), Collect(rs, 0).value);
        Collect(rs, 0)
      else
        Collect(rs, 0)
  }

  /** What `PeakNamed` says about the scan results, stated of the scans. */
  lemma ScansNamed(c: PeakInput, r: map<string, Peak>)
    requires forall j :: 0 <= j < |Durations| ==> Scans(c)[j].Ok?
    requires forall j :: 0 <= j < |Durations| ==> PeakNamed(r, Scans(c), j)
    ensures forall j :: 0 <= j < |Durations| ==>
              PeakFor(c, Durations[j]).Ok? &&
              (Names[j] in r <==> PeakFor(c, Durations[j]).value.Some?) &&
              (Names[j] in r ==> r[Names[j]] == ToPeak(PeakFor(c, Durations[j]).value.value))
  {
    var rs := Scans(c);
    forall j | 0 <= j < |Durations|
      ensures PeakFor(c, Durations[j]).Ok? &&
              (Names[j] in r <==> PeakFor(c, Durations[j]).value.Some?) &&
              (Names[j] in r ==> r[Names[j]] == ToPeak(PeakFor(c, Durations[j]).value.value))
    {
      assert rs[j] == PeakFor(c, Durations[j]);
      assert PeakNamed(r, rs, j);
    }
  }
}
