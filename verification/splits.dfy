/** Per-kilometre splits of a run, cut from its cumulative-distance stream
    (`extract_splits_from_stream`). */
module Splits {
  import opened Wrappers
  import opened Seqs
  import opened Stats
  import opened Streams

  /** One kilometre of a run, with the unrounded values the source rounds. */
  datatype Split = Split(
    km: nat,
    paceMinPerKm: real,
    avgHr: Option<real>,
    avgCadence: Option<real>,
    elevationGainM: real)

  /** The channels a split is computed from; a missing channel is empty. */
  datatype SplitInput = SplitInput(
    distance: seq<real>,
    time: seq<real>,
    heartrate: seq<real>,
    cadence: seq<real>,
    altitude: seq<real>)

  /** `time[i]` is read for every distance sample `i` that closes a split,
      so the source relies on the time stream being at least as long. */
  predicate Aligned(c: SplitInput) {
    |c.distance| <= |c.time|
  }

  /** The same requirement on the raw streams: it only matters when both
      the distance and the time stream exist. */
  predicate StreamsAligned(ss: seq<Stream>) {
    Has(ss, "distance") && Has(ss, "time") ==>
      |Channel(ss, "distance")| <= |Channel(ss, "time")|
  }

  /** `stream_data.get("altitude") or stream_data.get("fixed_altitude", [])`:
      an empty altitude stream falls back to the fixed one. */
  function Altitude(ss: seq<Stream>): (a: seq<real>)
    ensures |Channel(ss, "altitude")| > 0 ==> a == Channel(ss, "altitude")
    ensures |Channel(ss, "altitude")| == 0 ==> a == Channel(ss, "fixed_altitude")
  {
    var a := Channel(ss, "altitude");
    if |a| > 0 then a else Channel(ss, "fixed_altitude")
  }

  function Inputs(ss: seq<Stream>): SplitInput {
    SplitInput(
      Channel(ss, "distance"),
      Channel(ss, "time"),
      Channel(ss, "heartrate"),
      Channel(ss, "cadence"),
      Altitude(ss))
  }

  /** The distance at which kilometre `km` is complete. */
  function Threshold(km: nat): real {
    (km as real) * 1000.0
  }

  // ---------------------------------------------------------------------
  // Elevation gain

  /** The climb from one altitude sample to the next; descents count 0. */
  function Rise(a: real, b: real): real {
    if b > a then b - a else 0.0
  }

  /** The sum of the positive consecutive differences of an altitude slice. */
  function ElevationGain(alt: seq<real>): (g: real)
    ensures g >= 0.0
    ensures |alt| > 0 ==> g >= alt[|alt| - 1] - alt[0]
    decreases |alt|
  {
    if |alt| < 2 then 0.0 else Rise(alt[0], alt[1]) + ElevationGain(alt[1..])
  }

  /** Cutting an altitude profile at a shared sample splits its gain exactly:
      consecutive splits share their boundary sample, so their gains add up
      to the gain of the stretch they cover. */
  lemma {:induction false} ElevationGainSplit(alt: seq<real>, m: nat)
    requires m < |alt|
    ensures ElevationGain(alt[..m + 1]) + ElevationGain(alt[m..]) == ElevationGain(alt)
    decreases m
  {
    if m > 0 {
      ElevationGainSplit(alt[1..], m - 1);
      assert alt[1..][..m] == alt[..m + 1][1..];
      assert alt[1..][m - 1..] == alt[m..];
    } else {
      assert alt[m..] == alt;
    }
  }

  /** A profile that never descends gains exactly its net climb. */
  lemma {:induction false} ElevationGainOfClimb(alt: seq<real>)
    requires |alt| > 0
    requires forall j :: 0 < j < |alt| ==> alt[j - 1] <= alt[j]
    ensures ElevationGain(alt) == alt[|alt| - 1] - alt[0]
    decreases |alt|
  {
    if |alt| >= 2 {
      ElevationGainOfClimb(alt[1..]);
    }
  }

  // ---------------------------------------------------------------------
  // One split

  /** `round(sum(s) / len(s)) if s else None`, less the rounding, where a
      zero mean also reads as `None`. */
  function HrMean(xs: seq<real>): (r: Option<real>)
    ensures r.Some? <==> |xs| > 0 && Sum(xs) != 0.0
    ensures r.Some? ==> r.value != 0.0 && r.value * (|xs| as real) == Sum(xs)
  {
    DropZero(Average(xs))
  }

  /** The samples of split `lo..hi` (inclusive) in one channel; a channel
      shorter than the distance stream gives a shorter or empty slice. */
  function Window(xs: seq<real>, lo: nat, hi: nat): seq<real> {
    Slice(xs, lo, hi + 1)
  }

  /** The split for kilometre `km` over samples `lo..hi` (inclusive), where
      the previous split ended at time `lastTime`. */
  function SplitAt(c: SplitInput, km: nat, lo: nat, hi: nat, lastTime: real): (r: Result<Split>)
    requires lo <= hi < |c.time|
    ensures r.Err? <==> |Window(c.cadence, lo, hi)| > 0 && AllZero(Window(c.cadence, lo, hi))
    ensures r.Ok? ==> r.value.km == km
    ensures r.Ok? ==> r.value.paceMinPerKm * 60.0 == c.time[hi] - lastTime
    ensures r.Ok? ==> r.value.avgHr == HrMean(Window(c.heartrate, lo, hi))
    ensures r.Ok? ==> r.value.avgCadence == DropZero(NonZeroMean(Window(c.cadence, lo, hi)).value)
    ensures r.Ok? ==> r.value.elevationGainM == ElevationGain(Window(c.altitude, lo, hi))
    ensures r.Ok? ==> r.value.elevationGainM >= 0.0
    ensures r.Ok? && |c.altitude| == 0 ==> r.value.elevationGainM == 0.0
  {
    var cad :- NonZeroMean(Window(c.cadence, lo, hi));
    Ok(Split(
      km,
      (c.time[hi] - lastTime) / 60.0,
      HrMean(Window(c.heartrate, lo, hi)),
      DropZero(cad),
      ElevationGain(Window(c.altitude, lo, hi))))
  }

  // ---------------------------------------------------------------------
  // The scan, as the source writes it

  /** The loop over the distance samples from `i` on: `km` is the next
      kilometre to close, `lastIdx` and `lastTime` where the previous split
      ended. A sample closes at most one kilometre. */
  function ScanSplits(c: SplitInput, i: nat, km: nat, lastIdx: nat, lastTime: real): (r: Result<seq<Split>>)
    requires Aligned(c) && lastIdx <= i <= |c.distance|
    ensures r.Ok? ==> |r.value| <= |c.distance| - i
    ensures r.Ok? ==> forall k :: 0 <= k < |r.value| ==> r.value[k].km == km + k
    decreases |c.distance| - i
  {
    if i == |c.distance| then Ok([])
    else if c.distance[i] >= Threshold(km) then
      var split :- SplitAt(c, km, lastIdx, i, lastTime);
      var rest :- ScanSplits(c, i + 1, km + 1, i, c.time[i]);
      Ok([split] + rest)
    else
      ScanSplits(c, i + 1, km, lastIdx, lastTime)
  }

  /** `extract_splits_from_stream`: no splits without both a distance and a
      time stream; otherwise one split per kilometre closed, numbered from 1. */
  function ExtractSplits(ss: seq<Stream>): (r: Result<seq<Split>>)
    requires StreamsAligned(ss)
    ensures !Has(ss, "distance") || !Has(ss, "time") ==> r == Ok([])
    ensures r.Ok? ==> |r.value| <= |Channel(ss, "distance")|
    ensures r.Ok? ==> forall k :: 0 <= k < |r.value| ==> r.value[k].km == k + 1
  {
    if !Has(ss, "distance") || !Has(ss, "time") then Ok([])
    else ScanSplits(Inputs(ss), 0, 1, 0, 0.0)
  }

  // ---------------------------------------------------------------------
  // Where the splits fall, stated independently of the scan

  /** `j` is the first sample at or after `from` whose distance reaches
      `target`. */
  predicate FirstReach(d: seq<real>, from: int, j: int, target: real) {
    0 <= from <= j < |d| && d[j] >= target && forall m :: from <= m < j ==> d[m] < target
  }

  /** No sample at or after `from` reaches `target`. */
  predicate NeverReaches(d: seq<real>, from: int, target: real) {
    forall m :: 0 <= from <= m < |d| ==> d[m] < target
  }

  /** The search for the first sample reaching `target`. */
  function FindReach(d: seq<real>, from: nat, target: real): (r: Option<nat>)
    requires from <= |d|
    ensures r.Some? ==> FirstReach(d, from, r.value, target)
    ensures r.None? ==> NeverReaches(d, from, target)
    decreases |d| - from
  {
    if from == |d| then None
    else if d[from] >= target then Some(from)
    else FindReach(d, from + 1, target)
  }

  /** Where the search for boundary `k` starts: just past the previous
      boundary. */
  function SearchStart(from: nat, bs: seq<nat>, k: nat): nat
    requires k <= |bs|
  {
    if k == 0 then from else bs[k - 1] + 1
  }

  /** `bs` lists the split boundaries from sample `from` on, for kilometres
      `km`, `km + 1`, ...: each is the first sample after the previous
      boundary whose distance reaches its kilometre, and no sample after the
      last boundary reaches the next kilometre. */
  predicate AreCrossings(d: seq<real>, from: nat, km: nat, bs: seq<nat>) {
    && (forall k :: 0 <= k < |bs| ==> CrossingAt(d, from, km, bs, k))
    && NeverReaches(d, SearchStart(from, bs, |bs|), Threshold(km + |bs|))
  }

  /** Boundary `k` is where kilometre `km + k` is first reached after the
      previous boundary. */
  predicate CrossingAt(d: seq<real>, from: nat, km: nat, bs: seq<nat>, k: nat)
    requires k < |bs|
  {
    FirstReach(d, SearchStart(from, bs, k), bs[k], Threshold(km + k))
  }

  /** Prepending the first reaching sample to the crossings after it. */
  lemma CrossingsCons(d: seq<real>, from: nat, km: nat, j: nat, rest: seq<nat>)
    requires FirstReach(d, from, j, Threshold(km))
    requires AreCrossings(d, j + 1, km + 1, rest)
    ensures AreCrossings(d, from, km, [j] + rest)
  {
    var bs := [j] + rest;
    forall k | 0 <= k < |bs|
      ensures CrossingAt(d, from, km, bs, k)
    {
      if k > 0 {
        assert CrossingAt(d, j + 1, km + 1, rest, k - 1);
        assert SearchStart(from, bs, k) == SearchStart(j + 1, rest, k - 1);
        assert km + k == (km + 1) + (k - 1);
      }
    }
    assert SearchStart(from, bs, |bs|) == SearchStart(j + 1, rest, |rest|);
  }

  /** The split boundaries from sample `from` on, found one kilometre at a
      time by searching forward from the previous boundary. */
  function Crossings(d: seq<real>, from: nat, km: nat): (bs: seq<nat>)
    requires from <= |d|
    ensures |bs| <= |d| - from
    ensures AreCrossings(d, from, km, bs)
    decreases |d| - from
  {
    match FindReach(d, from, Threshold(km))
    case None => []
    case Some(j) =>
      var rest := Crossings(d, j + 1, km + 1);
      CrossingsCons(d, from, km, j, rest);
      [j] + rest
  }

  /** Where split `k` starts. */
  function PrevIndex(bs: seq<nat>, lastIdx: nat, k: nat): nat
    requires k <= |bs|
  {
    if k == 0 then lastIdx else bs[k - 1]
  }

  /** Every boundary indexes the time stream. */
  predicate WithinTime(c: SplitInput, bs: seq<nat>) {
    forall k :: 0 <= k < |bs| ==> bs[k] < |c.time|
  }

  /** Boundaries usable for splits: non-decreasing from `lastIdx` and within
      the time stream. */
  predicate ValidBounds(c: SplitInput, bs: seq<nat>, lastIdx: nat) {
    WithinTime(c, bs) && forall k :: 0 <= k < |bs| ==> StartsBefore(bs, lastIdx, k)
  }

  /** Split `k` does not start after it ends. */
  predicate StartsBefore(bs: seq<nat>, lastIdx: nat, k: nat)
    requires k < |bs|
  {
    PrevIndex(bs, lastIdx, k) <= bs[k]
  }

  lemma ValidBoundsTail(c: SplitInput, bs: seq<nat>, lastIdx: nat)
    requires ValidBounds(c, bs, lastIdx) && |bs| > 0
    ensures lastIdx <= bs[0] < |c.time|
    ensures ValidBounds(c, bs[1..], bs[0])
  {
    assert StartsBefore(bs, lastIdx, 0);
    forall k | 0 <= k < |bs[1..]| ensures StartsBefore(bs[1..], bs[0], k) {
      assert StartsBefore(bs, lastIdx, k + 1);
    }
  }

  /** When split `k` starts. */
  function PrevTime(c: SplitInput, bs: seq<nat>, lastTime: real, k: nat): real
    requires k <= |bs| && WithinTime(c, bs)
  {
    if k == 0 then lastTime else c.time[bs[k - 1]]
  }

  /** Split `k` over the boundaries `bs`: kilometre `km + k`, from the
      previous boundary to `bs[k]`. */
  function NthSplit(c: SplitInput, bs: seq<nat>, km: nat, lastIdx: nat, lastTime: real, k: nat): Result<Split>
    requires ValidBounds(c, bs, lastIdx) && k < |bs|
  {
    assert StartsBefore(bs, lastIdx, k);
    SplitAt(c, km + k, PrevIndex(bs, lastIdx, k), bs[k], PrevTime(c, bs, lastTime, k))
  }

  lemma NthSplitTail(c: SplitInput, bs: seq<nat>, km: nat, lastIdx: nat, lastTime: real, k: nat)
    requires ValidBounds(c, bs, lastIdx) && 1 <= k < |bs|
    ensures ValidBounds(c, bs[1..], bs[0])
    ensures NthSplit(c, bs, km, lastIdx, lastTime, k)
            == NthSplit(c, bs[1..], km + 1, bs[0], c.time[bs[0]], k - 1)
  {
    ValidBoundsTail(c, bs, lastIdx);
    assert km + k == (km + 1) + (k - 1);
  }

  /** The splits over given boundaries, first to last. */
  function BuildSplits(c: SplitInput, bs: seq<nat>, km: nat, lastIdx: nat, lastTime: real): (r: Result<seq<Split>>)
    requires ValidBounds(c, bs, lastIdx)
    decreases |bs|
  {
    if |bs| == 0 then Ok([])
    else
      ValidBoundsTail(c, bs, lastIdx);
      var split :- SplitAt(c, km, lastIdx, bs[0], lastTime);
      var rest :- BuildSplits(c, bs[1..], km + 1, bs[0], c.time[bs[0]]);
      Ok([split] + rest)
  }

  lemma ConsAt(x: Split, xs: seq<Split>, k: nat)
    requires 0 < k <= |xs|
    ensures ([x] + xs)[k] == xs[k - 1]
  {
  }

  /** When `BuildSplits` succeeds it yields one split per boundary, split
      `k` being `NthSplit(.., k)`. */
  lemma {:induction false} BuildSplitsOk(c: SplitInput, bs: seq<nat>, km: nat, lastIdx: nat, lastTime: real)
    requires ValidBounds(c, bs, lastIdx)
    ensures BuildSplits(c, bs, km, lastIdx, lastTime).Ok? ==>
              |BuildSplits(c, bs, km, lastIdx, lastTime).value| == |bs| &&
              forall k :: 0 <= k < |bs| ==>
                NthSplit(c, bs, km, lastIdx, lastTime, k) == Ok(BuildSplits(c, bs, km, lastIdx, lastTime).value[k])
    decreases |bs|
  {
    var r := BuildSplits(c, bs, km, lastIdx, lastTime);
    if |bs| > 0 && r.Ok? {
      BuildHead(c, bs, km, lastIdx, lastTime);
      var tail := bs[1..];
      var t0 := c.time[bs[0]];
      BuildSplitsOk(c, tail, km + 1, bs[0], t0);
      var first := SplitAt(c, km, lastIdx, bs[0], lastTime);
      var rest := BuildSplits(c, tail, km + 1, bs[0], t0);
      assert r.value == [first.value] + rest.value;
      forall k | 0 <= k < |bs| ensures NthSplit(c, bs, km, lastIdx, lastTime, k) == Ok(r.value[k]) {
        if k > 0 {
          NthSplitTail(c, bs, km, lastIdx, lastTime, k);
          ConsAt(first.value, rest.value, k);
        }
      }
    }
  }

  /** `BuildSplits` fails exactly when one of its splits does. */
  lemma {:induction false} BuildSplitsErr(c: SplitInput, bs: seq<nat>, km: nat, lastIdx: nat, lastTime: real)
    requires ValidBounds(c, bs, lastIdx)
    ensures BuildSplits(c, bs, km, lastIdx, lastTime).Err? <==>
              exists k :: 0 <= k < |bs| && NthSplit(c, bs, km, lastIdx, lastTime, k).Err?
    decreases |bs|
  {
    if |bs| > 0 {
      ValidBoundsTail(c, bs, lastIdx);
      var tail := bs[1..];
      var t0 := c.time[bs[0]];
      BuildSplitsErr(c, tail, km + 1, bs[0], t0);
      var first := SplitAt(c, km, lastIdx, bs[0], lastTime);
      assert first == NthSplit(c, bs, km, lastIdx, lastTime, 0);
      if first.Err? {
        assert BuildSplits(c, bs, km, lastIdx, lastTime).Err?;
      } else {
        var rest := BuildSplits(c, tail, km + 1, bs[0], t0);
        assert BuildSplits(c, bs, km, lastIdx, lastTime).Err? <==> rest.Err?;
        if rest.Err? {
          var k :| 0 <= k < |tail| && NthSplit(c, tail, km + 1, bs[0], t0, k).Err?;
          NthSplitTail(c, bs, km, lastIdx, lastTime, k + 1);
        } else {
          forall k | 1 <= k < |bs| ensures NthSplit(c, bs, km, lastIdx, lastTime, k).Ok? {
            NthSplitTail(c, bs, km, lastIdx, lastTime, k);
          }
        }
      }
    }
  }

  /** Crossings are usable boundaries for any split that started at or
      before the search start. */
  lemma CrossingsValid(c: SplitInput, from: nat, km: nat, lastIdx: nat)
    requires Aligned(c) && lastIdx <= from <= |c.distance|
    ensures ValidBounds(c, Crossings(c.distance, from, km), lastIdx)
  {
    var bs := Crossings(c.distance, from, km);
    forall k | 0 <= k < |bs| ensures bs[k] < |c.time| && StartsBefore(bs, lastIdx, k) {
      assert CrossingAt(c.distance, from, km, bs, k);
    }
  }

  /** The scan cuts exactly at the crossings: running the source's loop from
      sample `i` gives the splits over `Crossings(distance, i, km)`. */
  lemma {:induction false} ScanFollowsCrossings(c: SplitInput, i: nat, km: nat, lastIdx: nat, lastTime: real)
    requires Aligned(c) && lastIdx <= i <= |c.distance|
    ensures ValidBounds(c, Crossings(c.distance, i, km), lastIdx)
    ensures ScanSplits(c, i, km, lastIdx, lastTime)
            == BuildSplits(c, Crossings(c.distance, i, km), km, lastIdx, lastTime)
    decreases |c.distance| - i
  {
    var d := c.distance;
    CrossingsValid(c, i, km, lastIdx);
    var bs := Crossings(d, i, km);
    if i == |d| {
      assert bs == [];
    } else if d[i] >= Threshold(km) {
      ScanFollowsCrossings(c, i + 1, km + 1, i, c.time[i]);
      CrossingAtScan(c, i, km, lastIdx, lastTime);
    } else {
      ScanFollowsCrossings(c, i + 1, km, lastIdx, lastTime);
      SkipAtScan(c, i, km, lastIdx, lastTime);
    }
  }

  /** One split in front of the rest, failing with the first failure. */
  function Join(first: Result<Split>, rest: Result<seq<Split>>): Result<seq<Split>> {
    if first.Err? then Err(first.error)
    else if rest.Err? then Err(rest.error)
    else Ok([first.value] + rest.value)
  }

  lemma ScanHead(c: SplitInput, i: nat, km: nat, lastIdx: nat, lastTime: real)
    requires Aligned(c) && lastIdx <= i < |c.distance| && c.distance[i] >= Threshold(km)
    ensures ScanSplits(c, i, km, lastIdx, lastTime)
            == Join(SplitAt(c, km, lastIdx, i, lastTime), ScanSplits(c, i + 1, km + 1, i, c.time[i]))
  {
  }

  lemma BuildHead(c: SplitInput, bs: seq<nat>, km: nat, lastIdx: nat, lastTime: real)
    requires ValidBounds(c, bs, lastIdx) && |bs| > 0
    ensures lastIdx <= bs[0] < |c.time| && ValidBounds(c, bs[1..], bs[0])
    ensures BuildSplits(c, bs, km, lastIdx, lastTime)
            == Join(SplitAt(c, km, lastIdx, bs[0], lastTime), BuildSplits(c, bs[1..], km + 1, bs[0], c.time[bs[0]]))
  {
    ValidBoundsTail(c, bs, lastIdx);
  }

  /** A sample that reaches kilometre `km` is its crossing. */
  lemma CrossingsAtHead(d: seq<real>, i: nat, km: nat)
    requires i < |d| && d[i] >= Threshold(km)
    ensures Crossings(d, i, km) == [i] + Crossings(d, i + 1, km + 1)
  {
    assert FindReach(d, i, Threshold(km)) == Some(i);
  }

  /** A sample that closes kilometre `km` is the next crossing. */
  lemma CrossingAtScan(c: SplitInput, i: nat, km: nat, lastIdx: nat, lastTime: real)
    requires Aligned(c) && lastIdx <= i < |c.distance| && c.distance[i] >= Threshold(km)
    requires ValidBounds(c, Crossings(c.distance, i + 1, km + 1), i)
    requires ScanSplits(c, i + 1, km + 1, i, c.time[i])
             == BuildSplits(c, Crossings(c.distance, i + 1, km + 1), km + 1, i, c.time[i])
    ensures ValidBounds(c, Crossings(c.distance, i, km), lastIdx)
    ensures ScanSplits(c, i, km, lastIdx, lastTime)
            == BuildSplits(c, Crossings(c.distance, i, km), km, lastIdx, lastTime)
  {
    var d := c.distance;
    CrossingsValid(c, i, km, lastIdx);
    CrossingsAtHead(d, i, km);
    var rest := Crossings(d, i + 1, km + 1);
    var bs := Crossings(d, i, km);
    assert bs[1..] == rest;
    ScanHead(c, i, km, lastIdx, lastTime);
    BuildHead(c, bs, km, lastIdx, lastTime);
  }

  /** A sample that does not close kilometre `km` leaves the crossings as
      they are from the next sample on. */
  lemma SkipAtScan(c: SplitInput, i: nat, km: nat, lastIdx: nat, lastTime: real)
    requires Aligned(c) && lastIdx <= i < |c.distance| && c.distance[i] < Threshold(km)
    requires ValidBounds(c, Crossings(c.distance, i + 1, km), lastIdx)
    requires ScanSplits(c, i + 1, km, lastIdx, lastTime)
             == BuildSplits(c, Crossings(c.distance, i + 1, km), km, lastIdx, lastTime)
    ensures ValidBounds(c, Crossings(c.distance, i, km), lastIdx)
    ensures ScanSplits(c, i, km, lastIdx, lastTime)
            == BuildSplits(c, Crossings(c.distance, i, km), km, lastIdx, lastTime)
  {
    CrossingsSkip(c.distance, i, km);
    ScanSkip(c, i, km, lastIdx, lastTime);
  }

  lemma CrossingsSkip(d: seq<real>, i: nat, km: nat)
    requires i < |d| && d[i] < Threshold(km)
    ensures Crossings(d, i, km) == Crossings(d, i + 1, km)
  {
    assert FindReach(d, i, Threshold(km)) == FindReach(d, i + 1, Threshold(km));
  }

  lemma ScanSkip(c: SplitInput, i: nat, km: nat, lastIdx: nat, lastTime: real)
    requires Aligned(c) && lastIdx <= i < |c.distance| && c.distance[i] < Threshold(km)
    ensures ScanSplits(c, i, km, lastIdx, lastTime) == ScanSplits(c, i + 1, km, lastIdx, lastTime)
  {
  }

  /** The full account of `extract_splits_from_stream` when both streams
      exist. With `bs` the crossings of kilometres 1, 2, ... (each the first
      sample after the previous boundary to reach its kilometre), the result
      has one split per crossing, split `k` being kilometre `k + 1` cut from
      the previous boundary (sample 0, time 0 for the first) to `bs[k]`; and
      the call raises exactly when one of those splits does. */
  lemma SplitsAtCrossings(ss: seq<Stream>)
    requires StreamsAligned(ss) && Has(ss, "distance") && Has(ss, "time")
    ensures AreCrossings(Channel(ss, "distance"), 0, 1, Crossings(Channel(ss, "distance"), 0, 1))
    ensures ValidBounds(Inputs(ss), Crossings(Channel(ss, "distance"), 0, 1), 0)
    ensures ExtractSplits(ss).Ok? ==>
              |ExtractSplits(ss).value| == |Crossings(Channel(ss, "distance"), 0, 1)| &&
              forall k :: 0 <= k < |ExtractSplits(ss).value| ==>
                NthSplit(Inputs(ss), Crossings(Channel(ss, "distance"), 0, 1), 1, 0, 0.0, k)
                == Ok(ExtractSplits(ss).value[k])
    ensures ExtractSplits(ss).Err? <==>
              exists k :: 0 <= k < |Crossings(Channel(ss, "distance"), 0, 1)| &&
                NthSplit(Inputs(ss), Crossings(Channel(ss, "distance"), 0, 1), 1, 0, 0.0, k).Err?
  {
    var c := Inputs(ss);
    ScanFollowsCrossings(c, 0, 1, 0, 0.0);
    var bs := Crossings(c.distance, 0, 1);
    BuildSplitsOk(c, bs, 1, 0, 0.0);
    BuildSplitsErr(c, bs, 1, 0, 0.0);
  }
}
