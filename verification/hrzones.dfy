/** Heart-rate zone distribution (`extract_hr_zones_detail`): every non-zero
    sample is counted in the first zone whose upper bound exceeds it, and
    the counts are reported as percentages of the counted samples. */
module HrZones {
  import opened Wrappers
  import opened Seqs
  import opened Stats
  import opened Streams

  // ---------------------------------------------------------------------
  // Classifying one sample

  /** The first zone from `from` on whose upper bound exceeds `hr`. */
  function ZoneFrom(hr: real, zones: seq<real>, from: nat): (r: Option<nat>)
    requires from <= |zones|
    ensures r.Some? ==> from <= r.value < |zones|
    decreases |zones| - from
  {
    if from == |zones| then None
    else if hr < zones[from] then Some(from)
    else ZoneFrom(hr, zones, from + 1)
  }

  /** The search from `from` finds `z` exactly when `z` is the first bound
      from `from` on that lies above `hr`, and finds nothing exactly when no
      bound from `from` on does. */
  lemma {:induction false} ZoneFromIff(hr: real, zones: seq<real>, from: nat, z: nat)
    requires from <= |zones|
    ensures ZoneFrom(hr, zones, from) == Some(z) <==>
              from <= z < |zones| && hr < zones[z] && forall j :: from <= j < z ==> zones[j] <= hr
    ensures ZoneFrom(hr, zones, from).None? <==> forall j :: from <= j < |zones| ==> zones[j] <= hr
    decreases |zones| - from
  {
    if from < |zones| && zones[from] <= hr {
      ZoneFromIff(hr, zones, from + 1, z);
      if z == from {
        assert !(hr < zones[z]);
      }
    }
  }

  /** The zone a sample falls in: the `break` after the first bound it is
      below. */
  function ZoneOf(hr: real, zones: seq<real>): (r: Option<nat>)
    ensures r.Some? ==> r.value < |zones|
  {
    ZoneFrom(hr, zones, 0)
  }

  /** `hr` lands in zone `z` exactly when `z` is the first bound above it,
      and in no zone exactly when it is at or above every bound. */
  lemma ZoneOfIff(hr: real, zones: seq<real>, z: nat)
    ensures ZoneOf(hr, zones) == Some(z) <==>
              z < |zones| && hr < zones[z] && forall j :: 0 <= j < z ==> zones[j] <= hr
    ensures ZoneOf(hr, zones).None? <==> forall j :: 0 <= j < |zones| ==> zones[j] <= hr
  {
    ZoneFromIff(hr, zones, 0, z);
  }

  /** The sample is counted in zone `z`: it is non-zero (`if hr:`) and `z` is
      its zone. */
  predicate InZone(hr: real, zones: seq<real>, z: nat) {
    hr != 0.0 && ZoneOf(hr, zones) == Some(z)
  }

  /** The sample is counted at all. */
  predicate Counted(hr: real, zones: seq<real>) {
    hr != 0.0 && ZoneOf(hr, zones).Some?
  }

  // ---------------------------------------------------------------------
  // Counting

  /** `zone_times` after the samples `hrs`, one sample at a time. */
  function ZoneCounts(hrs: seq<real>, zones: seq<real>): (counts: seq<nat>)
    ensures |counts| == |zones|
    decreases |hrs|
  {
    if |hrs| == 0 then seq(|zones|, _ => 0)
    else
      var init := ZoneCounts(hrs[..|hrs| - 1], zones);
      var hr := hrs[|hrs| - 1];
      if hr != 0.0 && ZoneOf(hr, zones).Some? then
        var z := ZoneOf(hr, zones).value;
        init[z := init[z] + 1]
      else init
  }

  /** The test a sample passes to be counted in zone `z`. */
  function InZoneTest(zones: seq<real>, z: nat): real -> bool {
    hr => InZone(hr, zones, z)
  }

  /** The test a sample passes to be counted at all. */
  function CountedTest(zones: seq<real>): real -> bool {
    hr => Counted(hr, zones)
  }

  /** The samples counted in zone `z`, by position. */
  ghost function ZoneSamples(hrs: seq<real>, zones: seq<real>, z: nat): set<int> {
    Positions(hrs, InZoneTest(zones, z))
  }

  /** The samples counted in some zone, by position. */
  ghost function CountedSamples(hrs: seq<real>, zones: seq<real>): set<int> {
    Positions(hrs, CountedTest(zones))
  }

  /** Each zone's counter is the number of samples the comprehension
      `[hr for hr in hrs if hr and zone(hr) == z]` would keep. */
  lemma {:induction false} ZoneCountsFilter(hrs: seq<real>, zones: seq<real>, z: nat)
    requires z < |zones|
    ensures ZoneCounts(hrs, zones)[z] == |Filter(hrs, InZoneTest(zones, z))|
    decreases |hrs|
  {
    if |hrs| > 0 {
      ZoneCountsFilter(hrs[..|hrs| - 1], zones, z);
    }
  }

  /** Each zone's counter is the number of samples whose zone it is. */
  lemma ZoneCountsExact(hrs: seq<real>, zones: seq<real>, z: nat)
    requires z < |zones|
    ensures ZoneCounts(hrs, zones)[z] == |ZoneSamples(hrs, zones, z)|
  {
    ZoneCountsFilter(hrs, zones, z);
    FilterCount(hrs, InZoneTest(zones, z));
  }

  /** `sum(zone_times)`. */
  function Total(counts: seq<nat>): nat
    decreases |counts|
  {
    if |counts| == 0 then 0 else Total(counts[..|counts| - 1]) + counts[|counts| - 1]
  }

  /** Adding one to an entry adds one to the total. */
  lemma {:induction false} TotalBump(counts: seq<nat>, z: nat)
    requires z < |counts|
    ensures Total(counts[z := counts[z] + 1]) == Total(counts) + 1
    decreases |counts|
  {
    var n := |counts| - 1;
    var bumped := counts[z := counts[z] + 1];
    if z < n {
      assert bumped[..n] == counts[..n][z := counts[z] + 1];
      TotalBump(counts[..n], z);
    } else {
      assert bumped[..n] == counts[..n];
    }
  }

  lemma {:induction false} TotalZeros(k: nat)
    ensures Total(seq(k, _ => 0)) == 0
    decreases k
  {
    if k > 0 {
      assert seq(k, _ => 0)[..k - 1] == seq(k - 1, _ => 0);
      TotalZeros(k - 1);
    }
  }

  /** One more sample raises the total of the counters by one exactly when
      it is counted. */
  lemma TotalLast(hrs: seq<real>, zones: seq<real>)
    requires |hrs| > 0
    ensures Total(ZoneCounts(hrs, zones))
            == Total(ZoneCounts(hrs[..|hrs| - 1], zones)) + (if Counted(hrs[|hrs| - 1], zones) then 1 else 0)
  {
    var n := |hrs| - 1;
    var init := ZoneCounts(hrs[..n], zones);
    if Counted(hrs[n], zones) {
      var z := ZoneOf(hrs[n], zones).value;
      assert ZoneCounts(hrs, zones) == init[z := init[z] + 1];
      TotalBump(init, z);
    } else {
      assert ZoneCounts(hrs, zones) == init;
    }
  }

  /** One more sample raises the total exactly when the comprehension
      keeps it. */
  lemma TotalStep(hrs: seq<real>, zones: seq<real>)
    requires |hrs| > 0
    ensures Total(ZoneCounts(hrs, zones)) - |Filter(hrs, CountedTest(zones))|
            == Total(ZoneCounts(hrs[..|hrs| - 1], zones)) - |Filter(hrs[..|hrs| - 1], CountedTest(zones))|
  {
    TotalLast(hrs, zones);
    FilterLast(hrs, CountedTest(zones));
    assert CountedTest(zones)(hrs[|hrs| - 1]) == Counted(hrs[|hrs| - 1], zones);
  }

  /** Every counted sample raises exactly one counter by one. */
  lemma {:induction false} TotalFilter(hrs: seq<real>, zones: seq<real>)
    ensures Total(ZoneCounts(hrs, zones)) == |Filter(hrs, CountedTest(zones))|
    decreases |hrs|
  {
    if |hrs| == 0 {
      TotalZeros(|zones|);
    } else {
      TotalFilter(hrs[..|hrs| - 1], zones);
      TotalStep(hrs, zones);
    }
  }

  /** So the total is the number of samples that are non-zero and below
      some bound. */
  lemma TotalIsCounted(hrs: seq<real>, zones: seq<real>)
    ensures Total(ZoneCounts(hrs, zones)) == |CountedSamples(hrs, zones)|
  {
    TotalFilter(hrs, zones);
    FilterCount(hrs, CountedTest(zones));
  }

  // ---------------------------------------------------------------------
  // Keys

  function Digit(d: nat): char
    requires d < 10
  {
    "0123456789"[d]
  }

  /** The decimal digits of `n`, as an f-string writes it. */
  function NatToString(n: nat): (s: string)
    ensures n < 10 ==> |s| == 1
    ensures n >= 10 ==> |s| >= 2
    decreases n
  {
    if n < 10 then [Digit(n)] else NatToString(n / 10) + [Digit(n % 10)]
  }

  lemma DigitInjective(a: nat, b: nat)
    requires a < 10 && b < 10 && Digit(a) == Digit(b)
    ensures a == b
  {
  }

  /** Different numbers are written differently. */
  lemma {:induction false} NatToStringInjective(a: nat, b: nat)
    requires NatToString(a) == NatToString(b)
    ensures a == b
    decreases a
  {
    var s := NatToString(a);
    if a < 10 {
      DigitInjective(a, b);
    } else {
      var pa := NatToString(a / 10);
      var pb := NatToString(b / 10);
      assert s[..|s| - 1] == pa && s[..|s| - 1] == pb;
      DigitInjective(a % 10, b % 10);
      NatToStringInjective(a / 10, b / 10);
    }
  }

  /** `f"zone_{i+1}_pct"`. */
  function ZoneKey(i: nat): string {
    "zone_" + NatToString(i + 1) + "_pct"
  }

  /** Different zones get different keys. */
  lemma ZoneKeyInjective(i: nat, j: nat)
    requires ZoneKey(i) == ZoneKey(j)
    ensures i == j
  {
    var s := ZoneKey(i);
    assert s[5..|s| - 4] == NatToString(i + 1);
    assert s[5..|s| - 4] == NatToString(j + 1);
    NatToStringInjective(i + 1, j + 1);
  }

  // ---------------------------------------------------------------------
  // Shares

  /** The share of one counter, unrounded. */
  function Share(c: nat, total: nat): real
    requires total > 0
  {
    100.0 * (c as real) / (total as real)
  }

  /** The reported shares of the first `k` zones: one key per zone with a
      positive count. */
  function Shares(counts: seq<nat>, total: nat, k: nat): (m: map<string, real>)
    requires total > 0 && k <= |counts|
    ensures forall i :: 0 <= i < k ==>
              (ZoneKey(i) in m <==> counts[i] > 0) &&
              (ZoneKey(i) in m ==> m[ZoneKey(i)] == Share(counts[i], total))
    ensures forall key :: key in m ==> exists i :: 0 <= i < k && key == ZoneKey(i)
    decreases k
  {
    if k == 0 then map[]
    else
      var m := Shares(counts, total, k - 1);
      forall i | 0 <= i < k - 1 ensures ZoneKey(i) != ZoneKey(k - 1) {
        if ZoneKey(i) == ZoneKey(k - 1) {
          ZoneKeyInjective(i, k - 1);
        }
      }
      if counts[k - 1] > 0 then m[ZoneKey(k - 1) := Share(counts[k - 1], total)] else m
  }

  /** Division by a positive total distributes over a sum. */
  lemma DivAdd(a: real, b: real, t: real)
    requires t > 0.0
    ensures (a + b) / t == a / t + b / t
  {
  }

  /** The shares of all the counters. */
  function ShareList(counts: seq<nat>, total: nat): (r: seq<real>)
    requires total > 0
    ensures |r| == |counts|
    decreases |counts|
  {
    if |counts| == 0 then []
    else ShareList(counts[..|counts| - 1], total) + [Share(counts[|counts| - 1], total)]
  }

  /** The shares add up to the counted fraction of `total`. */
  lemma {:induction false} ShareListSum(counts: seq<nat>, total: nat)
    requires total > 0
    ensures Sum(ShareList(counts, total)) == 100.0 * (Total(counts) as real) / (total as real)
    decreases |counts|
  {
    if |counts| > 0 {
      var n := |counts| - 1;
      ShareListSum(counts[..n], total);
      var r := ShareList(counts, total);
      var a := 100.0 * (Total(counts[..n]) as real);
      var b := 100.0 * (counts[n] as real);
      assert r == ShareList(counts[..n], total) + [Share(counts[n], total)];
      assert r[..n] == ShareList(counts[..n], total);
      assert r[n] == b / (total as real);
      assert Sum(r) == Sum(r[..n]) + r[n];
      assert 100.0 * (Total(counts) as real) == a + b;
      DivAdd(a, b, total as real);
    }
  }

  /** Shares of the whole total add up to one hundred percent. */
  lemma SharesSumTo100(counts: seq<nat>)
    requires Total(counts) > 0
    ensures Sum(ShareList(counts, Total(counts))) == 100.0
  {
    ShareListSum(counts, Total(counts));
    HundredOver(Total(counts) as real);
  }

  lemma HundredOver(t: real)
    requires t > 0.0
    ensures 100.0 * t / t == 100.0
  {
  }

  // ---------------------------------------------------------------------
  // The whole analysis

  /** `extract_hr_zones_detail`: nothing without heart-rate samples, zones or
      a counted sample; otherwise the share of each zone that counted a
      sample, under its key. */
  function HrZonesDetail(ss: seq<Stream>, zones: seq<real>): (m: map<string, real>)
    ensures |Channel(ss, "heartrate")| == 0 || |zones| == 0 ==> m == map[]
    ensures |CountedSamples(Channel(ss, "heartrate"), zones)| == 0 ==> m == map[]
    ensures |CountedSamples(Channel(ss, "heartrate"), zones)| > 0 ==>
              forall z :: 0 <= z < |zones| ==>
                var n := |ZoneSamples(Channel(ss, "heartrate"), zones, z)|;
                (ZoneKey(z) in m <==> n > 0) &&
                (ZoneKey(z) in m ==>
                   m[ZoneKey(z)] == Share(n, |CountedSamples(Channel(ss, "heartrate"), zones)|))
    ensures forall key :: key in m ==> exists z :: 0 <= z < |zones| && key == ZoneKey(z)
  {
    var hrs := Channel(ss, "heartrate");
    if |hrs| == 0 || |zones| == 0 then map[]
    else
      var counts := ZoneCounts(hrs, zones);
      var total := Total(counts);
      TotalIsCounted(hrs, zones);
      if total == 0 then map[]
      else
        assert forall z :: 0 <= z < |zones| ==> counts[z] == |ZoneSamples(hrs, zones, z)| by {
          forall z | 0 <= z < |zones| ensures counts[z] == |ZoneSamples(hrs, zones, z)| {
            ZoneCountsExact(hrs, zones, z);
          }
        }
        Shares(counts, total, |counts|)
  }
}
