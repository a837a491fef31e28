/** The averaging idioms of `combine_data.py`, on unrounded reals. */
module Stats {
  import opened Wrappers
  import opened Seqs

  /** `sum(xs)`, accumulated left to right. */
  function Sum(xs: seq<real>): real
    decreases |xs|
  {
    if |xs| == 0 then 0.0 else Sum(xs[..|xs| - 1]) + xs[|xs| - 1]
  }

  predicate IsNonZero(x: real) {
    x != 0.0
  }

  /** `[x for x in xs if x]`: Python's truthiness drops the zero samples. */
  function NonZero(xs: seq<real>): seq<real> {
    Filter(xs, IsNonZero)
  }

  /** Dropping zeros does not change a sum, so `sum(x for x in xs if x)`
      is the sum of all samples. */
  lemma {:induction false} SumNonZero(xs: seq<real>)
    ensures Sum(NonZero(xs)) == Sum(xs)
    decreases |xs|
  {
    if |xs| > 0 {
      var n := |xs| - 1;
      SumNonZero(xs[..n]);
      var init := NonZero(xs[..n]);
      if xs[n] != 0.0 {
        assert (init + [xs[n]])[..|init|] == init;
      }
    }
  }

  /** A sum is bounded by the count times any bounds on the samples. */
  lemma {:induction false} SumBounds(xs: seq<real>, lo: real, hi: real)
    requires forall i :: 0 <= i < |xs| ==> lo <= xs[i] <= hi
    ensures (|xs| as real) * lo <= Sum(xs) <= (|xs| as real) * hi
    decreases |xs|
  {
    if |xs| > 0 {
      var n := |xs| - 1;
      SumBounds(xs[..n], lo, hi);
      assert (|xs| as real) * lo == (n as real) * lo + lo;
      assert (|xs| as real) * hi == (n as real) * hi + hi;
    }
  }

  /** Dividing by a positive count and multiplying back. */
  lemma DivideBack(total: real, n: nat)
    requires n > 0
    ensures (total / (n as real)) * (n as real) == total
  {
  }

  /** Every sample is zero, so none survives `if x`. */
  predicate AllZero(xs: seq<real>) {
    forall i :: 0 <= i < |xs| ==> xs[i] == 0.0
  }

  /** `sum(xs) / len(xs) if xs else None`. */
  function Average(xs: seq<real>): (r: Option<real>)
    ensures r.None? <==> |xs| == 0
    ensures r.Some? ==> r.value * (|xs| as real) == Sum(xs)
  {
    if |xs| == 0 then None
    else
      DivideBack(Sum(xs), |xs|);
      Some(Sum(xs) / (|xs| as real))
  }

  /** A mean lies between any lower and upper bound of its samples. */
  lemma AverageWithin(xs: seq<real>, lo: real, hi: real)
    requires |xs| > 0
    requires forall i :: 0 <= i < |xs| ==> lo <= xs[i] <= hi
    ensures lo <= Average(xs).value <= hi
  {
    SumBounds(xs, lo, hi);
    var n := |xs| as real;
    var a := Average(xs).value;
    assert a * n == Sum(xs);
    assert n * lo <= a * n <= n * hi;
  }

  /** No sample survives `if x` exactly when every sample is zero. */
  lemma NonZeroEmpty(xs: seq<real>)
    ensures |NonZero(xs)| == 0 <==> AllZero(xs)
  {
    var nz := NonZero(xs);
    if |nz| > 0 {
      assert nz[0] in xs && nz[0] != 0.0;
    }
    if !AllZero(xs) {
      var i :| 0 <= i < |xs| && xs[i] != 0.0;
      assert xs[i] in nz;
    }
  }

  /** `sum(x for x in xs if x) / len([x for x in xs if x]) if xs else None`:
      empty input gives `None`; a non-empty input whose entries are all zero
      divides by zero. */
  function NonZeroMean(xs: seq<real>): (r: Result<Option<real>>)
    ensures r == Ok(None) <==> |xs| == 0
    ensures r.Err? <==> |xs| > 0 && AllZero(xs)
    ensures r.Err? ==> r.error == ZeroDivisionError
    ensures r.Ok? && r.value.Some? ==>
              |NonZero(xs)| > 0 && r.value.value * (|NonZero(xs)| as real) == Sum(xs)
  {
    NonZeroEmpty(xs);
    if |xs| == 0 then Ok(None)
    else if |NonZero(xs)| == 0 then Err(ZeroDivisionError)
    else Ok(Some(MeanOfNonZero(xs)))
  }

  /** A successful mean is present exactly when some sample is non-zero,
      and is then the mean of the non-zero samples. */
  lemma NonZeroMeanSome(xs: seq<real>)
    ensures NonZeroMean(xs).Ok? ==> (NonZeroMean(xs).value.Some? <==> |NonZero(xs)| > 0)
    ensures NonZeroMean(xs).Ok? && NonZeroMean(xs).value.Some? ==>
              NonZeroMean(xs).value.value == MeanOfNonZero(xs)
  {
    NonZeroEmpty(xs);
  }

  /** The mean of the non-zero samples, when there is one. */
  function MeanOfNonZero(xs: seq<real>): (m: real)
    requires |NonZero(xs)| > 0
    ensures m * (|NonZero(xs)| as real) == Sum(xs)
  {
    var nz := NonZero(xs);
    SumNonZero(xs);
    DivideBack(Sum(nz), |nz|);
    Sum(nz) / (|nz| as real)
  }

  /** `round(v) if v else None` without the rounding: a zero mean reads as
      missing. */
  function DropZero(v: Option<real>): (r: Option<real>)
    ensures r.Some? <==> v.Some? && v.value != 0.0
    ensures r.Some? ==> r == v
  {
    if v.Some? && v.value != 0.0 then v else None
  }
}
