/** Python list idioms used throughout `combine_data.py`: list comprehensions
    with an `if` filter, and clamped slicing `s[lo:hi]`. */
module Seqs {

  /** `[x for x in s if p(x)]`, defined by appending one element at a time
      as the comprehension does. */
  function Filter<T>(s: seq<T>, p: T -> bool): (r: seq<T>)
    ensures |r| <= |s|
    ensures forall i :: 0 <= i < |r| ==> r[i] in s && p(r[i])
    ensures forall i :: 0 <= i < |s| && p(s[i]) ==> s[i] in r
    decreases |s|
  {
    if |s| == 0 then []
    else
      var init := Filter(s[..|s| - 1], p);
      assert s == s[..|s| - 1] + [s[|s| - 1]];
      if p(s[|s| - 1]) then init + [s[|s| - 1]] else init
  }

  /** The positions of `s` whose element satisfies `p`: an independent
      description of what `Filter` keeps. */
  ghost function Positions<T>(s: seq<T>, p: T -> bool): set<int> {
    set i | 0 <= i < |s| && p(s[i])
  }

  /** One more element lengthens the filtered list exactly when it
      satisfies the test. */
  lemma FilterLast<T>(s: seq<T>, p: T -> bool)
    requires |s| > 0
    ensures |Filter(s, p)| == |Filter(s[..|s| - 1], p)| + (if p(s[|s| - 1]) then 1 else 0)
  {
  }

  /** Filtering keeps exactly one element per satisfying position. */
  lemma {:induction false} FilterCount<T>(s: seq<T>, p: T -> bool)
    ensures |Filter(s, p)| == |Positions(s, p)|
    decreases |s|
  {
    if |s| > 0 {
      var n := |s| - 1;
      FilterCount(s[..n], p);
      FilterLast(s, p);
      PositionsLast(s, p);
    } else {
      assert Positions(s, p) == {};
    }
  }

  /** The satisfying positions of a list are those of all but its last
      element, plus the last position when it satisfies the test. */
  lemma PositionsLast<T>(s: seq<T>, p: T -> bool)
    requires |s| > 0
    ensures |Positions(s, p)| == |Positions(s[..|s| - 1], p)| + (if p(s[|s| - 1]) then 1 else 0)
  {
    var n := |s| - 1;
    var before := Positions(s[..n], p);
    var after := if p(s[n]) then before + {n} else before;
    forall i
      ensures i in Positions(s, p) <==> i in after
    {
      if 0 <= i < n {
        assert s[..n][i] == s[i];
      }
    }
    assert Positions(s, p) == after;
    assert n !in before;
  }

  /** Filtering commutes with concatenation: the comprehension keeps order. */
  lemma {:induction false} FilterConcat<T>(a: seq<T>, b: seq<T>, p: T -> bool)
    ensures Filter(a + b, p) == Filter(a, p) + Filter(b, p)
    decreases |b|
  {
    if |b| == 0 {
      assert a + b == a;
    } else {
      var n := |b| - 1;
      assert (a + b)[..|a + b| - 1] == a + b[..n];
      FilterConcat(a, b[..n], p);
    }
  }

  /** Filtering a list with one element put in front. */
  lemma FilterCons<T>(a: T, b: seq<T>, p: T -> bool)
    ensures Filter([a] + b, p) == (if p(a) then [a] else []) + Filter(b, p)
  {
    FilterConcat([a], b, p);
    FilterSingle(a, p);
  }

  lemma FilterSingle<T>(a: T, p: T -> bool)
    ensures Filter([a], p) == if p(a) then [a] else []
  {
    var s := [a];
    assert s[..0] == [];
    assert Filter(s[..0], p) == [];
  }

  /** Lists that filter alike still do with one element put in front. */
  lemma FilterConsCongr<T>(y: T, a: seq<T>, b: seq<T>, p: T -> bool)
    requires Filter(a, p) == Filter(b, p)
    ensures Filter([y] + a, p) == Filter([y] + b, p)
  {
    FilterCons(y, a, p);
    FilterCons(y, b, p);
  }

  /** Filtering a list with two elements put in front. */
  lemma FilterCons2<T>(a: T, b: T, tail: seq<T>, p: T -> bool)
    ensures Filter([a] + ([b] + tail), p)
         == (if p(a) then [a] else []) + ((if p(b) then [b] else []) + Filter(tail, p))
  {
    FilterCons(a, [b] + tail, p);
    FilterCons(b, tail, p);
  }

  /** Two neighbours that do not both pass the test can trade places
      without changing what the filter keeps. */
  lemma FilterSwap<T>(x: T, y: T, tail: seq<T>, p: T -> bool)
    requires !(p(x) && p(y))
    ensures Filter([y] + ([x] + tail), p) == Filter([x] + ([y] + tail), p)
  {
    FilterCons2(y, x, tail, p);
    FilterCons2(x, y, tail, p);
    SwapPieces(if p(x) then [x] else [], if p(y) then [y] else [], Filter(tail, p));
  }

  lemma SwapPieces<T>(a: seq<T>, b: seq<T>, rest: seq<T>)
    requires a == [] || b == []
    ensures b + (a + rest) == a + (b + rest)
  {
    if a == [] {
      assert a + rest == rest;
      assert b + (a + rest) == a + (b + rest);
    } else {
      assert b + rest == rest;
    }
  }

  /** `[f(x) for x in xs]`. */
  function MapSeq<A, B>(xs: seq<A>, f: A --> B): (r: seq<B>)
    requires forall i :: 0 <= i < |xs| ==> f.requires(xs[i])
    ensures |r| == |xs|
    ensures forall i :: 0 <= i < |xs| ==> r[i] == f(xs[i])
    decreases |xs|
  {
    if |xs| == 0 then [] else MapSeq(xs[..|xs| - 1], f) + [f(xs[|xs| - 1])]
  }

  /** Filtering the images by a test that the image passes exactly when
      its source passes another is mapping the filtered sources. */
  lemma {:induction false} FilterMap<A, B>(xs: seq<A>, f: A --> B, p: B -> bool, q: A -> bool)
    requires forall i :: 0 <= i < |xs| ==> f.requires(xs[i]) && (p(f(xs[i])) <==> q(xs[i]))
    ensures forall i :: 0 <= i < |Filter(xs, q)| ==> f.requires(Filter(xs, q)[i])
    ensures Filter(MapSeq(xs, f), p) == MapSeq(Filter(xs, q), f)
    decreases |xs|
  {
    if |xs| > 0 {
      var n := |xs| - 1;
      var init := xs[..n];
      assert forall i :: 0 <= i < n ==> init[i] == xs[i];
      FilterMap(init, f, p, q);
      var kept := Filter(init, q);
      var ys := MapSeq(init, f);
      assert MapSeq(xs, f) == ys + [f(xs[n])];
      assert MapSeq(xs, f)[..n] == ys;
      if q(xs[n]) {
        assert Filter(xs, q) == kept + [xs[n]];
        assert (kept + [xs[n]])[..|kept|] == kept;
      } else {
        assert Filter(xs, q) == kept;
      }
    }
  }

  /** The opposite test: `[x for x in s if not p(x)]`. */
  function Not<T>(p: T -> bool): T -> bool {
    x => !p(x)
  }

  /** Two tests that never hold together keep at most `len(s)` elements
      between them. */
  lemma {:induction false} FilterDisjoint<T>(s: seq<T>, p: T -> bool, q: T -> bool)
    requires forall i :: 0 <= i < |s| ==> !(p(s[i]) && q(s[i]))
    ensures |Filter(s, p)| + |Filter(s, q)| <= |s|
    decreases |s|
  {
    if |s| > 0 {
      var n := |s| - 1;
      assert forall i :: 0 <= i < n ==> s[..n][i] == s[i];
      FilterDisjoint(s[..n], p, q);
      FilterLast(s, p);
      FilterLast(s, q);
    }
  }

  /** `set(s)`. */
  function Elems<T>(s: seq<T>): set<T> {
    set x | x in s
  }

  /** No element of `s` repeats. */
  predicate Distinct<T(==)>(s: seq<T>) {
    forall i, j :: 0 <= i < j < |s| ==> s[i] != s[j]
  }

  /** `len(set(s))` never exceeds `len(s)`, is positive for a non-empty
      list, and equals `len(s)` exactly when no element repeats. */
  lemma {:induction false} ElemsCard<T>(s: seq<T>)
    ensures |Elems(s)| <= |s|
    ensures |s| > 0 ==> |Elems(s)| > 0
    ensures |Elems(s)| == |s| <==> Distinct(s)
    decreases |s|
  {
    if |s| > 0 {
      var n := |s| - 1;
      var init := s[..n];
      ElemsCard(init);
      assert s == init + [s[n]];
      assert Elems(s) == Elems(init) + {s[n]};
      if s[n] in init {
        var i :| 0 <= i < n && init[i] == s[n];
        assert s[i] == s[n];
        assert Elems(s) == Elems(init);
      } else {
        forall i, j | 0 <= i < j < |s| && Distinct(init)
          ensures s[i] != s[j]
        {
          assert s[i] == init[i];
          if j < n {
            assert s[j] == init[j];
          }
        }
        forall i, j | 0 <= i < j < n && Distinct(s)
          ensures init[i] != init[j]
        {
          assert s[i] == init[i] && s[j] == init[j];
        }
      }
    } else {
      assert Elems(s) == {};
    }
  }

  function Min(a: int, b: int): int {
    if a <= b then a else b
  }

  /** Python's `s[lo:hi]` for non-negative bounds: both bounds are clamped to
      `len(s)`, and a slice whose start passes its end is empty. */
  function Slice<T>(s: seq<T>, lo: nat, hi: nat): (r: seq<T>)
    ensures |r| == if lo <= hi then Min(hi, |s|) - Min(lo, |s|) else 0
    ensures lo <= hi <= |s| ==> r == s[lo..hi]
    ensures lo <= |s| <= hi ==> r == s[lo..]
    ensures |s| <= lo ==> r == []
  {
    var h := Min(hi, |s|);
    var l := Min(lo, h);
    s[l..h]
  }
}
