/** Python's ordering of `str` values, which `sorted` and `min`/`max` use on
    the ISO dates: code point by code point, a proper prefix before any of
    its extensions. */
module Order {

  /** `a <= b` on Python strings, by recursion on the first code point. */
  predicate StrLe(a: string, b: string)
    decreases |a|
  {
    |a| == 0 || (|b| > 0 && (a[0] < b[0] || (a[0] == b[0] && StrLe(a[1..], b[1..]))))
  }

  /** The textbook description of the same order: `a` is a prefix of `b`,
      or they first differ at a position where `a` is smaller. */
  predicate LexBefore(a: string, b: string) {
    (|a| <= |b| && a == b[..|a|]) ||
    exists i :: 0 <= i < |a| && i < |b| && a[..i] == b[..i] && a[i] < b[i]
  }

  /** Both descriptions agree. */
  lemma {:induction false} StrLeIsLex(a: string, b: string)
    ensures StrLe(a, b) <==> LexBefore(a, b)
    decreases |a|
  {
    if |a| > 0 && |b| > 0 {
      if a[0] == b[0] {
        StrLeIsLex(a[1..], b[1..]);
        LexSameHead(a, b);
      } else if a[0] < b[0] {
        assert a[..0] == b[..0];
      }
    }
  }

  /** Past a shared first code point, the order is that of the rests. */
  lemma LexSameHead(a: string, b: string)
    requires |a| > 0 && |b| > 0 && a[0] == b[0]
    ensures LexBefore(a, b) <==> LexBefore(a[1..], b[1..])
  {
    if LexBefore(a[1..], b[1..]) {
      if |a[1..]| <= |b[1..]| && a[1..] == b[1..][..|a[1..]|] {
        assert a == b[..|a|];
      } else {
        var i :| 0 <= i < |a[1..]| && i < |b[1..]| && a[1..][..i] == b[1..][..i] && a[1..][i] < b[1..][i];
        assert a[..i + 1] == b[..i + 1];
      }
    }
    if LexBefore(a, b) {
      if |a| <= |b| && a == b[..|a|] {
        assert a[1..] == b[1..][..|a[1..]|];
      } else {
        var i :| 0 <= i < |a| && i < |b| && a[..i] == b[..i] && a[i] < b[i];
        assert i > 0;
        assert a[1..][..i - 1] == b[1..][..i - 1];
      }
    }
  }

  lemma {:induction false} StrLeRefl(a: string)
    ensures StrLe(a, a)
    decreases |a|
  {
    if |a| > 0 {
      StrLeRefl(a[1..]);
    }
  }

  lemma {:induction false} StrLeTotal(a: string, b: string)
    ensures StrLe(a, b) || StrLe(b, a)
    decreases |a|
  {
    if |a| > 0 && |b| > 0 && a[0] == b[0] {
      StrLeTotal(a[1..], b[1..]);
    }
  }

  lemma {:induction false} StrLeAntisym(a: string, b: string)
    requires StrLe(a, b) && StrLe(b, a)
    ensures a == b
    decreases |a|
  {
    if |a| > 0 {
      StrLeAntisym(a[1..], b[1..]);
      assert a == [a[0]] + a[1..];
      assert b == [b[0]] + b[1..];
    }
  }

  lemma {:induction false} StrLeTrans(a: string, b: string, c: string)
    requires StrLe(a, b) && StrLe(b, c)
    ensures StrLe(a, c)
    decreases |a|
  {
    if |a| > 0 && a[0] == b[0] && b[0] == c[0] {
      StrLeTrans(a[1..], b[1..], c[1..]);
    }
  }

  /** `min(ds)`: the first of `sorted(ds)`. */
  function MinStr(ds: seq<string>): (m: string)
    requires |ds| > 0
    ensures m in ds
    ensures forall i :: 0 <= i < |ds| ==> StrLe(m, ds[i])
    decreases |ds|
  {
    var n := |ds| - 1;
    if n == 0 then
      StrLeRefl(ds[0]);
      ds[0]
    else
      var m := MinStr(ds[..n]);
      StrLeTotal(ds[n], m);
      StrLeRefl(ds[n]);
      if StrLe(ds[n], m) then
        assert forall i :: 0 <= i < n ==> StrLe(ds[n], ds[i]) by {
          forall i | 0 <= i < n
            ensures StrLe(ds[n], ds[i])
          {
            assert ds[..n][i] == ds[i];
            StrLeTrans(ds[n], m, ds[i]);
          }
        }
        ds[n]
      else
        assert forall i :: 0 <= i < n ==> StrLe(m, ds[i]) by {
          forall i | 0 <= i < n
            ensures StrLe(m, ds[i])
          {
            assert ds[..n][i] == ds[i];
          }
        }
        m
  }

  /** `max(ds)`: the last of `sorted(ds)`. */
  function MaxStr(ds: seq<string>): (m: string)
    requires |ds| > 0
    ensures m in ds
    ensures forall i :: 0 <= i < |ds| ==> StrLe(ds[i], m)
    decreases |ds|
  {
    var n := |ds| - 1;
    if n == 0 then
      StrLeRefl(ds[0]);
      ds[0]
    else
      var m := MaxStr(ds[..n]);
      StrLeTotal(ds[n], m);
      StrLeRefl(ds[n]);
      if StrLe(m, ds[n]) then
        assert forall i :: 0 <= i < n ==> StrLe(ds[i], ds[n]) by {
          forall i | 0 <= i < n
            ensures StrLe(ds[i], ds[n])
          {
            assert ds[..n][i] == ds[i];
            StrLeTrans(ds[i], m, ds[n]);
          }
        }
        ds[n]
      else
        assert forall i :: 0 <= i < n ==> StrLe(ds[i], m) by {
          forall i | 0 <= i < n
            ensures StrLe(ds[i], m)
          {
            assert ds[..n][i] == ds[i];
          }
        }
        m
  }

  /** The earliest date does not come after the latest. */
  lemma MinBeforeMax(ds: seq<string>)
    requires |ds| > 0
    ensures StrLe(MinStr(ds), MaxStr(ds))
  {
    var m := MinStr(ds);
    var i :| 0 <= i < |ds| && ds[i] == m;
    assert StrLe(ds[i], MaxStr(ds));
  }
}
