/** Python's "value or None" and "return or raise", as datatypes. */
module Wrappers {

  /** A value that Python may leave as `None`. */
  datatype Option<+T> = None | Some(value: T)

  /** The exceptions the modelled code raises on well-typed input. */
  datatype PyError =
    | ZeroDivisionError      // a mean over a non-empty slice whose entries are all 0
    | KeyError(key: string)  // `record[key]` on a record that lacks `key`

  /** The outcome of a call that may raise; usable with `:-`. */
  datatype Result<+T> = Ok(value: T) | Err(error: PyError) {

    predicate IsFailure() {
      Err?
    }

    function PropagateFailure<U>(): Result<U>
      requires Err?
    {
      Err(error)
    }

    function Extract(): T
      requires Ok?
    {
      value
    }
  }

  /** A `for` loop that applies `f` to each element in turn and appends
      the result, propagating the first exception. */
  function MapUntilErr<A, B>(xs: seq<A>, f: A --> Result<B>): (r: Result<seq<B>>)
    requires forall i :: 0 <= i < |xs| ==> f.requires(xs[i])
    ensures r.Ok? ==> |r.value| == |xs|
    decreases |xs|
  {
    if |xs| == 0 then Ok([])
    else
      var y :- f(xs[0]);
      var ys :- MapUntilErr(xs[1..], f);
      Ok([y] + ys)
  }

  /** On success, element `i` of the output is `f` of element `i`. */
  lemma {:induction false} MapUntilErrOk<A, B>(xs: seq<A>, f: A --> Result<B>)
    requires forall i :: 0 <= i < |xs| ==> f.requires(xs[i])
    requires MapUntilErr(xs, f).Ok?
    ensures forall i :: 0 <= i < |xs| ==> f(xs[i]) == Ok(MapUntilErr(xs, f).value[i])
    decreases |xs|
  {
    if |xs| > 0 {
      var r := MapUntilErr(xs, f).value;
      MapUntilErrOk(xs[1..], f);
      assert r == [f(xs[0]).value] + MapUntilErr(xs[1..], f).value;
      forall i | 0 < i < |xs|
        ensures f(xs[i]) == Ok(r[i])
      {
        assert xs[1..][i - 1] == xs[i];
      }
    }
  }

  /** The loop raises exactly when some call does, and then with the
      exception of the first call that does. */
  lemma {:induction false} MapUntilErrErr<A, B>(xs: seq<A>, f: A --> Result<B>)
    requires forall i :: 0 <= i < |xs| ==> f.requires(xs[i])
    ensures MapUntilErr(xs, f).Err? <==> exists i :: 0 <= i < |xs| && f(xs[i]).Err?
    ensures MapUntilErr(xs, f).Err? ==>
              exists i :: 0 <= i < |xs| && f(xs[i]).Err? &&
                (forall j :: 0 <= j < i ==> f(xs[j]).Ok?) &&
                MapUntilErr(xs, f).error == f(xs[i]).error
    decreases |xs|
  {
    if |xs| > 0 {
      MapUntilErrErr(xs[1..], f);
      if f(xs[0]).Ok? {
        if i :| 0 <= i < |xs| && f(xs[i]).Err? {
          assert i > 0 && xs[1..][i - 1] == xs[i];
        }
        if MapUntilErr(xs[1..], f).Err? {
          var i :| 0 <= i < |xs[1..]| && f(xs[1..][i]).Err? &&
                   (forall j :: 0 <= j < i ==> f(xs[1..][j]).Ok?) &&
                   MapUntilErr(xs[1..], f).error == f(xs[1..][i]).error;
          assert xs[1..][i] == xs[i + 1];
          forall j | 0 <= j < i + 1
            ensures f(xs[j]).Ok?
          {
            if j > 0 {
              assert xs[1..][j - 1] == xs[j];
            }
          }
        }
      }
    }
  }
}
