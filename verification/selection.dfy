/** What `main` does between loading and writing: every raw activity
    processed with its own streams, activities and wellness days listed
    newest first, and the planned workouts picked out of the calendar. */
module Selection {
  import opened Wrappers
  import opened Seqs
  import opened Json
  import opened Order
  import opened Streams
  import Splits
  import Activities
  import Wellness
  import Calendar

  // ---------------------------------------------------------------------
  // sorted(..., key=..., reverse=True)

  /** Insertion into a list sorted newest first: `x` goes in front of the
      first element whose key does not exceed its own, so it stays ahead of
      any later element with the same key. */
  function Insert<T>(x: T, ys: seq<T>, key: T -> string): (r: seq<T>)
    ensures |r| == |ys| + 1
    ensures multiset(r) == multiset(ys) + multiset{x}
    decreases |ys|
  {
    if |ys| == 0 || StrLe(key(ys[0]), key(x)) then [x] + ys
    else
      assert ys == [ys[0]] + ys[1..];
      [ys[0]] + Insert(x, ys[1..], key)
  }

  /** Keys never increase along `s`. */
  predicate Descending<T>(s: seq<T>, key: T -> string) {
    forall i, j :: 0 <= i < j < |s| ==> StrLe(key(s[j]), key(s[i]))
  }

  /** Inserting into a list sorted newest first keeps it so. */
  lemma {:induction false} InsertDescending<T>(x: T, ys: seq<T>, key: T -> string)
    requires Descending(ys, key)
    ensures Descending(Insert(x, ys, key), key)
    decreases |ys|
  {
    var r := Insert(x, ys, key);
    if |ys| == 0 || StrLe(key(ys[0]), key(x)) {
      forall i, j | 0 <= i < j < |r|
        ensures StrLe(key(r[j]), key(r[i]))
      {
        assert r[j] == ys[j - 1];
        if i == 0 {
          if j > 1 {
            StrLeTrans(key(ys[j - 1]), key(ys[0]), key(x));
          }
        } else {
          assert r[i] == ys[i - 1];
        }
      }
    } else {
      var tail := ys[1..];
      var rest := Insert(x, tail, key);
      InsertDescending(x, tail, key);
      StrLeTotal(key(ys[0]), key(x));
      forall i, j | 0 <= i < j < |r|
        ensures StrLe(key(r[j]), key(r[i]))
      {
        assert r[j] == rest[j - 1];
        if i == 0 {
          assert r[j] in multiset(tail) + multiset{x};
          if r[j] != x {
            var k :| 0 <= k < |tail| && tail[k] == r[j];
            assert tail[k] == ys[k + 1];
          }
        } else {
          assert r[i] == rest[i - 1];
        }
      }
    }
  }

  /** `sorted(xs, key=key, reverse=True)`: newest first, a permutation of
      the input. */
  function SortDesc<T>(xs: seq<T>, key: T -> string): (r: seq<T>)
    ensures |r| == |xs|
    ensures multiset(r) == multiset(xs)
    ensures Descending(r, key)
    decreases |xs|
  {
    if |xs| == 0 then []
    else
      assert xs == [xs[0]] + xs[1..];
      var rest := SortDesc(xs[1..], key);
      InsertDescending(xs[0], rest, key);
      Insert(xs[0], rest, key)
  }

  /** The test "has key `k`". */
  function KeyIs<T>(key: T -> string, k: string): T -> bool {
    x => key(x) == k
  }

  /** Insertion skips only elements with a larger key, so among the
      elements with any one key, `x` stays in front. */
  lemma {:induction false} InsertStable<T>(x: T, ys: seq<T>, key: T -> string, k: string)
    ensures Filter(Insert(x, ys, key), KeyIs(key, k)) == Filter([x] + ys, KeyIs(key, k))
    decreases |ys|
  {
    if !(|ys| == 0 || StrLe(key(ys[0]), key(x))) {
      var p := KeyIs(key, k);
      var y := ys[0];
      var tail := ys[1..];
      InsertStable(x, tail, key, k);
      StrLeRefl(key(x));
      assert !(p(x) && p(y));
      assert Insert(x, ys, key) == [y] + Insert(x, tail, key);
      FilterConsCongr(y, Insert(x, tail, key), [x] + tail, p);
      FilterSwap(x, y, tail, p);
      assert [y] + tail == ys;
    }
  }

  /** The sort is stable: the elements with any one key come out in their
      input order, as Python's `sorted` with `reverse=True` promises. */
  lemma {:induction false} SortStable<T>(xs: seq<T>, key: T -> string, k: string)
    ensures Filter(SortDesc(xs, key), KeyIs(key, k)) == Filter(xs, KeyIs(key, k))
    decreases |xs|
  {
    if |xs| > 0 {
      var p := KeyIs(key, k);
      var rest := SortDesc(xs[1..], key);
      SortStable(xs[1..], key, k);
      InsertStable(xs[0], rest, key, k);
      FilterCons(xs[0], rest, p);
      FilterCons(xs[0], xs[1..], p);
      assert xs == [xs[0]] + xs[1..];
    }
  }

  /** `x.get("date", "")` for records whose date is a string when present. */
  function DateKey<K>(date: K): map<K, Value> -> string {
    (r: map<K, Value>) => if date in r && r[date].Str? then r[date].s else ""
  }

  /** Dates can be compared with each other: each is a string or absent. */
  predicate DatesComparable<K>(items: seq<map<K, Value>>, date: K) {
    forall x :: x in items ==> StrOrAbsent(x, date)
  }

  /** `sorted(items, key=lambda x: x.get("date", ""), reverse=True)`. */
  function NewestFirst<K>(items: seq<map<K, Value>>, date: K): (r: seq<map<K, Value>>)
    requires DatesComparable(items, date)
    ensures multiset(r) == multiset(items)
    ensures forall i, j :: 0 <= i < j < |r| ==> StrLe(DateKey(date)(r[j]), DateKey(date)(r[i]))
  {
    SortDesc(items, DateKey(date))
  }

  /** Records with the same date keep their input order. */
  lemma NewestFirstStable<K>(items: seq<map<K, Value>>, date: K, d: string)
    requires DatesComparable(items, date)
    ensures Filter(NewestFirst(items, date), KeyIs(DateKey(date), d)) == Filter(items, KeyIs(DateKey(date), d))
  {
    SortStable(items, DateKey(date), d);
  }

  // ---------------------------------------------------------------------
  // planned_workouts

  /** `e.get("category") == "WORKOUT"`. */
  predicate IsWorkout(e: Calendar.Event) {
    Get(e, Calendar.Category) == Str("WORKOUT")
  }

  /** The same test on a raw calendar event. */
  predicate RawIsWorkout(e: Record) {
    Get(e, "category") == Str("WORKOUT")
  }

  /** `[e for e in processed_calendar if e.get("category") == "WORKOUT"]`:
      exactly the workout events, in calendar order. */
  function PlannedWorkouts(es: seq<Calendar.Event>): (r: seq<Calendar.Event>)
    ensures forall e :: e in r <==> e in es && IsWorkout(e)
    ensures |r| == |Positions(es, IsWorkout)|
  {
    FilterCount(es, IsWorkout);
    Filter(es, IsWorkout)
  }

  /** A processed event is a workout exactly when its raw event was. */
  lemma WorkoutKept(e: Record)
    requires Calendar.EventInputOk(e)
    ensures IsWorkout(Calendar.ProcessEvent(e)) <==> RawIsWorkout(e)
  {
    Calendar.ProcessEventCopies(e);
    assert Calendar.Source(Calendar.Category) == Some("category");
  }

  /** Selecting the workouts after processing is the same as processing the
      raw workout events. */
  lemma PlannedFromRaw(raw: seq<Record>)
    requires forall i :: 0 <= i < |raw| ==> Calendar.EventInputOk(raw[i])
    ensures forall i :: 0 <= i < |Filter(raw, RawIsWorkout)| ==>
              Calendar.EventInputOk(Filter(raw, RawIsWorkout)[i])
    ensures PlannedWorkouts(Calendar.ProcessCalendarEvents(raw)) ==
            Calendar.ProcessCalendarEvents(Filter(raw, RawIsWorkout))
  {
    var f := Calendar.ProcessEvent;
    forall i | 0 <= i < |raw|
      ensures IsWorkout(f(raw[i])) <==> RawIsWorkout(raw[i])
    {
      WorkoutKept(raw[i]);
    }
    FilterMap(raw, f, IsWorkout, RawIsWorkout);
    var kept := Filter(raw, RawIsWorkout);
    assert Calendar.ProcessCalendarEvents(raw) == MapSeq(raw, f);
    assert Calendar.ProcessCalendarEvents(kept) == MapSeq(kept, f);
  }

  // ---------------------------------------------------------------------
  // The processing loop

  /** `streams.get(activity["id"], [])`. */
  function StreamsFor(id: Value, streams: map<Value, seq<Stream>>): seq<Stream> {
    if id in streams then streams[id] else []
  }

  /** What `process_activity` needs of one loop iteration. */
  predicate LoopInputOk(a: Record, streams: map<Value, seq<Stream>>) {
    Activities.ActivityInputOk(a) &&
    ("id" in a && Activities.IsRun(a) ==> Splits.StreamsAligned(StreamsFor(a["id"], streams)))
  }

  /** One iteration: `activity["id"]` raises `KeyError` before any
      processing. */
  function Step(a: Record, streams: map<Value, seq<Stream>>): Result<Activities.Activity>
    requires LoopInputOk(a, streams)
  {
    if "id" !in a then Err(KeyError("id"))
    else Activities.ProcessActivity(a, StreamsFor(a["id"], streams))
  }

  /** The loop over the raw activities, stopping at the first exception. */
  function ProcessAll(acts: seq<Record>, streams: map<Value, seq<Stream>>): (r: Result<seq<Activities.Activity>>)
    requires forall i :: 0 <= i < |acts| ==> LoopInputOk(acts[i], streams)
    ensures r.Ok? ==> |r.value| == |acts|
  {
    MapUntilErr(acts, (a: Record) requires LoopInputOk(a, streams) => Step(a, streams))
  }

  /** On success, activity `i` of the output is activity `i` of the input
      processed with its own streams. */
  lemma ProcessAllOk(acts: seq<Record>, streams: map<Value, seq<Stream>>)
    requires forall i :: 0 <= i < |acts| ==> LoopInputOk(acts[i], streams)
    requires ProcessAll(acts, streams).Ok?
    ensures forall i :: 0 <= i < |acts| ==> Step(acts[i], streams) == Ok(ProcessAll(acts, streams).value[i])
  {
    MapUntilErrOk(acts, (a: Record) requires LoopInputOk(a, streams) => Step(a, streams));
  }

  /** The loop raises exactly when some iteration does, with the exception
      of the first one that does. */
  lemma ProcessAllErr(acts: seq<Record>, streams: map<Value, seq<Stream>>)
    requires forall i :: 0 <= i < |acts| ==> LoopInputOk(acts[i], streams)
    ensures ProcessAll(acts, streams).Err? <==> exists i :: 0 <= i < |acts| && Step(acts[i], streams).Err?
    ensures ProcessAll(acts, streams).Err? ==>
              exists i :: 0 <= i < |acts| && Step(acts[i], streams).Err? &&
                (forall j :: 0 <= j < i ==> Step(acts[j], streams).Ok?) &&
                ProcessAll(acts, streams).error == Step(acts[i], streams).error
  {
    MapUntilErrErr(acts, (a: Record) requires LoopInputOk(a, streams) => Step(a, streams));
  }
}
