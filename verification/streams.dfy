/** Activity streams: the `{s["type"]: s["data"] for s in streams}` lookup
    every stream analysis starts from. */
module Streams {

  /** One recorded channel (`time`, `distance`, `heartrate`, ...) of an
      activity. */
  datatype Stream = Stream(kind: string, data: seq<real>)

  /** The kinds present in a stream list. */
  function Kinds(ss: seq<Stream>): set<string>
    decreases |ss|
  {
    if |ss| == 0 then {} else Kinds(ss[..|ss| - 1]) + {ss[|ss| - 1].kind}
  }

  /** A kind is present exactly when some stream carries it. */
  lemma {:induction false} KindsMembers(ss: seq<Stream>, kind: string)
    ensures kind in Kinds(ss) <==> exists i :: 0 <= i < |ss| && ss[i].kind == kind
    decreases |ss|
  {
    if |ss| > 0 {
      var n := |ss| - 1;
      KindsMembers(ss[..n], kind);
      if kind in Kinds(ss[..n]) {
        var i :| 0 <= i < n && ss[..n][i].kind == kind;
        assert ss[i].kind == kind;
      }
      if i :| 0 <= i < |ss| && ss[i].kind == kind {
        if i < n {
          assert ss[..n][i].kind == kind;
        }
      }
    }
  }

  /** The stream at `i` is the last one of its kind, so it is the one a
      dictionary comprehension keeps. */
  predicate LastOfKind(ss: seq<Stream>, i: int)
    requires 0 <= i < |ss|
  {
    forall j :: i < j < |ss| ==> ss[j].kind != ss[i].kind
  }

  /** The channel lookup table: every kind present, mapped to the data of
      its last stream. */
  function ByKind(ss: seq<Stream>): (m: map<string, seq<real>>)
    ensures m.Keys == Kinds(ss)
    ensures forall i :: 0 <= i < |ss| && LastOfKind(ss, i) ==>
              ss[i].kind in m && m[ss[i].kind] == ss[i].data
    decreases |ss|
  {
    if |ss| == 0 then map[]
    else
      var n := |ss| - 1;
      var init := ByKind(ss[..n]);
      KindsStep(ss);
      var m := init[ss[n].kind := ss[n].data];
      assert forall i :: 0 <= i < |ss| && LastOfKind(ss, i) ==>
               ss[i].kind in m && m[ss[i].kind] == ss[i].data by {
        forall i | 0 <= i < |ss| && LastOfKind(ss, i)
          ensures ss[i].kind in m && m[ss[i].kind] == ss[i].data
        {
          if i < n {
            assert ss[..n][i] == ss[i];
          }
        }
      }
      m
  }

  /** An earlier stream that is last of its kind in the whole list is also
      last of its kind once the final stream is dropped. */
  lemma KindsStep(ss: seq<Stream>)
    requires |ss| > 0
    ensures forall i :: 0 <= i < |ss| - 1 && LastOfKind(ss, i) ==>
              LastOfKind(ss[..|ss| - 1], i) && ss[i].kind != ss[|ss| - 1].kind
  {
    var n := |ss| - 1;
    forall i | 0 <= i < n && LastOfKind(ss, i)
      ensures LastOfKind(ss[..n], i) && ss[i].kind != ss[n].kind
    {
    }
  }

  /** `kind in stream_data`. */
  predicate Has(ss: seq<Stream>, kind: string) {
    kind in Kinds(ss)
  }

  /** `stream_data.get(kind, [])`: the data of the last stream of that kind,
      or nothing. */
  function Channel(ss: seq<Stream>, kind: string): (d: seq<real>)
    ensures !Has(ss, kind) ==> d == []
    ensures Has(ss, kind) ==>
              exists i :: 0 <= i < |ss| && ss[i].kind == kind && LastOfKind(ss, i) && d == ss[i].data
  {
    var m := ByKind(ss);
    if kind in m then
      var i := LastIndexOf(ss, kind);
      m[kind]
    else []
  }

  /** The position of the last stream of a kind that is present. */
  function LastIndexOf(ss: seq<Stream>, kind: string): (i: nat)
    requires Has(ss, kind)
    ensures i < |ss| && ss[i].kind == kind && LastOfKind(ss, i)
    decreases |ss|
  {
    var n := |ss| - 1;
    if ss[n].kind == kind then n
    else
      assert Kinds(ss) == Kinds(ss[..n]) + {ss[n].kind};
      var i := LastIndexOf(ss[..n], kind);
      assert ss[i] == ss[..n][i];
      assert LastOfKind(ss, i) by {
        forall j | i < j < |ss|
          ensures ss[j].kind != ss[i].kind
        {
          if j < n {
            assert ss[j] == ss[..n][j];
          }
        }
      }
      i
  }
}
