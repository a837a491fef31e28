/** What the three record builders (`process_activity`, `process_wellness`,
    `process_calendar_events`) share: timestamp slicing, and fields copied
    verbatim with `None` values dropped. */
module Records {
  import opened Wrappers
  import opened Seqs
  import opened Json

  /** `record.get("start_date_local", "")[:10]`: the calendar date of an
      ISO timestamp. */
  function DatePart(r: Record): (d: string)
    requires StrOrAbsent(r, "start_date_local")
    ensures |d| == Min(10, |StrOr(r, "start_date_local")|)
    ensures d <= StrOr(r, "start_date_local")
  {
    Slice(StrOr(r, "start_date_local"), 0, 10)
  }

  /** `record.get("start_date_local", "")[11:16]`: the hours and minutes of
      an ISO timestamp. */
  function TimePart(r: Record): (t: string)
    requires StrOrAbsent(r, "start_date_local")
    ensures |t| <= 5
    ensures |StrOr(r, "start_date_local")| >= 16 ==> t == StrOr(r, "start_date_local")[11..16]
    ensures 11 < |StrOr(r, "start_date_local")| < 16 ==> t == StrOr(r, "start_date_local")[11..]
    ensures |StrOr(r, "start_date_local")| <= 11 ==> t == []
  {
    Slice(StrOr(r, "start_date_local"), 11, 16)
  }

  /** A timestamp `YYYY-MM-DDTHH:MM...` splits back into its date and its
      hours and minutes. */
  lemma StampParts(r: Record, date: string, time: string, rest: string)
    requires |date| == 10 && |time| == 5
    requires r == map["start_date_local" := Str(date + "T" + time + rest)]
    ensures DatePart(r) == date
    ensures TimePart(r) == time
  {
    var s := date + "T" + time + rest;
    assert s[..10] == date;
    assert s[11..16] == time;
  }

  /** Output fields copied verbatim from input keys, `field: src.get(key)`,
      once `None` values are dropped: present exactly when the input value
      is not `None`, and then equal to it. */
  ghost predicate CopiesAll<F(!new)>(r: map<F, Value>, src: Record, source: F -> Option<string>) {
    forall f :: source(f).Some? ==>
      (f in r <==> Get(src, source(f).value) != Null) &&
      (f in r ==> r[f] == src[source(f).value])
  }
}
