/** `process_calendar_events`: each planned workout or note projected onto
    the fixed event fields, with `None` values dropped. */
module Calendar {
  import opened Wrappers
  import opened Json
  import opened Records
  import opened Seqs

  /** The keys of a processed calendar event. */
  datatype Field =
    | Id | Date | Type | Category | Name | Description
    | PlannedDistanceKm | PlannedDurationMin | PlannedLoad
    | Completed | PairedActivityId

  /** The JSON name of a field. */
  function Key(f: Field): string {
    match f
    case Id => "id"
    case Date => "date"
    case Type => "type"
    case Category => "category"
    case Name => "name"
    case Description => "description"
    case PlannedDistanceKm => "planned_distance_km"
    case PlannedDurationMin => "planned_duration_min"
    case PlannedLoad => "planned_load"
    case Completed => "completed"
    case PairedActivityId => "paired_activity_id"
  }

  /** A processed calendar event. */
  type Event = map<Field, Value>

  /** The event fields the builder slices or does arithmetic on have the
      right type, when present. */
  predicate EventInputOk(e: Record) {
    StrOrAbsent(e, "start_date_local") &&
    NumWhenTruthy(e, "distance") && NumWhenTruthy(e, "moving_time")
  }

  /** The event fields passed through unchanged, with their input keys. */
  function Source(f: Field): Option<string> {
    match f
    case Id => Some("id")
    case Type => Some("type")
    case Category => Some("category")
    case Name => Some("name")
    case Description => Some("description")
    case PlannedLoad => Some("icu_training_load")
    case PairedActivityId => Some("paired_activity_id")
    case _ => None
  }

  /** The value of each field before `None` values are dropped. */
  function FieldValue(e: Record, f: Field): Value
    requires EventInputOk(e)
  {
    match f
    case Date => Str(DatePart(e))
    case PlannedDistanceKm => ScaledIfTruthy(e, "distance", 1.0 / 1000.0)
    case PlannedDurationMin => ScaledIfTruthy(e, "moving_time", 1.0 / 60.0)
    case Completed => Bool(Get(e, "paired_activity_id") != Null)
    case _ => Get(e, Source(f).value)
  }

  /** One processed event: every field whose value is not `None`. */
  function ProcessEvent(e: Record): (r: Event)
    requires EventInputOk(e)
    ensures NoNulls(r)
    ensures forall f :: f in r <==> FieldValue(e, f) != Null
  {
    map f: Field | FieldValue(e, f) != Null :: FieldValue(e, f)
  }

  /** The copied fields are present exactly when their input is not
      `None`, and hold it unchanged. */
  lemma ProcessEventCopies(e: Record)
    requires EventInputOk(e)
    ensures CopiesAll(ProcessEvent(e), e, Source)
  {
    var r := ProcessEvent(e);
    forall f | Source(f).Some?
      ensures (f in r <==> Get(e, Source(f).value) != Null) &&
              (f in r ==> r[f] == e[Source(f).value])
    {
      assert FieldValue(e, f) == Get(e, Source(f).value);
    }
  }

  /** The date and `completed` are always there, and `completed` is true
      exactly when the event carries the id of the activity that did it. */
  lemma ProcessEventCompleted(e: Record)
    requires EventInputOk(e)
    ensures var r := ProcessEvent(e);
            Completed in r && Date in r &&
            r[Completed] == Bool(PairedActivityId in r) &&
            r[Completed] == Bool(Get(e, "paired_activity_id") != Null) &&
            r[Date] == Str(DatePart(e))
  {
    var r := ProcessEvent(e);
    assert r[Completed] == FieldValue(e, Completed);
    assert PairedActivityId in r <==> FieldValue(e, PairedActivityId) != Null;
    assert r[Date] == FieldValue(e, Date);
  }

  /** The planned distance and duration appear exactly when their inputs
      are truthy, and convert back to them. */
  lemma ProcessEventPlanned(e: Record)
    requires EventInputOk(e)
    ensures var r := ProcessEvent(e);
            (PlannedDistanceKm in r <==> Truthy(Get(e, "distance"))) &&
            (PlannedDistanceKm in r ==>
               "distance" in e && r[PlannedDistanceKm].Num? &&
               r[PlannedDistanceKm].n * 1000.0 == e["distance"].n) &&
            (PlannedDurationMin in r <==> Truthy(Get(e, "moving_time"))) &&
            (PlannedDurationMin in r ==>
               "moving_time" in e && r[PlannedDurationMin].Num? &&
               r[PlannedDurationMin].n * 60.0 == e["moving_time"].n)
  {
    var r := ProcessEvent(e);
    assert PlannedDistanceKm in r <==> FieldValue(e, PlannedDistanceKm) != Null;
    assert PlannedDurationMin in r <==> FieldValue(e, PlannedDurationMin) != Null;
    if PlannedDistanceKm in r {
      assert r[PlannedDistanceKm] == FieldValue(e, PlannedDistanceKm);
    }
    if PlannedDurationMin in r {
      assert r[PlannedDurationMin] == FieldValue(e, PlannedDurationMin);
    }
  }

  /** `process_calendar_events`: one processed event per input event, in
      order. */
  function ProcessCalendarEvents(es: seq<Record>): (r: seq<Event>)
    requires forall i :: 0 <= i < |es| ==> EventInputOk(es[i])
    ensures |r| == |es|
    ensures forall i :: 0 <= i < |es| ==> r[i] == ProcessEvent(es[i])
  {
    MapSeq(es, ProcessEvent)
  }
}
