/**
 * The sensing-point endpoints (sensors/views.py, `SensingPointViewSet`): reading and
 * posting the point's data values, the value history, and the unimplemented `data` route.
 *
 * `get_object` is not modelled: each view receives the id of the point it resolves to.
 * `now` is the integer the view would read from `time.time()`.
 */
module Sensors {
  import opened Wrappers
  import opened TimeSeries
  import opened Endpoints

  /** `data`: raises `NotImplementedError` whatever is asked. */
  function Data(rows: seq<Record>, origin: nat): (r: Result<seq<Record>, ApiError>)
    ensures r.Failure? && r.error.Uncaught? && r.error.exception == "NotImplementedError"
  {
    Failure(Uncaught("NotImplementedError"))
  }

  /**
   * `get_value`: the point's data value with the greatest timestamp. A point without data
   * makes `latest()` raise `DoesNotExist`, which the view does not catch.
   */
  function GetValue(rows: seq<Record>, origin: nat): (r: Result<Record, ApiError>)
    ensures r.Failure? <==> forall i :: 0 <= i < |rows| ==> rows[i].origin != origin
    ensures r.Failure? ==> r.error == Uncaught("DoesNotExist")
    ensures r.Success? ==> r.value in rows && r.value.origin == origin
    ensures r.Success? ==> forall i :: 0 <= i < |rows| && rows[i].origin == origin ==> rows[i].timestamp <= r.value.timestamp
  {
    match Latest(rows, origin)
    case None => Failure(Uncaught("DoesNotExist"))
    case Some(x) => Success(x)
  }

  /** `post_value`: appends the new data value, or refuses without storing anything. */
  method PostValue(table: RecordTable, origin: nat, timestamp: Option<int>, value: Option<real>, now: int)
    returns (r: Result<Record, ApiError>)
    modifies table
    ensures r == NewRecord(origin, timestamp, value, now)
    ensures table.rows == Stored(old(table.rows), r)
  {
    r := NewRecord(origin, timestamp, value, now);
    if r.Success? {
      table.Append(r.value);
    }
  }

  /**
   * `value`: GET reads the latest value, POST posts one; any other method raises
   * `ValueError` (the route admits only GET and POST, so that branch is not reached
   * through it).
   */
  method Value(table: RecordTable, origin: nat, verb: Verb, timestamp: Option<int>, value: Option<real>, now: int)
    returns (r: Result<Record, ApiError>)
    modifies table
    ensures verb == Get ==> r == GetValue(old(table.rows), origin) && table.rows == old(table.rows)
    ensures verb == Post ==> r == NewRecord(origin, timestamp, value, now) && table.rows == Stored(old(table.rows), r)
    ensures verb != Get && verb != Post ==> r == Failure(Uncaught("ValueError")) && table.rows == old(table.rows)
  {
    if verb == Get {
      r := GetValue(table.rows, origin);
    } else if verb == Post {
      r := PostValue(table, origin, timestamp, value, now);
    } else {
      r := Failure(Uncaught("ValueError"));
    }
  }

  /** A value posted at or after every stored value of the point is the value then read. */
  lemma PostedValueIsRead(rows: seq<Record>, origin: nat, timestamp: Option<int>, value: real, now: int)
    requires forall i :: 0 <= i < |rows| && rows[i].origin == origin ==> rows[i].timestamp <= timestamp.GetOr(now)
    ensures GetValue(Stored(rows, NewRecord(origin, timestamp, Some(value), now)), origin)
      == NewRecord(origin, timestamp, Some(value), now)
  {
    PostedIsLatest(rows, origin, timestamp, Some(value), now);
  }

  /**
   * Serialising a query result: with `many=True` each record is shown; without it the
   * serializer reads the fields of the query set itself, which raises `AttributeError`.
   */
  function Serialize(q: seq<Record>, many: bool): (r: Result<seq<Record>, ApiError>)
    ensures many <==> r == Success(q)
  {
    if many then Success(q) else Failure(Uncaught("AttributeError"))
  }

  /** `history` as written: the query is right, but it is serialised without `many=True`. */
  function HistoryAsWritten(rows: seq<Record>, origin: nat, since: Option<int>, before: Option<int>, now: int)
    : (r: Result<seq<Record>, ApiError>)
    ensures since.None? ==> r == Failure(ApiException(NoSince))
  {
    match WindowHistory(rows, origin, since, before, now)
    case Failure(e) => Failure(e)
    case Success(q) => Serialize(q, false)
  }

  /**
   * The as-written view never returns a history: it refuses a missing `since` as intended
   * and raises `AttributeError` on every query that runs, records found or not.
   */
  lemma HistoryAsWrittenNeverAnswers(rows: seq<Record>, origin: nat, since: Option<int>, before: Option<int>, now: int)
    ensures HistoryAsWritten(rows, origin, since, before, now).Failure?
    ensures HistoryAsWritten(rows, origin, since, before, now).error == Uncaught("AttributeError") <==>
      WindowHistory(rows, origin, since, before, now).Success?
  {
    if since.Some? {
      assert !Serialize(WindowHistory(rows, origin, since, before, now).value, false).Success?;
    }
  }
}
