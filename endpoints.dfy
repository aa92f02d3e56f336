/**
 * What the actuator and sensing-point endpoints share: the way a view ends in error, the
 * HTTP methods a view dispatches on, and the record that posting a value creates.
 *
 * Request bodies and query strings are already parsed: a field is `None` when it is
 * missing and `Some(v)` otherwise; an empty `since` is `None` too, as the views test it
 * for truth.
 */
module Endpoints {
  import opened Wrappers
  import opened TimeSeries

  /** An `APIException` with its message, or any other exception, by class name, that escapes the view. */
  datatype ApiError = ApiException(detail: string) | Uncaught(exception: string)

  datatype Verb = Get | Post | Put | Patch | Delete | Head | Options

  const NoValue: string := "No value received for \"value\" in the posted dictionary"
  const NoSince: string := "History requests must contain a 'since' GET parameter"

  /**
   * The record a POST of a value stores: the view's origin, the posted timestamp or else
   * `now`, and the posted value; without a value the view refuses and stores nothing.
   */
  function NewRecord(origin: nat, timestamp: Option<int>, value: Option<real>, now: int): (r: Result<Record, ApiError>)
    ensures r.Failure? <==> value.None?
    ensures r.Failure? ==> r.error == ApiException(NoValue)
    ensures r.Success? ==> r.value.origin == origin && r.value.value == value.value
    ensures r.Success? ==> r.value.timestamp == (if timestamp.Some? then timestamp.value else now)
  {
    match value
    case None => Failure(ApiException(NoValue))
    case Some(v) => Success(Record(origin, timestamp.GetOr(now), v))
  }

  /**
   * The rows after a POST: the new record appended when there is one, else the rows unchanged.
   * `origin` is the instance `get_object` found; resolving it is not modelled.
   */
  function Stored(rows: seq<Record>, posted: Result<Record, ApiError>): seq<Record> {
    if posted.Success? then rows + [posted.value] else rows
  }

  /**
   * A record posted at or after every stored record of its origin is what the latest-record
   * query then returns.
   */
  lemma PostedIsLatest(rows: seq<Record>, origin: nat, timestamp: Option<int>, value: Option<real>, now: int)
    requires value.Some?
    requires forall i :: 0 <= i < |rows| && rows[i].origin == origin ==> rows[i].timestamp <= timestamp.GetOr(now)
    ensures Latest(Stored(rows, NewRecord(origin, timestamp, value, now)), origin) == Some(NewRecord(origin, timestamp, value, now).value)
  {
    LatestAfterAppend(rows, NewRecord(origin, timestamp, value, now).value);
  }

  /**
   * The history views as intended: without `since` they refuse; otherwise they return
   * exactly the origin's records with `since < timestamp < before`, where `before`
   * defaults to `now`, each as often as stored, in ascending timestamp order.
   */
  function WindowHistory(rows: seq<Record>, origin: nat, since: Option<int>, before: Option<int>, now: int)
    : (r: Result<seq<Record>, ApiError>)
    ensures r.Failure? <==> since.None?
    ensures r.Failure? ==> r.error == ApiException(NoSince)
    ensures r.Success? ==> ByTime(r.value)
    ensures r.Success? ==> forall x :: x in r.value <==> x in rows && InWindow(x, origin, since.value, before.GetOr(now))
    ensures r.Success? ==> forall x :: x in r.value ==> multiset(r.value)[x] == multiset(rows)[x]
  {
    if since.None? then Failure(ApiException(NoSince))
    else
      HistorySpec(rows, origin, since.value, before.GetOr(now));
      Success(History(rows, origin, since.value, before.GetOr(now)))
  }
}
