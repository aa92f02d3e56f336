/**
 * The actuator endpoints (actuators/views.py, `ActuatorViewSet`): reading actuators, which
 * first refreshes their override; setting a timed override; reading and posting the
 * actuator's state records; and the state history.
 *
 * `get_object` is not modelled: each view receives the actuator it resolves to. `now` is
 * the integer the view would read from `time.time()`.
 */
module Actuators {
  import opened Wrappers
  import opened TimeSeries
  import opened Endpoints

  const NoDuration: string := "No value received for \"duration\" in the posted dictionary"
  const NoState: string := "No state has been recorded for this actuator yet"

  /** What the serializer shows of an actuator. */
  datatype ActuatorData = ActuatorData(id: nat, overrideValue: Option<real>, overrideTimeout: Option<int>)

  class Actuator {
    const id: nat
    var overrideValue: Option<real>
    var overrideTimeout: Option<int>
    /** How often the actuator was written. */
    var saves: nat
    /** How often `update_override` ran on it. */
    var refreshes: nat

    constructor(id: nat)
      ensures this.id == id && overrideValue.None? && overrideTimeout.None?
      ensures saves == 0 && refreshes == 0
    {
      this.id := id;
      overrideValue := None;
      overrideTimeout := None;
      saves := 0;
      refreshes := 0;
    }

    function Data(): ActuatorData
      reads this
    {
      ActuatorData(id, overrideValue, overrideTimeout)
    }

    /**
     * `Actuator.update_override` is not part of this model: all that is kept is that it
     * ran. Its effect on the override fields is left open.
     */
    method UpdateOverride()
      modifies this
      ensures refreshes == old(refreshes) + 1
    {
      refreshes := refreshes + 1;
    }
  }

  /** `retrieve`: refreshes the actuator's override, then shows it. */
  method Retrieve(a: Actuator) returns (d: ActuatorData)
    modifies a
    ensures a.refreshes == old(a.refreshes) + 1
    ensures d == a.Data()
  {
    a.UpdateOverride();
    d := a.Data();
  }

  /**
   * `list`: refreshes the override of every actuator of the query, then shows them all.
   * The rows of a query are distinct actuators. Pagination is not modelled.
   */
  method List(actuators: seq<Actuator>) returns (ds: seq<ActuatorData>)
    requires forall i, j :: 0 <= i < j < |actuators| ==> actuators[i] != actuators[j]
    modifies set a | a in actuators
    ensures forall i :: 0 <= i < |actuators| ==> actuators[i].refreshes == old(actuators[i].refreshes) + 1
    ensures |ds| == |actuators| && forall i :: 0 <= i < |actuators| ==> ds[i] == actuators[i].Data()
  {
    var n := 0;
    while n < |actuators|
      invariant 0 <= n <= |actuators|
      invariant forall i :: 0 <= i < n ==> actuators[i].refreshes == old(actuators[i].refreshes) + 1
      invariant forall i :: n <= i < |actuators| ==> actuators[i].refreshes == old(actuators[i].refreshes)
    {
      actuators[n].UpdateOverride();
      n := n + 1;
    }
    ds := [];
    while |ds| < |actuators|
      invariant |ds| <= |actuators|
      invariant forall i :: 0 <= i < |ds| ==> ds[i] == actuators[i].Data()
    {
      ds := ds + [actuators[|ds|].Data()];
    }
  }

  /**
   * What `override` stores: the posted value and the timeout `now + duration`, or the
   * error it raises. `duration` is refused when it is missing or falsy (zero); a negative
   * duration is taken.
   */
  function OverrideOutcome(value: Option<real>, duration: Option<int>, now: int): (r: Result<(real, int), ApiError>)
    ensures r.Success? <==> value.Some? && duration.Some? && duration.value != 0
    ensures value.None? ==> r == Failure(ApiException(NoValue))
    ensures value.Some? && r.Failure? ==> r == Failure(ApiException(NoDuration))
    ensures r.Success? ==> r.value.0 == value.value && r.value.1 - now == duration.value
  {
    if value.None? then Failure(ApiException(NoValue))
    else if duration.None? || duration.value == 0 then Failure(ApiException(NoDuration))
    else Success((value.value, now + duration.value))
  }

  /** A negative duration is accepted and sets a timeout that has already passed. */
  lemma NegativeDurationExpired(v: real, d: int, now: int)
    requires d < 0
    ensures OverrideOutcome(Some(v), Some(d), now).Success?
    ensures OverrideOutcome(Some(v), Some(d), now).value.1 < now
  {
  }

  /** `override`: stores the override and writes the actuator, or raises and changes nothing. */
  method Override(a: Actuator, value: Option<real>, duration: Option<int>, now: int) returns (r: Result<ActuatorData, ApiError>)
    modifies a
    ensures OverrideOutcome(value, duration, now).Failure? ==>
      r == Failure(OverrideOutcome(value, duration, now).error) && a.Data() == old(a.Data()) && a.saves == old(a.saves)
    ensures OverrideOutcome(value, duration, now).Success? ==>
      && a.overrideValue == Some(OverrideOutcome(value, duration, now).value.0)
      && a.overrideTimeout == Some(OverrideOutcome(value, duration, now).value.1)
      && a.saves == old(a.saves) + 1
      && r == Success(a.Data())
    ensures a.refreshes == old(a.refreshes)
  {
    if value.None? {
      return Failure(ApiException(NoValue));
    }
    if duration.None? || duration.value == 0 {
      return Failure(ApiException(NoDuration));
    }
    a.overrideValue := Some(value.value);
    a.overrideTimeout := Some(now + duration.value);
    a.saves := a.saves + 1;
    r := Success(a.Data());
  }

  /** `get_state`: the actuator's record with the greatest timestamp, or an error when it has none. */
  function GetState(rows: seq<Record>, origin: nat): (r: Result<Record, ApiError>)
    ensures r.Failure? <==> forall i :: 0 <= i < |rows| ==> rows[i].origin != origin
    ensures r.Failure? ==> r.error == ApiException(NoState)
    ensures r.Success? ==> r.value in rows && r.value.origin == origin
    ensures r.Success? ==> forall i :: 0 <= i < |rows| && rows[i].origin == origin ==> rows[i].timestamp <= r.value.timestamp
  {
    match Latest(rows, origin)
    case None => Failure(ApiException(NoState))
    case Some(x) => Success(x)
  }

  /** `post_state`: appends the new state record, or refuses without storing anything. */
  method PostState(table: RecordTable, origin: nat, timestamp: Option<int>, value: Option<real>, now: int)
    returns (r: Result<Record, ApiError>)
    modifies table
    ensures r == NewRecord(origin, timestamp, value, now)
    ensures table.rows == Stored(old(table.rows), r)
  {
    r := NewRecord(origin, timestamp, value, now);
    if r.Success? {
      table.Append(r.value);
    }
  }

  /**
   * `state`: GET reads the latest state, POST posts one; any other method raises
   * `ValueError` (the route admits only GET and POST, so that branch is not reached
   * through it).
   */
  method State(table: RecordTable, origin: nat, verb: Verb, timestamp: Option<int>, value: Option<real>, now: int)
    returns (r: Result<Record, ApiError>)
    modifies table
    ensures verb == Get ==> r == GetState(old(table.rows), origin) && table.rows == old(table.rows)
    ensures verb == Post ==> r == NewRecord(origin, timestamp, value, now) && table.rows == Stored(old(table.rows), r)
    ensures verb != Get && verb != Post ==> r == Failure(Uncaught("ValueError")) && table.rows == old(table.rows)
  {
    if verb == Get {
      r := GetState(table.rows, origin);
    } else if verb == Post {
      r := PostState(table, origin, timestamp, value, now);
    } else {
      r := Failure(Uncaught("ValueError"));
    }
  }

  /** A state posted at or after every stored state of the actuator is the state then read. */
  lemma PostedStateIsRead(rows: seq<Record>, origin: nat, timestamp: Option<int>, value: real, now: int)
    requires forall i :: 0 <= i < |rows| && rows[i].origin == origin ==> rows[i].timestamp <= timestamp.GetOr(now)
    ensures GetState(Stored(rows, NewRecord(origin, timestamp, Some(value), now)), origin)
      == NewRecord(origin, timestamp, Some(value), now)
  {
    PostedIsLatest(rows, origin, timestamp, Some(value), now);
  }

  /**
   * `history` as written: once `since` is present, it calls `filter` on the model class,
   * which has no such attribute (the query manager is `ActuatorState.objects`).
   */
  function HistoryAsWritten(rows: seq<Record>, origin: nat, since: Option<int>, before: Option<int>, now: int)
    : (r: Result<seq<Record>, ApiError>)
    ensures since.None? ==> r == Failure(ApiException(NoSince))
    ensures since.Some? ==> r == Failure(Uncaught("AttributeError"))
  {
    if since.None? then Failure(ApiException(NoSince))
    else Failure(Uncaught("AttributeError"))
  }

  /** Whenever the history has records to return, the as-written view raises instead. */
  lemma HistoryAsWrittenLosesRecords(rows: seq<Record>, origin: nat, since: int, before: Option<int>, now: int)
    requires exists i :: 0 <= i < |rows| && InWindow(rows[i], origin, since, before.GetOr(now))
    ensures WindowHistory(rows, origin, Some(since), before, now).Success?
    ensures WindowHistory(rows, origin, Some(since), before, now).value != []
    ensures HistoryAsWritten(rows, origin, Some(since), before, now) == Failure(Uncaught("AttributeError"))
  {
    var i :| 0 <= i < |rows| && InWindow(rows[i], origin, since, before.GetOr(now));
    assert rows[i] in WindowHistory(rows, origin, Some(since), before, now).value;
  }
}
