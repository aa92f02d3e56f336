/**
 * The time-stamped records kept for actuators (`ActuatorState`) and sensing points
 * (`DataPoint`), and the two queries the views run on them: the latest record of one
 * origin (`get_latest_by = 'timestamp'`) and the records of one origin strictly inside
 * a time window, in timestamp order (`ordering = ['timestamp']`).
 *
 * Timestamps are integers, as the `timestamp` columns are. Values are opaque reals.
 */
module TimeSeries {
  import opened Wrappers

  /** A stored record: the id of its actuator or sensing point, its timestamp and value. */
  datatype Record = Record(origin: nat, timestamp: int, value: real)

  /** `Model.objects.filter(origin=o).latest()`: a record of `origin` with the greatest timestamp. */
  function Latest(rs: seq<Record>, origin: nat): (r: Option<Record>)
    ensures r.None? <==> forall i :: 0 <= i < |rs| ==> rs[i].origin != origin
    ensures r.Some? ==> r.value in rs && r.value.origin == origin
    ensures r.Some? ==> forall i :: 0 <= i < |rs| && rs[i].origin == origin ==> rs[i].timestamp <= r.value.timestamp
    decreases |rs|
  {
    if rs == [] then None
    else
      var rest := Latest(rs[..|rs| - 1], origin);
      var last := rs[|rs| - 1];
      assert forall i :: 0 <= i < |rs| - 1 ==> rs[i] == rs[..|rs| - 1][i];
      if last.origin != origin then rest
      else if rest.None? || rest.value.timestamp <= last.timestamp then Some(last)
      else rest
  }

  /** The filter `origin=o, timestamp__gt=since, timestamp__lt=before`. */
  predicate InWindow(r: Record, origin: nat, since: int, before: int) {
    r.origin == origin && since < r.timestamp < before
  }

  /** The matching records, in insertion order. */
  function Select(rs: seq<Record>, origin: nat, since: int, before: int): (out: seq<Record>)
    ensures |out| <= |rs|
    decreases |rs|
  {
    if rs == [] then []
    else
      var rest := Select(rs[1..], origin, since, before);
      if InWindow(rs[0], origin, since, before) then [rs[0]] + rest else rest
  }

  /** Inserts `r` after every record whose timestamp is not greater than its own. */
  function InsertByTime(r: Record, s: seq<Record>): (out: seq<Record>)
    ensures |out| == |s| + 1
    decreases |s|
  {
    if s == [] || r.timestamp < s[0].timestamp then [r] + s
    else [s[0]] + InsertByTime(r, s[1..])
  }

  /** Orders records by timestamp, keeping insertion order among equal timestamps. */
  function SortByTime(s: seq<Record>): (out: seq<Record>)
    ensures |out| == |s|
    decreases |s|
  {
    if s == [] then [] else InsertByTime(s[0], SortByTime(s[1..]))
  }

  /** The history query: the matching records ordered by timestamp. */
  function History(rs: seq<Record>, origin: nat, since: int, before: int): (out: seq<Record>)
    ensures |out| <= |rs|
  {
    SortByTime(Select(rs, origin, since, before))
  }

  predicate ByTime(s: seq<Record>) {
    forall i, j :: 0 <= i < j < |s| ==> s[i].timestamp <= s[j].timestamp
  }

  lemma {:induction false} InsertByTimeSpec(r: Record, s: seq<Record>)
    requires ByTime(s)
    ensures ByTime(InsertByTime(r, s))
    ensures multiset(InsertByTime(r, s)) == multiset(s) + multiset{r}
    decreases |s|
  {
    if s != [] && r.timestamp >= s[0].timestamp {
      var rest := InsertByTime(r, s[1..]);
      InsertByTimeSpec(r, s[1..]);
      assert s == [s[0]] + s[1..];
      var out := [s[0]] + rest;
      forall i, j | 0 <= i < j < |out|
        ensures out[i].timestamp <= out[j].timestamp
      {
        if i == 0 {
          assert out[j] in multiset(rest);
          assert out[j] in multiset(s[1..]) + multiset{r};
          if out[j] != r {
            assert out[j] in s[1..];
            var k :| 0 <= k < |s[1..]| && s[1..][k] == out[j];
            assert s[k + 1] == out[j];
          }
        } else {
          assert out[i] == rest[i - 1] && out[j] == rest[j - 1];
        }
      }
    }
  }

  lemma {:induction false} SortByTimeSpec(s: seq<Record>)
    ensures ByTime(SortByTime(s))
    ensures multiset(SortByTime(s)) == multiset(s)
    decreases |s|
  {
    if s != [] {
      SortByTimeSpec(s[1..]);
      InsertByTimeSpec(s[0], SortByTime(s[1..]));
      assert s == [s[0]] + s[1..];
    }
  }

  lemma {:induction false} SelectSpec(rs: seq<Record>, origin: nat, since: int, before: int)
    ensures forall r :: r in Select(rs, origin, since, before) <==> r in rs && InWindow(r, origin, since, before)
    ensures forall r :: r in multiset(Select(rs, origin, since, before)) ==>
      multiset(Select(rs, origin, since, before))[r] == multiset(rs)[r]
    decreases |rs|
  {
    if rs != [] {
      SelectSpec(rs[1..], origin, since, before);
      assert rs == [rs[0]] + rs[1..];
    }
  }

  /**
   * The history holds exactly the records of `origin` strictly between `since` and
   * `before`, each as often as it was stored, in timestamp order.
   */
  lemma HistorySpec(rs: seq<Record>, origin: nat, since: int, before: int)
    ensures var h := History(rs, origin, since, before);
      && ByTime(h)
      && (forall r :: r in h <==> r in rs && InWindow(r, origin, since, before))
      && (forall r :: r in h ==> multiset(h)[r] == multiset(rs)[r])
  {
    var sel := Select(rs, origin, since, before);
    SortByTimeSpec(sel);
    SelectSpec(rs, origin, since, before);
    var h := History(rs, origin, since, before);
    forall r
      ensures r in h <==> r in sel
    {
      assert r in h <==> r in multiset(h);
      assert r in sel <==> r in multiset(sel);
    }
  }

  /** Both bounds are exclusive: of records at 50, 100, 150, 200 and 250, (100, 200) holds 150 only. */
  lemma OpenWindowExample(origin: nat, v: real)
    ensures History([Record(origin, 50, v), Record(origin, 100, v), Record(origin, 150, v),
                     Record(origin, 200, v), Record(origin, 250, v)], origin, 100, 200)
            == [Record(origin, 150, v)]
  {
    var r50, r100, r150 := Record(origin, 50, v), Record(origin, 100, v), Record(origin, 150, v);
    var r200, r250 := Record(origin, 200, v), Record(origin, 250, v);
    var rs := [r50, r100, r150, r200, r250];
    assert Select([r250], origin, 100, 200) == [] by {
      assert [r250][1..] == [];
    }
    assert Select([r200, r250], origin, 100, 200) == [] by {
      assert [r200, r250][1..] == [r250];
    }
    assert Select([r150, r200, r250], origin, 100, 200) == [r150] by {
      assert [r150, r200, r250][1..] == [r200, r250];
    }
    assert Select([r100, r150, r200, r250], origin, 100, 200) == [r150] by {
      assert [r100, r150, r200, r250][1..] == [r150, r200, r250];
    }
    assert Select(rs, origin, 100, 200) == [r150] by {
      assert rs[1..] == [r100, r150, r200, r250];
    }
    assert SortByTime([r150]) == [r150] by {
      assert [r150][1..] == [];
    }
  }

  /** A table of records that new records are appended to. */
  class RecordTable {
    var rows: seq<Record>

    constructor(rows: seq<Record>)
      ensures this.rows == rows
    {
      this.rows := rows;
    }

    method Append(r: Record)
      modifies this
      ensures rows == old(rows) + [r]
    {
      rows := rows + [r];
    }
  }

  /** Appending a record makes it the latest of its origin unless a later one is stored. */
  lemma LatestAfterAppend(rs: seq<Record>, r: Record)
    ensures var l := Latest(rs + [r], r.origin);
      l.Some? && l.value.timestamp >= r.timestamp
    ensures (forall i :: 0 <= i < |rs| && rs[i].origin == r.origin ==> rs[i].timestamp <= r.timestamp) ==>
      Latest(rs + [r], r.origin) == Some(r)
  {
    assert (rs + [r])[..|rs + [r]| - 1] == rs;
  }
}
