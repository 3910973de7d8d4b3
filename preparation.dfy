/**
 The preparation of the prepared table: the inner join of the data sheet with
 the activity-to-type mapping, the reduction to one row per `(route,
 start_date)` pair, and the derived `year` and `participants_plus_leaders`
 columns.
 */
module Preparation {
  import opened Records

  /** A data row joined to the type of one mapping row. */
  function WithType(d: DataRow, activityType: string): TypedRow {
    TypedRow(d.activity, d.route, d.startDate, d.branch, d.result, d.registeredParticipants, activityType)
  }

  /** The joined rows of one data row: one per mapping row of its activity, in mapping order. */
  function TypeRow(d: DataRow, mapping: seq<MappingRow>): (out: seq<TypedRow>)
    ensures forall t :: t in out <==>
      exists m :: m in mapping && m.activity == d.activity && t == WithType(d, m.activityType)
  {
    if mapping == [] then []
    else
      assert mapping == [mapping[0]] + mapping[1..];
      (if mapping[0].activity == d.activity then [WithType(d, mapping[0].activityType)] else [])
        + TypeRow(d, mapping[1..])
  }

  /**
   `df.join(route_types, on="activity", how="inner")`: every pair of a data row
   and a mapping row of the same activity, in data order; a data row whose
   activity has no mapping row yields nothing.
   */
  function JoinType(data: seq<DataRow>, mapping: seq<MappingRow>): (out: seq<TypedRow>)
    ensures forall t :: t in out <==>
      exists d, m :: d in data && m in mapping && d.activity == m.activity && t == WithType(d, m.activityType)
  {
    if data == [] then []
    else
      assert data == [data[0]] + data[1..];
      TypeRow(data[0], mapping) + JoinType(data[1..], mapping)
  }

  lemma {:induction false} JoinTypeConcat(a: seq<DataRow>, b: seq<DataRow>, mapping: seq<MappingRow>)
    ensures JoinType(a + b, mapping) == JoinType(a, mapping) + JoinType(b, mapping)
  {
    if a == [] {
      assert a + b == b;
    } else {
      assert (a + b)[1..] == a[1..] + b;
      JoinTypeConcat(a[1..], b, mapping);
    }
  }

  /** A data row whose activity is missing from the mapping is dropped by the join. */
  lemma UnmappedRowDropped(d: DataRow, mapping: seq<MappingRow>)
    requires forall m :: m in mapping ==> m.activity != d.activity
    ensures TypeRow(d, mapping) == []
  {
  }

  /** When the mapping names each activity once, the join never duplicates a data row. */
  lemma {:induction false} TypeRowAtMostOne(d: DataRow, mapping: seq<MappingRow>)
    requires forall i, j :: 0 <= i < j < |mapping| ==> mapping[i].activity != mapping[j].activity
    ensures |TypeRow(d, mapping)| <= 1
  {
    if mapping != [] {
      var tail := mapping[1..];
      assert forall i, j :: 0 <= i < j < |tail| ==> tail[i].activity != tail[j].activity by {
        forall i, j | 0 <= i < j < |tail|
          ensures tail[i].activity != tail[j].activity
        {
          assert tail[i] == mapping[i + 1] && tail[j] == mapping[j + 1];
        }
      }
      TypeRowAtMostOne(d, tail);
      if mapping[0].activity == d.activity {
        assert forall m :: m in tail ==> m.activity != d.activity by {
          forall m | m in tail
            ensures m.activity != d.activity
          {
            var j :| 0 <= j < |tail| && tail[j] == m;
            assert mapping[j + 1] == m;
          }
        }
        UnmappedRowDropped(d, tail);
      }
    }
  }

  /** The de-duplication key `(route, start_date)`. */
  function RouteDate(t: TypedRow): (string, Date) {
    (t.route, t.startDate)
  }

  predicate HasRouteDate(rows: seq<TypedRow>, key: (string, Date)) {
    exists i :: 0 <= i < |rows| && RouteDate(rows[i]) == key
  }

  /**
   `unique(["route", "start_date"])`: one row per pair. This keeps the first
   row of each pair, in input order.
   */
  function UniqueByRouteDate(rows: seq<TypedRow>): (u: seq<TypedRow>)
    ensures forall i, j :: 0 <= i < j < |u| ==> RouteDate(u[i]) != RouteDate(u[j])
    ensures forall t :: t in u ==> t in rows
    ensures forall t :: t in rows ==> HasRouteDate(u, RouteDate(t))
  {
    if rows == [] then []
    else
      var init, last := rows[..|rows| - 1], rows[|rows| - 1];
      assert rows == init + [last];
      var u := UniqueByRouteDate(init);
      if HasRouteDate(u, RouteDate(last)) then
        u
      else
        var v := u + [last];
        assert forall i :: 0 <= i < |u| ==> v[i] == u[i];
        assert forall key :: HasRouteDate(u, key) ==> HasRouteDate(v, key);
        assert v[|u|] == last;
        v
  }

  /** `year = start_date.year` and `participants_plus_leaders = registered_participants + 1` */
  function Derive(t: TypedRow): ClimbRecord {
    ClimbRecord(t.activity, t.route, t.startDate, t.startDate.year, t.branch, t.activityType,
                t.result, t.registeredParticipants, t.registeredParticipants + 1)
  }

  function DeriveAll(rows: seq<TypedRow>): seq<ClimbRecord> {
    seq(|rows|, i requires 0 <= i < |rows| => Derive(rows[i]))
  }

  /** The prepared table `df_with_type` handed to the aggregation. */
  function Prepare(data: seq<DataRow>, mapping: seq<MappingRow>): seq<ClimbRecord> {
    DeriveAll(UniqueByRouteDate(JoinType(data, mapping)))
  }

  /** `r` carries the columns of the data row `d`. */
  predicate FromDataRow(r: ClimbRecord, d: DataRow) {
    && r.activity == d.activity && r.route == d.route && r.startDate == d.startDate
    && r.branch == d.branch && r.result == d.result
    && r.registeredParticipants == d.registeredParticipants
  }

  /**
   Every prepared record comes from a data row, carries the type the mapping
   gives its activity, and has its year and its participant count including
   the leader.
   */
  lemma PreparedRecordsWellFormed(data: seq<DataRow>, mapping: seq<MappingRow>, r: ClimbRecord)
    requires r in Prepare(data, mapping)
    ensures exists d :: d in data && FromDataRow(r, d)
    ensures exists m :: m in mapping && m.activity == r.activity && m.activityType == r.activityType
    ensures r.year == r.startDate.year
    ensures r.participantsPlusLeaders == r.registeredParticipants + 1
  {
    var u := UniqueByRouteDate(JoinType(data, mapping));
    var i :| 0 <= i < |u| && Prepare(data, mapping)[i] == r;
    assert u[i] in u;
    var d, m :| d in data && m in mapping && d.activity == m.activity && u[i] == WithType(d, m.activityType);
    assert FromDataRow(r, d);
  }

  /** No two prepared records share a `(route, start_date)` pair. */
  lemma PreparedRouteDatesUnique(data: seq<DataRow>, mapping: seq<MappingRow>)
    ensures var out := Prepare(data, mapping);
      forall i, j :: 0 <= i < j < |out| ==>
        (out[i].route, out[i].startDate) != (out[j].route, out[j].startDate)
  {
    var u := UniqueByRouteDate(JoinType(data, mapping));
    assert forall i :: 0 <= i < |u| ==> RouteDate(u[i]) == (Prepare(data, mapping)[i].route, Prepare(data, mapping)[i].startDate);
  }

  /** Every `(route, start_date)` pair of a data row with a mapped activity survives. */
  lemma PreparedCoversMappedRows(data: seq<DataRow>, mapping: seq<MappingRow>, d: DataRow, m: MappingRow)
    requires d in data && m in mapping && d.activity == m.activity
    ensures exists r :: r in Prepare(data, mapping) && r.route == d.route && r.startDate == d.startDate
  {
    var joined := JoinType(data, mapping);
    assert WithType(d, m.activityType) in joined;
    var u := UniqueByRouteDate(joined);
    var i :| 0 <= i < |u| && RouteDate(u[i]) == (d.route, d.startDate);
    assert Prepare(data, mapping)[i] in Prepare(data, mapping);
  }

  /** With no negative registration counts, every prepared record counts at least one person. */
  lemma PreparedParticipantsPositive(data: seq<DataRow>, mapping: seq<MappingRow>)
    requires forall d :: d in data ==> d.registeredParticipants >= 0
    ensures forall r :: r in Prepare(data, mapping) ==> r.participantsPlusLeaders >= 1
  {
    forall r | r in Prepare(data, mapping)
      ensures r.participantsPlusLeaders >= 1
    {
      PreparedRecordsWellFormed(data, mapping, r);
    }
  }

  /** A data row whose activity the mapping does not know has no effect on the prepared table. */
  lemma UnmappedActivityIgnored(a: seq<DataRow>, d: DataRow, b: seq<DataRow>, mapping: seq<MappingRow>)
    requires forall m :: m in mapping ==> m.activity != d.activity
    ensures Prepare(a + [d] + b, mapping) == Prepare(a + b, mapping)
  {
    var before, after := JoinType(a, mapping), JoinType(b, mapping);
    UnmappedRowDropped(d, mapping);
    assert JoinType([d], mapping) == [] by {
      assert [d][1..] == [];
      assert JoinType([d], mapping) == TypeRow(d, mapping) + JoinType([], mapping);
    }
    assert JoinType(a + [d] + b, mapping) == before + after by {
      JoinTypeConcat(a + [d], b, mapping);
      JoinTypeConcat(a, [d], mapping);
      assert before + [] == before;
    }
    JoinTypeConcat(a, b, mapping);
  }
}
