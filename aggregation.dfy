/**
 `create_climbing_dataset`: keep the records of one route type, group them by
 `(year, branch)` counting climbs and summing participants, sum the participants
 of the successful climbs per group, inner-join the two grouped tables on the
 key and add the success ratio.

 The first half of the module is the specification those dataframe
 expressions denote (filters and a sum over the prepared records); the second
 half computes the grouped tables the way a group-by does, by folding every
 record into an accumulator table kept sorted by `(branch, year)`, and joins
 them. The theorems at the end tie the two halves together.
 */
module Aggregation {
  import opened Records
  import opened KeyOrder

  // ---------------------------------------------------------------------------
  // Specification: filters and sums over the prepared records
  // ---------------------------------------------------------------------------

  /** `df_with_type.filter(df_with_type["type"] == filter)` */
  function OfType(recs: seq<ClimbRecord>, filter: string): (out: seq<ClimbRecord>)
    ensures forall r :: r in out <==> r in recs && r.activityType == filter
  {
    if recs == [] then []
    else
      assert recs == [recs[0]] + recs[1..];
      (if recs[0].activityType == filter then [recs[0]] else []) + OfType(recs[1..], filter)
  }

  /** `filter(pl.col("result") == "Successful")` */
  function Successful(recs: seq<ClimbRecord>): (out: seq<ClimbRecord>)
    ensures forall r :: r in out <==> r in recs && r.result == SUCCESSFUL
  {
    if recs == [] then []
    else
      assert recs == [recs[0]] + recs[1..];
      (if recs[0].result == SUCCESSFUL then [recs[0]] else []) + Successful(recs[1..])
  }

  /** The records of one `(year, branch)` group. */
  function InGroup(recs: seq<ClimbRecord>, k: GroupKey): (out: seq<ClimbRecord>)
    ensures forall r :: r in out <==> r in recs && KeyOf(r) == k
  {
    if recs == [] then []
    else
      assert recs == [recs[0]] + recs[1..];
      (if KeyOf(recs[0]) == k then [recs[0]] else []) + InGroup(recs[1..], k)
  }

  /** `pl.sum("participants_plus_leaders")` */
  function SumPpl(recs: seq<ClimbRecord>): int {
    if recs == [] then 0 else recs[0].participantsPlusLeaders + SumPpl(recs[1..])
  }

  /** The distinct grouping keys that occur among some records. */
  function RecordKeys(recs: seq<ClimbRecord>): set<GroupKey> {
    set r | r in recs :: KeyOf(r)
  }

  // ---------------------------------------------------------------------------
  // Facts about the specification functions
  // ---------------------------------------------------------------------------

  lemma {:induction false} OfTypeConcat(a: seq<ClimbRecord>, b: seq<ClimbRecord>, filter: string)
    ensures OfType(a + b, filter) == OfType(a, filter) + OfType(b, filter)
  {
    if a != [] {
      assert (a + b)[1..] == a[1..] + b;
      OfTypeConcat(a[1..], b, filter);
    } else {
      assert a + b == b;
    }
  }

  lemma {:induction false} SumPplConcat(a: seq<ClimbRecord>, b: seq<ClimbRecord>)
    ensures SumPpl(a + b) == SumPpl(a) + SumPpl(b)
  {
    if a != [] {
      assert (a + b)[1..] == a[1..] + b;
      SumPplConcat(a[1..], b);
    } else {
      assert a + b == b;
    }
  }

  /** Taking one record out of a sequence takes its share out of the sum. */
  lemma SumPplRemove(q: seq<ClimbRecord>, i: int)
    requires 0 <= i < |q|
    ensures SumPpl(q) == q[i].participantsPlusLeaders + SumPpl(q[..i] + q[i + 1..])
  {
    var a, x, b := q[..i], q[i], q[i + 1..];
    assert SumPpl([x]) == x.participantsPlusLeaders by {
      assert [x][1..] == [];
    }
    calc {
      SumPpl(q);
      { assert q == (a + [x]) + b; }
      SumPpl((a + [x]) + b);
      { SumPplConcat(a + [x], b); }
      SumPpl(a + [x]) + SumPpl(b);
      { SumPplConcat(a, [x]); }
      SumPpl(a) + x.participantsPlusLeaders + SumPpl(b);
      { SumPplConcat(a, b); }
      x.participantsPlusLeaders + SumPpl(a + b);
    }
  }

  lemma MultisetRemove(q: seq<ClimbRecord>, i: int)
    requires 0 <= i < |q|
    ensures multiset(q[..i] + q[i + 1..]) == multiset(q) - multiset{q[i]}
  {
    var a, b := q[..i], q[i + 1..];
    assert q == (a + [q[i]]) + b;
  }

  /** The sum does not depend on the order of the records. */
  lemma {:induction false} SumPplPermutation(p: seq<ClimbRecord>, q: seq<ClimbRecord>)
    requires multiset(p) == multiset(q)
    ensures SumPpl(p) == SumPpl(q)
    decreases |p|
  {
    if p == [] {
      assert |q| == |multiset(q)| == 0;
    } else {
      assert p[0] in multiset(q);
      var i :| 0 <= i < |q| && q[i] == p[0];
      SumPplRemove(q, i);
      MultisetRemove(q, i);
      assert p == [p[0]] + p[1..];
      assert multiset(p[1..]) == multiset(p) - multiset{p[0]};
      SumPplPermutation(p[1..], q[..i] + q[i + 1..]);
    }
  }

  lemma {:induction false} OfTypeCount(recs: seq<ClimbRecord>, filter: string, r: ClimbRecord)
    ensures multiset(OfType(recs, filter))[r] == if r.activityType == filter then multiset(recs)[r] else 0
  {
    if recs != [] {
      assert recs == [recs[0]] + recs[1..];
      OfTypeCount(recs[1..], filter, r);
    }
  }

  lemma {:induction false} SuccessfulCount(recs: seq<ClimbRecord>, r: ClimbRecord)
    ensures multiset(Successful(recs))[r] == if r.result == SUCCESSFUL then multiset(recs)[r] else 0
  {
    if recs != [] {
      assert recs == [recs[0]] + recs[1..];
      SuccessfulCount(recs[1..], r);
    }
  }

  lemma {:induction false} InGroupCount(recs: seq<ClimbRecord>, k: GroupKey, r: ClimbRecord)
    ensures multiset(InGroup(recs, k))[r] == if KeyOf(r) == k then multiset(recs)[r] else 0
  {
    if recs != [] {
      assert recs == [recs[0]] + recs[1..];
      InGroupCount(recs[1..], k, r);
    }
  }

  /** Keeping the successes of one group is keeping the group of the successes. */
  lemma {:induction false} InGroupSuccessfulCommute(recs: seq<ClimbRecord>, k: GroupKey)
    ensures InGroup(Successful(recs), k) == Successful(InGroup(recs, k))
  {
    if recs != [] {
      InGroupSuccessfulCommute(recs[1..], k);
      var r := recs[0];
      var head := if r.result == SUCCESSFUL then [r] else [];
      assert Successful(recs) == head + Successful(recs[1..]);
      InGroupConcat(head, Successful(recs[1..]), k);
      var group := if KeyOf(r) == k then [r] else [];
      assert InGroup(recs, k) == group + InGroup(recs[1..], k);
      SuccessfulConcat(group, InGroup(recs[1..], k));
    }
  }

  /** A key that no record carries has an empty group. */
  lemma {:induction false} InGroupEmpty(recs: seq<ClimbRecord>, k: GroupKey)
    requires k !in RecordKeys(recs)
    ensures InGroup(recs, k) == []
  {
    if recs != [] {
      assert recs[0] in recs;
      assert forall r :: r in recs[1..] ==> r in recs;
      InGroupEmpty(recs[1..], k);
    }
  }

  lemma {:induction false} InGroupConcat(a: seq<ClimbRecord>, b: seq<ClimbRecord>, k: GroupKey)
    ensures InGroup(a + b, k) == InGroup(a, k) + InGroup(b, k)
  {
    if a != [] {
      assert (a + b)[1..] == a[1..] + b;
      InGroupConcat(a[1..], b, k);
    } else {
      assert a + b == b;
    }
  }

  lemma {:induction false} SuccessfulConcat(a: seq<ClimbRecord>, b: seq<ClimbRecord>)
    ensures Successful(a + b) == Successful(a) + Successful(b)
  {
    if a != [] {
      assert (a + b)[1..] == a[1..] + b;
      SuccessfulConcat(a[1..], b);
    } else {
      assert a + b == b;
    }
  }

  /** With no negative participant counts, the successes never outweigh the whole. */
  lemma {:induction false} SuccessfulSumAtMostSum(recs: seq<ClimbRecord>)
    requires forall r :: r in recs ==> r.participantsPlusLeaders >= 0
    ensures SumPpl(Successful(recs)) <= SumPpl(recs)
  {
    if recs != [] {
      assert recs[0] in recs;
      assert forall r :: r in recs[1..] ==> r in recs;
      SuccessfulSumAtMostSum(recs[1..]);
      var head := if recs[0].result == SUCCESSFUL then [recs[0]] else [];
      SumPplConcat(head, Successful(recs[1..]));
    }
  }

  /** Every record counts at least one person (its leader), so a sum is at least the count. */
  lemma {:induction false} SumPplAtLeastCount(recs: seq<ClimbRecord>)
    requires forall r :: r in recs ==> r.participantsPlusLeaders >= 1
    ensures SumPpl(recs) >= |recs|
  {
    if recs != [] {
      assert recs[0] in recs;
      assert forall r :: r in recs[1..] ==> r in recs;
      SumPplAtLeastCount(recs[1..]);
    }
  }

  // ---------------------------------------------------------------------------
  // Grouped tables
  // ---------------------------------------------------------------------------

  /** One row of a grouped table: the key, `pl.count()` and the participant sum. */
  datatype GroupRow = GroupRow(key: GroupKey, count: int, sum: int)

  function KeySet(table: seq<GroupRow>): set<GroupKey> {
    set g | g in table :: g.key
  }

  /** Rows in strictly increasing `(branch, year)` order, hence one per key. */
  ghost predicate SortedTable(table: seq<GroupRow>) {
    forall i, j :: 0 <= i < j < |table| ==> KeyLess(table[i].key, table[j].key)
  }

  /** The row of a key, if the table has one. */
  function Lookup(table: seq<GroupRow>, k: GroupKey): (o: Option<GroupRow>)
    ensures o.Some? <==> k in KeySet(table)
    ensures o.Some? ==> o.value in table && o.value.key == k
  {
    if table == [] then None
    else
      assert table == [table[0]] + table[1..];
      if table[0].key == k then Some(table[0]) else Lookup(table[1..], k)
  }

  /** In a sorted table the row that carries a key is the one `Lookup` finds. */
  lemma {:induction false} LookupSorted(table: seq<GroupRow>, g: GroupRow)
    requires SortedTable(table) && g in table
    ensures Lookup(table, g.key) == Some(g)
  {
    if table[0] != g {
      assert g in table[1..];
      var j :| 1 <= j < |table| && table[j] == g;
      KeyLessAsymmetric(table[0].key, g.key);
      LookupSorted(table[1..], g);
    }
  }

  /** The accumulator of a key after one more record of that key. */
  function Bumped(o: Option<GroupRow>, r: ClimbRecord): GroupRow {
    match o
    case None => GroupRow(KeyOf(r), 1, r.participantsPlusLeaders)
    case Some(g) => GroupRow(g.key, g.count + 1, g.sum + r.participantsPlusLeaders)
  }

  /** Folds one record into a grouped table kept sorted by `(branch, year)`. */
  function AddRecord(table: seq<GroupRow>, r: ClimbRecord): seq<GroupRow> {
    if table == [] then [Bumped(None, r)]
    else if table[0].key == KeyOf(r) then [Bumped(Some(table[0]), r)] + table[1..]
    else if KeyLess(KeyOf(r), table[0].key) then [Bumped(None, r)] + table
    else [table[0]] + AddRecord(table[1..], r)
  }

  lemma KeySetEmpty(table: seq<GroupRow>)
    ensures KeySet(table) == {} <==> table == []
  {
    if table != [] {
      assert table[0].key in KeySet(table);
    }
  }

  lemma KeySetCons(g: GroupRow, table: seq<GroupRow>)
    ensures KeySet([g] + table) == {g.key} + KeySet(table)
  {
    assert forall h :: h in [g] + table <==> h == g || h in table;
  }

  /** Adding a record adds its key and no other. */
  lemma {:induction false} AddRecordKeys(table: seq<GroupRow>, r: ClimbRecord)
    ensures KeySet(AddRecord(table, r)) == KeySet(table) + {KeyOf(r)}
  {
    var k := KeyOf(r);
    if table == [] {
    } else {
      assert table == [table[0]] + table[1..];
      KeySetCons(table[0], table[1..]);
      if table[0].key == k {
        KeySetCons(Bumped(Some(table[0]), r), table[1..]);
      } else if KeyLess(k, table[0].key) {
        KeySetCons(Bumped(None, r), table);
      } else {
        AddRecordKeys(table[1..], r);
        KeySetCons(table[0], AddRecord(table[1..], r));
      }
    }
  }

  /** Adding a record leaves the rows of the other keys alone. */
  lemma {:induction false} AddRecordOthers(table: seq<GroupRow>, r: ClimbRecord)
    ensures forall g :: g in AddRecord(table, r) ==> g.key == KeyOf(r) || g in table
  {
    if table != [] && table[0].key != KeyOf(r) && !KeyLess(KeyOf(r), table[0].key) {
      AddRecordOthers(table[1..], r);
      assert forall g :: g in table[1..] ==> g in table;
    }
  }

  lemma SortedTail(table: seq<GroupRow>)
    requires SortedTable(table) && table != []
    ensures SortedTable(table[1..])
  {
    forall i, j | 0 <= i < j < |table[1..]|
      ensures KeyLess(table[1..][i].key, table[1..][j].key)
    {
      assert table[1..][i] == table[i + 1] && table[1..][j] == table[j + 1];
    }
  }

  /** Adding a record keeps the table sorted by `(branch, year)`. */
  lemma {:induction false} AddRecordSorted(table: seq<GroupRow>, r: ClimbRecord)
    requires SortedTable(table)
    ensures SortedTable(AddRecord(table, r))
  {
    var k := KeyOf(r);
    var res := AddRecord(table, r);
    if table == [] {
    } else if table[0].key == k {
      assert forall i :: 1 <= i < |res| ==> res[i] == table[i];
    } else if KeyLess(k, table[0].key) {
      forall j | 1 <= j < |table|
        ensures KeyLess(k, table[j].key)
      {
        KeyLessTransitive(k, table[0].key, table[j].key);
      }
      assert forall i :: 1 <= i < |res| ==> res[i] == table[i - 1];
    } else {
      KeyLessTotal(k, table[0].key);
      var rest := AddRecord(table[1..], r);
      SortedTail(table);
      AddRecordSorted(table[1..], r);
      AddRecordOthers(table[1..], r);
      forall g | g in rest
        ensures KeyLess(table[0].key, g.key)
      {
        if g.key != k {
          var j :| 0 <= j < |table[1..]| && table[1..][j] == g;
          assert table[j + 1] == g;
        }
      }
      forall i, j | 0 <= i < j < |res|
        ensures KeyLess(res[i].key, res[j].key)
      {
        assert res[j] == rest[j - 1];
        if i > 0 {
          assert res[i] == rest[i - 1];
        } else {
          assert res[j] in rest;
        }
      }
    }
  }

  /** Adding a record bumps the accumulator of its key, or starts one. */
  lemma {:induction false} AddRecordLookup(table: seq<GroupRow>, r: ClimbRecord)
    requires SortedTable(table)
    ensures Lookup(AddRecord(table, r), KeyOf(r)) == Some(Bumped(Lookup(table, KeyOf(r)), r))
  {
    var k := KeyOf(r);
    if table == [] {
    } else if table[0].key == k {
    } else if KeyLess(k, table[0].key) {
      forall j | 0 <= j < |table|
        ensures table[j].key != k
      {
        if j > 0 {
          KeyLessTransitive(k, table[0].key, table[j].key);
        }
        KeyLessAsymmetric(k, table[j].key);
      }
      assert k !in KeySet(table);
    } else {
      SortedTail(table);
      AddRecordLookup(table[1..], r);
    }
  }

  /** `table` holds exactly the groups of `recs`, sorted, with their count and sum. */
  ghost predicate Tabulates(table: seq<GroupRow>, recs: seq<ClimbRecord>) {
    && SortedTable(table)
    && KeySet(table) == RecordKeys(recs)
    && forall g :: g in table ==>
         g.count == |InGroup(recs, g.key)| && g.sum == SumPpl(InGroup(recs, g.key))
  }

  lemma AddRecordTabulates(table: seq<GroupRow>, recs: seq<ClimbRecord>, r: ClimbRecord)
    requires Tabulates(table, recs)
    ensures Tabulates(AddRecord(table, r), [r] + recs)
  {
    var k := KeyOf(r);
    var res := AddRecord(table, r);
    var all := [r] + recs;
    AddRecordSorted(table, r);
    AddRecordKeys(table, r);
    AddRecordOthers(table, r);
    AddRecordLookup(table, r);
    assert all[0] == r && all[1..] == recs;
    assert RecordKeys(all) == RecordKeys(recs) + {k};
    forall g | g in res
      ensures g.count == |InGroup(all, g.key)| && g.sum == SumPpl(InGroup(all, g.key))
    {
      if g.key == k {
        LookupSorted(res, g);
        assert InGroup(all, k) == [r] + InGroup(recs, k);
        match Lookup(table, k)
        case None =>
          InGroupEmpty(recs, k);
        case Some(h) =>
      } else {
        assert InGroup(all, g.key) == InGroup(recs, g.key);
      }
    }
  }

  /** `groupby(["year", "branch"]).agg(count, sum).sort("branch", "year")` */
  function GroupByKey(recs: seq<ClimbRecord>): (table: seq<GroupRow>)
    ensures Tabulates(table, recs)
  {
    if recs == [] then []
    else
      assert recs == [recs[0]] + recs[1..];
      AddRecordTabulates(GroupByKey(recs[1..]), recs[1..], recs[0]);
      AddRecord(GroupByKey(recs[1..]), recs[0])
  }

  // ---------------------------------------------------------------------------
  // The join and the result
  // ---------------------------------------------------------------------------

  /**
   A result row. `successRatio` is the exact quotient of the two sums; it is
   `None` where the total is 0, which a float division would turn into a
   non-finite value.
   */
  datatype SummaryRow = SummaryRow(
    year: int,
    branch: string,
    countOfClimbs: int,
    sumTotalRegisteredParticipants: int,
    sumSuccessfulRegisteredParticipants: int,
    successRatio: Option<real>)

  function RowKey(s: SummaryRow): GroupKey {
    GroupKey(s.year, s.branch)
  }

  function OutputKeys(out: seq<SummaryRow>): set<GroupKey> {
    set s | s in out :: RowKey(s)
  }

  ghost predicate SortedSummary(out: seq<SummaryRow>) {
    forall i, j :: 0 <= i < j < |out| ==> KeyLess(RowKey(out[i]), RowKey(out[j]))
  }

  /** `success_ratio = sum_successful / sum_total`, kept exact. */
  function Ratio(num: int, den: int): (q: Option<real>)
    ensures q.Some? <==> den != 0
    ensures q.Some? ==> q.value * den as real == num as real
  {
    if den == 0 then None else Some(num as real / den as real)
  }

  /** The joined row of a total group and its successful counterpart. */
  function Joined(g: GroupRow, s: GroupRow): SummaryRow {
    SummaryRow(g.key.year, g.key.branch, g.count, g.sum, s.sum, Ratio(s.sum, g.sum))
  }

  /**
   Inner join on `(year, branch)`: a total row without a successful row of the
   same key produces nothing. The rows come out in the order of `totals`.
   */
  function JoinGroups(totals: seq<GroupRow>, successes: seq<GroupRow>): seq<SummaryRow> {
    if totals == [] then []
    else
      var rest := JoinGroups(totals[1..], successes);
      match Lookup(successes, totals[0].key)
      case None => rest
      case Some(s) => [Joined(totals[0], s)] + rest
  }

  /** Every joined row combines a total row with the successful row of its key. */
  lemma {:induction false} JoinGroupsSound(totals: seq<GroupRow>, successes: seq<GroupRow>)
    ensures forall s :: s in JoinGroups(totals, successes) ==>
      exists g :: g in totals && Lookup(successes, g.key).Some? && s == Joined(g, Lookup(successes, g.key).value)
  {
    if totals != [] {
      JoinGroupsSound(totals[1..], successes);
      assert forall g :: g in totals[1..] ==> g in totals;
    }
  }

  /** Every total row that has a successful row of its key is joined. */
  lemma {:induction false} JoinGroupsComplete(totals: seq<GroupRow>, successes: seq<GroupRow>)
    ensures forall g :: g in totals && Lookup(successes, g.key).Some? ==>
      Joined(g, Lookup(successes, g.key).value) in JoinGroups(totals, successes)
  {
    if totals != [] {
      JoinGroupsComplete(totals[1..], successes);
      assert totals == [totals[0]] + totals[1..];
    }
  }

  /** Joining a table sorted by `(branch, year)` gives rows sorted the same way. */
  lemma {:induction false} JoinGroupsSorted(totals: seq<GroupRow>, successes: seq<GroupRow>)
    requires SortedTable(totals)
    ensures SortedSummary(JoinGroups(totals, successes))
  {
    if totals != [] {
      var g := totals[0];
      var rest := JoinGroups(totals[1..], successes);
      SortedTail(totals);
      JoinGroupsSorted(totals[1..], successes);
      JoinGroupsSound(totals[1..], successes);
      forall s | s in rest
        ensures KeyLess(g.key, RowKey(s))
      {
        var h :| h in totals[1..] && Lookup(successes, h.key).Some? && s == Joined(h, Lookup(successes, h.key).value);
        var j :| 0 <= j < |totals[1..]| && totals[1..][j] == h;
        assert totals[j + 1] == h;
      }
      match Lookup(successes, g.key)
      case None =>
      case Some(t) =>
        var out := [Joined(g, t)] + rest;
        forall i, j | 0 <= i < j < |out|
          ensures KeyLess(RowKey(out[i]), RowKey(out[j]))
        {
          assert out[j] == rest[j - 1];
          if i > 0 {
            assert out[i] == rest[i - 1];
          } else {
            assert out[j] in rest;
          }
        }
    }
  }

  /** `create_climbing_dataset(df_with_type, filter)` */
  function CreateClimbingDataset(recs: seq<ClimbRecord>, filter: string): seq<SummaryRow> {
    var matching := OfType(recs, filter);
    JoinGroups(GroupByKey(matching), GroupByKey(Successful(matching)))
  }

  // ---------------------------------------------------------------------------
  // What the result means
  // ---------------------------------------------------------------------------

  /**
   Every result row describes one group of the records of type `filter`: its
   count, its participant sum, the participant sum of its successful climbs and
   their quotient. The group holds at least one record and one success.
   */
  lemma SummaryRowStatistics(recs: seq<ClimbRecord>, filter: string, s: SummaryRow)
    requires s in CreateClimbingDataset(recs, filter)
    ensures var k, matching := RowKey(s), OfType(recs, filter);
      && s.countOfClimbs == |InGroup(matching, k)| >= 1
      && s.sumTotalRegisteredParticipants == SumPpl(InGroup(matching, k))
      && s.sumSuccessfulRegisteredParticipants == SumPpl(InGroup(Successful(matching), k))
      && |InGroup(Successful(matching), k)| >= 1
      && s.successRatio == Ratio(s.sumSuccessfulRegisteredParticipants, s.sumTotalRegisteredParticipants)
  {
    var matching := OfType(recs, filter);
    var totals, successes := GroupByKey(matching), GroupByKey(Successful(matching));
    JoinGroupsSound(totals, successes);
    var g :| g in totals && Lookup(successes, g.key).Some? && s == Joined(g, Lookup(successes, g.key).value);
    var k := g.key;
    assert k in RecordKeys(matching);
    var w :| w in matching && KeyOf(w) == k;
    assert w in InGroup(matching, k);
    assert k in RecordKeys(Successful(matching));
    var v :| v in Successful(matching) && KeyOf(v) == k;
    assert v in InGroup(Successful(matching), k);
  }

  /**
   A group is emitted exactly when it has a successful climb of type `filter`:
   groups without one are dropped by the inner join, not given a zero row.
   */
  lemma EmittedIffSuccessful(recs: seq<ClimbRecord>, filter: string, k: GroupKey)
    ensures k in OutputKeys(CreateClimbingDataset(recs, filter)) <==>
      exists r :: r in recs && r.activityType == filter && r.result == SUCCESSFUL && KeyOf(r) == k
  {
    var matching := OfType(recs, filter);
    var totals, successes := GroupByKey(matching), GroupByKey(Successful(matching));
    var out := CreateClimbingDataset(recs, filter);
    if k in OutputKeys(out) {
      var s :| s in out && RowKey(s) == k;
      SummaryRowStatistics(recs, filter, s);
      var v := InGroup(Successful(matching), k)[0];
      assert v in InGroup(Successful(matching), k);
    }
    if exists r :: r in recs && r.activityType == filter && r.result == SUCCESSFUL && KeyOf(r) == k {
      var r :| r in recs && r.activityType == filter && r.result == SUCCESSFUL && KeyOf(r) == k;
      assert k in KeySet(successes) by {
        assert r in Successful(matching);
      }
      assert k in KeySet(totals) by {
        assert r in matching;
      }
      var g :| g in totals && g.key == k;
      JoinGroupsComplete(totals, successes);
      assert Joined(g, Lookup(successes, k).value) in out;
    }
  }

  /** Result rows are strictly increasing in `(branch, year)`, so one per group. */
  lemma OutputSortedByBranchYear(recs: seq<ClimbRecord>, filter: string)
    ensures SortedSummary(CreateClimbingDataset(recs, filter))
    ensures var out := CreateClimbingDataset(recs, filter);
      forall i, j :: 0 <= i < j < |out| ==> RowKey(out[i]) != RowKey(out[j])
  {
    var out := CreateClimbingDataset(recs, filter);
    var matching := OfType(recs, filter);
    JoinGroupsSorted(GroupByKey(matching), GroupByKey(Successful(matching)));
    forall i, j | 0 <= i < j < |out|
      ensures RowKey(out[i]) != RowKey(out[j])
    {
      KeyLessAsymmetric(RowKey(out[i]), RowKey(out[j]));
    }
  }

  /** A filter no record's type matches gives an empty result. */
  lemma NoMatchNoRows(recs: seq<ClimbRecord>, filter: string)
    requires forall r :: r in recs ==> r.activityType != filter
    ensures CreateClimbingDataset(recs, filter) == []
  {
  }

  /** With no negative participant counts, no row has more successes than participants. */
  lemma SuccessfulAtMostTotal(recs: seq<ClimbRecord>, filter: string, s: SummaryRow)
    requires forall r :: r in recs ==> r.participantsPlusLeaders >= 0
    requires s in CreateClimbingDataset(recs, filter)
    ensures s.sumSuccessfulRegisteredParticipants <= s.sumTotalRegisteredParticipants
  {
    SummaryRowStatistics(recs, filter, s);
    var group := InGroup(OfType(recs, filter), RowKey(s));
    InGroupSuccessfulCommute(OfType(recs, filter), RowKey(s));
    SuccessfulSumAtMostSum(group);
  }

  /**
   When every record counts at least its leader, every ratio is defined and
   lies in (0, 1].
   */
  lemma RatioInUnitInterval(recs: seq<ClimbRecord>, filter: string, s: SummaryRow)
    requires forall r :: r in recs ==> r.participantsPlusLeaders >= 1
    requires s in CreateClimbingDataset(recs, filter)
    ensures s.sumTotalRegisteredParticipants >= s.sumSuccessfulRegisteredParticipants > 0
    ensures s.successRatio.Some? && 0.0 < s.successRatio.value <= 1.0
  {
    SummaryRowStatistics(recs, filter, s);
    SuccessfulAtMostTotal(recs, filter, s);
    SumPplAtLeastCount(InGroup(Successful(OfType(recs, filter)), RowKey(s)));
    QuotientInUnitInterval(s.sumSuccessfulRegisteredParticipants, s.sumTotalRegisteredParticipants);
  }

  lemma QuotientInUnitInterval(num: int, den: int)
    requires 0 < num <= den
    ensures 0.0 < num as real / den as real <= 1.0
  {
    var q := num as real / den as real;
    assert q * den as real == num as real;
  }

  /** A record of another type anywhere in the input changes nothing. */
  lemma OtherTypesIgnored(a: seq<ClimbRecord>, r: ClimbRecord, b: seq<ClimbRecord>, filter: string)
    requires r.activityType != filter
    ensures CreateClimbingDataset(a + [r] + b, filter) == CreateClimbingDataset(a + b, filter)
  {
    var before, after := OfType(a, filter), OfType(b, filter);
    assert OfType([r], filter) == [] by {
      assert [r][1..] == [];
    }
    assert OfType(a + [r] + b, filter) == before + after by {
      OfTypeConcat(a + [r], b, filter);
      OfTypeConcat(a, [r], filter);
      assert before + [] == before;
    }
    OfTypeConcat(a, b, filter);
  }

  /** Two sorted tables with the same keys whose rows agree key by key are equal. */
  lemma {:induction false} SortedTablesEqual(t: seq<GroupRow>, u: seq<GroupRow>)
    requires SortedTable(t) && SortedTable(u) && KeySet(t) == KeySet(u)
    requires forall g, h :: g in t && h in u && g.key == h.key ==> g == h
    ensures t == u
    decreases |t|
  {
    KeySetEmpty(t);
    KeySetEmpty(u);
    if t != [] {
      assert t[0].key in KeySet(u);
      var j :| 0 <= j < |u| && u[j].key == t[0].key;
      assert u[0].key in KeySet(t);
      var i :| 0 <= i < |t| && t[i].key == u[0].key;
      if i > 0 && j > 0 {
        KeyLessAsymmetric(t[0].key, t[i].key);
      }
      assert t[0] == u[0];
      SortedTail(t);
      SortedTail(u);
      assert t == [t[0]] + t[1..] && u == [u[0]] + u[1..];
      forall x | 1 <= x < |t| ensures t[x].key != t[0].key {
        KeyLessAsymmetric(t[0].key, t[x].key);
      }
      forall x | 1 <= x < |u| ensures u[x].key != u[0].key {
        KeyLessAsymmetric(u[0].key, u[x].key);
      }
      assert KeySet(t[1..]) == KeySet(t) - {t[0].key};
      assert KeySet(u[1..]) == KeySet(u) - {u[0].key};
      SortedTablesEqual(t[1..], u[1..]);
    }
  }

  lemma InGroupPermutation(p: seq<ClimbRecord>, q: seq<ClimbRecord>, k: GroupKey)
    requires multiset(p) == multiset(q)
    ensures |InGroup(p, k)| == |InGroup(q, k)|
    ensures SumPpl(InGroup(p, k)) == SumPpl(InGroup(q, k))
  {
    var gp, gq := InGroup(p, k), InGroup(q, k);
    forall r ensures multiset(gp)[r] == multiset(gq)[r] {
      InGroupCount(p, k, r);
      InGroupCount(q, k, r);
    }
    assert multiset(gp) == multiset(gq);
    SumPplPermutation(gp, gq);
    assert |gp| == |multiset(gp)| && |gq| == |multiset(gq)|;
  }

  /** Records with the same contents, in any order, group into the same table. */
  lemma GroupByKeyPermutation(p: seq<ClimbRecord>, q: seq<ClimbRecord>)
    requires multiset(p) == multiset(q)
    ensures GroupByKey(p) == GroupByKey(q)
  {
    var t, u := GroupByKey(p), GroupByKey(q);
    assert forall r :: r in p <==> r in multiset(p);
    assert forall r :: r in q <==> r in multiset(q);
    assert RecordKeys(p) == RecordKeys(q);
    forall g, h | g in t && h in u && g.key == h.key
      ensures g == h
    {
      InGroupPermutation(p, q, g.key);
    }
    SortedTablesEqual(t, u);
  }

  /**
   The result does not depend on the order of the input records: grouping
   followed by the sort on `(branch, year)` fixes the row order.
   */
  lemma InputOrderIrrelevant(p: seq<ClimbRecord>, q: seq<ClimbRecord>, filter: string)
    requires multiset(p) == multiset(q)
    ensures CreateClimbingDataset(p, filter) == CreateClimbingDataset(q, filter)
  {
    var mp, mq := OfType(p, filter), OfType(q, filter);
    forall r ensures multiset(mp)[r] == multiset(mq)[r] {
      OfTypeCount(p, filter, r);
      OfTypeCount(q, filter, r);
    }
    assert multiset(mp) == multiset(mq);
    GroupByKeyPermutation(mp, mq);
    forall r ensures multiset(Successful(mp))[r] == multiset(Successful(mq))[r] {
      SuccessfulCount(mp, r);
      SuccessfulCount(mq, r);
    }
    assert multiset(Successful(mp)) == multiset(Successful(mq));
    GroupByKeyPermutation(Successful(mp), Successful(mq));
  }

  function SumCounts(table: seq<GroupRow>): int {
    if table == [] then 0 else table[0].count + SumCounts(table[1..])
  }

  function SumSums(table: seq<GroupRow>): int {
    if table == [] then 0 else table[0].sum + SumSums(table[1..])
  }

  lemma {:induction false} AddRecordTotals(table: seq<GroupRow>, r: ClimbRecord)
    ensures SumCounts(AddRecord(table, r)) == SumCounts(table) + 1
    ensures SumSums(AddRecord(table, r)) == SumSums(table) + r.participantsPlusLeaders
  {
    if table != [] && table[0].key != KeyOf(r) && !KeyLess(KeyOf(r), table[0].key) {
      AddRecordTotals(table[1..], r);
    }
  }

  /** The groups partition the records: every record is counted and summed once. */
  lemma {:induction false} GroupsPartitionRecords(recs: seq<ClimbRecord>)
    ensures SumCounts(GroupByKey(recs)) == |recs|
    ensures SumSums(GroupByKey(recs)) == SumPpl(recs)
  {
    if recs != [] {
      GroupsPartitionRecords(recs[1..]);
      AddRecordTotals(GroupByKey(recs[1..]), recs[0]);
    }
  }
}
