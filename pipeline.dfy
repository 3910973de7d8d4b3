/**
 The whole program for one route type: prepare the records, then summarise
 them. Also worked examples on concrete rows.
 */
module Pipeline {
  import opened Records
  import opened Preparation
  import opened Aggregation

  /** One output table: the prepared records summarised for the route type `filter`. */
  function ClimbingSummary(data: seq<DataRow>, mapping: seq<MappingRow>, filter: string): seq<SummaryRow> {
    CreateClimbingDataset(Prepare(data, mapping), filter)
  }

  /**
   Since every prepared record counts its leader, every emitted row has a
   positive total, at least one successful participant, and a defined ratio in
   (0, 1].
   */
  lemma SummaryRatiosInUnitInterval(data: seq<DataRow>, mapping: seq<MappingRow>, filter: string, s: SummaryRow)
    requires forall d :: d in data ==> d.registeredParticipants >= 0
    requires s in ClimbingSummary(data, mapping, filter)
    ensures 0 < s.sumSuccessfulRegisteredParticipants <= s.sumTotalRegisteredParticipants
    ensures s.successRatio.Some? && 0.0 < s.successRatio.value <= 1.0
  {
    PreparedParticipantsPositive(data, mapping);
    RatioInUnitInterval(Prepare(data, mapping), filter, s);
  }

  /** A data row of an activity absent from the mapping never reaches any output table. */
  lemma UnmappedActivityNeverSummarised(a: seq<DataRow>, d: DataRow, b: seq<DataRow>, mapping: seq<MappingRow>, filter: string)
    requires forall m :: m in mapping ==> m.activity != d.activity
    ensures ClimbingSummary(a + [d] + b, mapping, filter) == ClimbingSummary(a + b, mapping, filter)
  {
    UnmappedActivityIgnored(a, d, b, mapping);
  }

  /** One successful and one failed ice climb of the same year and branch. */
  lemma ScenarioOneGroup()
    ensures var ok := ClimbRecord("Ice climb", "Gully", Date(2020, 1, 5), 2020, "North", "Ice", SUCCESSFUL, 3, 4);
      var failed := ClimbRecord("Ice climb", "Falls", Date(2020, 2, 9), 2020, "North", "Ice", "Failed", 2, 3);
      CreateClimbingDataset([ok, failed], "Ice") == [SummaryRow(2020, "North", 2, 7, 4, Some(4.0 / 7.0))]
  {
    var ok := ClimbRecord("Ice climb", "Gully", Date(2020, 1, 5), 2020, "North", "Ice", SUCCESSFUL, 3, 4);
    var failed := ClimbRecord("Ice climb", "Falls", Date(2020, 2, 9), 2020, "North", "Ice", "Failed", 2, 3);
    var recs := [ok, failed];
    var k := GroupKey(2020, "North");
    assert recs[1..] == [failed] && [failed][1..] == [] && [ok][1..] == [];
    assert "Failed" != SUCCESSFUL;
    assert OfType([failed], "Ice") == [failed] + OfType([], "Ice") == [failed];
    assert OfType(recs, "Ice") == [ok] + OfType([failed], "Ice") == recs;
    assert Successful([failed]) == [] + Successful([]) == [];
    assert Successful(recs) == [ok] + Successful([failed]) == [ok];
    assert GroupByKey([failed]) == AddRecord([], failed) == [GroupRow(k, 1, 3)];
    assert GroupByKey(recs) == AddRecord([GroupRow(k, 1, 3)], ok) == [GroupRow(k, 2, 7)];
    assert GroupByKey([ok]) == AddRecord([], ok) == [GroupRow(k, 1, 4)];
    assert Lookup([GroupRow(k, 1, 4)], k) == Some(GroupRow(k, 1, 4));
    assert JoinGroups([GroupRow(k, 2, 7)], [GroupRow(k, 1, 4)])
        == [Joined(GroupRow(k, 2, 7), GroupRow(k, 1, 4))] + JoinGroups([], [GroupRow(k, 1, 4)]);
  }

  /** The same climbs, both failed: the group is dropped, not reported with zero successes. */
  lemma ScenarioNoSuccess()
    ensures var a := ClimbRecord("Ice climb", "Gully", Date(2020, 1, 5), 2020, "North", "Ice", "Failed", 3, 4);
      var b := ClimbRecord("Ice climb", "Falls", Date(2020, 2, 9), 2020, "North", "Ice", "Failed", 2, 3);
      CreateClimbingDataset([a, b], "Ice") == []
  {
    var a := ClimbRecord("Ice climb", "Gully", Date(2020, 1, 5), 2020, "North", "Ice", "Failed", 3, 4);
    var b := ClimbRecord("Ice climb", "Falls", Date(2020, 2, 9), 2020, "North", "Ice", "Failed", 2, 3);
    assert [a, b][1..] == [b] && [b][1..] == [];
    assert "Failed" != SUCCESSFUL;
    assert OfType([b], "Ice") == [b] + OfType([], "Ice") == [b];
    assert OfType([a, b], "Ice") == [a] + OfType([b], "Ice") == [a, b];
    assert Successful([b]) == [] + Successful([]) == [];
    assert Successful([a, b]) == [] + Successful([b]) == [];
    var totals := GroupByKey([a, b]);
    assert GroupByKey([]) == [];
    assert forall g :: g in totals ==> Lookup([], g.key) == None;
  }

  /** The grouped table of two successful rock climbs of different branches. */
  lemma TwoBranchesGrouped(south: ClimbRecord, north: ClimbRecord)
    requires south == ClimbRecord("Rock climb", "Slab", Date(2021, 6, 1), 2021, "South", "Rock", SUCCESSFUL, 2, 3)
    requires north == ClimbRecord("Rock climb", "Arete", Date(2021, 7, 1), 2021, "North", "Rock", SUCCESSFUL, 1, 2)
    ensures OfType([south, north], "Rock") == [south, north]
    ensures Successful([south, north]) == [south, north]
    ensures GroupByKey([south, north]) == [GroupRow(KeyOf(north), 1, 2), GroupRow(KeyOf(south), 1, 3)]
  {
    var recs := [south, north];
    assert recs[1..] == [north] && [north][1..] == [];
    assert OfType([north], "Rock") == [north] + OfType([], "Rock");
    assert Successful([north]) == [north] + Successful([]);
    assert !KeyOrder.StringLess("South", "North");
    assert GroupByKey([north]) == AddRecord([], north);
    assert GroupByKey(recs) == AddRecord([GroupRow(KeyOf(north), 1, 2)], south);
  }

  /** Successful rock climbs of two branches in one year come out ordered by branch. */
  lemma ScenarioTwoBranches()
    ensures var south := ClimbRecord("Rock climb", "Slab", Date(2021, 6, 1), 2021, "South", "Rock", SUCCESSFUL, 2, 3);
      var north := ClimbRecord("Rock climb", "Arete", Date(2021, 7, 1), 2021, "North", "Rock", SUCCESSFUL, 1, 2);
      CreateClimbingDataset([south, north], "Rock") ==
        [SummaryRow(2021, "North", 1, 2, 2, Some(1.0)), SummaryRow(2021, "South", 1, 3, 3, Some(1.0))]
  {
    var south := ClimbRecord("Rock climb", "Slab", Date(2021, 6, 1), 2021, "South", "Rock", SUCCESSFUL, 2, 3);
    var north := ClimbRecord("Rock climb", "Arete", Date(2021, 7, 1), 2021, "North", "Rock", SUCCESSFUL, 1, 2);
    TwoBranchesGrouped(south, north);
    var table := [GroupRow(KeyOf(north), 1, 2), GroupRow(KeyOf(south), 1, 3)];
    assert Lookup(table, KeyOf(north)) == Some(table[0]);
    assert Lookup(table, KeyOf(south)) == Some(table[1]);
    assert table[1..] == [table[1]] && table[1..][1..] == [];
    assert JoinGroups(table[1..], table) == [Joined(table[1], table[1])] + JoinGroups([], table);
    assert JoinGroups(table, table) == [Joined(table[0], table[0])] + JoinGroups(table[1..], table);
  }

  /** Both copies of a listed trip survive the type join. */
  lemma DuplicateTripJoined(trip: DataRow, mapping: seq<MappingRow>)
    requires trip == DataRow("Ice climb", "Gully", Date(2020, 1, 5), "North", SUCCESSFUL, 3)
    requires mapping == [MappingRow("Ice climb", "Ice")]
    ensures JoinType([trip, trip], mapping) == [WithType(trip, "Ice"), WithType(trip, "Ice")]
  {
    var typed := WithType(trip, "Ice");
    assert mapping[1..] == [];
    assert TypeRow(trip, mapping) == [typed] + TypeRow(trip, []);
    assert [trip, trip][1..] == [trip] && [trip][1..] == [];
    assert JoinType([trip], mapping) == [typed] + JoinType([], mapping);
    assert JoinType([trip, trip], mapping) == [typed] + JoinType([trip], mapping);
  }

  /** De-duplication collapses two equal rows into one. */
  lemma DuplicateRowCollapsed(typed: TypedRow)
    ensures UniqueByRouteDate([typed, typed]) == [typed]
  {
    assert [typed, typed][..1] == [typed] && [typed][..0] == [];
    assert UniqueByRouteDate([typed]) == [typed];
    assert HasRouteDate([typed], RouteDate(typed));
  }

  /** The prepared table of a data sheet that lists one trip twice. */
  lemma DuplicateTripPrepared(trip: DataRow, mapping: seq<MappingRow>)
    requires trip == DataRow("Ice climb", "Gully", Date(2020, 1, 5), "North", SUCCESSFUL, 3)
    requires mapping == [MappingRow("Ice climb", "Ice")]
    ensures Prepare([trip, trip], mapping) == [Derive(WithType(trip, "Ice"))]
  {
    DuplicateTripJoined(trip, mapping);
    DuplicateRowCollapsed(WithType(trip, "Ice"));
  }

  /** Two copies of one trip in the data sheet are summarised as a single climb. */
  lemma ScenarioDuplicateTrip()
    ensures var trip := DataRow("Ice climb", "Gully", Date(2020, 1, 5), "North", SUCCESSFUL, 3);
      ClimbingSummary([trip, trip], [MappingRow("Ice climb", "Ice")], "Ice") ==
        [SummaryRow(2020, "North", 1, 4, 4, Some(1.0))]
  {
    var trip := DataRow("Ice climb", "Gully", Date(2020, 1, 5), "North", SUCCESSFUL, 3);
    var mapping := [MappingRow("Ice climb", "Ice")];
    DuplicateTripPrepared(trip, mapping);
    var r := Derive(WithType(trip, "Ice"));
    var g := GroupRow(KeyOf(r), 1, 4);
    assert [r][1..] == [];
    assert OfType([r], "Ice") == [r] + OfType([], "Ice");
    assert Successful([r]) == [r] + Successful([]);
    assert GroupByKey([r]) == AddRecord([], r) == [g];
    assert Lookup([g], g.key) == Some(g);
    assert JoinGroups([g], [g]) == [Joined(g, g)] + JoinGroups([], [g]);
  }
}
