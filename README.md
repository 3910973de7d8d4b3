# Climbing-trip summaries, modelled in Dafny

This project models the one pipeline of the climbing-data repository (`main.py`).
The pipeline reads a `data` sheet of climbing trips and a `mapping` sheet that
assigns each activity a route type, and prepares one table from them. For each
route type it then builds a summary table, grouped by year and by branch (a
regional club chapter): the number of climbs, the sum of participants
(leaders included), the sum of participants on successful climbs, and the
ratio of the two.

The model is pure, as the source is: the source is made of declarative
dataframe expressions, so the model uses datatypes, recursive functions over
sequences, and lemmas.

- `records.dfy` (`Records`): the rows. A data row, a mapping row, a joined row
  and a prepared record (`ClimbRecord`), the key `GroupKey(year, branch)`, and
  the constant `"Successful"`.
- `key_order.dfy` (`KeyOrder`): the `(branch, year)` sort order, branch first.
  Strings compare lexicographically by code point. This matches the order of
  their UTF-8 bytes, with a proper prefix sorting first. The module proves this
  is a strict total order.
- `preparation.dfy` (`Preparation`): the set-up expression of the main block.
  It does the inner join with the mapping on `activity`, then
  `unique(["route", "start_date"])`, then adds `year` and
  `participants_plus_leaders = registered_participants + 1`.
- `aggregation.dfy` (`Aggregation`): `create_climbing_dataset`, in two halves.
  - The specification: the filters `OfType`, `Successful` and `InGroup`, and
    the sum `SumPpl`.
  - The computation: `GroupByKey` folds each record into an accumulator table
    kept sorted by `(branch, year)`. This is a group-by followed by the sort.
    `JoinGroups` is the inner join on `(year, branch)`, and `Ratio` is the
    success ratio.
  - The predicate `Tabulates` connects the two halves. The theorems then
    describe every result row in terms of the specification.
- `pipeline.dfy` (`Pipeline`): preparation followed by aggregation, with
  end-to-end theorems. It also holds worked examples, proved on concrete rows.

Conventions:

- The success ratio is an exact `real`. It is `Some(successful / total)`, or
  `None` when the total is 0, where a float division would produce a
  non-finite value.
- `registered_participants` is an unbounded `int`, because the source does not
  check its sign. The theorems that need non-negative counts say so in their
  `requires`.

## Model

| member | source | states |
|---|---|---|
| `KeyOrder.StringLess` | main.py:19 | string order used by the sort (code point by code point, a proper prefix first); no contract of its own; `StringLessIrreflexive`, `StringLessTransitive` and `StringLessTotal` make it a strict total order |
| `KeyOrder.KeyLess` | main.py:19 | the order of `sort("branch", "year")`, branch first, then year; no contract of its own; `KeyLessTransitive`, `KeyLessTotal` and `KeyLessAsymmetric` describe it |
| `KeyOrder.KeyLessTransitive` | main.py:19 | the `(branch, year)` sort order is transitive |
| `KeyOrder.KeyLessTotal` | main.py:19 | any two distinct keys are ordered one way or the other |
| `KeyOrder.KeyLessAsymmetric` | main.py:19 | distinct keys are ordered only one way, and a key is never below itself |
| `Preparation.Derive` | main.py:54-56 | adds `year = start_date.year` and `participants_plus_leaders = registered_participants + 1`; no contract of its own; `PreparedRecordsWellFormed` and `PreparedParticipantsPositive` state these columns |
| `Preparation.DeriveAll` | main.py:54-56 | applies `Derive` to every row; no contract of its own; `PreparedRecordsWellFormed` describes its output |
| `Preparation.Prepare` | main.py:47-56 | the prepared table: type join, then de-duplication, then the derived columns; no contract of its own; `PreparedRecordsWellFormed`, `PreparedRouteDatesUnique`, `PreparedCoversMappedRows`, `PreparedParticipantsPositive` and `UnmappedActivityIgnored` describe it |
| `Preparation.TypeRow` | main.py:47 | one data row joins to exactly the mapping rows of its activity, taking each one's type |
| `Preparation.JoinType` | main.py:47 | the inner join yields exactly the pairs of a data row and a mapping row with the same activity |
| `Preparation.JoinTypeConcat` | main.py:47 | the join works row by row: joining a concatenation gives the concatenation of the joins |
| `Preparation.UnmappedRowDropped` | main.py:47 | a data row whose activity the mapping lacks produces no joined row |
| `Preparation.TypeRowAtMostOne` | main.py:47 | when the mapping lists each activity once, the join never duplicates a data row |
| `Preparation.UniqueByRouteDate` | main.py:55 | after de-duplication no two rows share `(route, start_date)`, every kept row is an input row, and every input pair is still represented |
| `Preparation.PreparedRecordsWellFormed` | main.py:47-56 | every prepared record comes from a data row, carries its activity's type from the mapping, has `year = start_date.year`, and has `participants_plus_leaders = registered_participants + 1` |
| `Preparation.PreparedRouteDatesUnique` | main.py:55 | the prepared table has one record per `(route, start_date)` |
| `Preparation.PreparedCoversMappedRows` | main.py:47-55 | every `(route, start_date)` pair of a data row with a mapped activity reaches the prepared table |
| `Preparation.PreparedParticipantsPositive` | main.py:56 | with non-negative registrations, every prepared record counts at least one person, its leader |
| `Preparation.UnmappedActivityIgnored` | main.py:47 | adding a data row of an unmapped activity anywhere leaves the prepared table unchanged |
| `Aggregation.SumPpl` | main.py:15-17 | `pl.sum("participants_plus_leaders")`; no contract of its own; `SumPplConcat`, `SumPplPermutation`, `SuccessfulSumAtMostSum` and `SumPplAtLeastCount` describe it |
| `Aggregation.Bumped` | main.py:13-17 | the accumulator of a group after one more record: count plus 1, sum plus its `participants_plus_leaders`; no contract of its own; `AddRecordLookup` states its use |
| `Aggregation.AddRecord` | main.py:12-19 | folds one record into the sorted grouped table; no contract of its own; `AddRecordKeys`, `AddRecordOthers`, `AddRecordSorted`, `AddRecordLookup` and `AddRecordTabulates` describe it |
| `Aggregation.OfType` | main.py:10 | the filtered table holds exactly the records whose `type` equals the filter |
| `Aggregation.Successful` | main.py:23 | the success subset holds exactly the records whose `result` is `"Successful"` |
| `Aggregation.InGroup` | main.py:12 | a group holds exactly the records with that `(year, branch)` |
| `Aggregation.Lookup` | main.py:33-34 | the join finds a row for a key exactly when the table has that key, and the row it finds carries that key |
| `Aggregation.LookupSorted` | main.py:33-34 | in a grouped table there is one row per key, and it is the one the join finds |
| `Aggregation.AddRecordKeys` | main.py:12 | folding a record into a grouped table adds the record's key and no other |
| `Aggregation.AddRecordOthers` | main.py:12-17 | folding a record leaves the rows of the other keys unchanged |
| `Aggregation.AddRecordSorted` | main.py:19 | folding a record keeps the grouped table strictly sorted by `(branch, year)` |
| `Aggregation.AddRecordLookup` | main.py:13-17 | folding a record adds one to its group's count and its `participants_plus_leaders` to its group's sum, or starts that group at 1 and that value |
| `Aggregation.AddRecordTabulates` | main.py:11-20 | folding a record into the grouped table of some records gives the grouped table of those records plus the new one |
| `Aggregation.GroupByKey` | main.py:11-20 | the grouped table is strictly sorted by `(branch, year)` and has a row for exactly the keys that occur. Each row's count is the number of records with that key, and its sum is their `participants_plus_leaders` total |
| `Aggregation.GroupsPartitionRecords` | main.py:12-17 | the groups partition the records: the counts add up to the number of records, the sums to their total |
| `Aggregation.SortedTablesEqual` | main.py:19 | two sorted grouped tables with the same keys, whose rows agree key by key, are equal |
| `Aggregation.GroupByKeyPermutation` | main.py:11-20 | grouping then sorting ignores the input order: records with the same contents give the same table |
| `Aggregation.Joined` | main.py:33-39 | one joined row: the total group's key, count and sum, the successful group's sum and their ratio; no contract of its own; `JoinGroupsSound` and `SummaryRowStatistics` describe it |
| `Aggregation.JoinGroups` | main.py:33-39 | the inner join of the grouped tables on `(year, branch)`, in left order; no contract of its own; `JoinGroupsSound`, `JoinGroupsComplete` and `JoinGroupsSorted` describe it |
| `Aggregation.CreateClimbingDataset` | main.py:9-41 | the whole aggregation; no contract of its own; `SummaryRowStatistics`, `EmittedIffSuccessful`, `OutputSortedByBranchYear`, `NoMatchNoRows`, `SuccessfulAtMostTotal`, `RatioInUnitInterval`, `OtherTypesIgnored` and `InputOrderIrrelevant` describe it |
| `Aggregation.Ratio` | main.py:36-39 | the ratio exists exactly when the total is non-zero, and then ratio times total equals the successful sum |
| `Aggregation.JoinGroupsSound` | main.py:33-34 | every joined row combines a total row with the successful row of the same key |
| `Aggregation.JoinGroupsComplete` | main.py:33-34 | every total row that has a successful row of the same key is joined |
| `Aggregation.JoinGroupsSorted` | main.py:33-34 | joining a table sorted by `(branch, year)` gives rows sorted the same way |
| `Aggregation.SummaryRowStatistics` | main.py:9-41 | every result row describes a group of the records of the filter type. `count_of_climbs` is the number of its records (at least 1). `sum_total` is their participant sum. `sum_successful` is the sum over its "Successful" records (at least one). `success_ratio` is the exact quotient |
| `Aggregation.EmittedIffSuccessful` | main.py:22-34 | a `(year, branch)` appears in the result if and only if some record of the filter type with that key is "Successful". A group with no success is dropped, not reported as zero |
| `Aggregation.OutputSortedByBranchYear` | main.py:19-34 | result rows are strictly increasing in `(branch, year)`, so there is one row per group |
| `Aggregation.NoMatchNoRows` | main.py:10 | a filter that matches no record's type gives an empty result |
| `Aggregation.SuccessfulSumAtMostSum` | main.py:22-29 | with non-negative counts, the participants on successful trips never exceed all participants |
| `Aggregation.InGroupSuccessfulCommute` | main.py:22-24 | taking the successes of a group gives the same records as taking the group of the successes |
| `Aggregation.SumPplAtLeastCount` | main.py:56 | when each record counts at least its leader, a group's sum is at least its number of records |
| `Aggregation.SuccessfulAtMostTotal` | main.py:15-29 | with non-negative counts, every result row has `sum_successful <= sum_total` |
| `Aggregation.QuotientInUnitInterval` | main.py:36-39 | arithmetic helper of `RatioInUnitInterval`: a quotient with `0 < num <= den` lies in (0, 1] |
| `Aggregation.RatioInUnitInterval` | main.py:36-39 | when each record counts at least one person, every result row has `0 < sum_successful <= sum_total`, and a defined ratio in (0, 1] |
| `Aggregation.OtherTypesIgnored` | main.py:10 | a record of another type inserted anywhere leaves the result unchanged: only records of the filter type contribute |
| `Aggregation.InputOrderIrrelevant` | main.py:11-31 | the result depends only on the contents of the input, not on the order of its rows |
| `Pipeline.ClimbingSummary` | main.py:47-61 | one output table: `Prepare` followed by `CreateClimbingDataset`; no contract of its own; `SummaryRatiosInUnitInterval`, `UnmappedActivityNeverSummarised` and `ScenarioDuplicateTrip` describe it |
| `Pipeline.SummaryRatiosInUnitInterval` | main.py:36-39 | for prepared data with non-negative registrations, every emitted row has `0 < sum_successful <= sum_total` and a ratio in (0, 1]. This uses the +1 leader of main.py:56 |
| `Pipeline.UnmappedActivityNeverSummarised` | main.py:47 | a data row of an unmapped activity never affects any summary table |
| `Pipeline.ScenarioOneGroup` | main.py:9-41 | one successful trip (3 registered) and one failed trip (2 registered) of Ice/2020/North give the single row `2020, North, 2, 7, 4, 4/7` |
| `Pipeline.ScenarioNoSuccess` | main.py:33-34 | the same two trips, both failed, give an empty result |
| `Pipeline.TwoBranchesGrouped` | main.py:11-20 | the grouped table of one successful South rock climb and one successful North rock climb lists North first |
| `Pipeline.ScenarioTwoBranches` | main.py:9-41 | those two climbs give two rows with ratio 1, ordered North, South |
| `Pipeline.DuplicateTripJoined` | main.py:47 | both copies of a listed trip survive the join |
| `Pipeline.DuplicateRowCollapsed` | main.py:55 | de-duplication collapses two equal rows into one |
| `Pipeline.DuplicateTripPrepared` | main.py:47-56 | a trip listed twice becomes a single prepared record |
| `Pipeline.ScenarioDuplicateTrip` | main.py:45-61 | a trip listed twice is summarised as one climb |

## Left out

- Reading the workbook and writing the CSV files (main.py:45-46, 62-72) are
  I/O through a library that is not shown. So is building the paths with
  `os.path` (main.py:4-7).
- Parsing `start_date` text with `%Y-%m-%d` (main.py:52) is not modelled. A
  data row carries an already-parsed `Date`, and `year` is that date's year
  (main.py:54). A malformed date, which aborts the source, has no counterpart
  here.
- The `.round(2)` of the ratio (main.py:39) is left out. The ratio is kept as
  an exact `real`, so the theorems bound the exact quotient, not its rounded
  value.
- Aggregation.Ratio: does not model float division by zero. A zero total
  gives `None`, where the source would give infinity or NaN. This only happens
  when negative registration counts cancel the leaders.
- Preparation.UniqueByRouteDate: the source keeps an arbitrary row of each
  `(route, start_date)` pair and promises no row order. The model keeps the
  first row, in input order. Only the facts that hold for any such choice are
  proved: unique keys, kept rows taken from the input, and every pair still
  represented.
- The join on `(year, branch)` (main.py:33-34) is modelled as keeping the
  order of its left table, which `sort("branch", "year")` has ordered. The
  sortedness of the result rests on that assumption about the library's join.
  The right table has one row per key, so returning the first matching row is
  the same as returning all of them.
- `year` and `participants_plus_leaders` are added after de-duplication rather
  than around it (main.py:54-56). Both are computed per row, and `year` comes
  from `start_date`, which is part of the de-duplication key, so the result is
  the same.
- Running the three fixed invocations ("Ice", "Ice cragging", "Rock";
  main.py:59-72) is orchestration. `Pipeline.ClimbingSummary` is one such
  invocation for any filter value.
- Byte-identical output across runs is not stated. Every member is a function,
  so equal inputs give equal tables; the CSV serialisation is not modelled.
- The code sorts only the two grouped tables (main.py:19, 30), not the joined
  result; the model follows the code.
- Every emitted row has a successful participant only when registration counts
  are non-negative, so the ratio theorems assume it.
- Empty spreadsheet cells (nulls) are not modelled: every field of every row
  is assumed present. The source behaves differently on them, and the model
  does not capture it:
  - a null `registered_participants` makes `participants_plus_leaders` null
    (main.py:56); `pl.sum` then skips that row while `pl.count()` still counts
    it (main.py:14-15, 26). One "Successful" trip with an empty count gives a
    row with `count_of_climbs = 1`, both sums 0 and a NaN ratio, outside the
    (0, 1] bound of `Pipeline.SummaryRatiosInUnitInterval`;
  - a null `branch` or `year` forms a group of its own, which the sort puts
    first (main.py:19);
  - a null `type` or `result` compares as not equal (main.py:10, 23), which
    the model matches by treating such a record as another type or outcome.
