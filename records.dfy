/** The rows that flow through the climbing-trip pipeline. */
module Records {

  datatype Option<T> = None | Some(value: T)

  /** A calendar date, as produced by parsing a `YYYY-MM-DD` start date. */
  datatype Date = Date(year: int, month: int, day: int)

  /** A row of the `data` sheet (its `start_date` already parsed). */
  datatype DataRow = DataRow(
    activity: string,
    route: string,
    startDate: Date,
    branch: string,
    result: string,
    registeredParticipants: int)

  /** A row of the `mapping` sheet: which route type an activity belongs to. */
  datatype MappingRow = MappingRow(activity: string, activityType: string)

  /** A data row after the inner join with the mapping on `activity`. */
  datatype TypedRow = TypedRow(
    activity: string,
    route: string,
    startDate: Date,
    branch: string,
    result: string,
    registeredParticipants: int,
    activityType: string)

  /** A row of the prepared table handed to the aggregation. */
  datatype ClimbRecord = ClimbRecord(
    activity: string,
    route: string,
    startDate: Date,
    year: int,
    branch: string,
    activityType: string,
    result: string,
    registeredParticipants: int,
    participantsPlusLeaders: int)

  /** The composite grouping key `(year, branch)`. */
  datatype GroupKey = GroupKey(year: int, branch: string)

  function KeyOf(r: ClimbRecord): GroupKey {
    GroupKey(r.year, r.branch)
  }

  /** The `result` value that marks a trip as a success. */
  const SUCCESSFUL: string := "Successful"
}
