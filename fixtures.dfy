/** The match record that flows from the club site through the server to the
    display. Text fields that the site leaves out or sets to `null` are the
    empty string here: every test the code applies to them (`===` against a
    non-empty literal, `includes`, truthiness) treats `""`, `null` and a
    missing field alike. */
module Fixtures {
  import opened Wrappers

  datatype MatchRecord = MatchRecord(
    date: string,        // civil date "dd-mm-yyyy" in Amsterdam
    time: string,        // civil time "HH:mm", "" when absent
    homeTeam: string,
    awayTeam: string,
    venue: string,       // location?.name
    field: string,
    category: string,
    subCategory: string)

  /** A record with the UTC instant the server attaches (`{ ...match, utcDate }`),
      in milliseconds since the epoch; `None` is `null`. The display receives the
      same object, its `utcDate` serialised as an ISO instant. */
  datatype Match = Match(record: MatchRecord, utcDate: Option<int>)

  predicate Timed(m: Match)
  {
    m.utcDate.Some?
  }

  /** The instant used for ordering (`a.utcDate - b.utcDate`); only ever read
      for timed matches. */
  function Instant(m: Match): int
  {
    if m.utcDate.Some? then m.utcDate.value else 0
  }
}
