// A row of the `motogp_results` table: one per (championship, calendar,
// rider), with the qualifying, sprint and race position and points. `None`
// stands for a field that is absent (undefined) or null.
module Records {
  import opened Wrappers

  datatype ResultKey = ResultKey(championshipId: int, riderId: int, calendarId: int)

  datatype ResultRow = ResultRow(
    championshipId: int,
    calendarId: int,
    riderId: int,
    qualifyingPosition: Option<int>,
    qualifyingPoints: Option<int>,
    sprintPosition: Option<int>,
    sprintPoints: Option<int>,
    racePosition: Option<int>,
    racePoints: Option<int>)
  {
    function Key(): ResultKey {
      ResultKey(championshipId, riderId, calendarId)
    }
  }

  /** A row carrying only its key; the scrapers fill one pair of fields on top of it. */
  function KeyOnly(championshipId: int, calendarId: int, riderId: int): ResultRow {
    ResultRow(championshipId, calendarId, riderId, None, None, None, None, None, None)
  }
}
