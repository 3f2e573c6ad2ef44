/** The report settings the tracker consults: per-tag policies, the holiday
    tag, the required work time per weekday, and three queries whose
    implementation lives outside the modelled files and so are parameters. */
module Settings {
  import opened Calendar

  /** The policy of one tag. `priority` decides conflicts; `fullDay` marks
      tags of whole-day segments; the `track...` flags say how the time of a
      tagged segment counts in the daily summary. */
  datatype TagSettings = TagSettings(priority: int, fullDay: bool, onlyCoverWorkDays: bool,
                                     trackWorkTime: bool, trackWorkTimePassive: bool,
                                     trackBreakTime: bool, trackOverTime: bool)

  /** `isWorkDay` is asked with a day index, `getTag` with one tag name, and
      `highestPriorityTag` with the set of a day's tags (restricted to full-day
      tags, as the summary asks for). `worktimePerWeekday[w]` is the required
      work time in microseconds on weekday `w` (0 = Monday). */
  datatype ReportSettings = ReportSettings(
    tagSettings: map<string, TagSettings>,
    holidayTag: string,
    worktimePerWeekday: seq<int>,
    isWorkDay: int -> bool,
    getTag: string -> TagSettings,
    highestPriorityTag: set<string> -> TagSettings)

  /** A required work time for each of the seven weekdays. */
  predicate ValidSettings(rs: ReportSettings) {
    |rs.worktimePerWeekday| == 7
  }

  /** The required work time on day `d`. */
  function RequiredWork(rs: ReportSettings, d: int): int
    requires ValidSettings(rs)
  {
    rs.worktimePerWeekday[Weekday(d)]
  }
}
