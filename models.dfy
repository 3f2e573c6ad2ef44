/** The records of timeturner/models.py: stored segments, the parameters of
    a new segment and the daily summary, with the field validators of
    `TimeSegment` and its `duration`. */
module Models {
  import opened Wrappers
  import opened Calendar
  import Strings

  datatype DayType = Work | Holiday | Vacation | Weekend

  /** A `TimeSegment`: a span of time with an optional end (still running). */
  datatype Segment = Segment(start: Timestamp, end: Option<Timestamp>, passive: bool,
                             tags: seq<string>, description: Option<string>)

  /** `TimeSegment()` with only a start: the field defaults. */
  function NewSegment(start: Timestamp): (s: Segment)
    ensures s.start == start && s.end.None? && !s.passive && s.tags == [] && s.description.None?
  {
    Segment(start, None, false, [], None)
  }

  /** A `PensiveRow`: a segment as stored, with its primary key and the
      `full_days` flag the table carries. */
  datatype Row = Row(pk: int, start: Timestamp, end: Option<Timestamp>, passive: bool,
                     fullDays: bool, tags: seq<string>, description: Option<string>)

  /** `NewSegmentParams`, with `full_days` (default false) as its callers use it. */
  datatype NewSegmentParams = NewSegmentParams(start: Timestamp, end: Option<Timestamp>,
                                               tags: seq<string>, description: string,
                                               passive: bool, fullDays: bool)

  /** `NewSegmentParams(start=..., end=..., tags=...)`: description "", not
      passive, not full days. */
  function Params(start: Timestamp, end: Option<Timestamp>, tags: seq<string>): (p: NewSegmentParams)
    ensures p.start == start && p.end == end && p.tags == tags
    ensures p.description == "" && !p.passive && !p.fullDays
  {
    NewSegmentParams(start, end, tags, "", false, false)
  }

  /** A `DailySummary`. Durations are in microseconds; `start` and `end` are
      times of day in microseconds since midnight. */
  datatype DailySummary = DailySummary(day: int, dayType: DayType, workTime: int, breakTime: int,
                                       overTime: int, start: Option<int>, end: Option<int>,
                                       description: Option<string>, byTag: map<string, int>)

  /** `DailySummary(day=day)`: the field defaults. */
  function EmptySummary(day: int): (s: DailySummary)
    ensures s.day == day && s.dayType == Work
    ensures s.workTime == 0 && s.breakTime == 0 && s.overTime == 0
    ensures s.start.None? && s.end.None? && s.description.None? && s.byTag == map[]
  {
    DailySummary(day, Work, 0, 0, 0, None, None, None, map[])
  }

  // ---------------------------------------------------------------------
  // validators

  /** What a caller may pass for `start` or `end`: a datetime, or a string
      handed to `datetime.fromisoformat`. */
  datatype TimeInput = At(t: Timestamp) | Text(s: string)

  /** `parse_start`: a datetime passes through; a string is parsed by
      `fromIso` (the standard library's `fromisoformat`), whose failure is a
      `ValueError`. */
  function ParseStart(value: TimeInput, fromIso: string -> Option<Timestamp>): (r: Result<Timestamp>)
    ensures value.At? ==> r == Ok(value.t)
    ensures value.Text? ==> (r.Ok? <==> fromIso(value.s).Some?)
    ensures r.Err? ==> r.error == ValueError
  {
    match value
    case At(t) => Ok(t)
    case Text(s) =>
      match fromIso(s)
      case Some(t) => Ok(t)
      case None => Err(ValueError)
  }

  /** `parse_end`: `None` stays `None`, anything else is parsed as a start. */
  function ParseEnd(value: Option<TimeInput>, fromIso: string -> Option<Timestamp>): (r: Result<Option<Timestamp>>)
    ensures value.None? ==> r == Ok(None)
    ensures value.Some? ==> match ParseStart(value.value, fromIso)
                            case Ok(t) => r == Ok(Some(t))
                            case Err(e) => r == Err(e)
  {
    match value
    case None => Ok(None)
    case Some(v) =>
      match ParseStart(v, fromIso)
      case Ok(t) => Ok(Some(t))
      case Err(e) => Err(e)
  }

  /** What a caller may pass for `tags`. */
  datatype TagsInput = NoTags | TagText(s: string) | TagList(l: seq<string>)

  /** Python's truth value of the `tags` argument. */
  predicate Falsy(value: TagsInput) {
    value.NoTags? || (value.TagText? && value.s == "") || (value.TagList? && value.l == [])
  }

  /** `parse_tags`: every falsy value gives an empty list, a string is split
      on ",", and a list is kept as it is. */
  function ParseTags(value: TagsInput): (r: seq<string>)
    ensures Falsy(value) ==> r == []
    ensures !Falsy(value) && value.TagList? ==> r == value.l
    ensures !Falsy(value) && value.TagText? ==> |r| >= 1 && Strings.Join(r, ',') == value.s
    ensures forall i :: 0 <= i < |r| && value.TagText? ==> ',' !in r[i]
  {
    if Falsy(value) then []
    else match value
      case TagText(s) => Strings.JoinSplit(s, ','); Strings.Split(s, ',')
      case TagList(l) => l
  }

  /** Tags joined with "," and parsed back are the same tags, as long as no
      tag holds a comma and the list is not a lone empty tag. */
  lemma ParseJoinedTags(tags: seq<string>)
    requires |tags| >= 1 && tags != [""]
    requires forall i :: 0 <= i < |tags| ==> ',' !in tags[i]
    ensures ParseTags(TagText(Strings.Join(tags, ','))) == tags
  {
    Strings.SplitJoin(tags, ',');
    if |tags| > 1 {
      assert |Strings.Join(tags, ',')| > 0;
    }
  }

  // ---------------------------------------------------------------------
  // duration

  /** `duration`: up to the end, or up to `now` (the wall clock, passed in)
      while the segment is running. */
  function Duration(start: Timestamp, end: Option<Timestamp>, now: Timestamp): (d: int)
    ensures end.Some? ==> d == end.value - start
    ensures end.None? ==> d == now - start
  {
    match end
    case Some(e) => e - start
    case None => now - start
  }

  /** Cutting a segment at a moment `m` splits its duration in two. */
  lemma DurationSplits(start: Timestamp, m: Timestamp, end: Option<Timestamp>, now: Timestamp)
    ensures Duration(start, Some(m), now) + Duration(m, end, now) == Duration(start, end, now)
  {
  }
}
