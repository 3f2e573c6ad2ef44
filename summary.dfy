/** `get_daily_summary` of timeturner/timeturner.py: one day's segments
    folded into work, break and overtime. The segments are `PensiveRow`s
    (as `group_by_day` hands them over); the wall clock that the duration of
    a running segment reads is the parameter `now`. */
module Summary {
  import opened Wrappers
  import opened Calendar
  import opened Models
  import opened Settings

  const TenHours: int := 10 * HourUs
  const LongDayWork: int := 6 * HourUs + 15 * MinuteUs
  const ShortDayWork: int := 4 * HourUs
  const LongDayBreak: int := 45 * MinuteUs
  const ShortDayBreak: int := 15 * MinuteUs
  const SickTag: string := "sick"

  // ---------------------------------------------------------------------
  // the day's tags and tracking flags

  /** `set(tag for segment in segments for tag in segment.tags)`. */
  function DayTags(rows: seq<Row>): set<string> {
    set i, j | 0 <= i < |rows| && 0 <= j < |rows[i].tags| :: rows[i].tags[j]
  }

  /** How the day's time counts: as work, as break, with overtime. */
  datatype Tracking = Tracking(work: bool, brk: bool, over: bool)

  /** The flags of the highest-priority full-day tag of the day when there
      is one, else work time with overtime and no break time. */
  function DayTracking(rs: ReportSettings, tags: set<string>): (tr: Tracking)
    ensures (tags == {} || !rs.highestPriorityTag(tags).fullDay) ==> tr == Tracking(true, false, true)
    ensures tags != {} && rs.highestPriorityTag(tags).fullDay ==>
              var h := rs.highestPriorityTag(tags);
              tr == Tracking(h.trackWorkTime, h.trackBreakTime, h.trackOverTime)
  {
    if tags != {} && rs.highestPriorityTag(tags).fullDay then
      var h := rs.highestPriorityTag(tags);
      Tracking(h.trackWorkTime, h.trackBreakTime, h.trackOverTime)
    else Tracking(true, false, true)
  }

  // ---------------------------------------------------------------------
  // per segment: passive flag and time by tag

  /** The segment's time is passive work when one of its tags says so; the
      tags are asked in order and the first yes stops the search. */
  function Passive(rs: ReportSettings, tags: seq<string>): bool
    decreases |tags|
  {
    tags != [] && (rs.getTag(tags[0]).trackWorkTimePassive || Passive(rs, tags[1..]))
  }

  lemma {:induction false} PassiveIff(rs: ReportSettings, tags: seq<string>)
    ensures Passive(rs, tags) <==> exists i :: 0 <= i < |tags| && rs.getTag(tags[i]).trackWorkTimePassive
    decreases |tags|
  {
    if tags != [] {
      PassiveIff(rs, tags[1..]);
      if Passive(rs, tags[1..]) {
        var i :| 0 <= i < |tags[1..]| && rs.getTag(tags[1..][i]).trackWorkTimePassive;
        assert tags[i + 1] == tags[1..][i];
      }
      if exists i :: 0 <= i < |tags| && rs.getTag(tags[i]).trackWorkTimePassive {
        var i :| 0 <= i < |tags| && rs.getTag(tags[i]).trackWorkTimePassive;
        if i > 0 {
          assert tags[1..][i - 1] == tags[i];
        }
      }
    }
  }

  /** The loop over the tags with `break` at the first passive one. */
  method PassiveLoop(rs: ReportSettings, tags: seq<string>) returns (passive: bool)
    ensures passive == Passive(rs, tags)
  {
    passive := false;
    var j := 0;
    while j < |tags|
      invariant 0 <= j <= |tags|
      invariant !passive && Passive(rs, tags) == Passive(rs, tags[j..])
    {
      assert tags[j..][0] == tags[j] && tags[j..][1..] == tags[j + 1..];
      if rs.getTag(tags[j]).trackWorkTimePassive {
        passive := true;
        break;
      }
      j := j + 1;
    }
  }

  /** `by_tag.get(tag, timedelta())`. */
  function Get(m: map<string, int>, k: string): int {
    if k in m then m[k] else 0
  }

  /** How often `t` occurs among `tags`. */
  function Count(tags: seq<string>, t: string): nat
    decreases |tags|
  {
    if tags == [] then 0 else (if tags[0] == t then 1 else 0) + Count(tags[1..], t)
  }

  /** `for tag in segment.tags: by_tag[tag] += duration`. */
  function AddTags(byTag: map<string, int>, tags: seq<string>, dur: int): map<string, int>
    decreases |tags|
  {
    if tags == [] then byTag else AddTags(byTag[tags[0] := Get(byTag, tags[0]) + dur], tags[1..], dur)
  }

  /** Each tag gains the duration once per occurrence, and the keys are the
      old keys and the segment's tags. */
  lemma {:induction false} AddTagsValue(byTag: map<string, int>, tags: seq<string>, dur: int, t: string)
    ensures Get(AddTags(byTag, tags, dur), t) == Get(byTag, t) + Count(tags, t) * dur
    ensures t in AddTags(byTag, tags, dur) <==> t in byTag || t in tags
    decreases |tags|
  {
    if tags != [] {
      AddTagsValue(byTag[tags[0] := Get(byTag, tags[0]) + dur], tags[1..], dur, t);
      assert t in tags <==> t == tags[0] || t in tags[1..];
    }
  }

  method AddTagsLoop(byTag: map<string, int>, tags: seq<string>, dur: int) returns (m: map<string, int>)
    ensures m == AddTags(byTag, tags, dur)
  {
    m := byTag;
    var k := 0;
    while k < |tags|
      invariant 0 <= k <= |tags|
      invariant AddTags(byTag, tags, dur) == AddTags(m, tags[k..], dur)
    {
      assert tags[k..][0] == tags[k] && tags[k..][1..] == tags[k + 1..];
      var tag := tags[k];
      ghost var before := m;
      if tag !in m {
        m := m[tag := 0];
      }
      m := m[tag := m[tag] + dur];
      assert m == before[tag := Get(before, tag) + dur];
      k := k + 1;
    }
  }

  // ---------------------------------------------------------------------
  // the loop over the segments

  /** The totals of the first loop. */
  datatype Totals = Totals(work: int, passive: int, brk: int, start: Option<int>, byTag: map<string, int>)

  /** Where the first loop stands: going on with its totals, or returning
      the holiday summary. */
  datatype Pass = Running(t: Totals) | HolidayFound

  /** One segment counted: as passive or active work, as break, or not at
      all, and its time added to each of its tags. */
  function Account(t: Totals, row: Row, passive: bool, tr: Tracking, now: Timestamp): Totals {
    var d := Duration(row.start, row.end, now);
    Totals(if tr.work && !passive then t.work + d else t.work,
           if tr.work && passive then t.passive + d else t.passive,
           if !tr.work && tr.brk then t.brk + d else t.brk,
           if t.start.None? then Some(TimeOfDay(row.start)) else t.start,
           AddTags(t.byTag, row.tags, d))
  }

  /** The tracking flags of `get_daily_summary`: the defaults, replaced by
      those of the highest-priority tag when that tag is a full-day tag. */
  method TrackingOf(rs: ReportSettings, tags: set<string>) returns (tr: Tracking)
    ensures tr == DayTracking(rs, tags)
  {
    var trackWork, trackBreak, trackOver := true, false, true;
    if tags != {} {
      var highest := rs.highestPriorityTag(tags);
      if highest.fullDay {
        trackWork, trackBreak, trackOver := highest.trackWorkTime, highest.trackBreakTime, highest.trackOverTime;
      }
    }
    tr := Tracking(trackWork, trackBreak, trackOver);
  }

  /** The first loop of `get_daily_summary` over `rows`: a `ValueError` at
      the first segment not on `day`, the holiday summary at the first one
      carrying the holiday tag, else the totals. */
  function FirstPass(day: int, rows: seq<Row>, rs: ReportSettings, tr: Tracking, now: Timestamp): Result<Pass>
    decreases |rows|
  {
    if rows == [] then Ok(Running(Totals(0, 0, 0, None, map[])))
    else match FirstPass(day, rows[..|rows| - 1], rs, tr, now)
      case Err(e) => Err(e)
      case Ok(HolidayFound) => Ok(HolidayFound)
      case Ok(Running(t)) =>
        var row := rows[|rows| - 1];
        if DayOf(row.start) != day then Err(ValueError)
        else if rs.holidayTag in row.tags then Ok(HolidayFound)
        else Ok(Running(Account(t, row, Passive(rs, row.tags), tr, now)))
  }

  lemma FirstPassStep(day: int, rows: seq<Row>, i: int, rs: ReportSettings, tr: Tracking, now: Timestamp)
    requires 0 <= i < |rows|
    ensures FirstPass(day, rows[..i + 1], rs, tr, now)
            == match FirstPass(day, rows[..i], rs, tr, now)
               case Err(e) => Err(e)
               case Ok(HolidayFound) => Ok(HolidayFound)
               case Ok(Running(t)) =>
                 if DayOf(rows[i].start) != day then Err(ValueError)
                 else if rs.holidayTag in rows[i].tags then Ok(HolidayFound)
                 else Ok(Running(Account(t, rows[i], Passive(rs, rows[i].tags), tr, now)))
  {
    assert rows[..i + 1][..i] == rows[..i] && rows[..i + 1][i] == rows[i];
  }

  /** Once the loop has raised or returned, later segments change nothing. */
  lemma {:induction false} FirstPassStops(day: int, rows: seq<Row>, k: int, rs: ReportSettings, tr: Tracking, now: Timestamp)
    requires 0 <= k <= |rows|
    requires FirstPass(day, rows[..k], rs, tr, now).Err? || FirstPass(day, rows[..k], rs, tr, now) == Ok(HolidayFound)
    ensures FirstPass(day, rows, rs, tr, now) == FirstPass(day, rows[..k], rs, tr, now)
    decreases |rows| - k
  {
    if k < |rows| {
      FirstPassStep(day, rows, k, rs, tr, now);
      FirstPassStops(day, rows, k + 1, rs, tr, now);
    } else {
      assert rows[..k] == rows;
    }
  }

  /** A segment at which the first loop stops: off the day, or a holiday. */
  predicate Stops(day: int, rs: ReportSettings, row: Row) {
    DayOf(row.start) != day || rs.holidayTag in row.tags
  }

  /** The position of the first segment at which the loop stops. */
  function FirstStop(day: int, rs: ReportSettings, rows: seq<Row>): (r: Option<nat>)
    ensures r.None? <==> forall i :: 0 <= i < |rows| ==> !Stops(day, rs, rows[i])
    ensures r.Some? ==> r.value < |rows| && Stops(day, rs, rows[r.value])
                        && forall i :: 0 <= i < r.value ==> !Stops(day, rs, rows[i])
    decreases |rows|
  {
    if rows == [] then None
    else if Stops(day, rs, rows[0]) then Some(0)
    else match FirstStop(day, rs, rows[1..])
      case None => None
      case Some(i) => Some(i + 1)
  }

  /** The first loop raises `ValueError` exactly when the first stopping
      segment is off the day, returns the holiday summary exactly when it is
      a holiday on the day, and otherwise runs to the end. */
  lemma {:induction false} FirstPassOutcome(day: int, rows: seq<Row>, rs: ReportSettings, tr: Tracking, now: Timestamp)
    ensures FirstStop(day, rs, rows).None? ==> FirstPass(day, rows, rs, tr, now).Ok? && FirstPass(day, rows, rs, tr, now).value.Running?
    ensures FirstStop(day, rs, rows).Some? ==>
              FirstPass(day, rows, rs, tr, now)
              == if DayOf(rows[FirstStop(day, rs, rows).value].start) != day then Err(ValueError) else Ok(HolidayFound)
    decreases |rows|
  {
    if rows != [] {
      var n := |rows|;
      var init := rows[..n - 1];
      FirstPassOutcome(day, init, rs, tr, now);
      assert rows[..n - 1] == init;
      match FirstStop(day, rs, init)
      case None =>
        assert FirstPass(day, init, rs, tr, now).Ok? && FirstPass(day, init, rs, tr, now).value.Running?;
        if Stops(day, rs, rows[n - 1]) {
          FirstStopAt(day, rs, rows, n - 1);
        } else {
          FirstStopNone(day, rs, rows);
        }
      case Some(i) =>
        assert forall j :: 0 <= j <= i ==> rows[j] == init[j];
        FirstStopAt(day, rs, rows, i);
    }
  }

  lemma FirstStopAt(day: int, rs: ReportSettings, rows: seq<Row>, i: int)
    requires 0 <= i < |rows| && Stops(day, rs, rows[i])
    requires forall j :: 0 <= j < i ==> !Stops(day, rs, rows[j])
    ensures FirstStop(day, rs, rows) == Some(i)
  {
  }

  lemma FirstStopNone(day: int, rs: ReportSettings, rows: seq<Row>)
    requires forall j :: 0 <= j < |rows| ==> !Stops(day, rs, rows[j])
    ensures FirstStop(day, rs, rows).None?
  {
  }

  /** The time of the rows, all of it. */
  function SumDurations(rows: seq<Row>, now: Timestamp): int
    decreases |rows|
  {
    if rows == [] then 0
    else SumDurations(rows[..|rows| - 1], now) + Duration(rows[|rows| - 1].start, rows[|rows| - 1].end, now)
  }

  /** The time of the rows with a passive tag. */
  function SumPassive(rows: seq<Row>, rs: ReportSettings, now: Timestamp): int
    decreases |rows|
  {
    if rows == [] then 0
    else
      var row := rows[|rows| - 1];
      SumPassive(rows[..|rows| - 1], rs, now) + (if Passive(rs, row.tags) then Duration(row.start, row.end, now) else 0)
  }

  /** The time of the rows spent under `tag`, once per occurrence. */
  function SumTagged(rows: seq<Row>, tag: string, now: Timestamp): int
    decreases |rows|
  {
    if rows == [] then 0
    else
      var row := rows[|rows| - 1];
      SumTagged(rows[..|rows| - 1], tag, now) + Count(row.tags, tag) * Duration(row.start, row.end, now)
  }

  lemma DayTagsSnoc(rows: seq<Row>)
    requires rows != []
    ensures forall t :: t in DayTags(rows) <==> t in DayTags(rows[..|rows| - 1]) || t in rows[|rows| - 1].tags
  {
    var n := |rows|;
    var init := rows[..n - 1];
    forall t | t in DayTags(rows)
      ensures t in DayTags(init) || t in rows[n - 1].tags
    {
      var i, j :| 0 <= i < n && 0 <= j < |rows[i].tags| && rows[i].tags[j] == t;
      if i < n - 1 {
        assert init[i] == rows[i];
      }
    }
    forall t | t in DayTags(init) ensures t in DayTags(rows) {
      var i, j :| 0 <= i < n - 1 && 0 <= j < |init[i].tags| && init[i].tags[j] == t;
      assert rows[i] == init[i];
    }
  }

  lemma InTags(tags: seq<string>, t: string)
    ensures t in tags <==> exists j :: 0 <= j < |tags| && tags[j] == t
  {
  }

  /** What the first loop adds up, when it runs to the end: with work
      tracked every segment's time is work, passive exactly for the segments
      with a passive tag; with only break tracked it is break; each tag gets
      the time of its segments; the start is that of the first segment. */
  lemma {:induction false} FirstPassTotals(day: int, rows: seq<Row>, rs: ReportSettings, tr: Tracking, now: Timestamp)
    requires FirstPass(day, rows, rs, tr, now).Ok? && FirstPass(day, rows, rs, tr, now).value.Running?
    ensures var t := FirstPass(day, rows, rs, tr, now).value.t;
            && t.work + t.passive == (if tr.work then SumDurations(rows, now) else 0)
            && t.passive == (if tr.work then SumPassive(rows, rs, now) else 0)
            && t.brk == (if !tr.work && tr.brk then SumDurations(rows, now) else 0)
            && t.start == (if rows == [] then None else Some(TimeOfDay(rows[0].start)))
            && (forall tag :: tag in t.byTag <==> tag in DayTags(rows))
            && (forall tag :: Get(t.byTag, tag) == SumTagged(rows, tag, now))
    decreases |rows|
  {
    if rows != [] {
      var n := |rows|;
      var init := rows[..n - 1];
      var row := rows[n - 1];
      match FirstPass(day, init, rs, tr, now)
      case Err(e) =>
      case Ok(HolidayFound) =>
      case Ok(Running(t0)) =>
        FirstPassTotals(day, init, rs, tr, now);
        var d := Duration(row.start, row.end, now);
        DayTagsSnoc(rows);
        forall tag ensures Get(AddTags(t0.byTag, row.tags, d), tag) == Get(t0.byTag, tag) + Count(row.tags, tag) * d
                           && (tag in AddTags(t0.byTag, row.tags, d) <==> tag in t0.byTag || tag in row.tags)
        {
          AddTagsValue(t0.byTag, row.tags, d, tag);
          InTags(row.tags, tag);
        }
        if n > 1 {
          assert init[0] == rows[0];
        }
    }
  }

  // ---------------------------------------------------------------------
  // gaps between consecutive segments

  /** The gap time counted as break and as work. */
  datatype Gaps = Gaps(brk: int, work: int)

  /** `for segment, next_segment in pairwise_iter(segments)`: a running
      segment followed by another is a `ValueError`; a gap of more than a
      minute is break, a shorter one work. */
  function GapSplit(rows: seq<Row>): Result<Gaps>
    decreases |rows|
  {
    if |rows| < 2 then Ok(Gaps(0, 0))
    else match GapSplit(rows[..|rows| - 1])
      case Err(e) => Err(e)
      case Ok(g) =>
        var a, b := rows[|rows| - 2], rows[|rows| - 1];
        if a.end.None? then Err(ValueError)
        else
          var gap := b.start - a.end.value;
          if gap > MinuteUs then Ok(Gaps(g.brk + gap, g.work)) else Ok(Gaps(g.brk, g.work + gap))
  }

  /** Every segment but the last has an end. */
  predicate ClosedBeforeLast(rows: seq<Row>) {
    forall i :: 0 <= i < |rows| - 1 ==> rows[i].end.Some?
  }

  /** The gap after segment `i`. */
  function Gap(rows: seq<Row>, i: int): int
    requires 0 <= i < |rows| - 1 && rows[i].end.Some?
  {
    rows[i + 1].start - rows[i].end.value
  }

  lemma GapSplitStep(rows: seq<Row>)
    requires |rows| >= 2
    ensures GapSplit(rows)
            == match GapSplit(rows[..|rows| - 1])
               case Err(e) => Err(e)
               case Ok(g) =>
                 if rows[|rows| - 2].end.None? then Err(ValueError)
                 else if Gap(rows, |rows| - 2) > MinuteUs then Ok(Gaps(g.brk + Gap(rows, |rows| - 2), g.work))
                 else Ok(Gaps(g.brk, g.work + Gap(rows, |rows| - 2)))
  {
  }

  /** The gaps can be added up exactly when no running segment is followed
      by another; the only error is `ValueError`. */
  lemma {:induction false} GapSplitOk(rows: seq<Row>)
    ensures GapSplit(rows).Ok? <==> ClosedBeforeLast(rows)
    ensures GapSplit(rows).Err? ==> GapSplit(rows).error == ValueError
    decreases |rows|
  {
    if |rows| >= 2 {
      var init := rows[..|rows| - 1];
      GapSplitOk(init);
      assert forall i :: 0 <= i < |init| ==> init[i] == rows[i];
    }
  }

  /** Gaps and segment times tile the day: the gaps and the times of all
      segments but the last add up to the span between the first start and
      the last start. */
  lemma {:induction false} GapSplitTiles(rows: seq<Row>, now: Timestamp)
    requires |rows| >= 1 && ClosedBeforeLast(rows)
    ensures GapSplit(rows).Ok?
    ensures GapSplit(rows).value.brk + GapSplit(rows).value.work + SumDurations(rows[..|rows| - 1], now)
            == rows[|rows| - 1].start - rows[0].start
    decreases |rows|
  {
    GapSplitOk(rows);
    if |rows| >= 2 {
      var n := |rows|;
      var init := rows[..n - 1];
      assert forall i :: 0 <= i < |init| ==> init[i] == rows[i];
      GapSplitTiles(init, now);
      GapSplitStep(rows);
      assert init[..n - 2] == rows[..n - 2];
    }
  }

  /** Break gaps are never negative, a work gap is at most a minute each, and
      when every gap is long (short) all gap time is break (work). */
  lemma {:induction false} GapSplitBounds(rows: seq<Row>)
    requires |rows| >= 1 && ClosedBeforeLast(rows)
    ensures GapSplit(rows).Ok?
    ensures GapSplit(rows).value.brk >= 0
    ensures GapSplit(rows).value.work <= MinuteUs * (|rows| - 1)
    ensures (forall i :: 0 <= i < |rows| - 1 ==> Gap(rows, i) > MinuteUs) ==> GapSplit(rows).value.work == 0
    ensures (forall i :: 0 <= i < |rows| - 1 ==> Gap(rows, i) <= MinuteUs) ==> GapSplit(rows).value.brk == 0
    decreases |rows|
  {
    GapSplitOk(rows);
    if |rows| >= 2 {
      var n := |rows|;
      var init := rows[..n - 1];
      assert forall i :: 0 <= i < |init| ==> init[i] == rows[i];
      GapSplitBounds(init);
      GapSplitStep(rows);
      assert forall i :: 0 <= i < |init| - 1 ==> Gap(init, i) == Gap(rows, i);
    }
  }

  // ---------------------------------------------------------------------
  // statutory breaks, passive time, overtime

  datatype WorkBreak = WorkBreak(work: int, brk: int)

  /** The statutory breaks: more than 6h15 of work needs 45 minutes of
      break, more than 4h needs 15; what is missing moves from work to break. */
  function StatutoryBreak(work: int, brk: int): (r: WorkBreak)
    ensures r.work + r.brk == work + brk && r.brk >= brk
    ensures work > LongDayWork ==> r.brk >= LongDayBreak
    ensures ShortDayWork < work <= LongDayWork ==> r.brk >= ShortDayBreak
    ensures r.brk == brk <==> work <= ShortDayWork || (work <= LongDayWork && brk >= ShortDayBreak) || brk >= LongDayBreak
    ensures r.brk != brk ==> r.brk == (if work > LongDayWork then LongDayBreak else ShortDayBreak)
  {
    if work > LongDayWork then
      if brk < LongDayBreak then WorkBreak(work - (LongDayBreak - brk), LongDayBreak) else WorkBreak(work, brk)
    else if work > ShortDayWork then
      if brk < ShortDayBreak then WorkBreak(work - (ShortDayBreak - brk), ShortDayBreak) else WorkBreak(work, brk)
    else WorkBreak(work, brk)
  }

  /** Passive time counts only up to 10 hours of work in all; above 10 hours
      of active work it is ignored. */
  function CapPassive(work: int, passive: int): (w: int)
    ensures work > TenHours ==> w == work
    ensures work <= TenHours ==> w == if work + passive > TenHours then TenHours else work + passive
    ensures work <= TenHours && passive >= 0 ==> work <= w <= TenHours
  {
    if work > TenHours then work
    else if work + passive > TenHours then TenHours
    else work + passive
  }

  /** Overtime: work beyond the required time; on a sick day it is never
      negative. */
  function Overtime(work: int, required: int, sick: bool): (o: int)
    ensures !sick ==> o == work - required
    ensures sick ==> o >= 0 && (work >= required ==> o == work - required)
    ensures sick && work < required ==> o == 0
  {
    if sick && work - required < 0 then 0 else work - required
  }

  /** `datetime.time()` of the last segment's end, if it has one. */
  function EndTime(rows: seq<Row>): Option<int> {
    if rows != [] && rows[|rows| - 1].end.Some? then Some(TimeOfDay(rows[|rows| - 1].end.value)) else None
  }

  /** The summary of a holiday: nothing worked, no times, no tags. */
  function HolidaySummary(day: int): (s: DailySummary)
    ensures s.day == day && s.dayType == Holiday && s.description == Some("Holiday")
    ensures s.workTime == 0 && s.breakTime == 0 && s.overTime == 0
    ensures s.start.None? && s.end.None? && s.byTag == map[]
  {
    DailySummary(day, Holiday, 0, 0, 0, None, None, Some("Holiday"), map[])
  }

  /** What `get_daily_summary(day, rows)` returns, or the error it raises. */
  function SummaryOf(day: int, rows: seq<Row>, rs: ReportSettings, now: Timestamp): Result<DailySummary>
    requires ValidSettings(rs)
  {
    var tags := DayTags(rows);
    var tr := DayTracking(rs, tags);
    match FirstPass(day, rows, rs, tr, now)
    case Err(e) => Err(e)
    case Ok(HolidayFound) => Ok(HolidaySummary(day))
    case Ok(Running(t)) =>
      match GapSplit(rows)
      case Err(e) => Err(e)
      case Ok(g) =>
        var wb := StatutoryBreak(t.work + g.work, t.brk + g.brk);
        var work := CapPassive(wb.work, t.passive);
        var required := RequiredWork(rs, day);
        Ok(DailySummary(day, if required != 0 then Work else Weekend, work, wb.brk,
                        Overtime(work, if tr.over then required else 0, SickTag in tags),
                        t.start, EndTime(rows), None, t.byTag))
  }

  lemma GapSplitSnoc(rows: seq<Row>, j: int)
    requires 0 <= j && j + 1 < |rows|
    ensures GapSplit(rows[..j + 2])
            == match GapSplit(rows[..j + 1])
               case Err(e) => Err(e)
               case Ok(g) =>
                 if rows[j].end.None? then Err(ValueError)
                 else if rows[j + 1].start - rows[j].end.value > MinuteUs then Ok(Gaps(g.brk + (rows[j + 1].start - rows[j].end.value), g.work))
                 else Ok(Gaps(g.brk, g.work + (rows[j + 1].start - rows[j].end.value)))
  {
    var p := rows[..j + 2];
    assert p[..j + 1] == rows[..j + 1] && p[j] == rows[j] && p[j + 1] == rows[j + 1];
  }

  lemma {:induction false} GapSplitStays(rows: seq<Row>, k: int)
    requires 1 <= k <= |rows| && GapSplit(rows[..k]).Err?
    ensures GapSplit(rows) == GapSplit(rows[..k])
    decreases |rows| - k
  {
    if k < |rows| {
      GapSplitSnoc(rows, k - 1);
      GapSplitStays(rows, k + 1);
    } else {
      assert rows[..k] == rows;
    }
  }

  /** `SummaryOf` once both passes have succeeded. */
  lemma SummaryOfRunning(day: int, rows: seq<Row>, rs: ReportSettings, now: Timestamp, t: Totals, g: Gaps)
    requires ValidSettings(rs)
    requires FirstPass(day, rows, rs, DayTracking(rs, DayTags(rows)), now) == Ok(Running(t))
    requires GapSplit(rows) == Ok(g)
    ensures SummaryOf(day, rows, rs, now)
            == Ok(DailySummary(day, if RequiredWork(rs, day) != 0 then Work else Weekend,
                               CapPassive(StatutoryBreak(t.work + g.work, t.brk + g.brk).work, t.passive),
                               StatutoryBreak(t.work + g.work, t.brk + g.brk).brk,
                               Overtime(CapPassive(StatutoryBreak(t.work + g.work, t.brk + g.brk).work, t.passive),
                                        if DayTracking(rs, DayTags(rows)).over then RequiredWork(rs, day) else 0,
                                        SickTag in DayTags(rows)),
                               t.start, EndTime(rows), None, t.byTag))
  {
  }

  /** `SummaryOf` when one of the passes stops early. */
  lemma SummaryOfEarly(day: int, rows: seq<Row>, rs: ReportSettings, now: Timestamp)
    requires ValidSettings(rs)
    ensures FirstPass(day, rows, rs, DayTracking(rs, DayTags(rows)), now).Err? ==>
              SummaryOf(day, rows, rs, now) == Err(FirstPass(day, rows, rs, DayTracking(rs, DayTags(rows)), now).error)
    ensures FirstPass(day, rows, rs, DayTracking(rs, DayTags(rows)), now) == Ok(HolidayFound) ==>
              SummaryOf(day, rows, rs, now) == Ok(HolidaySummary(day))
    ensures FirstPass(day, rows, rs, DayTracking(rs, DayTags(rows)), now).Ok? &&
            FirstPass(day, rows, rs, DayTracking(rs, DayTags(rows)), now).value.Running? && GapSplit(rows).Err? ==>
              SummaryOf(day, rows, rs, now) == Err(GapSplit(rows).error)
  {
  }

  /** `get_daily_summary`. */
  method GetDailySummary(day: int, segments: seq<Row>, rs: ReportSettings, now: Timestamp)
    returns (r: Result<DailySummary>)
    requires ValidSettings(rs)
    ensures r == SummaryOf(day, segments, rs, now)
  {
    var tags := DayTags(segments);
    var tr := TrackingOf(rs, tags);
    var t := FirstLoop(day, segments, rs, tr, now);
    if t.Err? {
      SummaryOfEarly(day, segments, rs, now);
      return Err(t.error);
    }
    if t.value.HolidayFound? {
      SummaryOfEarly(day, segments, rs, now);
      return Ok(HolidaySummary(day));
    }
    var passiveWork := t.value.t.passive;
    var end: Option<int> := None;
    if |segments| > 0 && segments[|segments| - 1].end.Some? {
      end := Some(TimeOfDay(segments[|segments| - 1].end.value));
    }
    var gaps := GapLoop(segments, t.value.t.work, t.value.t.brk);
    if gaps.Err? {
      SummaryOfEarly(day, segments, rs, now);
      return Err(gaps.error);
    }
    var wb := StatutoryBreak(gaps.value.work, gaps.value.brk);
    var work := CapPassive(wb.work, passiveWork);
    var required := rs.worktimePerWeekday[Weekday(day)];
    var dayType := if required != 0 then Work else Weekend;
    if !tr.over {
      required := 0;
    }
    var overTime := Overtime(work, required, SickTag in tags);
    SummaryOfRunning(day, segments, rs, now, t.value.t, GapSplit(segments).value);
    r := Ok(DailySummary(day, dayType, work, wb.brk, overTime, t.value.t.start, end, None, t.value.t.byTag));
  }


  /** The first loop of `get_daily_summary`, up to its `raise` or its
      holiday `return`. */
  method FirstLoop(day: int, segments: seq<Row>, rs: ReportSettings, tr: Tracking, now: Timestamp)
    returns (r: Result<Pass>)
    ensures r == FirstPass(day, segments, rs, tr, now)
  {
    var work, passiveWork, breakTime := 0, 0, 0;
    var start: Option<int> := None;
    var byTag: map<string, int> := map[];
    var i := 0;
    while i < |segments|
      invariant 0 <= i <= |segments|
      invariant FirstPass(day, segments[..i], rs, tr, now) == Ok(Running(Totals(work, passiveWork, breakTime, start, byTag)))
    {
      var segment := segments[i];
      FirstPassStep(day, segments, i, rs, tr, now);
      var passive := PassiveLoop(rs, segment.tags);
      if DayOf(segment.start) != day {
        FirstPassStops(day, segments, i + 1, rs, tr, now);
        return Err(ValueError);
      }
      if rs.holidayTag in segment.tags {
        FirstPassStops(day, segments, i + 1, rs, tr, now);
        return Ok(HolidayFound);
      }
      if start.None? {
        start := Some(TimeOfDay(segment.start));
      }
      var d := Duration(segment.start, segment.end, now);
      if tr.work {
        if passive {
          passiveWork := passiveWork + d;
        } else {
          work := work + d;
        }
      } else if tr.brk {
        breakTime := breakTime + d;
      }
      byTag := AddTagsLoop(byTag, segment.tags, d);
      i := i + 1;
    }
    assert segments[..i] == segments;
    r := Ok(Running(Totals(work, passiveWork, breakTime, start, byTag)));
  }

  /** The pairwise loop of `get_daily_summary`: every gap between two
      consecutive segments is added to `brk` or to `work`. */
  method GapLoop(segments: seq<Row>, work0: int, brk0: int) returns (r: Result<WorkBreak>)
    ensures r.Err? <==> GapSplit(segments).Err?
    ensures r.Err? ==> r == Err(GapSplit(segments).error)
    ensures r.Ok? ==> r.value == WorkBreak(work0 + GapSplit(segments).value.work, brk0 + GapSplit(segments).value.brk)
  {
    if |segments| < 2 {
      return Ok(WorkBreak(work0, brk0));
    }
    var work, breakTime := work0, brk0;
    var j := 0;
    while j + 1 < |segments|
      invariant 0 <= j < |segments|
      invariant GapSplit(segments[..j + 1]) == Ok(Gaps(breakTime - brk0, work - work0))
    {
      var segment, next := segments[j], segments[j + 1];
      GapSplitSnoc(segments, j);
      if segment.end.None? {
        GapSplitStays(segments, j + 2);
        return Err(ValueError);
      }
      var newBreak := next.start - segment.end.value;
      if newBreak > MinuteUs {
        breakTime := breakTime + newBreak;
      } else {
        work := work + newBreak;
      }
      j := j + 1;
    }
    assert segments[..j + 1] == segments;
    r := Ok(WorkBreak(work, breakTime));
  }

  // ---------------------------------------------------------------------
  // what the summary promises

  /** The first segment that stops the first loop is off the day. */
  predicate OffDayFirst(day: int, rs: ReportSettings, rows: seq<Row>) {
    FirstStop(day, rs, rows).Some? && DayOf(rows[FirstStop(day, rs, rows).value].start) != day
  }

  /** The first segment that stops the first loop is a holiday on the day. */
  predicate HolidayFirst(day: int, rs: ReportSettings, rows: seq<Row>) {
    FirstStop(day, rs, rows).Some? && DayOf(rows[FirstStop(day, rs, rows).value].start) == day
  }

  /** The three outcomes: a segment off the day (met before any holiday
      segment) or an open segment followed by another raises `ValueError`; a
      holiday segment (met before any segment off the day) gives the holiday
      summary; everything else is an ordinary summary. */
  lemma SummaryOutcome(day: int, rows: seq<Row>, rs: ReportSettings, now: Timestamp)
    requires ValidSettings(rs)
    ensures OffDayFirst(day, rs, rows) ==> SummaryOf(day, rows, rs, now) == Err(ValueError)
    ensures HolidayFirst(day, rs, rows) ==> SummaryOf(day, rows, rs, now) == Ok(HolidaySummary(day))
    ensures FirstStop(day, rs, rows).None? ==>
              (SummaryOf(day, rows, rs, now).Ok? <==> ClosedBeforeLast(rows))
              && (SummaryOf(day, rows, rs, now).Err? ==> SummaryOf(day, rows, rs, now).error == ValueError)
              && (SummaryOf(day, rows, rs, now).Ok? ==> SummaryOf(day, rows, rs, now).value.dayType != Holiday)
  {
    FirstPassOutcome(day, rows, rs, DayTracking(rs, DayTags(rows)), now);
    GapSplitOk(rows);
    SummaryOfEarly(day, rows, rs, now);
    if FirstStop(day, rs, rows).None? && GapSplit(rows).Ok? {
      var t := FirstPass(day, rows, rs, DayTracking(rs, DayTags(rows)), now).value.t;
      SummaryOfRunning(day, rows, rs, now, t, GapSplit(rows).value);
    }
  }

  /** A day whose segments all start on it and one of which carries the
      holiday tag is a holiday, whatever else the segments say. */
  lemma SummaryHoliday(day: int, rows: seq<Row>, rs: ReportSettings, now: Timestamp, k: int)
    requires ValidSettings(rs)
    requires forall i :: 0 <= i < |rows| ==> DayOf(rows[i].start) == day
    requires 0 <= k < |rows| && rs.holidayTag in rows[k].tags
    ensures SummaryOf(day, rows, rs, now) == Ok(HolidaySummary(day))
  {
    assert Stops(day, rs, rows[k]);
    assert HolidayFirst(day, rs, rows);
    SummaryOutcome(day, rows, rs, now);
  }

  /** A segment off the day, with no holiday segment before it, raises
      `ValueError`. */
  lemma SummaryWrongDay(day: int, rows: seq<Row>, rs: ReportSettings, now: Timestamp, k: int)
    requires ValidSettings(rs)
    requires 0 <= k < |rows| && DayOf(rows[k].start) != day
    requires forall i :: 0 <= i < k ==> rs.holidayTag !in rows[i].tags
    ensures SummaryOf(day, rows, rs, now) == Err(ValueError)
  {
    assert Stops(day, rs, rows[k]);
    var i := FirstStop(day, rs, rows).value;
    assert i <= k;
    assert OffDayFirst(day, rs, rows);
    SummaryOutcome(day, rows, rs, now);
  }

  /** The fields of an ordinary summary. */
  lemma SummaryFields(day: int, rows: seq<Row>, rs: ReportSettings, now: Timestamp)
    requires ValidSettings(rs)
    requires FirstStop(day, rs, rows).None? && ClosedBeforeLast(rows)
    ensures SummaryOf(day, rows, rs, now).Ok?
    ensures SummaryOf(day, rows, rs, now).value.day == day
    ensures SummaryOf(day, rows, rs, now).value.dayType == if RequiredWork(rs, day) != 0 then Work else Weekend
    ensures SummaryOf(day, rows, rs, now).value.start == if rows == [] then None else Some(TimeOfDay(rows[0].start))
    ensures SummaryOf(day, rows, rs, now).value.end == EndTime(rows)
    ensures SummaryOf(day, rows, rs, now).value.description.None?
    ensures forall tag :: tag in SummaryOf(day, rows, rs, now).value.byTag <==> tag in DayTags(rows)
    ensures forall tag :: Get(SummaryOf(day, rows, rs, now).value.byTag, tag) == SumTagged(rows, tag, now)
    ensures SickTag !in DayTags(rows) ==>
              SummaryOf(day, rows, rs, now).value.overTime
              == SummaryOf(day, rows, rs, now).value.workTime
                 - (if DayTracking(rs, DayTags(rows)).over then RequiredWork(rs, day) else 0)
    ensures SickTag in DayTags(rows) ==> SummaryOf(day, rows, rs, now).value.overTime >= 0
  {
    var tr := DayTracking(rs, DayTags(rows));
    FirstPassOutcome(day, rows, rs, tr, now);
    FirstPassTotals(day, rows, rs, tr, now);
    GapSplitOk(rows);
    SummaryOfRunning(day, rows, rs, now, FirstPass(day, rows, rs, tr, now).value.t, GapSplit(rows).value);
  }

  /** The time without passive segments is never lost: on a day tracked as
      work whose segments are all closed, work and break together span from
      the first start to the last end. */
  lemma SummaryTiling(day: int, rows: seq<Row>, rs: ReportSettings, now: Timestamp)
    requires ValidSettings(rs)
    requires FirstStop(day, rs, rows).None? && |rows| >= 1
    requires forall i :: 0 <= i < |rows| ==> rows[i].end.Some? && !Passive(rs, rows[i].tags)
    requires DayTracking(rs, DayTags(rows)).work
    ensures SummaryOf(day, rows, rs, now).Ok?
    ensures SummaryOf(day, rows, rs, now).value.workTime + SummaryOf(day, rows, rs, now).value.breakTime
            == rows[|rows| - 1].end.value - rows[0].start
  {
    var tr := DayTracking(rs, DayTags(rows));
    FirstPassOutcome(day, rows, rs, tr, now);
    FirstPassTotals(day, rows, rs, tr, now);
    NoPassive(rows, rs, now);
    GapSplitTiles(rows, now);
    SummaryOfRunning(day, rows, rs, now, FirstPass(day, rows, rs, tr, now).value.t, GapSplit(rows).value);
  }

  lemma {:induction false} NoPassive(rows: seq<Row>, rs: ReportSettings, now: Timestamp)
    requires forall i :: 0 <= i < |rows| ==> !Passive(rs, rows[i].tags)
    ensures SumPassive(rows, rs, now) == 0
    decreases |rows|
  {
    if rows != [] {
      NoPassive(rows[..|rows| - 1], rs, now);
    }
  }
}
