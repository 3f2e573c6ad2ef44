/** The helpers of timeturner/timeturner.py around conflict resolution and
    reporting: tag priorities, cutting a new segment around a conflicting
    one, cutting it at week-end days, cutting stored rows at midnight, and
    grouping rows by day. */
module TimeTurner {
  import opened Wrappers
  import opened Calendar
  import opened Models
  import opened Settings
  import Helper

  // ---------------------------------------------------------------------
  // get_tag_prio

  /** The priority a list of tags carries: the highest configured priority
      of its tags, never below 0. */
  function TagPrio(tags: seq<string>, settings: map<string, TagSettings>): int {
    if tags == [] then 0
    else
      var rest := TagPrio(tags[..|tags| - 1], settings);
      var last := tags[|tags| - 1];
      if last in settings && settings[last].priority > rest then settings[last].priority else rest
  }

  /** The priority is an upper bound of the configured priorities of the
      tags, and it is one of them unless it is the floor 0. */
  lemma {:induction false} TagPrioIsMax(tags: seq<string>, settings: map<string, TagSettings>)
    ensures TagPrio(tags, settings) >= 0
    ensures forall t :: t in tags && t in settings ==> settings[t].priority <= TagPrio(tags, settings)
    ensures TagPrio(tags, settings) == 0
            || exists t :: t in tags && t in settings && settings[t].priority == TagPrio(tags, settings)
  {
    if tags != [] {
      var init := tags[..|tags| - 1];
      TagPrioIsMax(init, settings);
      assert tags == init + [tags[|tags| - 1]];
      forall t | t in init ensures t in tags { }
    }
  }

  /** Tags without settings do not change the priority. */
  lemma TagPrioNoSettings(tags: seq<string>, settings: map<string, TagSettings>)
    requires forall t :: t in tags ==> t !in settings
    ensures TagPrio(tags, settings) == 0
  {
    TagPrioIsMax(tags, settings);
  }

  /** `get_tag_prio`: a running maximum from 0 over the tags with settings. */
  method GetTagPrio(tags: seq<string>, settings: map<string, TagSettings>) returns (maxPrio: int)
    ensures maxPrio == TagPrio(tags, settings)
  {
    maxPrio := 0;
    var i := 0;
    while i < |tags|
      invariant 0 <= i <= |tags|
      invariant maxPrio == TagPrio(tags[..i], settings)
    {
      var tag := tags[i];
      if tag in settings {
        maxPrio := if settings[tag].priority > maxPrio then settings[tag].priority else maxPrio;
      }
      assert tags[..i + 1][..i] == tags[..i];
      i := i + 1;
    }
    assert tags[..i] == tags;
  }

  // ---------------------------------------------------------------------
  // intervals

  /** `t` lies in `[start, end)`, where no end means "still running". */
  predicate InSpan(t: Timestamp, start: Timestamp, end: Option<Timestamp>) {
    start <= t && (end.None? || t < end.value)
  }

  /** The parameters of a new segment over `[start, end)` with the tags,
      description and passive flag of `p` (and `full_days` left false, as
      the source constructs them). */
  function Piece(p: NewSegmentParams, start: Timestamp, end: Option<Timestamp>): NewSegmentParams {
    NewSegmentParams(start, end, p.tags, p.description, p.passive, false)
  }

  // ---------------------------------------------------------------------
  // split_segment_params

  /** The three pieces `split_segment_params` cuts a new segment `p` into
      around a conflicting row `c`. */
  datatype Split = Split(before: Option<NewSegmentParams>, middle: Option<NewSegmentParams>,
                         after: Option<NewSegmentParams>)

  /** `split_segment_params(p, c)`: the part before `c` (from `p`'s start to
      `c`'s start), the span of `c` when `p` starts and ends inside it, and
      the part after a closed `c` (from its end to `p`'s end). */
  function SplitSegmentParams(p: NewSegmentParams, c: Row): (s: Split)
    ensures s.before.Some? <==> p.start < c.start
    ensures s.middle.Some? <==> c.start <= p.start && c.end.Some? && p.end.Some? && p.end.value <= c.end.value
    ensures s.after.Some? <==> c.end.Some? && (p.end.None? || p.end.value > c.end.value)
  {
    Split(
      if p.start < c.start then Some(Piece(p, p.start, Some(c.start))) else None,
      if c.start <= p.start && c.end.Some? && p.end.Some? && p.end.value <= c.end.value
      then Some(Piece(p, c.start, c.end)) else None,
      if c.end.Some? && ((p.end.Some? && p.end.value > c.end.value) || p.end.None?)
      then Some(Piece(p, c.end.value, p.end)) else None)
  }

  /** The pieces around a conflict keep clear of it, start or end where the
      new segment does, and copy its tags, description and passive flag;
      together with the conflict they cover the new segment. */
  lemma SplitSegmentParamsCover(p: NewSegmentParams, c: Row, t: Timestamp)
    requires InSpan(t, p.start, p.end)
    ensures var s := SplitSegmentParams(p, c);
            && (s.before.Some? ==> s.before.value.start == p.start && s.before.value.end == Some(c.start))
            && (s.after.Some? ==> s.after.value.start == c.end.value && s.after.value.end == p.end)
            && (forall q :: q in [s.before, s.middle, s.after] && q.Some? ==>
                  q.value.tags == p.tags && q.value.description == p.description && q.value.passive == p.passive)
            && (InSpan(t, c.start, c.end)
                || (s.before.Some? && InSpan(t, s.before.value.start, s.before.value.end))
                || (s.after.Some? && InSpan(t, s.after.value.start, s.after.value.end)))
            && (s.before.Some? && InSpan(t, s.before.value.start, s.before.value.end) ==> !InSpan(t, c.start, c.end))
            && (s.after.Some? && InSpan(t, s.after.value.start, s.after.value.end) ==> !InSpan(t, c.start, c.end))
  {
  }

  // ---------------------------------------------------------------------
  // iter_over_days as a value

  /** The day list `iter_over_days(start, end)` produces. */
  function DaysBetween(start: Timestamp, end: Timestamp): Result<seq<int>> {
    if !Representable(end - 1) then Err(OverflowError)
    else if end <= start then Ok([])
    else if DayOf(end - 1) - DayOf(start) + 1 > Helper.MaxDays then Err(RuntimeError)
    else if DayOf(end - 1) == DaysOfAllYears - 1 then Err(OverflowError)
    else Ok(Helper.DayRange(DayOf(start), DayOf(end - 1)))
  }

  predicate IsMidnight(t: Timestamp) {
    t == Midnight(DayOf(t))
  }

  // ---------------------------------------------------------------------
  // split_segment_params_per_weekday

  /** A span `[lo, hi)` of time. */
  datatype Span = Span(lo: Timestamp, hi: Timestamp)

  /** The spans the loop of `split_segment_params_per_weekday` still adds
      when the days `days` are left, it is in a stretch of work days or not
      (`working`), and the current stretch began at `from`. */
  function WorkSpans(isWork: int -> bool, days: seq<int>, working: bool, from: Timestamp, end: Timestamp): seq<Span>
    decreases |days|
  {
    if days == [] then (if working then [Span(from, end)] else [])
    else if working && !isWork(days[0]) then
      [Span(from, Midnight(days[0]))] + WorkSpans(isWork, days[1..], false, from, end)
    else if !working && isWork(days[0]) then
      WorkSpans(isWork, days[1..], true, Midnight(days[0]), end)
    else WorkSpans(isWork, days[1..], working, from, end)
  }

  /** A piece of `p` over a span, keeping every other field of `p`,
      `full_days` included. */
  function Cover(p: NewSegmentParams, s: Span): NewSegmentParams {
    p.(start := s.lo, end := Some(s.hi))
  }

  function Covers(p: NewSegmentParams, spans: seq<Span>): (ps: seq<NewSegmentParams>)
    ensures |ps| == |spans| && forall i :: 0 <= i < |spans| ==> ps[i] == Cover(p, spans[i])
  {
    if spans == [] then [] else [Cover(p, spans[0])] + Covers(p, spans[1..])
  }

  /** What `split_segment_params_per_weekday(p)` returns: an
      `AssertionError` for an open `p`, the `RuntimeError` of a range of more
      than 500 days, and otherwise one piece per stretch of work days. */
  function PerWeekday(p: NewSegmentParams, rs: ReportSettings): Result<seq<NewSegmentParams>> {
    if p.end.None? then Err(AssertionError)
    else match DaysBetween(p.start, p.end.value)
      case Err(e) => Err(e)
      case Ok(days) =>
        Ok(Covers(p, WorkSpans(rs.isWorkDay, days, rs.isWorkDay(DayOf(p.start)), p.start, p.end.value)))
  }

  lemma CoversCons(p: NewSegmentParams, s: Span, rest: seq<Span>)
    ensures Covers(p, [s] + rest) == [Cover(p, s)] + Covers(p, rest)
  {
    assert ([s] + rest)[1..] == rest;
  }

  /** One day of the loop, from position `i` of the day list. */
  lemma WorkSpansStep(isWork: int -> bool, ds: seq<int>, i: int, working: bool, from: Timestamp, end: Timestamp)
    requires 0 <= i < |ds|
    ensures WorkSpans(isWork, ds[i..], working, from, end)
            == if working && !isWork(ds[i]) then [Span(from, Midnight(ds[i]))] + WorkSpans(isWork, ds[i + 1..], false, from, end)
               else if !working && isWork(ds[i]) then WorkSpans(isWork, ds[i + 1..], true, Midnight(ds[i]), end)
               else WorkSpans(isWork, ds[i + 1..], working, from, end)
  {
    assert ds[i..][0] == ds[i] && ds[i..][1..] == ds[i + 1..];
  }

  lemma PerWeekdayDays(p: NewSegmentParams, rs: ReportSettings, ds: seq<int>)
    requires p.end.Some? && DaysBetween(p.start, p.end.value) == Ok(ds)
    ensures PerWeekday(p, rs) == Ok(Covers(p, WorkSpans(rs.isWorkDay, ds, rs.isWorkDay(DayOf(p.start)), p.start, p.end.value)))
  {
  }

  /** `split_segment_params_per_weekday`. */
  method SplitSegmentParamsPerWeekday(p: NewSegmentParams, rs: ReportSettings)
    returns (r: Result<seq<NewSegmentParams>>)
    ensures r == PerWeekday(p, rs)
  {
    if p.end.None? {
      return Err(AssertionError);
    }
    var days := Helper.IterOverDays(p.start, p.end.value);
    assert days == DaysBetween(p.start, p.end.value);
    if days.Err? {
      assert PerWeekday(p, rs) == Err(days.error);
      return Err(days.error);
    }
    PerWeekdayDays(p, rs, days.value);
    var ret := WeekdayLoop(p, rs.isWorkDay, days.value, p.end.value);
    r := Ok(ret);
  }

  /** The loop of `split_segment_params_per_weekday` over the days `ds` of
      `p`, which ends at `end`. */
  method WeekdayLoop(p: NewSegmentParams, isWork: int -> bool, ds: seq<int>, end: Timestamp)
    returns (ret: seq<NewSegmentParams>)
    ensures ret == Covers(p, WorkSpans(isWork, ds, isWork(DayOf(p.start)), p.start, end))
  {
    var start := p.start;
    var working := isWork(DayOf(start));
    ghost var all := Covers(p, WorkSpans(isWork, ds, working, start, end));
    ret := [];
    var i := 0;
    while i < |ds|
      invariant 0 <= i <= |ds|
      invariant all == ret + Covers(p, WorkSpans(isWork, ds[i..], working, start, end))
    {
      var day := ds[i];
      WeekdayStep(p, isWork, ds, i, working, start, end, ret);
      if working {
        if !isWork(day) {
          working := false;
          ret := ret + [Cover(p, Span(start, Midnight(day)))];
        }
      } else if isWork(day) {
        start := Midnight(day);
        working := true;
      }
      i := i + 1;
    }
    WeekdayDone(p, isWork, ds, working, start, end, ret);
    if working {
      ret := ret + [Cover(p, Span(start, end))];
    }
  }

  /** What one day of the loop does to the pieces found and still to come. */
  lemma WeekdayStep(p: NewSegmentParams, isWork: int -> bool, ds: seq<int>, i: int, working: bool,
                    start: Timestamp, end: Timestamp, ret: seq<NewSegmentParams>)
    requires 0 <= i < |ds|
    ensures ret + Covers(p, WorkSpans(isWork, ds[i..], working, start, end))
            == if working && !isWork(ds[i]) then
                 (ret + [Cover(p, Span(start, Midnight(ds[i])))]) + Covers(p, WorkSpans(isWork, ds[i + 1..], false, start, end))
               else if !working && isWork(ds[i]) then
                 ret + Covers(p, WorkSpans(isWork, ds[i + 1..], true, Midnight(ds[i]), end))
               else ret + Covers(p, WorkSpans(isWork, ds[i + 1..], working, start, end))
  {
    WorkSpansStep(isWork, ds, i, working, start, end);
    if working && !isWork(ds[i]) {
      var rest := WorkSpans(isWork, ds[i + 1..], false, start, end);
      CoversCons(p, Span(start, Midnight(ds[i])), rest);
    }
  }

  /** What the loop leaves once the days are done. */
  lemma WeekdayDone(p: NewSegmentParams, isWork: int -> bool, ds: seq<int>, working: bool,
                    start: Timestamp, end: Timestamp, ret: seq<NewSegmentParams>)
    ensures ret + Covers(p, WorkSpans(isWork, ds[|ds|..], working, start, end))
            == if working then ret + [Cover(p, Span(start, end))] else ret
  {
    assert ds[|ds|..] == [];
  }

  /** The range conditions of the lemmas below: the days `k..last` are left,
      `last` is the day of `end - 1µs`, and a current stretch began before
      day `k` and before `end`. */
  predicate StretchState(k: int, last: int, working: bool, from: Timestamp, end: Timestamp) {
    Midnight(last) < end <= Midnight(last + 1) && k <= last + 1
      && (working ==> from < Midnight(k) && from < end)
  }

  /** Where the spans still to come can begin. */
  function Base(k: int, working: bool, from: Timestamp): Timestamp {
    if working then from else Midnight(k)
  }

  /** Every span is non-empty and lies in `[lo, hi)`. */
  predicate Within(sp: seq<Span>, lo: Timestamp, hi: Timestamp) {
    forall i :: 0 <= i < |sp| ==> lo <= sp[i].lo < sp[i].hi <= hi
  }

  /** The spans still to come are non-empty and lie between the base and
      `end`; in a stretch, the first one begins where the stretch began. */
  lemma {:induction false} SpansBounds(isWork: int -> bool, k: int, last: int, working: bool, from: Timestamp, end: Timestamp)
    requires StretchState(k, last, working, from, end)
    ensures Within(WorkSpans(isWork, Helper.DayRange(k, last), working, from, end), Base(k, working, from), end)
    ensures working ==> |WorkSpans(isWork, Helper.DayRange(k, last), working, from, end)| >= 1
                        && WorkSpans(isWork, Helper.DayRange(k, last), working, from, end)[0].lo == from
    decreases last + 1 - k
  {
    if k <= last {
      var days := Helper.DayRange(k, last);
      assert days[0] == k && days[1..] == Helper.DayRange(k + 1, last);
      if working && !isWork(k) {
        SpansBounds(isWork, k + 1, last, false, from, end);
        var rest := WorkSpans(isWork, days[1..], false, from, end);
        var sp := [Span(from, Midnight(k))] + rest;
        forall i | 0 < i < |sp| ensures sp[i] == rest[i - 1] { }
      } else if !working && isWork(k) {
        SpansBounds(isWork, k + 1, last, true, Midnight(k), end);
      } else {
        SpansBounds(isWork, k + 1, last, working, from, end);
      }
    }
  }

  /** Each span ends before the next begins. */
  predicate Apart(sp: seq<Span>) {
    forall i, j :: 0 <= i < j < |sp| ==> sp[i].hi < sp[j].lo
  }

  /** The spans still to come are in order and apart. */
  lemma {:induction false} SpansOrdered(isWork: int -> bool, k: int, last: int, working: bool, from: Timestamp, end: Timestamp)
    requires StretchState(k, last, working, from, end)
    ensures Apart(WorkSpans(isWork, Helper.DayRange(k, last), working, from, end))
    decreases last + 1 - k
  {
    if k <= last {
      var days := Helper.DayRange(k, last);
      assert days[0] == k && days[1..] == Helper.DayRange(k + 1, last);
      if working && !isWork(k) {
        SpansOrdered(isWork, k + 1, last, false, from, end);
        SpansBounds(isWork, k + 1, last, false, from, end);
        var rest := WorkSpans(isWork, days[1..], false, from, end);
        var sp := [Span(from, Midnight(k))] + rest;
        forall i | 0 < i < |sp| ensures sp[i] == rest[i - 1] { }
      } else if !working && isWork(k) {
        SpansOrdered(isWork, k + 1, last, true, Midnight(k), end);
      } else {
        SpansOrdered(isWork, k + 1, last, working, from, end);
      }
    }
  }

  /** Every span begins at a midnight, but for a first one when `first` is
      free. */
  predicate MidnightStarts(sp: seq<Span>, first: bool) {
    forall i :: 0 <= i < |sp| ==> (i == 0 && first) || IsMidnight(sp[i].lo)
  }

  /** Every span ends at a midnight, but for a last one ending at `end`. */
  predicate MidnightEnds(sp: seq<Span>, end: Timestamp) {
    forall i :: 0 <= i < |sp| ==> IsMidnight(sp[i].hi) || (i == |sp| - 1 && sp[i].hi == end)
  }

  /** The spans still to come begin at a midnight, but for the first one of
      a stretch under way, and end at a midnight, but for a last one ending
      at `end`. */
  lemma {:induction false} SpansMidnights(isWork: int -> bool, k: int, last: int, working: bool, from: Timestamp, end: Timestamp)
    requires StretchState(k, last, working, from, end)
    ensures MidnightStarts(WorkSpans(isWork, Helper.DayRange(k, last), working, from, end), working)
    ensures MidnightEnds(WorkSpans(isWork, Helper.DayRange(k, last), working, from, end), end)
    decreases last + 1 - k
  {
    if k <= last {
      var days := Helper.DayRange(k, last);
      assert days[0] == k && days[1..] == Helper.DayRange(k + 1, last);
      DayOfMidnight(k);
      if working && !isWork(k) {
        SpansMidnights(isWork, k + 1, last, false, from, end);
        MidnightsCons(Span(from, Midnight(k)), WorkSpans(isWork, days[1..], false, from, end), end);
      } else if !working && isWork(k) {
        SpansMidnights(isWork, k + 1, last, true, Midnight(k), end);
        SpansBounds(isWork, k + 1, last, true, Midnight(k), end);
      } else {
        SpansMidnights(isWork, k + 1, last, working, from, end);
      }
    }
  }

  /** A span ending at a midnight, put in front of spans that all begin at a
      midnight, keeps both properties with its own start free. */
  lemma MidnightsCons(s: Span, rest: seq<Span>, end: Timestamp)
    requires IsMidnight(s.hi) && MidnightStarts(rest, false) && MidnightEnds(rest, end)
    ensures MidnightStarts([s] + rest, true) && MidnightEnds([s] + rest, end)
  {
    var sp := [s] + rest;
    forall i | 0 < i < |sp| ensures sp[i] == rest[i - 1] { }
  }

  /** `t` lies in one of the spans. */
  predicate InSpans(sp: seq<Span>, t: Timestamp) {
    exists i :: 0 <= i < |sp| && sp[i].lo <= t < sp[i].hi
  }

  lemma NotInLaterSpans(sp: seq<Span>, t: Timestamp)
    requires forall i :: 0 <= i < |sp| ==> t < sp[i].lo
    ensures !InSpans(sp, t)
  {
  }

  /** The spans still to come cover the rest of the current stretch and
      exactly the work days from `k` on. */
  lemma {:induction false} SpansCover(isWork: int -> bool, k: int, last: int, working: bool, from: Timestamp,
                                      end: Timestamp, t: Timestamp)
    requires StretchState(k, last, working, from, end)
    requires Base(k, working, from) <= t < end
    ensures InSpans(WorkSpans(isWork, Helper.DayRange(k, last), working, from, end), t)
            <==> (working && t < Midnight(k)) || (Midnight(k) <= t && isWork(DayOf(t)))
    decreases last + 1 - k, 1
  {
    var days := Helper.DayRange(k, last);
    var sp := WorkSpans(isWork, days, working, from, end);
    if k == last + 1 {
      if working {
        assert sp[0].lo <= t < sp[0].hi;
      }
    } else {
      assert days[0] == k && days[1..] == Helper.DayRange(k + 1, last);
      if Midnight(k) <= t < Midnight(k + 1) {
        DayOfInRange(t, k);
      }
      if working && !isWork(k) {
        SpansCoverClose(isWork, k, last, from, end, t);
      } else if !working && isWork(k) {
        SpansCover(isWork, k + 1, last, true, Midnight(k), end, t);
      } else if working {
        SpansCover(isWork, k + 1, last, working, from, end, t);
      } else if Midnight(k + 1) <= t {
        SpansCover(isWork, k + 1, last, false, from, end, t);
      } else {
        SpansBounds(isWork, k + 1, last, false, from, end);
        NotInLaterSpans(sp, t);
      }
    }
  }

  /** The case of `SpansCover` where the stretch under way closes at day `k`,
      a free day. */
  lemma {:induction false} SpansCoverClose(isWork: int -> bool, k: int, last: int, from: Timestamp,
                                           end: Timestamp, t: Timestamp)
    requires StretchState(k, last, true, from, end) && k <= last && !isWork(k)
    requires from <= t < end
    ensures InSpans(WorkSpans(isWork, Helper.DayRange(k, last), true, from, end), t)
            <==> t < Midnight(k) || (Midnight(k) <= t && isWork(DayOf(t)))
    decreases last + 1 - k, 0
  {
    var days := Helper.DayRange(k, last);
    assert days[0] == k && days[1..] == Helper.DayRange(k + 1, last);
    var rest := WorkSpans(isWork, days[1..], false, from, end);
    assert WorkSpans(isWork, days, true, from, end) == [Span(from, Midnight(k))] + rest;
    InSpansCons(Span(from, Midnight(k)), rest, t);
    if Midnight(k) <= t {
      if t < Midnight(k + 1) {
        DayOfInRange(t, k);
        SpansBounds(isWork, k + 1, last, false, from, end);
        NotInLaterSpans(rest, t);
      } else {
        SpansCover(isWork, k + 1, last, false, from, end, t);
      }
    }
  }

  /** A span put in front adds exactly its own instants. */
  lemma InSpansCons(s: Span, rest: seq<Span>, t: Timestamp)
    ensures InSpans([s] + rest, t) <==> (s.lo <= t < s.hi) || InSpans(rest, t)
  {
    var sp := [s] + rest;
    if InSpans(sp, t) {
      var i :| 0 <= i < |sp| && sp[i].lo <= t < sp[i].hi;
      if i > 0 {
        assert rest[i - 1] == sp[i];
      }
    }
    if InSpans(rest, t) {
      var i :| 0 <= i < |rest| && rest[i].lo <= t < rest[i].hi;
      assert sp[i + 1] == rest[i];
    }
    if s.lo <= t < s.hi {
      assert sp[0] == s;
    }
  }

  /** `t` lies in one of the pieces. */
  predicate Covered(ps: seq<NewSegmentParams>, t: Timestamp) {
    exists i :: 0 <= i < |ps| && ps[i].end.Some? && ps[i].start <= t < ps[i].end.value
  }

  lemma CoveredSpans(p: NewSegmentParams, sp: seq<Span>, t: Timestamp)
    ensures Covered(Covers(p, sp), t) <==> InSpans(sp, t)
  {
    var ps := Covers(p, sp);
    if Covered(ps, t) {
      var i :| 0 <= i < |ps| && ps[i].end.Some? && ps[i].start <= t < ps[i].end.value;
      assert sp[i].lo <= t < sp[i].hi;
    }
    if InSpans(sp, t) {
      var i :| 0 <= i < |sp| && sp[i].lo <= t < sp[i].hi;
      assert ps[i].start <= t < ps[i].end.value;
    }
  }

  /** The top-level state of the loop: after its first day, which never
      changes the state, the stretch of `start`'s day is under way or not. */
  lemma PerWeekdayStart(p: NewSegmentParams, rs: ReportSettings)
    requires p.end.Some? && p.start < p.end.value && PerWeekday(p, rs).Ok?
    ensures DayOf(p.start) <= DayOf(p.end.value - 1)
    ensures Midnight(DayOf(p.start)) <= p.start < Midnight(DayOf(p.start) + 1)
    ensures StretchState(DayOf(p.start) + 1, DayOf(p.end.value - 1), rs.isWorkDay(DayOf(p.start)), p.start, p.end.value)
    ensures PerWeekday(p, rs).value == Covers(p, StartSpans(p, rs))
  {
    var start, end := p.start, p.end.value;
    var k, last := DayOf(start), DayOf(end - 1);
    MidnightBounds(start);
    MidnightBounds(end - 1);
    DayOfMonotonic(start, end - 1);
    var days := Helper.DayRange(k, last);
    assert days[0] == k && days[1..] == Helper.DayRange(k + 1, last);
  }

  /** The spans of a closed segment once the loop is past its first day. */
  function StartSpans(p: NewSegmentParams, rs: ReportSettings): seq<Span>
    requires p.end.Some?
  {
    WorkSpans(rs.isWorkDay, Helper.DayRange(DayOf(p.start) + 1, DayOf(p.end.value - 1)),
              rs.isWorkDay(DayOf(p.start)), p.start, p.end.value)
  }

  /** The pieces are closed and lie in `[lo, hi)`. */
  predicate PiecesWithin(ps: seq<NewSegmentParams>, lo: Timestamp, hi: Timestamp) {
    forall i :: 0 <= i < |ps| ==> ps[i].end.Some? && lo <= ps[i].start < ps[i].end.value <= hi
  }

  /** Each closed piece ends before the next begins. */
  predicate PiecesApart(ps: seq<NewSegmentParams>) {
    forall i, j :: 0 <= i < j < |ps| && ps[i].end.Some? ==> ps[i].end.value < ps[j].start
  }

  /** Neighbouring pieces meet the gap between them at midnight. */
  predicate PiecesAtMidnight(ps: seq<NewSegmentParams>) {
    && (forall i :: 0 < i < |ps| ==> IsMidnight(ps[i].start))
    && (forall i :: 0 <= i < |ps| - 1 && ps[i].end.Some? ==> IsMidnight(ps[i].end.value))
  }

  /** Every piece keeps the tags, description and flags of `p`. */
  predicate PiecesCopy(ps: seq<NewSegmentParams>, p: NewSegmentParams) {
    forall i :: 0 <= i < |ps| ==>
      ps[i].tags == p.tags && ps[i].description == p.description
      && ps[i].passive == p.passive && ps[i].fullDays == p.fullDays
  }

  lemma CoversShape(p: NewSegmentParams, sp: seq<Span>, lo: Timestamp, hi: Timestamp, first: bool)
    requires Within(sp, lo, hi) && Apart(sp) && MidnightStarts(sp, first) && MidnightEnds(sp, hi)
    ensures var ps := Covers(p, sp);
            PiecesWithin(ps, lo, hi) && PiecesApart(ps) && PiecesCopy(ps, p)
            && (forall i :: 0 < i < |ps| ==> IsMidnight(ps[i].start))
            && (forall i :: 0 <= i < |ps| - 1 ==> IsMidnight(ps[i].end.value))
  {
  }

  /** The pieces of a non-empty segment are ordered and apart, lie inside
      it, meet the rest of the range only at midnight, and copy every field
      of the segment but its span. */
  lemma PerWeekdayOrdered(p: NewSegmentParams, rs: ReportSettings)
    requires p.end.Some? && p.start < p.end.value && PerWeekday(p, rs).Ok?
    ensures PiecesWithin(PerWeekday(p, rs).value, p.start, p.end.value)
    ensures PiecesApart(PerWeekday(p, rs).value)
    ensures PiecesAtMidnight(PerWeekday(p, rs).value)
    ensures PiecesCopy(PerWeekday(p, rs).value, p)
  {
    PerWeekdayStart(p, rs);
    StartSpansShape(p, rs);
    CoversShape(p, StartSpans(p, rs), p.start, p.end.value, rs.isWorkDay(DayOf(p.start)));
  }

  lemma StartSpansShape(p: NewSegmentParams, rs: ReportSettings)
    requires p.end.Some? && StretchState(DayOf(p.start) + 1, DayOf(p.end.value - 1), rs.isWorkDay(DayOf(p.start)), p.start, p.end.value)
    requires p.start <= Midnight(DayOf(p.start) + 1)
    ensures Within(StartSpans(p, rs), p.start, p.end.value) && Apart(StartSpans(p, rs))
    ensures MidnightStarts(StartSpans(p, rs), rs.isWorkDay(DayOf(p.start)))
    ensures MidnightEnds(StartSpans(p, rs), p.end.value)
  {
    var k, last := DayOf(p.start), DayOf(p.end.value - 1);
    var w := rs.isWorkDay(k);
    SpansBounds(rs.isWorkDay, k + 1, last, w, p.start, p.end.value);
    SpansOrdered(rs.isWorkDay, k + 1, last, w, p.start, p.end.value);
    SpansMidnights(rs.isWorkDay, k + 1, last, w, p.start, p.end.value);
  }

  lemma StartSpansCover(p: NewSegmentParams, rs: ReportSettings, t: Timestamp)
    requires p.end.Some? && StretchState(DayOf(p.start) + 1, DayOf(p.end.value - 1), rs.isWorkDay(DayOf(p.start)), p.start, p.end.value)
    requires Midnight(DayOf(p.start)) <= p.start < Midnight(DayOf(p.start) + 1)
    requires p.start <= t < p.end.value
    ensures InSpans(StartSpans(p, rs), t) <==> rs.isWorkDay(DayOf(t))
  {
    var k, last := DayOf(p.start), DayOf(p.end.value - 1);
    var isWork := rs.isWorkDay;
    if t < Midnight(k + 1) {
      DayOfInRange(t, k);
    }
    if isWork(k) || Midnight(k + 1) <= t {
      SpansCover(isWork, k + 1, last, isWork(k), p.start, p.end.value, t);
    } else {
      SpansBounds(isWork, k + 1, last, false, p.start, p.end.value);
      NotInLaterSpans(StartSpans(p, rs), t);
    }
  }

  /** The pieces of a non-empty segment cover exactly its moments on work
      days. */
  lemma PerWeekdayCover(p: NewSegmentParams, rs: ReportSettings, t: Timestamp)
    requires p.end.Some? && p.start < p.end.value && PerWeekday(p, rs).Ok?
    requires p.start <= t < p.end.value
    ensures Covered(PerWeekday(p, rs).value, t) <==> rs.isWorkDay(DayOf(t))
  {
    PerWeekdayStart(p, rs);
    CoveredSpans(p, StartSpans(p, rs), t);
    StartSpansCover(p, rs, t);
  }

  /** A non-empty segment has no piece exactly when no day of its range is
      a work day. */
  lemma PerWeekdayEmpty(p: NewSegmentParams, rs: ReportSettings)
    requires p.end.Some? && p.start < p.end.value && PerWeekday(p, rs).Ok?
    ensures (PerWeekday(p, rs).value == [])
            <==> forall d :: DayOf(p.start) <= d <= DayOf(p.end.value - 1) ==> !rs.isWorkDay(d)
  {
    PerWeekdayStart(p, rs);
    var start, end := p.start, p.end.value;
    var k, last := DayOf(start), DayOf(end - 1);
    var ps := PerWeekday(p, rs).value;
    if ps == [] {
      forall d | k <= d <= last ensures !rs.isWorkDay(d) {
        var t := if d == k then start else Midnight(d);
        DayOfMidnight(d);
        assert start <= t < end && DayOf(t) == d;
        PerWeekdayCover(p, rs, t);
      }
    } else {
      var t := ps[0].start;
      StartSpansShape(p, rs);
      PerWeekdayCover(p, rs, t);
      assert Covered(ps, t);
      DayOfMonotonic(start, t);
      DayOfMonotonic(t, end - 1);
    }
  }

  // ---------------------------------------------------------------------
  // split_segments_at_midnight

  /** `datetime` of the date of `dt_add(day, days=1)`: the midnight after
      day `d`. */
  function NextMidnight(d: int): Timestamp {
    Midnight(DayOf(Helper.DtAdd(Midnight(d), 0, Helper.Days(1))))
  }

  lemma NextMidnightIsNext(d: int)
    ensures NextMidnight(d) == Midnight(d + 1)
  {
    DayOfMidnight(d + 1);
  }

  /** The piece of `row` on day `d` after its first day: from midnight to
      the row's end on the end's own day, else to the next midnight. */
  function DayPiece(row: Row, d: int, end: Timestamp): Row {
    row.(start := Midnight(d), end := Some(if d == DayOf(end) then end else NextMidnight(d)), fullDays := false)
  }

  /** The first piece of a row split at midnight: the row up to `m`, as a
      new `PensiveRow`, which does not carry `full_days` over. */
  function FirstPiece(row: Row, m: Timestamp): Row {
    row.(end := Some(m), fullDays := false)
  }

  function DayPieces(row: Row, days: seq<int>, end: Timestamp): (ps: seq<Row>)
    ensures |ps| == |days|
    ensures forall i :: 0 <= i < |days| ==> ps[i] == DayPiece(row, days[i], end)
  {
    if days == [] then [] else DayPieces(row, days[..|days| - 1], end) + [DayPiece(row, days[|days| - 1], end)]
  }

  /** What `split_segments_at_midnight` yields for one row: the row itself
      when it is running or ends on its start date, otherwise its part up to
      the following midnight and one piece for each later day of
      `iter_over_days(end_of_day(start), end)`, or that loop's
      `RuntimeError`. */
  function MidnightPieces(row: Row): Result<seq<Row>> {
    if row.end.None? || DayOf(row.end.value) == DayOf(row.start) then Ok([row])
    else
      var first := FirstPiece(row, Helper.EndOfDay(row.start));
      match DaysBetween(Helper.EndOfDay(row.start), row.end.value)
      case Err(e) => Err(e)
      case Ok(days) => Ok([first] + DayPieces(row, days, row.end.value))
  }

  /** What `list(split_segments_at_midnight(rows))` is: the pieces of every
      row, in order, or the first error. */
  function AllMidnightPieces(rows: seq<Row>): Result<seq<Row>> {
    if rows == [] then Ok([])
    else match AllMidnightPieces(rows[..|rows| - 1])
      case Err(e) => Err(e)
      case Ok(init) =>
        match MidnightPieces(rows[|rows| - 1])
        case Err(e) => Err(e)
        case Ok(ps) => Ok(init + ps)
  }

  lemma AllMidnightPiecesStep(rows: seq<Row>, i: int)
    requires 0 <= i < |rows|
    ensures AllMidnightPieces(rows[..i + 1])
            == match AllMidnightPieces(rows[..i])
               case Err(e) => Err(e)
               case Ok(init) =>
                 match MidnightPieces(rows[i])
                 case Err(e) => Err(e)
                 case Ok(ps) => Ok(init + ps)
  {
    assert rows[..i + 1][..i] == rows[..i] && rows[..i + 1][i] == rows[i];
  }

  /** The first row whose days cannot be listed decides the result. */
  lemma {:induction false} MidnightErrorStays(rows: seq<Row>, j: int)
    requires 0 <= j <= |rows| && AllMidnightPieces(rows[..j]).Err?
    ensures AllMidnightPieces(rows) == AllMidnightPieces(rows[..j])
    decreases |rows| - j
  {
    if j < |rows| {
      AllMidnightPiecesStep(rows, j);
      MidnightErrorStays(rows, j + 1);
    } else {
      assert rows[..j] == rows;
    }
  }

  lemma DayPiecesStep(row: Row, ds: seq<int>, j: int, end: Timestamp, base: seq<Row>)
    requires 0 <= j < |ds|
    ensures base + DayPieces(row, ds[..j + 1], end) == (base + DayPieces(row, ds[..j], end)) + [DayPiece(row, ds[j], end)]
  {
    assert ds[..j + 1][..j] == ds[..j];
  }

  lemma MidnightPiecesDays(row: Row, ds: seq<int>)
    requires row.end.Some? && DayOf(row.end.value) != DayOf(row.start)
    requires DaysBetween(Helper.EndOfDay(row.start), row.end.value) == Ok(ds)
    ensures MidnightPieces(row)
            == Ok([FirstPiece(row, Helper.EndOfDay(row.start))] + DayPieces(row, ds, row.end.value))
  {
  }

  /** `split_segments_at_midnight`, collected into a list. */
  method SplitSegmentsAtMidnight(rows: seq<Row>) returns (r: Result<seq<Row>>)
    ensures r == AllMidnightPieces(rows)
  {
    var out: seq<Row> := [];
    var i := 0;
    while i < |rows|
      invariant 0 <= i <= |rows|
      invariant AllMidnightPieces(rows[..i]) == Ok(out)
    {
      AllMidnightPiecesStep(rows, i);
      var pieces := RowAtMidnight(rows[i]);
      if pieces.Err? {
        MidnightErrorStays(rows, i + 1);
        return Err(pieces.error);
      }
      out := out + pieces.value;
      i := i + 1;
    }
    assert rows[..i] == rows;
    r := Ok(out);
  }

  /** What the loop of `split_segments_at_midnight` yields for one row. */
  method RowAtMidnight(row: Row) returns (r: Result<seq<Row>>)
    ensures r == MidnightPieces(row)
  {
    if row.end.Some? && DayOf(row.end.value) == DayOf(row.start) {
      return Ok([row]);
    } else if row.end.None? {
      return Ok([row]);
    }
    var end := row.end.value;
    var out := [FirstPiece(row, Helper.EndOfDay(row.start))];
    var days := Helper.IterOverDays(Helper.EndOfDay(row.start), end);
    assert days == DaysBetween(Helper.EndOfDay(row.start), end);
    if days.Err? {
      return Err(days.error);
    }
    var ds := days.value;
    MidnightPiecesDays(row, ds);
    ghost var base := out;
    var j := 0;
    while j < |ds|
      invariant 0 <= j <= |ds|
      invariant out == base + DayPieces(row, ds[..j], end)
    {
      var day := ds[j];
      var pieceEnd := if day == DayOf(end) then end else NextMidnight(day);
      DayPiecesStep(row, ds, j, end, base);
      out := out + [row.(start := Midnight(day), end := Some(pieceEnd), fullDays := false)];
      j := j + 1;
    }
    assert ds[..j] == ds;
    r := Ok(out);
  }

  /** A row that is running or ends on its start date is yielded as it is. */
  lemma MidnightUnsplit(row: Row)
    requires row.end.None? || DayOf(row.end.value) == DayOf(row.start)
    ensures MidnightPieces(row) == Ok([row])
  {
  }

  /** Each piece ends where the next begins. */
  predicate Contiguous(ps: seq<Row>) {
    forall i :: 0 <= i < |ps| - 1 ==> ps[i].end == Some(ps[i + 1].start)
  }

  /** Each piece is closed and lies within its start's calendar day. */
  predicate WithinDays(ps: seq<Row>) {
    forall i :: 0 <= i < |ps| ==>
      ps[i].end.Some? && ps[i].start <= ps[i].end.value <= Midnight(DayOf(ps[i].start) + 1)
  }

  /** Each piece keeps the key, tags, description and passive flag of `row`. */
  predicate SameRow(ps: seq<Row>, row: Row) {
    forall i :: 0 <= i < |ps| ==>
      ps[i].pk == row.pk && ps[i].tags == row.tags
      && ps[i].description == row.description && ps[i].passive == row.passive
  }

  /** The day pieces from day `k` up to the day of `end - 1µs` run from
      midnight of day `k` to `end`, one contiguous day at a time. */
  lemma DayPiecesShape(row: Row, k: int, last: int, end: Timestamp)
    requires Midnight(last) < end <= Midnight(last + 1) && k <= last
    ensures |DayPieces(row, Helper.DayRange(k, last), end)| == last - k + 1
    ensures DayPieces(row, Helper.DayRange(k, last), end)[0].start == Midnight(k)
    ensures DayPieces(row, Helper.DayRange(k, last), end)[last - k].end == Some(end)
    ensures Contiguous(DayPieces(row, Helper.DayRange(k, last), end))
    ensures WithinDays(DayPieces(row, Helper.DayRange(k, last), end))
    ensures SameRow(DayPieces(row, Helper.DayRange(k, last), end), row)
  {
    DayPiecesSpans(row, k, last, end);
    DaysShape(DayPieces(row, Helper.DayRange(k, last), end), k, last, end);
  }

  /** Pieces that run from midnight to midnight of successive days `k`,
      ..., `last`, the last one up to `end`, are contiguous and each within
      its day. */
  lemma DaysShape(rest: seq<Row>, k: int, last: int, end: Timestamp)
    requires Midnight(last) < end <= Midnight(last + 1) && |rest| == last - k + 1
    requires forall i :: 0 <= i < |rest| ==>
               rest[i].start == Midnight(k + i)
               && rest[i].end == Some(if i == last - k then end else Midnight(k + i + 1))
    ensures Contiguous(rest) && WithinDays(rest)
  {
    forall i | 0 <= i < |rest|
      ensures rest[i].end.Some? && rest[i].start <= rest[i].end.value <= Midnight(DayOf(rest[i].start) + 1)
    {
      DayOfMidnight(k + i);
    }
  }

  /** Day piece `i` runs from midnight of day `k + i` to the next midnight,
      or to `end` for the last one. */
  lemma DayPiecesSpans(row: Row, k: int, last: int, end: Timestamp)
    requires Midnight(last) < end <= Midnight(last + 1) && k <= last
    ensures var rest := DayPieces(row, Helper.DayRange(k, last), end);
            forall i :: 0 <= i < |rest| ==>
              rest[i].start == Midnight(k + i)
              && rest[i].end == Some(if i == last - k then end else Midnight(k + i + 1))
    ensures SameRow(DayPieces(row, Helper.DayRange(k, last), end), row)
  {
    var rest := DayPieces(row, Helper.DayRange(k, last), end);
    MidnightBounds(end);
    forall i | 0 <= i < |rest|
      ensures rest[i].start == Midnight(k + i)
      ensures rest[i].end == Some(if i == last - k then end else Midnight(k + i + 1))
    {
      NextMidnightIsNext(k + i);
    }
  }

  lemma ConsPieces(first: Row, rest: seq<Row>, row: Row)
    requires |rest| >= 1 && first.end == Some(rest[0].start) && rest[|rest| - 1].end == row.end
    requires Contiguous(rest) && WithinDays(rest) && SameRow(rest, row)
    requires first.start == row.start && first.start <= rest[0].start <= Midnight(DayOf(first.start) + 1)
    requires first.pk == row.pk && first.tags == row.tags
    requires first.description == row.description && first.passive == row.passive
    ensures SplitShape([first] + rest, row)
  {
    var ps := [first] + rest;
    forall i | 0 < i < |ps| ensures ps[i] == rest[i - 1] { }
  }

  /** The pieces of a closed row are contiguous, run from the row's start to
      its end, each within one calendar day, and keep its key, tags,
      description and passive flag. */
  lemma MidnightSplitPieces(row: Row)
    requires row.end.Some? && row.start <= row.end.value && MidnightPieces(row).Ok?
    ensures SplitShape(MidnightPieces(row).value, row)
  {
    var start, end := row.start, row.end.value;
    var k := DayOf(start);
    if DayOf(end) == k {
      MidnightSplitSameDay(row);
    } else if end <= Midnight(k + 1) {
      MidnightSplitShortShape(row, k);
    } else {
      MidnightSplitLongShape(row, k);
    }
  }

  lemma MidnightSplitShortShape(row: Row, k: int)
    requires row.end.Some? && k == DayOf(row.start) && DayOf(row.end.value) != k
    requires row.start <= row.end.value <= Midnight(k + 1) && MidnightPieces(row).Ok?
    ensures SplitShape(MidnightPieces(row).value, row)
  {
    MidnightSplitShort(row, k);
    assert Representable(row.end.value - 1);
  }

  lemma MidnightSplitLongShape(row: Row, k: int)
    requires row.end.Some? && k == DayOf(row.start) && row.end.value > Midnight(k + 1)
    requires MidnightPieces(row).Ok?
    ensures SplitShape(MidnightPieces(row).value, row)
  {
    var end := row.end.value;
    var last := DayOf(end - 1);
    MidnightPiecesLong(row, k, last);
    var ps := DayPiecesAfter(row, k, last);
    assert ps.Ok? && Representable(end - 1);
    assert ps.value == [FirstPiece(row, Midnight(k + 1))] + DayPieces(row, Helper.DayRange(k + 1, last), end);
    MidnightSplitLong(row, last, ps.value);
  }

  /** A row that ends on its start date is its own single piece. */
  lemma MidnightSplitSameDay(row: Row)
    requires row.end.Some? && row.start <= row.end.value && DayOf(row.end.value) == DayOf(row.start)
    ensures MidnightPieces(row) == Ok([row]) && SplitShape([row], row)
  {
    MidnightBounds(row.end.value);
  }

  /** A row that ends exactly at the midnight after its start: one piece up
      to that midnight, and no day pieces (unless its end is Python's first
      moment, which `iter_over_days` cannot step back from). */
  lemma MidnightSplitShort(row: Row, k: int)
    requires row.end.Some? && k == DayOf(row.start) && DayOf(row.end.value) != k
    requires row.start <= row.end.value <= Midnight(k + 1)
    ensures MidnightPieces(row)
         == if Representable(row.end.value - 1) then Ok([FirstPiece(row, Midnight(k + 1))]) else Err(OverflowError)
    ensures SplitShape([FirstPiece(row, Midnight(k + 1))], row)
  {
    MidnightBounds(row.start);
    MidnightBounds(row.end.value);
    DayOfMonotonic(row.start, row.end.value);
    assert row.end.value == Midnight(k + 1);
    Helper.EndOfDayNextMidnight(row.start);
    if Representable(row.end.value - 1) {
      assert DaysBetween(Helper.EndOfDay(row.start), row.end.value) == Ok([]);
      assert DayPieces(row, [], row.end.value) == [];
    }
    assert [FirstPiece(row, Midnight(k + 1))] + [] == [FirstPiece(row, Midnight(k + 1))];
  }

  /** The case of a row that ends after the midnight following its start:
      its first piece and one piece for each day from the next to `last`,
      the day of its end less one microsecond. */
  lemma MidnightSplitLong(row: Row, last: int, ps: seq<Row>)
    requires row.end.Some? && DayOf(row.start) + 1 <= last
    requires Midnight(last) < row.end.value <= Midnight(last + 1)
    requires ps == [FirstPiece(row, Midnight(DayOf(row.start) + 1))]
                   + DayPieces(row, Helper.DayRange(DayOf(row.start) + 1, last), row.end.value)
    ensures SplitShape(ps, row)
  {
    var k := DayOf(row.start);
    MidnightBounds(row.start);
    DayPiecesShape(row, k + 1, last, row.end.value);
    ConsPieces(FirstPiece(row, Midnight(k + 1)), DayPieces(row, Helper.DayRange(k + 1, last), row.end.value), row);
  }

  /** The pieces of a row that starts on day `k` and ends after the next
      midnight, on a day whose last moment before its end is on day `last`. */
  lemma MidnightPiecesLong(row: Row, k: int, last: int)
    requires row.end.Some? && k == DayOf(row.start) && last == DayOf(row.end.value - 1)
    requires row.end.value > Midnight(k + 1)
    ensures k + 1 <= last
    ensures Midnight(last) < row.end.value <= Midnight(last + 1)
    ensures MidnightPieces(row) == DayPiecesAfter(row, k, last)
  {
    var end := row.end.value;
    MidnightBounds(row.start);
    MidnightBounds(end - 1);
    DayOfMidnight(k + 1);
    DayOfMonotonic(Midnight(k + 1), end - 1);
    MidnightSplitAt(row, k, last);
  }

  /** A long row's pieces once its first day is split off. */
  function DayPiecesAfter(row: Row, k: int, last: int): Result<seq<Row>>
    requires row.end.Some?
  {
    if !Representable(row.end.value - 1) then Err(OverflowError)
    else if last - (k + 1) + 1 > Helper.MaxDays then Err(RuntimeError)
    else if last == DaysOfAllYears - 1 then Err(OverflowError)
    else Ok([FirstPiece(row, Midnight(k + 1))] + DayPieces(row, Helper.DayRange(k + 1, last), row.end.value))
  }

  lemma MidnightSplitAt(row: Row, k: int, last: int)
    requires row.end.Some? && k == DayOf(row.start) && last == DayOf(row.end.value - 1)
    requires Midnight(k + 1) < row.end.value && k + 1 <= last
    ensures MidnightPieces(row) == DayPiecesAfter(row, k, last)
  {
    Helper.EndOfDayNextMidnight(row.start);
    assert DayOf(row.end.value) != k;
  }

  /** The pieces run from the row's start to its end, contiguous, each within
      one day, and keep the row's key, tags, description and passive flag. */
  predicate SplitShape(ps: seq<Row>, row: Row) {
    && |ps| >= 1 && ps[0].start == row.start && ps[|ps| - 1].end == row.end
    && Contiguous(ps) && WithinDays(ps) && SameRow(ps, row)
  }

  // ---------------------------------------------------------------------
  // group_by_day

  /** The runs `itertools.groupby` forms: maximal stretches of consecutive
      elements with the same key. */
  function Runs<T>(xs: seq<T>, key: T -> int): (runs: seq<seq<T>>)
    ensures |xs| > 0 ==> |runs| > 0 && runs[0] != [] && runs[0][0] == xs[0]
    ensures xs == [] ==> runs == []
  {
    if xs == [] then []
    else
      var rest := Runs(xs[1..], key);
      if rest != [] && key(rest[0][0]) == key(xs[0]) then [[xs[0]] + rest[0]] + rest[1..]
      else [[xs[0]]] + rest
  }

  function Flatten<T>(runs: seq<seq<T>>): seq<T> {
    if runs == [] then [] else runs[0] + Flatten(runs[1..])
  }

  /** `{k: list(v) for k, v in groupby(xs, key)}`: one entry per run, a
      later run of a key replacing an earlier one. */
  function MapOfRuns<T>(runs: seq<seq<T>>, key: T -> int): map<int, seq<T>> {
    if runs == [] then map[]
    else if runs[0] == [] then MapOfRuns(runs[1..], key)
    else map[key(runs[0][0]) := runs[0]] + MapOfRuns(runs[1..], key)
  }

  function StartDay(r: Row): int { DayOf(r.start) }

  /** `group_by_day(rows)`: the rows grouped by start date. */
  function GroupByDay(rows: seq<Row>): map<int, seq<Row>> {
    MapOfRuns(Runs(rows, StartDay), StartDay)
  }

  /** The runs are non-empty, share one key each, differ in key from their
      neighbours, and put together are the elements again. */
  lemma RunsPartition<T>(xs: seq<T>, key: T -> int)
    ensures var runs := Runs(xs, key);
            && Flatten(runs) == xs
            && (forall i :: 0 <= i < |runs| ==> runs[i] != [])
            && (forall i, j :: 0 <= i < |runs| && 0 <= j < |runs[i]| ==> key(runs[i][j]) == key(runs[i][0]))
            && (forall i :: 0 <= i < |runs| - 1 ==> key(runs[i][0]) != key(runs[i + 1][0]))
  {
    RunsFlatten(xs, key);
    RunsShape(xs, key);
  }

  lemma {:induction false} RunsFlatten<T>(xs: seq<T>, key: T -> int)
    ensures Flatten(Runs(xs, key)) == xs
  {
    if xs != [] {
      var x := xs[0];
      var rest := Runs(xs[1..], key);
      RunsFlatten(xs[1..], key);
      assert xs == [x] + xs[1..];
      if rest != [] && key(rest[0][0]) == key(x) {
        var head := [x] + rest[0];
        var runs := [head] + rest[1..];
        assert Runs(xs, key) == runs;
        assert runs[1..] == rest[1..];
        assert Flatten(rest) == rest[0] + Flatten(rest[1..]);
        assert Flatten(runs) == head + Flatten(rest[1..]);
      } else {
        var runs := [[x]] + rest;
        assert Runs(xs, key) == runs;
        assert runs[1..] == rest;
        assert Flatten(runs) == [x] + Flatten(rest);
      }
    }
  }

  /** Non-empty runs, each of one key, each differing in key from the next. */
  predicate Grouped<T>(runs: seq<seq<T>>, key: T -> int) {
    && (forall i :: 0 <= i < |runs| ==> runs[i] != [])
    && (forall i, j :: 0 <= i < |runs| && 0 <= j < |runs[i]| ==> key(runs[i][j]) == key(runs[i][0]))
    && (forall i :: 0 <= i < |runs| - 1 ==> key(runs[i][0]) != key(runs[i + 1][0]))
  }

  lemma {:induction false} RunsShape<T>(xs: seq<T>, key: T -> int)
    ensures Grouped(Runs(xs, key), key)
  {
    if xs != [] {
      var x := xs[0];
      var rest := Runs(xs[1..], key);
      RunsShape(xs[1..], key);
      if rest != [] && key(rest[0][0]) == key(x) {
        var head := [x] + rest[0];
        var runs := [head] + rest[1..];
        assert Runs(xs, key) == runs;
        forall i | 0 <= i < |runs|
          ensures runs[i] != [] && forall j :: 0 <= j < |runs[i]| ==> key(runs[i][j]) == key(runs[i][0])
        {
          if i > 0 {
            assert runs[i] == rest[i];
          } else {
            forall j | 0 < j < |head| ensures key(head[j]) == key(x) {
              assert head[j] == rest[0][j - 1];
            }
          }
        }
        forall i | 0 <= i < |runs| - 1 ensures key(runs[i][0]) != key(runs[i + 1][0]) {
          assert runs[i + 1] == rest[i + 1];
          if i > 0 {
            assert runs[i] == rest[i];
          }
        }
      } else {
        var runs := [[x]] + rest;
        assert Runs(xs, key) == runs;
        forall i | 0 < i < |runs| ensures runs[i] == rest[i - 1] { }
      }
    }
  }

  /** The elements with key `d`, in order. */
  function WithKey<T>(xs: seq<T>, key: T -> int, d: int): (r: seq<T>)
    ensures forall x :: x in r ==> x in xs && key(x) == d
  {
    if xs == [] then []
    else (if key(xs[0]) == d then [xs[0]] else []) + WithKey(xs[1..], key, d)
  }

  lemma {:induction false} WithKeyNone<T>(xs: seq<T>, key: T -> int, d: int)
    requires forall i :: 0 <= i < |xs| ==> key(xs[i]) != d
    ensures WithKey(xs, key, d) == []
  {
    if xs != [] {
      WithKeyNone(xs[1..], key, d);
    }
  }

  /** Some element has key `d`. */
  predicate HasKey<T>(xs: seq<T>, key: T -> int, d: int) {
    exists i :: 0 <= i < |xs| && key(xs[i]) == d
  }

  lemma HasKeyCons<T>(xs: seq<T>, key: T -> int, d: int)
    requires xs != []
    ensures HasKey(xs, key, d) <==> key(xs[0]) == d || HasKey(xs[1..], key, d)
  {
    if HasKey(xs, key, d) {
      var i :| 0 <= i < |xs| && key(xs[i]) == d;
      if i > 0 {
        assert xs[1..][i - 1] == xs[i];
      }
    }
    if HasKey(xs[1..], key, d) {
      var i :| 0 <= i < |xs[1..]| && key(xs[1..][i]) == d;
      assert xs[i + 1] == xs[1..][i];
    }
  }

  predicate KeysAscending<T>(xs: seq<T>, key: T -> int) {
    forall i, j :: 0 <= i < j < |xs| ==> key(xs[i]) <= key(xs[j])
  }

  /** For elements in ascending key order, each key maps to exactly the
      elements with that key, and to nothing else; the first run holds all
      elements of the first key, so no later run has it. */
  lemma {:induction false} GroupSorted<T>(xs: seq<T>, key: T -> int)
    requires KeysAscending(xs, key)
    ensures var m := MapOfRuns(Runs(xs, key), key);
            && (forall d :: d in m <==> HasKey(xs, key, d))
            && (forall d :: d in m ==> m[d] == WithKey(xs, key, d))
    ensures xs != [] ==> Runs(xs, key)[0] == WithKey(xs, key, key(xs[0]))
                         && key(xs[0]) !in MapOfRuns(Runs(xs, key)[1..], key)
  {
    if xs != [] {
      var x, tail := xs[0], xs[1..];
      var kx := key(x);
      assert KeysAscending(tail, key) by {
        forall i, j | 0 <= i < j < |tail| ensures key(tail[i]) <= key(tail[j]) {
          assert tail[i] == xs[i + 1] && tail[j] == xs[j + 1];
        }
      }
      GroupSorted(tail, key);
      var rest := Runs(tail, key);
      if rest != [] && key(rest[0][0]) == kx {
        RunsMerge(xs, key);
      } else {
        forall i | 0 <= i < |tail| ensures key(tail[i]) != kx {
          assert tail[i] == xs[i + 1];
          if i > 0 {
            assert key(tail[0]) <= key(tail[i]);
          }
        }
        WithKeyNone(tail, key, kx);
        assert !HasKey(tail, key, kx);
        RunsNew(xs, key);
      }
      GroupCons(xs, key, MapOfRuns(rest, key), MapOfRuns(Runs(xs, key), key));
    }
  }

  /** The first element joins the first run of the rest, which has its key. */
  lemma RunsMerge<T>(xs: seq<T>, key: T -> int)
    requires |xs| > 1
    requires Runs(xs[1..], key) != [] && key(Runs(xs[1..], key)[0][0]) == key(xs[0])
    requires Runs(xs[1..], key)[0] == WithKey(xs[1..], key, key(xs[1]))
    requires key(xs[0]) !in MapOfRuns(Runs(xs[1..], key)[1..], key)
    ensures MapOfRuns(Runs(xs, key), key)
            == MapOfRuns(Runs(xs[1..], key), key)[key(xs[0]) := [xs[0]] + WithKey(xs[1..], key, key(xs[0]))]
    ensures Runs(xs, key)[0] == WithKey(xs, key, key(xs[0]))
            && key(xs[0]) !in MapOfRuns(Runs(xs, key)[1..], key)
  {
    RunsMergeMap(xs, key);
    RunsMergeHead(xs, key);
  }

  lemma RunsMergeMap<T>(xs: seq<T>, key: T -> int)
    requires |xs| > 1
    requires Runs(xs[1..], key) != [] && key(Runs(xs[1..], key)[0][0]) == key(xs[0])
    requires Runs(xs[1..], key)[0] == WithKey(xs[1..], key, key(xs[1]))
    requires key(xs[0]) !in MapOfRuns(Runs(xs[1..], key)[1..], key)
    ensures MapOfRuns(Runs(xs, key), key)
            == MapOfRuns(Runs(xs[1..], key), key)[key(xs[0]) := [xs[0]] + WithKey(xs[1..], key, key(xs[0]))]
  {
    var x, rest, kx := xs[0], Runs(xs[1..], key), key(xs[0]);
    var merged := [x] + rest[0];
    assert Runs(xs, key) == [merged] + rest[1..];
    assert rest == [rest[0]] + rest[1..];
    MapOfRunsCons(merged, rest[1..], key);
    MapOfRunsCons(rest[0], rest[1..], key);
    assert merged == [x] + WithKey(xs[1..], key, kx) by {
      assert xs[1..][0] == xs[1];
    }
    MapReplaceFront(MapOfRuns(rest[1..], key), kx, rest[0], merged);
  }

  lemma MapOfRunsCons<T>(r: seq<T>, rs: seq<seq<T>>, key: T -> int)
    requires r != []
    ensures MapOfRuns([r] + rs, key) == map[key(r[0]) := r] + MapOfRuns(rs, key)
  {
    assert ([r] + rs)[1..] == rs;
  }

  lemma RunsMergeHead<T>(xs: seq<T>, key: T -> int)
    requires |xs| > 1
    requires Runs(xs[1..], key) != [] && key(Runs(xs[1..], key)[0][0]) == key(xs[0])
    requires Runs(xs[1..], key)[0] == WithKey(xs[1..], key, key(xs[1]))
    requires key(xs[0]) !in MapOfRuns(Runs(xs[1..], key)[1..], key)
    ensures Runs(xs, key)[0] == WithKey(xs, key, key(xs[0]))
            && key(xs[0]) !in MapOfRuns(Runs(xs, key)[1..], key)
  {
    var x, rest, kx := xs[0], Runs(xs[1..], key), key(xs[0]);
    var merged := [x] + rest[0];
    assert Runs(xs, key) == [merged] + rest[1..];
    assert Runs(xs, key)[1..] == rest[1..];
    assert xs[1..][0] == xs[1];
    assert WithKey(xs, key, kx) == [x] + WithKey(xs[1..], key, kx);
  }

  lemma MapReplaceFront<V>(later: map<int, V>, k: int, a: V, b: V)
    ensures (map[k := a] + later)[k := b] == map[k := b] + later || k in later
  {
  }

  /** The first element, whose key the rest does not have, starts a run of
      its own. */
  lemma RunsNew<T>(xs: seq<T>, key: T -> int)
    requires xs != []
    requires Runs(xs[1..], key) == [] || key(Runs(xs[1..], key)[0][0]) != key(xs[0])
    requires WithKey(xs[1..], key, key(xs[0])) == []
    requires key(xs[0]) !in MapOfRuns(Runs(xs[1..], key), key)
    ensures MapOfRuns(Runs(xs, key), key)
            == MapOfRuns(Runs(xs[1..], key), key)[key(xs[0]) := [xs[0]] + WithKey(xs[1..], key, key(xs[0]))]
    ensures Runs(xs, key)[0] == WithKey(xs, key, key(xs[0]))
            && key(xs[0]) !in MapOfRuns(Runs(xs, key)[1..], key)
  {
    var x, rest, kx := xs[0], Runs(xs[1..], key), key(xs[0]);
    assert Runs(xs, key) == [[x]] + rest;
    assert MapOfRuns(Runs(xs, key), key) == map[kx := [x]] + MapOfRuns(rest, key);
    assert [x] + WithKey(xs[1..], key, kx) == [x];
    MapPutFront(MapOfRuns(rest, key), kx, [x]);
  }

  lemma MapPutFront<V>(g: map<int, V>, k: int, v: V)
    requires k !in g
    ensures map[k := v] + g == g[k := v]
  {
  }

  /** The grouping of `xs[1..]`, with the first element put in front of the
      group of its key, is the grouping of `xs`. */
  lemma GroupCons<T>(xs: seq<T>, key: T -> int, g: map<int, seq<T>>, m: map<int, seq<T>>)
    requires xs != []
    requires forall d :: d in g <==> HasKey(xs[1..], key, d)
    requires forall d :: d in g ==> g[d] == WithKey(xs[1..], key, d)
    requires m == g[key(xs[0]) := [xs[0]] + WithKey(xs[1..], key, key(xs[0]))]
    ensures forall d :: d in m <==> HasKey(xs, key, d)
    ensures forall d :: d in m ==> m[d] == WithKey(xs, key, d)
  {
    forall d ensures HasKey(xs, key, d) <==> d == key(xs[0]) || HasKey(xs[1..], key, d) {
      HasKeyCons(xs, key, d);
    }
  }

  /** For rows in ascending order of start date, as the store returns them,
      `group_by_day` maps each start date of a row to exactly the rows that
      start on it, and has no other entry. */
  lemma GroupByDaySorted(rows: seq<Row>)
    requires KeysAscending(rows, StartDay)
    ensures forall d :: d in GroupByDay(rows) <==> HasKey(rows, StartDay, d)
    ensures forall d :: d in GroupByDay(rows) ==> GroupByDay(rows)[d] == WithKey(rows, StartDay, d)
  {
    GroupSorted(rows, StartDay);
  }
}
