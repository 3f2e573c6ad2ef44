/** `_add` of timeturner/timeturner.py: a new segment enters the table and
    every stored segment it overlaps is trimmed, closed, deleted or split
    around it, or the new segment gives way, as the tag priorities decide.

    `_add` recurses on the weekday pieces and on the pieces around a
    stronger conflict; here each call spends one unit of `fuel`, and a call
    without fuel fails with `RecursionLimit`. */
module Reconcile {
  import opened Wrappers
  import opened Calendar
  import opened Models
  import opened Settings
  import opened TimeTurner
  import opened Db

  // ---------------------------------------------------------------------
  // one conflict: what happens

  /** What `_add` does about one conflicting row `c`, given the current
      `start`/`end` of the new segment.
      - `TrimConflictStart(t)`: `c` now starts at `t` (the new end);
      - `ClipEnd(t)`: the new segment now ends at `t` (the start of `c`);
      - `DeleteConflict`: `c` is deleted;
      - `AroundConflict`: the new segment is added in the pieces before and
        after `c`, and `_add` returns;
      - `CloseParams(t)`: the parameters of the running new segment now end
        at `t`, while the local `end` stays `None`;
      - `TrimConflictEnd(t)`: `c` now ends at `t` (the new start);
      - `InsideConflict`: `c` is cut around the new segment, the new segment
        and the tail of `c` are added, and `_add` returns;
      - `Discard`: nothing is added and `_add` returns;
      - `ClipStart(t)`: the new segment now starts at `t` (the end of `c`);
      - `Ignore`: nothing happens. */
  datatype Action =
    | TrimConflictStart(to: Timestamp)
    | ClipEnd(to: Timestamp)
    | DeleteConflict
    | AroundConflict
    | CloseParams(to: Timestamp)
    | TrimConflictEnd(to: Timestamp)
    | InsideConflict
    | Discard
    | ClipStart(to: Timestamp)
    | Ignore

  /** The decision of the loop over conflicting segments. `prio` is the new
      segment's priority and `cPrio` the conflict's; `now` is the wall clock. */
  function Resolve(start: Timestamp, end: Option<Timestamp>, c: Row, prio: int, cPrio: int, now: Timestamp): Action {
    if start <= c.start then
      if end.Some? && end.value > c.start then
        if (c.end.Some? && end.value < c.end.value) || c.end.None? then
          if cPrio <= prio then TrimConflictStart(end.value) else ClipEnd(c.start)
        else
          if cPrio <= prio then DeleteConflict else AroundConflict
      else if end.None? && c.start < now then CloseParams(c.start)
      else Ignore
    else if c.end.None? then TrimConflictEnd(start)
    else if end.Some? && start > c.start && end.value < c.end.value then
      if cPrio <= prio then InsideConflict else Discard
    else if start < c.end.value && start > c.start then
      if cPrio <= prio then TrimConflictEnd(start) else ClipStart(c.end.value)
    else Ignore
  }

  /** The actions in which the new segment gives way to the conflict. */
  predicate Yields(a: Action) {
    a.ClipEnd? || a.AroundConflict? || a.Discard? || a.ClipStart?
  }

  /** Two spans, each open-ended when its end is `None`, share no moment. */
  predicate Disjoint(aStart: Timestamp, aEnd: Option<Timestamp>, bStart: Timestamp, bEnd: Option<Timestamp>) {
    (aEnd.Some? && aEnd.value <= bStart) || (bEnd.Some? && bEnd.value <= aStart)
  }

  /** The span of the new segment after an action that lets the loop go on. */
  datatype Bounds = Bounds(start: Timestamp, end: Option<Timestamp>)

  function Moved(start: Timestamp, end: Option<Timestamp>, a: Action): Bounds {
    match a
    case ClipEnd(t) => Bounds(start, Some(t))
    case CloseParams(t) => Bounds(start, Some(t))
    case ClipStart(t) => Bounds(t, end)
    case _ => Bounds(start, end)
  }

  /** The span of the conflict after an action that lets the loop go on;
      `None` once it is deleted. */
  function Kept(c: Row, a: Action): Option<Bounds> {
    match a
    case DeleteConflict => None
    case TrimConflictStart(t) => Some(Bounds(t, c.end))
    case TrimConflictEnd(t) => Some(Bounds(c.start, Some(t)))
    case _ => Some(Bounds(c.start, c.end))
  }

  /** Actions after which the loop goes on to the next conflict. */
  predicate Continues(a: Action) {
    !(a.AroundConflict? || a.InsideConflict? || a.Discard?)
  }

  /** A conflict the new segment fully covers is deleted when it is not
      stronger, and the new segment goes around it otherwise. */
  lemma ResolveCovered(start: Timestamp, end: Option<Timestamp>, c: Row, prio: int, cPrio: int, now: Timestamp)
    requires start <= c.start && end.Some? && c.start < end.value
    requires c.end.Some? && c.end.value <= end.value
    ensures Resolve(start, end, c, prio, cPrio, now) == if cPrio <= prio then DeleteConflict else AroundConflict
  {
  }

  /** A running conflict that started earlier is closed at the new start,
      whatever the priorities. */
  lemma ResolveOpenEarlier(start: Timestamp, end: Option<Timestamp>, c: Row, prio: int, cPrio: int, now: Timestamp)
    requires c.start < start && c.end.None?
    ensures Resolve(start, end, c, prio, cPrio, now) == TrimConflictEnd(start)
  {
  }

  /** A new segment strictly inside a conflict splits it when it is not
      weaker, and is dropped otherwise. */
  lemma ResolveInside(start: Timestamp, end: Option<Timestamp>, c: Row, prio: int, cPrio: int, now: Timestamp)
    requires c.start < start && end.Some? && c.end.Some? && end.value < c.end.value
    ensures Resolve(start, end, c, prio, cPrio, now) == if cPrio <= prio then InsideConflict else Discard
  {
  }

  /** Ties favour the new segment: it gives way only to a strictly higher
      priority, and a conflict that starts inside it is never untouched while
      it would win. */
  lemma ResolveTies(start: Timestamp, end: Option<Timestamp>, c: Row, prio: int, cPrio: int, now: Timestamp)
    ensures Yields(Resolve(start, end, c, prio, cPrio, now)) ==> cPrio > prio
    ensures cPrio <= prio ==> !Yields(Resolve(start, end, c, prio, cPrio, now))
  {
  }

  /** After an action that lets the loop go on, the new segment and what
      remains of the conflict share no moment, except when a running new
      segment meets a conflict that has not started yet. */
  lemma ResolveSeparates(start: Timestamp, end: Option<Timestamp>, c: Row, prio: int, cPrio: int, now: Timestamp)
    requires Continues(Resolve(start, end, c, prio, cPrio, now))
    ensures var a := Resolve(start, end, c, prio, cPrio, now);
            Kept(c, a).None?
            || Disjoint(Moved(start, end, a).start, Moved(start, end, a).end, Kept(c, a).value.start, Kept(c, a).value.end)
            || (a.Ignore? && end.None? && start <= c.start && now <= c.start)
  {
  }

  /** A conflict of positive length that does not meet a well-formed new
      segment is left alone. */
  lemma ResolveApart(start: Timestamp, end: Option<Timestamp>, c: Row, prio: int, cPrio: int, now: Timestamp)
    requires end.None? || start <= end.value
    requires c.end.None? || c.start < c.end.value
    requires Disjoint(start, end, c.start, c.end)
    ensures Resolve(start, end, c, prio, cPrio, now) == Ignore
  {
  }

  // ---------------------------------------------------------------------
  // the loop over the new segment's tags

  /** What the loop over the tags leaves: an error of the weekday split, an
      empty split (nothing to add), a split into several pieces (each added
      by a recursive call), or the parameters to go on with and whether a
      full-day tag was met. */
  datatype Prep = Fail(error: Error) | NoWork | Many(pieces: seq<NewSegmentParams>)
                | Go(p: NewSegmentParams, fullDay: bool)

  /** The tag loop of `_add` from the state `p`, `fullDay` over `tags`:
      tags without settings are skipped; an only-work-days tag splits `p`
      per weekday, stopping unless there is exactly one piece, which
      replaces `p`; a full-day tag is remembered. */
  function TagPass(p: NewSegmentParams, fullDay: bool, tags: seq<string>, rs: ReportSettings): Prep
    decreases |tags|
  {
    if tags == [] then Go(p, fullDay)
    else if tags[0] !in rs.tagSettings then TagPass(p, fullDay, tags[1..], rs)
    else
      var ts := rs.tagSettings[tags[0]];
      if ts.onlyCoverWorkDays then
        match PerWeekday(p, rs)
        case Err(e) => Fail(e)
        case Ok(pieces) =>
          if |pieces| == 0 then NoWork
          else if |pieces| > 1 then Many(pieces)
          else TagPass(pieces[0], fullDay || ts.fullDay, tags[1..], rs)
      else TagPass(p, fullDay || ts.fullDay, tags[1..], rs)
  }

  predicate OnlyWorkDays(rs: ReportSettings, tag: string) {
    tag in rs.tagSettings && rs.tagSettings[tag].onlyCoverWorkDays
  }

  predicate FullDayTag(rs: ReportSettings, tag: string) {
    tag in rs.tagSettings && rs.tagSettings[tag].fullDay
  }

  /** Without an only-work-days tag the parameters go on unchanged, and the
      conflicts are full-day rows exactly when one of the tags is a full-day
      tag. */
  lemma {:induction false} TagPassPlain(p: NewSegmentParams, fullDay: bool, tags: seq<string>, rs: ReportSettings)
    requires forall i :: 0 <= i < |tags| ==> !OnlyWorkDays(rs, tags[i])
    ensures TagPass(p, fullDay, tags, rs)
            == Go(p, fullDay || exists i :: 0 <= i < |tags| && FullDayTag(rs, tags[i]))
    decreases |tags|
  {
    if tags != [] {
      TagPassPlain(p, fullDay || FullDayTag(rs, tags[0]), tags[1..], rs);
      if exists i :: 0 <= i < |tags| && FullDayTag(rs, tags[i]) {
        var i :| 0 <= i < |tags| && FullDayTag(rs, tags[i]);
        if i > 0 {
          assert FullDayTag(rs, tags[1..][i - 1]);
        }
      }
      if exists i :: 0 <= i < |tags| - 1 && FullDayTag(rs, tags[1..][i]) {
        var i :| 0 <= i < |tags| - 1 && FullDayTag(rs, tags[1..][i]);
        assert FullDayTag(rs, tags[i + 1]);
      }
    }
  }

  /** At the first only-work-days tag the weekday split of the unchanged
      parameters decides: its error is the error, an empty split adds
      nothing, and several pieces are added one by one. */
  lemma {:induction false} TagPassFirstSplit(p: NewSegmentParams, fullDay: bool, tags: seq<string>, rs: ReportSettings, k: int)
    requires 0 <= k < |tags| && OnlyWorkDays(rs, tags[k])
    requires forall i :: 0 <= i < k ==> !OnlyWorkDays(rs, tags[i])
    ensures PerWeekday(p, rs).Err? ==> TagPass(p, fullDay, tags, rs) == Fail(PerWeekday(p, rs).error)
    ensures PerWeekday(p, rs) == Ok([]) ==> TagPass(p, fullDay, tags, rs) == NoWork
    ensures PerWeekday(p, rs).Ok? && |PerWeekday(p, rs).value| > 1 ==>
              TagPass(p, fullDay, tags, rs) == Many(PerWeekday(p, rs).value)
    decreases k
  {
    if k > 0 {
      assert !OnlyWorkDays(rs, tags[0]);
      assert OnlyWorkDays(rs, tags[1..][k - 1]);
      TagPassFirstSplit(p, fullDay || FullDayTag(rs, tags[0]), tags[1..], rs, k - 1);
    }
  }

  /** A new segment with an only-work-days tag over days none of which is
      a work day adds nothing. */
  lemma NoWorkDays(p: NewSegmentParams, rs: ReportSettings, k: int)
    requires 0 <= k < |p.tags| && OnlyWorkDays(rs, p.tags[k])
    requires forall i :: 0 <= i < k ==> !OnlyWorkDays(rs, p.tags[i])
    requires p.end.Some? && p.start < p.end.value && PerWeekday(p, rs).Ok?
    requires forall d :: DayOf(p.start) <= d <= DayOf(p.end.value - 1) ==> !rs.isWorkDay(d)
    ensures TagPass(p, false, p.tags, rs) == NoWork
  {
    PerWeekdayEmpty(p, rs);
    TagPassFirstSplit(p, false, p.tags, rs, k);
  }

  /** The tag loop of `_add`. */
  method PrepareTags(p: NewSegmentParams, rs: ReportSettings) returns (r: Prep)
    ensures r == TagPass(p, false, p.tags, rs)
  {
    var q := p;
    var fullDay := false;
    var i := 0;
    while i < |p.tags|
      invariant 0 <= i <= |p.tags|
      invariant TagPass(p, false, p.tags, rs) == TagPass(q, fullDay, p.tags[i..], rs)
    {
      var tag := p.tags[i];
      assert p.tags[i..][0] == tag && p.tags[i..][1..] == p.tags[i + 1..];
      if tag in rs.tagSettings {
        var ts := rs.tagSettings[tag];
        if ts.onlyCoverWorkDays {
          var split := SplitSegmentParamsPerWeekday(q, rs);
          if split.Err? {
            return Fail(split.error);
          }
          if |split.value| == 0 {
            return NoWork;
          }
          if |split.value| > 1 {
            return Many(split.value);
          }
          q := split.value[0];
        }
        if ts.fullDay {
          fullDay := true;
        }
      }
      i := i + 1;
    }
    r := Go(q, fullDay);
  }

  // ---------------------------------------------------------------------
  // the conflicts

  /** The rows of `rows` that are full-day rows. */
  function FullDaysOnly(rows: seq<Row>): (r: seq<Row>)
    ensures forall x :: x in r <==> x in rows && x.fullDays
  {
    if rows == [] then []
    else (if rows[0].fullDays then [rows[0]] else []) + FullDaysOnly(rows[1..])
  }

  /** The conflicting rows: with a full-day tag the full-day rows that
      overlap, otherwise the other rows that overlap (and, for a running new
      segment, the first row after it, of whatever kind). */
  method Conflicts(db: Database, start: Timestamp, end: Option<Timestamp>, fullDay: bool) returns (cs: seq<Row>)
    requires db.Valid()
    ensures fullDay ==> forall c :: c in cs ==> c.fullDays
    ensures end.Some? && !fullDay ==> forall c :: c in cs ==> !c.fullDays
    ensures end.Some? ==> forall c :: c in cs ==> db.Overlaps(c.pk, start, end.value, !fullDay) && c == db.RowOf(c.pk)
    ensures end.Some? ==> forall pk :: db.Overlaps(pk, start, end.value, !fullDay) && (fullDay ==> db.records[pk].fullDays)
                                       ==> db.RowOf(pk) in cs
    ensures end.None? && !fullDay ==>
              exists n :: 0 <= n <= |cs| && db.OverlapList(cs[..n], start, start, true) && db.NextAfter(cs[n..], start)
    ensures end.None? && fullDay ==>
              exists all: seq<Row>, n :: 0 <= n <= |all| && cs == FullDaysOnly(all)
                                         && db.OverlapList(all[..n], start, start, false) && db.NextAfter(all[n..], start)
  {
    if fullDay {
      var all := db.GetSegmentsBetween(start, end, false);
      cs := FullDaysOnly(all);
    } else {
      cs := db.GetSegmentsBetween(start, end, true);
    }
  }

  // ---------------------------------------------------------------------
  // _add

  /** Rows with keys handed out between `lo` and `hi`, in increasing order. */
  predicate FreshRows(rows: seq<Row>, lo: int, hi: int) {
    (forall i :: 0 <= i < |rows| ==> lo <= rows[i].pk < hi)
    && (forall i, j :: 0 <= i < j < |rows| ==> rows[i].pk < rows[j].pk)
  }

  lemma FreshConcat(a: seq<Row>, b: seq<Row>, lo: int, mid: int, hi: int)
    requires lo <= mid <= hi && FreshRows(a, lo, mid) && FreshRows(b, mid, hi)
    ensures FreshRows(a + b, lo, hi)
  {
    forall i | 0 <= i < |a + b| ensures lo <= (a + b)[i].pk < hi {
      if i >= |a| {
        assert (a + b)[i] == b[i - |a|];
      } else {
        assert (a + b)[i] == a[i];
      }
    }
    forall i, j | 0 <= i < j < |a + b| ensures (a + b)[i].pk < (a + b)[j].pk {
      if j >= |a| && i < |a| {
        assert (a + b)[i] == a[i] && (a + b)[j] == b[j - |a|];
      }
    }
  }

  /** How the loop over the conflicts ends: with the parameters to insert,
      or with `_add`'s result. */
  datatype Outcome = Insert(p: NewSegmentParams) | Done(rows: seq<Row>)

  /** `db.add_segment(**params.model_dump())`. */
  method InsertParams(db: Database, p: NewSegmentParams) returns (row: Row)
    requires db.Valid()
    modifies db
    ensures db.Valid() && db.nextPk == old(db.nextPk) + 1 && row.pk == old(db.nextPk)
    ensures db.records == old(db.records)[row.pk := Record(p.start, p.end, p.passive, p.fullDays, Some(p.description))]
    ensures db.links == old(db.links)[row.pk := old(db.TagsOf(row.pk)) + p.tags]
    ensures row == db.RowOf(row.pk)
  {
    row := db.AddSegment(p.start, p.end, Some(p.passive), Some(p.fullDays), Some(p.tags), Some(p.description));
  }

  /** `_add(p, now)`. */
  method Add(db: Database, p: NewSegmentParams, now: Timestamp, rs: ReportSettings, fuel: nat)
    returns (r: Result<seq<Row>>)
    requires db.Valid()
    modifies db
    ensures db.Valid() && old(db.nextPk) <= db.nextPk
    ensures r.Ok? ==> FreshRows(r.value, old(db.nextPk), db.nextPk)
    ensures fuel == 0 ==> r == Err(RecursionLimit) && unchanged(db)
    ensures fuel > 0 && TagPass(p, false, p.tags, rs).Fail? ==>
              r == Err(TagPass(p, false, p.tags, rs).error) && unchanged(db)
    ensures fuel > 0 && TagPass(p, false, p.tags, rs) == NoWork ==> r == Ok([]) && unchanged(db)
    decreases fuel, 2
  {
    if fuel == 0 {
      return Err(RecursionLimit);
    }
    // the locals keep the original span, whatever the weekday split does
    var start, end := p.start, p.end;
    var prio := GetTagPrio(p.tags, rs.tagSettings);
    var prep := PrepareTags(p, rs);
    match prep
    case Fail(e) =>
      return Err(e);
    case NoWork =>
      return Ok([]);
    case Many(pieces) =>
      r := AddEach(db, pieces, now, rs, fuel);
    case Go(q, fullDay) =>
      var cs := Conflicts(db, start, end, fullDay);
      var outcome := ResolveAll(db, q, start, end, prio, cs, now, rs, fuel);
      if outcome.Err? {
        return Err(outcome.error);
      }
      match outcome.value
      case Done(rows) =>
        r := Ok(rows);
      case Insert(last) =>
        var row := InsertParams(db, last);
        r := Ok([row]);
  }

  /** The weekday pieces, each added by a recursive call; the results are
      concatenated in order. */
  method AddEach(db: Database, pieces: seq<NewSegmentParams>, now: Timestamp, rs: ReportSettings, fuel: nat)
    returns (r: Result<seq<Row>>)
    requires db.Valid() && fuel > 0
    modifies db
    ensures db.Valid() && old(db.nextPk) <= db.nextPk
    ensures r.Ok? ==> FreshRows(r.value, old(db.nextPk), db.nextPk)
    decreases fuel, 1
  {
    var segments: seq<Row> := [];
    var i := 0;
    while i < |pieces|
      invariant 0 <= i <= |pieces|
      invariant db.Valid() && old(db.nextPk) <= db.nextPk
      invariant FreshRows(segments, old(db.nextPk), db.nextPk)
    {
      ghost var mid := db.nextPk;
      var added := Add(db, pieces[i], now, rs, fuel - 1);
      if added.Err? {
        return Err(added.error);
      }
      FreshConcat(segments, added.value, old(db.nextPk), mid, db.nextPk);
      segments := segments + added.value;
      i := i + 1;
    }
    r := Ok(segments);
  }

  /** The loop over the conflicting rows. `start` and `end` are `_add`'s
      locals, which only some of the actions update together with `q`. */
  method ResolveAll(db: Database, p: NewSegmentParams, start: Timestamp, end: Option<Timestamp>, prio: int,
                    cs: seq<Row>, now: Timestamp, rs: ReportSettings, fuel: nat)
    returns (r: Result<Outcome>)
    requires db.Valid() && fuel > 0
    modifies db
    ensures db.Valid() && old(db.nextPk) <= db.nextPk
    ensures r.Ok? && r.value.Done? ==> FreshRows(r.value.rows, old(db.nextPk), db.nextPk)
    ensures r.Ok? && r.value.Insert? ==>
              db.nextPk == old(db.nextPk) && r.value.p == p.(start := r.value.p.start, end := r.value.p.end)
    ensures r.Ok? && r.value.Insert? ==> db.links == old(db.links) && KeptOutside(db.records, old(db.records), cs)
    decreases fuel, 1
  {
    var q, s, e := p, start, end;
    var i := 0;
    while i < |cs|
      invariant 0 <= i <= |cs|
      invariant db.Valid() && db.nextPk == old(db.nextPk)
      invariant q == p.(start := q.start, end := q.end)
      invariant db.links == old(db.links) && KeptOutside(db.records, old(db.records), cs)
    {
      var c := cs[i];
      var cPrio := GetTagPrio(c.tags, rs.tagSettings);
      var a := Resolve(s, e, c, prio, cPrio, now);
      if a.AroundConflict? {
        var rows := AroundConflictRows(db, q, c, now, rs, fuel);
        return rows;
      } else if a.InsideConflict? {
        var rows := InsideConflictRows(db, q, c, s, e.value);
        return Ok(Done(rows));
      } else if a.Discard? {
        return Ok(Done([]));
      }
      ghost var before := db.records;
      q, s, e := ApplyAction(db, a, c, q, s, e);
      KeptOutsideStep(before, db.records, old(db.records), cs, i);
      i := i + 1;
    }
    r := Ok(Insert(q));
  }

  /** The stored rows other than the conflicts `cs` are kept, and none is
      added. */
  ghost predicate KeptOutside(records: map<int, Record>, records0: map<int, Record>, cs: seq<Row>) {
    && records.Keys <= records0.Keys
    && forall k :: k in records0 && (forall j :: 0 <= j < |cs| ==> cs[j].pk != k) ==>
                     k in records && records[k] == records0[k]
  }

  /** Changing only the row of conflict `i` keeps the rows outside `cs`. */
  lemma KeptOutsideStep(before: map<int, Record>, after: map<int, Record>, records0: map<int, Record>,
                        cs: seq<Row>, i: int)
    requires 0 <= i < |cs| && KeptOutside(before, records0, cs)
    requires after.Keys <= before.Keys
    requires forall k :: k in before && k != cs[i].pk ==> k in after && after[k] == before[k]
    ensures KeptOutside(after, records0, cs)
  {
  }

  /** An action after which the loop goes on: the stored conflict is
      updated or deleted, or the new segment's span changes. */
  method ApplyAction(db: Database, a: Action, c: Row, q: NewSegmentParams, s: Timestamp, e: Option<Timestamp>)
    returns (q': NewSegmentParams, s': Timestamp, e': Option<Timestamp>)
    requires db.Valid() && Continues(a)
    modifies db
    ensures db.Valid() && db.nextPk == old(db.nextPk) && db.links == old(db.links)
    ensures db.records.Keys <= old(db.records).Keys
    ensures forall k :: k in old(db.records) && k != c.pk ==> k in db.records && db.records[k] == old(db.records)[k]
    ensures Bounds(s', e') == (if a.CloseParams? then Bounds(s, e) else Moved(s, e, a))
    ensures q' == (if a.CloseParams? || a.ClipEnd? || a.ClipStart?
                   then q.(start := Moved(q.start, q.end, a).start, end := Moved(q.start, q.end, a).end) else q)
    ensures a.DeleteConflict? ==> db.records == old(db.records) - {c.pk}
    ensures a.TrimConflictStart? ==>
              db.records == if c.pk in old(db.records)
                            then old(db.records)[c.pk := old(db.records)[c.pk].(start := a.to)] else old(db.records)
    ensures a.TrimConflictEnd? ==>
              db.records == if c.pk in old(db.records)
                            then old(db.records)[c.pk := old(db.records)[c.pk].(end := Some(a.to))] else old(db.records)
    ensures !(a.DeleteConflict? || a.TrimConflictStart? || a.TrimConflictEnd?) ==> unchanged(db)
  {
    q', s', e' := q, s, e;
    match a
    case TrimConflictStart(t) =>
      var ok := db.UpdateSegment(c.pk, NoUpdate.(start := SetTo(t)));
    case ClipEnd(t) =>
      q' := q.(end := Some(t));
      e' := Some(t);
    case DeleteConflict =>
      db.DeleteSegment(c.pk);
    case CloseParams(t) =>
      q' := q.(end := Some(t));
    case TrimConflictEnd(t) =>
      var ok := db.UpdateSegment(c.pk, NoUpdate.(end := SetTo(Some(t))));
    case ClipStart(t) =>
      q' := q.(start := t);
      s' := t;
    case Ignore =>
  }

  /** A stronger conflict inside the new segment: the pieces before and
      after it are added by recursive calls, and their rows are the result. */
  method AroundConflictRows(db: Database, q: NewSegmentParams, c: Row, now: Timestamp, rs: ReportSettings, fuel: nat)
    returns (r: Result<Outcome>)
    requires db.Valid() && fuel > 0
    modifies db
    ensures db.Valid() && old(db.nextPk) <= db.nextPk
    ensures r.Ok? ==> r.value.Done? && FreshRows(r.value.rows, old(db.nextPk), db.nextPk)
    decreases fuel, 0
  {
    var split := SplitSegmentParams(q, c);
    var ret: seq<Row> := [];
    if split.before.Some? {
      var added := Add(db, split.before.value, now, rs, fuel - 1);
      if added.Err? {
        return Err(added.error);
      }
      ret := added.value;
    }
    if split.after.Some? {
      ghost var mid := db.nextPk;
      var added := Add(db, split.after.value, now, rs, fuel - 1);
      if added.Err? {
        return Err(added.error);
      }
      FreshConcat(ret, added.value, old(db.nextPk), mid, db.nextPk);
      ret := ret + added.value;
    }
    r := Ok(Done(ret));
  }

  /** A weaker conflict around the new segment: it now ends at the new
      start, the new segment is added, and the rest of the conflict is added
      from the new end with the conflict's tags, description and passive
      flag. */
  method InsideConflictRows(db: Database, q: NewSegmentParams, c: Row, start: Timestamp, end: Timestamp)
    returns (rows: seq<Row>)
    requires db.Valid()
    modifies db
    ensures db.Valid() && db.nextPk == old(db.nextPk) + 2
    ensures |rows| == 2 && rows[0].pk == old(db.nextPk) && rows[1].pk == old(db.nextPk) + 1
    ensures db.records
         == (if c.pk in old(db.records) then old(db.records)[c.pk := old(db.records)[c.pk].(end := Some(start))]
             else old(db.records))
              [rows[0].pk := Record(q.start, q.end, q.passive, q.fullDays, Some(q.description))]
              [rows[1].pk := Record(end, c.end, c.passive, false, c.description)]
    ensures db.links
         == old(db.links)[rows[0].pk := old(db.TagsOf(rows[0].pk)) + q.tags]
                         [rows[1].pk := old(db.TagsOf(rows[1].pk)) + c.tags]
    ensures rows[0] == db.RowOf(rows[0].pk) && rows[1] == db.RowOf(rows[1].pk)
  {
    var ok := db.UpdateSegment(c.pk, NoUpdate.(end := SetTo(Some(start))));
    var head := InsertParams(db, q);
    var tail := db.AddSegment(end, c.end, Some(c.passive), None, Some(c.tags), c.description);
    rows := [head, tail];
  }
}
