/** timeturner/db.py as an in-memory table: segment rows keyed by an
    autoincrement primary key, and the tag links of each key.

    The SQL schema keeps tags in a second table joined through a link table
    without a cascading delete; here `links[pk]` is the list of tags linked
    to `pk`, in insertion order, and it outlives the row itself. */
module Db {
  import opened Wrappers
  import opened Calendar
  import opened Models
  import Helper

  /** The columns of one row of the segment table. */
  datatype Record = Record(start: Timestamp, end: Option<Timestamp>, passive: bool,
                           fullDays: bool, description: Option<string>)

  /** One argument of `update_segment`: the sentinel default, which leaves
      the column alone, or a new value. */
  datatype Field<T> = Unchanged | SetTo(value: T)

  /** The keyword arguments of `update_segment`; `None` is a legal new value
      for every column but `start`. */
  datatype Update = Update(start: Field<Timestamp>, end: Field<Option<Timestamp>>,
                           passive: Field<Option<bool>>, fullDays: Field<Option<bool>>,
                           tags: Field<Option<seq<string>>>, description: Field<Option<string>>)

  const NoUpdate := Update(Unchanged, Unchanged, Unchanged, Unchanged, Unchanged, Unchanged)

  function FieldOr<T>(f: Field<T>, current: T): T {
    if f.SetTo? then f.value else current
  }

  /** The columns named in the `SET` clause, in the order the source lists them. */
  function SetColumns(u: Update): (cols: seq<string>)
    ensures cols == [] <==> (u.start.Unchanged? && u.end.Unchanged? && u.passive.Unchanged?
                             && u.fullDays.Unchanged? && u.description.Unchanged?)
  {
    (if u.start.SetTo? then ["start"] else [])
      + (if u.end.SetTo? then ["end"] else [])
      + (if u.passive.SetTo? then ["passive"] else [])
      + (if u.fullDays.SetTo? then ["full_days"] else [])
      + (if u.description.SetTo? then ["description"] else [])
  }

  /** The row after the `UPDATE`: columns given a value take it, with `None`
      stored as false for the two flags; the rest keep their value. */
  function Apply(r: Record, u: Update): (n: Record)
    ensures u.start.Unchanged? ==> n.start == r.start
    ensures u.start.SetTo? ==> n.start == u.start.value
    ensures u.end.Unchanged? ==> n.end == r.end
    ensures u.end.SetTo? ==> n.end == u.end.value
    ensures u.passive.Unchanged? ==> n.passive == r.passive
    ensures u.passive.SetTo? ==> n.passive == u.passive.value.GetOr(false)
    ensures u.fullDays.Unchanged? ==> n.fullDays == r.fullDays
    ensures u.fullDays.SetTo? ==> n.fullDays == u.fullDays.value.GetOr(false)
    ensures u.description.Unchanged? ==> n.description == r.description
    ensures u.description.SetTo? ==> n.description == u.description.value
  {
    Record(FieldOr(u.start, r.start), FieldOr(u.end, r.end),
           if u.passive.SetTo? then u.passive.value.GetOr(false) else r.passive,
           if u.fullDays.SetTo? then u.fullDays.value.GetOr(false) else r.fullDays,
           FieldOr(u.description, r.description))
  }

  // ---------------------------------------------------------------------
  // tag replacement

  /** The tags of `wanted` not in `stored`, each once, in order of first
      appearance (Python iterates over a set here, in an order of its own). */
  function NewTags(wanted: seq<string>, stored: set<string>): (r: seq<string>)
    ensures forall t :: t in r <==> t in wanted && t !in stored
    ensures forall i, j :: 0 <= i < j < |r| ==> r[i] != r[j]
    ensures (forall t :: t in wanted ==> t in stored) ==> r == []
    decreases |wanted|
  {
    if wanted == [] then []
    else
      var rest := NewTags(wanted[1..], stored + {wanted[0]});
      if wanted[0] in stored then rest else [wanted[0]] + rest
  }

  /** The links in `links` whose tag is in `keep`, in their order. */
  function KeepTags(links: seq<string>, keep: set<string>): (r: seq<string>)
    ensures forall t :: t in r <==> t in links && t in keep
  {
    if links == [] then []
    else (if links[0] in keep then [links[0]] else []) + KeepTags(links[1..], keep)
  }

  /** The links of a row after `update_segment(tags=wanted)`: the missing
      tags are linked, then every link to a tag no longer wanted is deleted. */
  function Retag(stored: seq<string>, wanted: seq<string>): seq<string> {
    KeepTags(stored + NewTags(wanted, set t | t in stored), set t | t in wanted)
  }

  /** The tag update of `update_segment` on the links `stored` of one row:
      link each wanted tag not linked yet, one `INSERT` at a time, then
      delete the links of the tags no longer wanted. */
  method Relink(stored: seq<string>, wanted: seq<string>) returns (kept: seq<string>)
    ensures kept == Retag(stored, wanted)
  {
    var storedSet := set t | t in stored;
    var inserted := NewTags(wanted, storedSet);
    var current := stored;
    var i := 0;
    while i < |inserted|
      invariant 0 <= i <= |inserted|
      invariant current == stored + inserted[..i]
    {
      current := current + [inserted[i]];
      assert inserted[..i + 1] == inserted[..i] + [inserted[i]];
      i := i + 1;
    }
    assert inserted[..i] == inserted;
    var wantedSet := set t | t in wanted;
    kept := KeepTags(current, wantedSet);
  }

  /** After the update the row's set of tags is exactly the wanted set. */
  lemma RetagSet(stored: seq<string>, wanted: seq<string>)
    ensures forall t :: t in Retag(stored, wanted) <==> t in wanted
  {
  }

  /** Tags already linked and still wanted keep their links and order. */
  lemma RetagKeepsOrder(stored: seq<string>, wanted: seq<string>)
    requires forall t :: t in wanted ==> t in stored
    ensures Retag(stored, wanted) == KeepTags(stored, set t | t in wanted)
  {
    var s := set t | t in stored;
    assert stored + [] == stored;
  }

  // ---------------------------------------------------------------------
  // ordering of query results

  predicate SortedByStart(rows: seq<Row>) {
    forall i, j :: 0 <= i < j < |rows| ==> rows[i].start <= rows[j].start
  }

  predicate DistinctPks(rows: seq<Row>) {
    forall i, j :: 0 <= i < j < |rows| ==> rows[i].pk != rows[j].pk
  }

  /** `rows` with `x` placed after every row that does not start later. */
  function InsertByStart(rows: seq<Row>, x: Row): (r: seq<Row>)
    ensures |r| == |rows| + 1
    ensures forall y :: y in r <==> y == x || y in rows
  {
    if rows == [] || x.start < rows[0].start then [x] + rows
    else
      var rest := InsertByStart(rows[1..], x);
      assert forall y :: y in rows[1..] ==> y in rows;
      [rows[0]] + rest
  }

  /** Inserting into a list ordered by start keeps it ordered. */
  lemma {:induction false} InsertSorted(rows: seq<Row>, x: Row)
    requires SortedByStart(rows)
    ensures SortedByStart(InsertByStart(rows, x))
  {
    if rows != [] && x.start >= rows[0].start {
      var rest := InsertByStart(rows[1..], x);
      assert SortedByStart(rows[1..]) by {
        forall i, j | 0 <= i < j < |rows| - 1 ensures rows[1..][i].start <= rows[1..][j].start {
          assert rows[1..][i] == rows[i + 1] && rows[1..][j] == rows[j + 1];
        }
      }
      InsertSorted(rows[1..], x);
      forall y | y in rest ensures rows[0].start <= y.start {
        if y != x {
          var k :| 0 <= k < |rows| - 1 && rows[1..][k] == y;
          assert y == rows[k + 1];
        }
      }
      var r := [rows[0]] + rest;
      forall i, j | 0 <= i < j < |r| ensures r[i].start <= r[j].start {
        assert r[j] == rest[j - 1];
        if i > 0 {
          assert r[i] == rest[i - 1];
        }
      }
    }
  }

  /** Inserting a row whose key is new keeps the keys distinct. */
  lemma {:induction false} InsertDistinct(rows: seq<Row>, x: Row)
    requires DistinctPks(rows) && forall y :: y in rows ==> y.pk != x.pk
    ensures DistinctPks(InsertByStart(rows, x))
  {
    if rows != [] && x.start >= rows[0].start {
      var rest := InsertByStart(rows[1..], x);
      assert DistinctPks(rows[1..]) by {
        forall i, j | 0 <= i < j < |rows| - 1 ensures rows[1..][i].pk != rows[1..][j].pk {
          assert rows[1..][i] == rows[i + 1] && rows[1..][j] == rows[j + 1];
        }
      }
      assert forall y :: y in rows[1..] ==> y in rows;
      InsertDistinct(rows[1..], x);
      forall y | y in rest ensures y.pk != rows[0].pk {
        if y != x {
          var k :| 0 <= k < |rows| - 1 && rows[1..][k] == y;
          assert y == rows[k + 1];
        }
      }
      var r := [rows[0]] + rest;
      forall i, j | 0 <= i < j < |r| ensures r[i].pk != r[j].pk {
        assert r[j] == rest[j - 1];
        if i > 0 {
          assert r[i] == rest[i - 1];
        }
      }
    }
  }

  class Database {
    /** The segment table. */
    var records: map<int, Record>
    /** The tags linked to each primary key, in insertion order. */
    var links: map<int, seq<string>>
    /** The key the next insert receives: keys are never reused. */
    var nextPk: int

    ghost predicate Valid()
      reads this
    {
      1 <= nextPk && forall pk :: pk in records ==> 1 <= pk < nextPk
    }

    /** `get_tags_for_segment(pk)`. */
    function TagsOf(pk: int): seq<string>
      reads this
    {
      if pk in links then links[pk] else []
    }

    /** The `PensiveRow` the queries build for `pk`. */
    function RowOf(pk: int): (row: Row)
      reads this
      requires pk in records
      ensures row.pk == pk
    {
      var r := records[pk];
      Row(pk, r.start, r.end, r.passive, r.fullDays, TagsOf(pk), r.description)
    }

    /** A fresh, empty table. */
    constructor ()
      ensures Valid() && records == map[] && links == map[] && nextPk == 1
    {
      records := map[];
      links := map[];
      nextPk := 1;
    }

    /** `add_segment`: the row is stored under a fresh key with `None` flags
        as false and `None` tags as none, its tags are linked one by one, and
        the stored row is returned. Links a key held before (left over from
        an update of a key not yet in use) stay in front. */
    method AddSegment(start: Timestamp, end: Option<Timestamp>, passive: Option<bool>,
                      fullDays: Option<bool>, tags: Option<seq<string>>,
                      description: Option<string>) returns (row: Row)
      requires Valid()
      modifies this
      ensures Valid()
      ensures row.pk == old(nextPk) && nextPk == old(nextPk) + 1
      ensures row.pk !in old(records)
      ensures records == old(records)[row.pk := Record(start, end, passive.GetOr(false),
                                                       fullDays.GetOr(false), description)]
      ensures links == old(links)[row.pk := old(TagsOf(row.pk)) + tags.GetOr([])]
      ensures row.pk in records && row == RowOf(row.pk)
    {
      var pk := nextPk;
      var before := TagsOf(pk);
      records := records[pk := Record(start, end, passive.GetOr(false), fullDays.GetOr(false), description)];
      nextPk := nextPk + 1;
      var toLink := tags.GetOr([]);
      links := links[pk := before];
      var i := 0;
      assert before + toLink[..i] == before;
      while i < |toLink|
        invariant 0 <= i <= |toLink|
        invariant links == old(links)[pk := before + toLink[..i]]
        invariant records == old(records)[pk := Record(start, end, passive.GetOr(false), fullDays.GetOr(false), description)]
        invariant nextPk == old(nextPk) + 1
      {
        links := links[pk := links[pk] + [toLink[i]]];
        assert toLink[..i + 1] == toLink[..i] + [toLink[i]];
        assert before + toLink[..i + 1] == before + toLink[..i] + [toLink[i]];
        i := i + 1;
      }
      assert toLink[..i] == toLink;
      row := RowOf(pk);
    }

    /** `update_segment`: without any column to set the `UPDATE` statement
        is malformed and fails before anything changes; otherwise the row of
        `pk`, if there is one, gets the new column values, and new tags
        replace the linked ones (also for a key without a row). */
    method UpdateSegment(pk: int, u: Update) returns (r: Result<()>)
      requires Valid()
      modifies this
      ensures Valid() && nextPk == old(nextPk)
      ensures r.Err? <==> SetColumns(u) == []
      ensures r.Err? ==> r.error == OperationalError && records == old(records) && links == old(links)
      ensures r.Ok? ==> records == if pk in old(records) then old(records)[pk := Apply(old(records)[pk], u)]
                                   else old(records)
      ensures r.Ok? && u.tags.Unchanged? ==> links == old(links)
      ensures r.Ok? && u.tags.SetTo? ==>
                links == old(links)[pk := Retag(old(TagsOf(pk)), u.tags.value.GetOr([]))]
    {
      if SetColumns(u) == [] {
        return Err(OperationalError);
      }
      if pk in records {
        records := records[pk := Apply(records[pk], u)];
      }
      if u.tags.SetTo? {
        var kept := Relink(TagsOf(pk), u.tags.value.GetOr([]));
        links := links[pk := kept];
      }
      r := Ok(());
    }

    /** `delete_segment`: the row goes, its tag links stay. */
    method DeleteSegment(pk: int)
      requires Valid()
      modifies this
      ensures Valid() && nextPk == old(nextPk) && links == old(links)
      ensures records == old(records) - {pk}
    {
      records := records - {pk};
    }

    /** `get_segment`. */
    function GetSegment(pk: int): (r: Option<Row>)
      reads this
      ensures r.Some? <==> pk in records
      ensures r.Some? ==> r.value.pk == pk && r.value.start == records[pk].start
                          && r.value.end == records[pk].end && r.value.tags == TagsOf(pk)
    {
      if pk in records then Some(RowOf(pk)) else None
    }

    /** A row `get_latest_segment` may consider. */
    predicate LatestCandidate(pk: int, filterClosed: bool)
      reads this
    {
      pk in records && (filterClosed ==> records[pk].end.None?)
    }

    /** `get_latest_segment`: a row with the greatest start among all rows,
        or among the running ones with `filterClosed`; `None` when there is
        no such row. Ties are broken by the database, so any of them. */
    method GetLatestSegment(filterClosed: bool) returns (r: Option<Row>)
      requires Valid()
      ensures r.None? <==> forall pk :: pk in records ==> !LatestCandidate(pk, filterClosed)
      ensures r.Some? ==> LatestCandidate(r.value.pk, filterClosed) && r.value == RowOf(r.value.pk)
      ensures r.Some? ==> forall pk :: LatestCandidate(pk, filterClosed) ==> records[pk].start <= r.value.start
    {
      r := None;
      var next := 1;
      while next < nextPk
        invariant 1 <= next <= nextPk
        invariant r.None? ==> forall pk :: pk in records && pk < next ==> !LatestCandidate(pk, filterClosed)
        invariant r.Some? ==> LatestCandidate(r.value.pk, filterClosed) && r.value == RowOf(r.value.pk)
        invariant r.Some? ==> forall pk :: pk < next && LatestCandidate(pk, filterClosed) ==>
                                records[pk].start <= r.value.start
      {
        if LatestCandidate(next, filterClosed) && (r.None? || r.value.start < records[next].start) {
          r := Some(RowOf(next));
        }
        next := next + 1;
      }
    }

    /** The rows `get_full_day_segment_by_date(d)` matches: full-day rows
        starting no later than the start of `d`'s day, running or ending
        exactly at `end_of_day(d)`. */
    predicate FullDayMatch(pk: int, d: Timestamp)
      reads this
    {
      pk in records && records[pk].fullDays && records[pk].start <= Helper.DayStart(d)
        && (records[pk].end.None? || records[pk].end.value == Helper.EndOfDay(d))
    }

    /** `get_full_day_segment_by_date(d)`: one matching row (the first the
        database returns), or `None` when no row matches. */
    method GetFullDaySegmentByDate(d: Timestamp) returns (r: Option<Row>)
      ensures r.None? <==> forall pk :: pk in records ==> !FullDayMatch(pk, d)
      ensures r.Some? ==> FullDayMatch(r.value.pk, d) && r.value == RowOf(r.value.pk)
    {
      Helper.StartOfDay(d);
      if pk :| pk in records && FullDayMatch(pk, d) {
        r := Some(RowOf(pk));
      } else {
        r := None;
      }
    }

    /** The `WHERE` clause of `get_segments_between`: rows starting no later
        than `end` that are running or end after `start`, without full-day
        rows when those are excluded. */
    predicate Overlaps(pk: int, start: Timestamp, end: Timestamp, excludeFullDays: bool)
      reads this
    {
      pk in records && records[pk].start <= end
        && (records[pk].end.None? || records[pk].end.value > start)
        && (excludeFullDays ==> !records[pk].fullDays)
    }

    /** `rows` are the rows of the `WHERE` clause, each once, ordered by start. */
    ghost predicate OverlapList(rows: seq<Row>, start: Timestamp, end: Timestamp, excludeFullDays: bool)
      reads this
    {
      SortedByStart(rows) && DistinctPks(rows)
        && (forall row :: row in rows ==> Overlaps(row.pk, start, end, excludeFullDays) && row == RowOf(row.pk))
        && (forall pk :: Overlaps(pk, start, end, excludeFullDays) ==> RowOf(pk) in rows)
    }

    /** The rows of the `WHERE` clause, ordered by start. */
    method Matching(start: Timestamp, end: Timestamp, excludeFullDays: bool) returns (rows: seq<Row>)
      requires Valid()
      ensures OverlapList(rows, start, end, excludeFullDays)
    {
      rows := [];
      var next := 1;
      while next < nextPk
        invariant 1 <= next <= nextPk
        invariant SortedByStart(rows) && DistinctPks(rows)
        invariant forall row :: row in rows ==>
                    Overlaps(row.pk, start, end, excludeFullDays) && row == RowOf(row.pk) && row.pk < next
        invariant forall pk :: pk < next && Overlaps(pk, start, end, excludeFullDays) ==> RowOf(pk) in rows
      {
        if Overlaps(next, start, end, excludeFullDays) {
          InsertDistinct(rows, RowOf(next));
          InsertSorted(rows, RowOf(next));
          rows := InsertByStart(rows, RowOf(next));
        }
        next := next + 1;
      }
    }

    /** `get_segments_between(start, end, exclude_full_days)`: the rows that
        overlap `[start, end]`, ordered by start. Without an end it asks for
        the rows running at `start` and appends the first row starting after
        `start`, whether it is a full-day row or not; that row cannot be one
        of the others. */
    method GetSegmentsBetween(start: Timestamp, end: Option<Timestamp>, excludeFullDays: bool)
      returns (rows: seq<Row>)
      requires Valid()
      ensures end.Some? ==> OverlapList(rows, start, end.value, excludeFullDays)
      ensures end.None? ==> exists n :: 0 <= n <= |rows| && OverlapList(rows[..n], start, start, excludeFullDays)
                                        && NextAfter(rows[n..], start)
      ensures DistinctPks(rows)
    {
      var e := end.GetOr(start);
      var before := Matching(start, e, excludeFullDays);
      rows := before;
      if end.None? {
        var next := FirstAfter(start);
        rows := before + next;
        assert rows[..|before|] == before;
        assert rows[|before|..] == next;
        forall i, j | 0 <= i < j < |rows| ensures rows[i].pk != rows[j].pk {
          if j >= |before| && i < |before| {
            assert rows[i] in before;
            assert records[rows[j].pk].start > start;
          }
        }
      }
      assert rows[..|before|] == before;
    }

    /** The one-row tail `get_segments_between` appends without an end:
        a row starting after `start`, and no row starts strictly between. */
    ghost predicate NextAfter(tail: seq<Row>, start: Timestamp)
      reads this
    {
      if tail == [] then forall pk :: pk in records ==> records[pk].start <= start
      else |tail| == 1 && tail[0].pk in records && tail[0] == RowOf(tail[0].pk)
           && records[tail[0].pk].start > start
           && forall pk :: pk in records && records[pk].start > start ==>
                             records[tail[0].pk].start <= records[pk].start
    }

    /** The first row starting after `start`, as a list of at most one row. */
    method FirstAfter(start: Timestamp) returns (tail: seq<Row>)
      requires Valid()
      ensures NextAfter(tail, start)
    {
      tail := [];
      var next := 1;
      while next < nextPk
        invariant 1 <= next <= nextPk
        invariant tail == [] ==> forall pk :: pk in records && pk < next ==> records[pk].start <= start
        invariant tail != [] ==> |tail| == 1 && tail[0].pk in records && tail[0] == RowOf(tail[0].pk)
                                 && records[tail[0].pk].start > start
                                 && forall pk :: pk in records && pk < next && records[pk].start > start ==>
                                                   records[tail[0].pk].start <= records[pk].start
      {
        if next in records && records[next].start > start && (tail == [] || records[next].start < tail[0].start) {
          tail := [RowOf(next)];
        }
        next := next + 1;
      }
    }

    /** `get_all_segments`: every row once, by ascending key (the table's
        natural order). */
    method GetAllSegments() returns (rows: seq<Row>)
      requires Valid()
      ensures forall row :: row in rows ==> row.pk in records && row == RowOf(row.pk)
      ensures forall pk :: pk in records ==> RowOf(pk) in rows
      ensures forall i, j :: 0 <= i < j < |rows| ==> rows[i].pk < rows[j].pk
    {
      rows := [];
      var pk := 1;
      while pk < nextPk
        invariant 1 <= pk <= nextPk
        invariant forall row :: row in rows ==> row.pk in records && row == RowOf(row.pk) && row.pk < pk
        invariant forall k :: k in records && k < pk ==> RowOf(k) in rows
        invariant forall i, j :: 0 <= i < j < |rows| ==> rows[i].pk < rows[j].pk
      {
        if pk in records {
          rows := rows + [RowOf(pk)];
        }
        pk := pk + 1;
      }
    }
  }
}
