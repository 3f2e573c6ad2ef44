/** The Hamster text-report importer of timeturner/loader.py. A report is a
    list of lines: a line led by a digit is a header `start | end | duration |
    activity | category`, a line led by "#" replaces the tags of the segment
    being read, and any other line is a note appended to its description.
    `import_text` keeps the lines between the first two table separators and
    stores every segment read from them. */
module Loader {
  import opened Wrappers
  import opened Calendar
  import opened Strings
  import opened Models
  import Db

  // ---------------------------------------------------------------------
  // one line

  /** The columns of a header line: split on "|" and stripped. */
  function Columns(line: string): (cols: seq<string>)
    ensures |cols| == |Split(line, '|')| >= 1
  {
    StripAll(Split(line, '|'))
  }

  /** Column `i` is the `i`-th field between bar characters, stripped. */
  lemma ColumnStripped(line: string, i: int)
    requires 0 <= i < |Split(line, '|')|
    ensures Columns(line)[i] == Strip(Split(line, '|')[i])
  {
    StripAllAt(Split(line, '|'), i);
  }

  /** A header line as `extract_segments` builds its `TimeSegment`.
      `parse` stands for `pendulum.parse`, whose failure is a `ValueError`;
      a missing column is an `IndexError`, raised in the order the columns
      are read (start, end, activity, category). */
  function HeaderSegment(line: string, parse: string -> Option<Timestamp>): (r: Result<Segment>)
    ensures r.Err? ==> r.error == ValueError || r.error == IndexError
  {
    var cols := Columns(line);
    match parse(cols[0])
    case None => Err(ValueError)
    case Some(start) =>
      if |cols| < 2 then Err(IndexError)
      else if cols[1] != "" && parse(cols[1]).None? then Err(ValueError)
      else if |cols| < 5 then Err(IndexError)
      else
        var end := if cols[1] == "" then None else parse(cols[1]);
        Ok(Segment(start, end, cols[4] == "travel", [], Some(cols[4] + "@" + cols[3])))
  }

  /** A header line parses exactly when it has five columns and its start,
      and its end unless that column is empty, parse. */
  lemma HeaderParses(line: string, parse: string -> Option<Timestamp>)
    ensures HeaderSegment(line, parse).Ok?
            <==> |Columns(line)| >= 5 && parse(Columns(line)[0]).Some?
                 && (Columns(line)[1] == "" || parse(Columns(line)[1]).Some?)
  {
  }

  /** A start or end that does not parse is a `ValueError`; a missing column
      otherwise is an `IndexError`. */
  lemma HeaderError(line: string, parse: string -> Option<Timestamp>)
    requires HeaderSegment(line, parse).Err?
    ensures HeaderSegment(line, parse).error == ValueError
            <==> parse(Columns(line)[0]).None?
                 || (|Columns(line)| >= 2 && Columns(line)[1] != "" && parse(Columns(line)[1]).None?)
  {
  }

  /** What a header line gives: the start and the end parsed (an empty end
      column is no end), no tags, passive exactly for the "travel" category,
      and "category@activity" as description. */
  lemma HeaderFields(line: string, parse: string -> Option<Timestamp>)
    requires HeaderSegment(line, parse).Ok?
    ensures HeaderSegment(line, parse).value.start == parse(Columns(line)[0]).value
    ensures HeaderSegment(line, parse).value.end == if Columns(line)[1] == "" then None else parse(Columns(line)[1])
    ensures HeaderSegment(line, parse).value.tags == []
    ensures HeaderSegment(line, parse).value.passive <==> Columns(line)[4] == "travel"
    ensures HeaderSegment(line, parse).value.description == Some(Columns(line)[4] + "@" + Columns(line)[3])
  {
  }

  /** `e[1:]`: an item of a tag line without its first character. */
  function Unhashed(e: string): string {
    if e == [] then [] else e[1..]
  }

  function UnhashedAll(parts: seq<string>): (r: seq<string>)
    ensures |r| == |parts|
    ensures forall i :: 0 <= i < |r| ==> r[i] == Unhashed(parts[i])
  {
    if parts == [] then [] else [Unhashed(parts[0])] + UnhashedAll(parts[1..])
  }

  /** The tags a "#" line sets: its comma-separated items, each with its
      first character dropped and then stripped. */
  function TagsOfLine(line: string): (tags: seq<string>)
    ensures |tags| == |Split(line, ',')| >= 1
  {
    StripAll(UnhashedAll(Split(line, ',')))
  }

  /** A note becomes the description, or is added to it after a line break. */
  function Noted(description: Option<string>, line: string): (r: Option<string>)
    ensures description.None? ==> r == Some(line)
    ensures description.Some? ==> r == Some(description.value + "\n" + line)
  {
    match description
    case None => Some(line)
    case Some(d) => Some(d + "\n" + line)
  }

  /** Each note adds exactly one line to the description: the note itself. */
  lemma NotedLines(description: Option<string>, line: string)
    requires '\n' !in line
    ensures Split(Noted(description, line).value, '\n')
         == (if description.None? then [] else Split(description.value, '\n')) + [line]
  {
    if description.Some? {
      assert description.value + "\n" + line == description.value + ['\n'] + line;
      SplitSnoc(description.value, line, '\n');
    }
  }

  // ---------------------------------------------------------------------
  // extract_segments

  /** Where `extract_segments` stands between two lines: the segments it has
      yielded, the segment it is reading, and the exception that stopped it. */
  datatype Scan = Scan(yielded: seq<Segment>, current: Option<Segment>, error: Option<Error>)

  /** What the generator produces: the segments yielded, then the exception
      it raised, if any. */
  datatype Outcome = Outcome(segments: seq<Segment>, error: Option<Error>)

  /** The segment still being read, as the list of what is yielded next. */
  function Pending(current: Option<Segment>): (r: seq<Segment>)
    ensures |r| == if current.Some? then 1 else 0
  {
    if current.Some? then [current.value] else []
  }

  /** What a line is once stripped: empty (the `IndexError` of `line[0]`),
      a header, a tag line or a note. */
  datatype Line = Blank | Header(segment: Result<Segment>) | Tagging(tags: seq<string>) | Note(text: string)

  /** The branch of the loop body a line takes. */
  function Classify(raw: string, parse: string -> Option<Timestamp>): Line {
    Kind(Strip(raw), parse)
  }

  /** What a stripped line is, by its first character. */
  function Kind(line: string, parse: string -> Option<Timestamp>): Line {
    if line == [] then Blank
    else if IsDigit(line[0]) then Header(HeaderSegment(line, parse))
    else if line[0] == '#' then Tagging(TagsOfLine(line))
    else Note(line)
  }

  /** `Classify` as a function value, so that the lemmas about lists of
      lines need not look inside it. */
  function Classifier(parse: string -> Option<Timestamp>): string -> Line {
    raw => Classify(raw, parse)
  }

  /** Every line classified. */
  function Kinds(lines: seq<string>, classify: string -> Line): (ks: seq<Line>)
    ensures |ks| == |lines|
  {
    if lines == [] then [] else [classify(lines[0])] + Kinds(lines[1..], classify)
  }

  /** The effect of one line. A header yields the segment being read and
      starts the next; a tag line or a note without a segment is a
      `ValueError`. */
  function Step(sc: Scan, k: Line): (r: Scan)
    requires sc.error.None?
    ensures k.Header? ==> r.yielded == sc.yielded + Pending(sc.current)
    ensures !k.Header? ==> r.yielded == sc.yielded
    ensures r.error.None? && !k.Header? ==> sc.current.Some? && r.current.Some?
  {
    match k
    case Blank => sc.(error := Some(IndexError))
    case Header(h) =>
      var out := sc.yielded + Pending(sc.current);
      if h.Err? then Scan(out, None, Some(h.error)) else Scan(out, Some(h.value), None)
    case Tagging(tags) =>
      if sc.current.None? then sc.(error := Some(ValueError))
      else sc.(current := Some(sc.current.value.(tags := tags)))
    case Note(text) =>
      if sc.current.None? then sc.(error := Some(ValueError))
      else sc.(current := Some(sc.current.value.(description := Noted(sc.current.value.description, text))))
  }

  /** The lines read one after the other, up to the first exception. */
  function Run(sc: Scan, ks: seq<Line>): Scan
    decreases |ks|
  {
    if sc.error.Some? || ks == [] then sc
    else Run(Step(sc, ks[0]), ks[1..])
  }

  const Begin := Scan([], None, None)

  /** After the last line the open segment is yielded as well. */
  function Finish(sc: Scan): (o: Outcome)
    ensures sc.error.Some? ==> o == Outcome(sc.yielded, sc.error)
    ensures sc.error.None? ==> o == Outcome(sc.yielded + Pending(sc.current), None)
  {
    if sc.error.Some? then Outcome(sc.yielded, sc.error)
    else Outcome(sc.yielded + Pending(sc.current), None)
  }

  /** `extract_segments(lines)`, run to its end. */
  function Extract(lines: seq<string>, parse: string -> Option<Timestamp>): Outcome {
    Finish(Run(Begin, Kinds(lines, Classifier(parse))))
  }

  /** The lines from `i` on: the line at `i`, then the rest. */
  lemma KindsFrom(lines: seq<string>, i: nat, classify: string -> Line)
    requires i < |lines|
    ensures Kinds(lines[i..], classify) == [classify(lines[i])] + Kinds(lines[i + 1..], classify)
  {
    assert lines[i..][1..] == lines[i + 1..];
  }

  /** Reading a line, then the rest. */
  lemma RunCons(sc: Scan, k: Line, ks: seq<Line>)
    requires sc.error.None?
    ensures Run(sc, [k] + ks) == Run(Step(sc, k), ks)
  {
    assert ([k] + ks)[1..] == ks;
  }

  /** One pass of the loop of `extract_segments`, on the stripped line: it
      either opens a segment (yielding the one being read), sets the tags of
      the segment being read or adds a note to its description. */
  method ReadLine(segments: seq<Segment>, segment: Option<Segment>, line: string, parse: string -> Option<Timestamp>)
    returns (out: seq<Segment>, next: Option<Segment>, error: Option<Error>)
    ensures Scan(out, next, error) == Step(Scan(segments, segment, None), Kind(line, parse))
  {
    out, next, error := segments, segment, None;
    ghost var sc := Scan(segments, segment, None);
    if line == [] {
      error := Some(IndexError);
    } else if IsDigit(line[0]) {
      if segment.Some? {
        out := segments + [segment.value];
      }
      var header := HeaderSegment(line, parse);
      assert Kind(line, parse) == Header(header) && out == sc.yielded + Pending(sc.current);
      if header.Err? {
        next, error := None, Some(header.error);
      } else {
        next := Some(header.value);
      }
    } else if segment.None? {
      error := Some(ValueError);
    } else if line[0] == '#' {
      assert Kind(line, parse) == Tagging(TagsOfLine(line));
      next := Some(segment.value.(tags := TagsOfLine(line)));
    } else {
      assert Kind(line, parse) == Note(line);
      next := Some(segment.value.(description := Noted(segment.value.description, line)));
    }
  }

  /** `extract_segments`: the loop over the lines with the segment being read
      in a local variable; the segments it yields are collected in order. */
  method ExtractSegments(lines: seq<string>, parse: string -> Option<Timestamp>)
    returns (segments: seq<Segment>, error: Option<Error>)
    ensures Outcome(segments, error) == Extract(lines, parse)
  {
    var segment: Option<Segment> := None;
    segments := [];
    error := None;
    var i := 0;
    while i < |lines|
      invariant 0 <= i <= |lines| && error.None?
      invariant Run(Scan(segments, segment, None), Kinds(lines[i..], Classifier(parse))) == Run(Begin, Kinds(lines, Classifier(parse)))
    {
      ghost var before := Scan(segments, segment, None);
      ghost var rest := Kinds(lines[i + 1..], Classifier(parse));
      KindsFrom(lines, i, Classifier(parse));
      RunCons(before, Classify(lines[i], parse), rest);
      var line := Strip(lines[i]);
      segments, segment, error := ReadLine(segments, segment, line, parse);
      if error.Some? {
        assert Run(Scan(segments, segment, error), rest) == Scan(segments, segment, error);
        return;
      }
      i := i + 1;
    }
    if segment.Some? {
      segments := segments + [segment.value];
    }
  }

  // ---------------------------------------------------------------------
  // what is yielded

  /** A line whose stripped form starts with a digit. */
  predicate IsHeader(raw: string) {
    Strip(raw) != [] && IsDigit(Strip(raw)[0])
  }

  /** The number of lines that open a segment. */
  function Headers(lines: seq<string>): nat {
    if lines == [] then 0 else (if IsHeader(lines[0]) then 1 else 0) + Headers(lines[1..])
  }

  function HeaderKinds(ks: seq<Line>): nat {
    if ks == [] then 0 else (if ks[0].Header? then 1 else 0) + HeaderKinds(ks[1..])
  }

  /** The header lines are the lines classified as headers. */
  lemma {:induction false} KindsHeaders(lines: seq<string>, parse: string -> Option<Timestamp>)
    ensures HeaderKinds(Kinds(lines, Classifier(parse))) == Headers(lines)
    decreases |lines|
  {
    if lines != [] {
      KindsFrom(lines, 0, Classifier(parse));
      assert lines[0..] == lines;
      assert Kinds(lines, Classifier(parse))[1..] == Kinds(lines[1..], Classifier(parse));
      KindsHeaders(lines[1..], parse);
    }
  }

  /** Every header adds one to the segments yielded or being read. */
  lemma {:induction false} RunCount(sc: Scan, ks: seq<Line>)
    requires sc.error.None? && Run(sc, ks).error.None?
    ensures |Run(sc, ks).yielded| + |Pending(Run(sc, ks).current)|
            == |sc.yielded| + |Pending(sc.current)| + HeaderKinds(ks)
    decreases |ks|
  {
    if ks != [] {
      RunCount(Step(sc, ks[0]), ks[1..]);
    }
  }

  /** A report read without an exception yields one segment per header
      line. */
  lemma ExtractCount(lines: seq<string>, parse: string -> Option<Timestamp>)
    requires Extract(lines, parse).error.None?
    ensures |Extract(lines, parse).segments| == Headers(lines)
  {
    RunCount(Begin, Kinds(lines, Classifier(parse)));
    KindsHeaders(lines, parse);
  }

  /** A tag line or a note before any header is a `ValueError`, and nothing
      has been yielded. */
  lemma ContinuationFirst(lines: seq<string>, parse: string -> Option<Timestamp>)
    requires lines != [] && Strip(lines[0]) != [] && !IsDigit(Strip(lines[0])[0])
    ensures Extract(lines, parse) == Outcome([], Some(ValueError))
  {
    KindsFrom(lines, 0, Classifier(parse));
    assert lines[0..] == lines;
    RunCons(Begin, Classify(lines[0], parse), Kinds(lines[1..], Classifier(parse)));
  }

  /** Reading two pieces of a report is reading the first, then the second. */
  lemma {:induction false} RunAppend(sc: Scan, a: seq<Line>, b: seq<Line>)
    ensures Run(sc, a + b) == Run(Run(sc, a), b)
    decreases |a|
  {
    if sc.error.None? && a != [] {
      assert (a + b)[0] == a[0];
      assert (a + b)[1..] == a[1..] + b;
      RunAppend(Step(sc, a[0]), a[1..], b);
    } else if a == [] {
      assert a + b == b;
    }
  }

  lemma {:induction false} KindsAppend(a: seq<string>, b: seq<string>, classify: string -> Line)
    ensures Kinds(a + b, classify) == Kinds(a, classify) + Kinds(b, classify)
    decreases |a|
  {
    if a != [] {
      assert (a + b)[0] == a[0];
      assert (a + b)[1..] == a[1..] + b;
      KindsAppend(a[1..], b, classify);
    } else {
      assert a + b == b;
    }
  }

  /** An empty or blank line stops the generator on `line[0]`, after what
      the lines before it yielded. */
  lemma BlankLine(head: seq<string>, blank: string, tail: seq<string>, parse: string -> Option<Timestamp>)
    requires Strip(blank) == [] && Run(Begin, Kinds(head, Classifier(parse))).error.None?
    ensures Extract(head + [blank] + tail, parse)
            == Outcome(Run(Begin, Kinds(head, Classifier(parse))).yielded, Some(IndexError))
  {
    KindsAppend(head, [blank] + tail, Classifier(parse));
    assert head + [blank] + tail == head + ([blank] + tail);
    KindsFrom([blank] + tail, 0, Classifier(parse));
    assert ([blank] + tail)[0..] == [blank] + tail;
    assert ([blank] + tail)[1..] == tail;
    RunAppend(Begin, Kinds(head, Classifier(parse)), Kinds([blank] + tail, Classifier(parse)));
    RunCons(Run(Begin, Kinds(head, Classifier(parse))), Blank, Kinds(tail, Classifier(parse)));
  }

  // ---------------------------------------------------------------------
  // a report written from its entries and read back

  /** What a report says about one segment: the five header columns, the
      note lines and the tags. */
  datatype Entry = Entry(start: string, end: string, duration: string, activity: string,
                         category: string, notes: seq<string>, tags: seq<string>)

  /** A column a header line can carry. */
  predicate Column(c: string) {
    Trimmed(c) && '|' !in c
  }

  /** A note that reads back as a note. */
  predicate NoteText(line: string) {
    Trimmed(line) && line != [] && !IsDigit(line[0]) && line[0] != '#'
  }

  /** A tag that reads back as itself. */
  predicate TagText(t: string) {
    Trimmed(t) && ',' !in t
  }

  /** An entry a report can carry unambiguously: clean columns, a start led
      by a digit that `parse` accepts, an end that is empty or accepted. */
  predicate Writable(e: Entry, parse: string -> Option<Timestamp>) {
    && Clean(e)
    && e.start != [] && IsDigit(e.start[0]) && parse(e.start).Some?
    && (e.end == "" || parse(e.end).Some?)
    && (forall k :: 0 <= k < |e.notes| ==> NoteText(e.notes[k]))
    && (forall k :: 0 <= k < |e.tags| ==> TagText(e.tags[k]))
  }

  function HeaderLine(e: Entry): string {
    Join(ColumnsOf(e), '|')
  }

  function Hashed(tags: seq<string>): (r: seq<string>)
    ensures |r| == |tags|
    ensures forall k :: 0 <= k < |r| ==> r[k] == "#" + tags[k]
  {
    if tags == [] then [] else ["#" + tags[0]] + Hashed(tags[1..])
  }

  function TagLine(tags: seq<string>): seq<string> {
    if tags == [] then [] else [Join(Hashed(tags), ',')]
  }

  /** The lines of one entry: header, notes, and a tag line when it has
      tags. */
  function EntryLines(e: Entry): seq<string> {
    [HeaderLine(e)] + e.notes + TagLine(e.tags)
  }

  function ReportLines(es: seq<Entry>): seq<string> {
    if es == [] then [] else EntryLines(es[0]) + ReportLines(es[1..])
  }

  /** The description the notes build onto a header's. */
  function WithNotes(description: string, notes: seq<string>): string
    decreases |notes|
  {
    if notes == [] then description else WithNotes(description + "\n" + notes[0], notes[1..])
  }

  /** The instant a date column of a writable entry stands for. */
  function DateOf(text: string, parse: string -> Option<Timestamp>): Timestamp {
    match parse(text)
    case Some(t) => t
    case None => 0
  }

  /** The segment of a header line, before notes and tags. */
  function HeaderOf(e: Entry, parse: string -> Option<Timestamp>): Segment {
    Segment(DateOf(e.start, parse), if e.end == "" then None else Some(DateOf(e.end, parse)),
            e.category == "travel", [], Some(e.category + "@" + e.activity))
  }

  /** The segment an entry stands for. */
  function SegmentOf(e: Entry, parse: string -> Option<Timestamp>): Segment {
    HeaderOf(e, parse).(tags := e.tags, description := Some(WithNotes(e.category + "@" + e.activity, e.notes)))
  }

  function SegmentsOf(es: seq<Entry>, parse: string -> Option<Timestamp>): seq<Segment> {
    if es == [] then [] else [SegmentOf(es[0], parse)] + SegmentsOf(es[1..], parse)
  }

  lemma JoinFirst(parts: seq<string>, sep: char)
    requires |parts| >= 1 && parts[0] != []
    ensures Join(parts, sep) != [] && Join(parts, sep)[0] == parts[0][0]
  {
  }

  /** The last character of a join of two or more pieces: that of the last
      piece, or the separator when the last piece is empty. */
  lemma {:induction false} JoinLast(parts: seq<string>, sep: char)
    requires |parts| >= 2
    ensures Join(parts, sep) != []
    ensures Join(parts, sep)[|Join(parts, sep)| - 1]
            == if parts[|parts| - 1] == [] then sep else parts[|parts| - 1][|parts[|parts| - 1]| - 1]
    decreases |parts|
  {
    var rest := parts[1..];
    if |parts| == 2 {
      assert Join(rest, sep) == parts[1];
    } else {
      JoinLast(rest, sep);
      assert rest[|rest| - 1] == parts[|parts| - 1];
    }
  }

  /** The columns of an entry, in header order. */
  function ColumnsOf(e: Entry): seq<string> {
    [e.start, e.end, e.duration, e.activity, e.category]
  }

  predicate Clean(e: Entry) {
    Column(e.start) && Column(e.end) && Column(e.duration) && Column(e.activity) && Column(e.category)
  }

  lemma CleanColumns(e: Entry)
    requires Clean(e)
    ensures forall k :: 0 <= k < 5 ==> Column(ColumnsOf(e)[k])
  {
    var cols := ColumnsOf(e);
    assert cols[0] == e.start && cols[1] == e.end && cols[2] == e.duration;
    assert cols[3] == e.activity && cols[4] == e.category;
  }

  /** A written header line is its own strip. */
  lemma HeaderTrimmed(e: Entry)
    requires Clean(e) && e.start != []
    ensures Strip(HeaderLine(e)) == HeaderLine(e)
  {
    HeaderShape(e);
    StripTrimmed(HeaderLine(e));
  }

  /** A written header line has no surrounding whitespace. */
  lemma HeaderShape(e: Entry)
    requires Clean(e) && e.start != []
    ensures Trimmed(HeaderLine(e))
  {
    var cols := ColumnsOf(e);
    assert cols[0] == e.start && cols[4] == e.category;
    JoinFirst(cols, '|');
    JoinLast(cols, '|');
  }

  /** A written header line reads back as its columns. */
  lemma HeaderColumns(e: Entry)
    requires Clean(e)
    ensures Columns(HeaderLine(e)) == ColumnsOf(e)
  {
    var cols := ColumnsOf(e);
    CleanColumns(e);
    SplitJoin(cols, '|');
    StripTrimmedAll(cols);
  }

  /** A trimmed line led by a digit is a header. */
  lemma ClassifyHeader(line: string, parse: string -> Option<Timestamp>)
    requires Strip(line) == line && line != [] && IsDigit(line[0])
    ensures Classify(line, parse) == Header(HeaderSegment(line, parse))
  {
  }

  /** A line with the columns of a writable entry gives its header. */
  lemma HeaderSegmentOf(line: string, e: Entry, parse: string -> Option<Timestamp>)
    requires Columns(line) == ColumnsOf(e) && Writable(e, parse)
    ensures HeaderSegment(line, parse) == Ok(HeaderOf(e, parse))
  {
  }

  /** A written header line is read as its header. */
  lemma HeaderRead(e: Entry, parse: string -> Option<Timestamp>)
    requires Writable(e, parse)
    ensures Classify(HeaderLine(e), parse) == Header(Ok(HeaderOf(e, parse)))
  {
    HeaderTrimmed(e);
    HeaderColumns(e);
    HeaderLed(e);
    ClassifyHeader(HeaderLine(e), parse);
    HeaderSegmentOf(HeaderLine(e), e, parse);
  }

  lemma HeaderLed(e: Entry)
    requires e.start != []
    ensures HeaderLine(e) != [] && HeaderLine(e)[0] == e.start[0]
  {
    var cols := ColumnsOf(e);
    assert cols[0] == e.start;
    JoinFirst(cols, '|');
  }

  /** A hashed tag starts with "#" and does not end in whitespace. */
  lemma HashedEnds(t: string)
    requires Trimmed(t)
    ensures var h := "#" + t; h != [] && h[0] == '#' && !IsSpace(h[|h| - 1])
  {
    if t != [] {
      assert ("#" + t)[|t|] == t[|t| - 1];
    }
  }

  /** A written tag line has no surrounding whitespace and starts with "#". */
  lemma TagLineShape(tags: seq<string>)
    requires tags != [] && forall k :: 0 <= k < |tags| ==> TagText(tags[k])
    ensures Trimmed(Join(Hashed(tags), ','))
    ensures Join(Hashed(tags), ',') != [] && Join(Hashed(tags), ',')[0] == '#'
  {
    var hs := Hashed(tags);
    var n := |tags|;
    var j := Join(hs, ',');
    assert TagText(tags[0]) && TagText(tags[n - 1]);
    HashedEnds(tags[0]);
    HashedEnds(tags[n - 1]);
    assert hs[0] == "#" + tags[0];
    var l := hs[n - 1];
    assert l == "#" + tags[n - 1];
    JoinFirst(hs, ',');
    assert j != [] && j[0] == '#';
    if n >= 2 {
      JoinLast(hs, ',');
      assert j[|j| - 1] == l[|l| - 1];
    } else {
      assert j == l;
    }
    assert !IsSpace(j[0]) && !IsSpace(j[|j| - 1]);
  }

  /** A written tag line is its own strip and starts with "#". */
  lemma TagLineTrimmed(tags: seq<string>)
    requires tags != [] && forall k :: 0 <= k < |tags| ==> TagText(tags[k])
    ensures Strip(Join(Hashed(tags), ',')) == Join(Hashed(tags), ',')
    ensures Join(Hashed(tags), ',') != [] && Join(Hashed(tags), ',')[0] == '#'
  {
    TagLineShape(tags);
    StripTrimmed(Join(Hashed(tags), ','));
  }

  /** The items of a written tag line are the tags. */
  lemma TagLineItems(tags: seq<string>)
    requires tags != [] && forall k :: 0 <= k < |tags| ==> TagText(tags[k])
    ensures TagsOfLine(Join(Hashed(tags), ',')) == tags
  {
    HashedFree(tags);
    SplitJoin(Hashed(tags), ',');
    UnhashedHashed(tags);
    StripTrimmedAll(tags);
    StripUnhashed(Split(Join(Hashed(tags), ','), ','), tags);
  }

  lemma StripUnhashed(parts: seq<string>, tags: seq<string>)
    requires UnhashedAll(parts) == tags && StripAll(tags) == tags
    ensures StripAll(UnhashedAll(parts)) == tags
  {
  }

  lemma HashedFree(tags: seq<string>)
    requires forall k :: 0 <= k < |tags| ==> ',' !in tags[k]
    ensures forall k :: 0 <= k < |Hashed(tags)| ==> ',' !in Hashed(tags)[k]
  {
    var hs := Hashed(tags);
    forall k | 0 <= k < |hs| ensures ',' !in hs[k] {
      assert hs[k] == "#" + tags[k];
    }
  }

  lemma {:induction false} UnhashedHashed(tags: seq<string>)
    ensures UnhashedAll(Hashed(tags)) == tags
  {
    var hs := Hashed(tags);
    var r := UnhashedAll(hs);
    forall k | 0 <= k < |tags| ensures r[k] == tags[k] {
      assert hs[k] == "#" + tags[k];
      assert Unhashed(hs[k]) == tags[k];
    }
  }

  /** A written tag line is read as its tags. */
  lemma TagLineRead(tags: seq<string>, parse: string -> Option<Timestamp>)
    requires tags != [] && forall k :: 0 <= k < |tags| ==> TagText(tags[k])
    ensures Classify(Join(Hashed(tags), ','), parse) == Tagging(tags)
  {
    TagLineTrimmed(tags);
    TagLineItems(tags);
  }

  /** A written note is read as a note. */
  lemma NoteRead(line: string, parse: string -> Option<Timestamp>)
    requires NoteText(line)
    ensures Classify(line, parse) == Note(line)
  {
    StripTrimmed(line);
  }

  /** Notes add themselves to the description of the segment being read. */
  lemma {:induction false} NotesRun(sc: Scan, notes: seq<string>, classify: string -> Line)
    requires sc.error.None? && sc.current.Some? && sc.current.value.description.Some?
    requires forall k :: 0 <= k < |notes| ==> classify(notes[k]) == Note(notes[k])
    ensures Run(sc, Kinds(notes, classify))
            == sc.(current := Some(sc.current.value.(description :=
                    Some(WithNotes(sc.current.value.description.value, notes)))))
    decreases |notes|
  {
    if notes != [] {
      RunCons(sc, Note(notes[0]), Kinds(notes[1..], classify));
      NotesRun(Step(sc, Note(notes[0])), notes[1..], classify);
    }
  }

  /** `classify` reads the lines of `e` as its header, notes and tags. */
  predicate ReadsEntry(classify: string -> Line, e: Entry, parse: string -> Option<Timestamp>) {
    && classify(HeaderLine(e)) == Header(Ok(HeaderOf(e, parse)))
    && (forall k :: 0 <= k < |e.notes| ==> classify(e.notes[k]) == Note(e.notes[k]))
    && (e.tags != [] ==> classify(Join(Hashed(e.tags), ',')) == Tagging(e.tags))
  }

  /** `extract_segments` reads a written entry as it was written. */
  lemma EntryRead(e: Entry, parse: string -> Option<Timestamp>)
    requires Writable(e, parse)
    ensures ReadsEntry(Classifier(parse), e, parse)
  {
    HeaderRead(e, parse);
    forall k | 0 <= k < |e.notes| ensures Classify(e.notes[k], parse) == Note(e.notes[k]) {
      NoteRead(e.notes[k], parse);
    }
    if e.tags != [] {
      TagLineRead(e.tags, parse);
    }
  }

  /** One entry read in the middle of a report. */
  lemma EntryRun(sc: Scan, e: Entry, classify: string -> Line, parse: string -> Option<Timestamp>)
    requires sc.error.None? && ReadsEntry(classify, e, parse)
    ensures Run(sc, Kinds(EntryLines(e), classify))
            == Scan(sc.yielded + Pending(sc.current), Some(SegmentOf(e, parse)), None)
  {
    var h := HeaderOf(e, parse);
    var notes := Kinds(e.notes, classify);
    var tagged := Kinds(TagLine(e.tags), classify);
    KindsAppend([HeaderLine(e)], e.notes + TagLine(e.tags), classify);
    KindsAppend(e.notes, TagLine(e.tags), classify);
    assert EntryLines(e) == [HeaderLine(e)] + (e.notes + TagLine(e.tags));
    assert Kinds([HeaderLine(e)], classify) == [Header(Ok(h))];
    var afterHeader := Scan(sc.yielded + Pending(sc.current), Some(h), None);
    RunCons(sc, Header(Ok(h)), notes + tagged);
    RunAppend(afterHeader, notes, tagged);
    NotesRun(afterHeader, e.notes, classify);
    if e.tags != [] {
      var noted := afterHeader.(current := Some(h.(description := Some(WithNotes(e.category + "@" + e.activity, e.notes)))));
      assert tagged == [Tagging(e.tags)];
      RunCons(noted, Tagging(e.tags), []);
    }
  }

  /** Every entry of a report reads as it was written. */
  predicate ReadsReport(classify: string -> Line, es: seq<Entry>, parse: string -> Option<Timestamp>)
    decreases |es|
  {
    es == [] || (ReadsEntry(classify, es[0], parse) && ReadsReport(classify, es[1..], parse))
  }

  /** A report written from entries reads back as their segments, with no
      exception. */
  lemma {:induction false} ReportRun(sc: Scan, es: seq<Entry>, classify: string -> Line, parse: string -> Option<Timestamp>)
    requires sc.error.None? && ReadsReport(classify, es, parse)
    ensures Finish(Run(sc, Kinds(ReportLines(es), classify)))
            == Outcome(sc.yielded + Pending(sc.current) + SegmentsOf(es, parse), None)
    decreases |es|
  {
    if es != [] {
      EntryRun(sc, es[0], classify, parse);
      KindsAppend(EntryLines(es[0]), ReportLines(es[1..]), classify);
      RunAppend(sc, Kinds(EntryLines(es[0]), classify), Kinds(ReportLines(es[1..]), classify));
      var next := Scan(sc.yielded + Pending(sc.current), Some(SegmentOf(es[0], parse)), None);
      ReportRun(next, es[1..], classify, parse);
      assert next.yielded + Pending(next.current) + SegmentsOf(es[1..], parse)
          == sc.yielded + Pending(sc.current) + SegmentsOf(es, parse);
    }
  }

  /** The entries of a report of writable entries read as they were written. */
  lemma {:induction false} ReportRead(es: seq<Entry>, parse: string -> Option<Timestamp>)
    requires forall k :: 0 <= k < |es| ==> Writable(es[k], parse)
    ensures ReadsReport(Classifier(parse), es, parse)
    decreases |es|
  {
    if es != [] {
      EntryRead(es[0], parse);
      assert forall k :: 0 <= k < |es[1..]| ==> Writable(es[1..][k], parse) by {
        forall k | 0 <= k < |es[1..]| ensures Writable(es[1..][k], parse) {
          assert es[1..][k] == es[k + 1];
        }
      }
      ReportRead(es[1..], parse);
    }
  }

  /** `extract_segments` inverts the writing of a report. */
  lemma ExtractReport(es: seq<Entry>, parse: string -> Option<Timestamp>)
    requires forall k :: 0 <= k < |es| ==> Writable(es[k], parse)
    ensures Extract(ReportLines(es), parse) == Outcome(SegmentsOf(es, parse), None)
  {
    ReportRead(es, parse);
    ReportRun(Begin, es, Classifier(parse), parse);
  }

  // ---------------------------------------------------------------------
  // import_text

  /** `"-" * 80 + "\n"`, the line around the table of a report. */
  const Separator: string := Dashes(80) + "\n"

  function Dashes(n: nat): (r: string)
    ensures |r| == n && forall k :: 0 <= k < n ==> r[k] == '-'
  {
    if n == 0 then "" else Dashes(n - 1) + "-"
  }

  /** The lines strictly between the first and the second separator; a
      missing separator is the `ValueError` of `list.index`. */
  function ReportBody(lines: seq<string>): (r: Result<seq<string>>)
    ensures r.Err? ==> r.error == ValueError
    ensures r.Ok? ==> Separator !in r.value
    ensures Separator !in lines ==> r.Err?
  {
    match IndexOf(lines, Separator)
    case None => Err(ValueError)
    case Some(i) =>
      var rest := lines[i + 1..];
      match IndexOf(rest, Separator)
      case None => Err(ValueError)
      case Some(j) => Ok(rest[..j])
  }

  /** The body is found between a head and a tail, whatever they hold. */
  lemma ReportBodyFramed(head: seq<string>, body: seq<string>, tail: seq<string>)
    requires Separator !in head && Separator !in body
    ensures ReportBody(head + [Separator] + body + [Separator] + tail) == Ok(body)
  {
    var lines := head + [Separator] + body + [Separator] + tail;
    FirstIndexAt(lines, Separator, |head|);
    var rest := lines[|head| + 1..];
    assert rest == body + [Separator] + tail;
    FirstIndexAt(rest, Separator, |body|);
    assert rest[..|body|] == body;
  }

  /** One separator alone is a `ValueError` too. */
  lemma ReportBodyUnclosed(head: seq<string>, rest: seq<string>)
    requires Separator !in head && Separator !in rest
    ensures ReportBody(head + [Separator] + rest) == Err(ValueError)
  {
    var lines := head + [Separator] + rest;
    FirstIndexAt(lines, Separator, |head|);
    assert lines[|head| + 1..] == rest;
  }

  /** The row `add_segment(**segment.dict())` returns: the segment's fields,
      not full days, under key `pk`. */
  predicate StoredAs(row: Row, s: Segment, pk: int) {
    && row.pk == pk && row.start == s.start && row.end == s.end
    && row.passive == s.passive && !row.fullDays && row.description == s.description
  }

  /** The tags `links` holds for `pk`, as `get_tags_for_segment` reads them. */
  function TagsIn(links: map<int, seq<string>>, pk: int): seq<string> {
    if pk in links then links[pk] else []
  }

  /** The row the queries build for `pk` from the tables `records` and `links`. */
  function RowIn(records: map<int, Db.Record>, links: map<int, seq<string>>, pk: int): Row
    requires pk in records
  {
    var r := records[pk];
    Row(pk, r.start, r.end, r.passive, r.fullDays, TagsIn(links, pk), r.description)
  }

  /** The tables after `add_segment` for each of `segments` in order, from
      tables `records0`, `links0` with next key `pk0`: row `k` is stored under
      key `pk0 + k` with its segment's fields and tags, and every other row
      and tag list is as it was. */
  ghost predicate StoredAll(records: map<int, Db.Record>, links: map<int, seq<string>>, nextPk: int,
                            rows: seq<Row>, segments: seq<Segment>,
                            records0: map<int, Db.Record>, links0: map<int, seq<string>>, pk0: int)
  {
    && |rows| == |segments| && nextPk == pk0 + |rows|
    && (forall k :: 0 <= k < |rows| ==> StoredAs(rows[k], segments[k], pk0 + k))
    && (forall k :: 0 <= k < |rows| ==> rows[k].pk in records && rows[k] == RowIn(records, links, rows[k].pk))
    && (forall k :: 0 <= k < |rows| ==> TagsIn(links, rows[k].pk) == TagsIn(links0, rows[k].pk) + segments[k].tags)
    && (forall pk :: pk in records <==> pk in records0 || pk0 <= pk < nextPk)
    && (forall pk :: pk in records0 ==> pk in records && records[pk] == records0[pk])
    && (forall pk :: !(pk0 <= pk < nextPk) ==> TagsIn(links, pk) == TagsIn(links0, pk))
  }

  /** One more `add_segment`, under the next key, extends what is stored. */
  lemma StoredAllStep(records: map<int, Db.Record>, links: map<int, seq<string>>, nextPk: int,
                      rows: seq<Row>, segments: seq<Segment>,
                      records0: map<int, Db.Record>, links0: map<int, seq<string>>, pk0: int,
                      s: Segment, row: Row,
                      records': map<int, Db.Record>, links': map<int, seq<string>>)
    requires StoredAll(records, links, nextPk, rows, segments, records0, links0, pk0)
    requires forall pk :: pk in records0 ==> pk < pk0
    requires records' == records[nextPk := Db.Record(s.start, s.end, s.passive, false, s.description)]
    requires links' == links[nextPk := TagsIn(links, nextPk) + s.tags]
    requires row == RowIn(records', links', nextPk)
    ensures StoredAll(records', links', nextPk + 1, rows + [row], segments + [s], records0, links0, pk0)
  {
    var rows', segments' := rows + [row], segments + [s];
    forall k | 0 <= k < |rows'|
      ensures StoredAs(rows'[k], segments'[k], pk0 + k)
      ensures rows'[k].pk in records' && rows'[k] == RowIn(records', links', rows'[k].pk)
      ensures TagsIn(links', rows'[k].pk) == TagsIn(links0, rows'[k].pk) + segments'[k].tags
    {
      if k < |rows| {
        assert rows'[k] == rows[k] && segments'[k] == segments[k];
      }
    }
  }

  /** `import_text`: each segment is stored as soon as it is read, so the
      segments read before an exception stay in the table. The file's lines
      are a parameter. */
  method ImportText(db: Db.Database, lines: seq<string>, parse: string -> Option<Timestamp>)
    returns (rows: seq<Row>, error: Option<Error>)
    requires db.Valid()
    modifies db
    ensures db.Valid()
    ensures ReportBody(lines).Err? ==> rows == [] && error == Some(ValueError) && unchanged(db)
    ensures ReportBody(lines).Ok? ==>
              var o := Extract(ReportBody(lines).value, parse);
              && error == o.error
              && StoredAll(db.records, db.links, db.nextPk, rows, o.segments,
                           old(db.records), old(db.links), old(db.nextPk))
  {
    var body := ReportBody(lines);
    if body.Err? {
      return [], Some(ValueError);
    }
    var segments;
    segments, error := ExtractSegments(body.value, parse);
    rows := StoreAll(db, segments);
  }

  /** The loop of `import_text`: `add_segment` for each segment, in order. */
  method StoreAll(db: Db.Database, segments: seq<Segment>) returns (rows: seq<Row>)
    requires db.Valid()
    modifies db
    ensures db.Valid()
    ensures StoredAll(db.records, db.links, db.nextPk, rows, segments, old(db.records), old(db.links), old(db.nextPk))
  {
    rows := [];
    var i := 0;
    while i < |segments|
      invariant 0 <= i <= |segments| && db.Valid()
      invariant StoredAll(db.records, db.links, db.nextPk, rows, segments[..i],
                          old(db.records), old(db.links), old(db.nextPk))
    {
      var s := segments[i];
      ghost var records, links := db.records, db.links;
      var row := db.AddSegment(s.start, s.end, Some(s.passive), Some(false), Some(s.tags), s.description);
      assert db.links == links[row.pk := TagsIn(links, row.pk) + s.tags];
      assert row == RowIn(db.records, db.links, row.pk);
      StoredAllStep(records, links, row.pk, rows, segments[..i], old(db.records), old(db.links), old(db.nextPk),
                    s, row, db.records, db.links);
      rows := rows + [row];
      assert segments[..i + 1] == segments[..i] + [s];
      i := i + 1;
    }
    assert segments[..i] == segments;
  }
}
