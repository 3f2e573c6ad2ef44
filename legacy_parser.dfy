/** The older parser of timetracker/parser.py. It reads the same tokens as
    the `Parser` module (its `split_array`, `get_component_type` and delta
    pattern are the same text, and are shared here), but builds a dict of
    datetime fields instead of moving the clock: every field starts at
    `now`'s value (seconds at 0), the parsed fields overwrite it, and the
    result is `datetime(**fields)`, which rejects a field out of range. A
    delta therefore adds to one field without carrying into the next. */
module LegacyParser {
  import opened Wrappers
  import opened Calendar
  import opened Strings
  import Helper
  import Parser

  type Fields = Helper.Replacement

  /** `d.update(e)`: the fields of `e`, and those of `d` that `e` lacks. */
  function Update(d: Fields, e: Fields): (r: Fields)
    ensures forall dt :: Helper.Replace(dt, r) == Helper.Replace(Helper.Replace(dt, d), e)
  {
    Helper.Replacement(
      if e.year.Some? then e.year else d.year,
      if e.month.Some? then e.month else d.month,
      if e.day.Some? then e.day else d.day,
      if e.hour.Some? then e.hour else d.hour,
      if e.minute.Some? then e.minute else d.minute,
      if e.second.Some? then e.second else d.second,
      if e.microsecond.Some? then e.microsecond else d.microsecond)
  }

  /** No date field. */
  predicate TimeOnly(f: Fields) {
    f.year.None? && f.month.None? && f.day.None? && f.microsecond.None?
  }

  /** No time field. */
  predicate DateOnly(f: Fields) {
    f.hour.None? && f.minute.None? && f.second.None? && f.microsecond.None?
  }

  /** `parse_time(time)`: hour and minute from "h:m", the second as well
      from "h:m:s", nothing from any other shape. */
  function ParseTime(time: string): (r: Result<Fields>)
    ensures r.Err? ==> r.error == ValueError
    ensures r.Ok? ==> TimeOnly(r.value) && (r.value.hour.Some? <==> |Split(time, ':')| in {2, 3})
    ensures r.Ok? ==> (r.value.second.Some? <==> |Split(time, ':')| == 3)
    ensures |Split(time, ':')| !in {2, 3} ==> r == Ok(Helper.NoReplacement)
  {
    var parts := Split(time, ':');
    if |parts| == 2 || |parts| == 3 then
      match Parser.Ints(parts)
      case Err(e) => Err(e)
      case Ok(vs) =>
        Ok(Helper.NoReplacement.(hour := Some(vs[0]), minute := Some(vs[1]),
                                 second := if |vs| == 3 then Some(vs[2]) else None))
    else Ok(Helper.NoReplacement)
  }

  /** `parse_date(date)`: year, month and day from "y-m-d", month and day
      from "m-d", the day from "d", nothing from more parts. */
  function ParseDate(date: string): (r: Result<Fields>)
    ensures r.Err? ==> r.error == ValueError
    ensures r.Ok? ==> DateOnly(r.value)
    ensures r.Ok? && |Split(date, '-')| <= 3 ==>
              && r.value.day.Some?
              && (r.value.month.Some? <==> |Split(date, '-')| >= 2)
              && (r.value.year.Some? <==> |Split(date, '-')| == 3)
    ensures |Split(date, '-')| > 3 ==> r == Ok(Helper.NoReplacement)
  {
    var parts := Split(date, '-');
    if |parts| <= 3 then
      match Parser.Ints(parts)
      case Err(e) => Err(e)
      case Ok(vs) =>
        if |vs| == 3 then Ok(Helper.NoReplacement.(year := Some(vs[0]), month := Some(vs[1]), day := Some(vs[2])))
        else if |vs| == 2 then Ok(Helper.NoReplacement.(month := Some(vs[0]), day := Some(vs[1])))
        else Ok(Helper.NoReplacement.(day := Some(vs[0])))
    else Ok(Helper.NoReplacement)
  }

  /** A field of `now` moved by an entry of the delta, if there is one. */
  function Plus(field: int, entry: Option<int>): Option<int> {
    if entry.Some? then Some(field + entry.value) else None
  }

  /** The dict `parse_delta` returns for the collected entries: `now.day`,
      `now.hour` and `now.minute` plus the signed value, with no carry. */
  function ShiftFields(sh: Parser.Shift, now: DateTime): (r: Fields)
    ensures r.year.None? && r.month.None? && r.second.None? && r.microsecond.None?
  {
    Helper.NoReplacement.(day := Plus(now.day, sh.days), hour := Plus(now.hour, sh.hours),
                          minute := Plus(now.minute, sh.minutes))
  }

  function ParseDeltaSpec(delta: string, now: DateTime): Fields {
    ShiftFields(Parser.Collect(Parser.FindAll(delta)), now)
  }

  /** `parse_delta(delta, now)`: the loop over the matches fills the dict. */
  method ParseDelta(delta: string, now: DateTime) returns (ret: Fields)
    ensures ret == ParseDeltaSpec(delta, now)
  {
    var ms := Parser.FindAll(delta);
    ret := Helper.NoReplacement;
    var i := 0;
    while i < |ms|
      invariant 0 <= i <= |ms|
      invariant ret == ShiftFields(Parser.Collect(ms[..i]), now)
    {
      var m := ms[i];
      var value: int := m.value;
      if m.sign == Some('-') {
        value := -value;
      }
      if m.unit == 'd' {
        ret := ret.(day := Some(now.day + value));
      } else if m.unit == 'h' {
        ret := ret.(hour := Some(now.hour + value));
      } else if m.unit == 'm' {
        ret := ret.(minute := Some(now.minute + value));
      }
      assert ms[..i + 1][..i] == ms[..i];
      i := i + 1;
    }
    assert ms[..i] == ms;
  }

  /** `parse_delta_with_time`: the delta's fields, then the time's over them;
      without exactly one "@" the unpacking fails. */
  function ParseDeltaWithTime(text: string, now: DateTime): (r: Result<Fields>)
    ensures r.Err? ==> r.error == ValueError
    ensures r.Ok? ==> r.value.year.None? && r.value.month.None? && r.value.microsecond.None?
  {
    var parts := Split(text, '@');
    if |parts| != 2 then Err(ValueError)
    else match ParseTime(parts[1])
      case Err(e) => Err(e)
      case Ok(t) => Ok(Update(ParseDeltaSpec(parts[0], now), t))
  }

  /** `default_date_time_components`: `now` with the second and microsecond
      at 0. */
  function Defaults(now: Timestamp): DateTime {
    FromTimestamp(now).(second := 0, microsecond := 0)
  }

  /** The dict of `single_time_parse` after its updates. */
  function Updated(components: seq<string>, now: Timestamp): (r: Result<DateTime>)
    ensures r.Err? ==> r.error == ValueError
    ensures r.Ok? ==> r.value.microsecond == 0
  {
    var types := Parser.Types(components);
    var d := Defaults(now);
    if |components| == 0 then Ok(d)
    else if |components| == 1 then
      match types[0]
      case TimeType => (match ParseTime(components[0]) case Err(e) => Err(e) case Ok(f) => Ok(Helper.Replace(d, f)))
      case DateType => (match ParseDate(components[0]) case Err(e) => Err(e) case Ok(f) => Ok(Helper.Replace(d, f)))
      case DeltaType => Ok(Helper.Replace(d, ParseDeltaSpec(components[0], FromTimestamp(now))))
      case DeltaWithTimeType =>
        (match ParseDeltaWithTime(components[0], FromTimestamp(now))
         case Err(e) => Err(e)
         case Ok(f) => Ok(Helper.Replace(d, f)))
    else if types == [Parser.DateType, Parser.TimeType] then
      match ParseDate(components[0])
      case Err(e) => Err(e)
      case Ok(f) =>
        match ParseTime(components[1])
        case Err(e) => Err(e)
        case Ok(g) => Ok(Helper.Replace(Helper.Replace(d, f), g))
    else Err(ValueError)
  }

  /** `datetime(**fields)`: a `ValueError` for a field out of range, the
      year included. */
  function Build(dt: DateTime): (r: Result<Timestamp>)
    ensures r.Ok? <==> ValidDateTime(dt) && InYears(dt.year)
    ensures r.Err? ==> r.error == ValueError
  {
    if ValidDateTime(dt) && InYears(dt.year) then Ok(ToTimestamp(dt)) else Err(ValueError)
  }

  /** The datetime built has the fields it was built from. */
  lemma BuildFields(dt: DateTime)
    requires ValidDateTime(dt) && InYears(dt.year)
    ensures FromTimestamp(Build(dt).value) == dt
  {
    FromToTimestamp(dt);
  }

  function SingleTimeParseSpec(components: seq<string>, now: Timestamp): (r: Result<Timestamp>)
    ensures r.Err? ==> r.error == ValueError
  {
    match Updated(components, now)
    case Err(e) => Err(e)
    case Ok(dt) => Build(dt)
  }

  /** `single_time_parse(components, now=now)`: the defaults dict is updated
      in place by the parsed fields, then turned into a datetime. */
  method SingleTimeParse(components: seq<string>, now: Timestamp) returns (r: Result<Timestamp>)
    ensures r == SingleTimeParseSpec(components, now)
  {
    var defaults := Defaults(now);
    var types := Parser.Types(components);
    if |components| == 1 && types[0] == Parser.TimeType {
      var f := ParseTime(components[0]);
      if f.Err? {
        return Err(f.error);
      }
      defaults := Helper.Replace(defaults, f.value);
    } else if |components| == 1 && types[0] == Parser.DateType {
      var f := ParseDate(components[0]);
      if f.Err? {
        return Err(f.error);
      }
      defaults := Helper.Replace(defaults, f.value);
    } else if |components| == 1 && types[0] == Parser.DeltaType {
      var f := ParseDelta(components[0], FromTimestamp(now));
      defaults := Helper.Replace(defaults, f);
    } else if |components| == 1 && types[0] == Parser.DeltaWithTimeType {
      var f := ParseDeltaWithTime(components[0], FromTimestamp(now));
      if f.Err? {
        return Err(f.error);
      }
      defaults := Helper.Replace(defaults, f.value);
    } else if types == [Parser.DateType, Parser.TimeType] {
      var f := ParseDate(components[0]);
      if f.Err? {
        return Err(f.error);
      }
      defaults := Helper.Replace(defaults, f.value);
      var g := ParseTime(components[1]);
      if g.Err? {
        return Err(g.error);
      }
      defaults := Helper.Replace(defaults, g.value);
    } else if |components| != 0 {
      return Err(ValueError);
    }
    r := Build(defaults);
  }

  /** The start and the end `parse_args` returns. */
  function ParseArgsSpec(args: seq<string>, preferFullDays: bool, now: Timestamp): Result<Parser.Args> {
    var (before, after) := Parser.SplitArray(args, "-");
    match SingleTimeParseSpec(before, now)
    case Err(e) => Err(e)
    case Ok(start) =>
      if after == [] then Ok(Parser.Arrange(start, None, preferFullDays, false))
      else match SingleTimeParseSpec(after, start)
        case Err(e) => Err(e)
        case Ok(end) => Ok(Parser.Arrange(start, Some(end), preferFullDays, false))
  }

  /** `parse_args(args, prefer_full_days)` with the clock `now`. */
  method ParseArgs(args: seq<string>, preferFullDays: bool, now: Timestamp) returns (r: Result<Parser.Args>)
    ensures r == ParseArgsSpec(args, preferFullDays, now)
  {
    var (before, after) := Parser.SplitArray(args, "-");
    var start := SingleTimeParse(before, now);
    if start.Err? {
      return Err(start.error);
    }
    var end: Option<Timestamp> := None;
    if after != [] {
      var e := SingleTimeParse(after, start.value);
      if e.Err? {
        return Err(e.error);
      }
      end := Some(e.value);
    }
    r := Ok(Parser.Arrange(start.value, end, preferFullDays, false));
  }

  // ---------------------------------------------------------------------
  // properties

  /** Only the accepted shapes parse. */
  lemma SingleTimeShapes(components: seq<string>, now: Timestamp)
    ensures !Parser.Accepted(Parser.Types(components)) ==> SingleTimeParseSpec(components, now) == Err(ValueError)
    ensures components == [] ==>
              SingleTimeParseSpec(components, now)
                == if Representable(now) then Ok(Parser.ClearSeconds(now)) else Err(ValueError)
  {
    if components == [] {
      Parser.ClearSecondsIsSet(now);
      assert Helper.Replace(FromTimestamp(now), Helper.NoReplacement.(second := Some(0), microsecond := Some(0)))
          == Defaults(now);
    }
  }

  /** The microsecond is always 0. */
  lemma SingleTimeWholeSecond(components: seq<string>, now: Timestamp)
    requires SingleTimeParseSpec(components, now).Ok?
    ensures FromTimestamp(SingleTimeParseSpec(components, now).value).microsecond == 0
  {
    BuildFields(Updated(components, now).value);
  }

  /** Times alone keep `now`'s date. */
  lemma SingleTimeKeepsDate(components: seq<string>, now: Timestamp)
    requires SingleTimeParseSpec(components, now).Ok?
    requires forall i :: 0 <= i < |components| ==> Parser.GetComponentType(components[i]) == Parser.TimeType
    ensures var dt := FromTimestamp(SingleTimeParseSpec(components, now).value);
            && dt.year == FromTimestamp(now).year && dt.month == FromTimestamp(now).month
            && dt.day == FromTimestamp(now).day
  {
    BuildFields(Updated(components, now).value);
  }

  /** "h:m" overrides just the hour and the minute. */
  lemma TimeText(hour: nat, minute: nat, now: Timestamp)
    requires hour < 24 && minute < 60
    ensures SingleTimeParseSpec([Parser.Numbers([hour, minute], ':')], now).Ok? <==> Representable(now)
    ensures Representable(now) ==>
              FromTimestamp(SingleTimeParseSpec([Parser.Numbers([hour, minute], ':')], now).value)
                == Defaults(now).(hour := hour, minute := minute)
  {
    RepresentableYears(now);
    var text := Parser.Numbers([hour, minute], ':');
    Parser.NumbersRead([hour, minute], ':');
    Parser.ComponentOfNumbers([hour, minute], ':');
    assert Parser.Types([text]) == [Parser.TimeType];
    assert Helper.Replace(Defaults(now), Helper.NoReplacement.(hour := Some(hour), minute := Some(minute)))
        == Defaults(now).(hour := hour, minute := minute);
    if Representable(now) {
      BuildFields(Defaults(now).(hour := hour, minute := minute));
    }
  }

  /** A written one-unit delta as the whole argument. */
  function MinutesText(m: Parser.DeltaMatch): string { Parser.Render([m]) }

  lemma MinutesDelta(m: Parser.DeltaMatch)
    requires Parser.WellFormed(m) && m.sign.Some? && m.unit == 'm'
    ensures Parser.GetComponentType(MinutesText(m)) == Parser.DeltaType
    ensures Parser.Collect(Parser.FindAll(MinutesText(m))) == Parser.NoShift.(minutes := Some(Parser.Signed(m)))
  {
    Parser.ComponentOfDelta([m]);
    Parser.FindAllRender([m]);
    assert [m][..0] == [];
  }

  /** A minutes delta that leaves the hour ("-35m" at 15:34) is a
      `ValueError` here, where the `Parser` module carries into the hour. */
  lemma MinutesUnderflow(m: Parser.DeltaMatch, now: Timestamp)
    requires Parser.WellFormed(m) && m.sign.Some? && m.unit == 'm'
    requires !(0 <= FromTimestamp(now).minute + Parser.Signed(m) < 60)
    ensures SingleTimeParseSpec([MinutesText(m)], now) == Err(ValueError)
    ensures Parser.SingleTimeParse([MinutesText(m)], now).Ok? <==> Representable(now + Parser.Signed(m) * MinuteUs)
  {
    MinutesDelta(m);
    ParserMinutesText(m, now);
  }

  /** Within the hour the two parsers agree on a minutes delta, at any
      moment a Python clock can show. */
  lemma MinutesAgree(m: Parser.DeltaMatch, now: Timestamp)
    requires Parser.WellFormed(m) && m.sign.Some? && m.unit == 'm'
    requires 0 <= FromTimestamp(now).minute + Parser.Signed(m) < 60 && Representable(now)
    ensures SingleTimeParseSpec([MinutesText(m)], now) == Parser.SingleTimeParse([MinutesText(m)], now)
  {
    LegacyMinutesText(m, now);
    ParserMinutesText(m, now);
    InHourRepresentable(now, Parser.Signed(m));
  }

  /** Moving a moment Python can hold by whole minutes within its hour
      keeps it one that Python can hold. */
  lemma InHourRepresentable(now: Timestamp, v: int)
    requires Representable(now) && 0 <= FromTimestamp(now).minute + v < 60
    ensures Representable(now + v * MinuteUs)
  {
    MovedRepresentable(now, v);
    assert now - now % MinuteUs + v * MinuteUs == (now / MinuteUs + v) * MinuteUs;
    MinuteStep(now / MinuteUs + v, now % MinuteUs);
  }

  /** The whole minute moved to is a moment Python can hold. */
  lemma MovedRepresentable(now: Timestamp, v: int)
    requires Representable(now) && 0 <= FromTimestamp(now).minute + v < 60
    ensures Representable(now - now % MinuteUs + v * MinuteUs)
  {
    var base := FromTimestamp(now);
    var moved := base.(minute := base.minute + v, second := 0, microsecond := 0);
    MinuteMovedAt(now, v);
    RepresentableYears(now);
    FromToTimestamp(moved);
    RepresentableYears(ToTimestamp(moved));
  }

  /** The range ends on a whole minute, so it holds the rest of any whole
      minute it holds the start of. */
  lemma MinuteStep(a: int, r: int)
    requires 0 <= a * MinuteUs < Midnight(DaysOfAllYears) && 0 <= r < MinuteUs
    ensures 0 <= a * MinuteUs + r < Midnight(DaysOfAllYears)
  {
    assert Midnight(DaysOfAllYears) == (DaysOfAllYears * 1440) * MinuteUs;
  }

  lemma LegacyMinutesText(m: Parser.DeltaMatch, now: Timestamp)
    requires Parser.WellFormed(m) && m.sign.Some? && m.unit == 'm'
    requires 0 <= FromTimestamp(now).minute + Parser.Signed(m) < 60
    ensures SingleTimeParseSpec([MinutesText(m)], now)
         == if Representable(now) then Ok(now - now % MinuteUs + Parser.Signed(m) * MinuteUs) else Err(ValueError)
  {
    MinutesDelta(m);
    MinutesShift(m, now);
  }

  /** A minutes delta whose matches collect to a shift of its minutes only. */
  lemma MinutesShift(m: Parser.DeltaMatch, now: Timestamp)
    requires Parser.GetComponentType(MinutesText(m)) == Parser.DeltaType
    requires Parser.Collect(Parser.FindAll(MinutesText(m))) == Parser.NoShift.(minutes := Some(Parser.Signed(m)))
    requires 0 <= FromTimestamp(now).minute + Parser.Signed(m) < 60
    ensures SingleTimeParseSpec([MinutesText(m)], now)
         == if Representable(now) then Ok(now - now % MinuteUs + Parser.Signed(m) * MinuteUs) else Err(ValueError)
  {
    DeltaMinutes(MinutesText(m), Parser.Signed(m), now);
  }

  /** A delta component that only moves the minute, within the hour. */
  lemma DeltaMinutes(c: string, v: int, now: Timestamp)
    requires Parser.GetComponentType(c) == Parser.DeltaType
    requires Parser.Collect(Parser.FindAll(c)) == Parser.NoShift.(minutes := Some(v))
    requires 0 <= FromTimestamp(now).minute + v < 60
    ensures SingleTimeParseSpec([c], now)
         == if Representable(now) then Ok(now - now % MinuteUs + v * MinuteUs) else Err(ValueError)
  {
    SingleDelta(c, now);
    LegacyMinutes(v, now, ParseDeltaSpec(c, FromTimestamp(now)));
  }

  lemma ParserMinutesText(m: Parser.DeltaMatch, now: Timestamp)
    requires Parser.WellFormed(m) && m.sign.Some? && m.unit == 'm'
    ensures Parser.SingleTimeParse([MinutesText(m)], now)
         == if Representable(now + Parser.Signed(m) * MinuteUs)
            then Ok(now - now % MinuteUs + Parser.Signed(m) * MinuteUs) else Err(OverflowError)
  {
    MinutesDelta(m);
    ParserMinutesOf(MinutesText(m), Parser.Signed(m), now);
  }

  lemma ParserMinutesOf(c: string, v: int, now: Timestamp)
    requires Parser.GetComponentType(c) == Parser.DeltaType
    requires Parser.Collect(Parser.FindAll(c)) == Parser.NoShift.(minutes := Some(v))
    ensures Representable(now + v * MinuteUs) ==> Parser.SingleTimeParse([c], now) == Ok(now - now % MinuteUs + v * MinuteUs)
    ensures !Representable(now + v * MinuteUs) ==> Parser.SingleTimeParse([c], now) == Err(OverflowError)
  {
    var sh := Parser.NoShift.(minutes := Some(v));
    var t := now + Parser.ShiftUs(sh);
    assert t == now + v * MinuteUs by { Parser.ShiftMinutes(v); }
    assert Parser.ClearSeconds(t) == now - now % MinuteUs + v * MinuteUs by { ParserMinutes(v, now); }
    Parser.SingleDeltaShift(c, sh, now);
  }

  lemma LegacyMinutes(v: int, now: Timestamp, f: Fields)
    requires 0 <= FromTimestamp(now).minute + v < 60
    requires f == ShiftFields(Parser.NoShift.(minutes := Some(v)), FromTimestamp(now))
    ensures Build(Helper.Replace(Defaults(now), f))
         == if Representable(now) then Ok(now - now % MinuteUs + v * MinuteUs) else Err(ValueError)
  {
    var base := FromTimestamp(now);
    var moved := base.(minute := base.minute + v, second := 0, microsecond := 0);
    assert Helper.Replace(Defaults(now), f) == moved;
    MinuteMovedAt(now, v);
    RepresentableYears(now);
    BuildValid(moved, Representable(now), now - now % MinuteUs + v * MinuteUs);
  }

  /** Moving the minute of `now` inside its hour, with the second cleared. */
  lemma MinuteMovedAt(now: Timestamp, v: int)
    requires 0 <= FromTimestamp(now).minute + v < 60
    ensures var base := FromTimestamp(now);
            var moved := base.(minute := base.minute + v, second := 0, microsecond := 0);
            ValidDateTime(moved) && ToTimestamp(moved) == now - now % MinuteUs + v * MinuteUs
  {
    MinuteMoved(FromTimestamp(now), v);
    ToFromTimestamp(now);
    Parser.MinuteFraction(now);
  }

  /** A valid datetime builds when its year is one of Python's. */
  lemma BuildValid(dt: DateTime, ok: bool, x: Timestamp)
    requires ValidDateTime(dt) && ok == InYears(dt.year) && ToTimestamp(dt) == x
    ensures Build(dt) == if ok then Ok(x) else Err(ValueError)
  {
  }

  /** A single delta is applied to the defaults. */
  lemma SingleDelta(c: string, now: Timestamp)
    requires Parser.GetComponentType(c) == Parser.DeltaType
    ensures SingleTimeParseSpec([c], now) == Build(Helper.Replace(Defaults(now), ParseDeltaSpec(c, FromTimestamp(now))))
  {
    assert Parser.Types([c]) == [Parser.DeltaType];
  }

  /** Moving the minute field inside its hour moves the moment by whole
      minutes. */
  lemma MinuteMoved(base: DateTime, v: int)
    requires ValidDateTime(base) && 0 <= base.minute + v < 60
    ensures ValidDateTime(base.(minute := base.minute + v, second := 0, microsecond := 0))
    ensures ToTimestamp(base.(minute := base.minute + v, second := 0, microsecond := 0))
            == ToTimestamp(base) - (base.second * SecondUs + base.microsecond) + v * MinuteUs
  {
  }

  lemma ParserMinutes(v: int, now: Timestamp)
    ensures Parser.ClearSeconds(now + Parser.ShiftUs(Parser.NoShift.(minutes := Some(v)))) == now - now % MinuteUs + v * MinuteUs
  {
    Parser.ShiftMinutes(v);
    assert (now + v * MinuteUs) % MinuteUs == now % MinuteUs by {
      var q := now / MinuteUs;
      assert now + v * MinuteUs == (q + v) * MinuteUs + now % MinuteUs;
    }
  }

  /** With `prefer_full_days` the start is a midnight and a missing end is
      the last moment of its day. */
  lemma ParseArgsFullDays(args: seq<string>, now: Timestamp)
    requires ParseArgsSpec(args, true, now).Ok?
    ensures ParseArgsSpec(args, true, now).value.Two?
    ensures var r := ParseArgsSpec(args, true, now).value;
            && r.start % DayUs == 0 && r.end.Some?
            && ("-" !in args ==> r.end == Some(r.start + DayUs - 1))
  {
  }
}
