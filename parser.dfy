/** The command-line time syntax of timeturner/parser.py: arguments are cut
    at "-", each part is a list of components (a time "9:00", a date
    "2022-04-12", a delta "-1h15m", a delta with a time "-1d@9:00"), and
    the components move the clock `now` to the moment they denote. */
module Parser {
  import opened Wrappers
  import opened Calendar
  import opened Strings
  import Helper

  // ---------------------------------------------------------------------
  // split_array, get_component_type

  /** `split_array(array, separator)`: the elements before and after the
      first occurrence of `separator`, or all of them and none. */
  function SplitArray(items: seq<string>, separator: string): (r: (seq<string>, seq<string>))
    ensures separator !in items ==> r == (items, [])
    ensures separator in items ==> r.0 + [separator] + r.1 == items && separator !in r.0
  {
    match IndexOf(items, separator)
    case None => (items, [])
    case Some(i) =>
      assert items == items[..i] + [separator] + items[i + 1..];
      (items[..i], items[i + 1..])
  }

  datatype ComponentType = TimeType | DateType | DeltaType | DeltaWithTimeType

  /** `get_component_type`: a leading sign makes a delta, with a time when
      it holds an "@"; otherwise a ":" makes a time; anything else is a date. */
  function GetComponentType(component: string): (t: ComponentType)
    ensures (StartsWith(component, "-") || StartsWith(component, "+")) ==>
              t == if '@' in component then DeltaWithTimeType else DeltaType
    ensures !(StartsWith(component, "-") || StartsWith(component, "+")) ==>
              t == if ':' in component then TimeType else DateType
  {
    if StartsWith(component, "-") || StartsWith(component, "+") then
      if '@' in component then DeltaWithTimeType else DeltaType
    else if ':' in component then TimeType
    else if '-' in component then DateType
    else DateType
  }

  // ---------------------------------------------------------------------
  // the pattern [+-]?\d+[mhd] and its finditer

  /** One match: the sign if there is one, the value of the digits, and the
      unit letter. */
  datatype DeltaMatch = DeltaMatch(sign: Option<char>, value: nat, unit: char)

  predicate IsUnit(c: char) { c == 'm' || c == 'h' || c == 'd' }

  /** The number of digits `s` starts with. */
  function DigitRun(s: string): (n: nat)
    ensures n <= |s| && AllDigits(s[..n]) && (n == |s| || !IsDigit(s[n]))
  {
    if s != [] && IsDigit(s[0]) then
      var n := 1 + DigitRun(s[1..]);
      assert forall k :: 1 <= k < n ==> s[..n][k] == s[1..][..n - 1][k - 1];
      n
    else 0
  }

  /** The match at the very start of `s` and its length: a sign, then the
      longest run of digits, which must be followed by a unit letter (a
      shorter run would be followed by a digit, so backtracking finds
      nothing more). */
  function MatchHere(s: string): (r: Option<(DeltaMatch, nat)>)
    ensures r.Some? ==> 0 < r.value.1 <= |s| && IsUnit(r.value.0.unit)
    ensures r.Some? ==> r.value.0.sign.None? || r.value.0.sign.value in "+-"
  {
    if s == [] then None
    else
      var signed := s[0] == '+' || s[0] == '-';
      var ds := if signed then s[1..] else s;
      var n := DigitRun(ds);
      if n > 0 && n < |ds| && IsUnit(ds[n]) then
        Some((DeltaMatch(if signed then Some(s[0]) else None, DigitsValue(ds[..n]), ds[n]), |s| - |ds| + n + 1))
      else None
  }

  /** `finditer`: the leftmost match, then the matches after it; where no
      match starts, the search moves on by one character. */
  function FindAll(s: string): (ms: seq<DeltaMatch>)
    ensures forall i :: 0 <= i < |ms| ==> IsUnit(ms[i].unit)
    decreases |s|
  {
    if s == [] then []
    else match MatchHere(s)
      case Some((m, n)) => [m] + FindAll(s[n..])
      case None => FindAll(s[1..])
  }

  /** The text of a match, written the plain way. */
  function RenderMatch(m: DeltaMatch): string {
    (if m.sign.Some? then [m.sign.value] else []) + NatToString(m.value) + [m.unit]
  }

  function Render(ms: seq<DeltaMatch>): string {
    if ms == [] then [] else RenderMatch(ms[0]) + Render(ms[1..])
  }

  predicate WellFormed(m: DeltaMatch) {
    (m.sign.None? || m.sign.value == '+' || m.sign.value == '-') && IsUnit(m.unit)
  }

  lemma {:induction false} DigitRunOf(ds: string, rest: string)
    requires AllDigits(ds) && (rest == [] || !IsDigit(rest[0]))
    ensures DigitRun(ds + rest) == |ds|
    decreases |ds|
  {
    if ds != [] {
      assert (ds + rest)[1..] == ds[1..] + rest;
      DigitRunOf(ds[1..], rest);
    } else {
      assert ds + rest == rest;
    }
  }

  /** A written match is found at the start, with its full length. */
  lemma MatchRendered(m: DeltaMatch, rest: string)
    requires WellFormed(m)
    ensures MatchHere(RenderMatch(m) + rest) == Some((m, |RenderMatch(m)|))
  {
    var sign: string := if m.sign.Some? then [m.sign.value] else [];
    var digits := NatToString(m.value);
    var tail := [m.unit] + rest;
    var s := RenderMatch(m) + rest;
    assert s == sign + (digits + tail);
    var signed := s[0] == '+' || s[0] == '-';
    assert signed <==> m.sign.Some? by {
      if m.sign.None? {
        assert s[0] == digits[0] && IsDigit(digits[0]);
      }
    }
    var ds := if signed then s[1..] else s;
    assert ds == digits + tail;
    DigitRunOf(digits, tail);
    assert ds[..|digits|] == digits;
    assert ds[|digits|] == m.unit;
    NatToStringValue(m.value);
  }

  /** Finding the matches in their written form gives them back: the dict
      `parse_delta` fills sees exactly the components written. */
  lemma {:induction false} FindAllRender(ms: seq<DeltaMatch>)
    requires forall i :: 0 <= i < |ms| ==> WellFormed(ms[i])
    ensures FindAll(Render(ms)) == ms
    decreases |ms|
  {
    if ms != [] {
      var rest := Render(ms[1..]);
      MatchRendered(ms[0], rest);
      assert (RenderMatch(ms[0]) + rest)[|RenderMatch(ms[0])|..] == rest;
      FindAllRender(ms[1..]);
    }
  }

  // ---------------------------------------------------------------------
  // parse_delta

  /** The `ret` dict of `parse_delta`: the signed value last seen for each
      unit. */
  datatype Shift = Shift(days: Option<int>, hours: Option<int>, minutes: Option<int>)

  const NoShift := Shift(None, None, None)

  function Signed(m: DeltaMatch): int {
    if m.sign == Some('-') then -(m.value as int) else m.value
  }

  /** One iteration of the loop: the unit's entry is (over)written. */
  function Note(ret: Shift, m: DeltaMatch): Shift {
    if m.unit == 'd' then ret.(days := Some(Signed(m)))
    else if m.unit == 'h' then ret.(hours := Some(Signed(m)))
    else if m.unit == 'm' then ret.(minutes := Some(Signed(m)))
    else ret
  }

  /** The dict after all of `ms`. */
  function Collect(ms: seq<DeltaMatch>): Shift
    decreases |ms|
  {
    if ms == [] then NoShift else Note(Collect(ms[..|ms| - 1]), ms[|ms| - 1])
  }

  /** The entry of one unit letter. */
  function Entry(sh: Shift, unit: char): Option<int> {
    if unit == 'd' then sh.days else if unit == 'h' then sh.hours else if unit == 'm' then sh.minutes else None
  }

  /** A unit has an entry exactly when some match has that unit. */
  lemma {:induction false} CollectAbsent(ms: seq<DeltaMatch>, unit: char)
    requires IsUnit(unit)
    ensures Entry(Collect(ms), unit).None? <==> forall k :: 0 <= k < |ms| ==> ms[k].unit != unit
    decreases |ms|
  {
    if ms != [] {
      var init := ms[..|ms| - 1];
      CollectAbsent(init, unit);
      assert forall k :: 0 <= k < |init| ==> ms[k] == init[k];
    }
  }

  /** The last match of a unit decides its entry. */
  lemma {:induction false} CollectLastWins(ms: seq<DeltaMatch>, unit: char, k: nat)
    requires IsUnit(unit) && k < |ms| && ms[k].unit == unit
    requires forall j :: k < j < |ms| ==> ms[j].unit != unit
    ensures Entry(Collect(ms), unit) == Some(Signed(ms[k]))
    decreases |ms|
  {
    if k < |ms| - 1 {
      var init := ms[..|ms| - 1];
      assert init[k] == ms[k];
      CollectLastWins(init, unit, k);
    }
  }

  /** `Duration(**ret)` in microseconds. */
  function ShiftUs(sh: Shift): int {
    Helper.DeltaUs(Helper.NoDelta.(days := sh.days.GetOr(0), hours := sh.hours.GetOr(0),
                                   minutes := sh.minutes.GetOr(0)))
  }

  lemma ShiftMinutes(v: int)
    ensures ShiftUs(NoShift.(minutes := Some(v))) == v * MinuteUs
  {
  }

  /** What `parse_delta(delta, now)` returns: `now` moved by the collected
      days, hours and minutes, or the `OverflowError` of `now + Duration`
      when that leaves the moments a `datetime` holds. */
  function ParseDeltaSpec(delta: string, now: Timestamp): Result<Timestamp> {
    Helper.Added(now + ShiftUs(Collect(FindAll(delta))))
  }

  /** `parse_delta`: the loop over the matches fills the dict. */
  method ParseDelta(delta: string, now: Timestamp) returns (r: Result<Timestamp>)
    ensures r == ParseDeltaSpec(delta, now)
  {
    var ms := FindAll(delta);
    var ret := NoShift;
    var i := 0;
    while i < |ms|
      invariant 0 <= i <= |ms|
      invariant ret == Collect(ms[..i])
    {
      var m := ms[i];
      var value: int := m.value;
      if m.sign == Some('-') {
        value := -value;
      }
      if m.unit == 'd' {
        ret := ret.(days := Some(value));
      } else if m.unit == 'h' {
        ret := ret.(hours := Some(value));
      } else if m.unit == 'm' {
        ret := ret.(minutes := Some(value));
      }
      assert ms[..i + 1][..i] == ms[..i];
      i := i + 1;
    }
    assert ms[..i] == ms;
    var t := now + ShiftUs(ret);
    if Representable(t) {
      r := Ok(t);
    } else {
      r := Err(OverflowError);
    }
  }

  /** A written delta moves the clock by the last value of each unit. */
  lemma ParseDeltaRendered(ms: seq<DeltaMatch>, now: Timestamp)
    requires forall i :: 0 <= i < |ms| ==> WellFormed(ms[i])
    ensures var t := now + ShiftUs(Collect(ms));
            ParseDeltaSpec(Render(ms), now) == if Representable(t) then Ok(t) else Err(OverflowError)
  {
    FindAllRender(ms);
    DeltaOfMatches(Render(ms), ms, now);
  }

  /** The delta parse is decided by the matches alone. */
  lemma DeltaOfMatches(delta: string, ms: seq<DeltaMatch>, now: Timestamp)
    requires FindAll(delta) == ms
    ensures var t := now + ShiftUs(Collect(ms));
            ParseDeltaSpec(delta, now) == if Representable(t) then Ok(t) else Err(OverflowError)
  {
  }

  lemma DeltaOfShift(delta: string, sh: Shift, now: Timestamp)
    requires Collect(FindAll(delta)) == sh
    ensures ParseDeltaSpec(delta, now) == Helper.Added(now + ShiftUs(sh))
  {
  }

  /** A text without a unit letter after its digits ("-4s") moves nothing. */
  lemma ParseDeltaNoMatch(delta: string, now: Timestamp)
    requires forall k :: 0 <= k < |delta| ==> !IsUnit(delta[k])
    ensures ParseDeltaSpec(delta, now) == if Representable(now) then Ok(now) else Err(OverflowError)
  {
    NoUnitNoMatch(delta);
  }

  lemma {:induction false} NoUnitNoMatch(s: string)
    requires forall k :: 0 <= k < |s| ==> !IsUnit(s[k])
    ensures FindAll(s) == []
    decreases |s|
  {
    if s != [] {
      match MatchHere(s)
      case Some(_) =>
        assert false;
      case None =>
        NoUnitNoMatch(s[1..]);
    }
  }

  // ---------------------------------------------------------------------
  // parse_time, parse_date

  /** `int()` of each part, in order; the first failure is a `ValueError`. */
  function Ints(parts: seq<string>): (r: Result<seq<int>>)
    ensures r.Ok? <==> forall k :: 0 <= k < |parts| ==> ParseInt(parts[k]).Some?
    ensures r.Ok? ==> |r.value| == |parts| && forall k :: 0 <= k < |parts| ==> r.value[k] == ParseInt(parts[k]).value
    ensures r.Err? ==> r.error == ValueError
    decreases |parts|
  {
    if parts == [] then Ok([])
    else match ParseInt(parts[0])
      case None => Err(ValueError)
      case Some(v) =>
        match Ints(parts[1..])
        case Err(e) => Err(e)
        case Ok(vs) => Ok([v] + vs)
  }

  /** `parse_time(time, now)`: "h:m" sets the hour and minute, "h:m:s" also
      the second; any other number of parts sets nothing. The new fields
      must be in range (`ValueError` otherwise). */
  function ParseTime(time: string, now: Timestamp): (r: Result<Timestamp>)
    ensures r.Err? ==> r.error == ValueError
  {
    var parts := Split(time, ':');
    if |parts| == 2 || |parts| == 3 then
      match Ints(parts)
      case Err(e) => Err(e)
      case Ok(vs) =>
        Helper.ReplaceAt(now, Helper.NoReplacement.(hour := Some(vs[0]), minute := Some(vs[1]),
                                                    second := if |vs| == 3 then Some(vs[2]) else None))
    else Helper.ReplaceAt(now, Helper.NoReplacement)
  }

  /** `parse_date(date, now)`: "y-m-d" sets the date, "m-d" the month and
      day, "d" the day; more parts set nothing. */
  function ParseDate(date: string, now: Timestamp): (r: Result<Timestamp>)
    ensures r.Err? ==> r.error == ValueError
  {
    var parts := Split(date, '-');
    if |parts| <= 3 then
      match Ints(parts)
      case Err(e) => Err(e)
      case Ok(vs) =>
        var args :=
          if |vs| == 3 then Helper.NoReplacement.(year := Some(vs[0]), month := Some(vs[1]), day := Some(vs[2]))
          else if |vs| == 2 then Helper.NoReplacement.(month := Some(vs[0]), day := Some(vs[1]))
          else Helper.NoReplacement.(day := Some(vs[0]));
        Helper.ReplaceAt(now, args)
    else Helper.ReplaceAt(now, Helper.NoReplacement)
  }

  /** Setting nothing keeps the clock where it is. */
  lemma ReplaceNothing(now: Timestamp)
    ensures Helper.ReplaceAt(now, Helper.NoReplacement) == if Representable(now) then Ok(now) else Err(ValueError)
  {
    RepresentableYears(now);
    ToFromTimestamp(now);
  }

  /** `Ints` part by part. */
  lemma IntsCons(p: string, ps: seq<string>, v: int, vs: seq<int>)
    requires ParseInt(p) == Some(v) && Ints(ps) == Ok(vs)
    ensures Ints([p] + ps) == Ok([v] + vs)
  {
    assert ([p] + ps)[1..] == ps;
  }

  /** The decimal texts of some numbers. */
  function Texts(ns: seq<nat>): (ts: seq<string>)
    ensures |ts| == |ns| && forall i :: 0 <= i < |ts| ==> ts[i] == NatToString(ns[i])
  {
    if ns == [] then [] else [NatToString(ns[0])] + Texts(ns[1..])
  }

  /** Numbers written with a separator between them, "9:30" or "2022-4-12". */
  function Numbers(ns: seq<nat>, sep: char): string
    requires |ns| >= 1
  {
    Join(Texts(ns), sep)
  }

  /** A number written out reads back in front of the rest. */
  lemma IntsConsNat(n: nat, ps: seq<string>, vs: seq<int>)
    requires Ints(ps) == Ok(vs)
    ensures Ints([NatToString(n)] + ps) == Ok([n as int] + vs)
  {
    ParseIntToString(n);
    assert IntToString(n) == NatToString(n);
    IntsCons(NatToString(n), ps, n, vs);
  }

  lemma {:induction false} IntsOf(ns: seq<nat>)
    ensures Ints(Texts(ns)) == Ok(ns)
    decreases |ns|
  {
    if ns == [] {
      assert Texts(ns) == [];
    } else {
      IntsOf(ns[1..]);
      TextsCons(ns);
      IntsConsNat(ns[0], Texts(ns[1..]), ns[1..]);
      NatsCons(ns);
    }
  }

  lemma TextsCons(ns: seq<nat>)
    requires ns != []
    ensures Texts(ns) == [NatToString(ns[0])] + Texts(ns[1..])
  {
  }

  lemma NatsCons(ns: seq<nat>)
    requires ns != []
    ensures [ns[0] as int] + ns[1..] == ns
  {
  }

  /** Written numbers split back into their digits, and those read back as
      the numbers. */
  lemma NumbersRead(ns: seq<nat>, sep: char)
    requires |ns| >= 1 && !IsDigit(sep)
    ensures Ints(Split(Numbers(ns, sep), sep)) == Ok(ns)
  {
    var parts := Texts(ns);
    forall i | 0 <= i < |parts|
      ensures sep !in parts[i]
    {
      assert AllDigits(parts[i]);
    }
    SplitJoin(parts, sep);
    IntsOf(ns);
  }

  /** Written times are classified as times, written dates as dates. */
  lemma ComponentOfNumbers(ns: seq<nat>, sep: char)
    requires |ns| >= 2 && (sep == ':' || sep == '-')
    ensures GetComponentType(Numbers(ns, sep)) == if sep == ':' then TimeType else DateType
  {
    var ts := Texts(ns);
    var text := Numbers(ns, sep);
    assert ts[0] == NatToString(ns[0]);
    assert text == ts[0] + [sep] + Join(ts[1..], sep);
    assert text[0] == ts[0][0] && IsDigit(ts[0][0]);
    assert text[|ts[0]|] == sep;
    TextsPlain(ns, sep);
  }

  /** The text of numbers holds only digits and the separator. */
  lemma {:induction false} TextsPlain(ns: seq<nat>, sep: char)
    requires |ns| >= 1
    ensures forall k :: 0 <= k < |Numbers(ns, sep)| ==> IsDigit(Numbers(ns, sep)[k]) || Numbers(ns, sep)[k] == sep
    decreases |ns|
  {
    var ts := Texts(ns);
    assert ts[0] == NatToString(ns[0]);
    if |ns| > 1 {
      TextsPlain(ns[1..], sep);
      assert Texts(ns[1..]) == ts[1..];
      assert Numbers(ns, sep) == ts[0] + [sep] + Numbers(ns[1..], sep);
    }
  }

  /** A written delta with a sign in front is a delta. */
  lemma ComponentOfDelta(ms: seq<DeltaMatch>)
    requires ms != [] && ms[0].sign.Some? && forall i :: 0 <= i < |ms| ==> WellFormed(ms[i])
    ensures GetComponentType(Render(ms)) == DeltaType
  {
    RenderPlain(ms);
    var text := Render(ms);
    assert text == RenderMatch(ms[0]) + Render(ms[1..]);
    assert text[0] == ms[0].sign.value;
  }

  /** A written delta holds no "@". */
  lemma {:induction false} RenderPlain(ms: seq<DeltaMatch>)
    requires forall i :: 0 <= i < |ms| ==> WellFormed(ms[i])
    ensures '@' !in Render(ms)
    decreases |ms|
  {
    if ms != [] {
      RenderPlain(ms[1..]);
      var digits := NatToString(ms[0].value);
      assert '@' !in digits by {
        assert forall k :: 0 <= k < |digits| ==> IsDigit(digits[k]);
      }
      var sign: string := if ms[0].sign.Some? then [ms[0].sign.value] else [];
      assert Render(ms) == sign + digits + [ms[0].unit] + Render(ms[1..]);
    }
  }

  /** "h:m" with an hour and minute in range moves `now` to that time of
      its day, with the second and microsecond kept. */
  lemma ParseTimeText(hour: nat, minute: nat, now: Timestamp)
    requires hour < 24 && minute < 60
    ensures ParseTime(Numbers([hour, minute], ':'), now).Ok? <==> Representable(now)
    ensures Representable(now) ==>
              FromTimestamp(ParseTime(Numbers([hour, minute], ':'), now).value)
                == FromTimestamp(now).(hour := hour, minute := minute)
  {
    RepresentableYears(now);
    NumbersRead([hour, minute], ':');
    var dt := FromTimestamp(now).(hour := hour, minute := minute);
    assert Helper.Replace(FromTimestamp(now), Helper.NoReplacement.(hour := Some(hour), minute := Some(minute))) == dt;
    FromToTimestamp(dt);
  }

  /** "y-m-d" with a valid date moves `now` to that date, with the time of
      day kept; a year outside 1..9999 is a `ValueError`. */
  lemma ParseDateText(year: nat, month: nat, day: nat, now: Timestamp)
    requires ValidDate(year, month, day)
    ensures ParseDate(Numbers([year, month, day], '-'), now).Ok? <==> InYears(year)
    ensures InYears(year) ==>
              FromTimestamp(ParseDate(Numbers([year, month, day], '-'), now).value)
                == FromTimestamp(now).(year := year, month := month, day := day)
  {
    NumbersRead([year, month, day], '-');
    var dt := FromTimestamp(now).(year := year, month := month, day := day);
    assert Helper.Replace(FromTimestamp(now), Helper.NoReplacement.(year := Some(year), month := Some(month), day := Some(day))) == dt;
    FromToTimestamp(dt);
  }

  /** "d" with a day of the current month moves `now` to that day. */
  lemma ParseDateDay(day: nat, now: Timestamp)
    requires ValidDate(FromTimestamp(now).year, FromTimestamp(now).month, day)
    ensures ParseDate(Numbers([day], '-'), now).Ok? <==> Representable(now)
    ensures Representable(now) ==>
              FromTimestamp(ParseDate(Numbers([day], '-'), now).value) == FromTimestamp(now).(day := day)
  {
    RepresentableYears(now);
    NumbersRead([day], '-');
    var dt := FromTimestamp(now).(day := day);
    assert Helper.Replace(FromTimestamp(now), Helper.NoReplacement.(day := Some(day))) == dt;
    FromToTimestamp(dt);
  }

  /** A time with one part, or four, leaves the clock alone; so does a date
      with four parts. */
  lemma ParseOtherShapes(text: string, now: Timestamp)
    ensures |Split(text, ':')| !in {2, 3} ==>
              ParseTime(text, now) == if Representable(now) then Ok(now) else Err(ValueError)
    ensures |Split(text, '-')| > 3 ==>
              ParseDate(text, now) == if Representable(now) then Ok(now) else Err(ValueError)
  {
    ReplaceNothing(now);
  }

  // The inputs the repository's tests call bad. "-4s" has no match, so the
  // clock stays; "1-2-3-4" and "14" have a number of parts no case takes,
  // so nothing is set; "" and "zzzz-02-29" are not numbers.

  lemma DeltaWithoutUnit(now: Timestamp)
    ensures ParseDeltaSpec("-4s", now) == if Representable(now) then Ok(now) else Err(OverflowError)
  {
    ParseDeltaNoMatch("-4s", now);
  }

  lemma DateOfFourParts(now: Timestamp)
    ensures ParseDate("1-2-3-4", now) == if Representable(now) then Ok(now) else Err(ValueError)
  {
    SplitFourParts();
    ReplaceNothing(now);
  }

  lemma SplitFourParts()
    ensures |Split("1-2-3-4", '-')| == 4
  {
    assert "1-2-3-4" == "1" + "-" + "2-3-4" && "2-3-4" == "2" + "-" + "3-4" && "3-4" == "3" + "-" + "4";
    SplitCons("1", "2-3-4", '-');
    SplitCons("2", "3-4", '-');
    SplitCons("3", "4", '-');
    assert Split("4", '-') == ["4"];
  }

  lemma TimeOfOnePart(now: Timestamp)
    ensures ParseTime("14", now) == if Representable(now) then Ok(now) else Err(ValueError)
  {
    assert Split("14", ':') == ["14"];
    ReplaceNothing(now);
  }

  lemma EmptyDate(now: Timestamp)
    ensures ParseDate("", now) == Err(ValueError)
  {
    assert Split("", '-') == [""];
    assert Strip("") == "";
  }

  lemma DateNotNumber(now: Timestamp)
    ensures ParseDate("zzzz-02-29", now) == Err(ValueError)
  {
    var parts := ["zzzz", "02", "29"];
    SplitLettersDate();
    LettersNotNumber();
    assert Ints(parts) == Err(ValueError);
  }

  lemma SplitLettersDate()
    ensures Split("zzzz-02-29", '-') == ["zzzz", "02", "29"]
  {
    SplitThree("zzzz", "02", "29", '-');
    assert "zzzz" + ['-'] + "02" + ['-'] + "29" == "zzzz-02-29";
  }

  /** Three separator-free pieces joined by the separator split back. */
  lemma SplitThree(a: string, b: string, c: string, sep: char)
    requires sep !in a && sep !in b && sep !in c
    ensures Split(a + [sep] + b + [sep] + c, sep) == [a, b, c]
  {
    SplitCons(b, c, sep);
    assert a + [sep] + b + [sep] + c == a + [sep] + (b + [sep] + c);
    SplitCons(a, b + [sep] + c, sep);
  }

  lemma LettersNotNumber()
    ensures ParseInt("zzzz") == None
  {
    NotSigned("zzzz");
  }

  /** A text that starts with neither a digit, a sign nor whitespace is no
      number. */
  lemma NotSigned(s: string)
    requires s != [] && !IsSpace(s[0]) && !IsSpace(s[|s| - 1])
    requires !IsDigit(s[0]) && s[0] != '-' && s[0] != '+'
    ensures ParseInt(s) == None
  {
    StripTrimmed(s);
  }

  /** "-35m" moves the clock back 35 minutes across the hour. */
  lemma MinutesBack(now: Timestamp)
    ensures ParseDeltaSpec("-35m", now)
         == if Representable(now - 35 * MinuteUs) then Ok(now - 35 * MinuteUs) else Err(OverflowError)
  {
    var m := DeltaMatch(Some('-'), 35, 'm');
    assert NatToString(35) == "35";
    assert Render([m]) == "-35m";
    FindAllRender([m]);
    assert Collect([m]) == NoShift.(minutes := Some(-35)) by {
      assert [m][..0] == [];
    }
  }

  // ---------------------------------------------------------------------
  // parse_delta_with_time, single_time_parse, parse_args

  /** `parse_delta_with_time`: exactly one "@" (the unpacking fails with a
      `ValueError` otherwise), the delta moves `now` (or overflows), then the
      time is set. */
  function ParseDeltaWithTime(text: string, now: Timestamp): (r: Result<Timestamp>)
    ensures r.Err? ==> r.error == ValueError || r.error == OverflowError
    ensures r.Err? && r.error == OverflowError ==>
              |Split(text, '@')| == 2 && ParseDeltaSpec(Split(text, '@')[0], now).Err?
  {
    var parts := Split(text, '@');
    if |parts| != 2 then Err(ValueError)
    else match ParseDeltaSpec(parts[0], now)
      case Err(e) => Err(e)
      case Ok(t) => ParseTime(parts[1], t)
  }

  /** "delta@time" moves by the delta, then sets the time; without exactly
      one "@" the unpacking fails. */
  lemma ParseDeltaWithTimeParts(ms: seq<DeltaMatch>, time: string, now: Timestamp)
    requires forall i :: 0 <= i < |ms| ==> WellFormed(ms[i])
    requires '@' !in time
    ensures var t := now + ShiftUs(Collect(ms));
            Representable(t) ==> ParseDeltaWithTime(Render(ms) + "@" + time, now) == ParseTime(time, t)
    ensures var t := now + ShiftUs(Collect(ms));
            !Representable(t) ==> ParseDeltaWithTime(Render(ms) + "@" + time, now) == Err(OverflowError)
  {
    RenderPlain(ms);
    SplitAtOne(Render(ms), time, '@');
    assert Render(ms) + "@" + time == Render(ms) + ['@'] + time;
    FindAllRender(ms);
    DeltaWithTimeOf(Render(ms) + "@" + time, Render(ms), time, ms, now);
  }

  /** With the text split at its one "@", the delta's matches decide it. */
  lemma DeltaWithTimeOf(text: string, delta: string, time: string, ms: seq<DeltaMatch>, now: Timestamp)
    requires Split(text, '@') == [delta, time] && FindAll(delta) == ms
    ensures var t := now + ShiftUs(Collect(ms));
            Representable(t) ==> ParseDeltaWithTime(text, now) == ParseTime(time, t)
    ensures var t := now + ShiftUs(Collect(ms));
            !Representable(t) ==> ParseDeltaWithTime(text, now) == Err(OverflowError)
  {
    DeltaWithTimeShift(text, delta, time, Collect(ms), now);
  }

  lemma DeltaWithTimeShift(text: string, delta: string, time: string, sh: Shift, now: Timestamp)
    requires Split(text, '@') == [delta, time] && Collect(FindAll(delta)) == sh
    ensures Representable(now + ShiftUs(sh)) ==> ParseDeltaWithTime(text, now) == ParseTime(time, now + ShiftUs(sh))
    ensures !Representable(now + ShiftUs(sh)) ==> ParseDeltaWithTime(text, now) == Err(OverflowError)
  {
    var t := now + ShiftUs(sh);
    DeltaOfShift(delta, sh, now);
    if Representable(t) {
      DeltaWithTimeAt(text, delta, time, now, Ok(t));
    } else {
      DeltaWithTimeAt(text, delta, time, now, Err(OverflowError));
    }
  }

  lemma DeltaWithTimeAt(text: string, delta: string, time: string, now: Timestamp, d: Result<Timestamp>)
    requires Split(text, '@') == [delta, time] && ParseDeltaSpec(delta, now) == d
    ensures d.Err? ==> ParseDeltaWithTime(text, now) == Err(d.error)
    ensures d.Ok? ==> ParseDeltaWithTime(text, now) == ParseTime(time, d.value)
  {
  }

  lemma SplitAtOne(a: string, b: string, sep: char)
    requires sep !in a && sep !in b
    ensures Split(a + [sep] + b, sep) == [a, b]
  {
    SplitCons(a, b, sep);
  }

  lemma ParseDeltaWithTimeShape(text: string, now: Timestamp)
    requires |Split(text, '@')| != 2
    ensures ParseDeltaWithTime(text, now) == Err(ValueError)
  {
  }

  /** The component shapes `single_time_parse` accepts. */
  predicate Accepted(types: seq<ComponentType>) {
    |types| == 0 || |types| == 1 || types == [DateType, TimeType]
  }

  function Types(components: seq<string>): (ts: seq<ComponentType>)
    ensures |ts| == |components| && forall i :: 0 <= i < |ts| ==> ts[i] == GetComponentType(components[i])
  {
    seq(|components|, i requires 0 <= i < |components| => GetComponentType(components[i]))
  }

  /** The moment before seconds are cleared. */
  function Moved(components: seq<string>, now: Timestamp): (r: Result<Timestamp>)
    ensures r.Err? ==> r.error == ValueError || r.error == OverflowError
  {
    var types := Types(components);
    if |components| == 0 then Ok(now)
    else if |components| == 1 then
      match types[0]
      case TimeType => ParseTime(components[0], now)
      case DateType => ParseDate(components[0], now)
      case DeltaType => ParseDeltaSpec(components[0], now)
      case DeltaWithTimeType => ParseDeltaWithTime(components[0], now)
    else if types == [DateType, TimeType] then
      match ParseDate(components[0], now)
      case Err(e) => Err(e)
      case Ok(t) => ParseTime(components[1], t)
    else Err(ValueError)
  }

  /** `now.set(second=0, microsecond=0)`. */
  function ClearSeconds(t: Timestamp): Timestamp {
    t - t % MinuteUs
  }

  /** `single_time_parse(components, now=now)`; the clock is a parameter.
      The final `set(second=0, microsecond=0)` is written in the closed form
      `ClearSecondsIsSet` proves for it. */
  function SingleTimeParse(components: seq<string>, now: Timestamp): (r: Result<Timestamp>)
    ensures r.Err? ==> r.error == ValueError || r.error == OverflowError
  {
    match Moved(components, now)
    case Err(e) => Err(e)
    case Ok(t) => if Representable(t) then Ok(ClearSeconds(t)) else Err(ValueError)
  }

  /** Whole days are whole minutes, so the minute fraction of a moment is
      that of its time of day. */
  lemma MinuteOfDay(t: Timestamp)
    ensures t % MinuteUs == TimeOfDay(t) % MinuteUs
  {
    var q, r := t / DayUs, t % DayUs;
    assert t == (q * 1440) * MinuteUs + r;
  }

  /** The same for seconds within a minute. */
  lemma SecondOfMinute(rest: int)
    ensures rest % SecondUs == rest % MinuteUs % SecondUs
  {
    var q, r := rest / MinuteUs, rest % MinuteUs;
    assert rest == (q * 60) * SecondUs + r;
  }

  /** The second and microsecond fields make up the part of the moment
      past its whole minute. */
  lemma MinuteFraction(t: Timestamp)
    ensures FromTimestamp(t).second * SecondUs + FromTimestamp(t).microsecond == t % MinuteUs
  {
    var rest := TimeOfDay(t);
    MinuteOfDay(t);
    SecondOfMinute(rest);
    var r2 := rest % MinuteUs;
    assert r2 == r2 / SecondUs * SecondUs + r2 % SecondUs;
  }

  lemma WholeMinute(t: Timestamp)
    ensures ClearSeconds(t) % MinuteUs == 0 && ClearSeconds(t) <= t < ClearSeconds(t) + MinuteUs
  {
    var q := t / MinuteUs;
    assert ClearSeconds(t) == q * MinuteUs;
  }

  /** Clearing the seconds is `set(second=0, microsecond=0)`: the whole
      minute the moment falls in. */
  lemma ClearSecondsIsSet(t: Timestamp)
    ensures Helper.ReplaceAt(t, Helper.NoReplacement.(second := Some(0), microsecond := Some(0)))
            == if Representable(t) then Ok(ClearSeconds(t)) else Err(ValueError)
    ensures ClearSeconds(t) % MinuteUs == 0 && ClearSeconds(t) <= t < ClearSeconds(t) + MinuteUs
  {
    ClearedReplace(t);
    ClearedTimestamp(t);
    WholeMinute(t);
  }

  lemma ClearedReplace(t: Timestamp)
    ensures Helper.ReplaceAt(t, Helper.NoReplacement.(second := Some(0), microsecond := Some(0)))
            == if Representable(t) then Ok(ToTimestamp(FromTimestamp(t).(second := 0, microsecond := 0)))
               else Err(ValueError)
  {
    RepresentableYears(t);
    var dt := FromTimestamp(t);
    ClearedFields(dt);
    assert Helper.Replace(dt, Helper.NoReplacement.(second := Some(0), microsecond := Some(0)))
        == dt.(second := 0, microsecond := 0);
  }

  lemma ClearedTimestamp(t: Timestamp)
    ensures ToTimestamp(FromTimestamp(t).(second := 0, microsecond := 0)) == ClearSeconds(t)
  {
    ToFromTimestamp(t);
    MinuteFraction(t);
    ClearedFields(FromTimestamp(t));
  }

  lemma ClearedFields(dt: DateTime)
    requires ValidDateTime(dt)
    ensures ValidDateTime(dt.(second := 0, microsecond := 0))
    ensures ToTimestamp(dt.(second := 0, microsecond := 0)) == ToTimestamp(dt) - (dt.second * SecondUs + dt.microsecond)
  {
  }

  /** A single delta moves the clock by it, or overflows. */
  lemma SingleDelta(c: string, now: Timestamp)
    requires GetComponentType(c) == DeltaType
    ensures ParseDeltaSpec(c, now).Ok? ==> SingleTimeParse([c], now) == Ok(ClearSeconds(ParseDeltaSpec(c, now).value))
    ensures ParseDeltaSpec(c, now).Err? ==> SingleTimeParse([c], now) == Err(OverflowError)
  {
    assert Types([c]) == [DeltaType];
  }

  /** A single delta with the collected shift `sh`. */
  lemma SingleDeltaShift(c: string, sh: Shift, now: Timestamp)
    requires GetComponentType(c) == DeltaType && Collect(FindAll(c)) == sh
    ensures SingleTimeParse([c], now)
         == if Representable(now + ShiftUs(sh)) then Ok(ClearSeconds(now + ShiftUs(sh))) else Err(OverflowError)
  {
    SingleDelta(c, now);
    DeltaOfShift(c, sh, now);
  }

  /** Only the accepted shapes parse, and every result is a whole minute. */
  lemma SingleTimeShapes(components: seq<string>, now: Timestamp)
    ensures !Accepted(Types(components)) ==> SingleTimeParse(components, now) == Err(ValueError)
    ensures SingleTimeParse(components, now).Ok? ==> SingleTimeParse(components, now).value % MinuteUs == 0
    ensures components == [] ==>
              SingleTimeParse(components, now) == if Representable(now) then Ok(ClearSeconds(now)) else Err(ValueError)
  {
    match Moved(components, now)
    case Err(e) =>
    case Ok(t) => ClearSecondsIsSet(t);
  }

  /** What `parse_args` returns: the start alone with `single_time`, or the
      start and the end. */
  datatype Args = One(t: Timestamp) | Two(start: Timestamp, end: Option<Timestamp>)

  /** pendulum's `start_of("day")`. */
  function StartOfDay(t: Timestamp): Timestamp { Midnight(DayOf(t)) }

  /** pendulum's `end_of("day")`: the last microsecond of the day. */
  function EndOfDay(t: Timestamp): Timestamp { Midnight(DayOf(t)) + DayUs - 1 }

  /** `parse_args(args, prefer_full_days, single_time)` with the clock
      `now`: the part before "-" is the start; the part after it, if any, is
      the end, read with the start as its clock. */
  function ParseArgs(args: seq<string>, preferFullDays: bool, singleTime: bool, now: Timestamp): Result<Args> {
    var (before, after) := SplitArray(args, "-");
    match SingleTimeParse(before, now)
    case Err(e) => Err(e)
    case Ok(start) =>
      if after == [] then Ok(Arrange(start, None, preferFullDays, singleTime))
      else match SingleTimeParse(after, start)
        case Err(e) => Err(e)
        case Ok(end) => Ok(Arrange(start, Some(end), preferFullDays, singleTime))
  }

  /** The tail of `parse_args`, once both parts are read. */
  function Arrange(start: Timestamp, end: Option<Timestamp>, preferFullDays: bool, singleTime: bool): (r: Args)
    ensures singleTime ==> r == One(start)
    ensures !singleTime && !preferFullDays ==> r == Two(start, end)
    ensures !singleTime && preferFullDays ==>
              && r.Two? && Midnight(DayOf(r.start)) == r.start == StartOfDay(start)
              && r.end == if end.None? then Some(r.start + DayUs - 1) else end
  {
    if singleTime then One(start)
    else if preferFullDays then
      var s := StartOfDay(start);
      DayOfMidnight(DayOf(start));
      Two(s, if end.None? then Some(EndOfDay(s)) else end)
    else Two(start, end)
  }

  /** The end is read relative to the start as parsed, before the start is
      moved to midnight; without a "-" there is no end. */
  lemma ParseArgsEnd(args: seq<string>, preferFullDays: bool, now: Timestamp)
    requires ParseArgs(args, preferFullDays, false, now).Ok?
    ensures var (before, after) := SplitArray(args, "-");
            && SingleTimeParse(before, now).Ok?
            && (after != [] ==>
                  && SingleTimeParse(after, SingleTimeParse(before, now).value).Ok?
                  && ParseArgs(args, preferFullDays, false, now).value.end
                     == Some(SingleTimeParse(after, SingleTimeParse(before, now).value).value))
    ensures "-" !in args && !preferFullDays ==> ParseArgs(args, preferFullDays, false, now).value.end.None?
  {
  }

  /** With `prefer_full_days` the start is a midnight and a missing end is
      the last moment of the start's day. */
  lemma ParseArgsFullDays(args: seq<string>, now: Timestamp)
    requires ParseArgs(args, true, false, now).Ok?
    ensures ParseArgs(args, true, false, now).value.Two?
    ensures var r := ParseArgs(args, true, false, now).value;
            && r.start % DayUs == 0 && r.end.Some?
            && ("-" !in args ==> r.end == Some(r.start + DayUs - 1))
  {
  }

  /** `single_time` gives the start alone, but only once the end has been
      read too: a bad end is an error even then. */
  lemma ParseArgsSingle(args: seq<string>, preferFullDays: bool, now: Timestamp)
    ensures ParseArgs(args, preferFullDays, true, now).Ok? <==> ParseArgs(args, preferFullDays, false, now).Ok?
    ensures ParseArgs(args, preferFullDays, true, now).Ok? ==>
              ParseArgs(args, preferFullDays, true, now).value == One(SingleTimeParse(SplitArray(args, "-").0, now).value)
  {
  }
}
