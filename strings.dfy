/** The few Python string and list operations the parsers and the report
    loader rely on: `str.split`, `str.strip`, `str.startswith`, `in`,
    `list.index` and `int()`. */
module Strings {
  import opened Wrappers

  // ---------------------------------------------------------------------
  // str.split(sep) with a one-character separator

  /** The position of the first `c` in `s`. */
  function FirstIndex<T(==)>(s: seq<T>, c: T): (i: nat)
    requires c in s
    ensures i < |s| && s[i] == c && c !in s[..i]
  {
    if s[0] == c then 0 else FirstIndex(s[1..], c) + 1
  }

  /** `s.split(sep)`: the pieces between the separators, empty ones
      included, so that there is always at least one piece. */
  function Split(s: string, sep: char): (parts: seq<string>)
    ensures |parts| >= 1
    ensures forall i :: 0 <= i < |parts| ==> sep !in parts[i]
    decreases |s|
  {
    if sep !in s then [s]
    else
      var i := FirstIndex(s, sep);
      [s[..i]] + Split(s[i + 1..], sep)
  }

  /** `sep.join(parts)`. */
  function Join(parts: seq<string>, sep: char): string
    requires |parts| >= 1
  {
    if |parts| == 1 then parts[0] else parts[0] + [sep] + Join(parts[1..], sep)
  }

  /** Joining the pieces of a split gives the string back. */
  lemma {:induction false} JoinSplit(s: string, sep: char)
    ensures Join(Split(s, sep), sep) == s
    decreases |s|
  {
    if sep in s {
      var i := FirstIndex(s, sep);
      var rest := Split(s[i + 1..], sep);
      assert Split(s, sep) == [s[..i]] + rest;
      assert ([s[..i]] + rest)[1..] == rest;
      JoinSplit(s[i + 1..], sep);
      assert Join(Split(s, sep), sep) == s[..i] + [sep] + s[i + 1..];
      assert s == s[..i] + [sep] + s[i + 1..];
    }
  }

  /** The first occurrence is the one with no earlier occurrence. */
  lemma {:induction false} FirstIndexAt<T>(s: seq<T>, c: T, k: nat)
    requires k < |s| && s[k] == c && c !in s[..k]
    ensures FirstIndex(s, c) == k
  {
    if k > 0 {
      assert s[0] == s[..k][0];
      assert s[1..][..k - 1] == s[..k][1..];
      FirstIndexAt(s[1..], c, k - 1);
    }
  }

  /** A separator-free first piece is split off as it is. */
  lemma SplitCons(a: string, rest: string, sep: char)
    requires sep !in a
    ensures Split(a + [sep] + rest, sep) == [a] + Split(rest, sep)
  {
    var s := a + [sep] + rest;
    assert s[..|a|] == a;
    FirstIndexAt(s, sep, |a|);
    assert s[|a| + 1..] == rest;
  }

  /** Joining one more piece adds a separator and that piece. */
  lemma {:induction false} JoinSnoc(parts: seq<string>, last: string, sep: char)
    requires |parts| >= 1
    ensures Join(parts + [last], sep) == Join(parts, sep) + [sep] + last
    decreases |parts|
  {
    if |parts| > 1 {
      assert (parts + [last])[1..] == parts[1..] + [last];
      JoinSnoc(parts[1..], last, sep);
    } else {
      assert (parts + [last])[1..] == [last];
    }
  }

  /** A separator-free last piece is split off as it is. */
  lemma SplitSnoc(s: string, last: string, sep: char)
    requires sep !in last
    ensures Split(s + [sep] + last, sep) == Split(s, sep) + [last]
  {
    var pieces := Split(s, sep);
    JoinSplit(s, sep);
    JoinSnoc(pieces, last, sep);
    assert forall k :: 0 <= k < |pieces + [last]| ==> sep !in (pieces + [last])[k] by {
      forall k | 0 <= k < |pieces + [last]| ensures sep !in (pieces + [last])[k] {
        if k < |pieces| { assert (pieces + [last])[k] == pieces[k]; }
      }
    }
    SplitJoin(pieces + [last], sep);
  }

  /** Splitting a join of separator-free pieces gives the pieces back. */
  lemma {:induction false} SplitJoin(parts: seq<string>, sep: char)
    requires |parts| >= 1
    requires forall i :: 0 <= i < |parts| ==> sep !in parts[i]
    ensures Split(Join(parts, sep), sep) == parts
    decreases |parts|
  {
    if |parts| > 1 {
      var tail := parts[1..];
      assert forall i :: 0 <= i < |tail| ==> sep !in tail[i] by {
        forall i | 0 <= i < |tail| ensures sep !in tail[i] {
          assert tail[i] == parts[i + 1];
        }
      }
      assert sep !in parts[0];
      SplitCons(parts[0], Join(tail, sep), sep);
      SplitJoin(tail, sep);
      assert parts == [parts[0]] + tail;
    }
  }

  // ---------------------------------------------------------------------
  // str.strip()

  /** The characters `str.strip()` removes and `int()` skips: those
      `str.isspace()` holds for. */
  predicate IsSpace(c: char) {
    var n := c as int;
    if n <= 0x20 then 0x09 <= n <= 0x0D || 0x1C <= n
    else if n < 0x85 then false
    else || n == 0x85 || n == 0xA0 || n == 0x1680 || 0x2000 <= n <= 0x200A
         || n == 0x2028 || n == 0x2029 || n == 0x202F || n == 0x205F || n == 0x3000
  }

  function StripLeft(s: string): (r: string)
    ensures |r| <= |s| && r == s[|s| - |r|..]
    ensures r == [] || !IsSpace(r[0])
    ensures forall k :: 0 <= k < |s| - |r| ==> IsSpace(s[k])
  {
    if s != [] && IsSpace(s[0]) then StripLeft(s[1..]) else s
  }

  function StripRight(s: string): (r: string)
    ensures |r| <= |s| && r == s[..|r|]
    ensures r == [] || !IsSpace(r[|r| - 1])
    ensures forall k :: |r| <= k < |s| ==> IsSpace(s[k])
  {
    if s != [] && IsSpace(s[|s| - 1]) then StripRight(s[..|s| - 1]) else s
  }

  /** `s.strip()`: `s` without its leading and trailing whitespace. */
  function Strip(s: string): (r: string)
    ensures r == [] || (!IsSpace(r[0]) && !IsSpace(r[|r| - 1]))
  {
    StripRight(StripLeft(s))
  }

  /** Stripping removes only whitespace from the two ends. */
  lemma StripSlice(s: string)
    ensures exists i, j :: 0 <= i <= j <= |s| && Strip(s) == s[i..j]
                        && (forall k :: 0 <= k < i ==> IsSpace(s[k]))
                        && (forall k :: j <= k < |s| ==> IsSpace(s[k]))
  {
    var l := StripLeft(s);
    var i := |s| - |l|;
    var r := StripRight(l);
    var j := i + |r|;
    assert l == s[i..] && r == l[..|r|];
    assert Strip(s) == r;
    assert r == s[i..j];
    assert forall k :: 0 <= k < i ==> IsSpace(s[k]);
    forall k | j <= k < |s| ensures IsSpace(s[k]) {
      assert s[k] == l[k - i];
    }
    assert 0 <= i <= j <= |s| && Strip(s) == s[i..j];
  }

  /** A string without surrounding whitespace is its own strip. */
  lemma StripTrimmed(s: string)
    requires s == [] || (!IsSpace(s[0]) && !IsSpace(s[|s| - 1]))
    ensures Strip(s) == s
  {
  }

  /** A piece of text without surrounding whitespace. */
  predicate Trimmed(s: string) {
    s == [] || (!IsSpace(s[0]) && !IsSpace(s[|s| - 1]))
  }

  /** `[f(c) for c in parts]`. */
  function Mapped(f: string -> string, parts: seq<string>): (r: seq<string>)
    ensures |r| == |parts|
  {
    if parts == [] then [] else [f(parts[0])] + Mapped(f, parts[1..])
  }

  /** Mapping a function that fixes every piece changes nothing. */
  lemma {:induction false} MappedFixed(f: string -> string, parts: seq<string>)
    requires forall k :: 0 <= k < |parts| ==> f(parts[k]) == parts[k]
    ensures Mapped(f, parts) == parts
    decreases |parts|
  {
    if parts != [] {
      var rest := parts[1..];
      assert forall k :: 0 <= k < |rest| ==> f(rest[k]) == rest[k] by {
        forall k | 0 <= k < |rest| ensures f(rest[k]) == rest[k] {
          assert rest[k] == parts[k + 1];
        }
      }
      MappedFixed(f, rest);
      assert parts == [parts[0]] + rest;
    }
  }

  /** `[c.strip() for c in parts]`. */
  function StripAll(parts: seq<string>): (r: seq<string>)
    ensures |r| == |parts|
  {
    Mapped(c => Strip(c), parts)
  }

  /** Each piece of `Mapped(f, parts)` is `f` of the piece in its place. */
  lemma {:induction false} MappedAt(f: string -> string, parts: seq<string>, k: int)
    requires 0 <= k < |parts|
    ensures Mapped(f, parts)[k] == f(parts[k])
    decreases k
  {
    if k > 0 {
      MappedAt(f, parts[1..], k - 1);
    }
  }

  /** Each piece of `StripAll(parts)` is the piece in its place, stripped. */
  lemma StripAllAt(parts: seq<string>, k: int)
    requires 0 <= k < |parts|
    ensures StripAll(parts)[k] == Strip(parts[k])
  {
    MappedAt(c => Strip(c), parts, k);
  }

  /** Pieces without surrounding whitespace are their own strips. */
  lemma StripTrimmedAll(parts: seq<string>)
    requires forall k :: 0 <= k < |parts| ==> Trimmed(parts[k])
    ensures StripAll(parts) == parts
  {
    var f := c => Strip(c);
    forall k | 0 <= k < |parts| ensures f(parts[k]) == parts[k] {
      StripTrimmed(parts[k]);
    }
    MappedFixed(f, parts);
  }

  /** Stripping twice is stripping once. */
  lemma StripIdempotent(s: string)
    ensures Strip(Strip(s)) == Strip(s)
  {
    StripTrimmed(Strip(s));
  }

  // ---------------------------------------------------------------------
  // startswith, in, list.index

  predicate StartsWith(s: string, prefix: string) {
    |prefix| <= |s| && s[..|prefix|] == prefix
  }

  /** `xs.index(x)`: the first position of `x`, or `None` where Python
      raises `ValueError`. */
  function IndexOf<T(==)>(xs: seq<T>, x: T): (r: Option<nat>)
    ensures r.None? <==> x !in xs
    ensures r.Some? ==> r.value < |xs| && xs[r.value] == x && x !in xs[..r.value]
  {
    if x in xs then Some(FirstIndex(xs, x)) else None
  }

  // ---------------------------------------------------------------------
  // int()

  predicate IsDigit(c: char) { '0' <= c <= '9' }

  predicate AllDigits(s: string) {
    forall k :: 0 <= k < |s| ==> IsDigit(s[k])
  }

  /** The value of a string of decimal digits. */
  function DigitsValue(s: string): (n: nat)
    requires AllDigits(s)
  {
    if s == [] then 0 else DigitsValue(s[..|s| - 1]) * 10 + (s[|s| - 1] as int - '0' as int)
  }

  /** ASCII digits with single underscores between them, the form `int()`
      reads in base 10. */
  predicate Numeral(s: string) {
    && s != [] && IsDigit(s[0]) && IsDigit(s[|s| - 1])
    && (forall k :: 0 <= k < |s| ==> IsDigit(s[k]) || s[k] == '_')
    && (forall k :: 0 <= k < |s| - 1 && s[k] == '_' ==> IsDigit(s[k + 1]))
  }

  /** `s` with its underscores taken out. */
  function Digits(s: string): (r: string)
    ensures (forall k :: 0 <= k < |s| ==> IsDigit(s[k]) || s[k] == '_') ==> AllDigits(r)
    ensures AllDigits(s) ==> r == s
  {
    if s == [] then []
    else if s[|s| - 1] == '_' then Digits(s[..|s| - 1])
    else Digits(s[..|s| - 1]) + [s[|s| - 1]]
  }

  /** `int(s)`: surrounding whitespace, an optional sign and a numeral;
      `None` where Python raises `ValueError` (digits other than ASCII ones
      are not modelled). */
  function ParseInt(s: string): (r: Option<int>)
    ensures r.Some? ==> Strip(s) != []
  {
    var t := Strip(s);
    if t == [] then None
    else if t[0] == '-' || t[0] == '+' then
      var digits := t[1..];
      if Numeral(digits) then
        var v: int := DigitsValue(Digits(digits));
        Some(if t[0] == '-' then -v else v)
      else None
    else if Numeral(t) then Some(DigitsValue(Digits(t)))
    else None
  }

  /** The decimal digits of `n`. */
  function NatToString(n: nat): (s: string)
    ensures s != [] && AllDigits(s)
  {
    var d := ['0' + ((n % 10) as char)];
    if n < 10 then d else NatToString(n / 10) + d
  }

  /** `str(n)`. */
  function IntToString(n: int): (s: string) {
    if n < 0 then "-" + NatToString(-n) else NatToString(n)
  }

  lemma {:induction false} NatToStringValue(n: nat)
    ensures DigitsValue(NatToString(n)) == n
  {
    var s := NatToString(n);
    if n >= 10 {
      NatToStringValue(n / 10);
      assert s[..|s| - 1] == NatToString(n / 10);
    }
  }

  /** `int(str(n)) == n`. */
  lemma ParseIntToString(n: int)
    ensures ParseInt(IntToString(n)) == Some(n)
  {
    if n < 0 {
      NegativeText(n);
      ParseIntSigned(IntToString(n));
    } else {
      NatToStringValue(n);
      ParseIntUnsigned(NatToString(n));
    }
  }

  /** `str(n)` of a negative `n` is "-" and the digits of `-n`. */
  lemma NegativeText(n: int)
    requires n < 0
    ensures var t := IntToString(n);
            |t| >= 2 && t[0] == '-' && AllDigits(t[1..]) && DigitsValue(t[1..]) == -n
  {
    var t := IntToString(n);
    NatToStringValue(-n);
    assert t[1..] == NatToString(-n);
  }

  /** A run of ASCII digits reads as its value. */
  lemma ParseIntUnsigned(d: string)
    requires d != [] && AllDigits(d)
    ensures ParseInt(d) == Some(DigitsValue(d))
  {
    assert Trimmed(d) by {
      assert IsDigit(d[0]) && IsDigit(d[|d| - 1]);
    }
    StripTrimmed(d);
    PlainNumeral(d);
    assert d[0] != '-' && d[0] != '+' by {
      assert IsDigit(d[0]);
    }
  }

  /** A run of ASCII digits is a numeral and has no underscore to drop. */
  lemma PlainNumeral(d: string)
    requires d != [] && AllDigits(d)
    ensures Numeral(d) && Digits(d) == d
  {
    assert IsDigit(d[0]) && IsDigit(d[|d| - 1]);
  }

  /** "-" and a run of ASCII digits reads as the negated value. */
  lemma ParseIntSigned(t: string)
    requires |t| >= 2 && t[0] == '-' && AllDigits(t[1..])
    ensures ParseInt(t) == Some(-(DigitsValue(t[1..]) as int))
  {
    SignedTrimmed(t);
    StripTrimmed(t);
    SignedNumeral(t, Strip(t));
  }

  lemma SignedNumeral(t: string, u: string)
    requires |t| >= 2 && t[0] == '-' && AllDigits(t[1..]) && u == t
    ensures Numeral(u[1..]) && Digits(u[1..]) == t[1..] && u != [] && u[0] == '-'
  {
    PlainNumeral(t[1..]);
  }

  lemma SignedTrimmed(t: string)
    requires |t| >= 2 && t[0] == '-' && AllDigits(t[1..])
    ensures Trimmed(t)
  {
    var d := t[1..];
    assert t[|t| - 1] == d[|d| - 1];
    assert IsDigit(d[|d| - 1]);
  }

  /** `int()` ignores an underscore between two runs of digits. */
  lemma ParseIntGrouped(a: string, b: string)
    requires a != [] && b != [] && AllDigits(a) && AllDigits(b)
    ensures ParseInt(a + "_" + b) == ParseInt(a + b) == Some(DigitsValue(a + b))
  {
    var s, t := a + "_" + b, a + b;
    NumeralGrouped(a, b);
    StripTrimmed(s);
    StripTrimmed(t);
  }

  lemma NumeralGrouped(a: string, b: string)
    requires a != [] && b != [] && AllDigits(a) && AllDigits(b)
    ensures Numeral(a + "_" + b) && Digits(a + "_" + b) == a + b
    ensures AllDigits(a + b) && (a + b)[0] == a[0] && (a + b)[|a + b| - 1] == b[|b| - 1]
  {
    var s, t := a + "_" + b, a + b;
    forall k | 0 <= k < |t| ensures IsDigit(t[k]) {
      if k >= |a| {
        assert t[k] == b[k - |a|];
      }
    }
    assert s[0] == a[0] && s[|s| - 1] == b[|b| - 1];
    forall k | 0 <= k < |s| ensures IsDigit(s[k]) || s[k] == '_' {
      if k > |a| {
        assert s[k] == b[k - |a| - 1];
      }
    }
    forall k | 0 <= k < |s| - 1 && s[k] == '_' ensures IsDigit(s[k + 1]) {
      assert k == |a|;
      assert s[k + 1] == b[0];
    }
    DigitsAppend(a + "_", b);
    assert (a + "_")[..|a|] == a;
    assert Digits(a + "_") == a;
    assert s == (a + "_") + b;
  }

  /** Taking the underscores out of two pieces one after the other. */
  lemma {:induction false} DigitsAppend(a: string, b: string)
    ensures Digits(a + b) == Digits(a) + Digits(b)
    decreases |b|
  {
    if b == [] {
      assert a + b == a;
    } else {
      var b' := b[..|b| - 1];
      assert (a + b)[..|a + b| - 1] == a + b';
      DigitsAppend(a, b');
    }
  }

  /** Two underscores in a row are refused. */
  lemma ParseIntDoubleUnderscore()
    ensures ParseInt("1__0") == None
  {
    var t := "1__0";
    assert Trimmed(t) && IsDigit(t[0]);
    assert !Numeral(t) by {
      assert 0 <= 1 < |t| - 1 && t[1] == '_' && !IsDigit(t[2]);
    }
    UnsignedNotNumeral(t);
  }

  /** Trimmed text that starts with a digit but is not a numeral is refused. */
  lemma UnsignedNotNumeral(t: string)
    requires Trimmed(t) && t != [] && IsDigit(t[0]) && !Numeral(t)
    ensures ParseInt(t) == None
  {
    StripTrimmed(t);
  }
}
