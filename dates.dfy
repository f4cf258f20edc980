/** Calendar dates as day numbers, and the parsing of a `YYYY-MM-DD` string that
    `FixedRateBond` performs with Python's string slicing, `int()` and `datetime.date`. */
module Dates {
  import opened Outcomes

  /** A date as its proleptic Gregorian day number, 0001-01-01 being day 1 (the value of
      Python's `date.toordinal()`), so that differences and comparisons of dates are exact. */
  type Date = int

  // ---------------------------------------------------------------------------
  // The Gregorian calendar, as Python's datetime module defines it
  // ---------------------------------------------------------------------------

  predicate IsLeapYear(y: int) {
    y % 4 == 0 && (y % 100 != 0 || y % 400 == 0)
  }

  function DaysInMonth(y: int, m: int): (n: int)
    requires 1 <= m <= 12
    ensures 28 <= n <= 31
  {
    if m == 2 then (if IsLeapYear(y) then 29 else 28)
    else if m == 4 || m == 6 || m == 9 || m == 11 then 30
    else 31
  }

  /** The fields `datetime.date(y, m, d)` accepts. */
  predicate IsValidDate(y: int, m: int, d: int) {
    1 <= y <= 9999 && 1 <= m <= 12 && 1 <= d <= DaysInMonth(y, m)
  }

  function DaysBeforeYear(y: int): int
    requires 1 <= y
  {
    var p := y - 1;
    p * 365 + p / 4 - p / 100 + p / 400
  }

  function DaysBeforeMonth(y: int, m: int): int
    requires 1 <= m <= 12
  {
    [0, 31, 59, 90, 120, 151, 181, 212, 243, 273, 304, 334][m - 1]
      + (if m > 2 && IsLeapYear(y) then 1 else 0)
  }

  /** Python's `date(y, m, d).toordinal()`. */
  function Ordinal(y: int, m: int, d: int): (n: Date)
    requires IsValidDate(y, m, d)
    ensures 1 <= n
  {
    DaysBeforeYear(y) + DaysBeforeMonth(y, m) + d
  }

  /** Later days of the calendar have larger day numbers, so comparing day numbers
      compares the dates they stand for. */
  lemma OrdinalIncreasing(y1: int, m1: int, d1: int, y2: int, m2: int, d2: int)
    requires IsValidDate(y1, m1, d1) && IsValidDate(y2, m2, d2)
    requires y1 < y2 || (y1 == y2 && (m1 < m2 || (m1 == m2 && d1 < d2)))
    ensures Ordinal(y1, m1, d1) < Ordinal(y2, m2, d2)
  {
    if y1 < y2 {
      assert DaysBeforeMonth(y1, m1) + d1 <= DaysInYear(y1) by {
        assert DaysBeforeMonth(y1, m1) + DaysInMonth(y1, m1) <= DaysInYear(y1);
      }
      DaysBeforeYearStep(y1);
      DaysBeforeYearMonotone(y1 + 1, y2);
    } else if m1 < m2 {
      assert DaysBeforeMonth(y1, m1) + DaysInMonth(y1, m1) <= DaysBeforeMonth(y1, m2);
    }
  }

  function DaysInYear(y: int): int {
    if IsLeapYear(y) then 366 else 365
  }

  lemma DaysBeforeYearStep(y: int)
    requires 1 <= y
    ensures DaysBeforeYear(y + 1) == DaysBeforeYear(y) + DaysInYear(y)
  {
    var p := y - 1;
    DivStep4(p);
    DivStep100(p);
    DivStep400(p);
    assert DaysBeforeYear(y + 1) - DaysBeforeYear(y) ==
      365 + (if y % 4 == 0 then 1 else 0) - (if y % 100 == 0 then 1 else 0) + (if y % 400 == 0 then 1 else 0);
    if y % 400 == 0 {
      CenturyOfFourCenturies(y);
    } else if y % 100 == 0 {
      LeapOfCentury(y);
    }
  }

  lemma CenturyOfFourCenturies(y: int)
    requires y % 400 == 0
    ensures y % 100 == 0 && y % 4 == 0
  {
    var k := y / 400;
    assert y == 100 * (4 * k);
    assert y == 4 * (100 * k);
  }

  lemma LeapOfCentury(y: int)
    requires y % 100 == 0
    ensures y % 4 == 0
  {
    var k := y / 100;
    assert y == 4 * (25 * k);
  }

  /** Counting one more number adds one multiple of 4 exactly when that number is one;
      likewise for 100 and 400. */
  lemma DivStep4(p: nat)
    ensures (p + 1) / 4 == p / 4 + (if (p + 1) % 4 == 0 then 1 else 0)
  {
  }

  lemma DivStep100(p: nat)
    ensures (p + 1) / 100 == p / 100 + (if (p + 1) % 100 == 0 then 1 else 0)
  {
  }

  lemma DivStep400(p: nat)
    ensures (p + 1) / 400 == p / 400 + (if (p + 1) % 400 == 0 then 1 else 0)
  {
  }

  lemma {:induction false} DaysBeforeYearMonotone(y1: int, y2: int)
    requires 1 <= y1 <= y2
    ensures DaysBeforeYear(y1) <= DaysBeforeYear(y2)
    decreases y2 - y1
  {
    if y1 < y2 {
      DaysBeforeYearStep(y1);
      DaysBeforeYearMonotone(y1 + 1, y2);
    }
  }

  // ---------------------------------------------------------------------------
  // Python's str slicing and int()
  // ---------------------------------------------------------------------------

  /** Python's `s[lo:hi]` for `0 <= lo <= hi`: bounds past the end are clipped, never an error. */
  function Slice(s: string, lo: nat, hi: nat): (t: string)
    requires lo <= hi
    ensures |t| == (if hi <= |s| then hi - lo else if lo <= |s| then |s| - lo else 0)
    ensures forall i :: 0 <= i < |t| ==> t[i] == s[lo + i]
  {
    var a := if lo <= |s| then lo else |s|;
    var b := if hi <= |s| then hi else |s|;
    s[a..b]
  }

  /** The ASCII characters `int()` skips around a number: tab, line feed, vertical tab, form
      feed, carriage return and space. The separators 0x1C-0x1F, which `str.strip()` would
      also remove, are not among them. */
  predicate IsIntSpace(c: char) {
    9 <= c as int <= 13 || c == ' '
  }

  predicate IsDigit(c: char) {
    '0' <= c <= '9'
  }

  /** `s` without the white space `int()` skips at either end. */
  function TrimSpace(s: string): (t: string)
    ensures |t| <= |s|
    ensures |t| > 0 ==> !IsIntSpace(t[0]) && !IsIntSpace(t[|t| - 1])
    ensures (|s| == 0 || (!IsIntSpace(s[0]) && !IsIntSpace(s[|s| - 1]))) ==> t == s
  {
    if |s| > 0 && IsIntSpace(s[0]) then TrimSpace(s[1..])
    else if |s| > 0 && IsIntSpace(s[|s| - 1]) then TrimSpace(s[..|s| - 1])
    else s
  }

  /** `s[a..b]` is what is left of `s` once white space, and nothing else, is taken off
      both ends. */
  predicate SpaceOutside(s: string, a: nat, b: nat) {
    a <= b <= |s| &&
    (forall i :: 0 <= i < a ==> IsIntSpace(s[i])) &&
    (forall i :: b <= i < |s| ==> IsIntSpace(s[i]))
  }

  /** What `TrimSpace` removes is `int()`'s white space and nothing else: its result is a slice
      `s[a..b]` with nothing but white space outside it (and, by `TrimSpace`'s own contract, no
      white space at either end of the slice). */
  lemma {:induction false} TrimSpaceInfix(s: string) returns (a: nat, b: nat)
    ensures SpaceOutside(s, a, b) && TrimSpace(s) == s[a..b]
    decreases |s|
  {
    if |s| > 0 && IsIntSpace(s[0]) {
      var a', b' := TrimSpaceInfix(s[1..]);
      a, b := a' + 1, b' + 1;
      SpaceOutsideDropFirst(s, a', b');
    } else if |s| > 0 && IsIntSpace(s[|s| - 1]) {
      a, b := TrimSpaceInfix(s[..|s| - 1]);
      SpaceOutsideDropLast(s, a, b);
    } else {
      a, b := 0, |s|;
    }
  }

  lemma SpaceOutsideDropFirst(s: string, a: nat, b: nat)
    requires |s| > 0 && IsIntSpace(s[0]) && SpaceOutside(s[1..], a, b)
    ensures SpaceOutside(s, a + 1, b + 1) && s[1..][a..b] == s[a + 1..b + 1]
  {
    forall i | 0 < i < a + 1
      ensures IsIntSpace(s[i])
    {
      assert s[i] == s[1..][i - 1];
    }
    forall i | b + 1 <= i < |s|
      ensures IsIntSpace(s[i])
    {
      assert s[i] == s[1..][i - 1];
    }
  }

  lemma SpaceOutsideDropLast(s: string, a: nat, b: nat)
    requires |s| > 0 && IsIntSpace(s[|s| - 1]) && SpaceOutside(s[..|s| - 1], a, b)
    ensures SpaceOutside(s, a, b) && s[..|s| - 1][a..b] == s[a..b]
  {
    forall i | 0 <= i < a
      ensures IsIntSpace(s[i])
    {
      assert s[i] == s[..|s| - 1][i];
    }
    forall i | b <= i < |s| - 1
      ensures IsIntSpace(s[i])
    {
      assert s[i] == s[..|s| - 1][i];
    }
  }

  /** `s` is a decimal literal as `int(s, 10)` reads it: digits, with single underscores
      allowed between two digits. */
  predicate IsDigitRun(s: string) {
    |s| > 0 && IsDigit(s[0]) &&
    (|s| == 1 || IsDigitRun(s[1..]) || (s[1] == '_' && IsDigitRun(s[2..])))
  }

  function WithoutUnderscores(s: string): string {
    if |s| == 0 then ""
    else (if s[0] == '_' then "" else [s[0]]) + WithoutUnderscores(s[1..])
  }

  /** The number a string of decimal digits spells. */
  function DecimalValue(ds: string): nat {
    if |ds| == 0 then 0
    else
      var c := ds[|ds| - 1];
      DecimalValue(ds[..|ds| - 1]) * 10 + (if IsDigit(c) then c as int - '0' as int else 0)
  }

  const IntLiteralMessage := "invalid literal for int() with base 10"

  /** Python's `int(s)` on a string of ASCII characters. */
  function PyInt(s: string): (r: Result<int>)
    ensures r.Err? ==> r.error.ValueError?
  {
    var t := TrimSpace(s);
    if |t| > 0 && (t[0] == '+' || t[0] == '-') && IsDigitRun(t[1..]) then
      var n: int := DecimalValue(WithoutUnderscores(t[1..]));
      Ok(if t[0] == '-' then -n else n)
    else if IsDigitRun(t) then
      Ok(DecimalValue(WithoutUnderscores(t)))
    else
      Err(ValueError(IntLiteralMessage))
  }

  // ---------------------------------------------------------------------------
  // datetime.date and the YYYY-MM-DD slicing of fixed_bond.py
  // ---------------------------------------------------------------------------

  /** Python's `datetime.date(y, m, d)`, which checks the year, then the month, then the day. */
  function MakeDate(y: int, m: int, d: int): (r: Result<Date>)
    ensures r.Ok? <==> IsValidDate(y, m, d)
    ensures r.Err? ==> r.error.ValueError?
  {
    if !(1 <= y <= 9999) then Err(ValueError("year is out of range"))
    else if !(1 <= m <= 12) then Err(ValueError("month must be in 1..12"))
    else if !(1 <= d <= DaysInMonth(y, m)) then Err(ValueError("day is out of range for month"))
    else Ok(Ordinal(y, m, d))
  }

  /** `date(int(s[0:4]), int(s[5:7]), int(s[8:10]))`: the year from characters 0 to 3, the
      month from 5 and 6, the day from 8 and 9; the characters at 4, 7 and from 10 on are
      never looked at. */
  function ParseIsoDate(s: string): (r: Result<Date>)
    ensures r.Err? ==> r.error.ValueError?
  {
    var y :- PyInt(Slice(s, 0, 4));
    var m :- PyInt(Slice(s, 5, 7));
    var d :- PyInt(Slice(s, 8, 10));
    MakeDate(y, m, d)
  }

  // ---------------------------------------------------------------------------
  // The inverse: writing a date as YYYY-MM-DD
  // ---------------------------------------------------------------------------

  function Pow10(w: nat): (p: nat)
    ensures p >= 1
  {
    if w == 0 then 1 else 10 * Pow10(w - 1)
  }

  function DigitChar(k: nat): (c: char)
    requires k < 10
    ensures IsDigit(c) && c as int - '0' as int == k
  {
    ('0' as int + k) as char
  }

  /** The last `w` decimal digits of `n`, zero-padded. */
  function Padded(n: nat, w: nat): (s: string)
    ensures |s| == w
    ensures forall i :: 0 <= i < w ==> IsDigit(s[i])
  {
    if w == 0 then "" else Padded(n / 10, w - 1) + [DigitChar(n % 10)]
  }

  /** The ISO form `YYYY-MM-DD` of a calendar date. */
  function IsoString(y: nat, m: nat, d: nat): (s: string)
    ensures |s| == 10
  {
    Padded(y, 4) + "-" + Padded(m, 2) + "-" + Padded(d, 2)
  }

  lemma {:induction false} PaddedValue(n: nat, w: nat)
    requires n < Pow10(w)
    ensures DecimalValue(Padded(n, w)) == n
  {
    if w > 0 {
      var s := Padded(n, w);
      assert s[..w - 1] == Padded(n / 10, w - 1);
      PaddedValue(n / 10, w - 1);
    }
  }

  lemma {:induction false} AllDigitsIsRun(s: string)
    requires |s| > 0
    requires forall i :: 0 <= i < |s| ==> IsDigit(s[i])
    ensures IsDigitRun(s) && WithoutUnderscores(s) == s
  {
    if |s| > 1 {
      AllDigitsIsRun(s[1..]);
    } else {
      assert WithoutUnderscores(s[1..]) == "";
    }
  }

  /** `int()` skips spaces and tabs around a number, but not the separator 0x1C that
      `str.strip()` removes: `int("\x1c5")` raises ValueError. */
  lemma PyIntSpaceSet()
    ensures PyInt(" 5\t") == Ok(5)
    ensures PyInt("\U{1C}5").Err? && PyInt("5\U{1F}").Err?
  {
    assert TrimSpace(" 5\t") == "5" by {
      assert " 5\t"[1..] == "5\t";
      assert "5\t"[..1] == "5";
    }
    assert IsDigitRun("5");
  }

  /** `int()` reads a zero-padded number back as the number. */
  lemma PyIntOfPadded(n: nat, w: nat)
    requires 0 < w && n < Pow10(w)
    ensures PyInt(Padded(n, w)) == Ok(n)
  {
    var s := Padded(n, w);
    assert TrimSpace(s) == s;
    AllDigitsIsRun(s);
    PaddedValue(n, w);
  }

  /** Parsing the ISO string of a valid date gives back that date. */
  lemma ParseIsoString(y: nat, m: nat, d: nat)
    requires IsValidDate(y, m, d)
    ensures ParseIsoDate(IsoString(y, m, d)) == Ok(Ordinal(y, m, d))
  {
    var s := IsoString(y, m, d);
    assert Slice(s, 0, 4) == Padded(y, 4);
    assert Slice(s, 5, 7) == Padded(m, 2);
    assert Slice(s, 8, 10) == Padded(d, 2);
    PyIntOfPadded(y, 4);
    PyIntOfPadded(m, 2);
    PyIntOfPadded(d, 2);
  }

  /** Only characters 0-3, 5-6 and 8-9 of a string of ten or more characters decide the
      parsed date: the separators and anything after the day are ignored. */
  lemma ParseIgnoresSeparators(s: string, t: string)
    requires 10 <= |s| && 10 <= |t|
    requires forall i :: 0 <= i < 10 && i != 4 && i != 7 ==> s[i] == t[i]
    ensures ParseIsoDate(s) == ParseIsoDate(t)
  {
    assert Slice(s, 0, 4) == Slice(t, 0, 4);
    assert Slice(s, 5, 7) == Slice(t, 5, 7);
    assert Slice(s, 8, 10) == Slice(t, 8, 10);
  }
}
