/** Calendar dates as the data sources hold them, and their ISO 8601
    `YYYY-MM-DD` text form (what `strftime("%Y-%m-%d")` writes and what
    `pd.to_datetime` reads back for the spreadsheet's birth dates). */
module Dates {
  import opened Wrappers

  datatype Date = Date(year: int, month: int, day: int)

  predicate IsLeapYear(y: int)
  {
    y % 4 == 0 && (y % 100 != 0 || y % 400 == 0)
  }

  function DaysInMonth(y: int, m: int): int
  {
    if m == 2 then (if IsLeapYear(y) then 29 else 28)
    else if m == 4 || m == 6 || m == 9 || m == 11 then 30
    else 31
  }

  /** A date of the proleptic Gregorian calendar with a four-digit year. */
  predicate Valid(d: Date)
  {
    && 1 <= d.year <= 9999
    && 1 <= d.month <= 12
    && 1 <= d.day <= DaysInMonth(d.year, d.month)
  }

  /** The dates the data sources can hold. */
  type CalendarDate = d: Date | Valid(d) witness Date(2000, 1, 1)

  /** Chronological order: `a` is on or before `b`. */
  predicate OnOrBefore(a: Date, b: Date)
  {
    || a.year < b.year
    || (a.year == b.year && a.month < b.month)
    || (a.year == b.year && a.month == b.month && a.day <= b.day)
  }

  // ---------------------------------------------------------------- digits

  predicate IsDigit(c: char)
  {
    '0' <= c <= '9'
  }

  function Digit(n: int): (c: char)
    requires 0 <= n < 10
    ensures IsDigit(c)
  {
    ('0' as int + n) as char
  }

  function DigitValue(c: char): (n: int)
    requires IsDigit(c)
    ensures 0 <= n < 10 && Digit(n) == c
  {
    c as int - '0' as int
  }

  /** Two decimal digits, zero-padded. */
  function Pad2(n: int): (s: string)
    requires 0 <= n < 100
    ensures |s| == 2 && IsDigit(s[0]) && IsDigit(s[1])
  {
    [Digit(n / 10), Digit(n % 10)]
  }

  /** Four decimal digits, zero-padded. */
  function Pad4(n: int): (s: string)
    requires 0 <= n < 10000
    ensures |s| == 4 && forall k :: 0 <= k < 4 ==> IsDigit(s[k])
  {
    Pad2(n / 100) + Pad2(n % 100)
  }

  function Value2(s: string): (n: int)
    requires |s| == 2 && IsDigit(s[0]) && IsDigit(s[1])
    ensures 0 <= n < 100 && Pad2(n) == s
  {
    10 * DigitValue(s[0]) + DigitValue(s[1])
  }

  function Value4(s: string): (n: int)
    requires |s| == 4 && forall k :: 0 <= k < 4 ==> IsDigit(s[k])
    ensures 0 <= n < 10000 && Pad4(n) == s
  {
    var hi := Value2(s[..2]);
    var lo := Value2(s[2..]);
    assert (100 * hi + lo) / 100 == hi && (100 * hi + lo) % 100 == lo;
    assert s == s[..2] + s[2..];
    100 * hi + lo
  }

  lemma Value2Pad2(n: int)
    requires 0 <= n < 100
    ensures Value2(Pad2(n)) == n
  {
  }

  lemma Value4Pad4(n: int)
    requires 0 <= n < 10000
    ensures Value4(Pad4(n)) == n
  {
    var s := Pad4(n);
    assert s[..2] == Pad2(n / 100) && s[2..] == Pad2(n % 100);
    Value2Pad2(n / 100);
    Value2Pad2(n % 100);
  }

  // ---------------------------------------------------------------- ISO form

  /** `strftime("%Y-%m-%d")`. */
  function FormatIso(d: CalendarDate): (s: string)
    ensures |s| == 10 && s[4] == '-' && s[7] == '-'
    ensures forall k :: 0 <= k < 10 && k != 4 && k != 7 ==> IsDigit(s[k])
  {
    Pad4(d.year) + "-" + Pad2(d.month) + "-" + Pad2(d.day)
  }

  /** Reads a `YYYY-MM-DD` string; `None` for anything that is not a valid
      date in exactly that form. */
  function ParseIso(s: string): (r: Option<CalendarDate>)
    ensures r.Some? ==> FormatIso(r.value) == s
  {
    if |s| == 10 && s[4] == '-' && s[7] == '-'
       && (forall k :: 0 <= k < 10 && k != 4 && k != 7 ==> IsDigit(s[k]))
    then
      var d := Date(Value4(s[..4]), Value2(s[5..7]), Value2(s[8..]));
      if Valid(d) then
        assert s == s[..4] + "-" + s[5..7] + "-" + s[8..];
        Some(d)
      else None
    else None
  }

  /** Reading back a formatted date gives the date. */
  lemma ParseFormat(d: CalendarDate)
    ensures ParseIso(FormatIso(d)) == Some(d)
  {
    var s := FormatIso(d);
    assert s[..4] == Pad4(d.year);
    assert s[5..7] == Pad2(d.month);
    assert s[8..] == Pad2(d.day);
    Value4Pad4(d.year);
    Value2Pad2(d.month);
    Value2Pad2(d.day);
  }

  // ---------------------------------------------------------------- order

  /** Python's (and SQL's binary) string order: `a` sorts strictly before `b`. */
  predicate LexLess(a: string, b: string)
  {
    || (a == [] && b != [])
    || (a != [] && b != [] && (a[0] < b[0] || (a[0] == b[0] && LexLess(a[1..], b[1..]))))
  }

  lemma {:induction false} LexLessConcat(a1: string, a2: string, b1: string, b2: string)
    requires |a1| == |b1|
    ensures LexLess(a1 + a2, b1 + b2) <==> LexLess(a1, b1) || (a1 == b1 && LexLess(a2, b2))
    decreases |a1|
  {
    if a1 == [] {
      assert a1 + a2 == a2 && b1 + b2 == b2;
    } else {
      assert (a1 + a2)[0] == a1[0] && (b1 + b2)[0] == b1[0];
      assert (a1 + a2)[1..] == a1[1..] + a2;
      assert (b1 + b2)[1..] == b1[1..] + b2;
      LexLessConcat(a1[1..], a2, b1[1..], b2);
      if a1[0] == b1[0] && a1[1..] == b1[1..] {
        assert a1 == b1;
      }
    }
  }

  lemma Pad2Order(x: int, y: int)
    requires 0 <= x < 100 && 0 <= y < 100
    ensures LexLess(Pad2(x), Pad2(y)) <==> x < y
  {
    var a, b := Pad2(x), Pad2(y);
    assert a[1..] == [Digit(x % 10)] && b[1..] == [Digit(y % 10)];
    assert LexLess(a[1..], b[1..]) <==> x % 10 < y % 10 by {
      assert [Digit(x % 10)][1..] == [];
      assert [Digit(y % 10)][1..] == [];
    }
    DivModOrder(x, y, 10);
  }

  /** Comparing naturals compares quotients, then remainders. */
  lemma DivModOrder(x: int, y: int, base: int)
    requires 0 <= x && 0 <= y && 0 < base
    ensures x < y <==> x / base < y / base || (x / base == y / base && x % base < y % base)
  {
    var qx, rx, qy, ry := x / base, x % base, y / base, y % base;
    assert x == base * qx + rx && 0 <= rx < base;
    assert y == base * qy + ry && 0 <= ry < base;
    if qx < qy {
      MulStep(base, qy - qx);
      assert base * qy == base * qx + base * (qy - qx);
    } else if qy < qx {
      MulStep(base, qx - qy);
      assert base * qx == base * qy + base * (qx - qy);
    }
  }

  lemma MulStep(base: int, k: int)
    requires 0 < base && 1 <= k
    ensures base * k >= base
  {
  }

  lemma Pad4Order(x: int, y: int)
    requires 0 <= x < 10000 && 0 <= y < 10000
    ensures LexLess(Pad4(x), Pad4(y)) <==> x < y
  {
    LexLessConcat(Pad2(x / 100), Pad2(x % 100), Pad2(y / 100), Pad2(y % 100));
    Pad2Order(x / 100, y / 100);
    Pad2Order(x % 100, y % 100);
    if Pad2(x / 100) == Pad2(y / 100) {
      Value2Pad2(x / 100);
      Value2Pad2(y / 100);
    }
    DivModOrder(x, y, 100);
  }

  /** ISO dates sort as text exactly as they sort in time. */
  lemma FormatIsoOrder(a: CalendarDate, b: CalendarDate)
    ensures LexLess(FormatIso(a), FormatIso(b)) <==> OnOrBefore(a, b) && a != b
  {
    var ya, yb := Pad4(a.year), Pad4(b.year);
    var ma, mb := "-" + Pad2(a.month), "-" + Pad2(b.month);
    var da, db := "-" + Pad2(a.day), "-" + Pad2(b.day);
    assert FormatIso(a) == ya + (ma + da);
    assert FormatIso(b) == yb + (mb + db);
    LexLessConcat(ya, ma + da, yb, mb + db);
    LexLessConcat(ma, da, mb, db);
    LexLessConcat("-", Pad2(a.month), "-", Pad2(b.month));
    LexLessConcat("-", Pad2(a.day), "-", Pad2(b.day));
    assert !LexLess("-", "-");
    Pad4Order(a.year, b.year);
    Pad2Order(a.month, b.month);
    Pad2Order(a.day, b.day);
    Value4Pad4(a.year);
    Value4Pad4(b.year);
    Value2Pad2(a.month);
    Value2Pad2(b.month);
    Value2Pad2(a.day);
    Value2Pad2(b.day);
  }
}
