/** Civil (proleptic Gregorian) dates with the operations the sync loops use:
    the next day, a day count from 0001-01-01, the weekday as Python's
    `weekday()` and JavaScript's `getUTCDay()` report it, an inclusive day
    range, the `YYYY-MM-DD` text form and its parser. */
module Dates {
  import opened Wrappers
  import opened Text

  datatype Date = Date(year: int, month: int, day: int)

  predicate IsLeap(y: int) {
    y % 4 == 0 && (y % 100 != 0 || y % 400 == 0)
  }

  function DaysInMonth(y: int, m: int): int {
    if m == 2 then (if IsLeap(y) then 29 else 28)
    else if m == 4 || m == 6 || m == 9 || m == 11 then 30
    else 31
  }

  function DaysInYear(y: int): int {
    if IsLeap(y) then 366 else 365
  }

  /** A real calendar day from year 1 on, with no upper bound on the year. */
  predicate InCalendar(d: Date) {
    1 <= d.year && 1 <= d.month <= 12 && 1 <= d.day <= DaysInMonth(d.year, d.month)
  }

  /** The days Python's `date` can hold, which are also the days whose year
      `%Y` and `toISOString` write with four digits. */
  predicate Valid(d: Date) {
    InCalendar(d) && d.year <= 9999
  }

  const LastDate := Date(9999, 12, 31)

  /** Chronological order. */
  predicate DateLess(a: Date, b: Date) {
    a.year < b.year
    || (a.year == b.year && a.month < b.month)
    || (a.year == b.year && a.month == b.month && a.day < b.day)
  }

  predicate DateLe(a: Date, b: Date) {
    a == b || DateLess(a, b)
  }

  // ---------------------------------------------------------------------------
  // Day numbers
  // ---------------------------------------------------------------------------

  function DaysBeforeYear(y: int): int
    requires y >= 1
  {
    365 * (y - 1) + (y - 1) / 4 - (y - 1) / 100 + (y - 1) / 400
  }

  function DaysBeforeMonth(y: int, m: int): int
    requires 1 <= m <= 12
  {
    var common :=
      if m == 1 then 0 else if m == 2 then 31 else if m == 3 then 59
      else if m == 4 then 90 else if m == 5 then 120 else if m == 6 then 151
      else if m == 7 then 181 else if m == 8 then 212 else if m == 9 then 243
      else if m == 10 then 273 else if m == 11 then 304 else 334;
    common + (if m > 2 && IsLeap(y) then 1 else 0)
  }

  /** Days elapsed since 0001-01-01, the `toordinal() - 1` of Python. */
  function DayNumber(d: Date): int
    requires 1 <= d.year && 1 <= d.month <= 12
  {
    DaysBeforeYear(d.year) + DaysBeforeMonth(d.year, d.month) + d.day - 1
  }

  lemma YearStep(y: int)
    requires y >= 1
    ensures DaysBeforeYear(y + 1) == DaysBeforeYear(y) + DaysInYear(y)
  {
    assert y / 4 - (y - 1) / 4 == (if y % 4 == 0 then 1 else 0);
    assert y / 100 - (y - 1) / 100 == (if y % 100 == 0 then 1 else 0);
    assert y / 400 - (y - 1) / 400 == (if y % 400 == 0 then 1 else 0);
  }

  lemma MonthStep(y: int, m: int)
    requires 1 <= m < 12
    ensures DaysBeforeMonth(y, m + 1) == DaysBeforeMonth(y, m) + DaysInMonth(y, m)
  {
  }

  lemma LastMonth(y: int)
    ensures DaysBeforeMonth(y, 12) + DaysInMonth(y, 12) == DaysInYear(y)
  {
  }

  /** The day after `d`; the result is one day number later and later in
      chronological order. */
  function Next(d: Date): (r: Date)
    requires InCalendar(d)
    ensures InCalendar(r)
    ensures DayNumber(r) == DayNumber(d) + 1
    ensures DateLess(d, r)
    ensures d != LastDate && d.year <= 9999 ==> Valid(r)
  {
    if d.day < DaysInMonth(d.year, d.month) then
      Date(d.year, d.month, d.day + 1)
    else if d.month < 12 then
      MonthStep(d.year, d.month);
      Date(d.year, d.month + 1, 1)
    else
      YearStep(d.year);
      LastMonth(d.year);
      Date(d.year + 1, 1, 1)
  }

  lemma {:induction false} YearsMonotone(a: int, b: int)
    requires 1 <= a < b
    ensures DaysBeforeYear(a) + DaysInYear(a) <= DaysBeforeYear(b)
    decreases b - a
  {
    YearStep(a);
    if a + 1 < b {
      YearsMonotone(a + 1, b);
    }
  }

  lemma {:induction false} MonthsMonotone(y: int, a: int, b: int)
    requires 1 <= a < b <= 12
    ensures DaysBeforeMonth(y, a) + DaysInMonth(y, a) <= DaysBeforeMonth(y, b)
    decreases b - a
  {
    MonthStep(y, a);
    if a + 1 < b {
      MonthsMonotone(y, a + 1, b);
    }
  }

  lemma DayWithinYear(d: Date)
    requires InCalendar(d)
    ensures DaysBeforeYear(d.year) <= DayNumber(d) < DaysBeforeYear(d.year) + DaysInYear(d.year)
  {
    if d.month < 12 {
      MonthsMonotone(d.year, d.month, 12);
    }
    LastMonth(d.year);
  }

  /** Day numbers follow chronological order, so a day is determined by its number. */
  lemma DayNumberOrder(a: Date, b: Date)
    requires InCalendar(a) && InCalendar(b)
    ensures DateLess(a, b) <==> DayNumber(a) < DayNumber(b)
    ensures a == b <==> DayNumber(a) == DayNumber(b)
  {
    DayWithinYear(a);
    DayWithinYear(b);
    if a.year < b.year {
      YearsMonotone(a.year, b.year);
    } else if b.year < a.year {
      YearsMonotone(b.year, a.year);
    } else if a.month < b.month {
      MonthsMonotone(a.year, a.month, b.month);
    } else if b.month < a.month {
      MonthsMonotone(a.year, b.month, a.month);
    }
  }

  // ---------------------------------------------------------------------------
  // Weekdays
  // ---------------------------------------------------------------------------

  /** Python's `date.weekday()`: Monday is 0 and Sunday is 6; 0001-01-01 was a Monday. */
  function PyWeekday(d: Date): (r: int)
    requires 1 <= d.year && 1 <= d.month <= 12
    ensures 0 <= r < 7
  {
    DayNumber(d) % 7
  }

  /** JavaScript's `getUTCDay()`: Sunday is 0 and Monday is 1, so it reports
      Sunday exactly when Python's `weekday()` reports 6. */
  function JsUtcDay(d: Date): (r: int)
    requires 1 <= d.year && 1 <= d.month <= 12
    ensures 0 <= r < 7
    ensures r == 0 <==> PyWeekday(d) == 6
  {
    (DayNumber(d) + 1) % 7
  }

  predicate IsSunday(d: Date)
    requires 1 <= d.year && 1 <= d.month <= 12
  {
    PyWeekday(d) == 6
  }

  /** The weekday advances by one each day, wrapping from Sunday to Monday. */
  lemma WeekdayOfNext(d: Date)
    requires InCalendar(d)
    ensures PyWeekday(Next(d)) == (PyWeekday(d) + 1) % 7
  {
    var n := DayNumber(d);
    assert DayNumber(Next(d)) == n + 1;
    ModSevenStep(n);
  }

  lemma ModSevenStep(n: int)
    ensures (n + 1) % 7 == (n % 7 + 1) % 7
  {
    var q, r := n / 7, n % 7;
    if r < 6 {
      assert n + 1 == 7 * q + (r + 1);
    } else {
      assert n + 1 == 7 * (q + 1);
    }
  }

  /** 2025-06-15 is a Sunday and 2025-06-16 to 2025-06-19 run Monday to Thursday. */
  lemma June2025Weekdays()
    ensures IsSunday(Date(2025, 6, 15))
    ensures PyWeekday(Date(2025, 6, 16)) == 0 && PyWeekday(Date(2025, 6, 19)) == 3
  {
  }

  // ---------------------------------------------------------------------------
  // Inclusive ranges of days
  // ---------------------------------------------------------------------------

  /** `n` consecutive days from `d`. */
  function Days(d: Date, n: nat): (r: seq<Date>)
    requires InCalendar(d)
    ensures |r| == n
    decreases n
  {
    if n == 0 then [] else [d] + Days(Next(d), n - 1)
  }

  /** Python's `(end - start).days + 1`, or 0 when `end` is before `start`. */
  function DayCount(start: Date, end: Date): nat
    requires InCalendar(start) && InCalendar(end)
  {
    if DayNumber(end) < DayNumber(start) then 0 else DayNumber(end) - DayNumber(start) + 1
  }

  /** Every calendar day from `start` to `end`, both included, in order. */
  function DateRange(start: Date, end: Date): seq<Date>
    requires InCalendar(start) && InCalendar(end)
  {
    Days(start, DayCount(start, end))
  }

  lemma {:induction false} DaysAt(d: Date, n: nat, i: nat)
    requires InCalendar(d) && i < n
    ensures InCalendar(Days(d, n)[i]) && DayNumber(Days(d, n)[i]) == DayNumber(d) + i
    ensures i + 1 < n ==> Days(d, n)[i + 1] == Next(Days(d, n)[i])
    decreases i
  {
    var r := Days(d, n);
    var t := Days(Next(d), n - 1);
    assert r == [d] + t;
    if i > 0 {
      DaysAt(Next(d), n - 1, i - 1);
      assert r[i] == t[i - 1];
      if i + 1 < n {
        assert r[i + 1] == t[i];
      }
    } else if 1 < n {
      assert t == [Next(d)] + Days(Next(Next(d)), n - 2);
      assert r[1] == t[0];
    }
  }

  /** The range holds exactly the valid days between its ends, each once, in
      strictly increasing order, the i-th being i days after `start`. */
  lemma DateRangeSpec(start: Date, end: Date)
    requires Valid(start) && Valid(end)
    ensures var r := DateRange(start, end);
      && (forall i :: 0 <= i < |r| ==> Valid(r[i]) && DayNumber(r[i]) == DayNumber(start) + i)
      && (forall i, j :: 0 <= i < j < |r| ==> DateLess(r[i], r[j]))
      && (forall x :: Valid(x) ==> (x in r <==> DateLe(start, x) && DateLe(x, end)))
  {
    var r := DateRange(start, end);
    var n := DayCount(start, end);
    forall i | 0 <= i < |r|
      ensures Valid(r[i]) && DayNumber(r[i]) == DayNumber(start) + i
    {
      DaysAt(start, n, i);
      DayNumberOrder(r[i], end);
    }
    forall i, j | 0 <= i < j < |r|
      ensures DateLess(r[i], r[j])
    {
      DaysAt(start, n, i);
      DaysAt(start, n, j);
      DayNumberOrder(r[i], r[j]);
    }
    forall x | Valid(x)
      ensures x in r <==> DateLe(start, x) && DateLe(x, end)
    {
      DayNumberOrder(start, x);
      DayNumberOrder(x, end);
      if x in r {
        var i :| 0 <= i < |r| && r[i] == x;
        DaysAt(start, n, i);
      }
      if DateLe(start, x) && DateLe(x, end) {
        var i := DayNumber(x) - DayNumber(start);
        DaysAt(start, n, i);
        DayNumberOrder(r[i], x);
      }
    }
  }

  // ---------------------------------------------------------------------------
  // The `YYYY-MM-DD` form
  // ---------------------------------------------------------------------------

  /** `strftime('%Y-%m-%d')` in Python and `toISOString().slice(0, 10)` in JavaScript. */
  function Iso(d: Date): (s: string)
    requires Valid(d)
    ensures |s| == 10
  {
    Digits(d.year, 4) + ("-" + (Digits(d.month, 2) + ("-" + Digits(d.day, 2))))
  }

  lemma AppendSplit(p: string, q: string, x: string, y: string)
    requires |p| == |q| && p + x == q + y
    ensures p == q && x == y
  {
    assert p == (p + x)[..|p|] && q == (q + y)[..|q|];
    assert x == (p + x)[|p|..] && y == (q + y)[|q|..];
  }

  /** On `YYYY-MM-DD` strings the string order is the chronological order,
      and two days have the same text exactly when they are the same day. */
  lemma IsoOrder(a: Date, b: Date)
    requires Valid(a) && Valid(b)
    ensures StrLess(Iso(a), Iso(b)) <==> DateLess(a, b)
    ensures Iso(a) == Iso(b) <==> a == b
  {
    assert Pow10(4) == 10000 && Pow10(2) == 100;
    DigitsOrder(a.year, b.year, 4);
    DigitsOrder(a.month, b.month, 2);
    DigitsOrder(a.day, b.day, 2);
    var ya, yb := Digits(a.year, 4), Digits(b.year, 4);
    var ma, mb := Digits(a.month, 2), Digits(b.month, 2);
    var da, db := Digits(a.day, 2), Digits(b.day, 2);
    StrLessAppend(ya, yb, "-" + (ma + ("-" + da)), "-" + (mb + ("-" + db)));
    StrLessAppend("-", "-", ma + ("-" + da), mb + ("-" + db));
    StrLessAppend(ma, mb, "-" + da, "-" + db);
    StrLessAppend("-", "-", da, db);
    if Iso(a) == Iso(b) {
      AppendSplit(ya, yb, "-" + (ma + ("-" + da)), "-" + (mb + ("-" + db)));
      AppendSplit("-", "-", ma + ("-" + da), mb + ("-" + db));
      AppendSplit(ma, mb, "-" + da, "-" + db);
      AppendSplit("-", "-", da, db);
    }
  }

  /** Non-strict form of the same fact. */
  lemma IsoLe(a: Date, b: Date)
    requires Valid(a) && Valid(b)
    ensures StrLe(Iso(a), Iso(b)) <==> DateLe(a, b)
  {
    IsoOrder(a, b);
  }

  predicate IsDigit(c: char) {
    '0' <= c <= '9'
  }

  predicate AllDigits(s: string) {
    forall i :: 0 <= i < |s| ==> IsDigit(s[i])
  }

  /** The number a string of decimal digits denotes. */
  function DigitsValue(s: string): nat
    requires AllDigits(s)
  {
    if s == [] then 0 else 10 * DigitsValue(s[..|s| - 1]) + (s[|s| - 1] as int - '0' as int)
  }

  lemma {:induction false} DigitsValueOfDigits(n: nat, w: nat)
    requires n < Pow10(w)
    ensures AllDigits(Digits(n, w)) && DigitsValue(Digits(n, w)) == n
  {
    if w > 0 {
      DigitsValueOfDigits(n / 10, w - 1);
      var s := Digits(n, w);
      assert s[..w - 1] == Digits(n / 10, w - 1);
    }
  }

  lemma {:induction false} DigitsOfDigitsValue(s: string)
    requires AllDigits(s)
    ensures DigitsValue(s) < Pow10(|s|) && Digits(DigitsValue(s), |s|) == s
  {
    if s != [] {
      var p := s[..|s| - 1];
      var k := s[|s| - 1] as int - '0' as int;
      DigitsOfDigitsValue(p);
      var v := DigitsValue(s);
      assert v == 10 * DigitsValue(p) + k && 0 <= k < 10;
      assert v / 10 == DigitsValue(p) && v % 10 == k;
      assert DigitChar(k) == s[|s| - 1];
      assert s == p + [s[|s| - 1]];
    }
  }

  /** `datetime.fromisoformat` restricted to the `YYYY-MM-DD` form. */
  function ParseIso(s: string): (r: Option<Date>)
    ensures r.Some? ==> Valid(r.value)
  {
    if |s| == 10 && s[4] == '-' && s[7] == '-'
       && AllDigits(s[..4]) && AllDigits(s[5..7]) && AllDigits(s[8..])
    then
      var d := Date(DigitsValue(s[..4]), DigitsValue(s[5..7]), DigitsValue(s[8..]));
      if Valid(d) then Some(d) else None
    else None
  }

  /** Parsing a formatted day gives the day back. */
  lemma ParseIsoOfIso(d: Date)
    requires Valid(d)
    ensures ParseIso(Iso(d)) == Some(d)
  {
    assert Pow10(4) == 10000 && Pow10(2) == 100;
    var t := Iso(d);
    assert t[..4] == Digits(d.year, 4);
    assert t[5..7] == Digits(d.month, 2);
    assert t[8..] == Digits(d.day, 2);
    assert t[4] == '-' && t[7] == '-';
    DigitsValueOfDigits(d.year, 4);
    DigitsValueOfDigits(d.month, 2);
    DigitsValueOfDigits(d.day, 2);
  }

  /** A string that parses is the formatted form of the day it parses to. */
  lemma IsoOfParseIso(s: string)
    requires ParseIso(s).Some?
    ensures Iso(ParseIso(s).value) == s
  {
    DigitsOfDigitsValue(s[..4]);
    DigitsOfDigitsValue(s[5..7]);
    DigitsOfDigitsValue(s[8..]);
    assert s == s[..4] + ("-" + (s[5..7] + ("-" + s[8..])));
  }

  predicate AllValid(ds: seq<Date>) {
    forall i :: 0 <= i < |ds| ==> Valid(ds[i])
  }

  /** The day `d` lies inside the range the two strings give. */
  predicate InRange(startDate: string, endDate: string, d: Date) {
    ParseIso(startDate).Some? && ParseIso(endDate).Some?
    && DateLe(ParseIso(startDate).value, d) && DateLe(d, ParseIso(endDate).value)
  }

  lemma DateRangeValid(a: Date, b: Date)
    requires Valid(a) && Valid(b)
    ensures AllValid(DateRange(a, b))
  {
    DateRangeSpec(a, b);
  }

  /** Every day of the range two parsed strings give lies inside that range. */
  lemma DateRangeInRange(startDate: string, endDate: string)
    requires ParseIso(startDate).Some? && ParseIso(endDate).Some?
    ensures var ds := DateRange(ParseIso(startDate).value, ParseIso(endDate).value);
      AllValid(ds) && forall i :: 0 <= i < |ds| ==> InRange(startDate, endDate, ds[i])
  {
    var a, b := ParseIso(startDate).value, ParseIso(endDate).value;
    DateRangeSpec(a, b);
    var ds := DateRange(a, b);
    forall i | 0 <= i < |ds|
      ensures InRange(startDate, endDate, ds[i])
    {
      assert ds[i] in ds;
    }
  }
}
