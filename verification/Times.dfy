/** Times as the job table stores them: RFC 3339 text in UTC with trailing zeros of the fraction trimmed
    (internal/db/store.go, lines 14-32), compared as text by the query (lines 289-299). An instant is a
    number of nanoseconds since the start of year 0 in UTC. */
module Times {
  import opened Basics

  const SECOND: int := 1_000_000_000
  const DAY: int := 86_400

  // ---------------------------------------------------------------- calendar

  predicate Leap(year: nat) {
    year % 4 == 0 && (year % 100 != 0 || year % 400 == 0)
  }

  function DaysIn(year: nat, month: nat): nat
    requires 1 <= month <= 12
  {
    if month == 2 then (if Leap(year) then 29 else 28)
    else if month == 4 || month == 6 || month == 9 || month == 11 then 30
    else 31
  }

  function YearDays(year: nat): nat {
    if Leap(year) then 366 else 365
  }

  function DaysBeforeYear(year: nat): nat {
    if year == 0 then 0 else DaysBeforeYear(year - 1) + YearDays(year - 1)
  }

  function DaysBeforeMonth(year: nat, month: nat): nat
    requires 1 <= month <= 13
  {
    if month == 1 then 0 else DaysBeforeMonth(year, month - 1) + DaysIn(year, month - 1)
  }

  datatype Civil = Civil(year: nat, month: nat, day: nat, hour: nat, minute: nat, second: nat, nanos: nat)
  {
    predicate Valid() {
      && year <= 9999 && 1 <= month <= 12 && 1 <= day <= DaysIn(year, month)
      && hour < 24 && minute < 60 && second < 60 && nanos < SECOND
    }
    function Day(): nat requires 1 <= month <= 12 && 1 <= day {
      DaysBeforeYear(year) + DaysBeforeMonth(year, month) + day - 1
    }
    function Seconds(): nat requires 1 <= month <= 12 && 1 <= day {
      ((Day() * 24 + hour) * 60 + minute) * 60 + second
    }
    function Instant(): nat requires 1 <= month <= 12 && 1 <= day {
      Seconds() * SECOND + nanos
    }
  }

  /** The year and the day within it, counting `rest` days from the start of `year`. */
  function YearFrom(year: nat, rest: nat): (nat, nat)
    decreases rest
  {
    if rest < YearDays(year) then (year, rest) else YearFrom(year + 1, rest - YearDays(year))
  }

  function MonthFrom(year: nat, month: nat, rest: nat): (nat, nat)
    requires 1 <= month <= 12
    decreases 12 - month
  {
    if rest < DaysIn(year, month) || month == 12 then (month, rest)
    else MonthFrom(year, month + 1, rest - DaysIn(year, month))
  }

  function CivilOf(t: nat): Civil {
    var seconds := t / SECOND;
    var (year, inYear) := YearFrom(0, seconds / DAY);
    var (month, inMonth) := MonthFrom(year, 1, inYear);
    var inDay := seconds % DAY;
    Civil(year, month, inMonth + 1, inDay / 3600, inDay / 60 % 60, inDay % 60, t % SECOND)
  }

  lemma {:induction false} YearFound(year: nat, rest: nat)
    ensures var (y, r) := YearFrom(year, rest);
            r < YearDays(y) && DaysBeforeYear(y) + r == DaysBeforeYear(year) + rest
    decreases rest
  {
    if rest >= YearDays(year) {
      YearFound(year + 1, rest - YearDays(year));
    }
  }

  lemma MonthsMakeYear(year: nat)
    ensures DaysBeforeMonth(year, 13) == YearDays(year)
  {
    assert DaysBeforeMonth(year, 2) == 31;
    assert DaysBeforeMonth(year, 4) == 31 + DaysIn(year, 2) + 31;
    assert DaysBeforeMonth(year, 6) == DaysBeforeMonth(year, 4) + 61;
    assert DaysBeforeMonth(year, 8) == DaysBeforeMonth(year, 6) + 61;
    assert DaysBeforeMonth(year, 10) == DaysBeforeMonth(year, 8) + 61;
    assert DaysBeforeMonth(year, 12) == DaysBeforeMonth(year, 10) + 61;
  }

  lemma {:induction false} MonthFound(year: nat, month: nat, rest: nat)
    requires 1 <= month <= 12 && DaysBeforeMonth(year, month) + rest < YearDays(year)
    ensures var (m, r) := MonthFrom(year, month, rest);
            1 <= m <= 12 && r < DaysIn(year, m)
            && DaysBeforeMonth(year, m) + r == DaysBeforeMonth(year, month) + rest
    decreases 12 - month
  {
    if month == 12 {
      MonthsMakeYear(year);
      assert DaysBeforeMonth(year, 13) == DaysBeforeMonth(year, 12) + DaysIn(year, 12);
    } else if rest >= DaysIn(year, month) {
      MonthFound(year, month + 1, rest - DaysIn(year, month));
    }
  }

  lemma {:induction false} YearsInOrder(a: nat, b: nat)
    requires a <= b
    ensures DaysBeforeYear(a) <= DaysBeforeYear(b)
    ensures a < b ==> DaysBeforeYear(a) + YearDays(a) <= DaysBeforeYear(b)
    decreases b - a
  {
    if a < b {
      YearsInOrder(a, b - 1);
    }
  }

  lemma {:induction false} MonthsInOrder(year: nat, a: nat, b: nat)
    requires 1 <= a <= b <= 13
    ensures DaysBeforeMonth(year, a) <= DaysBeforeMonth(year, b)
    ensures a < b ==> DaysBeforeMonth(year, a) + DaysIn(year, a) <= DaysBeforeMonth(year, b)
    decreases b - a
  {
    if a < b {
      MonthsInOrder(year, a, b - 1);
    }
  }

  lemma QuotientSteps(x: nat, d: nat)
    requires d > 0
    ensures (x + d) / d == x / d + 1
    ensures (x + d - 1) / d == x / d + (if x % d == 0 then 0 else 1)
  {
    var q, r := x / d, x % d;
    assert x == q * d + r;
    QuotientIs(x + d, d, q + 1, r);
    if r == 0 {
      QuotientIs(x + d - 1, d, q, d - 1);
    } else {
      QuotientIs(x + d - 1, d, q + 1, r - 1);
    }
  }

  lemma QuotientIs(x: nat, d: nat, q: nat, r: nat)
    requires d > 0 && r < d && x == q * d + r
    ensures x / d == q
  {
    var p := x / d;
    assert p * d <= x < p * d + d;
    assert p < q ==> (p + 1) * d <= q * d;
    assert p > q ==> (q + 1) * d <= p * d;
  }

  function One(b: bool): int { if b then 1 else 0 }

  lemma MultipleOfFactor(x: nat, d: nat, e: nat)
    requires d > 0 && e > 0 && x % (d * e) == 0
    ensures x % d == 0
  {
    var k := x / (d * e);
    assert x == k * (d * e) == k * e * d + 0;
    QuotientIs(x, d, k * e, 0);
    assert x == x / d * d + x % d;
  }

  lemma YearDaysByCount(year: nat)
    ensures YearDays(year) == 365 + One(year % 4 == 0) - One(year % 100 == 0) + One(year % 400 == 0)
  {
    if year % 400 == 0 {
      MultipleOfFactor(year, 100, 4);
    }
    if year % 100 == 0 {
      MultipleOfFactor(year, 4, 25);
    }
  }

  function LeapsBefore(year: nat): int {
    (year + 3) / 4 - (year + 99) / 100 + (year + 399) / 400
  }

  lemma LeapsStep(year: nat)
    ensures LeapsBefore(year + 1) - LeapsBefore(year)
         == One(year % 4 == 0) - One(year % 100 == 0) + One(year % 400 == 0)
  {
    QuotientSteps(year, 4);
    QuotientSteps(year, 100);
    QuotientSteps(year, 400);
  }

  lemma {:induction false} YearsByCount(year: nat)
    ensures DaysBeforeYear(year) == 365 * year + LeapsBefore(year)
  {
    if year > 0 {
      YearsByCount(year - 1);
      YearDaysByCount(year - 1);
      LeapsStep(year - 1);
    }
  }

  /** The days of the years 0000 to 9999: twenty-five cycles of 400 years. */
  const ALL_DAYS: nat := 25 * 146_097

  predicate InRange(t: nat) {
    t < ALL_DAYS * DAY * SECOND
  }

  lemma CivilIsValid(t: nat)
    requires InRange(t)
    ensures CivilOf(t).Valid() && CivilOf(t).Instant() == t && CivilOf(t).Seconds() == t / SECOND
  {
    var seconds := t / SECOND;
    DateIsValid(seconds / DAY);
    ClockOf(seconds % DAY);
    assert seconds / DAY * DAY + seconds % DAY == seconds;
  }

  lemma DateIsValid(days: nat)
    requires days < ALL_DAYS
    ensures var (year, inYear) := YearFrom(0, days);
            var (month, inMonth) := MonthFrom(year, 1, inYear);
            && year <= 9999 && 1 <= month <= 12 && inMonth < DaysIn(year, month)
            && DaysBeforeYear(year) + DaysBeforeMonth(year, month) + inMonth == days
  {
    var (year, inYear) := YearFrom(0, days);
    YearFound(0, days);
    MonthFound(year, 1, inYear);
    if year > 9999 {
      YearsByCount(year);
      assert false;
    }
  }

  // ---------------------------------------------------------------- the calendar by arithmetic

  /** The months of a year that begins in March, numbered from 0, and the year they are counted in. */
  function MarchMonth(month: nat): int { if month > 2 then month - 3 else month + 9 }
  function MarchYear(year: int, month: nat): int { if month > 2 then year else year - 1 }

  lemma MonthsByCount(year: nat, month: nat)
    requires 1 <= month <= 12
    ensures DaysBeforeMonth(year, month)
         == (153 * MarchMonth(month) + 2) / 5 + (if month > 2 then 59 + One(Leap(year)) else -306)
    ensures month != 2 ==>
      DaysIn(year, month) == (153 * (MarchMonth(month) + 1) + 2) / 5 - (153 * MarchMonth(month) + 2) / 5
  {
    assert DaysBeforeMonth(year, 2) == 31;
    assert DaysBeforeMonth(year, 4) == 31 + DaysIn(year, 2) + 31;
    assert DaysBeforeMonth(year, 6) == DaysBeforeMonth(year, 4) + 61;
    assert DaysBeforeMonth(year, 8) == DaysBeforeMonth(year, 6) + 61;
    assert DaysBeforeMonth(year, 10) == DaysBeforeMonth(year, 8) + 61;
    assert DaysBeforeMonth(year, 12) == DaysBeforeMonth(year, 10) + 61;
  }

  /** A year later, without a correction: the next year begins after this one's leap day. */
  lemma NextYearByCount(year: nat)
    ensures DaysBeforeYear(year + 1) == 365 * year + year / 4 - year / 100 + year / 400 + 366
    ensures DaysBeforeYear(year + 1) == DaysBeforeYear(year) + 365 + One(Leap(year))
  {
    YearsByCount(year + 1);
    QuotientSteps(year, 4);
    QuotientSteps(year, 100);
    QuotientSteps(year, 400);
  }

  lemma DayByCount(year: nat, month: nat)
    requires 1 <= month <= 12
    ensures var y, m := MarchYear(year, month), MarchMonth(month);
            DaysBeforeYear(year) + DaysBeforeMonth(year, month)
            == 365 * y + y / 4 - y / 100 + y / 400 + (153 * m + 2) / 5 + 60
  {
    MonthsByCount(year, month);
    if month > 2 {
      NextYearByCount(year);
    } else if year > 0 {
      NextYearByCount(year - 1);
    }
  }

  /** The date of an instant, by the count of days alone: years of 365 days that begin in March, with a day more
      every fourth year but not every hundredth, yet every four hundredth; and months of 31 and 30 days in turn
      that begin anew in August and in January. */
  lemma DateByArithmetic(t: nat)
    requires InRange(t)
    ensures var c := CivilOf(t);
            var y, m := MarchYear(c.year, c.month), MarchMonth(c.month);
            && t / 1_000_000_000 / 86_400
               == 365 * y + y / 4 - y / 100 + y / 400 + (153 * m + 2) / 5 + c.day - 1 + 60
            && 0 <= m <= 11 && 1 <= c.day
            && (m < 11 ==> c.day <= (153 * (m + 1) + 2) / 5 - (153 * m + 2) / 5)
            && (m == 11 ==>
                  c.day <= if c.year % 4 == 0 && (c.year % 100 != 0 || c.year % 400 == 0) then 29 else 28)
            && t / 1_000_000_000 % 86_400 == (c.hour * 60 + c.minute) * 60 + c.second && c.hour < 24
            && c.minute < 60 && c.second < 60 && c.nanos == t % 1_000_000_000
  {
    ClockOf(t / SECOND % DAY);
    var (year, inYear) := YearFrom(0, t / SECOND / DAY);
    var (month, inMonth) := MonthFrom(year, 1, inYear);
    DateIsValid(t / SECOND / DAY);
    MonthsByCount(year, month);
    DayByCount(year, month);
  }

  lemma ClockOf(inDay: nat)
    requires inDay < DAY
    ensures inDay / 3600 < 24 && (inDay / 3600 * 60 + inDay / 60 % 60) * 60 + inDay % 60 == inDay
  {
    assert inDay / 60 / 60 == inDay / 3600;
  }

  /** Dates compare field by field. */
  lemma DaysInOrder(a: Civil, b: Civil)
    requires a.Valid() && b.Valid()
    requires a.year < b.year || (a.year == b.year && (a.month < b.month || (a.month == b.month && a.day < b.day)))
    ensures a.Day() < b.Day()
  {
    MonthsMakeYear(a.year);
    MonthsInOrder(a.year, a.month, 13);
    if a.year < b.year {
      YearsInOrder(a.year, b.year);
    } else if a.month < b.month {
      MonthsInOrder(a.year, a.month, b.month);
    }
  }

  // ---------------------------------------------------------------- digits

  predicate IsDigit(c: char) { '0' <= c <= '9' }

  function Digit(d: nat): char
    requires d < 10
  {
    '0' + d as char
  }

  function Pow10(n: nat): nat {
    if n == 0 then 1 else 10 * Pow10(n - 1)
  }

  /** The last `width` decimal digits of `n`. */
  function Pad(n: nat, width: nat): (s: string)
    ensures |s| == width
    ensures forall i | 0 <= i < |s| :: IsDigit(s[i])
  {
    if width == 0 then "" else Pad(n / 10, width - 1) + [Digit(n % 10)]
  }

  /** The value of a digit string, or nothing if another character occurs. */
  function Number(s: string): Option<nat> {
    if s == "" then Some(0)
    else
      var c := s[|s| - 1];
      match Number(s[..|s| - 1])
      case Some(n) => if IsDigit(c) then Some(10 * n + (c - '0') as nat) else None
      case None => None
  }

  lemma {:induction false} NumberOfPad(n: nat, width: nat)
    requires n < Pow10(width)
    ensures Number(Pad(n, width)) == Some(n)
  {
    if width > 0 {
      NumberOfPad(n / 10, width - 1);
      var s := Pad(n, width);
      assert s[..|s| - 1] == Pad(n / 10, width - 1);
    }
  }

  // ---------------------------------------------------------------- text order

  /** SQLite's default order of text: byte by byte, a prefix first. */
  predicate TextLess(a: string, b: string) {
    if b == "" then false
    else if a == "" then true
    else if a[0] != b[0] then a[0] < b[0]
    else TextLess(a[1..], b[1..])
  }

  predicate TextAtMost(a: string, b: string) { !TextLess(b, a) }

  lemma {:induction false} SamePrefix(p: string, a: string, b: string)
    ensures TextLess(p + a, p + b) == TextLess(a, b)
  {
    if p == "" {
      assert p + a == a && p + b == b;
    } else {
      assert (p + a)[1..] == p[1..] + a && (p + b)[1..] == p[1..] + b;
      SamePrefix(p[1..], a, b);
    }
  }

  /** Between different strings of the same length, what follows them does not matter. */
  lemma {:induction false} DecidedEarly(a: string, b: string, x: string, y: string)
    requires |a| == |b| && a != b
    ensures TextLess(a + x, b + y) == TextLess(a, b)
  {
    assert (a + x)[1..] == a[1..] + x && (b + y)[1..] == b[1..] + y;
    if a[0] == b[0] {
      DecidedEarly(a[1..], b[1..], x, y);
    }
  }

  lemma {:induction false} OneIsLess(a: string, b: string)
    ensures TextLess(a, b) || TextLess(b, a) || a == b
    ensures !(TextLess(a, b) && TextLess(b, a))
  {
    if a != "" && b != "" && a[0] == b[0] {
      OneIsLess(a[1..], b[1..]);
    }
  }

  /** That order in plain terms: at the first difference the smaller code point decides, and the end of the text
      comes before every code point. */
  lemma {:induction false} TextLessIff(a: string, b: string)
    ensures TextLess(a, b) <==>
      exists k :: 0 <= k <= |a| && k < |b| && a[..k] == b[..k] && (k == |a| || a[k] < b[k])
  {
    if a != "" && b != "" && a[0] == b[0] {
      TextLessIff(a[1..], b[1..]);
      if TextLess(a[1..], b[1..]) {
        var k :| 0 <= k <= |a| - 1 && k < |b| - 1 && a[1..][..k] == b[1..][..k]
                 && (k == |a| - 1 || a[1..][k] < b[1..][k]);
        assert a[..k + 1] == [a[0]] + a[1..][..k] && b[..k + 1] == [b[0]] + b[1..][..k];
      }
      if k :| 0 <= k <= |a| && k < |b| && a[..k] == b[..k] && (k == |a| || a[k] < b[k]) {
        assert k > 0 && a[1..][..k - 1] == a[..k][1..] && b[1..][..k - 1] == b[..k][1..];
      }
    } else {
      assert a[..0] == b[..0];
      forall k | 0 < k <= |a| && k < |b| ensures a[..k] != b[..k] {
        assert a[..k][0] == a[0] && b[..k][0] == b[0];
      }
    }
  }

  lemma PadEqual(a: nat, b: nat, width: nat)
    requires a < Pow10(width) && b < Pow10(width)
    ensures Pad(a, width) == Pad(b, width) <==> a == b
  {
    NumberOfPad(a, width);
    NumberOfPad(b, width);
  }

  lemma LastDigits(c: char, d: char)
    ensures TextLess([c], [d]) == (c < d)
  {
    assert [c][1..] == [] && [d][1..] == [];
  }

  lemma {:induction false} PadOrder(a: nat, b: nat, width: nat)
    requires a < Pow10(width) && b < Pow10(width)
    ensures TextLess(Pad(a, width), Pad(b, width)) == (a < b)
    ensures Pad(a, width) == Pad(b, width) <==> a == b
  {
    PadEqual(a, b, width);
    if width > 0 {
      var p, q := Pad(a / 10, width - 1), Pad(b / 10, width - 1);
      var c, d := Digit(a % 10), Digit(b % 10);
      PadOrder(a / 10, b / 10, width - 1);
      if a / 10 == b / 10 {
        SamePrefix(p, [c], [d]);
        LastDigits(c, d);
        assert a < b <==> a % 10 < b % 10;
      } else {
        DecidedEarly(p, q, [c], [d]);
        assert a < b <==> a / 10 < b / 10;
      }
    }
  }

  /** A field of fixed width compares like its number; equal fields leave it to what follows. */
  lemma FieldOrder(a: nat, b: nat, width: nat, x: string, y: string)
    requires a < Pow10(width) && b < Pow10(width)
    ensures TextLess(Pad(a, width) + x, Pad(b, width) + y) == (a < b || (a == b && TextLess(x, y)))
  {
    PadOrder(a, b, width);
    if a == b {
      SamePrefix(Pad(a, width), x, y);
    } else {
      DecidedEarly(Pad(a, width), Pad(b, width), x, y);
    }
  }

  // ---------------------------------------------------------------- the fraction

  /** Without the zeros at the end. */
  function TrimZeros(s: string): string {
    if s == "" then ""
    else
      var rest := TrimZeros(s[1..]);
      if rest == "" && s[0] == '0' then "" else [s[0]] + rest
  }

  /** The digits written after the point for a number of nanoseconds within its second. */
  function Fraction(nanos: nat): string {
    TrimZeros(Pad(nanos, 9))
  }

  lemma {:induction false} TrimAt(s: string)
    ensures var r := TrimZeros(s);
            && |r| <= |s| && r == s[..|r|]
            && (forall i | |r| <= i < |s| :: s[i] == '0')
  {
    if s != "" {
      TrimAt(s[1..]);
      var rest := TrimZeros(s[1..]);
      forall i | |rest| + 1 <= i < |s| ensures s[i] == '0' {
        assert s[i] == s[1..][i - 1];
      }
    }
  }

  lemma {:induction false} PadZero(width: nat)
    ensures forall i | 0 <= i < width :: Pad(0, width)[i] == '0'
  {
    if width > 0 {
      PadZero(width - 1);
    }
  }

  /** Trimming loses nothing: filling up with zeros gives the nine digits back. */
  lemma FractionFills(nanos: nat)
    requires nanos < SECOND
    ensures (Fraction(nanos) + "000000000")[..9] == Pad(nanos, 9)
    ensures nanos > 0 <==> Fraction(nanos) != ""
  {
    var s, r := Pad(nanos, 9), Fraction(nanos);
    TrimAt(s);
    forall i | 0 <= i < 9 ensures (r + "000000000")[..9][i] == s[i] {
    }
    FractionEmptyIff(nanos);
  }

  lemma FractionEmptyIff(nanos: nat)
    requires nanos < SECOND
    ensures Fraction(nanos) == "" <==> nanos == 0
  {
    assert SECOND == Pow10(9);
    PadZero(9);
    if Fraction(nanos) == "" {
      TrimAt(Pad(nanos, 9));
      assert Pad(nanos, 9) == Pad(0, 9);
      PadOrder(nanos, 0, 9);
    } else {
      TrimEndsInDigit(Pad(nanos, 9));
    }
  }

  lemma {:induction false} TrimEndsInDigit(s: string)
    requires TrimZeros(s) != ""
    ensures exists i | 0 <= i < |s| :: s[i] != '0'
  {
    if TrimZeros(s[1..]) == "" {
      assert s[0] != '0';
    } else {
      TrimEndsInDigit(s[1..]);
      var i :| 0 <= i < |s[1..]| && s[1..][i] != '0';
      assert s[i + 1] != '0';
    }
  }

  /** Two trimmed fractions compare like their numbers, unless the smaller one is a prefix of the larger. */
  lemma {:induction false} TrimOrder(p: string, q: string)
    requires |p| == |q| && TextLess(p, q)
    requires forall i | 0 <= i < |p| :: IsDigit(p[i])
    requires forall i | 0 <= i < |q| :: IsDigit(q[i])
    ensures TextLess(TrimZeros(p) + "Z", TrimZeros(q) + "Z") == !(TrimZeros(p) <= TrimZeros(q))
    ensures TrimZeros(q) != ""
  {
    var r, s := TrimZeros(p), TrimZeros(q);
    if p[0] == q[0] {
      TrimOrder(p[1..], q[1..]);
      if r != "" {
        SamePrefix([p[0]], r[1..] + "Z", s[1..] + "Z");
        assert r + "Z" == [p[0]] + (r[1..] + "Z") && s + "Z" == [p[0]] + (s[1..] + "Z");
        assert r <= s <==> r[1..] <= s[1..];
      }
    } else {
      assert s[0] == q[0];
      assert (s + "Z")[0] == q[0];
    }
  }

  // ---------------------------------------------------------------- stored text

  /** Go's zero time, the first instant of year 1. */
  const ZERO_TIME: nat := 366 * DAY * SECOND

  function Tail(nanos: nat): string {
    if nanos == 0 then "Z" else "." + (Fraction(nanos) + "Z")
  }

  /** Numbers of fixed width with a separator after each, and what follows them. */
  datatype Layout = Rest(text: string) | Part(n: nat, width: nat, sep: string, next: Layout)

  function Written(l: Layout): string {
    match l
    case Rest(text) => text
    case Part(n, width, sep, next) => Pad(n, width) + (sep + Written(next))
  }

  /** The layout RFC3339Nano in UTC. */
  function LayoutOf(c: Civil): Layout {
    Part(c.year, 4, "-", Part(c.month, 2, "-", Part(c.day, 2, "T",
      Part(c.hour, 2, ":", Part(c.minute, 2, ":", Part(c.second, 2, "", Rest(Tail(c.nanos))))))))
  }

  function Text(c: Civil): string {
    Written(LayoutOf(c))
  }

  lemma TextIs(c: Civil)
    ensures Text(c) == Pad(c.year, 4) + ("-" + (Pad(c.month, 2) + ("-" + (Pad(c.day, 2) + ("T" +
      (Pad(c.hour, 2) + (":" + (Pad(c.minute, 2) + (":" + (Pad(c.second, 2) + Tail(c.nanos)))))))))))
  {
    var l := LayoutOf(c);
    var l4 := l.next.next.next;
    assert "" + Tail(c.nanos) == Tail(c.nanos);
    assert Written(l4.next.next) == Pad(c.second, 2) + Tail(c.nanos);
    assert Written(l4) == Pad(c.hour, 2) + (":" + (Pad(c.minute, 2) + (":" + Written(l4.next.next))));
    assert Written(l.next) == Pad(c.month, 2) + ("-" + (Pad(c.day, 2) + ("T" + Written(l4))));
  }

  function FormatTime(t: nat): string {
    if t == ZERO_TIME then "" else Text(CivilOf(t))
  }

  /** A number of exactly `width` digits and the separator after it. */
  function Field(s: string, width: nat, sep: string): Option<(nat, string)> {
    if |s| < width + |sep| || s[width..width + |sep|] != sep then None
    else
      var n :- Number(s[..width]);
      Some((n, s[width + |sep|..]))
  }

  function DigitRun(s: string): (n: nat)
    ensures n <= |s|
  {
    if s == "" || !IsDigit(s[0]) then 0 else 1 + DigitRun(s[1..])
  }

  /** The optional fraction: missing digits count as zeros, digits after the ninth are dropped. */
  function ReadFraction(s: string): Option<(nat, string)> {
    if |s| < 2 || s[0] != '.' || !IsDigit(s[1]) then Some((0, s))
    else
      var n := DigitRun(s[1..]);
      var nanos :- Number((s[1..][..n] + "000000000")[..9]);
      Some((nanos, s[1..][n..]))
  }

  function Parse(s: string): Option<Civil> {
    var (year, s1) :- Field(s, 4, "-");
    var (month, s2) :- Field(s1, 2, "-");
    var (day, s3) :- Field(s2, 2, "T");
    var (hour, s4) :- Field(s3, 2, ":");
    var (minute, s5) :- Field(s4, 2, ":");
    var (second, s6) :- Field(s5, 2, "");
    var (nanos, zone) :- ReadFraction(s6);
    var c := Civil(year, month, day, hour, minute, second, nanos);
    if zone == "Z" && c.Valid() then Some(c) else None
  }

  /** Text that cannot be read, like the empty text, stands for the zero time. */
  function ParseTime(s: string): nat {
    if s == "" then ZERO_TIME
    else match Parse(s)
         case Some(c) => c.Instant()
         case None => ZERO_TIME
  }

  lemma FieldOf(n: nat, width: nat, sep: string, rest: string)
    requires n < Pow10(width)
    ensures Field(Pad(n, width) + (sep + rest), width, sep) == Some((n, rest))
  {
    NumberOfPad(n, width);
    var s := Pad(n, width) + (sep + rest);
    assert s[..width] == Pad(n, width);
    assert s[width..width + |sep|] == sep;
    assert s[width + |sep|..] == rest;
  }

  lemma {:induction false} RunOf(digits: string, rest: string)
    requires forall i | 0 <= i < |digits| :: IsDigit(digits[i])
    requires rest == "" || !IsDigit(rest[0])
    ensures DigitRun(digits + rest) == |digits|
  {
    if digits == "" {
      assert digits + rest == rest;
    } else {
      assert (digits + rest)[1..] == digits[1..] + rest;
      RunOf(digits[1..], rest);
    }
  }

  lemma TailReadsBack(nanos: nat)
    requires nanos < SECOND
    ensures ReadFraction(Tail(nanos)) == Some((nanos, "Z"))
  {
    if nanos > 0 {
      var f := Fraction(nanos);
      FractionFills(nanos);
      TrimAt(Pad(nanos, 9));
      RunOf(f, "Z");
      assert SECOND == Pow10(9);
      NumberOfPad(nanos, 9);
      assert Tail(nanos)[1..] == f + "Z" && (f + "Z")[..|f|] == f && (f + "Z")[|f|..] == "Z";
    }
  }

  lemma TextReadsBack(c: Civil)
    requires c.Valid()
    ensures Parse(Text(c)) == Some(c)
  {
    TextIs(c);
    assert Pow10(2) == 100 && Pow10(4) == 10_000;
    var t6 := Pad(c.second, 2) + Tail(c.nanos);
    var t5 := Pad(c.minute, 2) + (":" + t6);
    var t4 := Pad(c.hour, 2) + (":" + t5);
    var t3 := Pad(c.day, 2) + ("T" + t4);
    var t2 := Pad(c.month, 2) + ("-" + t3);
    FieldOf(c.year, 4, "-", t2);
    FieldOf(c.month, 2, "-", t3);
    FieldOf(c.day, 2, "T", t4);
    FieldOf(c.hour, 2, ":", t5);
    FieldOf(c.minute, 2, ":", t6);
    FieldOf(c.second, 2, "", Tail(c.nanos));
    assert "" + Tail(c.nanos) == Tail(c.nanos);
    TailReadsBack(c.nanos);
  }

  /** Every time of the years 0000 to 9999, to the nanosecond, is read back as it was stored. */
  lemma StoredTimeReadsBack(t: nat)
    requires InRange(t)
    ensures ParseTime(FormatTime(t)) == t
  {
    if t != ZERO_TIME {
      CivilIsValid(t);
      TextReadsBack(CivilOf(t));
    }
  }

  lemma FieldAt(n: nat, width: nat, sep: string, rest: string)
    ensures var s := Pad(n, width) + (sep + rest);
            s[..width] == Pad(n, width) && s[width..width + |sep|] == sep && s[width + |sep|..] == rest
  {
  }

  lemma Within(s: string, at: nat, t: string, n: nat)
    requires at <= |s| && s[at..] == t && n <= |t|
    ensures s[at..at + n] == t[..n] && s[at + n..] == t[n..]
  {
  }

  /** A field and its separator, found at an offset of the whole text. */
  lemma FieldWithin(s: string, at: nat, n: nat, width: nat, sep: string, rest: string)
    requires at <= |s| && s[at..] == Pad(n, width) + (sep + rest)
    ensures at + width + |sep| <= |s| && s[at..at + width] == Pad(n, width)
    ensures s[at + width..at + width + |sep|] == sep && s[at + width + |sep|..] == rest
  {
    FieldAt(n, width, sep, rest);
    Within(s, at, Pad(n, width) + (sep + rest), width);
    Within(s, at + width, sep + rest, |sep|);
  }

  lemma DateFields(s: string, c: Civil, clock: string)
    requires s == Pad(c.year, 4) + ("-" + (Pad(c.month, 2) + ("-" + (Pad(c.day, 2) + ("T" + clock)))))
    ensures |s| >= 11 && s[..4] == Pad(c.year, 4) && s[4..5] == "-" && s[5..7] == Pad(c.month, 2)
    ensures s[7..8] == "-" && s[8..10] == Pad(c.day, 2) && s[10..11] == "T" && s[11..] == clock
  {
    assert s[0..] == s;
    FieldWithin(s, 0, c.year, 4, "-", Pad(c.month, 2) + ("-" + (Pad(c.day, 2) + ("T" + clock))));
    FieldWithin(s, 5, c.month, 2, "-", Pad(c.day, 2) + ("T" + clock));
    FieldWithin(s, 8, c.day, 2, "T", clock);
  }

  lemma ClockFields(s: string, c: Civil, tail: string)
    requires s == Pad(c.hour, 2) + (":" + (Pad(c.minute, 2) + (":" + (Pad(c.second, 2) + tail))))
    ensures |s| >= 8 && s[..2] == Pad(c.hour, 2) && s[2..3] == ":" && s[3..5] == Pad(c.minute, 2) && s[5..6] == ":"
    ensures s[6..8] == Pad(c.second, 2) && s[8..] == tail
  {
    assert s[0..] == s;
    FieldWithin(s, 0, c.hour, 2, ":", Pad(c.minute, 2) + (":" + (Pad(c.second, 2) + tail)));
    FieldWithin(s, 3, c.minute, 2, ":", Pad(c.second, 2) + tail);
    Within(s, 6, Pad(c.second, 2) + tail, 2);
  }

  /** Where the fields stand in the text, what stands between them, and what comes at the end. */
  lemma TextFields(c: Civil)
    ensures var s := Text(c);
            && |s| >= 19 && s[..4] == Pad(c.year, 4) && s[4..5] == "-" && s[5..7] == Pad(c.month, 2)
            && s[7..8] == "-" && s[8..10] == Pad(c.day, 2) && s[10..11] == "T"
            && var t := s[11..];
            && t[..2] == Pad(c.hour, 2) && t[2..3] == ":" && t[3..5] == Pad(c.minute, 2) && t[5..6] == ":"
            && t[6..8] == Pad(c.second, 2)
            && t[8..] == if c.nanos == 0 then "Z" else "." + (Fraction(c.nanos) + "Z")
  {
    TextIs(c);
    var clock := Pad(c.hour, 2) + (":" + (Pad(c.minute, 2) + (":" + (Pad(c.second, 2) + Tail(c.nanos)))));
    DateFields(Text(c), c, clock);
    ClockFields(clock, c, Tail(c.nanos));
  }

  /** The digits of a fraction are the nine digits without the zeros at the end. */
  lemma FractionDigits(nanos: nat)
    requires 0 < nanos < SECOND
    ensures var f := Fraction(nanos);
            && 1 <= |f| <= 9 && f == Pad(nanos, 9)[..|f|] && f[|f| - 1] != '0'
            && forall i | |f| <= i < 9 :: Pad(nanos, 9)[i] == '0'
  {
    FractionFills(nanos);
    TrimAt(Pad(nanos, 9));
    TrimmedEnd(Pad(nanos, 9));
  }

  lemma {:induction false} TrimmedEnd(s: string)
    ensures var r := TrimZeros(s); r != "" ==> r[|r| - 1] != '0'
  {
    if s != "" {
      TrimmedEnd(s[1..]);
    }
  }

  /** The digits are those of the decimal system, from '0' on, the last of them the units. */
  lemma PadDigits(n: nat, width: nat)
    requires width > 0
    ensures var s := Pad(n, width);
            s[width - 1] == "0123456789"[n % 10] && s[..width - 1] == Pad(n / 10, width - 1)
  {
  }

  /** The range is that of the years with four digits. */
  lemma InRangeIff(t: nat)
    ensures InRange(t) <==> CivilOf(t).year <= 9999
  {
    var days := t / SECOND / DAY;
    var (year, inYear) := YearFrom(0, days);
    YearFound(0, days);
    if year <= 9999 {
      YearsInOrder(year, 10_000);
      YearsByCount(10_000);
    } else {
      YearsInOrder(10_000, year);
      YearsByCount(10_000);
    }
    assert t < ALL_DAYS * DAY * SECOND <==> days < ALL_DAYS;
  }

  /** Go's zero time is the first instant of year 1, and is stored as the empty text. */
  lemma ZeroTimeIs()
    ensures CivilOf(ZERO_TIME) == Civil(1, 1, 1, 0, 0, 0, 0) && FormatTime(ZERO_TIME) == ""
  {
    assert ZERO_TIME / SECOND == 366 * DAY;
    assert YearFrom(0, 366) == (1, 0);
  }

  /** Within a second the trimmed tails compare like the nanoseconds, unless the earlier one's digits begin
      the later one's. */
  lemma TailOrder(m: nat, n: nat)
    requires m < n < SECOND
    ensures TextLess(Tail(m), Tail(n)) == !(Fraction(m) <= Fraction(n))
  {
    FractionFills(m);
    if m > 0 {
      assert SECOND == Pow10(9);
      PadOrder(m, n, 9);
      TrimOrder(Pad(m, 9), Pad(n, 9));
      SamePrefix(".", Fraction(m) + "Z", Fraction(n) + "Z");
    }
  }

  /** Dates and clock times as text compare like the seconds they count. */
  lemma TextOrder(a: Civil, b: Civil)
    requires a.Valid() && b.Valid() && a.Seconds() <= b.Seconds()
    ensures TextLess(Text(a), Text(b)) == (a.Seconds() < b.Seconds() || TextLess(Tail(a.nanos), Tail(b.nanos)))
  {
    TextIs(a);
    TextIs(b);
    assert Pow10(2) == 100 && Pow10(4) == 10_000;
    var a6, b6 := Pad(a.second, 2) + Tail(a.nanos), Pad(b.second, 2) + Tail(b.nanos);
    var a5, b5 := Pad(a.minute, 2) + (":" + a6), Pad(b.minute, 2) + (":" + b6);
    var a4, b4 := Pad(a.hour, 2) + (":" + a5), Pad(b.hour, 2) + (":" + b5);
    var a3, b3 := Pad(a.day, 2) + ("T" + a4), Pad(b.day, 2) + ("T" + b4);
    var a2, b2 := Pad(a.month, 2) + ("-" + a3), Pad(b.month, 2) + ("-" + b3);
    FieldOrder(a.year, b.year, 4, "-" + a2, "-" + b2);
    FieldOrder(a.month, b.month, 2, "-" + a3, "-" + b3);
    FieldOrder(a.day, b.day, 2, "T" + a4, "T" + b4);
    FieldOrder(a.hour, b.hour, 2, ":" + a5, ":" + b5);
    FieldOrder(a.minute, b.minute, 2, ":" + a6, ":" + b6);
    FieldOrder(a.second, b.second, 2, Tail(a.nanos), Tail(b.nanos));
    SamePrefix("-", a2, b2);
    SamePrefix("-", a3, b3);
    SamePrefix("T", a4, b4);
    SamePrefix(":", a5, b5);
    SamePrefix(":", a6, b6);
    SecondsInOrder(a, b);
  }

  ghost predicate FieldsLess(a: Civil, b: Civil) {
    a.year < b.year || (a.year == b.year && (a.month < b.month || (a.month == b.month &&
    (a.day < b.day || (a.day == b.day && (a.hour < b.hour || (a.hour == b.hour &&
    (a.minute < b.minute || (a.minute == b.minute && a.second < b.second)))))))))
  }

  lemma SecondsInOrder(a: Civil, b: Civil)
    requires a.Valid() && b.Valid()
    ensures FieldsLess(a, b) ==> a.Seconds() < b.Seconds()
    ensures !FieldsLess(a, b) && !FieldsLess(b, a) ==> a == b.(nanos := a.nanos)
    ensures FieldsLess(b, a) ==> b.Seconds() < a.Seconds()
  {
    var same := a.year == b.year && a.month == b.month && a.day == b.day;
    if FieldsLess(a, b) && !same {
      DaysInOrder(a, b);
    }
    if FieldsLess(b, a) && !same {
      DaysInOrder(b, a);
    }
  }

  /** Text order agrees with time order exactly when the whole seconds differ, or the digits of the earlier
      fraction do not begin the later one: a trimmed fraction sorts after its own extensions. */
  lemma TextOrderIff(s: nat, t: nat)
    requires InRange(s) && InRange(t) && s < t && s != ZERO_TIME && t != ZERO_TIME
    ensures TextLess(FormatTime(s), FormatTime(t))
      <==> s / SECOND < t / SECOND || !(Fraction(s % SECOND) <= Fraction(t % SECOND))
    ensures TextLess(FormatTime(s), FormatTime(t)) != TextLess(FormatTime(t), FormatTime(s))
  {
    var a, b := CivilOf(s), CivilOf(t);
    CivilIsValid(s);
    CivilIsValid(t);
    TextOrder(a, b);
    if s / SECOND == t / SECOND {
      TailOrder(s % SECOND, t % SECOND);
    }
    StoredTimeReadsBack(s);
    StoredTimeReadsBack(t);
    OneIsLess(FormatTime(s), FormatTime(t));
  }

  /** A whole second, written without a fraction, sorts after every later time within that second. */
  lemma WholeSecondSortsLast(s: nat, t: nat)
    requires InRange(t) && s < t && s != ZERO_TIME && t != ZERO_TIME
    requires s / SECOND == t / SECOND && s % SECOND == 0
    ensures TextLess(FormatTime(t), FormatTime(s))
  {
    FractionFills(0);
    TextOrderIff(s, t);
  }

  /** A retry time found due by the textual comparison is at most one second away. */
  lemma DueWithinASecond(retry: nat, now: nat)
    requires InRange(retry) && InRange(now) && retry != ZERO_TIME && now != ZERO_TIME
    requires TextAtMost(FormatTime(retry), FormatTime(now))
    ensures retry < now + SECOND
  {
    if retry > now {
      TextOrderIff(now, retry);
    }
  }
}
