/** Timestamps as text. Every lease and liveness comparison of the orchestrator compares the ISO strings
    of UTC datetimes; this module shows that the text order is the order of the instants, although the
    fraction is left out when the microseconds are zero. */
module IsoTime {

  /** The calendar fields of a UTC datetime. */
  datatype Civil = Civil(year: int, month: int, day: int, hour: int, minute: int, second: int, micro: int)

  predicate IsLeap(y: int) {
    y % 4 == 0 && (y % 100 != 0 || y % 400 == 0)
  }

  function DaysInMonth(y: int, m: int): int {
    if m == 2 then (if IsLeap(y) then 29 else 28)
    else if m == 4 || m == 6 || m == 9 || m == 11 then 30
    else 31
  }

  predicate Valid(c: Civil) {
    && 1 <= c.year <= 9999 && 1 <= c.month <= 12 && 1 <= c.day <= DaysInMonth(c.year, c.month)
    && 0 <= c.hour < 24 && 0 <= c.minute < 60 && 0 <= c.second < 60 && 0 <= c.micro < 1_000_000
  }

  // ---------------------------------------------------------------- instants

  function DaysBeforeYear(y: int): int {
    (y - 1) * 365 + (y - 1) / 4 - (y - 1) / 100 + (y - 1) / 400
  }

  function DaysBeforeMonth(y: int, m: nat): int {
    if m <= 1 then 0 else DaysBeforeMonth(y, m - 1) + DaysInMonth(y, m - 1)
  }

  /** The proleptic Gregorian day number; 1 January of year 1 is day 1. */
  function Ordinal(c: Civil): int
    requires 1 <= c.month
  {
    DaysBeforeYear(c.year) + DaysBeforeMonth(c.year, c.month) + c.day
  }

  function SecondOfDay(c: Civil): int {
    (c.hour * 60 + c.minute) * 60 + c.second
  }

  /** Microseconds on one time line. */
  function Instant(c: Civil): int
    requires 1 <= c.month
  {
    (Ordinal(c) * 86_400 + SecondOfDay(c)) * 1_000_000 + c.micro
  }

  lemma YearLength(y: int)
    requires y >= 1
    ensures DaysBeforeYear(y + 1) == DaysBeforeYear(y) + if IsLeap(y) then 366 else 365
  {
    QuotientStep(y, 4);
    QuotientStep(y, 100);
    QuotientStep(y, 400);
    LeapSteps(y);
  }

  lemma QuotientStep(y: int, k: int)
    requires y >= 1 && k > 1
    ensures y / k == (y - 1) / k + if y % k == 0 then 1 else 0
  {
    var q, r := (y - 1) / k, (y - 1) % k;
    assert y - 1 == q * k + r;
    if r == k - 1 {
      assert y == (q + 1) * k + 0;
      QuotientUnique(y, k, q + 1, 0);
    } else {
      QuotientUnique(y, k, q, r + 1);
    }
  }

  lemma QuotientUnique(y: int, k: int, q: int, r: int)
    requires k > 1 && 0 <= r < k && y == q * k + r
    ensures y / k == q && y % k == r
  {
    var d := y / k - q;
    assert d * k == r - y % k;
    assert d >= 1 ==> d * k >= k;
    assert d <= -1 ==> d * k <= -k;
  }

  lemma LeapSteps(y: int)
    requires y >= 1
    ensures y % 400 == 0 ==> y % 100 == 0
    ensures y % 100 == 0 ==> y % 4 == 0
  {
    Divides(y, 100, 4);
    Divides(y, 4, 25);
  }

  lemma Divides(y: int, k: int, m: int)
    requires k > 1 && m > 0
    ensures y % (k * m) == 0 ==> y % k == 0
  {
    if y % (k * m) == 0 {
      var q := y / (k * m);
      assert y == (m * q) * k;
      QuotientUnique(y, k, m * q, 0);
    }
  }

  lemma {:induction false} YearsAccumulate(y: int, z: int)
    requires 1 <= y < z
    ensures DaysBeforeYear(y) + 365 + (if IsLeap(y) then 1 else 0) <= DaysBeforeYear(z)
    decreases z
  {
    YearLength(z - 1);
    if y < z - 1 {
      YearsAccumulate(y, z - 1);
    }
  }

  lemma {:induction false} MonthsAccumulate(y: int, m: nat, n: nat)
    requires 1 <= m < n <= 13
    ensures DaysBeforeMonth(y, m) + DaysInMonth(y, m) <= DaysBeforeMonth(y, n)
    decreases n
  {
    if m < n - 1 {
      MonthsAccumulate(y, m, n - 1);
    }
  }

  lemma YearIsTwelveMonths(y: int)
    ensures DaysBeforeMonth(y, 13) == 365 + if IsLeap(y) then 1 else 0
  {
    var feb := DaysInMonth(y, 2);
    assert DaysBeforeMonth(y, 1) == 0 && DaysBeforeMonth(y, 2) == 31;
    assert DaysBeforeMonth(y, 3) == 31 + feb;
    assert DaysBeforeMonth(y, 4) == 62 + feb;
    assert DaysBeforeMonth(y, 5) == 92 + feb;
    assert DaysBeforeMonth(y, 6) == 123 + feb;
    assert DaysBeforeMonth(y, 7) == 153 + feb;
    assert DaysBeforeMonth(y, 8) == 184 + feb;
    assert DaysBeforeMonth(y, 9) == 215 + feb;
    assert DaysBeforeMonth(y, 10) == 245 + feb;
    assert DaysBeforeMonth(y, 11) == 276 + feb;
    assert DaysBeforeMonth(y, 12) == 306 + feb;
  }

  predicate DateLess(a: Civil, b: Civil) {
    a.year < b.year || (a.year == b.year && (a.month < b.month || (a.month == b.month && a.day < b.day)))
  }

  lemma LaterDateLargerOrdinal(a: Civil, b: Civil)
    requires Valid(a) && Valid(b) && DateLess(a, b)
    ensures Ordinal(a) < Ordinal(b)
  {
    if a.year < b.year {
      YearsAccumulate(a.year, b.year);
      YearIsTwelveMonths(a.year);
      MonthsAccumulate(a.year, a.month, 13);
      DaysBeforeMonthNonNegative(b.year, b.month);
    } else if a.month < b.month {
      MonthsAccumulate(a.year, a.month, b.month);
    }
  }

  lemma {:induction false} DaysBeforeMonthNonNegative(y: int, m: nat)
    ensures 0 <= DaysBeforeMonth(y, m)
  {
    if m > 1 {
      DaysBeforeMonthNonNegative(y, m - 1);
    }
  }

  /** The day after: in the same month, or the first of the next month or year. */
  predicate NextDay(a: Civil, b: Civil) {
    || (b.year == a.year && b.month == a.month && b.day == a.day + 1)
    || (b.year == a.year && b.month == a.month + 1 && b.day == 1 && a.day == DaysInMonth(a.year, a.month))
    || (b.year == a.year + 1 && a.month == 12 && a.day == 31 && b.month == b.day == 1)
  }

  /** Day numbers count the days one by one from 1 January of year 1. */
  lemma OrdinalsCountDays(a: Civil, b: Civil)
    requires Valid(a) && Valid(b) && NextDay(a, b)
    ensures Ordinal(b) == Ordinal(a) + 1
    ensures a.year == a.month == a.day == 1 ==> Ordinal(a) == 1
  {
    if b.year == a.year + 1 {
      YearLength(a.year);
      YearIsTwelveMonths(a.year);
      assert DaysBeforeMonth(b.year, 1) == 0;
    } else if b.month == a.month + 1 {
      assert DaysBeforeMonth(a.year, b.month) == DaysBeforeMonth(a.year, a.month) + DaysInMonth(a.year, a.month);
    }
  }

  /** 400 years of the calendar have 146,097 days. */
  lemma FourCenturies(y: int)
    ensures DaysBeforeYear(y + 400) == DaysBeforeYear(y) + 146_097
  {
    QuotientShift(y - 1, 4, 100);
    QuotientShift(y - 1, 100, 4);
    QuotientShift(y - 1, 400, 1);
  }

  lemma QuotientShift(y: int, k: int, m: int)
    requires k > 1
    ensures (y + k * m) / k == y / k + m
  {
    var q, r := y / k, y % k;
    assert y + k * m == (q + m) * k + r;
    QuotientUnique(y + k * m, k, q + m, r);
  }

  /** Field by field, most significant first. */
  predicate FieldLess(a: Civil, b: Civil) {
    DateLess(a, b)
    || (a.year == b.year && a.month == b.month && a.day == b.day
        && (a.hour < b.hour || (a.hour == b.hour
        && (a.minute < b.minute || (a.minute == b.minute
        && (a.second < b.second || (a.second == b.second && a.micro < b.micro)))))))
  }

  lemma FieldLessIsEarlier(a: Civil, b: Civil)
    requires Valid(a) && Valid(b) && FieldLess(a, b)
    ensures Instant(a) < Instant(b)
  {
    assert 0 <= SecondOfDay(a) < 86_400 && 0 <= SecondOfDay(b) < 86_400;
    if DateLess(a, b) {
      LaterDateLargerOrdinal(a, b);
    } else {
      assert Ordinal(a) == Ordinal(b);
    }
  }

  // ---------------------------------------------------------------- text

  /** The order of SQLite's TEXT comparison on these ASCII strings. */
  predicate TextLess(s: string, t: string) {
    if t == [] then false
    else if s == [] then true
    else s[0] < t[0] || (s[0] == t[0] && TextLess(s[1..], t[1..]))
  }

  function Digit(d: int): char
    requires 0 <= d < 10
  {
    '0' + d as char
  }

  function Pow10(w: nat): nat {
    if w == 0 then 1 else 10 * Pow10(w - 1)
  }

  /** `n` with leading zeros to width `w`. */
  function Pad(n: int, w: nat): (s: string)
    requires 0 <= n < Pow10(w)
    ensures |s| == w
  {
    if w == 0 then "" else Pad(n / 10, w - 1) + [Digit(n % 10)]
  }

  /** `datetime.isoformat()` with UTC as its zone. */
  function Iso(c: Civil): string
    requires Valid(c)
  {
    assert Pow10(2) == 100 && Pow10(4) == 10_000 && Pow10(6) == 1_000_000;
    Pad(c.year, 4) + ("-" + (Pad(c.month, 2) + ("-" + (Pad(c.day, 2) + ("T" + (Pad(c.hour, 2) + (":"
    + (Pad(c.minute, 2) + (":" + (Pad(c.second, 2) + Zone(c.micro)))))))))))
  }

  /** The fraction, if any, and the zone. */
  function Zone(micro: int): string
    requires 0 <= micro < 1_000_000
  {
    assert Pow10(6) == 1_000_000;
    (if micro == 0 then "" else "." + Pad(micro, 6)) + "+00:00"
  }

  /** Strings of equal length decide first; what follows them decides ties. */
  lemma {:induction false} TextLessConcat(p: string, q: string, x: string, y: string)
    requires |p| == |q|
    ensures TextLess(p + x, q + y) <==> TextLess(p, q) || (p == q && TextLess(x, y))
    ensures p + x == q + y <==> p == q && x == y
  {
    if p == [] {
      assert p + x == x && q + y == y;
    } else {
      TextLessConcat(p[1..], q[1..], x, y);
      assert (p + x)[1..] == p[1..] + x && (q + y)[1..] == q[1..] + y;
      assert p == [p[0]] + p[1..] && q == [q[0]] + q[1..];
      if p + x == q + y {
        assert (p + x)[0] == (q + y)[0];
      }
    }
  }

  lemma {:induction false} PadOrder(m: int, n: int, w: nat)
    requires 0 <= m < Pow10(w) && 0 <= n < Pow10(w)
    ensures TextLess(Pad(m, w), Pad(n, w)) <==> m < n
    ensures Pad(m, w) == Pad(n, w) <==> m == n
  {
    if w > 0 {
      PadOrder(m / 10, n / 10, w - 1);
      TextLessConcat(Pad(m / 10, w - 1), Pad(n / 10, w - 1), [Digit(m % 10)], [Digit(n % 10)]);
      assert TextLess([Digit(m % 10)], [Digit(n % 10)]) <==> m % 10 < n % 10;
    }
  }

  /** One padded field and a separator, then the rest. */
  lemma FieldOrder(m: int, n: int, w: nat, sep: string, x: string, y: string)
    requires 0 <= m < Pow10(w) && 0 <= n < Pow10(w)
    ensures TextLess(Pad(m, w) + (sep + x), Pad(n, w) + (sep + y)) <==> m < n || (m == n && TextLess(x, y))
    ensures Pad(m, w) + (sep + x) == Pad(n, w) + (sep + y) <==> m == n && x == y
  {
    PadOrder(m, n, w);
    TextLessConcat(Pad(m, w), Pad(n, w), sep + x, sep + y);
    TextLessConcat(sep, sep, x, y);
    Irreflexive(sep);
  }

  lemma {:induction false} Irreflexive(s: string)
    ensures !TextLess(s, s)
  {
    if s != [] {
      Irreflexive(s[1..]);
    }
  }

  /** '+' sorts before '.': a whole second precedes every fraction of it. */
  lemma ZoneOrder(m: int, n: int)
    requires 0 <= m < 1_000_000 && 0 <= n < 1_000_000
    ensures TextLess(Zone(m), Zone(n)) <==> m < n
    ensures Zone(m) == Zone(n) <==> m == n
  {
    assert Pow10(6) == 1_000_000;
    if m == 0 || n == 0 {
      assert m == 0 ==> Zone(m) == "+00:00";
      assert n == 0 ==> Zone(n) == "+00:00";
      assert m > 0 ==> Zone(m)[0] == '.';
      assert n > 0 ==> Zone(n)[0] == '.';
      Irreflexive("+00:00");
    } else {
      PadOrder(m, n, 6);
      TextLessConcat(".", ".", Pad(m, 6), Pad(n, 6));
      Irreflexive(".");
      TextLessConcat("." + Pad(m, 6), "." + Pad(n, 6), "+00:00", "+00:00");
      Irreflexive("+00:00");
    }
  }

  /** The text after the date, and after the hour. */
  function Clock(c: Civil): string
    requires Valid(c)
  {
    assert Pow10(2) == 100;
    Pad(c.hour, 2) + (":" + (Pad(c.minute, 2) + (":" + (Pad(c.second, 2) + Zone(c.micro)))))
  }

  predicate ClockLess(a: Civil, b: Civil) {
    a.hour < b.hour || (a.hour == b.hour
    && (a.minute < b.minute || (a.minute == b.minute
    && (a.second < b.second || (a.second == b.second && a.micro < b.micro)))))
  }

  predicate SameClock(a: Civil, b: Civil) {
    a.hour == b.hour && a.minute == b.minute && a.second == b.second && a.micro == b.micro
  }

  lemma ClockOrder(a: Civil, b: Civil)
    requires Valid(a) && Valid(b)
    ensures TextLess(Clock(a), Clock(b)) <==> ClockLess(a, b)
    ensures Clock(a) == Clock(b) <==> SameClock(a, b)
  {
    assert Pow10(2) == 100;
    ZoneOrder(a.micro, b.micro);
    PadOrder(a.second, b.second, 2);
    TextLessConcat(Pad(a.second, 2), Pad(b.second, 2), Zone(a.micro), Zone(b.micro));
    var x, y := Pad(a.second, 2) + Zone(a.micro), Pad(b.second, 2) + Zone(b.micro);
    FieldOrder(a.minute, b.minute, 2, ":", x, y);
    FieldOrder(a.hour, b.hour, 2, ":", Pad(a.minute, 2) + (":" + x), Pad(b.minute, 2) + (":" + y));
  }

  lemma IsoOrder(a: Civil, b: Civil)
    requires Valid(a) && Valid(b)
    ensures TextLess(Iso(a), Iso(b)) <==> FieldLess(a, b)
    ensures Iso(a) == Iso(b) <==> a == b
  {
    assert Pow10(2) == 100 && Pow10(4) == 10_000;
    ClockOrder(a, b);
    FieldOrder(a.day, b.day, 2, "T", Clock(a), Clock(b));
    var x, y := Pad(a.day, 2) + ("T" + Clock(a)), Pad(b.day, 2) + ("T" + Clock(b));
    FieldOrder(a.month, b.month, 2, "-", x, y);
    FieldOrder(a.year, b.year, 4, "-", Pad(a.month, 2) + ("-" + x), Pad(b.month, 2) + ("-" + y));
  }

  /** Comparing the stored strings is comparing the instants, for all four-digit years. */
  lemma TextOrderIsTimeOrder(a: Civil, b: Civil)
    requires Valid(a) && Valid(b)
    ensures TextLess(Iso(a), Iso(b)) <==> Instant(a) < Instant(b)
    ensures Iso(a) == Iso(b) <==> Instant(a) == Instant(b)
  {
    IsoOrder(a, b);
    if FieldLess(a, b) {
      FieldLessIsEarlier(a, b);
    } else if FieldLess(b, a) {
      FieldLessIsEarlier(b, a);
    } else {
      assert a == b;
    }
  }
}
