/**
 The UTC day and month windows of src/ledger/transaction-limit.service.ts.
 A time is a number of milliseconds since 1970-01-01T00:00:00Z.
 */
module Calendar {

  const DAY: nat := 86_400_000

  predicate LeapYear(year: nat) {
    year % 4 == 0 && (year % 100 != 0 || year % 400 == 0)
  }

  /** Length of the month that is `k` months after January 1970. */
  function DaysInMonth(k: nat): (days: nat)
    ensures 28 <= days <= 31
  {
    var month := k % 12;
    if month == 1 then (if LeapYear(1970 + k / 12) then 29 else 28)
    else if month == 3 || month == 5 || month == 8 || month == 10 then 30
    else 31
  }

  /** The first instant of the month that is `k` months after January 1970. */
  function MonthStart(k: nat): nat {
    if k == 0 then 0 else MonthStart(k - 1) + DaysInMonth(k - 1) * DAY
  }

  /** The last month from `k` on that starts no later than `t`. */
  function MonthOf(t: nat, k: nat): (m: nat)
    requires MonthStart(k) <= t
    ensures k <= m
    ensures MonthStart(m) <= t < MonthStart(m + 1)
    decreases t - MonthStart(k)
  {
    if t < MonthStart(k + 1) then k else MonthOf(t, k + 1)
  }

  datatype Window = Day | Month

  /** startOfDay() and startOfMonth(), read at time `now`. */
  function StartOf(window: Window, now: nat): (start: nat)
    ensures start <= now
  {
    match window
    case Day => now / DAY * DAY
    case Month => MonthStart(MonthOf(now, 0))
  }

  // ---- The calendar ----------------------------------------------------------

  /** The number of the first day of a year (DayFromYear of section 21.4.1.6 of ECMA-262). */
  function DayFromYear(year: int): int {
    365 * (year - 1970) + (year - 1969) / 4 - (year - 1901) / 100 + (year - 1601) / 400
  }

  /** Days from the first day of a year to the first day of each of its months; 12 is the January after. */
  function DaysBefore(month: nat, leap: bool): nat
    requires month <= 12
  {
    [0, 31, 59, 90, 120, 151, 181, 212, 243, 273, 304, 334, 365][month] + (if leap && month >= 2 then 1 else 0)
  }

  /** Midnight UTC at the start of a month of a year. */
  function Midnight(year: nat, month: nat): int
    requires month <= 12
  {
    (DayFromYear(year) + DaysBefore(month, DayFromYear(year + 1) - DayFromYear(year) == 366)) * 86_400_000
  }

  lemma Quotient(n: int, q: int, r: int, d: int)
    requires 0 <= r < d && n == q * d + r
    ensures n / d == q && n % d == r
  {
    var e := n / d - q;
    assert n == (n / d) * d + n % d;
    assert e * d == r - n % d;
    if e != 0 {
      AtLeastOnce(if e > 0 then e else -e, d);
    }
  }

  lemma AtLeastOnce(e: int, d: int)
    requires e >= 1 && d > 0
    ensures e * d >= d
  {
    assert (e - 1) * d >= 0;
  }

  /** Stepping up to a multiple of d, and only that, counts one more; `year` and the count differ by a multiple. */
  lemma Crossing(year: nat, base: nat, d: nat)
    requires d > 0 && base % d == 0 && year >= base
    ensures (year - base) / d - (year - base - 1) / d == if year % d == 0 then 1 else 0
  {
    var q, r := year / d, year % d;
    var b := base / d;
    assert year == q * d + r && base == b * d;
    assert year - base == (q - b) * d + r;
    Quotient(year - base, q - b, r, d);
    if r == 0 {
      assert year - base - 1 == (q - b - 1) * d + (d - 1);
      Quotient(year - base - 1, q - b - 1, d - 1, d);
    } else {
      Quotient(year - base - 1, q - b, r - 1, d);
    }
  }

  lemma LeapDays(year: nat)
    requires year >= 1970
    ensures DayFromYear(year + 1) - DayFromYear(year) == if LeapYear(year) then 366 else 365
  {
    Crossing(year, 1968, 4);
    Crossing(year, 1900, 100);
    Crossing(year, 1600, 400);
    DivisorsNest(year);
  }

  lemma DivisorsNest(year: nat)
    ensures year % 400 == 0 ==> year % 100 == 0
    ensures year % 100 == 0 ==> year % 4 == 0
  {
    if year % 400 == 0 {
      Quotient(year, year / 400 * 4, 0, 100);
    }
    if year % 100 == 0 {
      Quotient(year, year / 100 * 25, 0, 4);
    }
  }

  lemma MonthLength(n: nat, month: nat)
    requires month < 12
    ensures DaysInMonth(12 * n + month)
         == DaysBefore(month + 1, LeapYear(1970 + n)) - DaysBefore(month, LeapYear(1970 + n))
  {
    hide LeapYear;
    Quotient(12 * n + month, n, month, 12);
  }

  /** The months counted one by one start when the calendar says. */
  lemma {:induction false} MonthsAreCivil(n: nat, month: nat)
    requires month <= 12
    ensures MonthStart(12 * n + month) == Midnight(1970 + n, month)
    decreases n, month
  {
    hide LeapYear, DaysInMonth, DayFromYear, DaysBefore;
    LeapDays(1970 + n);
    if month > 0 {
      MonthsAreCivil(n, month - 1);
      MonthLength(n, month - 1);
    } else {
      YearTurns(n);
      if n > 0 {
        MonthsAreCivil(n - 1, 12);
      }
    }
  }

  /** The thirteenth month of a year is the first of the next. */
  lemma YearTurns(n: nat)
    ensures Midnight(1970, 0) == 0
    ensures n > 0 ==> Midnight(1970 + n - 1, 12) == Midnight(1970 + n, 0)
  {
    if n > 0 {
      LeapDays(1970 + n - 1);
    }
  }

  /** The midnight at the start of the day, or of the month, of an instant. */
  ghost predicate Starts(window: Window, from: int, now: int) {
    match window
    case Day => from % 86_400_000 == 0 && from <= now < from + 86_400_000
    case Month => exists year: nat, month: nat :: StartsMonth(year, month, from, now)
  }

  predicate StartsMonth(year: nat, month: nat, from: int, now: int) {
    year >= 1970 && month < 12 && from == Midnight(year, month) && from <= now < Midnight(year, month + 1)
  }

  /** The window of an instant starts at that midnight and at no other time. */
  lemma WindowStartsIff(window: Window, from: int, now: nat)
    ensures Starts(window, from, now) <==> from == StartOf(window, now)
  {
    match window
    case Day => DayStartsIff(from, now);
    case Month => MonthStartsIff(from, now);
  }

  lemma DayStartsIff(from: int, now: nat)
    ensures Starts(Day, from, now) <==> from == StartOf(Day, now)
  {
    if Starts(Day, from, now) {
      Quotient(now, from / 86_400_000, now - from, 86_400_000);
    }
  }

  lemma MonthStartsIff(from: int, now: nat)
    ensures Starts(Month, from, now) <==> from == StartOf(Month, now)
  {
    hide Midnight;
    var m := MonthOf(now, 0);
    var n := m / 12;
    assert m == 12 * n + m % 12;
    MonthsAreCivil(n, m % 12);
    MonthsAreCivil(n, m % 12 + 1);
    assert StartsMonth(1970 + n, m % 12, MonthStart(m), now);
    if Starts(Month, from, now) {
      var year: nat, month: nat :| StartsMonth(year, month, from, now);
      OneMonth(year - 1970, month, from, now, m);
    }
  }

  lemma OneMonth(n: nat, month: nat, from: int, now: nat, m: nat)
    requires StartsMonth(1970 + n, month, from, now) && MonthStart(m) <= now < MonthStart(m + 1)
    ensures from == MonthStart(m)
  {
    hide MonthStart, Midnight;
    var k := 12 * n + month;
    MonthsAreCivil(n, month);
    MonthsAreCivil(n, month + 1);
    if k < m {
      MonthStartsAscend(k + 1, m);
    } else if m < k {
      MonthStartsAscend(m + 1, k);
    }
  }

  lemma {:induction false} MonthStartsAscend(j: nat, k: nat)
    requires j <= k
    ensures MonthStart(j) <= MonthStart(k)
  {
    if j < k {
      MonthStartsAscend(j, k - 1);
    }
  }

  /** As the clock goes forward a window only moves forward. */
  lemma WindowsMoveForward(window: Window, earlier: nat, later: nat)
    requires earlier <= later
    ensures StartOf(window, earlier) <= StartOf(window, later)
  {
    match window
    case Day =>
      assert earlier / DAY <= later / DAY;
    case Month =>
      var j, k := MonthOf(earlier, 0), MonthOf(later, 0);
      if j > k {
        MonthStartsAscend(k + 1, j);
        assert false;
      }
      MonthStartsAscend(j, k);
  }
}
