/** The proleptic Gregorian calendar, as far as the telemetry windows need it: days count from 1970-01-01, and a month
  * is numbered 12 * year + (month - 1), so that month arithmetic is integer arithmetic. */
module Calendar {

  const EPOCH: int := 12 * 1970

  predicate IsLeap(year: int) {
    year % 4 == 0 && (year % 100 != 0 || year % 400 == 0)
  }

  function MonthLength(k: int): (days: int)
    ensures 28 <= days <= 31
  {
    if k % 12 == 1 then (if IsLeap(k / 12) then 29 else 28)
    else if k % 12 in {3, 5, 8, 10} then 30
    else 31
  }

  /** The day number of the first day of month k. */
  function MonthStart(k: int): int
    decreases if k < EPOCH then EPOCH - k else k - EPOCH
  {
    if k == EPOCH then 0
    else if k > EPOCH then MonthStart(k - 1) + MonthLength(k - 1)
    else MonthStart(k + 1) - MonthLength(k)
  }

  lemma MonthStep(k: int)
    ensures MonthStart(k + 1) == MonthStart(k) + MonthLength(k)
  {
  }

  lemma {:induction false} MonthStartMonotone(a: int, b: int)
    requires a <= b
    ensures MonthStart(b) >= MonthStart(a) + 28 * (b - a)
    decreases b - a
  {
    if a == b {
    } else {
      MonthStartMonotone(a, b - 1);
      MonthStep(b - 1);
    }
  }

  function SeekUp(day: int, k: int): (m: int)
    requires MonthStart(k) <= day
    ensures MonthStart(m) <= day < MonthStart(m + 1)
    decreases day - MonthStart(k)
  {
    MonthStep(k);
    if day < MonthStart(k + 1) then k else SeekUp(day, k + 1)
  }

  function SeekDown(day: int, k: int): (m: int)
    requires day < MonthStart(k + 1)
    ensures MonthStart(m) <= day < MonthStart(m + 1)
    decreases MonthStart(k + 1) - day
  {
    MonthStep(k);
    if MonthStart(k) <= day then k else SeekDown(day, k - 1)
  }

  /** The month that a day lies in. */
  function MonthOf(day: int): (m: int)
    ensures MonthStart(m) <= day < MonthStart(m + 1)
  {
    if day >= 0 then SeekUp(day, EPOCH) else SeekDown(day, EPOCH - 1)
  }

  lemma MonthOfIsUnique(day: int, m: int)
    requires MonthStart(m) <= day < MonthStart(m + 1)
    ensures m == MonthOf(day)
  {
    var n := MonthOf(day);
    if m < n { MonthStartMonotone(m + 1, n); }
    if n < m { MonthStartMonotone(n + 1, m); }
  }

  // ---------------------------------------------------------------------------------- thirty days against a real month

  /** How far month starts run ahead of 30 days a month. */
  function Surplus(k: int): int {
    MonthStart(k) - 30 * k
  }

  /** How far month m of a year runs ahead of the year's start. */
  function SurplusWithin(leap: bool, m: int): int
    requires 0 <= m <= 12
  {
    (if m <= 1 then m
     else if m == 2 then -1
     else if m <= 4 then 0
     else if m <= 6 then 1
     else if m == 7 then 2
     else if m <= 9 then 3
     else if m <= 11 then 4
     else 5) + if leap && m >= 2 then 1 else 0
  }

  lemma {:induction false} SurplusInYear(year: int, m: int)
    requires 0 <= m <= 12
    ensures Surplus(12 * year + m) == Surplus(12 * year) + SurplusWithin(IsLeap(year), m)
    decreases m
  {
    if m == 0 {
    } else {
      SurplusInYear(year, m - 1);
      MonthStep(12 * year + m - 1);
      MonthNumber(year, m - 1);
    }
  }

  lemma MonthNumber(year: int, m: int)
    requires 0 <= m < 12
    ensures (12 * year + m) / 12 == year && (12 * year + m) % 12 == m
  {
  }

  lemma {:induction false} SurplusOfYears(a: int, b: int)
    requires a < b
    ensures Surplus(12 * b) >= Surplus(12 * a) + SurplusWithin(IsLeap(a), 12) + 5 * (b - a - 1)
    decreases b - a
  {
    SurplusInYear(b - 1, 12);
    if a < b - 1 {
      SurplusOfYears(a, b - 1);
    }
  }

  /** The leap years among n years from the first on. */
  function LeapYears(first: int, n: nat): (r: nat)
    ensures r <= n
  {
    if n == 0 then 0 else LeapYears(first, n - 1) + if IsLeap(first + n - 1) then 1 else 0
  }

  /** n calendar years have 365 days each and a day more for every leap year. */
  lemma {:induction false} YearsLength(first: int, n: nat)
    ensures MonthStart(12 * (first + n)) - MonthStart(12 * first) == 365 * n + LeapYears(first, n)
    decreases n
  {
    if n == 0 {
    } else {
      YearsLength(first, n - 1);
      SurplusInYear(first + n - 1, 12);
    }
  }

  /** The days that the months a .. b - 1 have beyond 30 each: five a year and one for every leap year, corrected for
      the months of the first and the last year. */
  function DaysBeyondThirty(a: int, b: int): int
    requires a <= b
  {
    5 * (b / 12 - a / 12) + LeapYears(a / 12, b / 12 - a / 12)
    + SurplusWithin(IsLeap(b / 12), b % 12) - SurplusWithin(IsLeap(a / 12), a % 12)
  }

  lemma YearStarts(ya: int, yb: int)
    requires ya <= yb
    ensures Surplus(12 * yb) == Surplus(12 * ya) + 5 * (yb - ya) + LeapYears(ya, yb - ya)
  {
    var n := yb - ya;
    assert yb == ya + n;
    YearsLength(ya, n);
  }

  lemma LengthBetween(ya: int, ma: int, yb: int, mb: int)
    requires 0 <= ma < 12 && 0 <= mb < 12 && ya <= yb
    ensures Surplus(12 * yb + mb) - Surplus(12 * ya + ma) ==
            5 * (yb - ya) + LeapYears(ya, yb - ya) + SurplusWithin(IsLeap(yb), mb) - SurplusWithin(IsLeap(ya), ma)
  {
    SurplusInYear(ya, ma);
    SurplusInYear(yb, mb);
    YearStarts(ya, yb);
  }

  lemma LengthOfMonths(a: int, b: int)
    requires a <= b
    ensures MonthStart(b) - MonthStart(a) == 30 * (b - a) + DaysBeyondThirty(a, b)
  {
    var ya, ma, yb, mb := a / 12, a % 12, b / 12, b % 12;
    assert a == 12 * ya + ma && b == 12 * yb + mb && ya <= yb;
    LengthBetween(ya, ma, yb, mb);
    assert Surplus(b) - Surplus(a) == DaysBeyondThirty(a, b);
  }

  /** The runs of months a .. b - 1 that are shorter than 30 days a month: all end with February or, in a year that is
      not a leap year, are among its first four months. */
  predicate ShortRun(a: int, b: int) {
    var m := a % 12;
    || (m == 1 && b == a + 1)
    || (!IsLeap(a / 12) && ((m == 0 && b == a + 2) || (m == 1 && b == a + 2) || (m == 1 && b == a + 3)))
  }

  lemma SurplusFalls(ya: int, ma: int, yb: int, mb: int)
    requires 0 <= ma < 12 && 0 <= mb < 12 && (ya < yb || (ya == yb && ma <= mb))
    ensures Surplus(12 * yb + mb) < Surplus(12 * ya + ma) <==>
            ya == yb && ((ma == 1 && mb == 2) || (!IsLeap(ya) && (ma == 0 || ma == 1) && mb == 2) ||
                         (!IsLeap(ya) && ma == 1 && (mb == 3 || mb == 4)))
  {
    SurplusInYear(ya, ma);
    SurplusInYear(yb, mb);
    if ya < yb {
      SurplusOfYears(ya, yb);
    }
  }

  lemma ShortRuns(a: int, b: int)
    requires a <= b
    ensures MonthStart(b) - MonthStart(a) < 30 * (b - a) <==> ShortRun(a, b)
  {
    assert a == 12 * (a / 12) + a % 12 && b == 12 * (b / 12) + b % 12;
    SurplusFalls(a / 12, a % 12, b / 12, b % 12);
  }
}
