/**
 Calendar months as `period.ts` and the ECMAScript date functions it calls define them: an instant is
 a whole number of UTC milliseconds since 1970, a month is the index `12 * year + month` of the
 proleptic Gregorian calendar (so consecutive months are consecutive integers, across every year end).
 */
module Calendar {

  const MS_PER_DAY := 86_400_000

  predicate LeapYear(year: int) {
    year % 4 == 0 && (year % 100 != 0 || year % 400 == 0)
  }

  function DaysInYear(year: int): int {
    if LeapYear(year) then 366 else 365
  }

  /** The day number of 1 January, in the closed form the ECMAScript standard gives for DayFromYear. */
  function DayFromYear(year: int): int {
    365 * (year - 1970) + (year - 1969) / 4 - (year - 1901) / 100 + (year - 1601) / 400
  }

  function DaysInMonth(year: int, month: int): int
    requires 0 <= month < 12
  {
    if month == 1 then (if LeapYear(year) then 29 else 28)
    else if month == 3 || month == 5 || month == 8 || month == 10 then 30
    else 31
  }

  /** Days of the year before the first of `month`, the standard's table. */
  function DaysBeforeMonth(year: int, month: int): int
    requires 0 <= month < 12
  {
    [0, 31, 59, 90, 120, 151, 181, 212, 243, 273, 304, 334][month] + (if month > 1 && LeapYear(year) then 1 else 0)
  }

  function YearOf(index: int): int { index / 12 }

  function MonthInYear(index: int): (m: int)
    ensures 0 <= m < 12
  {
    index % 12
  }

  function FirstDay(index: int): int {
    DayFromYear(YearOf(index)) + DaysBeforeMonth(YearOf(index), MonthInYear(index))
  }

  /** The first millisecond of a month. */
  function FirstInstant(index: int): int {
    MS_PER_DAY * FirstDay(index)
  }

  /** Whether the whole of a month is older than a retention cutoff. */
  predicate FullyAged(index: int, cutoff: int) {
    FirstInstant(index + 1) <= cutoff
  }

  // ---------------------------------------------------------------- months tile the time line

  // A whole number of 4, 100 or 400 years leaves the remainder alone; one day past a multiple moves the quotient.
  lemma Quotient4(year: int)
    ensures (year - 1968) / 4 == (year - 1969) / 4 + (if year % 4 == 0 then 1 else 0)
  {
    var q, r := year / 4, year % 4;
    assert year - 1968 == 4 * (q - 492) + r;
    assert year - 1969 == if r == 0 then 4 * (q - 493) + 3 else 4 * (q - 492) + (r - 1);
  }

  lemma Quotient100(year: int)
    ensures (year - 1900) / 100 == (year - 1901) / 100 + (if year % 100 == 0 then 1 else 0)
  {
    var q, r := year / 100, year % 100;
    assert year - 1900 == 100 * (q - 19) + r;
    assert year - 1901 == if r == 0 then 100 * (q - 20) + 99 else 100 * (q - 19) + (r - 1);
  }

  lemma Quotient400(year: int)
    ensures (year - 1600) / 400 == (year - 1601) / 400 + (if year % 400 == 0 then 1 else 0)
  {
    var q, r := year / 400, year % 400;
    assert year - 1600 == 400 * (q - 4) + r;
    assert year - 1601 == if r == 0 then 400 * (q - 5) + 399 else 400 * (q - 4) + (r - 1);
  }

  /** The standard's closed form agrees with counting days year by year under the leap-year rule. */
  lemma YearLength(year: int)
    ensures DayFromYear(year + 1) - DayFromYear(year) == DaysInYear(year)
  {
    Quotient4(year);
    Quotient100(year);
    Quotient400(year);
    Divisibility(year);
  }

  lemma Divisibility(year: int)
    ensures year % 400 == 0 ==> year % 100 == 0
    ensures year % 100 == 0 ==> year % 4 == 0
  {
    var h := year / 100;
    if year % 100 == 0 {
      assert year == 4 * (25 * h);
    }
    var f := year / 400;
    if year % 400 == 0 {
      assert year == 100 * (4 * f);
    }
  }

  /** One month's end is the next one's beginning, and no month is shorter than 28 days. */
  lemma MonthLength(index: int)
    ensures FirstDay(index + 1) == FirstDay(index) + DaysInMonth(YearOf(index), MonthInYear(index))
    ensures FirstInstant(index) + 28 * MS_PER_DAY <= FirstInstant(index + 1) <= FirstInstant(index) + 31 * MS_PER_DAY
  {
    var y, m := YearOf(index), MonthInYear(index);
    if m == 11 {
      assert YearOf(index + 1) == y + 1 && MonthInYear(index + 1) == 0;
      YearLength(y);
    } else {
      assert YearOf(index + 1) == y && MonthInYear(index + 1) == m + 1;
    }
  }

  lemma {:induction false} FirstInstantsIncrease(a: int, b: int)
    requires a < b
    ensures FirstInstant(a) < FirstInstant(b)
    decreases b - a
  {
    hide FirstInstant;
    MonthLength(b - 1);
    if a + 1 >= b {
    } else {
      FirstInstantsIncrease(a, b - 1);
    }
  }

  predicate InMonth(at: int, index: int) {
    FirstInstant(index) <= at < FirstInstant(index + 1)
  }

  /** No instant is in two months. */
  lemma MonthIsUnique(at: int, a: int, b: int)
    requires InMonth(at, a) && InMonth(at, b)
    ensures a == b
  {
    hide FirstInstant;
    if a + 1 < b {
      FirstInstantsIncrease(a + 1, b);
    } else if b + 1 < a {
      FirstInstantsIncrease(b + 1, a);
    }
  }

  /** How far a walk along the months still has to go; from above it passes below the instant once. */
  function Distance(at: int, index: int): nat {
    var d := at - FirstInstant(index);
    if d >= 0 then d else 32 * MS_PER_DAY - d
  }

  lemma WalkingApproaches(at: int, index: int)
    ensures at < FirstInstant(index) ==> Distance(at, index - 1) < Distance(at, index)
    ensures FirstInstant(index + 1) <= at ==> Distance(at, index + 1) < Distance(at, index)
  {
    MonthLength(index - 1);
    MonthLength(index);
  }

  /** The month holding an instant, found by walking from a first guess. */
  function MonthFrom(at: int, guess: int): (index: int)
    ensures InMonth(at, index)
    decreases Distance(at, guess)
  {
    WalkingApproaches(at, guess);
    if at < FirstInstant(guess) then MonthFrom(at, guess - 1)
    else if FirstInstant(guess + 1) <= at then MonthFrom(at, guess + 1)
    else guess
  }

  const EPOCH_MONTH := 12 * 1970

  /** What `getUTCFullYear` and `getUTCMonth` read, as one index. */
  function MonthOf(at: int): (index: int)
    ensures InMonth(at, index)
  {
    MonthFrom(at, EPOCH_MONTH)
  }

  lemma MonthOfIs(at: int, index: int)
    requires InMonth(at, index)
    ensures MonthOf(at) == index
  {
    MonthIsUnique(at, MonthOf(at), index);
  }

  /** An exclusive boundary at a month's first instant names the month that ends there. */
  lemma BoundaryNamesEndedMonth(index: int)
    ensures MonthOf(FirstInstant(index + 1) - 1) == index
  {
    MonthLength(index);
    MonthOfIs(FirstInstant(index + 1) - 1, index);
  }

  lemma MonthOfMonotone(a: int, b: int)
    requires a <= b
    ensures MonthOf(a) <= MonthOf(b)
  {
    hide FirstInstant;
    var i, j := MonthOf(a), MonthOf(b);
    if j < i {
      if j + 1 < i {
        FirstInstantsIncrease(j + 1, i);
      }
    }
  }

  lemma MonthBefore(at: int, index: int)
    ensures at < FirstInstant(index) <==> MonthOf(at) < index
  {
    hide FirstInstant;
    var m := MonthOf(at);
    if m + 1 < index {
      FirstInstantsIncrease(m + 1, index);
    } else if index < m {
      FirstInstantsIncrease(index, m);
    }
  }
}
