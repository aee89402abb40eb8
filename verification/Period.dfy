/**
 The retention month walk (`period.ts`), with the ECMAScript date functions as they are: a two-digit year means the
 twentieth century to `Date.UTC`, and a moment past the last representable one is no moment at all.
 */
module Period {
  import opened Calendar

  /** A `Date`: a moment, or an invalid one. */
  datatype Date = At(ms: int) | Invalid

  const MAX_MS := 8_640_000_000_000_000

  predicate Representable(ms: int) { -MAX_MS <= ms <= MAX_MS }

  predicate IsDate(d: Date) { d.At? ==> Representable(d.ms) }

  /** `Date.UTC` reads a year from 0 to 99 as 1900 to 1999. */
  function UtcYear(year: int): int { if 0 <= year <= 99 then 1900 + year else year }

  function UtcIndex(year: int, month: int): int { 12 * UtcYear(year) + month }

  /** `new Date(Date.UTC(year, month, 1))`; `month` counts from 0 and may run past either end of the year. */
  function DateUtc(year: int, month: int): (d: Date)
    ensures IsDate(d)
  {
    var ms := FirstInstant(UtcIndex(year, month));
    if Representable(ms) then At(ms) else Invalid
  }

  // ---------------------------------------------------------------- keys

  function Digit(d: nat): char
    requires d < 10
  {
    '0' + d as char
  }

  predicate AllDigits(s: string) { forall i :: 0 <= i < |s| ==> '0' <= s[i] <= '9' }

  function Digits(n: nat): (s: string)
    ensures |s| > 0 && AllDigits(s)
  {
    if n < 10 then [Digit(n)] else Digits(n / 10) + [Digit(n % 10)]
  }

  function Decimal(n: int): string {
    if n < 0 then "-" + Digits(-n) else Digits(n)
  }

  /** `${year}-${String(month + 1).padStart(2, "0")}` */
  function KeyOf(year: int, month: int): string
    requires 0 <= month < 12
  {
    Decimal(year) + ['-', Digit((month + 1) / 10), Digit((month + 1) % 10)]
  }

  function Key(index: int): string { KeyOf(YearOf(index), MonthInYear(index)) }

  function PeriodKeyFor(at: int): string { Key(MonthOf(at)) }

  function ValueOf(s: string): (v: nat)
    requires AllDigits(s)
  {
    if s == [] then 0 else 10 * ValueOf(s[..|s| - 1]) + (s[|s| - 1] as int - '0' as int)
  }

  lemma {:induction false} DigitsRead(n: nat)
    ensures ValueOf(Digits(n)) == n
  {
    if n < 10 {
    } else {
      DigitsRead(n / 10);
      assert Digits(n)[..|Digits(n)| - 1] == Digits(n / 10);
    }
  }

  lemma SignShows(n: int)
    ensures |Decimal(n)| > 0 && (Decimal(n)[0] == '-' <==> n < 0)
  {
  }

  lemma DecimalIsInjective(a: int, b: int)
    requires Decimal(a) == Decimal(b)
    ensures a == b
  {
    SignShows(a);
    SignShows(b);
    hide Digits, ValueOf;
    if a < 0 {
      assert Decimal(a)[1..] == Digits(-a) && Decimal(b)[1..] == Digits(-b);
      DigitsRead(-a);
      DigitsRead(-b);
    } else {
      DigitsRead(a);
      DigitsRead(b);
    }
  }

  /** Two months never share a key, so never a file name. */
  lemma KeyIsInjective(a: int, b: int)
    requires Key(a) == Key(b)
    ensures a == b
  {
    var s, t := Decimal(YearOf(a)), Decimal(YearOf(b));
    var n := |Key(a)|;
    assert Key(a)[..n - 3] == s && Key(b)[..n - 3] == t;
    DecimalIsInjective(YearOf(a), YearOf(b));
    var i, j := MonthInYear(a) + 1, MonthInYear(b) + 1;
    assert Key(a)[n - 2] == Digit(i / 10) && Key(a)[n - 1] == Digit(i % 10);
    assert Key(b)[n - 2] == Digit(j / 10) && Key(b)[n - 1] == Digit(j % 10);
  }

  // ---------------------------------------------------------------- the walk

  /** What a walk at month `index` takes for the month's end. */
  function Boundary(index: int): Date { DateUtc(YearOf(index), MonthInYear(index) + 1) }

  /** `before.getTime() > cutoff.getTime()`: never so for an invalid boundary. */
  predicate Stops(index: int, cutoff: int) {
    Boundary(index).At? && Boundary(index).ms > cutoff
  }

  datatype PeriodBoundary = PeriodBoundary(periodKey: string, before: Date)

  /** The last month whose first instant is representable: September 275760. */
  const LAST_MONTH := 12 * 275_760 + 8

  lemma LastMonth()
    ensures FirstInstant(LAST_MONTH) <= MAX_MS < FirstInstant(LAST_MONTH + 1)
    ensures FirstInstant(12 * -271_821 + 3) <= -MAX_MS < FirstInstant(12 * -271_821 + 4)
  {
    FirstDayIs(LAST_MONTH, 275_760, 8, 99_999_988);
    FirstDayIs(LAST_MONTH + 1, 275_760, 9, 100_000_018);
    FirstDayIs(12 * -271_821 + 3, -271_821, 3, -100_000_019);
    FirstDayIs(12 * -271_821 + 4, -271_821, 4, -99_999_989);
    hide FirstDay;
  }

  lemma FirstDayIs(index: int, year: int, month: int, day: int)
    requires 0 <= month < 12 && index == 12 * year + month
    requires day == DayFromYear(year) + DaysBeforeMonth(year, month)
    ensures FirstDay(index) == day
  {
    hide DayFromYear, DaysBeforeMonth;
  }

  /** The inputs on which the walk comes to an end. */
  predicate Ends(oldest: int, cutoff: int) {
    oldest < FirstInstant(LAST_MONTH) && cutoff < FirstInstant(LAST_MONTH)
  }

  predicate InEarlyYears(index: int) { 0 <= index < 1200 }

  /** The boundary of every month but those of the years 0 to 99 is its own end; theirs is 1900 years late. */
  lemma BoundaryIs(index: int)
    ensures var end := FirstInstant(if InEarlyYears(index) then index + 22_801 else index + 1);
      Boundary(index) == if Representable(end) then At(end) else Invalid
  {
    hide FirstInstant;
    assert index == 12 * YearOf(index) + MonthInYear(index);
  }

  lemma FirstInstantsNotDecrease(a: int, b: int)
    requires a <= b
    ensures FirstInstant(a) <= FirstInstant(b)
  {
    if a < b {
      FirstInstantsIncrease(a, b);
    }
  }

  /** Which boundaries are moments at all, for a walk that starts at one. */
  lemma BoundaryRepresentable(oldest: int, index: int)
    requires Representable(oldest) && MonthOf(oldest) <= index
    ensures Boundary(index).At? <==> index < LAST_MONTH
    ensures index < LAST_MONTH ==> FirstInstant(index + 1) <= Boundary(index).ms <= FirstInstant(LAST_MONTH)
  {
    BoundaryIs(index);
    LastMonth();
    hide FirstInstant;
    var end := if InEarlyYears(index) then index + 22_801 else index + 1;
    MonthOfMonotone(-MAX_MS, oldest);
    MonthBefore(-MAX_MS, 12 * -271_821 + 3);
    FirstInstantsNotDecrease(12 * -271_821 + 4, end);
    FirstInstantsNotDecrease(index + 1, end);
    if index < LAST_MONTH {
      FirstInstantsNotDecrease(end, LAST_MONTH);
    } else {
      FirstInstantsNotDecrease(LAST_MONTH + 1, end);
    }
  }

  /** Beyond those inputs no turn of the walk, however late, meets its end: it fills memory instead. */
  lemma OtherwiseNeverEnds(oldest: int, cutoff: int, index: int)
    requires Representable(oldest) && Representable(cutoff) && !Ends(oldest, cutoff) && MonthOf(oldest) <= index
    ensures !Stops(index, cutoff)
  {
    BoundaryRepresentable(oldest, index);
    MonthBefore(oldest, LAST_MONTH);
    hide FirstInstant, Boundary;
  }

  lemma StopsByTheLast(oldest: int, cutoff: int)
    requires Representable(oldest) && Ends(oldest, cutoff)
    ensures MonthOf(oldest) < LAST_MONTH && Stops(LAST_MONTH - 1, cutoff)
  {
    MonthBefore(oldest, LAST_MONTH);
    BoundaryRepresentable(oldest, LAST_MONTH - 1);
    hide FirstInstant, Boundary;
  }

  datatype Walk = Due(periods: seq<PeriodBoundary>) | InvalidOldest | InvalidCutoff

  /** `due` lists months from `first` on, up to the first at which the walk stops. */
  ghost predicate WalkedFrom(due: seq<PeriodBoundary>, first: int, cutoff: int) {
    && (forall k :: 0 <= k < |due| ==> due[k] == PeriodBoundary(Key(first + k), Boundary(first + k)))
    && (forall i :: first <= i < first + |due| ==> !Stops(i, cutoff))
    && Stops(first + |due|, cutoff)
  }

  method PeriodsFullyBefore(oldest: Date, cutoff: Date) returns (r: Walk)
    requires IsDate(oldest) && IsDate(cutoff)
    requires oldest.At? && cutoff.At? ==> Ends(oldest.ms, cutoff.ms)
    ensures oldest.Invalid? <==> r.InvalidOldest?
    ensures oldest.At? && cutoff.Invalid? <==> r.InvalidCutoff?
    ensures r.Due? ==> WalkedFrom(r.periods, MonthOf(oldest.ms), cutoff.ms)
  {
    if oldest.Invalid? {
      return InvalidOldest;
    }
    if cutoff.Invalid? {
      return InvalidCutoff;
    }
    StopsByTheLast(oldest.ms, cutoff.ms);
    hide *;
    var first := MonthOf(oldest.ms);
    var due := WalkMonths(first, LAST_MONTH - 1, cutoff.ms);
    r := Due(due);
  }

  /** From the first month on, a month at a time; `last` is some month at which the walk stops. */
  method WalkMonths(first: int, ghost last: int, cutoff: int) returns (due: seq<PeriodBoundary>)
    requires first <= last && Stops(last, cutoff)
    ensures WalkedFrom(due, first, cutoff)
  {
    hide Key, KeyOf, Boundary, DateUtc, Stops, YearOf, MonthInYear;
    IndexSplits(first);
    due := [];
    var year, month := YearOf(first), MonthInYear(first);
    while true
      invariant 0 <= month < 12 && 12 * year + month == first + |due| <= last
      invariant forall k :: 0 <= k < |due| ==> due[k] == PeriodBoundary(Key(first + k), Boundary(first + k))
      invariant forall i :: first <= i < first + |due| ==> !Stops(i, cutoff)
      decreases last - |due| - first
    {
      OneTurn(12 * year + month, year, month, cutoff);
      var before := DateUtc(year, month + 1);
      if before.At? && before.ms > cutoff {
        return;
      }
      due := due + [PeriodBoundary(KeyOf(year, month), before)];
      month := month + 1;
      if month == 12 {
        month, year := 0, year + 1;
      }
    }
  }

  lemma IndexSplits(index: int)
    ensures index == 12 * YearOf(index) + MonthInYear(index)
  {
  }

  lemma OneTurn(index: int, year: int, month: int, cutoff: int)
    requires 0 <= month < 12 && index == 12 * year + month
    ensures KeyOf(year, month) == Key(index) && DateUtc(year, month + 1) == Boundary(index)
    ensures Stops(index, cutoff) <==> DateUtc(year, month + 1).At? && DateUtc(year, month + 1).ms > cutoff
  {
    assert YearOf(index) == year && MonthInYear(index) == month;
    hide KeyOf, DateUtc;
  }

  // ---------------------------------------------------------------- exactness

  /** Due are the consecutive months from the oldest row's, each fully aged, each with its own end; and no other is. */
  ghost predicate Exact(due: seq<PeriodBoundary>, first: int, cutoff: int) {
    && (forall k :: 0 <= k < |due| ==>
          due[k] == PeriodBoundary(Key(first + k), At(FirstInstant(first + k + 1))))
    && (forall i :: first <= i ==> (FullyAged(i, cutoff) <==> i < first + |due|))
  }

  /** A month of the years 0 to 99 that has aged out, met by the walk. */
  predicate EarlyYearAged(first: int, cutoff: int) {
    var met := if first < 0 then 0 else first;
    met < 1200 && FullyAged(met, cutoff)
  }

  lemma FullyAgedGoesBack(a: int, b: int, cutoff: int)
    requires a <= b && FullyAged(b, cutoff)
    ensures FullyAged(a, cutoff)
  {
    FirstInstantsNotDecrease(a + 1, b + 1);
  }

  /** The walk is exact on every input except one family, which it gets wrong throughout. */
  lemma ExactUnlessEarly(oldest: int, cutoff: int, due: seq<PeriodBoundary>)
    requires Representable(oldest) && Ends(oldest, cutoff) && WalkedFrom(due, MonthOf(oldest), cutoff)
    ensures Exact(due, MonthOf(oldest), cutoff) <==> !EarlyYearAged(MonthOf(oldest), cutoff)
  {
    var first := MonthOf(oldest);
    hide MonthOf, FirstInstant, Key, Boundary;
    if EarlyYearAged(first, cutoff) {
      EarlyYearsAreWrong(oldest, cutoff, due);
    } else {
      ElsewhereExact(oldest, cutoff, due);
    }
  }

  lemma StopIsTheEnd(oldest: int, cutoff: int, index: int)
    requires Representable(oldest) && Ends(oldest, cutoff) && MonthOf(oldest) <= index < LAST_MONTH
    requires !InEarlyYears(index) || !FullyAged(index, cutoff)
    ensures Stops(index, cutoff) <==> !FullyAged(index, cutoff)
    ensures !InEarlyYears(index) ==> Boundary(index) == At(FirstInstant(index + 1))
  {
    BoundaryRepresentable(oldest, index);
    BoundaryIs(index);
    hide FirstInstant, Boundary;
  }

  lemma WalkInside(oldest: int, cutoff: int, due: seq<PeriodBoundary>, k: nat)
    requires Representable(oldest) && Ends(oldest, cutoff) && WalkedFrom(due, MonthOf(oldest), cutoff) && k <= |due|
    ensures MonthOf(oldest) + k < LAST_MONTH
  {
    StopsByTheLast(oldest, cutoff);
    var first := MonthOf(oldest);
    hide FirstInstant, Boundary, MonthOf, Key;
    assert first + |due| >= LAST_MONTH ==> !Stops(LAST_MONTH - 1, cutoff);
  }

  lemma ElsewhereExact(oldest: int, cutoff: int, due: seq<PeriodBoundary>)
    requires Representable(oldest) && Ends(oldest, cutoff) && WalkedFrom(due, MonthOf(oldest), cutoff)
    requires !EarlyYearAged(MonthOf(oldest), cutoff)
    ensures Exact(due, MonthOf(oldest), cutoff)
  {
    var first := MonthOf(oldest);
    hide MonthOf, FirstInstant, Key, Boundary, Stops;
    forall i | first <= i <= first + |due|
      ensures Stops(i, cutoff) <==> !FullyAged(i, cutoff)
      ensures i < first + |due| ==> Boundary(i) == At(FirstInstant(i + 1))
    {
      WalkInside(oldest, cutoff, due, i - first);
      NotEarly(first, cutoff, i);
      StopIsTheEnd(oldest, cutoff, i);
    }
    forall i | first <= i ensures FullyAged(i, cutoff) <==> i < first + |due| {
      if first + |due| <= i && FullyAged(i, cutoff) {
        FullyAgedGoesBack(first + |due|, i, cutoff);
      }
    }
    hide FullyAged;
  }

  lemma NotEarly(first: int, cutoff: int, index: int)
    requires first <= index && !EarlyYearAged(first, cutoff)
    ensures !InEarlyYears(index) || !FullyAged(index, cutoff)
  {
    if InEarlyYears(index) && FullyAged(index, cutoff) {
      FullyAgedGoesBack(if first < 0 then 0 else first, index, cutoff);
    }
    hide FullyAged;
  }

  lemma EarlyBoundaryIsLate(index: int)
    requires InEarlyYears(index)
    ensures Boundary(index) != At(FirstInstant(index + 1))
  {
    BoundaryIs(index);
    FirstInstantsIncrease(index + 1, index + 22_801);
    hide FirstInstant, Boundary;
  }

  lemma EarlyYearsAreWrong(oldest: int, cutoff: int, due: seq<PeriodBoundary>)
    requires Representable(oldest) && Ends(oldest, cutoff) && WalkedFrom(due, MonthOf(oldest), cutoff)
    requires EarlyYearAged(MonthOf(oldest), cutoff)
    ensures !Exact(due, MonthOf(oldest), cutoff)
  {
    hide FirstInstant, Key, MonthOf, Boundary, FullyAged, Stops, Ends, Representable;
    var first := MonthOf(oldest);
    var met := if first < 0 then 0 else first;
    EarlyBoundaryIsLate(met);
    var k := met - first;
    if met < first + |due| {
      assert due[k].before != At(FirstInstant(first + k + 1));
    } else {
      assert FullyAged(met, cutoff);
    }
  }

  /** A month of the years 0 to 99 is due only when the month 1900 years after it has aged out. */
  lemma EarlyMonthIsLate(index: int, cutoff: int)
    requires InEarlyYears(index)
    ensures Stops(index, cutoff) <==> !FullyAged(index + 22_800, cutoff)
  {
    BoundaryIs(index);
    LastMonth();
    FirstInstantsNotDecrease(12 * -271_821 + 4, index + 22_801);
    FirstInstantsNotDecrease(index + 22_801, LAST_MONTH);
    hide FirstInstant, Boundary;
  }

  lemma KeysApart(a: int, b: int)
    requires a != b
    ensures Key(a) != Key(b)
  {
    if Key(a) == Key(b) {
      KeyIsInjective(a, b);
    }
    hide Key;
  }

  lemma EndIs(oldest: int, index: int)
    requires Representable(oldest) && MonthOf(oldest) <= index < LAST_MONTH
    ensures Boundary(index).At?
    ensures Boundary(index).ms == FirstInstant(if InEarlyYears(index) then index + 22_801 else index + 1)
  {
    hide FirstInstant, Boundary, MonthOf, Representable, InMonth;
    BoundaryRepresentable(oldest, index);
    BoundaryIs(index);
  }

  lemma YearFiftyAged(cutoff: int)
    requires cutoff == MS_PER_DAY * 20_454
    ensures FullyAged(12 * 50, cutoff) && FullyAged(12 * 1950, cutoff)
  {
    FirstDayIs(12 * 50 + 1, 50, 1, -701_234);
    FirstDayIs(12 * 1950 + 1, 1950, 1, -7274);
    hide FirstDay;
  }

  /** At the beginning of 2026: January of the year 50 is listed under its own key with a boundary in 1950. */
  lemma YearFiftyIsListedWrongly(month: int, other: int, cutoff: int)
    requires month == 12 * 50 && other == 12 * 1950 && cutoff == MS_PER_DAY * 20_454
    ensures FullyAged(month, cutoff) && !Stops(month, cutoff)
    ensures Boundary(month) == At(FirstInstant(other + 1))
    ensures PeriodKeyFor(FirstInstant(other + 1) - 1) == Key(other) != Key(month)
  {
    YearFiftyAged(cutoff);
    hide FirstDay, Stops, Boundary, Key, MonthOf, FirstInstant, InMonth;
    EarlyMonthIsLate(month, cutoff);
    EarlyBoundaryIs(month);
    BoundaryNamesEndedMonth(other);
    KeysApart(month, other);
  }

  lemma EarlyBoundaryIs(index: int)
    requires InEarlyYears(index)
    ensures Boundary(index) == At(FirstInstant(index + 22_801))
  {
    BoundaryIs(index);
    LastMonth();
    FirstInstantsNotDecrease(12 * -271_821 + 4, index + 22_801);
    FirstInstantsNotDecrease(index + 22_801, LAST_MONTH);
    hide FirstInstant, Boundary;
  }

  /** The key a walk yields is the key a rotation of its boundary will use, in every month but those of the years 0 to 99. */
  lemma WalkNamesItsMonths(oldest: int, cutoff: int, due: seq<PeriodBoundary>, k: nat)
    requires Representable(oldest) && Ends(oldest, cutoff) && WalkedFrom(due, MonthOf(oldest), cutoff) && k < |due|
    ensures due[k].before.At?
    ensures due[k].periodKey == PeriodKeyFor(due[k].before.ms - 1) <==> !InEarlyYears(MonthOf(oldest) + k)
  {
    hide FirstInstant, Stops, Key, MonthOf, Ends, Representable, InMonth, PeriodKeyFor, InEarlyYears, Boundary;
    WalkInside(oldest, cutoff, due, k);
    KeyAgrees(oldest, MonthOf(oldest) + k);
  }

  lemma KeyAgrees(oldest: int, index: int)
    requires Representable(oldest) && MonthOf(oldest) <= index < LAST_MONTH
    ensures Boundary(index).At?
    ensures Key(index) == PeriodKeyFor(Boundary(index).ms - 1) <==> !InEarlyYears(index)
  {
    hide FirstInstant, Boundary, MonthOf, Key, Representable, InMonth;
    BoundaryRepresentable(oldest, index);
    EndIs(oldest, index);
    BoundaryNamesEndedMonth(index);
    BoundaryNamesEndedMonth(index + 22_800);
    KeysApart(index, index + 22_800);
  }
}
