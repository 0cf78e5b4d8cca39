/** Civil dates, weekdays, and the holiday rules of the session manager. */
module Calendar {

  datatype Date = Date(year: int, month: int, day: int) {
    predicate Valid() {
      1 <= month <= 12 && 1 <= day <= DaysInMonth(year, month)
    }
  }

  type Day = d: Date | d.Valid() witness Date(1, 1, 1)

  predicate IsLeap(y: int) {
    y % 4 == 0 && (y % 100 != 0 || y % 400 == 0)
  }

  function DaysInMonth(y: int, m: int): (n: int)
    ensures 28 <= n <= 31
  {
    if m == 2 then (if IsLeap(y) then 29 else 28)
    else if m == 4 || m == 6 || m == 9 || m == 11 then 30
    else 31
  }

  function DaysInYear(y: int): int {
    if IsLeap(y) then 366 else 365
  }

  /** Days before January 1 of the year, counted year by year from year 1. */
  function DaysBeforeYear(y: int): int
    decreases if y >= 1 then y - 1 else 1 - y
  {
    if y == 1 then 0
    else if y > 1 then DaysBeforeYear(y - 1) + DaysInYear(y - 1)
    else DaysBeforeYear(y + 1) - DaysInYear(y)
  }

  /** Days before the month in a common year, plus the leap day from March on. */
  function DaysBeforeMonth(y: int, m: int): int {
    (if m <= 1 then 0 else if m == 2 then 31 else if m == 3 then 59 else if m == 4 then 90
     else if m == 5 then 120 else if m == 6 then 151 else if m == 7 then 181 else if m == 8 then 212
     else if m == 9 then 243 else if m == 10 then 273 else if m == 11 then 304 else 334)
    + (if m > 2 && IsLeap(y) then 1 else 0)
  }

  /** `date.toordinal()`: day 1 is January 1 of year 1. */
  function Ordinal(d: Day): int {
    DaysBeforeYear(d.year) + DaysBeforeMonth(d.year, d.month) + d.day
  }

  /** `date.weekday()`: Monday is 0. */
  function Weekday(d: Day): (w: int)
    ensures 0 <= w < 7
  {
    (Ordinal(d) + 6) % 7
  }

  function Next(d: Day): Day {
    if d.day < DaysInMonth(d.year, d.month) then Date(d.year, d.month, d.day + 1)
    else if d.month < 12 then Date(d.year, d.month + 1, 1)
    else Date(d.year + 1, 1, 1)
  }

  function Prev(d: Day): Day {
    if d.day > 1 then Date(d.year, d.month, d.day - 1)
    else if d.month > 1 then Date(d.year, d.month - 1, DaysInMonth(d.year, d.month - 1))
    else Date(d.year - 1, 12, 31)
  }

  /** `d + timedelta(days=k)` and `d - timedelta(days=k)`. */
  function Plus(d: Day, k: nat): Day {
    if k == 0 then d else Next(Plus(d, k - 1))
  }

  function Minus(d: Day, k: nat): Day {
    if k == 0 then d else Prev(Minus(d, k - 1))
  }

  // ---- Ordinals count days ----

  lemma YearLength(y: int)
    ensures DaysBeforeYear(y + 1) == DaysBeforeYear(y) + DaysInYear(y)
  {
  }

  lemma CenturyStep(n: int)
    ensures (n + 1) / 4 == n / 4 + (if (n + 1) % 4 == 0 then 1 else 0)
    ensures (n + 1) / 100 == n / 100 + (if (n + 1) % 100 == 0 then 1 else 0)
    ensures (n + 1) / 400 == n / 400 + (if (n + 1) % 400 == 0 then 1 else 0)
    ensures n % 400 == 0 ==> n % 100 == 0
    ensures n % 100 == 0 ==> n % 4 == 0
  {
  }

  /** The closed form `datetime` uses. */
  lemma {:induction false} DaysBeforeYearClosedForm(y: int)
    requires y >= 1
    ensures DaysBeforeYear(y) == 365 * (y - 1) + (y - 1) / 4 - (y - 1) / 100 + (y - 1) / 400
    decreases y
  {
    if y > 1 {
      DaysBeforeYearClosedForm(y - 1);
      CenturyStep(y - 2);
      CenturyStep(y - 1);
    }
  }

  lemma MonthLength(y: int, m: int)
    requires 1 <= m <= 12
    ensures DaysBeforeMonth(y, m) + DaysInMonth(y, m) == if m < 12 then DaysBeforeMonth(y, m + 1) else DaysInYear(y)
  {
  }

  lemma Mod7Shift(x: int, k: int)
    ensures (x + k) % 7 == (x % 7 + k) % 7
  {
  }

  lemma Mod7Small(x: int)
    requires 0 <= x < 7
    ensures x % 7 == x
  {
  }

  lemma NextOrdinal(d: Day)
    ensures Ordinal(Next(d)) == Ordinal(d) + 1
  {
    MonthLength(d.year, d.month);
    if d.day == DaysInMonth(d.year, d.month) && d.month == 12 {
      YearLength(d.year);
      assert Next(d) == Date(d.year + 1, 1, 1);
      assert DaysBeforeMonth(d.year + 1, 1) == 0;
    }
  }

  lemma ShiftedWeekday(a: Day, b: Day, k: int)
    requires Ordinal(b) == Ordinal(a) + k
    ensures Weekday(b) == (Weekday(a) + k) % 7
  {
    Mod7Shift(Ordinal(a) + 6, k);
  }

  lemma LaterWeekday(a: Day, b: Day)
    ensures Weekday(b) == (Weekday(a) + Ordinal(b) - Ordinal(a)) % 7
  {
    ShiftedWeekday(a, b, Ordinal(b) - Ordinal(a));
  }

  lemma PrevNext(d: Day)
    ensures Prev(Next(d)) == d && Next(Prev(d)) == d
  {
  }

  lemma {:induction false} PlusOrdinal(d: Day, k: nat)
    ensures Ordinal(Plus(d, k)) == Ordinal(d) + k
  {
    if k > 0 {
      PlusOrdinal(d, k - 1);
      NextOrdinal(Plus(d, k - 1));
    }
  }

  lemma {:induction false} YearsAscend(y: int, z: int)
    requires y < z
    ensures DaysBeforeYear(y + 1) <= DaysBeforeYear(z)
    decreases z - y
  {
    if y + 1 < z {
      YearsAscend(y + 1, z);
      YearLength(y + 1);
    }
  }

  lemma WithinYear(d: Day)
    ensures DaysBeforeYear(d.year) < Ordinal(d) <= DaysBeforeYear(d.year + 1)
  {
    YearLength(d.year);
  }

  /** Ordinals identify dates. */
  lemma OrdinalInjective(a: Day, b: Day)
    requires Ordinal(a) == Ordinal(b)
    ensures a == b
  {
    WithinYear(a);
    WithinYear(b);
    if a.year < b.year {
      YearsAscend(a.year, b.year);
    } else if b.year < a.year {
      YearsAscend(b.year, a.year);
    }
  }

  /** Every later date is reached by counting days. */
  lemma LaterIsPlus(a: Day, b: Day)
    requires Ordinal(a) <= Ordinal(b)
    ensures b == Plus(a, Ordinal(b) - Ordinal(a))
  {
    PlusOrdinal(a, Ordinal(b) - Ordinal(a));
    OrdinalInjective(b, Plus(a, Ordinal(b) - Ordinal(a)));
  }

  lemma {:induction false} PlusWithinMonth(y: int, m: int, day: int, k: nat)
    requires 1 <= m <= 12 && 1 <= day && day + k <= DaysInMonth(y, m)
    ensures Plus(Date(y, m, day), k) == Date(y, m, day + k)
  {
    if k > 0 {
      PlusWithinMonth(y, m, day, k - 1);
    }
  }

  lemma {:induction false} MinusWithinMonth(y: int, m: int, day: int, k: nat)
    requires 1 <= m <= 12 && day <= DaysInMonth(y, m) && 1 <= day - k
    ensures Minus(Date(y, m, day), k) == Date(y, m, day - k)
  {
    if k > 0 {
      MinusWithinMonth(y, m, day, k - 1);
    }
  }

  // ---- _get_nth_weekday_of_month ----

  /** The first of the month after `d`'s: four days past the 28th, back to day 1. */
  function FirstOfNext(year: int, month: int): Day
    requires 1 <= month <= 12
  {
    var a := Plus(Date(year, month, 28), 4);
    Minus(a, a.day - 1)
  }

  /** The last of the month: four days past the 28th, back by that many days. */
  function LastOf(year: int, month: int): Day
    requires 1 <= month <= 12
  {
    var c := Plus(Date(year, month, 28), 4);
    Minus(c, c.day)
  }

  /** With n = 5, the last such weekday of the month after: stepping past the end of the month happens twice. */
  function LastWeekdayAfter(year: int, month: int, weekday: int, n: int): Day
    requires 1 <= month <= 12 && 0 <= weekday < 7 && n == 5
  {
    var b := FirstOfNext(year, month);
    var last := LastOf(b.year, b.month);
    Minus(last, (Weekday(last) - weekday) % 7)
  }

  /** How many days from weekday `f` to the next `weekday`. */
  function DaysTo(f: int, weekday: int): (k: nat)
    ensures k < 7
  {
    (weekday - f) % 7
  }

  function InNthWeek(first: Day, toTarget: nat, n: int): Day
    requires 1 <= n <= 4
  {
    Plus(Plus(first, toTarget), (n - 1) * 7)
  }

  function NthWeekday(year: int, month: int, weekday: int, n: int): Day
    requires 1 <= month <= 12 && 0 <= weekday < 7 && 1 <= n <= 5
  {
    var first := Date(year, month, 1);
    if n == 5 then LastWeekdayAfter(year, month, weekday, n)
    else InNthWeek(first, DaysTo(Weekday(first), weekday), n)
  }

  lemma WeekdayInMonth(y: int, m: int, a: int, b: int)
    requires 1 <= m <= 12 && 1 <= a <= DaysInMonth(y, m) && 1 <= b <= DaysInMonth(y, m)
    ensures Weekday(Date(y, m, b)) == (Weekday(Date(y, m, a)) + b - a) % 7
  {
    Mod7Shift(Ordinal(Date(y, m, a)) + 6, b - a);
  }

  lemma SameRemainder(x: int, y: int)
    requires 0 <= x < 7 && 0 <= y < 14
    ensures y % 7 == x <==> y == x || y == x + 7
  {
  }

  /** Within a group of seven consecutive days one has the wanted weekday. */
  lemma OneInSeven(f: int, w: int, n: int, x: int)
    requires 0 <= f < 7 && 0 <= w < 7 && 1 <= n <= 4 && 7 * (n - 1) < x <= 7 * n
    ensures (f + x - 1) % 7 == w <==> x == 1 + (w - f) % 7 + (n - 1) * 7
  {
    var i := x - 1 - 7 * (n - 1);
    assert (f + x - 1) % 7 == (f + i) % 7 by {
      Mod7Shift(f + i, 7 * (n - 1));
    }
    SameRemainder(w, f + i);
    assert (w - f) % 7 == if w >= f then w - f else w - f + 7;
  }

  /** Among the days of a month that starts on weekday `f`, exactly day `t` is the one wanted. */
  lemma OneDayInSeven(f: int, weekday: int, n: int, t: int, day: int)
    requires 0 <= f < 7 && 0 <= weekday < 7 && 1 <= n <= 4 && t == 1 + (weekday - f) % 7 + (n - 1) * 7
    ensures day == t <==> (f + day - 1) % 7 == weekday && 7 * (n - 1) < day <= 7 * n
  {
    if 7 * (n - 1) < day <= 7 * n {
      OneInSeven(f, weekday, n, day);
    }
  }

  lemma PlusTwice(year: int, month: int, a: nat, b: nat)
    requires 1 <= month <= 12 && a + b < 28
    ensures Plus(Plus(Date(year, month, 1), a), b) == Date(year, month, 1 + a + b)
  {
    PlusWithinMonth(year, month, 1, a);
    PlusWithinMonth(year, month, 1 + a, b);
  }

  lemma NthWeekdayPlace(year: int, month: int, n: int, k: nat)
    requires 1 <= month <= 12 && 1 <= n <= 4 && k < 7
    ensures InNthWeek(Date(year, month, 1), k, n) == Date(year, month, 1 + k + (n - 1) * 7)
  {
    PlusTwice(year, month, k, (n - 1) * 7);
  }

  /** In a month that starts on weekday `f`, `d` of weekday `w` is the one wanted exactly in its seven days. */
  lemma NthPlaceExactly(year: int, month: int, weekday: int, n: int, f: int, d: Day, w: int)
    requires 1 <= month <= 12 && 0 <= weekday < 7 && 1 <= n <= 4 && 0 <= f < 7
    requires d.year == year && d.month == month ==> w == (f + d.day - 1) % 7
    ensures d == InNthWeek(Date(year, month, 1), DaysTo(f, weekday), n)
       <==> d.year == year && d.month == month && w == weekday && 7 * (n - 1) < d.day <= 7 * n
  {
    var k := DaysTo(f, weekday);
    NthWeekdayPlace(year, month, n, k);
    OneDayInSeven(f, weekday, n, 1 + k + (n - 1) * 7, d.day);
  }

  lemma DaysFromFirst(d: Day, first: Day)
    requires first == Date(d.year, d.month, 1)
    ensures Ordinal(d) == Ordinal(first) + (d.day - 1)
  {
  }

  lemma WeekdayFromFirst(year: int, month: int, d: Day, f: int)
    requires 1 <= month <= 12 && d.year == year && d.month == month && f == Weekday(Date(year, month, 1))
    ensures Weekday(d) == (f + d.day - 1) % 7
  {
    var first: Day := Date(year, month, 1);
    DaysFromFirst(d, first);
    LaterWeekday(first, d);
  }

  lemma NthIsPlace(year: int, month: int, weekday: int, n: int)
    requires 1 <= month <= 12 && 0 <= weekday < 7 && 1 <= n <= 4
    ensures var first := Date(year, month, 1);
            NthWeekday(year, month, weekday, n) == InNthWeek(first, DaysTo(Weekday(first), weekday), n)
  {
  }

  /** For n from 1 to 4 it is the one date of the month with that weekday in the n-th group of seven days. */
  lemma NthWeekdayExactly(year: int, month: int, weekday: int, n: int, d: Day)
    requires 1 <= month <= 12 && 0 <= weekday < 7 && 1 <= n <= 4
    ensures d == NthWeekday(year, month, weekday, n)
       <==> d.year == year && d.month == month && Weekday(d) == weekday && 7 * (n - 1) < d.day <= 7 * n
  {
    if d.year == year && d.month == month {
      WeekdayFromFirst(year, month, d, Weekday(Date(year, month, 1)));
    }
    NthPlaceExactly(year, month, weekday, n, Weekday(Date(year, month, 1)), d, Weekday(d));
    NthIsPlace(year, month, weekday, n);
  }

  function FollowingMonth(year: int, month: int): (int, int) {
    if month < 12 then (year, month + 1) else (year + 1, 1)
  }

  /** Four days after the 28th is always in the first four days of the following month. */
  lemma FourAfterTwentyEighth(year: int, month: int)
    requires 1 <= month <= 12
    ensures var (y, m) := FollowingMonth(year, month);
            Plus(Date(year, month, 28), 4) == Date(y, m, 32 - DaysInMonth(year, month))
  {
    var (y, m) := FollowingMonth(year, month);
    var n := DaysInMonth(year, month);
    PlusWithinMonth(year, month, 28, n - 28);
    assert Plus(Date(year, month, 28), n - 27) == Date(y, m, 1);
    PlusSum(Date(year, month, 28), n - 27, 31 - n);
    PlusWithinMonth(y, m, 1, 31 - n);
  }

  lemma {:induction false} PlusSum(d: Day, a: nat, b: nat)
    ensures Plus(d, a + b) == Plus(Plus(d, a), b)
  {
    if b > 0 {
      PlusSum(d, a, b - 1);
    }
  }

  lemma FirstOfNextPlace(year: int, month: int)
    requires 1 <= month <= 12
    ensures var (y, m) := FollowingMonth(year, month);
            FirstOfNext(year, month) == Date(y, m, 1)
  {
    var (y, m) := FollowingMonth(year, month);
    FourAfterTwentyEighth(year, month);
    var day := 32 - DaysInMonth(year, month);
    MinusWithinMonth(y, m, day, day - 1);
  }

  lemma LastOfPlace(year: int, month: int)
    requires 1 <= month <= 12
    ensures LastOf(year, month) == Date(year, month, DaysInMonth(year, month))
  {
    var (y, m) := FollowingMonth(year, month);
    FourAfterTwentyEighth(year, month);
    var day := 32 - DaysInMonth(year, month);
    MinusWithinMonth(y, m, day, day - 1);
    assert Prev(Date(y, m, 1)) == Date(year, month, DaysInMonth(year, month));
  }

  lemma FifthIsBackFromLast(year: int, month: int, weekday: int, b: Day, last: Day, back: nat)
    requires 1 <= month <= 12 && 0 <= weekday < 7
    requires b == FirstOfNext(year, month) && last == LastOf(b.year, b.month) && back == (Weekday(last) - weekday) % 7
    ensures NthWeekday(year, month, weekday, 5) == Minus(last, back)
  {
  }

  lemma FifthPlace(year: int, month: int, weekday: int, b: Day, last: Day, back: nat)
    requires 1 <= month <= 12 && 0 <= weekday < 7
    requires b == FirstOfNext(year, month) && last == LastOf(b.year, b.month) && back == (Weekday(last) - weekday) % 7
    ensures (b.year, b.month) == FollowingMonth(year, month)
    ensures last == Date(b.year, b.month, DaysInMonth(b.year, b.month))
    ensures NthWeekday(year, month, weekday, 5) == Minus(last, back)
  {
    FirstOfNextPlace(year, month);
    LastOfPlace(b.year, b.month);
    FifthIsBackFromLast(year, month, weekday, b, last, back);
  }

  lemma BackWithinMonth(last: Day, weekday: int, back: nat, d: Day)
    requires last.day == DaysInMonth(last.year, last.month) && 0 <= weekday < 7
    requires back == (Weekday(last) - weekday) % 7 && d == Minus(last, back)
    ensures d.year == last.year && d.month == last.month && Weekday(d) == weekday && last.day - 7 < d.day
  {
    MinusWithinMonth(last.year, last.month, last.day, back);
    WeekdayInMonth(last.year, last.month, last.day, last.day - back);
    BackToWeekday(Weekday(last), weekday);
  }

  lemma BackToWeekday(w: int, weekday: int)
    requires 0 <= w < 7 && 0 <= weekday < 7
    ensures (w - (w - weekday) % 7) % 7 == weekday
  {
  }

  /** With n = 5, documented as the last such weekday of the month, the answer is the last one of the month after. */
  lemma FifthIsLastOfFollowingMonth(year: int, month: int, weekday: int)
    requires 1 <= month <= 12 && 0 <= weekday < 7
    ensures var d := NthWeekday(year, month, weekday, 5);
            && (d.year, d.month) == FollowingMonth(year, month) && Weekday(d) == weekday
            && DaysInMonth(d.year, d.month) - 7 < d.day
            && d.month != month
  {
    var b := FirstOfNext(year, month);
    var last := LastOf(b.year, b.month);
    var back := (Weekday(last) - weekday) % 7;
    FifthPlace(year, month, weekday, b, last, back);
    BackWithinMonth(last, weekday, back, NthWeekday(year, month, weekday, 5));
  }

  // ---- Holidays and trading days ----

  /** Where holidays come from: the holidays library, an unknown table, or the static fallback list below. */
  datatype Source = Source(holidays: int -> set<Date>, thanksgiving: int -> Day)

  function GoodFriday(year: int): set<Date> {
    if year == 2024 then {Minus(Date(2024, 3, 31), 2)}
    else if year == 2025 then {Minus(Date(2025, 4, 20), 2)}
    else if year == 2026 then {Minus(Date(2026, 4, 5), 2)}
    else if year == 2027 then {Minus(Date(2027, 3, 28), 2)}
    else if year == 2028 then {Minus(Date(2028, 4, 16), 2)}
    else {}
  }

  /** The fallback list around its floating dates. */
  function HolidayList(year: int, mlk: Day, presidents: Day, memorial: Day, labor: Day, thanksgiving: Day): set<Date> {
    {Date(year, 1, 1), mlk, presidents} + GoodFriday(year)
    + {memorial, Date(year, 6, 19), Date(year, 7, 4), labor, thanksgiving, Date(year, 12, 25)}
  }

  function FallbackHolidays(year: int): set<Date> {
    HolidayList(year, NthWeekday(year, 1, 0, 3), NthWeekday(year, 2, 0, 3), NthWeekday(year, 5, 0, 5),
                NthWeekday(year, 9, 0, 1), NthWeekday(year, 11, 3, 4))
  }

  function FallbackThanksgiving(year: int): Day {
    NthWeekday(year, 11, 3, 4)
  }

  /** Without the library. */
  function Fallback(): Source {
    Source(FallbackHolidays, FallbackThanksgiving)
  }

  predicate IsTradingDay(src: Source, d: Day) {
    Weekday(d) < 5 && d !in src.holidays(d.year)
  }

  /** `r` is the first trading day on or after `d`. */
  ghost predicate FirstTradingFrom(src: Source, d: Day, r: Day) {
    && IsTradingDay(src, r) && Ordinal(d) <= Ordinal(r)
    && forall t: Day :: IsTradingDay(src, t) && Ordinal(d) <= Ordinal(t) ==> Ordinal(r) <= Ordinal(t)
  }

  /** Trading never stops for good: what the skip loops need to end. */
  ghost predicate Unending(src: Source) {
    forall d: Day :: TradesAgain(src, d)
  }

  ghost predicate TradesAgain(src: Source, d: Day) {
    exists k: nat :: IsTradingDay(src, Plus(d, k))
  }

  /** The Good Fridays of the five years listed: two days before Easter. */
  lemma GoodFridayExactly(year: int)
    ensures GoodFriday(year)
            == if year == 2024 then {Date(2024, 3, 29)} else if year == 2025 then {Date(2025, 4, 18)}
               else if year == 2026 then {Date(2026, 4, 3)} else if year == 2027 then {Date(2027, 3, 26)}
               else if year == 2028 then {Date(2028, 4, 14)} else {}
  {
    MinusWithinMonth(2024, 3, 31, 2);
    MinusWithinMonth(2025, 4, 20, 2);
    MinusWithinMonth(2026, 4, 5, 2);
    MinusWithinMonth(2027, 3, 28, 2);
    MinusWithinMonth(2028, 4, 16, 2);
  }

  /** The holidays that move: the third Mondays of January and February, the last of June, and so on. */
  predicate Moves(d: Day) {
    || (d.month == 1 && Weekday(d) == 0 && 15 <= d.day <= 21)
    || (d.month == 2 && Weekday(d) == 0 && 15 <= d.day <= 21)
    || (d.month == 6 && Weekday(d) == 0 && 24 <= d.day)
    || (d.month == 9 && Weekday(d) == 0 && d.day <= 7)
    || (d.month == 11 && Weekday(d) == 3 && 22 <= d.day <= 28)
  }

  /** The ones that do not. */
  predicate Stays(d: Day) {
    (d.month, d.day) in {(1, 1), (6, 19), (7, 4), (12, 25)}
  }

  lemma LastSevenOnce(d: Day, e: Day)
    requires d.year == e.year && d.month == e.month && Weekday(d) == Weekday(e)
    requires DaysInMonth(d.year, d.month) - 7 < d.day && DaysInMonth(d.year, d.month) - 7 < e.day
    ensures d == e
  {
    var k := e.day - d.day;
    ShiftedWeekday(d, e, k);
    SameWeekday(Weekday(d), k);
  }

  lemma SameWeekday(w: int, k: int)
    requires 0 <= w < 7 && -7 < k < 7 && w == (w + k) % 7
    ensures k == 0
  {
  }

  /** What the rule gives for Memorial Day, meant as the last Monday of May, is the last Monday of June. */
  lemma MemorialExactly(year: int, d: Day)
    ensures d == NthWeekday(year, 5, 0, 5) <==> d.year == year && d.month == 6 && Weekday(d) == 0 && 24 <= d.day
  {
    var memorial := NthWeekday(year, 5, 0, 5);
    FifthIsLastOfFollowingMonth(year, 5, 0);
    if d.year == year && d.month == 6 && Weekday(d) == 0 && 24 <= d.day {
      LastSevenOnce(d, memorial);
    }
  }

  lemma MovesExactly(year: int, d: Day)
    ensures d == NthWeekday(year, 1, 0, 3) || d == NthWeekday(year, 2, 0, 3) || d == NthWeekday(year, 5, 0, 5)
            || d == NthWeekday(year, 9, 0, 1) || d == NthWeekday(year, 11, 3, 4)
       <==> d.year == year && Moves(d)
  {
    NthWeekdayExactly(year, 1, 0, 3, d);
    NthWeekdayExactly(year, 2, 0, 3, d);
    MemorialExactly(year, d);
    NthWeekdayExactly(year, 9, 0, 1, d);
    NthWeekdayExactly(year, 11, 3, 4, d);
  }

  lemma ListExactly(year: int, mlk: Day, presidents: Day, memorial: Day, labor: Day, thanksgiving: Day, d: Day)
    ensures d in HolidayList(year, mlk, presidents, memorial, labor, thanksgiving)
       <==> (d.year == year && Stays(d)) || d in GoodFriday(year)
            || d == mlk || d == presidents || d == memorial || d == labor || d == thanksgiving
  {
  }

  /** The fallback holidays of a year: the ones that stay, the ones that move, and a listed Good Friday. */
  lemma FallbackHolidaysExactly(year: int, d: Day)
    ensures d in FallbackHolidays(year) <==> (d.year == year && (Stays(d) || Moves(d))) || d in GoodFriday(year)
  {
    ListExactly(year, NthWeekday(year, 1, 0, 3), NthWeekday(year, 2, 0, 3), NthWeekday(year, 5, 0, 5),
                NthWeekday(year, 9, 0, 1), NthWeekday(year, 11, 3, 4), d);
    MovesExactly(year, d);
  }

  /** No date of the fallback list falls in August. */
  lemma NoAugustHoliday(year: int, d: Day)
    ensures d.month == 8 ==> d !in FallbackHolidays(year)
  {
    FallbackHolidaysExactly(year, d);
    GoodFridayExactly(year);
  }

  /** On the fallback list trading happens on the weekdays that are not such holidays. */
  lemma FallbackTradesExactly(d: Day)
    ensures IsTradingDay(Fallback(), d)
       <==> Weekday(d) <= 4 && !Stays(d) && !Moves(d) && d !in GoodFriday(d.year)
  {
    FallbackHolidaysExactly(d.year, d);
  }

  lemma EarlyAugustWeekday(year: int)
    ensures Weekday(Date(year, 8, 1)) < 5 || Weekday(Date(year, 8, 3)) < 5
  {
    WeekdayInMonth(year, 8, 1, 3);
  }

  lemma AugustTrades(year: int) returns (t: Day)
    ensures t.year == year && IsTradingDay(Fallback(), t)
  {
    EarlyAugustWeekday(year);
    var day := if Weekday(Date(year, 8, 1)) < 5 then 1 else 3;
    t := Date(year, 8, day);
    NoAugustHoliday(year, t);
  }

  lemma TradesNextAugust(d: Day)
    ensures TradesAgain(Fallback(), d)
  {
    var t := AugustTrades(d.year + 1);
    LaterYear(d, t);
    LaterIsPlus(d, t);
  }

  lemma LaterYear(d: Day, t: Day)
    requires t.year == d.year + 1
    ensures Ordinal(d) < Ordinal(t)
  {
    WithinYear(d);
    WithinYear(t);
  }

  /** The skip loops end on the fallback list: every August has a trading day. */
  lemma FallbackIsUnending()
    ensures Unending(Fallback())
  {
    forall d: Day ensures TradesAgain(Fallback(), d) {
      TradesNextAugust(d);
    }
  }
}
