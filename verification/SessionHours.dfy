/** Session state and the next-open, next-close and remaining-time searches, in Eastern wall-clock time. */
module SessionHours {
  import opened Options
  import opened Calendar

  const HOUR := 3_600_000_000
  const DAY := 24 * HOUR
  const REGULAR_OPEN := 9 * HOUR + HOUR / 2

  /** A wall-clock instant: a date and microseconds since midnight. */
  datatype Moment = Moment(date: Day, tod: int) {
    predicate Valid() { 0 <= tod < DAY }

    /** Microseconds on one time line. */
    function Instant(): int { Ordinal(date) * DAY + tod }

    function Hour(): int { tod / HOUR }
  }

  type Clock = m: Moment | m.Valid() witness Moment(Date(1, 1, 1), 0)

  // ---- Equities ----

  /** `_is_early_close_day`: the listed dates and the days around Thanksgiving close at 13:00. */
  predicate EarlyClose(src: Source, d: Day) {
    || (d.month == 12 && d.day == 24) || (d.month == 7 && d.day == 3) || (d.month == 7 && d.day == 5)
    || d == Prev(src.thanksgiving(d.year)) || d == Next(src.thanksgiving(d.year))
  }

  function CloseTime(src: Source, d: Day): (t: int)
    ensures 13 * HOUR <= t <= 16 * HOUR
  {
    if EarlyClose(src, d) then 13 * HOUR else 16 * HOUR
  }

  predicate IsEquityOpen(src: Source, m: Clock, extended: bool) {
    IsTradingDay(src, m.date)
    && (var close := CloseTime(src, m.date);
        || (extended && 8 * HOUR <= m.tod < REGULAR_OPEN)
        || (extended && close <= m.tod < 20 * HOUR)
        || REGULAR_OPEN <= m.tod <= close)
  }

  /** The days that close at 13:00: three fixed dates and the days on either side of Thanksgiving. */
  lemma EarlyCloseExactly(src: Source, d: Day)
    ensures EarlyClose(src, d)
       <==> (d.month, d.day) in {(12, 24), (7, 3), (7, 5)}
            || Next(d) == src.thanksgiving(d.year) || Prev(d) == src.thanksgiving(d.year)
  {
    PrevNext(d);
    PrevNext(src.thanksgiving(d.year));
  }

  lemma CloseTimeExactly(src: Source, d: Day)
    ensures CloseTime(src, d) == if EarlyClose(src, d) then 13 * 3_600_000_000 else 16 * 3_600_000_000
  {
  }

  /**
   * On a trading day the regular session is open from 9:30 to its close, and the extended one without a break from 8:00
   * until just before 20:00, early close or not.
   */
  lemma EquityOpenExactly(src: Source, m: Clock)
    ensures IsEquityOpen(src, m, false)
       <==> IsTradingDay(src, m.date) && 19 * 1_800_000_000 <= m.tod <= CloseTime(src, m.date)
    ensures IsEquityOpen(src, m, true)
       <==> IsTradingDay(src, m.date) && 8 * 3_600_000_000 <= m.tod < 20 * 3_600_000_000
  {
  }

  /** On the fallback list Thanksgiving is the fourth Thursday of November. */
  lemma FallbackThanksgivingExactly(year: int, d: Day)
    ensures d == Fallback().thanksgiving(year)
       <==> d.year == year && d.month == 11 && Weekday(d) == 3 && 22 <= d.day <= 28
  {
    NthWeekdayExactly(year, 11, 3, 4, d);
  }

  /** One microsecond earlier and later. */
  function JustBefore(m: Clock): Clock {
    if m.tod > 0 then Moment(m.date, m.tod - 1) else Moment(Prev(m.date), DAY - 1)
  }

  function JustAfter(m: Clock): Clock {
    if m.tod < DAY - 1 then Moment(m.date, m.tod + 1) else Moment(Next(m.date), 0)
  }

  /** The session is open now and was closed just before. */
  predicate Opens(src: Source, m: Clock, extended: bool) {
    IsEquityOpen(src, m, extended) && !IsEquityOpen(src, JustBefore(m), extended)
  }

  /** The regular session is open now and is closed just after. */
  predicate Closes(src: Source, m: Clock) {
    IsEquityOpen(src, m, false) && !IsEquityOpen(src, JustAfter(m), false)
  }

  function SessionStart(extended: bool): int {
    if extended then 8 * HOUR else REGULAR_OPEN
  }

  /** A session opens exactly at the start of a trading day's hours: 8:00 with extended hours, 9:30 without. */
  lemma OpensExactly(src: Source, m: Clock, extended: bool)
    ensures Opens(src, m, extended) <==> IsTradingDay(src, m.date) && m.tod == SessionStart(extended)
  {
  }

  /** And closes exactly at the close of a trading day. */
  lemma ClosesExactly(src: Source, m: Clock)
    ensures Closes(src, m) <==> IsTradingDay(src, m.date) && m.tod == CloseTime(src, m.date)
  {
  }

  /** `r` is the least instant strictly after `m` at which the regular session closes. */
  ghost predicate LeastCloseAfter(src: Source, m: Clock, r: Clock) {
    && Closes(src, r) && r.Instant() > m.Instant()
    && forall c: Clock :: Closes(src, c) && c.Instant() > m.Instant() ==> r.Instant() <= c.Instant()
  }

  /** The time of day the next-open search answers with: 8:30 for the extended session. */
  function AnswerTime(extended: bool): int {
    (if extended then 8 else 9) * HOUR + HOUR / 2
  }

  /** `r` is the least instant strictly after `m` at which the session opens. */
  ghost predicate LeastOpenAfter(src: Source, m: Clock, extended: bool, r: Clock) {
    && Opens(src, r, extended) && r.Instant() > m.Instant()
    && forall o: Clock :: Opens(src, o, extended) && o.Instant() > m.Instant() ==> r.Instant() <= o.Instant()
  }

  lemma TimeLine(x: int, s: int, y: int, t: int)
    requires 0 <= s < DAY && 0 <= t < DAY
    ensures x * DAY + s < y * DAY + t <==> x < y || (x == y && s < t)
  {
    assert x < y ==> (x + 1) * DAY <= y * DAY;
    assert y < x ==> (y + 1) * DAY <= x * DAY;
  }

  lemma EarlierDayEarlierInstant(a: Clock, b: Clock)
    ensures Ordinal(a.date) < Ordinal(b.date) ==> a.Instant() < b.Instant()
    ensures Ordinal(a.date) == Ordinal(b.date) ==> a.date == b.date && (a.Instant() < b.Instant() <==> a.tod < b.tod)
  {
    if Ordinal(a.date) == Ordinal(b.date) {
      OrdinalInjective(a.date, b.date);
    }
    TimeLine(Ordinal(a.date), a.tod, Ordinal(b.date), b.tod);
  }

  lemma NotBeforeFirstTrading(src: Source, m: Clock, r: Clock, c: Clock)
    requires FirstTradingFrom(src, Next(m.date), r.date) && IsTradingDay(src, c.date) && c.Instant() > m.Instant()
    requires Ordinal(c.date) == Ordinal(m.date) ==> c.tod <= m.tod
    requires c.date == r.date ==> c.tod == r.tod
    ensures r.Instant() <= c.Instant()
  {
    NextOrdinal(m.date);
    EarlierDayEarlierInstant(c, m);
    EarlierDayEarlierInstant(r, c);
  }

  lemma DaysApart(m: Clock, r: Clock)
    ensures Ordinal(r.date) > Ordinal(m.date) ==> r.Instant() - m.Instant() >= DAY - m.tod + r.tod
    ensures r.date == m.date ==> r.Instant() - m.Instant() == r.tod - m.tod
  {
    if Ordinal(r.date) > Ordinal(m.date) {
      OrdinalGap(Ordinal(m.date), Ordinal(r.date));
    }
  }

  lemma OrdinalGap(x: int, y: int)
    requires x < y
    ensures y * DAY - x * DAY >= DAY
  {
  }

  /** The close of the first trading day from tomorrow is the least close after `m` unless today's is still to come. */
  lemma LaterCloseIsLeast(src: Source, m: Clock, r: Clock)
    requires FirstTradingFrom(src, Next(m.date), r.date) && r.tod == CloseTime(src, r.date)
    requires !IsTradingDay(src, m.date) || m.tod >= CloseTime(src, m.date)
    ensures LeastCloseAfter(src, m, r)
  {
    LaterDay(src, m, r);
    ClosesExactly(src, r);
    forall c: Clock | Closes(src, c) && c.Instant() > m.Instant() ensures r.Instant() <= c.Instant() {
      ClosesExactly(src, c);
      if Ordinal(c.date) == Ordinal(m.date) {
        OrdinalInjective(c.date, m.date);
      }
      NotBeforeFirstTrading(src, m, r, c);
    }
  }

  lemma TodaysCloseIsLeast(src: Source, m: Clock, r: Clock)
    requires IsTradingDay(src, m.date) && m.tod < CloseTime(src, m.date)
    requires r.date == m.date && r.tod == CloseTime(src, m.date)
    ensures LeastCloseAfter(src, m, r)
  {
    EarlierDayEarlierInstant(m, r);
    ClosesExactly(src, r);
    forall c: Clock | Closes(src, c) && c.Instant() > m.Instant() ensures r.Instant() <= c.Instant() {
      ClosesExactly(src, c);
      SameDayIsLeast(m, r, c);
    }
  }

  /** Later instants fall on the same day or on later ones. */
  lemma SameDayIsLeast(m: Clock, r: Clock, c: Clock)
    requires r.date == m.date && c.Instant() > m.Instant() && (c.date == m.date ==> c.tod == r.tod)
    ensures r.Instant() <= c.Instant()
  {
    EarlierDayEarlierInstant(c, m);
    EarlierDayEarlierInstant(r, c);
  }

  /** Today's opening is still to come. */
  predicate OpensToday(src: Source, m: Clock, extended: bool) {
    IsTradingDay(src, m.date) && m.tod < SessionStart(extended)
  }

  /**
   * When today's opening is not to come, every later opening falls on the first trading day from tomorrow or after
   * it.
   */
  lemma LaterOpen(src: Source, m: Clock, extended: bool, r: Clock, o: Clock)
    requires FirstTradingFrom(src, Next(m.date), r.date) && r.tod == SessionStart(extended)
    requires !OpensToday(src, m, extended) && Opens(src, o, extended) && o.Instant() > m.Instant()
    ensures r.Instant() <= o.Instant()
  {
    OpensExactly(src, o, extended);
    if Ordinal(o.date) == Ordinal(m.date) {
      OrdinalInjective(o.date, m.date);
    }
    NotBeforeFirstTrading(src, m, r, o);
  }

  lemma LaterDay(src: Source, m: Clock, r: Clock)
    requires FirstTradingFrom(src, Next(m.date), r.date)
    ensures Ordinal(r.date) > Ordinal(m.date) && r.Instant() > m.Instant()
  {
    NextOrdinal(m.date);
    TimeLine(Ordinal(m.date), m.tod, Ordinal(r.date), r.tod);
  }

  lemma EarlierOpening(src: Source, m: Clock, extended: bool, r: Clock, o: Clock)
    requires Opens(src, o, extended) && m.Instant() < o.Instant() < r.Instant()
    ensures !LeastOpenAfter(src, m, extended, r)
  {
  }

  lemma SkippedToday(src: Source, m: Clock, extended: bool, r: Clock)
    requires Ordinal(r.date) > Ordinal(m.date) && OpensToday(src, m, extended)
    ensures !LeastOpenAfter(src, m, extended, r)
  {
    var o: Clock := Moment(m.date, SessionStart(extended));
    OpensExactly(src, o, extended);
    TimeLine(Ordinal(m.date), m.tod, Ordinal(m.date), o.tod);
    TimeLine(Ordinal(m.date), o.tod, Ordinal(r.date), r.tod);
    EarlierOpening(src, m, extended, r, o);
  }

  lemma NothingOpensBefore(src: Source, m: Clock, extended: bool, r: Clock)
    requires FirstTradingFrom(src, Next(m.date), r.date) && r.tod == SessionStart(extended)
    requires !OpensToday(src, m, extended)
    ensures LeastOpenAfter(src, m, extended, r)
  {
    LaterDay(src, m, r);
    OpensExactly(src, r, extended);
    forall o: Clock | Opens(src, o, extended) && o.Instant() > m.Instant() ensures r.Instant() <= o.Instant() {
      LaterOpen(src, m, extended, r, o);
    }
  }

  /**
   * The opening of the first trading day from tomorrow is the least after `m` exactly when today's is not still to
   * come.
   */
  lemma TomorrowOpensFirstIff(src: Source, m: Clock, extended: bool, r: Clock)
    requires FirstTradingFrom(src, Next(m.date), r.date) && r.tod == SessionStart(extended)
    ensures LeastOpenAfter(src, m, extended, r) <==> !OpensToday(src, m, extended)
  {
    LaterDay(src, m, r);
    if OpensToday(src, m, extended) {
      SkippedToday(src, m, extended, r);
    } else {
      NothingOpensBefore(src, m, extended, r);
    }
  }

  /**
   * The extended answer comes half an hour into the session: its day opens at 8:00, after the query and before the
   * answer.
   */
  lemma ExtendedAnswerIsLate(src: Source, m: Clock, r: Clock)
    requires FirstTradingFrom(src, Next(m.date), r.date) && r.tod == AnswerTime(true)
    ensures var o: Clock := Moment(r.date, 8 * HOUR);
            && Opens(src, o, true) && m.Instant() < o.Instant() == r.Instant() - HOUR / 2
            && (LeastOpenAfter(src, m, true, o) <==> !OpensToday(src, m, true))
    ensures !LeastOpenAfter(src, m, true, r)
  {
    var o: Clock := Moment(r.date, 8 * HOUR);
    OpensExactly(src, o, true);
    OpensExactly(src, r, true);
    LaterDay(src, m, o);
    TomorrowOpensFirstIff(src, m, true, o);
  }

  /**
   * The search always skips today and answers 8:30 for the extended session, so its answer is the least opening after
   * the query exactly for the regular session when today's opening is not still to come.
   */
  lemma NextOpenIsLeastIff(src: Source, m: Clock, extended: bool, r: Clock)
    requires FirstTradingFrom(src, Next(m.date), r.date) && r.tod == AnswerTime(extended)
    ensures LeastOpenAfter(src, m, extended, r) <==> !extended && !OpensToday(src, m, extended)
  {
    if extended {
      ExtendedAnswerIsLate(src, m, r);
    } else {
      TomorrowOpensFirstIff(src, m, false, r);
    }
  }

  // ---- Futures ----

  predicate OpenAt(weekday: int, tod: int) {
    || (weekday == 6 && tod / HOUR >= 18)
    || 0 <= weekday <= 3
    || (weekday == 4 && tod / HOUR < 17)
  }

  predicate IsFuturesOpen(m: Clock) {
    OpenAt(Weekday(m.date), m.tod)
  }

  function NextFuturesOpen(m: Clock): Clock {
    var w := Weekday(m.date);
    if w == 4 && m.Hour() >= 17 then Moment(Plus(m.date, 2), 18 * HOUR)
    else if w == 5 then Moment(Plus(m.date, 1), 18 * HOUR)
    else if w == 6 && m.Hour() < 18 then Moment(m.date, 18 * HOUR)
    else m
  }

  function NextFuturesClose(m: Clock): Option<Clock> {
    var w := Weekday(m.date);
    if w == 4 && m.Hour() < 17 then Some(Moment(m.date, 17 * HOUR))
    else if w < 4 then Some(Moment(Plus(m.date, 4 - w), 17 * HOUR))
    else None
  }

  lemma PlusWeekday(d: Day, k: nat)
    ensures Weekday(Plus(d, k)) == (Weekday(d) + k) % 7
  {
    PlusOrdinal(d, k);
    ShiftedWeekday(d, Plus(d, k), k);
  }

  /** An instant between two others: how many days on, and how the times of day compare at the ends. */
  lemma DayBetween(a: Clock, t: Clock, b: Clock)
    requires a.Instant() <= t.Instant() < b.Instant()
    ensures Ordinal(a.date) <= Ordinal(t.date) <= Ordinal(b.date)
    ensures Ordinal(t.date) == Ordinal(a.date) ==> a.tod <= t.tod
    ensures Ordinal(t.date) == Ordinal(b.date) ==> t.tod < b.tod
  {
    TimeLine(Ordinal(t.date), t.tod, Ordinal(a.date), a.tod);
    TimeLine(Ordinal(t.date), t.tod, Ordinal(b.date), b.tod);
  }

  lemma HourOf(m: Clock, h: int)
    ensures m.Hour() >= h <==> m.tod >= h * HOUR
  {
  }

  /** `r` is Sunday 18:00 of the week of `m`, and `m` lies in the weekend break before it. */
  predicate SundayEveningAfter(m: Clock, r: Clock) {
    && Weekday(r.date) == 6 && r.tod == 18 * HOUR && Ordinal(r.date) - Ordinal(m.date) == 6 - Weekday(m.date)
    && (Weekday(m.date) >= 5 || (Weekday(m.date) == 4 && m.tod >= 17 * HOUR))
  }

  lemma NextFuturesOpenFacts(m: Clock)
    ensures var r := NextFuturesOpen(m);
            && IsFuturesOpen(r) && r.Instant() >= m.Instant()
            && (r != m ==> SundayEveningAfter(m, r))
  {
    PlusWeekday(m.date, 1);
    PlusWeekday(m.date, 2);
    PlusOrdinal(m.date, 1);
    PlusOrdinal(m.date, 2);
    EarlierDayEarlierInstant(m, NextFuturesOpen(m));
    HourOf(m, 17);
    HourOf(m, 18);
    HourOf(NextFuturesOpen(m), 18);
  }

  lemma ClosedWeekendAt(w: int, start: int, k: int, tod: int)
    requires 4 <= w <= 6 && 0 <= k <= 6 - w && (w == 4 ==> start >= 17 * HOUR)
    requires (k == 0 ==> start <= tod) && (k == 6 - w ==> tod < 18 * HOUR)
    ensures !OpenAt((w + k) % 7, tod)
  {
  }

  /** From the Friday close to Sunday 18:00 nothing is open. */
  lemma ClosedWeekend(m: Clock, t: Clock, r: Clock)
    requires SundayEveningAfter(m, r) && m.Instant() <= t.Instant() < r.Instant()
    ensures !IsFuturesOpen(t)
  {
    DayBetween(m, t, r);
    LaterWeekday(m.date, t.date);
    ClosedWeekendAt(Weekday(m.date), m.tod, Ordinal(t.date) - Ordinal(m.date), t.tod);
  }

  /** Futures next-open is the least open instant at or after the query. */
  lemma FuturesNextOpenIsLeast(m: Clock, t: Clock)
    ensures var r := NextFuturesOpen(m);
            && IsFuturesOpen(r) && r.Instant() >= m.Instant()
            && (m.Instant() <= t.Instant() && IsFuturesOpen(t) ==> r.Instant() <= t.Instant())
  {
    NextFuturesOpenFacts(m);
    var r := NextFuturesOpen(m);
    if r != m && m.Instant() <= t.Instant() < r.Instant() {
      ClosedWeekend(m, t, r);
    }
  }

  /**
   * From Monday to the Friday close, futures next-close is the first closed instant at or after the query; otherwise
   * there is none.
   */
  lemma FuturesNextCloseIsFirst(m: Clock, t: Clock)
    ensures NextFuturesClose(m).Some? <==> IsFuturesOpen(m) && Weekday(m.date) != 6
    ensures NextFuturesClose(m).Some? ==>
              var r := NextFuturesClose(m).value;
              && !IsFuturesOpen(r) && r.Instant() > m.Instant()
              && (m.Instant() <= t.Instant() < r.Instant() ==> IsFuturesOpen(t))
  {
    HourOf(m, 17);
    if NextFuturesClose(m).Some? {
      FridayClose(m);
      if m.Instant() <= t.Instant() < NextFuturesClose(m).value.Instant() {
        OpenUntilFriday(m, t);
      }
    }
  }

  lemma FridayDate(d: Day, k: nat)
    requires Weekday(d) + k == 4
    ensures Weekday(Plus(d, k)) == 4 && Ordinal(Plus(d, k)) == Ordinal(d) + k
  {
    PlusOrdinal(d, k);
    PlusWeekday(d, k);
    Mod7Small(Weekday(d) + k);
  }

  lemma FridayClose(m: Clock)
    requires NextFuturesClose(m).Some?
    ensures var r := NextFuturesClose(m).value;
            && r.tod == 17 * HOUR && Weekday(r.date) == 4 && Ordinal(r.date) == Ordinal(m.date) + 4 - Weekday(m.date)
            && r.Instant() > m.Instant()
  {
    var r := NextFuturesClose(m).value;
    FridayDate(m.date, 4 - Weekday(m.date));
    HourOf(m, 17);
    TimeLine(Ordinal(m.date), m.tod, Ordinal(r.date), r.tod);
  }

  lemma OpenUntilFriday(m: Clock, t: Clock)
    requires NextFuturesClose(m).Some? && m.Instant() <= t.Instant() < NextFuturesClose(m).value.Instant()
    ensures IsFuturesOpen(t)
  {
    FridayClose(m);
    OpenWeek(m, t, NextFuturesClose(m).value);
  }

  lemma OpenWeekAt(w: int, k: int, tod: int)
    requires 0 <= w <= 4 && 0 <= k <= 4 - w && (k == 4 - w ==> tod < 17 * HOUR)
    ensures OpenAt((w + k) % 7, tod)
  {
  }

  lemma OpenWeek(m: Clock, t: Clock, r: Clock)
    requires r.tod == 17 * HOUR && Weekday(m.date) <= 4 && Ordinal(r.date) == Ordinal(m.date) + 4 - Weekday(m.date)
    requires m.Instant() <= t.Instant() < r.Instant()
    ensures IsFuturesOpen(t)
  {
    DayBetween(m, t, r);
    LaterWeekday(m.date, t.date);
    OpenWeekAt(Weekday(m.date), Ordinal(t.date) - Ordinal(m.date), t.tod);
  }

  /** The one open stretch without an answer: on Sunday evening the session is open and next-close is missing. */
  lemma SundayEveningHasNoClose(m: Clock)
    ensures IsFuturesOpen(m) && NextFuturesClose(m).None? <==> Weekday(m.date) == 6 && m.Hour() >= 18
  {
  }

  // ---- The session manager ----

  datatype Session = Crypto | Equity | Futures

  /** Seconds to go: closed sessions have none, sessions without a close have no bound. */
  datatype Remaining = Closed | Micros(n: int) | Unbounded

  class SessionManager {
    const src: Source
    var holidayCache: map<int, set<Date>>

    ghost predicate Valid()
      reads this
    {
      forall y :: y in holidayCache ==> holidayCache[y] == src.holidays(y)
    }

    constructor (src: Source)
      ensures Valid() && this.src == src
    {
      this.src := src;
      holidayCache := map[];
    }

    method GetHolidays(year: int) returns (dates: set<Date>)
      requires Valid()
      modifies this
      ensures Valid() && dates == src.holidays(year)
    {
      if year in holidayCache {
        return holidayCache[year];
      }
      dates := src.holidays(year);
      holidayCache := holidayCache[year := dates];
    }

    method IsTrading(d: Day) returns (b: bool)
      requires Valid()
      modifies this
      ensures Valid() && b == IsTradingDay(src, d)
    {
      if Weekday(d) >= 5 {
        return false;
      }
      var dates := GetHolidays(d.year);
      return d !in dates;
    }

    /** The skip loop of both searches: it ends, at the first trading day from `d`. */
    method SkipToTradingDay(d: Day) returns (r: Day)
      requires Valid() && Unending(src)
      modifies this
      ensures Valid() && FirstTradingFrom(src, d, r)
    {
      assert TradesAgain(src, d);
      ghost var k: nat :| IsTradingDay(src, Plus(d, k));
      ghost var bound := Ordinal(Plus(d, k));
      PlusOrdinal(d, k);
      r := d;
      var trading := IsTrading(r);
      while !trading
        invariant Valid() && trading == IsTradingDay(src, r)
        invariant Ordinal(d) <= Ordinal(r) <= bound
        invariant forall t: Day :: IsTradingDay(src, t) && Ordinal(d) <= Ordinal(t) ==> Ordinal(r) <= Ordinal(t)
        decreases bound - Ordinal(r)
      {
        forall t: Day | IsTradingDay(src, t) && Ordinal(d) <= Ordinal(t) ensures Ordinal(r) + 1 <= Ordinal(t) {
          if Ordinal(t) == Ordinal(r) {
            OrdinalInjective(t, r);
          }
        }
        assert Ordinal(r) + 1 <= Ordinal(Plus(d, k));
        NextOrdinal(r);
        r := Next(r);
        trading := IsTrading(r);
      }
    }

    /**
     * In session on the least trading day after today; the least opening after the query exactly as
     * `NextOpenIsLeastIff` says.
     */
    ghost predicate NextOpenAnswer(m: Clock, extended: bool, r: Clock) {
      && FirstTradingFrom(src, Next(m.date), r.date) && r.tod == AnswerTime(extended)
      && IsEquityOpen(src, r, extended)
      && (LeastOpenAfter(src, m, extended, r) <==> !extended && !OpensToday(src, m, extended))
    }

    lemma AnswersNextOpen(m: Clock, extended: bool, r: Clock)
      requires FirstTradingFrom(src, Next(m.date), r.date) && r.tod == AnswerTime(extended)
      ensures NextOpenAnswer(m, extended, r)
    {
      NextOpenIsLeastIff(src, m, extended, r);
    }

    /** Next open falls on the least trading day after today, inside that day's session. */
    method NextEquityOpen(m: Clock, extended: bool) returns (r: Clock)
      requires Valid() && Unending(src)
      modifies this
      ensures Valid()
      ensures NextOpenAnswer(m, extended, r)
    {
      var day := SkipToTradingDay(Next(m.date));
      r := Moment(day, AnswerTime(extended));
      AnswersNextOpen(m, extended, r);
    }

    /** The least trading-day close strictly after the query: today's when it is still to come, else a later day's. */
    ghost predicate NextCloseAnswer(m: Clock, r: Clock) {
      && LeastCloseAfter(src, m, r) && r.tod == CloseTime(src, r.date)
      && if IsTradingDay(src, m.date) && m.tod < CloseTime(src, m.date) then r.date == m.date
         else Ordinal(r.date) > Ordinal(m.date)
    }

    lemma AnswersNextClose(m: Clock, r: Clock)
      requires r.tod == CloseTime(src, r.date)
      requires if IsTradingDay(src, m.date) && m.tod < CloseTime(src, m.date) then r.date == m.date
               else FirstTradingFrom(src, Next(m.date), r.date)
      ensures NextCloseAnswer(m, r)
    {
      if IsTradingDay(src, m.date) && m.tod < CloseTime(src, m.date) {
        TodaysCloseIsLeast(src, m, r);
      } else {
        LaterDay(src, m, r);
        LaterCloseIsLeast(src, m, r);
      }
    }

    method NextEquityClose(m: Clock) returns (r: Clock)
      requires Valid() && Unending(src)
      modifies this
      ensures Valid() && NextCloseAnswer(m, r)
    {
      var close := CloseTime(src, m.date);
      var trading := IsTrading(m.date);
      if m.tod < close && trading {
        r := Moment(m.date, close);
      } else {
        var day := SkipToTradingDay(Next(m.date));
        r := Moment(day, CloseTime(src, day));
      }
      AnswersNextClose(m, r);
    }

    /**
     * Inside the session and before its close the answer is today's close minus now; at the very instant of the close
     * the session still counts as open and the answer runs to a later day's close.
     */
    method RemainingEquityTime(m: Clock) returns (left: Remaining)
      requires Valid() && Unending(src)
      modifies this
      ensures Valid()
      ensures left == Closed <==> !IsEquityOpen(src, m, false)
      ensures IsEquityOpen(src, m, false) && m.tod < CloseTime(src, m.date)
              ==> left == Micros(CloseTime(src, m.date) - m.tod)
      ensures IsEquityOpen(src, m, false) && m.tod == CloseTime(src, m.date) ==> left.Micros? && left.n > 20 * HOUR
    {
      if !IsEquityOpen(src, m, false) {
        return Closed;
      }
      var close := NextEquityClose(m);
      DaysApart(m, close);
      return Micros(close.Instant() - m.Instant());
    }

    method RemainingTime(session: Session, m: Clock) returns (left: Remaining)
      requires Valid() && (session.Equity? ==> Unending(src))
      modifies this
      ensures Valid()
      ensures session.Crypto? ==> left == Unbounded
      ensures session.Futures? ==>
                left == if !IsFuturesOpen(m) then Closed
                        else if Weekday(m.date) == 6 then Unbounded
                        else Micros((4 - Weekday(m.date)) * 86_400_000_000 + 17 * 3_600_000_000 - m.tod)
      ensures session.Equity? ==> (left == Closed <==> !IsEquityOpen(src, m, false))
      ensures session.Equity? && left.Micros? && m.tod < CloseTime(src, m.date)
              ==> left.n == CloseTime(src, m.date) - m.tod
    {
      match session {
        case Crypto =>
          return Unbounded;
        case Futures =>
          if !IsFuturesOpen(m) {
            return Closed;
          }
          var close := NextFuturesClose(m);
          FuturesNextCloseIsFirst(m, m);
          if close.Some? {
            FridayClose(m);
          }
          return if close.None? then Unbounded else Micros(close.value.Instant() - m.Instant());
        case Equity =>
          left := RemainingEquityTime(m);
      }
    }
  }

  /** On the fallback list both equity searches always end. */
  method FallbackSessionManager() returns (manager: SessionManager)
    ensures fresh(manager) && manager.Valid() && manager.src == Fallback() && Unending(manager.src)
  {
    manager := new SessionManager(Fallback());
    FallbackIsUnending();
  }
}
