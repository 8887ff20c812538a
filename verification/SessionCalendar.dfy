/**
  The published 2026-2028 session calendar, the forward searches over it, and the dates
  from which a registration is covered.
 */
module SessionCalendar {
  import opened Wrappers
  import opened Dates
  import MarketRules

  function CoverageStart(): int { DayNumber(2026, 1, 1) }

  function CoverageEnd(): int { DayNumber(2028, 12, 31) }

  function Holidays2026(): set<int> {
    {DayNumber(2026, 1, 1), DayNumber(2026, 1, 19), DayNumber(2026, 2, 16), DayNumber(2026, 4, 3),
    DayNumber(2026, 5, 25), DayNumber(2026, 6, 19), DayNumber(2026, 7, 3), DayNumber(2026, 9, 7),
    DayNumber(2026, 11, 26), DayNumber(2026, 12, 25)}
  }

  function Holidays2027(): set<int> {
    {DayNumber(2027, 1, 1), DayNumber(2027, 1, 18), DayNumber(2027, 2, 15), DayNumber(2027, 3, 26),
    DayNumber(2027, 5, 31), DayNumber(2027, 6, 18), DayNumber(2027, 7, 5), DayNumber(2027, 9, 6),
    DayNumber(2027, 11, 25), DayNumber(2027, 12, 24)}
  }

  function Holidays2028(): set<int> {
    {DayNumber(2028, 1, 17), DayNumber(2028, 2, 21), DayNumber(2028, 4, 14), DayNumber(2028, 5, 29),
    DayNumber(2028, 6, 19), DayNumber(2028, 7, 4), DayNumber(2028, 9, 4), DayNumber(2028, 11, 23),
    DayNumber(2028, 12, 25)}
  }

  predicate PublishedHoliday(n: int) {
    n in Holidays2026() || n in Holidays2027() || n in Holidays2028()
  }

  predicate EarlyCloseDay(n: int) {
    n in {DayNumber(2026, 11, 27), DayNumber(2026, 12, 24), DayNumber(2027, 11, 26),
    DayNumber(2028, 7, 3), DayNumber(2028, 11, 24)}
  }

  // Times of day are microseconds since local midnight.
  const HOUR: nat := 3_600_000_000
  const REGULAR_CLOSE: nat := 16 * HOUR
  const EARLY_CLOSE: nat := 13 * HOUR

  datatype Session = Closed | Trading(close: nat)

  datatype CalendarError = NotCovered | UnsupportedPolicy

  function MarketSession(n: int): Result<Session, CalendarError> {
    if !(CoverageStart() <= n <= CoverageEnd()) then Err(NotCovered)
    else if Weekday(n) >= 5 || PublishedHoliday(n) then Ok(Closed)
    else Ok(Trading(if EarlyCloseDay(n) then EARLY_CLOSE else REGULAR_CLOSE))
  }

  function NextMarketDay(n: int): Result<int, CalendarError>
    decreases CoverageEnd() - n
  {
    match MarketSession(n)
    case Err(e) => Err(e)
    case Ok(Trading(_)) => Ok(n)
    case Ok(Closed) => NextMarketDay(n + 1)
  }

  method FindNextMarketDay(n: int) returns (r: Result<int, CalendarError>)
    ensures r == NextMarketDay(n)
    ensures r.Ok? ==> r.value >= n && IsSession(r.value) && forall k :: n <= k < r.value ==> !IsSession(k)
  {
    hide CoverageStart, CoverageEnd, PublishedHoliday, EarlyCloseDay, Weekday;
    var current := n;
    var session := MarketSession(current);
    while session == Ok(Closed)
      invariant session == MarketSession(current) && n <= current
      invariant NextMarketDay(current) == NextMarketDay(n)
      invariant forall k :: n <= k < current ==> !IsSession(k)
      decreases CoverageEnd() - current
    {
      current := current + 1;
      session := MarketSession(current);
    }
    return if session.Ok? then Ok(current) else Err(session.error);
  }

  // A registration in New York local time.
  datatype Registration = Registration(day: int, time: nat)

  function FirstEligibleSession(reg: Registration): Result<int, CalendarError> {
    match MarketSession(reg.day)
    case Err(e) => Err(e)
    case Ok(Closed) => NextMarketDay(reg.day + 1)
    case Ok(Trading(close)) => if reg.time <= close then Ok(reg.day) else NextMarketDay(reg.day + 1)
  }

  function NextSessionAfter(reg: Registration): Result<int, CalendarError> {
    NextMarketDay(reg.day + 1)
  }

  datatype Policy = FirstEligible | NextSession | Unknown

  function CoverageInception(reg: Registration, policy: Policy): Result<int, CalendarError> {
    match policy
    case FirstEligible => FirstEligibleSession(reg)
    case NextSession => NextSessionAfter(reg)
    case Unknown => Err(UnsupportedPolicy)
  }

  // ---------- What the searches find ----------

  predicate IsSession(n: int) {
    MarketSession(n).Ok? && MarketSession(n).value.Trading?
  }

  ghost predicate LeastFrom(n: int, r: int) {
    n <= r && IsSession(r) && forall k :: n <= k < r ==> !IsSession(k)
  }

  lemma {:induction false} NextMarketDayIsLeast(n: int, r: int)
    ensures NextMarketDay(n) == Ok(r) <==> CoverageStart() <= n && LeastFrom(n, r)
    ensures NextMarketDay(n).Err? ==> NextMarketDay(n) == Err(NotCovered)
    decreases CoverageEnd() - n
  {
    hide CoverageStart, CoverageEnd, PublishedHoliday, EarlyCloseDay, Weekday;
    if MarketSession(n) == Ok(Closed) {
      NextMarketDayIsLeast(n + 1, r);
      assert !IsSession(n);
      if LeastFrom(n + 1, r) { assert LeastFrom(n, r); }
    } else if MarketSession(n).Err? {
      assert IsSession(r) ==> r <= CoverageEnd();
    } else {
      assert IsSession(n);
    }
  }

  // A session in which a registration can still take part.
  predicate Eligible(reg: Registration, s: int) {
    IsSession(s) && (reg.day < s || (reg.day == s && reg.time <= MarketSession(s).value.close))
  }

  lemma FirstEligibleIsLeast(reg: Registration, s: int)
    ensures FirstEligibleSession(reg) == Ok(s)
            <==> CoverageStart() <= reg.day <= CoverageEnd() && Eligible(reg, s) && forall k :: k < s ==> !Eligible(reg, k)
  {
    NextMarketDayIsLeast(reg.day + 1, s);
    hide CoverageStart, CoverageEnd, PublishedHoliday, EarlyCloseDay, Weekday, NextMarketDay;
    if Eligible(reg, reg.day) {
      assert FirstEligibleSession(reg) == Ok(reg.day);
    } else if CoverageStart() <= reg.day <= CoverageEnd() {
      assert FirstEligibleSession(reg) == NextMarketDay(reg.day + 1);
      if LeastFrom(reg.day + 1, s) {
        forall k | k < s ensures !Eligible(reg, k) {}
      }
      if Eligible(reg, s) && forall k :: k < s ==> !Eligible(reg, k) {
        forall k | reg.day + 1 <= k < s ensures !IsSession(k) { assert !Eligible(reg, k); }
        assert LeastFrom(reg.day + 1, s);
      }
    }
  }

  function TimeOfDay(hour: nat, minute: nat, second: nat, microsecond: nat): nat {
    ((hour * 60 + minute) * 60 + second) * 1_000_000 + microsecond
  }

  // A registration still takes part in the session of its own day exactly until four in the
  // afternoon, and until one on a day that closes early, to the microsecond.
  lemma SameDayUntilTheClose(day: int, hour: nat, minute: nat, second: nat, microsecond: nat)
    requires minute < 60 && second < 60 && microsecond < 1_000_000
    ensures var close := if EarlyCloseDay(day) then 13 else 16;
            FirstEligibleSession(Registration(day, TimeOfDay(hour, minute, second, microsecond))) == Ok(day) <==>
              IsSession(day) && (hour < close || (hour == close && minute == 0 && second == 0 && microsecond == 0))
  {
    hide CoverageStart, CoverageEnd, PublishedHoliday, EarlyCloseDay, Weekday;
    NextMarketDayIsLeast(day + 1, day);
  }

  predicate Before(a: Registration, b: Registration) {
    a.day < b.day || (a.day == b.day && a.time <= b.time)
  }

  // Registering earlier never delays either inception date.
  lemma InceptionIsMonotone(a: Registration, b: Registration, policy: Policy)
    requires Before(a, b) && CoverageInception(b, policy).Ok?
    requires a.day >= CoverageStart() - (if policy.NextSession? then 1 else 0)
    ensures CoverageInception(a, policy).Ok?
    ensures CoverageInception(a, policy).value <= CoverageInception(b, policy).value
  {
    hide CoverageStart, CoverageEnd, PublishedHoliday, EarlyCloseDay, Weekday;
    var s := CoverageInception(b, policy).value;
    NextMarketDayIsLeast(b.day + 1, s);
    if policy.FirstEligible? {
      FirstEligibleIsLeast(b, s);
      assert Eligible(a, s);
      var t := LeastEligible(a, s);
      FirstEligibleIsLeast(a, t);
    } else {
      var t := LeastSession(a.day + 1, s);
      NextMarketDayIsLeast(a.day + 1, t);
    }
  }

  lemma {:induction false} LeastSession(n: int, s: int) returns (t: int)
    requires IsSession(s) && n <= s
    ensures LeastFrom(n, t) && t <= s
    decreases s - n
  {
    hide MarketSession;
    if IsSession(n) {
      t := n;
    } else {
      t := LeastSession(n + 1, s);
    }
  }

  lemma LeastEligible(reg: Registration, s: int) returns (t: int)
    requires Eligible(reg, s)
    ensures Eligible(reg, t) && t <= s && forall k :: k < t ==> !Eligible(reg, k)
  {
    hide MarketSession;
    if Eligible(reg, reg.day) {
      t := reg.day;
    } else {
      t := LeastSession(reg.day + 1, s);
    }
  }

  // The two policies: the conservative one is never earlier, and they agree exactly when
  // the registration missed the session of its own day.
  lemma PoliciesCompared(reg: Registration)
    requires FirstEligibleSession(reg).Ok? && NextSessionAfter(reg).Ok?
    ensures FirstEligibleSession(reg).value <= NextSessionAfter(reg).value
    ensures FirstEligibleSession(reg).value == NextSessionAfter(reg).value <==> !Eligible(reg, reg.day)
  {
    hide CoverageStart, CoverageEnd, PublishedHoliday, EarlyCloseDay, Weekday;
    NextMarketDayIsLeast(reg.day + 1, NextSessionAfter(reg).value);
    FirstEligibleIsLeast(reg, FirstEligibleSession(reg).value);
  }

  // ---------- The published table and the rules of the readiness endpoint ----------

  // The day of the year of each rule-based holiday in the covered years; 0 is 31 December
  // of the year before, where the rules put New Year's Day 2028.
  function HolidayOffsets(y: nat): seq<int> {
    if y == 2026 then [1, 19, 47, 93, 145, 170, 184, 250, 330, 359]
    else if y == 2027 then [1, 18, 46, 85, 151, 169, 186, 249, 329, 358]
    else [0, 17, 52, 105, 150, 171, 186, 248, 328, 360]
  }

  lemma CoveredYears(y: nat)
    requires 2026 <= y <= 2029
    ensures DaysBeforeYear(y) == if y == 2026 then 739616 else if y == 2027 then 739981 else if y == 2028 then 740346 else 740712
    ensures LeapDay(y) == if y == 2028 then 1 else 0
  {
    assert (y - 1) / 4 == if y == 2029 then 507 else 506;
    assert (y - 1) / 100 == 20 && (y - 1) / 400 == 5;
  }

  // Weekdays in the covered years, from the weekday of the day before 1 January.
  lemma WeekdayInYear(y: nat, k: nat)
    requires 2026 <= y <= 2028
    ensures Weekday(DaysBeforeYear(y) + k) == (y - 2024 + k) % 7
  {
    CoveredYears(y);
    hide DaysBeforeYear;
    var n := DaysBeforeYear(y);
    assert n + 6 == 7 * (if y == 2026 then 105660 else if y == 2027 then 105712 else 105764) + (y - 2024);
  }

  lemma NthIs(y: nat, m: int, weekday: int, occurrence: int, offset: nat)
    requires 2026 <= y <= 2028 && 1 <= m <= 12 && 0 <= weekday < 7 && 1 <= occurrence <= 4
    requires 7 * occurrence - 7 < offset - DaysBeforeMonth(y, m) <= 7 * occurrence
    requires (y - 2024 + offset) % 7 == weekday
    ensures MarketRules.NthWeekday(y, m, weekday, occurrence) == DaysBeforeYear(y) + offset
  {
    hide *;
    WeekdayInYear(y, offset);
    NthInWeek(y, m, weekday, occurrence, offset);
    var x, n := MarketRules.NthWeekday(y, m, weekday, occurrence), DaysBeforeYear(y) + offset;
    var end := DayNumber(y, m, 7 * occurrence);
    if x <= n { MarketRules.WithinOneWeek(x, n, end, weekday); } else { MarketRules.WithinOneWeek(n, x, end, weekday); }
  }

  lemma NthInWeek(y: nat, m: int, weekday: int, occurrence: int, offset: nat)
    requires 2026 <= y <= 2028 && 1 <= m <= 12 && 0 <= weekday < 7 && 1 <= occurrence <= 4
    requires 7 * occurrence - 7 < offset - DaysBeforeMonth(y, m) <= 7 * occurrence
    ensures var end, x, n := DayNumber(y, m, 7 * occurrence), MarketRules.NthWeekday(y, m, weekday, occurrence),
                             DaysBeforeYear(y) + offset;
            end - 7 < x <= end && end - 7 < n <= end && Weekday(x) == weekday
  {
    hide MarketRules.NthWeekday, DaysBeforeYear, DaysBeforeMonth, Weekday;
    MarketRules.NthNearby(y, m, weekday, occurrence);
  }

  lemma NthHolidays(y: nat)
    requires 2026 <= y <= 2028
    ensures MarketRules.NthWeekday(y, 1, 0, 3) == DaysBeforeYear(y) + HolidayOffsets(y)[1]
    ensures MarketRules.NthWeekday(y, 2, 0, 3) == DaysBeforeYear(y) + HolidayOffsets(y)[2]
    ensures MarketRules.NthWeekday(y, 9, 0, 1) == DaysBeforeYear(y) + HolidayOffsets(y)[7]
    ensures MarketRules.NthWeekday(y, 11, 3, 4) == DaysBeforeYear(y) + HolidayOffsets(y)[8]
  {
    CoveredYears(y);
    hide DaysBeforeYear, LeapDay, MarketRules.NthWeekday;
    NthIs(y, 1, 0, 3, HolidayOffsets(y)[1]);
    NthIs(y, 2, 0, 3, HolidayOffsets(y)[2]);
    NthIs(y, 9, 0, 1, HolidayOffsets(y)[7]);
    NthIs(y, 11, 3, 4, HolidayOffsets(y)[8]);
  }

  lemma ObservedHolidays(y: nat)
    requires 2026 <= y <= 2028
    ensures MarketRules.ObservedFixedHoliday(y, 1, 1) == DaysBeforeYear(y) + HolidayOffsets(y)[0]
    ensures MarketRules.ObservedFixedHoliday(y, 6, 19) == DaysBeforeYear(y) + HolidayOffsets(y)[5]
    ensures MarketRules.ObservedFixedHoliday(y, 7, 4) == DaysBeforeYear(y) + HolidayOffsets(y)[6]
    ensures MarketRules.ObservedFixedHoliday(y, 12, 25) == DaysBeforeYear(y) + HolidayOffsets(y)[9]
  {
    CoveredYears(y);
    WeekdayInYear(y, 1);
    WeekdayInYear(y, DaysBeforeMonth(y, 6) + 19);
    WeekdayInYear(y, DaysBeforeMonth(y, 7) + 4);
    WeekdayInYear(y, DaysBeforeMonth(y, 12) + 25);
    hide DaysBeforeYear, LeapDay, Weekday;
  }

  lemma MemorialDay(y: nat)
    requires 2026 <= y <= 2028
    ensures MarketRules.LastWeekday(y, 5, 0) == DaysBeforeYear(y) + HolidayOffsets(y)[4]
  {
    CoveredYears(y);
    hide DaysBeforeYear, LeapDay, Weekday;
    var end := MarketRules.MonthEnd(y, 5);
    assert end == DaysBeforeYear(y) + 151 + LeapDay(y);
    WeekdayInYear(y, 151 + LeapDay(y));
  }

  lemma GoodFridays(y: nat)
    requires 2026 <= y <= 2028
    ensures MarketRules.GoodFridayOf(y) == DaysBeforeYear(y) + HolidayOffsets(y)[3]
  {
    CoveredYears(y);
    MarketRules.Computus.GoodFridayByOffset(y);
    MarketRules.OffsetsOfCoverage(y);
    hide MarketRules.Computus.EasterOffset, MarketRules.Computus.GoodFriday, DaysBeforeYear, LeapDay;
  }

  lemma RuleHoliday(y: nat, i: nat)
    requires 2026 <= y <= 2028 && i < 10
    ensures MarketRules.Holiday(y, i) == DaysBeforeYear(y) + HolidayOffsets(y)[i]
  {
    hide DaysBeforeYear, HolidayOffsets, MarketRules.NthWeekday, MarketRules.ObservedFixedHoliday,
      MarketRules.LastWeekday, MarketRules.Computus.GoodFriday;
    NthHolidays(y);
    ObservedHolidays(y);
    MemorialDay(y);
    GoodFridays(y);
  }

  // The published holidays of year `y`, as days of the year.
  lemma PublishedHolidays(n: int, y: nat)
    requires 2026 <= y <= 2028 && InYear(n, y)
    ensures PublishedHoliday(n) <==> n - DaysBeforeYear(y) in HolidayOffsets(y)
  {
    CoveredYears(2026);
    CoveredYears(2027);
    CoveredYears(2028);
    CoveredYears(2029);
    hide DaysBeforeYear, LeapDay;
  }

  // The two calendars of the repository agree: on every covered day the published table has
  // a session exactly when the rules of the readiness endpoint call it a market day.
  lemma TableFollowsRules(n: int)
    requires CoverageStart() <= n <= CoverageEnd()
    ensures IsSession(n) <==> MarketRules.IsMarketDay(n)
  {
    CoverageYears(n);
    var y := YearOf(n);
    PublishedHolidays(n, y);
    hide PublishedHoliday, EarlyCloseDay, CoverageStart, CoverageEnd, DaysBeforeYear, Weekday, HolidayOffsets, MarketRules.Holiday;
    forall i: nat | i < 10 ensures MarketRules.Holiday(y, i) == DaysBeforeYear(y) + HolidayOffsets(y)[i] {
      RuleHoliday(y, i);
    }
    TenOffsets(y);
    if n - DaysBeforeYear(y) in HolidayOffsets(y) {
      var i :| 0 <= i < 10 && HolidayOffsets(y)[i] == n - DaysBeforeYear(y);
      assert MarketRules.Holiday(y, i) == n;
    }
  }

  lemma TenOffsets(y: nat)
    ensures |HolidayOffsets(y)| == 10
  {
  }

  lemma CoverageYears(n: int)
    requires CoverageStart() <= n <= CoverageEnd()
    ensures n >= 1 && 2026 <= YearOf(n) <= 2028
  {
    CoveredYears(2026);
    CoveredYears(2027);
    CoveredYears(2028);
    CoveredYears(2029);
    hide DaysBeforeYear, LeapDay;
    YearIsUnique(n, if n <= DaysBeforeYear(2027) then 2026 else if n <= DaysBeforeYear(2028) then 2027 else 2028);
  }

  lemma LastSession()
    ensures var n := DayNumber(2028, 12, 29);
            CoverageEnd() == n + 2 && IsSession(n) && !IsSession(n + 1) && !IsSession(n + 2)
  {
    CoveredYears(2026);
    CoveredYears(2028);
    CoveredYears(2029);
    WeekdayInYear(2028, 364);
    WeekdayInYear(2028, 365);
    WeekdayInYear(2028, 366);
    PublishedHolidays(DayNumber(2028, 12, 29), 2028);
    hide DaysBeforeYear, LeapDay, Weekday, PublishedHoliday, EarlyCloseDay;
  }

  lemma FoundSoon(n: int)
    requires CoverageStart() <= n <= CoverageEnd() - 2
    ensures NextMarketDay(n).Ok? && NextMarketDay(n).value <= n + 3
  {
    hide *;
    LastSession();
    CoverageYears(n);
    var s := n;
    if n < CoverageEnd() - 2 {
      MarketRules.AtMostThreeClosedDays(n);
      TableFollowsRules(n);
      TableFollowsRules(n + 1);
      TableFollowsRules(n + 2);
      TableFollowsRules(n + 3);
      s := if IsSession(n) then n else if IsSession(n + 1) then n + 1 else if IsSession(n + 2) then n + 2 else n + 3;
    }
    var t := LeastSession(n, s);
    NextMarketDayIsLeast(n, t);
  }

  // Within the coverage a search looks at no more than four days, and it fails exactly
  // outside the coverage and after the last published session, 29 December 2028.
  lemma SearchWithinCoverage(n: int)
    ensures NextMarketDay(n).Ok? <==> CoverageStart() <= n <= DayNumber(2028, 12, 29)
    ensures NextMarketDay(n).Ok? ==> n <= NextMarketDay(n).value <= n + 3
  {
    LastSession();
    hide DaysBeforeYear, PublishedHoliday, EarlyCloseDay, Weekday, NextMarketDay;
    if CoverageStart() <= n <= DayNumber(2028, 12, 29) {
      FoundSoon(n);
    }
    if NextMarketDay(n).Ok? {
      NextMarketDayIsLeast(n, NextMarketDay(n).value);
    }
  }

  // The two policies part over an error at both ends of the coverage and nowhere else: on the
  // day before it only the next session exists, and on its last session, up to the close, only
  // the first eligible one.
  lemma PoliciesFailTogether(reg: Registration)
    ensures (FirstEligibleSession(reg).Ok? <==> NextSessionAfter(reg).Ok?) <==>
      (reg.day != CoverageStart() - 1 && !(reg.day == DayNumber(2028, 12, 29) && reg.time <= REGULAR_CLOSE))
  {
    LastSession();
    LastCloseIsRegular();
    CoverageIsLong();
    SearchWithinCoverage(reg.day + 1);
    hide CoverageStart, CoverageEnd, DaysBeforeYear, DayNumber, PublishedHoliday, EarlyCloseDay, Weekday, NextMarketDay;
  }

  lemma LastCloseIsRegular()
    ensures !EarlyCloseDay(DayNumber(2028, 12, 29))
  {
    CoveredYears(2026);
    CoveredYears(2027);
    CoveredYears(2028);
    hide DaysBeforeYear, LeapDay;
  }

  lemma CoverageIsLong()
    ensures CoverageStart() + 1000 < DayNumber(2028, 12, 29)
  {
    CoveredYears(2026);
    CoveredYears(2028);
    hide DaysBeforeYear, LeapDay;
  }

  // ---------- Early closes ----------

  // The days before Independence Day and Christmas and the day after Thanksgiving.
  predicate EarlyByRule(n: int, y: nat)
    requires y >= 1
  {
    n == DayNumber(y, 7, 3) || n == DayNumber(y, 12, 24) || n == MarketRules.NthWeekday(y, 11, 3, 4) + 1
  }

  function EarlyOffsets(y: nat): set<int> {
    if y == 2026 then {331, 358} else if y == 2027 then {330} else {185, 329}
  }

  lemma PublishedEarlyCloses(n: int, y: nat)
    requires 2026 <= y <= 2028 && InYear(n, y)
    ensures EarlyCloseDay(n) <==> n - DaysBeforeYear(y) in EarlyOffsets(y)
  {
    CoveredYears(2026);
    CoveredYears(2027);
    CoveredYears(2028);
    CoveredYears(2029);
    hide DaysBeforeYear, LeapDay;
  }

  // Day k of a covered year is one of the three days and a session.
  lemma EarlyOffsetsFollowRule(y: nat, k: int)
    requires 2026 <= y <= 2028
    ensures k in EarlyOffsets(y) <==>
      && (y - 2024 + k) % 7 < 5 && k !in HolidayOffsets(y)
      && (k == DaysBeforeMonth(y, 7) + 3 || k == DaysBeforeMonth(y, 12) + 24 || k == HolidayOffsets(y)[8] + 1)
  {
    CoveredYears(y);
    hide LeapDay;
  }

  lemma SessionByOffset(n: int, y: nat)
    requires CoverageStart() <= n <= CoverageEnd() && 2026 <= y <= 2028 && InYear(n, y)
    ensures var k := n - DaysBeforeYear(y); IsSession(n) <==> (y - 2024 + k) % 7 < 5 && k !in HolidayOffsets(y)
  {
    PublishedHolidays(n, y);
    WeekdayInYear(y, n - DaysBeforeYear(y));
    hide PublishedHoliday, EarlyCloseDay, CoverageStart, CoverageEnd, DaysBeforeYear, Weekday, HolidayOffsets;
  }

  lemma EarlyByOffset(n: int, y: nat)
    requires 2026 <= y <= 2028
    ensures var k := n - DaysBeforeYear(y);
            EarlyByRule(n, y) <==>
              (k == DaysBeforeMonth(y, 7) + 3 || k == DaysBeforeMonth(y, 12) + 24 || k == HolidayOffsets(y)[8] + 1)
  {
    NthHolidays(y);
    hide DaysBeforeYear, DaysBeforeMonth, HolidayOffsets, MarketRules.NthWeekday;
  }

  // On every covered day, the published early closes are those three days where they are
  // sessions.
  lemma EarlyClosesFollowRule(n: int)
    requires CoverageStart() <= n <= CoverageEnd()
    ensures n >= 1
    ensures EarlyCloseDay(n) <==> IsSession(n) && EarlyByRule(n, YearOf(n))
  {
    hide *;
    CoverageYears(n);
    var y := YearOf(n);
    PublishedEarlyCloses(n, y);
    SessionByOffset(n, y);
    EarlyByOffset(n, y);
    EarlyOffsetsFollowRule(y, n - DaysBeforeYear(y));
  }
}
