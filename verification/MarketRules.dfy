/**
  The rule-based market calendar of the readiness endpoint and the freshness test built
  on it.
 */
module MarketRules {
  import opened Wrappers
  import opened Dates
  import Computus

  // ---------- The ten holidays of a year ----------

  function ObservedFixedHoliday(y: nat, m: int, d: int): int
    requires y >= 1 && 1 <= m <= 12
  {
    var holiday := DayNumber(y, m, d);
    if Weekday(holiday) == 5 then holiday - 1
    else if Weekday(holiday) == 6 then holiday + 1
    else holiday
  }

  function NthWeekday(y: nat, m: int, weekday: int, occurrence: int): int
    requires y >= 1 && 1 <= m <= 12
  {
    var first := DayNumber(y, m, 1);
    first + (weekday - Weekday(first)) % 7 + (occurrence - 1) * 7
  }

  function MonthEnd(y: nat, m: int): int
    requires y >= 1 && 1 <= m <= 12
  {
    if m < 12 then DayNumber(y, m + 1, 1) - 1 else DayNumber(y, 12, 31)
  }

  function LastWeekday(y: nat, m: int, weekday: int): int
    requires y >= 1 && 1 <= m <= 12
  {
    OnOrBefore(MonthEnd(y, m), weekday)
  }

  function OnOrBefore(end: int, weekday: int): int {
    end - (Weekday(end) - weekday) % 7
  }

  // The backward search of the program.
  method FindLastWeekday(y: nat, m: int, weekday: int) returns (current: int)
    requires y >= 1 && 1 <= m <= 12 && 0 <= weekday < 7
    ensures current == LastWeekday(y, m, weekday)
    ensures Weekday(current) == weekday
    ensures forall n :: current < n <= MonthEnd(y, m) ==> Weekday(n) != weekday
  {
    hide MonthEnd;
    var end := MonthEnd(y, m);
    ghost var target := OnOrBefore(end, weekday);
    WeekdayBack(end, weekday);
    hide OnOrBefore, Weekday;
    current := end;
    while Weekday(current) != weekday
      invariant target <= current <= end
      invariant forall n :: current < n <= end ==> Weekday(n) != weekday
      decreases current - target
    {
      current := current - 1;
    }
    WithinOneWeek(target, current, end, weekday);
  }

  function Holiday(y: nat, i: nat): int
    requires y >= 1 && i < 10
  {
    match i
    case 0 => ObservedFixedHoliday(y, 1, 1)
    case 1 => NthWeekday(y, 1, 0, 3)
    case 2 => NthWeekday(y, 2, 0, 3)
    case 3 => Computus.GoodFriday(y)
    case 4 => LastWeekday(y, 5, 0)
    case 5 => ObservedFixedHoliday(y, 6, 19)
    case 6 => ObservedFixedHoliday(y, 7, 4)
    case 7 => NthWeekday(y, 9, 0, 1)
    case 8 => NthWeekday(y, 11, 3, 4)
    case _ => ObservedFixedHoliday(y, 12, 25)
  }

  function MarketHolidays(y: nat): set<int>
    requires y >= 1
  {
    set i: nat | i < 10 :: Holiday(y, i)
  }

  predicate IsMarketDay(n: int)
    requires n >= 1
  {
    Weekday(n) < 5 && n !in MarketHolidays(YearOf(n))
  }

  // ---------- Freshness of a published date ----------

  datatype Published = NoDate | BadDate | On(day: int)

  datatype Freshness = Missing | Invalid | InFuture | StaleDate | FreshDate

  function MarketDaysAfter(day: int, k: nat): nat
    requires day >= 1
  {
    if k == 0 then 0 else MarketDaysAfter(day, k - 1) + if IsMarketDay(day + k) then 1 else 0
  }

  function FreshnessOf(value: Published, today: int): Freshness
    requires value.On? ==> value.day >= 1
  {
    match value
    case NoDate => Missing
    case BadDate => Invalid
    case On(day) =>
      if day > today then InFuture
      else if MarketDaysAfter(day, today - day) > 2 then StaleDate
      else FreshDate
  }

  // The day before the first of the next month.
  lemma MonthEndIsLast(y: nat, m: int)
    requires y >= 1 && 1 <= m <= 12
    ensures MonthEnd(y, m) + 1 == if m == 12 then DayNumber(y + 1, 1, 1) else DayNumber(y, m + 1, 1)
  {
    YearLength(y);
  }

  // ---------- Where the holidays fall ----------

  lemma WeekdayBack(n: int, weekday: int)
    requires 0 <= weekday < 7
    ensures n - 7 < OnOrBefore(n, weekday) <= n && Weekday(OnOrBefore(n, weekday)) == weekday
  {
    var back := (Weekday(n) - weekday) % 7;
    BackInWeek(Weekday(n) - weekday);
    WeekdayOf(n - back, (n + 6) / 7 - (if weekday <= Weekday(n) then 0 else 1), weekday);
  }

  lemma BackInWeek(d: int)
    requires -7 < d < 7
    ensures d % 7 == if d >= 0 then d else d + 7
  {
  }

  lemma WeekdayOf(n: int, week: int, weekday: int)
    requires 0 <= weekday < 7 && n + 6 == 7 * week + weekday
    ensures Weekday(n) == weekday
  {
  }

  lemma WeekdayForward(n: int, weekday: int)
    requires 0 <= weekday < 7
    ensures var on := (weekday - Weekday(n)) % 7; 0 <= on < 7 && Weekday(n + on) == weekday
  {
  }

  lemma WithinOneWeek(x: int, y: int, end: int, weekday: int)
    requires x <= y <= end < x + 7 && Weekday(x) == weekday == Weekday(y)
    ensures x == y
  {
  }

  // The earliest day of the year on which each holiday can fall, and how many days it can move.
  function Earliest(y: nat, i: nat): int
    requires y >= 1 && i < 10
  {
    match i
    case 0 => DaysBeforeYear(y)
    case 1 => DayNumber(y, 1, 15)
    case 2 => DayNumber(y, 2, 15)
    case 3 => DayNumber(y, 3, 20)
    case 4 => DayNumber(y, 5, 25)
    case 5 => DayNumber(y, 6, 18)
    case 6 => DayNumber(y, 7, 3)
    case 7 => DayNumber(y, 9, 1)
    case 8 => DayNumber(y, 11, 22)
    case _ => DayNumber(y, 12, 24)
  }

  function Leeway(i: nat): int {
    if i == 3 then 34 else if i in {0, 5, 6, 9} then 2 else 6
  }

  lemma NthNearby(y: nat, m: int, weekday: int, occurrence: int)
    requires y >= 1 && 1 <= m <= 12 && 0 <= weekday < 7 && 1 <= occurrence <= 4
    ensures var n := NthWeekday(y, m, weekday, occurrence);
            var first := DayNumber(y, m, 1) + 7 * (occurrence - 1);
            first <= n <= first + 6 && Weekday(n) == weekday
  {
    hide DayNumber;
    var first := DayNumber(y, m, 1);
    var on := (weekday - Weekday(first)) % 7;
    WeekdayForward(first, weekday);
    WeeksLater(first + on, occurrence - 1);
  }

  lemma LastNearby(y: nat, m: int, weekday: int)
    requires y >= 1 && 1 <= m <= 12 && 0 <= weekday < 7
    ensures MonthEnd(y, m) - 6 <= LastWeekday(y, m, weekday) <= MonthEnd(y, m)
    ensures Weekday(LastWeekday(y, m, weekday)) == weekday
  {
    hide MonthEnd;
    WeekdayBack(MonthEnd(y, m), weekday);
  }

  lemma ObservedNearby(y: nat, m: int, d: int)
    requires y >= 1 && 1 <= m <= 12
    ensures var n := ObservedFixedHoliday(y, m, d);
            DayNumber(y, m, d) - 1 <= n <= DayNumber(y, m, d) + 1 && Weekday(n) < 5
  {
  }

  lemma HolidayRange(y: nat, i: nat)
    requires y >= 1 && i < 10
    ensures Earliest(y, i) <= Holiday(y, i) <= Earliest(y, i) + Leeway(i)
    ensures Weekday(Holiday(y, i)) < 5
  {
    hide DaysBeforeYear, LeapDay, ObservedFixedHoliday, NthWeekday, LastWeekday, Weekday, Computus.GoodFriday;
    match i
    case 0 => ObservedNearby(y, 1, 1);
    case 1 => NthNearby(y, 1, 0, 3);
    case 2 => NthNearby(y, 2, 0, 3);
    case 3 => Computus.GoodFridayIsCorrect(y, 0);
    case 4 => LastNearby(y, 5, 0);
    case 5 => ObservedNearby(y, 6, 19);
    case 6 => ObservedNearby(y, 7, 4);
    case 7 => NthNearby(y, 9, 0, 1);
    case 8 => NthNearby(y, 11, 3, 4);
    case _ => ObservedNearby(y, 12, 25);
  }

  lemma WeeksLater(n: int, k: int)
    ensures Weekday(n + 7 * k) == Weekday(n)
  {
  }

  // All ten holidays of every year are weekdays, in this order and at least 13 days apart.
  lemma HolidaysAscend(y: nat, i: nat, j: nat)
    requires y >= 1 && i < j < 10
    ensures Holiday(y, i) + 13 <= Holiday(y, j)
    ensures Weekday(Holiday(y, i)) < 5 && Weekday(Holiday(y, j)) < 5
  {
    HolidayRange(y, i);
    HolidayRange(y, j);
  }

  // Christmas and New Year's Day, where both are observed in their own years.
  lemma ChristmasToNewYear(y: nat)
    requires y >= 1
    ensures Holiday(y, 9) <= DaysBeforeYear(y + 1) - 5
    ensures Holiday(y + 1, 0) > DaysBeforeYear(y + 1) ==> Holiday(y + 1, 0) == Holiday(y, 9) + 7
  {
    YearLength(y);
    var christmas := DayNumber(y, 12, 25);
    assert DayNumber(y + 1, 1, 1) == christmas + 7;
    WeeksLater(christmas, 1);
  }

  predicate ClosedByRule(n: int) {
    n >= 1 && n in MarketHolidays(YearOf(n))
  }

  // Every holiday of the rules is applied but one: New Year's Day of a year that begins on a
  // Saturday is put on the last day of the year before, whose holidays do not include it.
  lemma OnlyNewYearIsNotApplied(y: nat, i: nat)
    requires y >= 1 && i < 10 && Holiday(y, i) >= 1
    ensures ClosedByRule(Holiday(y, i)) <==> !(i == 0 && Weekday(DayNumber(y, 1, 1)) == 5)
  {
    HolidayRange(y, i);
    NewYearSaturday(y);
    YearLength(y);
    if Holiday(y, i) > DaysBeforeYear(y) {
      InOwnYear(y, i);
      YearIsUnique(Holiday(y, i), y);
    } else {
      NotOfTheYearBefore(y, i);
    }
    hide Holiday, DaysBeforeYear, DayNumber, Weekday;
  }

  lemma NewYearSaturday(y: nat)
    requires y >= 1
    ensures Holiday(y, 0) <= DaysBeforeYear(y) <==> Weekday(DayNumber(y, 1, 1)) == 5
    ensures forall i: nat :: 0 < i < 10 ==> Holiday(y, i) > DaysBeforeYear(y)
  {
    forall i: nat | 0 < i < 10 ensures Holiday(y, i) > DaysBeforeYear(y) { HolidayRange(y, i); }
  }

  lemma InOwnYear(y: nat, i: nat)
    requires y >= 1 && i < 10 && Holiday(y, i) > DaysBeforeYear(y)
    ensures InYear(Holiday(y, i), y)
  {
    ChristmasToNewYear(y);
    if i < 9 { HolidaysAscend(y, i, 9); }
  }

  lemma NotOfTheYearBefore(y: nat, i: nat)
    requires y >= 1 && i < 10 && 1 <= Holiday(y, i) <= DaysBeforeYear(y)
    ensures !ClosedByRule(Holiday(y, i))
  {
    HolidayRange(y, i);
    YearLength(y);
    var n := Holiday(y, i);
    assert n == DaysBeforeYear(y) && y >= 2;
    var z: nat := y - 1;
    YearLength(z);
    assert InYear(n, z);
    YearIsUnique(n, z);
    ChristmasToNewYear(z);
    forall j: nat | j < 10 ensures Holiday(z, j) != n {
      if j < 9 { HolidaysAscend(z, j, 9); }
    }
  }

  lemma ClosuresOfTwoYears(y: nat, i: nat, z: nat, j: nat)
    requires 1 <= y < z && i < 10 && j < 10
    requires Holiday(y, i) <= DaysBeforeYear(y + 1) && Holiday(z, j) > DaysBeforeYear(z)
    ensures Holiday(y, i) + 7 <= Holiday(z, j)
  {
    if z == y + 1 {
      ChristmasToNewYear(y);
      if i < 9 { HolidaysAscend(y, i, 9); }
      if j > 0 { HolidaysAscend(z, 0, j); }
    } else {
      YearsAscend(y + 1, z);
    }
  }

  // No two closures that the calendar applies are less than a week apart, within a year or
  // across a year end.
  lemma ClosuresAWeekApart(n: int, m: int)
    requires n < m && ClosedByRule(n) && ClosedByRule(m)
    ensures n + 7 <= m
  {
    hide Holiday, DaysBeforeYear;
    var y, z := YearOf(n), YearOf(m);
    var i: nat :| i < 10 && Holiday(y, i) == n;
    var j: nat :| j < 10 && Holiday(z, j) == m;
    YearsInOrder(n, m);
    if y < z {
      ClosuresOfTwoYears(y, i, z, j);
    } else if i < j {
      HolidaysAscend(y, i, j);
    } else if j < i {
      HolidaysAscend(y, j, i);
    }
  }

  lemma YearsInOrder(n: int, m: int)
    requires 1 <= n <= m
    ensures YearOf(n) <= YearOf(m)
  {
    var z := YearOf(m);
    forall y: nat | y > z ensures DaysBeforeYear(z + 1) <= DaysBeforeYear(y) { YearsAscend(z + 1, y); }
  }

  // ---------- Consequences ----------

  lemma OneOfTwoWeekdaysIsOpen(n: int, k: nat, l: nat)
    requires n >= 1 && k < l < 7 && Weekday(n + k) < 5 && Weekday(n + l) < 5
    ensures IsMarketDay(n + k) || IsMarketDay(n + l)
  {
    hide MarketHolidays, DaysBeforeYear;
    if ClosedByRule(n + k) && ClosedByRule(n + l) { ClosuresAWeekApart(n + k, n + l); }
  }

  // Of any four days in a row at least one is a market day: closures last at most three days.
  lemma AtMostThreeClosedDays(n: int)
    requires n >= 1
    ensures IsMarketDay(n) || IsMarketDay(n + 1) || IsMarketDay(n + 2) || IsMarketDay(n + 3)
  {
    hide *;
    WeekdayStep(n, 1);
    WeekdayStep(n, 2);
    WeekdayStep(n, 3);
    if Weekday(n) < 4 {
      OneOfTwoWeekdaysIsOpen(n, 0, 1);
    } else if Weekday(n) == 4 {
      OneOfTwoWeekdaysIsOpen(n, 0, 3);
    } else if Weekday(n) == 5 {
      OneOfTwoWeekdaysIsOpen(n, 2, 3);
    } else {
      OneOfTwoWeekdaysIsOpen(n, 1, 2);
    }
  }

  // Whether day + k is open, in a window of a week whose only closure, if any, is `c`.
  lemma OpenUnlessClosure(day: int, c: int, k: nat)
    requires day >= 1 && 1 <= k < 7
    requires c != 0 ==> ClosedByRule(c) && day < c < day + 7
    requires c == 0 ==> !ClosedByRule(day + k)
    ensures IsMarketDay(day + k) <==> day + k != c && (Weekday(day) + k < 5 || 7 <= Weekday(day) + k < 12)
  {
    hide MarketHolidays, DaysBeforeYear, Weekday;
    WeekdayStep(day, k);
    if ClosedByRule(day + k) && c != 0 {
      if day + k < c { ClosuresAWeekApart(day + k, c); }
      if c < day + k { ClosuresAWeekApart(c, day + k); }
    }
  }

  lemma WeekdayStep(n: int, k: nat)
    requires k < 7
    ensures 0 <= Weekday(n) < 7
    ensures Weekday(n + k) == if Weekday(n) + k < 7 then Weekday(n) + k else Weekday(n) + k - 7
  {
  }

  predicate ClosedWithin(day: int, k: nat) {
    ClosedByRule(day + k)
  }

  // Six calendar days hold three market days.
  lemma SixDaysHoldThree(day: int)
    requires day >= 1
    ensures MarketDaysAfter(day, 6) >= 3
  {
    hide IsMarketDay, ClosedByRule;
    var c := 0;
    if k: nat :| 1 <= k < 7 && ClosedWithin(day, k) {
      c := day + k;
    } else {
      assert !ClosedWithin(day, 1) && !ClosedWithin(day, 2) && !ClosedWithin(day, 3);
      assert !ClosedWithin(day, 4) && !ClosedWithin(day, 5) && !ClosedWithin(day, 6);
    }
    OpenUnlessClosure(day, c, 1);
    OpenUnlessClosure(day, c, 2);
    OpenUnlessClosure(day, c, 3);
    OpenUnlessClosure(day, c, 4);
    OpenUnlessClosure(day, c, 5);
    OpenUnlessClosure(day, c, 6);
    assert MarketDaysAfter(day, 6) == MarketDaysAfter(day, 4) + Open(day + 5) + Open(day + 6);
    assert MarketDaysAfter(day, 4) == MarketDaysAfter(day, 2) + Open(day + 3) + Open(day + 4);
  }

  function Open(n: int): nat
    requires n >= 1
  {
    if IsMarketDay(n) then 1 else 0
  }

  lemma {:induction false} MarketDaysAccumulate(day: int, k: nat, l: nat)
    requires day >= 1 && k <= l
    ensures MarketDaysAfter(day, k) <= MarketDaysAfter(day, l)
    decreases l
  {
    if k < l { MarketDaysAccumulate(day, k, l - 1); }
  }

  // The market days after `day` up to and including `today`.
  function MarketDaysBetween(day: int, today: int): set<int>
    requires day >= 1
  {
    set n | day < n <= today && IsMarketDay(n)
  }

  lemma {:induction false} DaysAreCounted(day: int, k: nat)
    requires day >= 1
    ensures |MarketDaysBetween(day, day + k)| == MarketDaysAfter(day, k)
    decreases k
  {
    hide IsMarketDay;
    if k == 0 {
      assert MarketDaysBetween(day, day) == {};
    } else {
      DaysAreCounted(day, k - 1);
      var earlier := MarketDaysBetween(day, day + k - 1);
      assert MarketDaysBetween(day, day + k) == if IsMarketDay(day + k) then earlier + {day + k} else earlier;
    }
  }

  // A date is accepted as fresh exactly when it was published, is not later than today, and
  // at most two market days have come since.
  lemma FreshExactly(value: Published, today: int)
    requires value.On? ==> value.day >= 1
    ensures FreshnessOf(value, today) == FreshDate <==>
      value.On? && value.day <= today && |MarketDaysBetween(value.day, today)| <= 2
    ensures FreshnessOf(value, today) == InFuture <==> value.On? && value.day > today
    ensures FreshnessOf(value, today) == Missing <==> value == NoDate
    ensures FreshnessOf(value, today) == Invalid <==> value == BadDate
  {
    if value.On? && value.day <= today { DaysAreCounted(value.day, today - value.day); }
  }

  // Once stale, a published date stays stale; and after six calendar days every published
  // date is stale.
  lemma StalenessIsPermanent(day: int, today: int, later: int)
    requires 1 <= day && day <= today <= later
    ensures FreshnessOf(On(day), today) == StaleDate ==> FreshnessOf(On(day), later) == StaleDate
    ensures today >= day + 6 ==> FreshnessOf(On(day), today) == StaleDate
    ensures FreshnessOf(On(day), today) in {StaleDate, FreshDate}
  {
    hide IsMarketDay;
    MarketDaysAccumulate(day, today - day, later - day);
    if today >= day + 6 {
      SixDaysHoldThree(day);
      MarketDaysAccumulate(day, 6, today - day);
    }
  }

  // Six days is the exact bound: the day before Good Friday 2026 is still fresh on Tuesday.
  lemma FiveDaysCanBeFresh()
    ensures FreshnessOf(On(DayNumber(2026, 4, 2)), DayNumber(2026, 4, 2) + 5) == FreshDate
  {
    GoodFriday2026();
    hide IsMarketDay;
    var n := DayNumber(2026, 4, 2);
    assert MarketDaysAfter(n, 5) == MarketDaysAfter(n, 3) + Open(n + 4) + Open(n + 5);
    assert MarketDaysAfter(n, 3) == Open(n + 1) + Open(n + 2) + Open(n + 3);
  }

  lemma GoodFriday2026()
    ensures var n := DayNumber(2026, 4, 2);
            !IsMarketDay(n + 1) && !IsMarketDay(n + 2) && !IsMarketDay(n + 3)
  {
    hide MarketHolidays;
    var n := DayNumber(2026, 4, 2);
    assert n == 739708 && Weekday(n) == 3;
    hide DayNumber, DaysBeforeYear;
    WeekdayStep(n, 2);
    WeekdayStep(n, 3);
    Easter2026();
    GoodFridayIsClosed(2026);
  }

  lemma Easter2026()
    ensures Computus.GoodFriday(2026) == DayNumber(2026, 4, 2) + 1
  {
    Computus.GoodFridayByOffset(2026);
    OffsetsOfCoverage(2026);
    hide Computus.GoodFriday, Computus.EasterOffset, DaysBeforeYear;
    assert Computus.GoodFriday(2026) == DayNumber(2026, 3, 34);
  }

  lemma OffsetsOfCoverage(y: nat)
    requires 2026 <= y <= 2028
    ensures Computus.EasterOffset(y) == if y == 2026 then 14 else if y == 2027 then 6 else 25
  {
    TermsOfCoverage(y);
    hide Computus.EasterTerms;
    CarryOf2000s(y - 2014, if y == 2026 then 12 else if y == 2027 then 1 else 20, if y == 2026 then 2 else 5);
  }

  lemma CarryOf2000s(a: int, h: int, l: int)
    requires 0 <= a < 19 && 0 <= h < 28 && 0 <= l < 7
    ensures (a + 11 * h + 22 * l) / 451 == 0
  {
  }

  lemma TermsOfCoverage(y: nat)
    requires 2026 <= y <= 2028
    ensures var t, h, l := Computus.EasterTerms(y), if y == 2026 then 12 else if y == 2027 then 1 else 20,
                           if y == 2026 then 2 else 5;
            t == Computus.Moon(y - 2014, h, l, (y - 2014 + 11 * h + 22 * l) / 451)
  {
    assert y / 100 == 20 && y % 100 == y - 2000 && y % 19 == y - 2014;
    var c := y - 2000;
    var h := (19 * (y - 2014) + 24) % 30;
    assert h == if y == 2026 then 12 else if y == 2027 then 1 else 20;
    assert c / 4 == (if y == 2028 then 7 else 6) && c % 4 == if y == 2028 then 0 else y - 2024;
    var l := (32 + 2 * (c / 4) - h - c % 4) % 7;
    assert l == if y == 2026 then 2 else 5;
  }

  lemma GoodFridayIsClosed(y: nat)
    requires y >= 1
    ensures GoodFridayOf(y) >= 1 && ClosedByRule(GoodFridayOf(y))
  {
    hide Computus.GoodFriday;
    Computus.GoodFridayIsCorrect(y, 0);
    YearLength(y);
    YearIsUnique(Holiday(y, 3), y);
  }

  function GoodFridayOf(y: nat): int
    requires y >= 1
  {
    Computus.GoodFriday(y)
  }
}
