/**
  Good Friday by the anonymous Gregorian computus, against the definition of Easter it
  is meant to compute: the first Sunday after the ecclesiastical full moon, found from
  the golden number and the epact.
 */
module Computus {
  import opened Dates

  // ---------- The computation ----------

  datatype Moon = Moon(a: int, h: int, lunarWeekday: int, m: int)

  function EasterTerms(year: nat): Moon {
    var a := year % 19;
    var b := year / 100;
    var c := year % 100;
    var d := b / 4;
    var e := b % 4;
    var f := (b + 8) / 25;
    var g := (b - f + 1) / 3;
    var h := (19 * a + b - d - g + 15) % 30;
    var i := c / 4;
    var k := c % 4;
    var lunarWeekday := (32 + 2 * e + 2 * i - h - k) % 7;
    Moon(a, h, lunarWeekday, (a + 11 * h + 22 * lunarWeekday) / 451)
  }

  function EasterOffset(year: nat): int {
    var t := EasterTerms(year);
    t.h + t.lunarWeekday - 7 * t.m
  }

  function GoodFriday(year: nat): int
    requires year >= 1
  {
    OffsetRange(year);
    var month := (EasterOffset(year) + 114) / 31;
    var day := (EasterOffset(year) + 114) % 31 + 1;
    DayNumber(year, month, day) - 2
  }

  // ---------- The definition ----------

  function GoldenNumber(year: nat): int {
    year % 19 + 1
  }

  // The solar and lunar corrections of the Gregorian calendar for the century of `year`.
  function SolarCorrection(year: nat): int {
    3 * (year / 100 + 1) / 4 - 12
  }

  function LunarCorrection(year: nat): int {
    (8 * (year / 100 + 1) + 5) / 25 - 5
  }

  // The age of the ecclesiastical moon on 1 January, with the two exceptional cases.
  function Epact(year: nat): int {
    var e := (11 * GoldenNumber(year) + 20 + LunarCorrection(year) - SolarCorrection(year)) % 30;
    if e == 24 || (e == 25 && GoldenNumber(year) > 11) then e + 1 else e
  }

  // The paschal full moon, as a day of March.
  function FullMoonOfMarch(year: nat): int {
    if Epact(year) <= 23 then 44 - Epact(year) else 74 - Epact(year)
  }

  ghost predicate IsEaster(year: nat, n: int)
    requires year >= 1
  {
    var moon := DayNumber(year, 3, FullMoonOfMarch(year));
    Weekday(n) == 6 && moon < n <= moon + 7
  }

  // ---------- Their agreement ----------

  lemma OffsetRange(year: nat)
    ensures 0 <= EasterOffset(year) <= 34
  {
  }

  lemma GoodFridayByOffset(year: nat)
    requires year >= 1
    ensures GoodFriday(year) == DayNumber(year, 3, 20 + EasterOffset(year))
  {
    OffsetRange(year);
  }

  // The computed weekday term makes Easter a Sunday, whatever the moon terms are.
  lemma EasterIsSunday(year: nat)
    requires year >= 1
    ensures Weekday(DayNumber(year, 3, 22 + EasterOffset(year))) == 6
  {
    var b, c := year / 100, year % 100;
    var d, e, i, k := b / 4, b % 4, c / 4, c % 4;
    var t := EasterTerms(year);
    var q := (32 + 2 * e + 2 * i - t.h - k) / 7;
    assert t.h + t.lunarWeekday == 32 + 2 * e + 2 * i - k - 7 * q;
    hide EasterTerms, LeapDays, Weekday, IsLeap;
    MarchOf(year, 22 + EasterOffset(year));
    LeapDaysOfCentury(year);
    YearParts(year);
    var weeks := 20871 * d + 5218 * e + 209 * i + 52 * k - 36 - q - t.m;
    assert DayNumber(year, 3, 22 + EasterOffset(year)) == 7 * weeks by { hide DayNumber, DaysBeforeYear; }
    SevenTimes(weeks);
  }

  // The leap day of the year itself is counted with the days before March.
  lemma MarchOf(year: nat, d: int)
    requires year >= 1
    ensures DayNumber(year, 3, d) == 365 * (year - 1) + LeapDays(year) + 59 + d
  {
    YearLength(year);
    hide LeapDays, LeapDay;
  }

  lemma YearParts(year: nat)
    ensures var b, c := year / 100, year % 100;
            b == 4 * (b / 4) + b % 4 && c == 4 * (c / 4) + c % 4
            && year == 400 * (b / 4) + 100 * (b % 4) + 4 * (c / 4) + c % 4
  {
  }

  lemma SevenTimes(x: int)
    ensures Weekday(7 * x) == 6
  {
  }

  lemma LeapDaysOfCentury(year: nat)
    ensures LeapDays(year) == 24 * (year / 100) + year % 100 / 4 + year / 100 / 4
  {
    var b, c := year / 100, year % 100;
    assert year == 100 * b + c;
    assert year / 4 == 25 * b + c / 4;
    assert year / 400 == b / 4;
  }

  lemma CenturyIdentities(b: nat)
    ensures 3 * (b + 1) / 4 == b - b / 4
    ensures (b - (b + 8) / 25 + 1) / 3 == (8 * (b + 1) + 5) / 25
  {
    var q, r := b / 25, b % 25;
    assert (b + 8) / 25 == q + (r + 8) / 25;
    assert (8 * (b + 1) + 5) / 25 == 8 * q + (8 * r + 13) / 25;
    var s := r - (r + 8) / 25 + 1;
    assert b - (b + 8) / 25 + 1 == 24 * q + s;
    assert (24 * q + s) / 3 == 8 * q + s / 3;
  }

  // The moon term `h` is the full moon's distance from 21 March, before the exceptions.
  lemma MoonTerm(year: nat)
    ensures var h := EasterTerms(year).h;
            FullMoonOfMarch(year) == 21 + if h == 29 || (h == 28 && year % 19 > 10) then h - 1 else h
  {
    var a, b := year % 19, year / 100;
    CenturyIdentities(b);
    var x := 11 * GoldenNumber(year) + 20 + LunarCorrection(year) - SolarCorrection(year);
    var e0 := x % 30;
    var u := x / 30;
    assert x == 30 * u + e0;
    var y := 19 * a + b - b / 4 - (b - (b + 8) / 25 + 1) / 3 + 15;
    assert y == 30 * (a - u) + 53 - e0;
    Mod30(a - u, 53 - e0);
  }

  lemma Mod30(k: int, r: int)
    requires 0 <= r < 60
    ensures (30 * k + r) % 30 == if r < 30 then r else r - 30
  {
    if r < 30 {
      assert 30 * k + r == 30 * k + r;
    } else {
      assert 30 * k + r == 30 * (k + 1) + (r - 30);
    }
  }

  lemma CarryTerm(a: int, h: int, l: int)
    requires 0 <= a < 19 && 0 <= h < 30 && 0 <= l < 7
    ensures (a + 11 * h + 22 * l) / 451 == if l == 6 && (h == 29 || (h == 28 && a > 10)) then 1 else 0
  {
  }

  lemma EasterAfterMoon(year: nat)
    ensures FullMoonOfMarch(year) < 22 + EasterOffset(year) <= FullMoonOfMarch(year) + 7
  {
    MoonTerm(year);
    var t := EasterTerms(year);
    CarryTerm(t.a, t.h, t.lunarWeekday);
  }

  lemma TwoDaysBeforeSunday(n: int)
    requires Weekday(n) == 6
    ensures Weekday(n - 2) == 4
  {
  }

  // For every year the code's Good Friday is the Friday before Easter as defined, between
  // 20 March and 23 April, and no other day has an Easter two days later.
  lemma GoodFridayIsCorrect(year: nat, n: int)
    requires year >= 1
    ensures IsEaster(year, n) <==> n == GoodFriday(year) + 2
    ensures Weekday(GoodFriday(year)) == 4
    ensures DayNumber(year, 3, 20) <= GoodFriday(year) <= DayNumber(year, 4, 23)
  {
    OffsetRange(year);
    GoodFridayByOffset(year);
    EasterIsSunday(year);
    MoonTerm(year);
    EasterAfterMoon(year);
    var easter := DayNumber(year, 3, 22 + EasterOffset(year));
    TwoDaysBeforeSunday(easter);
    var moon := DayNumber(year, 3, FullMoonOfMarch(year));
    if IsEaster(year, n) {
      OneSundayAWeek(moon, n, easter);
    }
  }

  lemma OneSundayAWeek(from: int, x: int, y: int)
    requires from < x <= from + 7 && from < y <= from + 7 && Weekday(x) == Weekday(y)
    ensures x == y
  {
  }
}
