/**
  Proleptic Gregorian day numbers: day 1 is 1 January of year 1, a Monday, and weekdays
  count from Monday = 0.
 */
module Dates {
  predicate IsLeap(y: int) {
    y % 4 == 0 && (y % 100 != 0 || y % 400 == 0)
  }

  function LeapDays(y: nat): int {
    y / 4 - y / 100 + y / 400
  }

  // The number of days before 1 January of year `y`.
  function DaysBeforeYear(y: nat): int
    requires y >= 1
  {
    365 * (y - 1) + LeapDays(y - 1)
  }

  function LeapDay(y: int): int {
    if IsLeap(y) then 1 else 0
  }

  function DaysBeforeMonth(y: int, m: int): int
    requires 1 <= m <= 13
  {
    [0, 31, 59, 90, 120, 151, 181, 212, 243, 273, 304, 334, 365][m - 1] + if m > 2 then LeapDay(y) else 0
  }

  function DayNumber(y: nat, m: int, d: int): int
    requires y >= 1 && 1 <= m <= 13
  {
    DaysBeforeYear(y) + DaysBeforeMonth(y, m) + d
  }

  function Weekday(n: int): int {
    (n + 6) % 7
  }

  predicate InYear(n: int, y: nat) {
    y >= 1 && DaysBeforeYear(y) < n <= DaysBeforeYear(y + 1)
  }

  lemma YearLength(y: nat)
    requires y >= 1
    ensures LeapDays(y) == LeapDays(y - 1) + LeapDay(y)
    ensures DaysBeforeYear(y + 1) == DaysBeforeYear(y) + 365 + LeapDay(y)
  {
    assert y / 4 - (y - 1) / 4 == if y % 4 == 0 then 1 else 0;
    assert y / 100 - (y - 1) / 100 == if y % 100 == 0 then 1 else 0;
    assert y / 400 - (y - 1) / 400 == if y % 400 == 0 then 1 else 0;
    Multiples(y);
  }

  lemma Multiples(y: nat)
    ensures y % 400 == 0 ==> y % 100 == 0
    ensures y % 100 == 0 ==> y % 4 == 0
  {
    if y % 400 == 0 { assert y == 100 * (4 * (y / 400)); }
    if y % 100 == 0 { assert y == 4 * (25 * (y / 100)); }
  }

  lemma {:induction false} YearsAscend(y: nat, z: nat)
    requires 1 <= y <= z
    ensures DaysBeforeYear(z) >= DaysBeforeYear(y) + 365 * (z - y)
    decreases z - y
  {
    if y < z {
      YearLength(y);
      YearsAscend(y + 1, z);
    }
  }

  function YearFrom(n: int, y: nat): (r: nat)
    requires y >= 1 && n > DaysBeforeYear(y)
    ensures InYear(n, r)
    decreases n - DaysBeforeYear(y)
  {
    YearLength(y);
    if n <= DaysBeforeYear(y + 1) then y else YearFrom(n, y + 1)
  }

  function YearOf(n: int): (y: nat)
    requires n >= 1
    ensures InYear(n, y)
  {
    YearFrom(n, 1)
  }

  lemma YearIsUnique(n: int, y: nat)
    requires n >= 1 && InYear(n, y)
    ensures YearOf(n) == y
  {
    var z := YearOf(n);
    if z < y { YearsAscend(z + 1, y); }
    if y < z { YearsAscend(y + 1, z); }
  }
}
