/** Calendar conversion, src/arch/rtc.c. Years are 16-bit; every other field of a date has room. */
module Rtc {
  const YEAR_LIMIT: nat := 0x1_0000

  datatype Date = Date(year: nat, month: nat, day: nat, hours: nat, minutes: nat, seconds: nat)

  predicate IsLeap(year: nat) {
    (year % 4 == 0 && year % 100 != 0) || year % 400 == 0
  }

  function YearDays(year: nat): nat {
    if IsLeap(year) then 366 else 365
  }

  function MonthDays(leap: bool, month: nat): nat {
    if month == 2 then (if leap then 29 else 28)
    else if month == 4 || month == 6 || month == 9 || month == 11 then 30
    else 31
  }

  /** Days from 1 January 1970 to 1 January of a year. */
  function DaysTo(year: nat): nat {
    if year <= 1970 then 0 else DaysTo(year - 1) + YearDays(year - 1)
  }

  /** Days of the year before a month. */
  function DaysBefore(leap: bool, month: nat): nat {
    if month <= 1 then 0 else DaysBefore(leap, month - 1) + MonthDays(leap, month - 1)
  }

  predicate InRange(t: Date) {
    && t.year < YEAR_LIMIT && 1 <= t.month <= 12 && 1 <= t.day <= MonthDays(IsLeap(t.year), t.month)
    && t.hours < 24 && t.minutes < 60 && t.seconds < 60
  }

  /** A date the clock can mean: from 1970 on. */
  predicate IsDate(t: Date) {
    InRange(t) && t.year >= 1970
  }

  function DayNumber(t: Date): nat
    requires t.day >= 1
  {
    DaysTo(t.year) + DaysBefore(IsLeap(t.year), t.month) + t.day - 1
  }

  function Epoch(t: Date): nat
    requires t.day >= 1
  {
    DayNumber(t) * 86400 + t.hours * 3600 + t.minutes * 60 + t.seconds
  }

  /** The first second the 16-bit year cannot reach. */
  ghost function Limit(): nat {
    DaysTo(YEAR_LIMIT) * 86400
  }

  // ----- the calendar -----

  /** Days of a common year before each month. */
  const STARTS: seq<nat> := [0, 31, 59, 90, 120, 151, 181, 212, 243, 273, 304, 334]

  /** The day of the year, from 0, by the table. */
  function YearDay(leap: bool, month: nat, day: nat): nat
    requires 1 <= month <= 12 && day >= 1
  {
    STARTS[month - 1] + (if leap && month > 2 then 1 else 0) + day - 1
  }

  lemma MonthStarts(leap: bool, month: nat)
    requires 1 <= month <= 12
    ensures DaysBefore(leap, month) == YearDay(leap, month, 1)
    ensures MonthDays(leap, month) == (if month == 12 then 31 else YearDay(leap, month + 1, 1) - YearDay(leap, month, 1))
  {
    var extra := if leap then 1 else 0;
    assert DaysBefore(leap, 2) == 31 && DaysBefore(leap, 3) == 59 + extra;
    assert DaysBefore(leap, 5) == 120 + extra;
    assert DaysBefore(leap, 7) == 181 + extra;
    assert DaysBefore(leap, 9) == 243 + extra;
    assert DaysBefore(leap, 11) == 304 + extra;
  }

  // ----- the loops -----

  /** `days_since_epoch_to_year`. */
  method DaysSinceEpochToYear(year: nat) returns (days: nat)
    requires year < YEAR_LIMIT
    ensures days == DaysTo(year)
  {
    days := 0;
    var y := 1970;
    while y < year
      invariant 1970 <= y && (year < 1970 ==> y == 1970) && (year >= 1970 ==> y <= year) && days == DaysTo(y)
    {
      days := days + YearDays(y);
      y := y + 1;
    }
  }

  /** `rtc_to_epoch`. */
  method RtcToEpoch(t: Date) returns (e: nat)
    requires InRange(t)
    ensures e == Epoch(t)
  {
    var days := DaysSinceEpochToYear(t.year);
    var leap := IsLeap(t.year);
    ghost var start := days;
    var m := 1;
    while m < t.month
      invariant 1 <= m <= t.month && days == start + DaysBefore(leap, m)
    {
      days := days + MonthDays(leap, m);
      m := m + 1;
    }
    days := days + t.day - 1;
    e := days * 86400 + t.hours * 3600 + t.minutes * 60 + t.seconds;
  }

  /** The year loop of `epoch_to_rtc`; the year is a 16-bit counter. */
  method SplitYears(days: nat) returns (year: nat, left: nat)
    ensures year < YEAR_LIMIT && left < YearDays(year)
    ensures days < DaysTo(YEAR_LIMIT) ==> year >= 1970 && days == DaysTo(year) + left
  {
    year, left := 1970, days;
    ghost var wrapped := false;
    while left >= YearDays(year)
      invariant year < YEAR_LIMIT
      invariant !wrapped ==> year >= 1970 && days == DaysTo(year) + left
      invariant wrapped ==> days >= DaysTo(YEAR_LIMIT)
      decreases left
    {
      left := left - YearDays(year);
      if year + 1 == YEAR_LIMIT && !wrapped {
        assert DaysTo(YEAR_LIMIT) == DaysTo(year) + YearDays(year);
        wrapped := true;
      }
      year := (year + 1) % YEAR_LIMIT;
    }
  }

  /** The month loop. */
  method SplitMonths(leap: bool, days: nat) returns (month: nat, left: nat)
    requires days < (if leap then 366 else 365)
    ensures 1 <= month <= 12 && left < MonthDays(leap, month) && days == DaysBefore(leap, month) + left
    ensures days == YearDay(leap, month, left + 1) && (month < 12 ==> days < YearDay(leap, month + 1, 1))
  {
    month, left := 1, days;
    YearIsTwelveMonths(leap);
    while left >= MonthDays(leap, month)
      invariant 1 <= month <= 12 && days == DaysBefore(leap, month) + left
      decreases left
    {
      assert month < 12;
      left := left - MonthDays(leap, month);
      month := month + 1;
    }
    MonthStarts(leap, month);
  }

  lemma YearIsTwelveMonths(leap: bool)
    ensures DaysBefore(leap, 12) + 31 == if leap then 366 else 365
  {
    var extra := if leap then 1 else 0;
    assert DaysBefore(leap, 2) == 31;
    assert DaysBefore(leap, 4) == 90 + extra;
    assert DaysBefore(leap, 6) == 151 + extra;
    assert DaysBefore(leap, 8) == 212 + extra;
    assert DaysBefore(leap, 10) == 273 + extra;
  }

  /** `epoch_to_rtc`: the inverse, exactly for the seconds that 16-bit years can reach. */
  method EpochToRtc(epoch: nat) returns (t: Date)
    ensures InRange(t)
    ensures epoch < 2005949145600 ==> IsDate(t)
    ensures Epoch(t) == epoch <==> epoch < 2005949145600
  {
    LimitIs();
    var seconds := epoch % 60;
    var minutes := epoch / 60 % 60;
    var hours := epoch / 60 / 60 % 24;
    var days := epoch / 60 / 60 / 24;
    Clock(epoch);
    var year, left := SplitYears(days);
    var month, rest := SplitMonths(IsLeap(year), left);
    t := Date(year, month, rest + 1, hours, minutes, seconds);
    BelowLimit(t);
  }

  lemma Clock(e: nat)
    ensures e == e / 60 / 60 / 24 * 86400 + e / 60 / 60 % 24 * 3600 + e / 60 % 60 * 60 + e % 60
  {}

  // ----- order -----

  lemma {:induction false} LaterYear(y: nat, z: nat)
    requires y < z && z > 1970
    ensures DaysTo(y) + (if y >= 1970 then YearDays(y) else 0) <= DaysTo(z)
    decreases z
  {
    if y + 1 < z {
      if z - 1 > 1970 {
        LaterYear(y, z - 1);
      }
    }
  }

  lemma {:induction false} LaterMonth(leap: bool, m: nat, n: nat)
    requires 1 <= m < n <= 13
    ensures DaysBefore(leap, m) + MonthDays(leap, m) <= DaysBefore(leap, n)
    decreases n
  {
    if m + 1 < n {
      LaterMonth(leap, m, n - 1);
    }
  }

  lemma DayOfYearBound(t: Date)
    requires InRange(t)
    ensures DaysBefore(IsLeap(t.year), t.month) + t.day <= YearDays(t.year)
  {
    YearIsTwelveMonths(IsLeap(t.year));
    if t.month < 12 {
      LaterMonth(IsLeap(t.year), t.month, 12);
    }
  }

  lemma BelowLimit(t: Date)
    requires InRange(t)
    ensures Epoch(t) < Limit()
  {
    DayOfYearBound(t);
    LaterYear(t.year, YEAR_LIMIT);
    if t.year < 1970 {
      LaterYear(1970, YEAR_LIMIT);
    }
    assert DayNumber(t) + 1 <= DaysTo(YEAR_LIMIT);
  }

  predicate SameDay(a: Date, b: Date) {
    a.year == b.year && a.month == b.month && a.day == b.day
  }

  predicate EarlierDay(a: Date, b: Date) {
    a.year < b.year || (a.year == b.year && (a.month < b.month || (a.month == b.month && a.day < b.day)))
  }

  predicate EarlierTime(a: Date, b: Date) {
    a.hours < b.hours || (a.hours == b.hours && (a.minutes < b.minutes || (a.minutes == b.minutes && a.seconds < b.seconds)))
  }

  /** Calendar order. */
  predicate Earlier(a: Date, b: Date) {
    EarlierDay(a, b) || (SameDay(a, b) && EarlierTime(a, b))
  }

  lemma EarlierDayNumber(a: Date, b: Date)
    requires IsDate(a) && IsDate(b) && EarlierDay(a, b)
    ensures DayNumber(a) < DayNumber(b)
  {
    if a.year < b.year {
      DayOfYearBound(a);
      LaterYear(a.year, b.year);
    } else if a.month < b.month {
      LaterMonth(IsLeap(a.year), a.month, b.month);
    }
  }

  lemma EarlierEpoch(a: Date, b: Date)
    requires IsDate(a) && IsDate(b) && Earlier(a, b)
    ensures Epoch(a) < Epoch(b)
  {
    if EarlierDay(a, b) {
      EarlierDayNumber(a, b);
      assert DayNumber(a) * 86400 + 86400 <= DayNumber(b) * 86400;
    }
  }

  /** Calendar order is epoch order, so no two dates share a second. */
  lemma OrderIsEpochOrder(a: Date, b: Date)
    requires IsDate(a) && IsDate(b)
    ensures Earlier(a, b) <==> Epoch(a) < Epoch(b)
    ensures a == b <==> Epoch(a) == Epoch(b)
  {
    if Earlier(a, b) {
      EarlierEpoch(a, b);
    } else if Earlier(b, a) {
      EarlierEpoch(b, a);
    }
  }

  /** There and back: a date is what its epoch converts to. */
  method RoundTrip(t: Date) returns (u: Date)
    requires IsDate(t)
    ensures u == t
  {
    var e := RtcToEpoch(t);
    BelowLimit(t);
    LimitIs();
    u := EpochToRtc(e);
    OrderIsEpochOrder(t, u);
  }

  // ----- the closed form -----

  /** Seconds since the Epoch, POSIX.1-2017 Base Definitions, section 4.16. */
  function Posix(year: nat, yday: nat, hours: nat, minutes: nat, seconds: nat): int
    requires year >= 1970
  {
    var y := year - 1900;
    seconds + minutes * 60 + hours * 3600 + yday * 86400 + (y - 70) * 31536000
    + (y - 69) / 4 * 86400 - (y - 1) / 100 * 86400 + (y + 299) / 400 * 86400
  }

  lemma {:induction false} DaysToClosed(year: nat)
    requires year >= 1970
    ensures DaysTo(year) == (year - 1970) * 365 + (year - 1969) / 4 - (year - 1901) / 100 + (year - 1601) / 400
  {
    if year > 1970 {
      DaysToClosed(year - 1);
      LeapCount(year - 1);
    }
  }

  lemma LeapCount(y: nat)
    requires y >= 1970
    ensures (y - 1968) / 4 - (y - 1900) / 100 + (y - 1600) / 400
      == (y - 1969) / 4 - (y - 1901) / 100 + (y - 1601) / 400 + if IsLeap(y) then 1 else 0
  {
    assert (y - 1968) / 4 == (y - 1969) / 4 + if y % 4 == 0 then 1 else 0;
    assert (y - 1900) / 100 == (y - 1901) / 100 + if y % 100 == 0 then 1 else 0;
    assert (y - 1600) / 400 == (y - 1601) / 400 + if y % 400 == 0 then 1 else 0;
    assert y % 400 == 0 ==> y % 100 == 0;
    assert y % 100 == 0 ==> y % 4 == 0;
  }

  /** The loops compute the POSIX formula. */
  lemma EpochIsPosix(t: Date)
    requires IsDate(t)
    ensures Epoch(t) == Posix(t.year, YearDay(IsLeap(t.year), t.month, t.day), t.hours, t.minutes, t.seconds)
  {
    DaysToClosed(t.year);
    MonthStarts(IsLeap(t.year), t.month);
  }

  /** The first second of the year 65536. */
  lemma LimitIs()
    ensures Limit() == 2005949145600
  {
    DaysToClosed(YEAR_LIMIT);
  }
}
