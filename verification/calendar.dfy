/** Calendar dates as the script's date fields deliver them, with the day
    arithmetic that JavaScript's `Date` performs for `setMonth` and for
    comparing two dates. Proleptic Gregorian calendar; time of day and time
    zones are not modelled, so every date stands for its midnight. */
module Calendar {
  import opened Wrappers

  /** A calendar date; `month` is 1-based (January is 1). */
  datatype Date = Date(year: int, month: int, day: int)

  /** The content of a date field: nothing entered, text that is not a date,
      or a date. */
  datatype DateInput = Empty | Malformed | Given(date: Date)

  predicate IsLeapYear(y: int) {
    y % 4 == 0 && (y % 100 != 0 || y % 400 == 0)
  }

  function DaysInMonth(y: int, m: int): (n: int)
    ensures 1 <= m <= 12 ==> 28 <= n <= 31
    ensures m == 2 ==> (n == 29 <==> IsLeapYear(y))
  {
    if m == 2 then (if IsLeapYear(y) then 29 else 28)
    else if m == 4 || m == 6 || m == 9 || m == 11 then 30
    else 31
  }

  predicate ValidDate(d: Date) {
    1 <= d.month <= 12 && 1 <= d.day <= DaysInMonth(d.year, d.month)
  }

  /** What `new Date(text)` makes of a field: a date, or nothing for an
      empty field, unparsable text or a day that the month does not have. */
  function ParsedDate(input: DateInput): (r: Option<Date>)
    ensures r.Some? ==> ValidDate(r.value)
    ensures r.Some? <==> input.Given? && ValidDate(input.date)
    ensures r.Some? ==> r.value == input.date
  {
    match input
    case Given(d) => if ValidDate(d) then Some(d) else None
    case _ => None
  }

  /** Number of days from 1 January of year 0 to 1 January of year y. */
  function DaysBeforeYear(y: int): int {
    365 * y + (y + 3) / 4 - (y + 99) / 100 + (y + 399) / 400
  }

  /** Number of days in year y before the first of month m. */
  function DaysBeforeMonth(y: int, m: int): int
    requires 1 <= m <= 12
  {
    var cumulative := [0, 31, 59, 90, 120, 151, 181, 212, 243, 273, 304, 334];
    cumulative[m - 1] + (if m > 2 && IsLeapYear(y) then 1 else 0)
  }

  /** Months counted from January of year 0: the index ECMAScript's MakeDay
      computes from a year and a month. */
  function MonthIndex(y: int, m: int): int {
    12 * y + (m - 1)
  }

  function YearOfIndex(mi: int): int {
    mi / 12
  }

  function MonthOfIndex(mi: int): (m: int)
    ensures 1 <= m <= 12
  {
    mi % 12 + 1
  }

  /** Day number of the first day of the month with index mi. */
  function FirstDayOfMonth(mi: int): int {
    DaysBeforeYear(YearOfIndex(mi)) + DaysBeforeMonth(YearOfIndex(mi), MonthOfIndex(mi))
  }

  /** Day number of a date (MakeDay): the first of its month plus day - 1.
      For a day beyond the end of its month this is a day of a later month,
      which is how `setMonth` rolls over. */
  function DayNumber(d: Date): int {
    FirstDayOfMonth(MonthIndex(d.year, d.month)) + d.day - 1
  }

  /** Calendar order: strictly earlier. */
  predicate Before(a: Date, b: Date) {
    a.year < b.year
    || (a.year == b.year && a.month < b.month)
    || (a.year == b.year && a.month == b.month && a.day < b.day)
  }

  lemma MonthIndexRoundTrip(y: int, m: int)
    requires 1 <= m <= 12
    ensures YearOfIndex(MonthIndex(y, m)) == y
    ensures MonthOfIndex(MonthIndex(y, m)) == m
  {
  }

  /** A year has 366 days exactly when it is a leap year. */
  lemma YearLength(y: int)
    ensures DaysBeforeYear(y + 1) == DaysBeforeYear(y) + (if IsLeapYear(y) then 366 else 365)
  {
    var four, hundred, fourHundred := (y + 4) / 4 - (y + 3) / 4, (y + 100) / 100 - (y + 99) / 100, (y + 400) / 400 - (y + 399) / 400;
    assert DaysBeforeYear(y + 1) - DaysBeforeYear(y) == 365 + four - hundred + fourHundred;
    assert four == (if y % 4 == 0 then 1 else 0) by { CountStep4(y); }
    assert hundred == (if y % 100 == 0 then 1 else 0) by { CountStep100(y); }
    assert fourHundred == (if y % 400 == 0 then 1 else 0) by { CountStep400(y); }
    DivisibilityChain(y);
  }

  lemma DivisibilityChain(y: int)
    ensures y % 400 == 0 ==> y % 100 == 0
    ensures y % 100 == 0 ==> y % 4 == 0
  {
    if y % 400 == 0 {
      MultipleOf100(y);
    }
    if y % 100 == 0 {
      MultipleOf4(y);
    }
  }

  lemma MultipleOf100(y: int)
    requires y % 400 == 0
    ensures y % 100 == 0
  {
    var q := y / 400;
    assert y == 100 * (4 * q);
  }

  lemma MultipleOf4(y: int)
    requires y % 100 == 0
    ensures y % 4 == 0
  {
    var q := y / 100;
    assert y == 4 * (25 * q);
  }

  lemma CountStep4(y: int)
    ensures (y + 4) / 4 - (y + 3) / 4 == (if y % 4 == 0 then 1 else 0)
  {
    var q, r := y / 4, y % 4;
    assert y == 4 * q + r && 0 <= r < 4;
    assert (y + 4) / 4 == q + 1;
    assert (y + 3) / 4 == (if r == 0 then q else q + 1);
  }

  lemma CountStep100(y: int)
    ensures (y + 100) / 100 - (y + 99) / 100 == (if y % 100 == 0 then 1 else 0)
  {
    var q, r := y / 100, y % 100;
    assert y == 100 * q + r && 0 <= r < 100;
    assert (y + 100) / 100 == q + 1;
    assert (y + 99) / 100 == (if r == 0 then q else q + 1);
  }

  lemma CountStep400(y: int)
    ensures (y + 400) / 400 - (y + 399) / 400 == (if y % 400 == 0 then 1 else 0)
  {
    var q, r := y / 400, y % 400;
    assert y == 400 * q + r && 0 <= r < 400;
    assert (y + 400) / 400 == q + 1;
    assert (y + 399) / 400 == (if r == 0 then q else q + 1);
  }

  /** Consecutive months: the next month starts DaysInMonth days later. */
  lemma FirstDayStep(mi: int)
    ensures FirstDayOfMonth(mi + 1) == FirstDayOfMonth(mi) + DaysInMonth(YearOfIndex(mi), MonthOfIndex(mi))
  {
    var y := YearOfIndex(mi);
    if mi % 12 == 11 {
      assert YearOfIndex(mi + 1) == y + 1 && MonthOfIndex(mi + 1) == 1;
      YearLength(y);
    } else {
      assert YearOfIndex(mi + 1) == y && MonthOfIndex(mi + 1) == MonthOfIndex(mi) + 1;
    }
  }

  /** Months have positive length, so month starts grow with the index. */
  lemma {:induction false} FirstDayGrows(i: int, j: int)
    requires i <= j
    ensures FirstDayOfMonth(i) + (j - i) <= FirstDayOfMonth(j)
    decreases j - i
  {
    if i < j {
      FirstDayGrows(i, j - 1);
      FirstDayStep(j - 1);
    }
  }

  /** A valid date lies within its own month. */
  lemma DayNumberWithinMonth(d: Date)
    requires ValidDate(d)
    ensures FirstDayOfMonth(MonthIndex(d.year, d.month)) <= DayNumber(d)
    ensures DayNumber(d) < FirstDayOfMonth(MonthIndex(d.year, d.month) + 1)
  {
    var mi := MonthIndex(d.year, d.month);
    MonthIndexRoundTrip(d.year, d.month);
    FirstDayStep(mi);
  }

  /** Calendar order on (year, month) is the order of month indices. */
  lemma MonthIndexOrder(a: Date, b: Date)
    requires ValidDate(a) && ValidDate(b)
    ensures MonthIndex(a.year, a.month) < MonthIndex(b.year, b.month)
      <==> (a.year < b.year || (a.year == b.year && a.month < b.month))
    ensures MonthIndex(a.year, a.month) == MonthIndex(b.year, b.month)
      <==> (a.year == b.year && a.month == b.month)
  {
  }

  /** A date in an earlier month has a smaller day number. */
  lemma EarlierMonthEarlierDay(a: Date, b: Date)
    requires ValidDate(a) && ValidDate(b)
    requires MonthIndex(a.year, a.month) < MonthIndex(b.year, b.month)
    ensures DayNumber(a) < DayNumber(b)
  {
    var ia, ib := MonthIndex(a.year, a.month), MonthIndex(b.year, b.month);
    var endA, startB := FirstDayOfMonth(ia + 1), FirstDayOfMonth(ib);
    assert DayNumber(a) < endA by { DayNumberWithinMonth(a); }
    assert endA <= startB by { FirstDayGrows(ia + 1, ib); }
    assert startB <= DayNumber(b) by { DayNumberWithinMonth(b); }
  }

  /** Day numbers respect calendar order, in both directions: comparing two
      valid dates as `Date` objects agrees with comparing them on the calendar. */
  lemma DayNumberOrder(a: Date, b: Date)
    requires ValidDate(a) && ValidDate(b)
    ensures Before(a, b) <==> DayNumber(a) < DayNumber(b)
    ensures a == b <==> DayNumber(a) == DayNumber(b)
  {
    MonthIndexOrder(a, b);
    MonthIndexOrder(b, a);
    var ia, ib := MonthIndex(a.year, a.month), MonthIndex(b.year, b.month);
    if ia < ib {
      EarlierMonthEarlierDay(a, b);
    } else if ib < ia {
      EarlierMonthEarlierDay(b, a);
    }
  }

  /** Number of days of the month with index mi. */
  function MonthLength(mi: int): (n: int)
    ensures 28 <= n <= 31
  {
    DaysInMonth(YearOfIndex(mi), MonthOfIndex(mi))
  }

  /** What `setMonth(getMonth() + k)` does to a date: the same day of the
      month k months later, where a day the target month does not have
      rolls over into the following month (31 August + 6 months is
      2 or 3 March). */
  function AddMonths(d: Date, k: int): (r: Date)
    ensures ValidDate(d) ==> ValidDate(r)
    ensures d.day <= MonthLength(MonthIndex(d.year, d.month) + k)
      ==> MonthIndex(r.year, r.month) == MonthIndex(d.year, d.month) + k && r.day == d.day
    ensures d.day > MonthLength(MonthIndex(d.year, d.month) + k) ==>
      (MonthIndex(r.year, r.month) == MonthIndex(d.year, d.month) + k + 1
       && r.day == d.day - MonthLength(MonthIndex(d.year, d.month) + k))
  {
    DayOfMonthIndex(MonthIndex(d.year, d.month) + k, d.day)
  }

  /** The date MakeDay gives for day `day` of the month with index mi: at
      most 31, so a day past the month's end lands in the next month. */
  function DayOfMonthIndex(mi: int, day: int): (r: Date)
    ensures 1 <= day <= 31 ==> ValidDate(r)
    ensures day <= MonthLength(mi) ==> MonthIndex(r.year, r.month) == mi && r.day == day
    ensures day > MonthLength(mi) ==> MonthIndex(r.year, r.month) == mi + 1 && r.day == day - MonthLength(mi)
  {
    var length := MonthLength(mi);
    IndexRoundTrip(mi);
    IndexRoundTrip(mi + 1);
    if day <= length then
      Date(YearOfIndex(mi), MonthOfIndex(mi), day)
    else
      Date(YearOfIndex(mi + 1), MonthOfIndex(mi + 1), day - length)
  }

  /** A month index splits into a year and a month that give it back. */
  lemma IndexRoundTrip(mi: int)
    ensures MonthIndex(YearOfIndex(mi), MonthOfIndex(mi)) == mi
  {
  }

  /** `setMonth` keeps the day number MakeDay computes: the first of the
      target month plus the day of the month minus one, whether or not
      the day rolls over. */
  lemma AddMonthsMakeDay(d: Date, k: int)
    requires ValidDate(d)
    ensures DayNumber(AddMonths(d, k)) == FirstDayOfMonth(MonthIndex(d.year, d.month) + k) + d.day - 1
  {
    var mi := MonthIndex(d.year, d.month) + k;
    var r := AddMonths(d, k);
    if d.day <= MonthLength(mi) {
      assert MonthIndex(r.year, r.month) == mi;
    } else {
      assert MonthIndex(r.year, r.month) == mi + 1;
      FirstDayStep(mi);
    }
  }

  /** The following calendar day. */
  function NextDay(d: Date): (r: Date)
    ensures ValidDate(d) ==> ValidDate(r) && DayNumber(r) == DayNumber(d) + 1
  {
    if d.day < DaysInMonth(d.year, d.month) then
      Date(d.year, d.month, d.day + 1)
    else
      var mi := MonthIndex(d.year, d.month);
      assert ValidDate(d) ==> YearOfIndex(mi) == d.year && MonthOfIndex(mi) == d.month;
      FirstDayStep(mi);
      IndexRoundTrip(mi + 1);
      Date(YearOfIndex(mi + 1), MonthOfIndex(mi + 1), 1)
  }

  /** Adding more months gives a strictly later date: the target month
      moves on, and where two results share a month the earlier one is a
      rolled-over day, smaller than the unchanged one. */
  lemma AddMonthsIncreasing(d: Date, j: int, k: int)
    requires ValidDate(d) && j < k
    ensures Before(AddMonths(d, j), AddMonths(d, k))
    ensures DayNumber(AddMonths(d, j)) < DayNumber(AddMonths(d, k))
  {
    var early, late := AddMonths(d, j), AddMonths(d, k);
    MonthIndexOrder(early, late);
    DayNumberOrder(early, late);
  }
}
