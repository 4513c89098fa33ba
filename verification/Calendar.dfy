/** Months and days. A month is counted from year 0; a date is a day of a month, and
  * days are numbered so that "the next day" and "between" are arithmetic. */
module Calendar {
  import Int64

  /** 12 * year + month - 1 */
  type Month = nat

  datatype Date = Date(year: nat, month: nat, day: nat) {
    predicate Valid() {
      1 <= month <= 12 && 1 <= day <= DaysIn(MonthOf())
    }

    function MonthOf(): Month
      requires 1 <= month
    {
      12 * year + (month - 1)
    }

    /** The day's place in the calendar. */
    function Number(): int
      requires 1 <= month
    {
      FirstDay(MonthOf()) + day - 1
    }
  }

  predicate IsLeap(year: nat) {
    year % 4 == 0 && (year % 100 != 0 || year % 400 == 0)
  }

  function DaysIn(m: Month): (n: nat)
    ensures 28 <= n <= 31
  {
    var month := m % 12 + 1;
    if month == 2 then (if IsLeap(m / 12) then 29 else 28)
    else if month == 4 || month == 6 || month == 9 || month == 11 then 30
    else 31
  }

  function FirstDay(m: Month): int {
    if m == 0 then 0 else FirstDay(m - 1) + DaysIn(m - 1)
  }

  function FirstOf(m: Month): (d: Date)
    ensures d.Valid() && d.MonthOf() == m && d.Number() == FirstDay(m)
  {
    Date(m / 12, m % 12 + 1, 1)
  }

  /** AddDate(0, 1, 0) of the first of a month. */
  function AddMonth(d: Date): Date
    requires d.Valid()
  {
    if d.month == 12 then Date(d.year + 1, 1, d.day) else Date(d.year, d.month + 1, d.day)
  }

  /** AddDate(0, 0, -1): the first of a month steps back into the month before it. */
  function DayBefore(d: Date): Date
    requires d.Valid() && d != Date(0, 1, 1)
  {
    if d.day > 1 then Date(d.year, d.month, d.day - 1)
    else if d.month > 1 then Date(d.year, d.month - 1, DaysIn(d.MonthOf() - 1))
    else Date(d.year - 1, 12, DaysIn(d.MonthOf() - 1))
  }

  /** AddDate(0, 0, 1) */
  function DayAfter(d: Date): Date
    requires d.Valid()
  {
    if d.day < DaysIn(d.MonthOf()) then Date(d.year, d.month, d.day + 1)
    else if d.month < 12 then Date(d.year, d.month + 1, 1)
    else Date(d.year + 1, 1, 1)
  }

  lemma DayAfterIsNext(d: Date)
    requires d.Valid()
    ensures DayAfter(d).Valid() && DayAfter(d).Number() == d.Number() + 1
  {
    var m := d.MonthOf();
    if d.day == DaysIn(m) {
      NextMonthOf(d);
      hide DaysIn, FirstOf;
      assert FirstDay(m + 1) == FirstDay(m) + DaysIn(m);
    } else {
      hide DaysIn, FirstDay;
      assert DayAfter(d).MonthOf() == m;
    }
  }

  lemma NextMonthOf(d: Date)
    requires d.Valid() && d.day == DaysIn(d.MonthOf())
    ensures DayAfter(d) == FirstOf(d.MonthOf() + 1)
  {
    hide DaysIn, FirstDay;
    var m := d.MonthOf();
    if d.month < 12 {
      assert (m + 1) / 12 == d.year && (m + 1) % 12 == d.month;
    } else {
      assert (m + 1) / 12 == d.year + 1 && (m + 1) % 12 == 0;
    }
  }

  /** A day back is the day numbered one less, across the ends of months and years. */
  lemma DayBeforeIsPrevious(d: Date)
    requires d.Valid() && d != Date(0, 1, 1)
    ensures DayBefore(d).Valid() && DayBefore(d).Number() == d.Number() - 1
  {
    hide DaysIn;
    var m := d.MonthOf();
    if d.day == 1 {
      assert FirstDay(m) == FirstDay(m - 1) + DaysIn(m - 1);
      assert DayBefore(d).MonthOf() == m - 1;
    } else {
      assert DayBefore(d).MonthOf() == m;
    }
  }

  /** A month on from the first of a month is the first of the next. */
  lemma NextFirst(m: Month)
    ensures AddMonth(FirstOf(m)) == FirstOf(m + 1)
  {
    hide FirstDay, DaysIn;
    var d := FirstOf(m);
    if d.month < 12 {
      assert (m + 1) / 12 == d.year && (m + 1) % 12 == d.month;
    } else {
      assert (m + 1) / 12 == d.year + 1 && (m + 1) % 12 == 0;
    }
  }

  /** A day's number tells it from every other. */
  lemma NumberIsUnique(a: Date, b: Date)
    requires a.Valid() && b.Valid() && a.Number() == b.Number()
    ensures a == b
  {
    hide DaysIn, FirstDay;
    if a.MonthOf() < b.MonthOf() {
      MonthsFollow(a.MonthOf(), b.MonthOf());
    } else if b.MonthOf() < a.MonthOf() {
      MonthsFollow(b.MonthOf(), a.MonthOf());
    }
    assert a.year == a.MonthOf() / 12 && b.year == b.MonthOf() / 12;
  }

  /** A day of the month, and no later day is one. */
  ghost predicate IsLastOf(last: Date, m: Month) {
    && last.Valid() && last.MonthOf() == m
    && forall d: Date :: d.Valid() && d.Number() > last.Number() ==> d.MonthOf() > m
  }

  /** One day back from the first of the next month is the last of this one, whichever
    * of its four lengths this one has. */
  lemma LastDayOfMonth(m: Month)
    ensures FirstOf(m + 1) != Date(0, 1, 1) && AddMonth(FirstOf(m)) == FirstOf(m + 1)
    ensures DayBefore(FirstOf(m + 1)) == Date(m / 12, m % 12 + 1, DaysIn(m))
    ensures IsLastOf(Date(m / 12, m % 12 + 1, DaysIn(m)), m)
  {
    hide DaysIn, FirstDay, FirstOf, DayBefore, AddMonth, IsLastOf;
    NextFirst(m);
    FollowingFirst(m);
    DayBeforeIsPrevious(FirstOf(m + 1));
    NumberOfLast(m);
    NumberIsUnique(DayBefore(FirstOf(m + 1)), Date(m / 12, m % 12 + 1, DaysIn(m)));
    NoLaterDay(Date(m / 12, m % 12 + 1, DaysIn(m)), m);
  }

  lemma FollowingFirst(m: Month)
    ensures FirstOf(m + 1) != Date(0, 1, 1)
  {
    assert Date(0, 1, 1).MonthOf() == 0;
  }

  lemma NumberOfLast(m: Month)
    ensures
      var d := Date(m / 12, m % 12 + 1, DaysIn(m));
      d.Valid() && d.MonthOf() == m && d.Number() == FirstOf(m + 1).Number() - 1
  {
    hide DaysIn;
    var d := Date(m / 12, m % 12 + 1, DaysIn(m));
    assert d.MonthOf() == m;
  }

  lemma NoLaterDay(last: Date, m: Month)
    requires last.Valid() && last.MonthOf() == m && last.day == DaysIn(m)
    ensures IsLastOf(last, m)
  {
    hide DaysIn, FirstDay;
    forall d: Date | d.Valid() && d.Number() > last.Number()
      ensures d.MonthOf() > m
    {
      if d.MonthOf() < m {
        MonthsFollow(d.MonthOf(), m);
      }
    }
  }

  lemma {:induction false} MonthsFollow(a: Month, b: Month)
    requires a < b
    ensures FirstDay(a) + DaysIn(a) <= FirstDay(b)
  {
    hide DaysIn;
    if a + 1 < b {
      MonthsFollow(a, b - 1);
    }
  }

  // ---- The Gregorian calendar, by its rule ---------------------------------------------------------

  /** The leap years before year `y`: every fourth, but of the hundredth only every fourth. */
  function LeapsBefore(y: nat): int {
    (y + 3) / 4 - (y + 99) / 100 + (y + 399) / 400
  }

  /** The days of a common year before each of its months. */
  const BEFORE: seq<nat> := [0, 31, 59, 90, 120, 151, 181, 212, 243, 273, 304, 334]

  /** One more day in a leap year. */
  function LeapDay(y: nat): nat {
    if y % 4 == 0 && (y % 100 == 0 ==> y % 400 == 0) then 1 else 0
  }

  lemma MonthLength(y: nat, k: nat)
    requires k <= 11
    ensures DaysIn(12 * y + k)
         == if k == 1 then 28 + LeapDay(y) else if k == 3 || k == 5 || k == 8 || k == 10 then 30 else 31
  {
    assert (12 * y + k) / 12 == y && (12 * y + k) % 12 == k;
  }

  lemma MonthsOfYear(y: nat, k: nat)
    requires k <= 11
    ensures FirstDay(12 * y + k) == FirstDay(12 * y) + BEFORE[k] + if k >= 2 then LeapDay(y) else 0
  {
    hide DaysIn, LeapDay;
    if k > 0 {
      MonthsOfYear(y, k - 1);
      MonthLength(y, k - 1);
    }
  }

  lemma FourIsPassed(y: nat)
    ensures (y + 4) / 4 == (y + 3) / 4 + if y % 4 == 0 then 1 else 0
  {
  }

  lemma HundredIsPassed(y: nat)
    ensures (y + 100) / 100 == (y + 99) / 100 + if y % 100 == 0 then 1 else 0
  {
  }

  lemma FourHundredIsPassed(y: nat)
    ensures (y + 400) / 400 == (y + 399) / 400 + if y % 400 == 0 then 1 else 0
  {
  }

  lemma LeapsGrow(y: nat)
    ensures LeapsBefore(y + 1) == LeapsBefore(y) + LeapDay(y)
  {
    FourIsPassed(y);
    HundredIsPassed(y);
    FourHundredIsPassed(y);
    Multiples(y);
    var a, b, c := (y + 3) / 4, (y + 99) / 100, (y + 399) / 400;
    assert LeapsBefore(y) == a - b + c;
    assert LeapsBefore(y + 1) == (y + 4) / 4 - (y + 100) / 100 + (y + 400) / 400;
  }

  lemma Multiples(y: nat)
    ensures y % 100 == 0 ==> y % 4 == 0
    ensures y % 400 == 0 ==> y % 100 == 0
  {
    var h, q := y / 100, y / 400;
    if y % 100 == 0 {
      Int64.QuotientIs(y, 4, 25 * h, 0);
    }
    if y % 400 == 0 {
      Int64.QuotientIs(y, 100, 4 * q, 0);
    }
  }

  lemma FirstOfFollowing(m: Month)
    ensures FirstDay(m + 1) == FirstDay(m) + DaysIn(m)
  {
  }

  lemma {:induction false} YearStarts(y: nat)
    ensures FirstDay(12 * y) == 365 * y + LeapsBefore(y)
  {
    hide FirstDay, DaysIn, LeapsBefore, LeapDay;
    if y == 0 {
      YearZero();
    } else {
      YearStarts(y - 1);
      LeapsGrow(y - 1);
      MonthsOfYear(y - 1, 11);
      MonthLength(y - 1, 11);
      FirstOfFollowing(12 * (y - 1) + 11);
    }
  }

  lemma YearZero()
    ensures FirstDay(0) == 0 && LeapsBefore(0) == 0
  {
  }

  /** Every day has its place: 365 days a year, one more for each leap year gone by, the months
    * before its own, and the days before it. */
  lemma DaysAreCounted(d: Date)
    requires 1 <= d.month <= 12
    ensures d.Number()
         == 365 * d.year + LeapsBefore(d.year) + BEFORE[d.month - 1]
            + (if d.month > 2 then LeapDay(d.year) else 0) + d.day - 1
  {
    hide FirstDay, DaysIn, BEFORE, LeapsBefore, LeapDay;
    YearStarts(d.year);
    MonthsOfYear(d.year, d.month - 1);
  }

  /** A date lies between the first day of one month and the last of another exactly
    * when its month lies between them. */
  lemma BetweenMonths(d: Date, from: Month, to: Month)
    requires d.Valid()
    ensures FirstDay(from) <= d.Number() < FirstDay(to) + DaysIn(to) <==> from <= d.MonthOf() <= to
  {
    hide DaysIn, FirstDay;
    var m := d.MonthOf();
    if m < from {
      MonthsFollow(m, from);
    } else if from < m {
      MonthsFollow(from, m);
    }
    if m < to {
      MonthsFollow(m, to);
    } else if to < m {
      MonthsFollow(to, m);
    }
  }
}
