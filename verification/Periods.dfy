/** The columns of a report: months as text, the periods they fold into, and the dates
  * a period covers once it is clipped to the range that was asked for. */
module PeriodColumns {
  import opened Wrappers
  import opened Text
  import opened Calendar

  datatype Error = NotAMonth | NotAPeriod | RangeReversed | OutsideRange

  datatype Granularity = Monthly | Quarterly | Yearly {
    /** The column a month falls in, counted from the first column of year 0. */
    function Column(m: Month): nat {
      match this
      case Monthly => m
      case Quarterly => m / 3
      case Yearly => m / 12
    }

    function FirstMonth(column: nat): Month {
      match this
      case Monthly => column
      case Quarterly => 3 * column
      case Yearly => 12 * column
    }

    function LastMonth(column: nat): Month {
      match this
      case Monthly => column
      case Quarterly => 3 * column + 2
      case Yearly => 12 * column + 11
    }
  }

  // ---- Months and columns as text -----------------------------------------------------

  /** fmt.Sprintf("%04d-%02d", year, month) */
  function FormatMonth(year: nat, month: nat): string {
    PadZero(Digits(year), 4) + ("-" + PadZero(Digits(month), 2))
  }

  function MonthText(m: Month): string {
    FormatMonth(m / 12, m % 12 + 1)
  }

  /** The first month whose year no longer fits four digits. */
  const END: Month := 120000

  /** "YYYY-MM" and nothing else. */
  function ParseMonth(s: string): Result<Month, Error> {
    if |s| == 7 && AllDigits(s[..4]) && s[4] == '-' && AllDigits(s[5..]) && 1 <= Value(s[5..]) <= 12
    then Ok(12 * Value(s[..4]) + Value(s[5..]) - 1)
    else Err(NotAMonth)
  }

  function ColumnText(g: Granularity, column: nat): string {
    match g
    case Monthly => MonthText(column)
    case Quarterly => PadZero(Digits(column / 4), 4) + ("-Q" + Digits(column % 4 + 1))
    case Yearly => PadZero(Digits(column), 4)
  }

  /** Granularity.Label */
  function Label(g: Granularity, month: string): Result<string, Error> {
    var m :- ParseMonth(month);
    Ok(LabelOf(g, m / 12, m % 12 + 1))
  }

  function LabelOf(g: Granularity, year: nat, month: nat): string
    requires month >= 1
  {
    match g
    case Monthly => FormatMonth(year, month)
    case Quarterly => PadZero(Digits(year), 4) + ("-Q" + Digits((month - 1) / 3 + 1))
    case Yearly => PadZero(Digits(year), 4)
  }

  /** periodMonths: the first and the last month of a column, before clipping. */
  function PeriodMonths(period: string, g: Granularity): Result<(string, string), Error> {
    match g
    case Monthly =>
      var m :- ParseMonth(period);
      Ok((period, period))
    case Quarterly =>
      if |period| == 7 && AllDigits(period[..4]) && period[4] == '-' && period[5] == 'Q' && '1' <= period[6] <= '4'
      then Ok(QuarterMonths(Value(period[..4]), DigitValue(period[6])))
      else Err(NotAPeriod)
    case Yearly =>
      if |period| == 4 && AllDigits(period)
      then Ok((FormatMonth(Value(period), 1), FormatMonth(Value(period), 12)))
      else Err(NotAPeriod)
  }

  function QuarterMonths(year: nat, quarter: nat): (string, string)
    requires quarter >= 1
  {
    (FormatMonth(year, (quarter - 1) * 3 + 1), FormatMonth(year, quarter * 3))
  }

  lemma FourDigits(year: nat)
    requires year < 10000
    ensures var s := PadZero(Digits(year), 4); |s| == 4 && AllDigits(s) && Value(s) == year
  {
    assert Pow10(4) == 10 * Pow10(3) == 100 * Pow10(2) == 1000 * Pow10(1) == 10000;
    DigitsFit(year, 4);
    ValueOfDigits(year);
    ValueOfPadded(Digits(year), 4);
  }

  lemma TwoDigits(month: nat)
    requires month < 100
    ensures var s := PadZero(Digits(month), 2); |s| == 2 && AllDigits(s) && Value(s) == month
  {
    assert Pow10(2) == 10 * Pow10(1) == 100;
    DigitsFit(month, 2);
    ValueOfDigits(month);
    ValueOfPadded(Digits(month), 2);
  }

  lemma FourDigitsBack(s: string)
    requires |s| == 4 && AllDigits(s)
    ensures Value(s) < 10000 && PadZero(Digits(Value(s)), 4) == s
  {
    hide Value, Digits, PadZero;
    ValueIsBounded(s);
    assert Pow10(4) == 10 * Pow10(3) == 100 * Pow10(2) == 1000 * Pow10(1) == 10000;
    FourDigits(Value(s));
    ValueIsInjective(s, PadZero(Digits(Value(s)), 4));
  }

  lemma TwoDigitsBack(s: string)
    requires |s| == 2 && AllDigits(s)
    ensures Value(s) < 100 && PadZero(Digits(Value(s)), 2) == s
  {
    hide Value, Digits, PadZero;
    ValueIsBounded(s);
    assert Pow10(2) == 10 * Pow10(1) == 100;
    TwoDigits(Value(s));
    ValueIsInjective(s, PadZero(Digits(Value(s)), 2));
  }

  lemma ParseOfMonthText(m: Month)
    requires m < END
    ensures |MonthText(m)| == 7 && ParseMonth(MonthText(m)) == Ok(m)
  {
    hide Value, Digits, PadZero;
    FourDigits(m / 12);
    TwoDigits(m % 12 + 1);
    var y, mm := PadZero(Digits(m / 12), 4), PadZero(Digits(m % 12 + 1), 2);
    var s := MonthText(m);
    assert s[..4] == y && s[5..] == mm;
  }

  lemma MonthTextOfParse(s: string)
    requires ParseMonth(s).Ok?
    ensures ParseMonth(s).value < END && MonthText(ParseMonth(s).value) == s
  {
    hide Value, Digits, PadZero;
    FourDigitsBack(s[..4]);
    TwoDigitsBack(s[5..]);
    MonthParts(Value(s[..4]), Value(s[5..]));
    assert s == s[..4] + ([s[4]] + s[5..]);
  }

  lemma MonthParts(y: nat, m: nat)
    requires 1 <= m <= 12
    ensures (12 * y + m - 1) / 12 == y && (12 * y + m - 1) % 12 + 1 == m
  {
  }

  // ---- Comparing months as text compares months ------------------------------------------

  lemma {:induction false} LessOfPrefixed(a: string, b: string, x: string, y: string)
    requires |a| == |b|
    ensures Less(a + x, b + y) <==> Less(a, b) || (a == b && Less(x, y))
  {
    if a == "" {
      assert a + x == x && b + y == y;
    } else {
      assert (a + x)[1..] == a[1..] + x && (b + y)[1..] == b[1..] + y;
      LessOfPrefixed(a[1..], b[1..], x, y);
    }
  }

  lemma {:induction false} LessIsIrreflexive(a: string)
    ensures !Less(a, a)
  {
    if a != "" {
      LessIsIrreflexive(a[1..]);
    }
  }

  lemma {:induction false} LessOfDigits(a: string, b: string)
    requires AllDigits(a) && AllDigits(b) && |a| == |b|
    ensures Less(a, b) <==> Value(a) < Value(b)
  {
    if a != "" {
      var i := |a| - 1;
      LessOfDigits(a[..i], b[..i]);
      LessOfPrefixed(a[..i], b[..i], a[i..], b[i..]);
      assert a == a[..i] + a[i..] && b == b[..i] + b[i..];
      assert Less(a[i..], b[i..]) <==> a[i] < b[i];
      if Value(a[..i]) == Value(b[..i]) {
        ValueIsInjective(a[..i], b[..i]);
      }
    }
  }

  lemma MonthOrder(a: Month, b: Month)
    requires a < END && b < END
    ensures Less(MonthText(a), MonthText(b)) <==> a < b
  {
    hide Value, Digits, PadZero, Less;
    var ya, yb := PadZero(Digits(a / 12), 4), PadZero(Digits(b / 12), 4);
    var ma, mb := PadZero(Digits(a % 12 + 1), 2), PadZero(Digits(b % 12 + 1), 2);
    FourDigits(a / 12);
    FourDigits(b / 12);
    TwoDigits(a % 12 + 1);
    TwoDigits(b % 12 + 1);
    LessOfPrefixed(ya, yb, "-" + ma, "-" + mb);
    LessOfPrefixed("-", "-", ma, mb);
    LessIsIrreflexive("-");
    assert "-" + ma == ['-'] + ma && "-" + mb == ['-'] + mb;
    LessOfDigits(ya, yb);
    LessOfDigits(ma, mb);
    if a / 12 == b / 12 {
      ValueIsInjective(ya, yb);
    }
  }

  lemma MonthTextIsInjective(a: Month, b: Month)
    requires a < END && b < END && MonthText(a) == MonthText(b)
    ensures a == b
  {
    ParseOfMonthText(a);
    ParseOfMonthText(b);
  }

  // ---- periodMonths inverts Label -----------------------------------------------------

  lemma ColumnBounds(g: Granularity, m: Month)
    ensures g.FirstMonth(g.Column(m)) <= m <= g.LastMonth(g.Column(m))
    ensures m < END ==> g.LastMonth(g.Column(m)) < END
    ensures forall c: nat :: g.FirstMonth(c) <= m <= g.LastMonth(c) ==> c == g.Column(m)
  {
    match g
    case Monthly =>
    case Quarterly =>
    case Yearly =>
  }

  lemma QuarterOf(m: Month)
    ensures (m / 3) / 4 == m / 12 && (m / 3) % 4 == (m % 12) / 3
  {
    var year, rest := m / 12, m % 12;
    assert m / 3 == 4 * year + rest / 3;
  }

  lemma LabelOfMonth(g: Granularity, m: Month)
    requires m < END
    ensures Label(g, MonthText(m)) == Ok(ColumnText(g, g.Column(m)))
  {
    ParseOfMonthText(m);
    LabelOfColumn(g, m);
    hide ParseMonth, LabelOf, ColumnText, MonthText;
  }

  lemma LabelOfColumn(g: Granularity, m: Month)
    ensures LabelOf(g, m / 12, m % 12 + 1) == ColumnText(g, g.Column(m))
  {
    hide FormatMonth, PadZero, Digits;
    QuarterOf(m);
  }

  lemma QuarterMonthsOf(c: nat)
    ensures QuarterMonths(c / 4, c % 4 + 1) == (MonthText(3 * c), MonthText(3 * c + 2))
  {
    var y, q := c / 4, c % 4;
    assert 3 * c == 12 * y + 3 * q && 3 * c + 2 == 12 * y + 3 * q + 2;
  }

  lemma QuarterText(c: nat)
    requires c < 40000
    ensures PeriodMonths(ColumnText(Quarterly, c), Quarterly) == Ok(QuarterMonths(c / 4, c % 4 + 1))
  {
    FourDigits(c / 4);
    var text, year, quarter := ColumnText(Quarterly, c), PadZero(Digits(c / 4), 4), DigitChar(c % 4 + 1);
    assert text == year + ("-Q" + [quarter]);
    assert text[..4] == year && text[4] == '-' && text[5] == 'Q' && text[6] == quarter;
    assert DigitValue(quarter) == c % 4 + 1;
  }

  lemma YearMonthsOf(c: nat)
    ensures MonthText(12 * c) == FormatMonth(c, 1) && MonthText(12 * c + 11) == FormatMonth(c, 12)
  {
    hide FormatMonth;
    assert (12 * c) / 12 == c && (12 * c + 11) / 12 == c;
  }

  lemma PeriodMonthsOfColumn(g: Granularity, c: nat)
    requires g.LastMonth(c) < END
    ensures PeriodMonths(ColumnText(g, c), g) == Ok((MonthText(g.FirstMonth(c)), MonthText(g.LastMonth(c))))
  {
    match g
    case Monthly =>
      ParseOfMonthText(c);
    case Quarterly =>
      QuarterText(c);
      QuarterMonthsOf(c);
    case Yearly =>
      FourDigits(c);
      YearMonthsOf(c);
  }

  lemma ColumnTextIsInjective(g: Granularity, a: nat, b: nat)
    requires g.LastMonth(a) < END && g.LastMonth(b) < END && ColumnText(g, a) == ColumnText(g, b)
    ensures a == b
  {
    PeriodMonthsOfColumn(g, a);
    PeriodMonthsOfColumn(g, b);
    MonthTextIsInjective(g.FirstMonth(a), g.FirstMonth(b));
    match g
    case Monthly =>
    case Quarterly =>
    case Yearly =>
  }

  /** The months periodMonths names for a label are exactly the months that carry it. */
  lemma PeriodMonthsInvertsLabel(g: Granularity, m: Month, other: Month)
    requires m < END && other < END
    ensures Label(g, MonthText(m)).Ok?
    ensures
      var period := Label(g, MonthText(m)).value;
      && PeriodMonths(period, g).Ok?
      && var (first, last) := PeriodMonths(period, g).value;
      Label(g, MonthText(other)) == Ok(period)
      <==> !Less(MonthText(other), first) && !Less(last, MonthText(other))
  {
    var c := g.Column(m);
    ColumnBounds(g, m);
    ColumnBounds(g, other);
    LabelOfMonth(g, m);
    LabelOfMonth(g, other);
    PeriodMonthsOfColumn(g, c);
    MonthOrder(other, g.FirstMonth(c));
    MonthOrder(g.LastMonth(c), other);
    if ColumnText(g, g.Column(other)) == ColumnText(g, c) {
      ColumnTextIsInjective(g, g.Column(other), c);
    }
  }

  // ---- Months: every month of a closed range -----------------------------------------------

  /** The texts of `count` months from `from` on. */
  function MonthTexts(from: Month, count: nat): (s: seq<string>)
    ensures |s| == count
  {
    if count == 0 then [] else MonthTexts(from, count - 1) + [MonthText(from + count - 1)]
  }

  lemma {:induction false} MonthTextsAt(from: Month, count: nat, i: nat)
    requires i < count
    ensures MonthTexts(from, count)[i] == MonthText(from + i)
  {
    hide MonthText;
    if i < count - 1 {
      MonthTextsAt(from, count - 1, i);
    }
  }

  /** sort.Strings */
  function Sorted(s: seq<string>): (r: seq<string>)
    ensures |r| == |s|
  {
    if s == [] then [] else Inserted(Sorted(s[..|s| - 1]), s[|s| - 1])
  }

  function Inserted(s: seq<string>, x: string): (r: seq<string>)
    ensures |r| == |s| + 1 && x in r
    ensures forall y :: y in s ==> y in r
  {
    if s == [] || !Less(x, s[|s| - 1]) then s + [x]
    else
      var r := Inserted(s[..|s| - 1], x) + [s[|s| - 1]];
      assert s == s[..|s| - 1] + [s[|s| - 1]];
      r
  }

  lemma {:induction false} SortedKeeps(s: seq<string>, x: string)
    requires x in s
    ensures x in Sorted(s)
  {
    if x != s[|s| - 1] {
      assert s == s[..|s| - 1] + [s[|s| - 1]];
      SortedKeeps(s[..|s| - 1], x);
    }
  }

  predicate InOrder(s: seq<string>) {
    forall i :: 0 < i < |s| ==> !Less(s[i], s[i - 1])
  }

  lemma {:induction false} SortedAlready(s: seq<string>)
    requires InOrder(s)
    ensures Sorted(s) == s
  {
    if s != [] {
      var before, x := s[..|s| - 1], s[|s| - 1];
      assert s == before + [x];
      assert forall i :: 0 <= i < |before| ==> before[i] == s[i];
      SortedAlready(before);
      assert before != [] ==> before[|before| - 1] == s[|s| - 2];
    }
  }

  lemma MonthTextsInOrder(from: Month, to: Month)
    requires from <= to < END
    ensures InOrder(MonthTexts(from, to + 1 - from))
  {
    hide MonthText;

    var s := MonthTexts(from, to + 1 - from);
    forall i | 0 < i < |s|
      ensures !Less(s[i], s[i - 1])
    {
      MonthTextsAt(from, |s|, i);
      MonthTextsAt(from, |s|, i - 1);
      MonthOrder(from + i, from + i - 1);
    }
  }

  /** The last month that is still text of seven characters. */
  const LAST: string := "9999-12"

  lemma LastMonthText()
    ensures MonthText(END - 1) == LAST && ParseMonth(LAST) == Ok(END - 1)
  {
    Nines();
    assert Digits(12) == "12";
    assert MonthText(END - 1) == "9999" + ("-" + "12");
    ParseOfMonthText(END - 1);
  }

  /** Five digits sort before four when they begin lower: the month after 9999-12 is
    * not past it. */
  lemma YearTenThousand()
    ensures MonthText(END) == "10000-01" && !Less(LAST, "10000-01") && ParseMonth("10000-01").Err?
  {
    TextOfEnd();
    hide MonthText;
  }

  lemma TextOfEnd()
    ensures MonthText(END) == "10000-01"
  {
    hide Digits, PadZero, Zeros;
    TenThousand();
    FirstMonthText();
    PadLong(Digits(10000), 4);
    assert MonthText(END) == "10000" + ("-" + "01");
  }

  lemma TenThousand()
    ensures Digits(10000) == "10000"
  {
    assert Digits(10) == "10" && Digits(100) == "100" && Digits(1000) == "1000";
  }

  lemma PadLong(s: string, width: nat)
    requires |s| >= width
    ensures PadZero(s, width) == s
  {
  }

  /** The month at which text order catches up with any other. */
  const FAR: Month := 12 * 99990

  lemma Nines()
    ensures Digits(9999) == "9999"
  {
    assert Digits(99) == "99" && Digits(999) == "999";
  }

  lemma FarText()
    ensures MonthText(FAR) == "9999" + "0-01"
  {
    hide Digits, PadZero, Zeros;
    DigitsOfFar();
    FirstMonthText();
    PadLong(Digits(99990), 4);
    assert MonthText(FAR) == "99990" + ("-" + "01");
  }

  lemma DigitsOfFar()
    ensures Digits(99990) == "99990"
  {
    Nines();
    DigitsByTen(9999, 0);
    hide Digits;
    assert "9999" + "0" == "99990";
  }

  lemma DigitsByTen(n: nat, d: nat)
    requires n > 0 && d < 10
    ensures Digits(10 * n + d) == Digits(n) + [DigitChar(d)]
  {
  }

  lemma FirstMonthText()
    ensures PadZero(Digits(1), 2) == "01"
  {
    assert Zeros(1) == "0" && "0" + "1" == "01";
  }

  lemma FarIsPastEverything(t: Month)
    requires t < END
    ensures Less(MonthText(t), MonthText(FAR))
  {
    hide Digits, PadZero;
    FarText();
    FourDigits(t / 12);
    FourDigits(9999);
    Nines();
    PadLong("9999", 4);
    var year, rest := PadZero(Digits(t / 12), 4), "-" + PadZero(Digits(t % 12 + 1), 2);
    LessOfPrefixed(year, "9999", rest, "0-01");
    LessOfDigits(year, "9999");
    if t / 12 == 9999 {
      ValueIsInjective(year, "9999");
    }
  }

  /** Whether the loop stops at month `m`. */
  lemma StopsAt(t: Month, m: Month)
    requires t < END && m <= FAR
    ensures m < END ==> (Less(MonthText(t), MonthText(m)) <==> t < m)
    ensures t == END - 1 && m <= END ==> !Less(MonthText(t), MonthText(m))
    ensures m == FAR ==> Less(MonthText(t), MonthText(m))
  {
    if m < END {
      MonthOrder(t, m);
    } else if t == END - 1 && m == END {
      LastMonthText();
      YearTenThousand();
    } else if m == FAR {
      FarIsPastEverything(t);
    }
  }

  lemma MonthTextAt(y: nat, m: nat)
    requires 1 <= m <= 12
    ensures MonthText(12 * y + m - 1) == FormatMonth(y, m)
  {
    hide FormatMonth;
    MonthParts(y, m);
  }

  /** The loop before month `k`: the months behind it are out, and `p` is its text. */
  ghost predicate AtMonth(out: seq<string>, y: nat, m: nat, p: string, f: Month, t: Month, k: Month) {
    && 1 <= m <= 12 && k == 12 * y + m - 1
    && f <= k <= FAR && p == MonthText(k)
    && (t < END - 1 ==> k <= t + 1)
    && out == MonthTexts(f, k - f)
  }

  lemma StartsAtMonth(f: Month, t: Month)
    requires f <= t < END
    ensures AtMonth([], f / 12, f % 12 + 1, FormatMonth(f / 12, f % 12 + 1), f, t, f)
  {
    hide MonthText, FormatMonth;
    MonthTextAt(f / 12, f % 12 + 1);
  }

  /** One turn of the loop: a month out, and the month after it. */
  lemma NextMonth(out: seq<string>, y: nat, m: nat, p: string, f: Month, t: Month, k: Month)
    requires f <= t < END && AtMonth(out, y, m, p, f, t, k) && !Less(MonthText(t), p)
    ensures
      var ny, nm := if m == 12 then y + 1 else y, if m == 12 then 1 else m + 1;
      k < FAR && AtMonth(out + [p], ny, nm, FormatMonth(ny, nm), f, t, k + 1)
  {
    hide MonthText, FormatMonth, Less;
    StopsAt(t, k);
    if m == 12 {
      MonthTextAt(y + 1, 1);
    } else {
      MonthTextAt(y, m + 1);
    }
  }

  /** Where the loop stops: past the last month asked for, or far past 9999-12. */
  lemma MonthsDone(out: seq<string>, y: nat, m: nat, p: string, f: Month, t: Month, k: Month)
    requires f <= t < END && AtMonth(out, y, m, p, f, t, k) && Less(MonthText(t), p)
    ensures MonthText(t) != LAST ==> Sorted(out) == MonthTexts(f, t + 1 - f)
    ensures MonthText(t) == LAST ==> "10000-01" in Sorted(out)
  {
    hide MonthText, Less, Sorted, LAST, InOrder, MonthTexts;
    LastMonthText();
    StopsAt(t, k);
    if t == END - 1 {
      YearTenThousand();
      MonthTextsAt(f, |out|, END - f);
      SortedKeeps(out, "10000-01");
    } else {
      OnlyLastIsLast(t);
      MonthTextsInOrder(f, t);
      SortedAlready(out);
    }
  }

  lemma OnlyLastIsLast(t: Month)
    requires t < END - 1
    ensures MonthText(t) != LAST
  {
    hide MonthText, LAST;
    LastMonthText();
    ParseOfMonthText(t);
  }

  /** Months. The loop stops at the first text past `to`, so a range that ends in
    * 9999-12 runs on into years no label can hold. */
  method Months(from: string, to: string) returns (r: Result<seq<string>, Error>)
    ensures Less(to, from) ==> r == Err(RangeReversed)
    ensures !Less(to, from) && (ParseMonth(from).Err? || ParseMonth(to).Err?) ==> r == Err(NotAMonth)
    ensures !Less(to, from) && ParseMonth(from).Ok? && ParseMonth(to).Ok? ==>
              && r.Ok?
              && ParseMonth(from).value <= ParseMonth(to).value < END
              && (to != LAST ==>
                    r.value == MonthTexts(ParseMonth(from).value, ParseMonth(to).value + 1 - ParseMonth(from).value))
              && (to == LAST ==> "10000-01" in r.value)
  {
    hide *;
    if Less(to, from) {
      return Err(RangeReversed);
    }
    var start := ParseMonth(from);
    if start.Err? {
      return Err(NotAMonth);
    }
    var end := ParseMonth(to);
    if end.Err? {
      return Err(NotAMonth);
    }
    MonthTextOfParse(from);
    MonthTextOfParse(to);
    ghost var f, t, k := start.value, end.value, start.value;
    MonthOrder(t, f);
    StartsAtMonth(f, t);
    var y, m := start.value / 12, start.value % 12 + 1;
    var out: seq<string> := [];
    var p := FormatMonth(y, m);
    while !Less(to, p)
      invariant AtMonth(out, y, m, p, f, t, k)
      decreases FAR - k
    {
      NextMonth(out, y, m, p, f, t, k);
      TwelveMonths(out, y, m, p, f, t, k);
      out := out + [p];
      m := m + 1;
      if m > 12 {
        y, m := y + 1, 1;
      }
      p := FormatMonth(y, m);
      k := k + 1;
    }
    MonthsDone(out, y, m, p, f, t, k);
    return Ok(Sorted(out));
  }

  lemma TwelveMonths(out: seq<string>, y: nat, m: nat, p: string, f: Month, t: Month, k: Month)
    requires AtMonth(out, y, m, p, f, t, k)
    ensures 1 <= m <= 12
  {
    hide MonthText, MonthTexts;
  }

  // ---- Periods: the columns of the range, in order and without gaps --------------------------

  function ColumnTexts(g: Granularity, first: nat, count: nat): (s: seq<string>)
    ensures |s| == count
  {
    if count == 0 then [] else ColumnTexts(g, first, count - 1) + [ColumnText(g, first + count - 1)]
  }

  lemma {:induction false} ColumnTextsAt(g: Granularity, first: nat, count: nat, i: nat)
    requires i < count
    ensures ColumnTexts(g, first, count)[i] == ColumnText(g, first + i)
  {
    hide ColumnText;
    if i < count - 1 {
      ColumnTextsAt(g, first, count - 1, i);
    }
  }

  /** The periods of the range from month `f` to month `t`. */
  function PeriodTexts(g: Granularity, f: Month, t: Month): (s: seq<string>)
    requires g.Column(f) <= g.Column(t)
    ensures |s| == g.Column(t) + 1 - g.Column(f)
  {
    ColumnTexts(g, g.Column(f), g.Column(t) + 1 - g.Column(f))
  }

  lemma NewColumnIsUnseen(g: Granularity, first: nat, count: nat)
    requires g.LastMonth(first + count) < END
    ensures ColumnText(g, first + count) !in ColumnTexts(g, first, count)
  {
    hide ColumnText;

    var s := ColumnTexts(g, first, count);
    forall i | 0 <= i < |s|
      ensures s[i] != ColumnText(g, first + count)
    {
      ColumnTextsAt(g, first, count, i);
      if s[i] == ColumnText(g, first + count) {
        ColumnsEarlier(g, first + i, first + count);
        ColumnTextIsInjective(g, first + i, first + count);
      }
    }
  }

  lemma ColumnsEarlier(g: Granularity, a: nat, b: nat)
    requires a <= b
    ensures g.LastMonth(a) <= g.LastMonth(b)
  {
    match g
    case Monthly =>
    case Quarterly =>
    case Yearly =>
  }

  lemma NextColumn(g: Granularity, m: Month)
    ensures g.Column(m) <= g.Column(m + 1) <= g.Column(m) + 1
  {
    match g
    case Monthly =>
    case Quarterly =>
    case Yearly =>
  }

  /** Folding one more month in: its column is the last one, or the next. */
  lemma FoldMonth(g: Granularity, f: Month, m: Month)
    requires f < m < END && g.Column(f) <= g.Column(m - 1)
    ensures g.Column(f) <= g.Column(m)
    ensures var out, name := PeriodTexts(g, f, m - 1), ColumnText(g, g.Column(m));
            (if name in out then out else out + [name]) == PeriodTexts(g, f, m)
  {
    hide ColumnText, Granularity.Column;

    var first, out := g.Column(f), PeriodTexts(g, f, m - 1);
    NextColumn(g, m - 1);
    ColumnBounds(g, m);
    if g.Column(m) == g.Column(m - 1) {
      ColumnTextsAt(g, first, |out|, |out| - 1);
    } else {
      NewColumnIsUnseen(g, first, g.Column(m) - first);
    }
  }

  lemma FirstPeriod(g: Granularity, f: Month)
    ensures PeriodTexts(g, f, f) == [ColumnText(g, g.Column(f))]
  {
    hide ColumnText;
  }

  lemma LabelRefuses(g: Granularity, month: string)
    ensures ParseMonth(month).Err? ==> Label(g, month).Err?
    ensures Label(g, "10000-01").Err?
  {
    YearTenThousand();
  }

  /** The columns of the `n` months from `f`. */
  ghost predicate Folded(out: seq<string>, g: Granularity, f: Month, n: nat) {
    if n == 0 then out == [] else g.Column(f) <= g.Column(f + n - 1) && out == PeriodTexts(g, f, f + n - 1)
  }

  lemma NothingFolded(g: Granularity, f: Month)
    ensures Folded([], g, f, 0)
  {
  }

  lemma FoldNext(out: seq<string>, g: Granularity, f: Month, n: nat)
    requires f + n < END && Folded(out, g, f, n)
    ensures Label(g, MonthText(f + n)).Ok?
    ensures
      var name := Label(g, MonthText(f + n)).value;
      Folded(if name in out then out else out + [name], g, f, n + 1)
  {
    hide ColumnText, Label, MonthText, PeriodTexts, Granularity.Column;
    LabelOfMonth(g, f + n);
    if n == 0 {
      FirstPeriod(g, f);
    } else {
      FoldMonth(g, f, f + n);
    }
  }

  lemma AllFolded(out: seq<string>, g: Granularity, f: Month, t: Month)
    requires f <= t && Folded(out, g, f, t + 1 - f)
    ensures g.Column(f) <= g.Column(t) && out == PeriodTexts(g, f, t)
  {
    hide PeriodTexts, Granularity.Column;
  }

  /** The columns are the periods of the range, each once and in order, for every range
    * that does not end in the last month four digits can name; that one range is refused. */
  method Periods(from: string, to: string, g: Granularity) returns (r: Result<seq<string>, Error>)
    ensures Less(to, from) || ParseMonth(from).Err? || ParseMonth(to).Err? ==> r.Err?
    ensures !Less(to, from) && ParseMonth(from).Ok? && ParseMonth(to).Ok? ==>
              var f, t := ParseMonth(from).value, ParseMonth(to).value;
              && (r.Ok? <==> to != LAST)
              && (r.Ok? ==> f <= t && g.Column(f) <= g.Column(t)
                            && r.value == PeriodTexts(g, f, t))
  {
    hide *;
    var months := Months(from, to);
    if months.Err? {
      return Err(months.error);
    }
    ghost var f, t := ParseMonth(from).value, ParseMonth(to).value;
    LabelRefuses(g, "10000-01");
    NothingFolded(g, f);
    var out: seq<string> := [];
    var seen: set<string> := {};
    for i := 0 to |months.value|
      invariant forall k :: 0 <= k < i ==> Label(g, months.value[k]).Ok?
      invariant forall p :: p in seen <==> p in out
      invariant to != LAST ==> Folded(out, g, f, i)
    {
      var column := Label(g, months.value[i]);
      if to != LAST {
        MonthTextsAt(f, |months.value|, i);
        FoldNext(out, g, f, i);
      }
      if column.Err? {
        return Err(column.error);
      }
      if column.value !in seen {
        seen := seen + {column.value};
        out := out + [column.value];
      }
    }
    if to != LAST {
      AllFolded(out, g, f, t);
    }
    return Ok(out);
  }

  // ---- The dates of a period --------------------------------------------------------------

  /** monthRange: the first day of one month and the last day of another. */
  function MonthRange(from: string, to: string): Result<(Date, Date), Error> {
    var f :- ParseMonth(from);
    var t :- ParseMonth(to);
    if Less(to, from) then Err(RangeReversed)
    else
      LastDayOfMonth(t);
      Ok((FirstOf(f), DayBefore(AddMonth(FirstOf(t)))))
  }

  /** The dates SelectionFor gives a period of the request `from`..`to`: the period's
    * months, clipped at both ends to what was asked for. */
  function SelectionDates(from: string, to: string, g: Granularity, period: string): Result<(Date, Date), Error> {
    var months :- PeriodMonths(period, g);
    var first := if Less(months.0, from) then from else months.0;
    var last := if Less(to, months.1) then to else months.1;
    if Less(last, first) then Err(OutsideRange) else MonthRange(first, last)
  }

  /** The months a column keeps after clipping. */
  function ClippedFirst(g: Granularity, f: Month, column: nat): Month {
    if g.FirstMonth(column) < f then f else g.FirstMonth(column)
  }

  function ClippedLast(g: Granularity, t: Month, column: nat): Month {
    if t < g.LastMonth(column) then t else g.LastMonth(column)
  }

  function LastOf(m: Month): (d: Date)
    ensures d.Valid() && d.MonthOf() == m && d.Number() == FirstDay(m + 1) - 1
  {
    Date(m / 12, m % 12 + 1, DaysIn(m))
  }

  lemma MonthRangeOfMonths(f: Month, t: Month)
    requires f <= t < END
    ensures MonthRange(MonthText(f), MonthText(t)) == Ok((FirstOf(f), LastOf(t)))
  {
    ParseOfMonthText(f);
    ParseOfMonthText(t);
    MonthOrder(t, f);
    LastDayOfMonth(t);
  }

  lemma ColumnInRange(g: Granularity, f: Month, t: Month, column: nat)
    requires f <= t < END && g.Column(f) <= column <= g.Column(t)
    ensures g.LastMonth(column) < END
    ensures ClippedFirst(g, f, column) <= ClippedLast(g, t, column)
  {
    match g
    case Monthly =>
    case Quarterly =>
    case Yearly =>
  }

  lemma SelectionOfColumn(g: Granularity, f: Month, t: Month, column: nat)
    requires f <= t < END && g.Column(f) <= column <= g.Column(t)
    ensures SelectionDates(MonthText(f), MonthText(t), g, ColumnText(g, column))
         == Ok((FirstOf(ClippedFirst(g, f, column)), LastOf(ClippedLast(g, t, column))))
  {
    hide ColumnText, MonthText;

    var first, last := ClippedFirst(g, f, column), ClippedLast(g, t, column);
    ColumnInRange(g, f, t, column);
    PeriodMonthsOfColumn(g, column);
    MonthOrder(g.FirstMonth(column), f);
    MonthOrder(t, g.LastMonth(column));
    MonthOrder(last, first);
    MonthRangeOfMonths(first, last);
  }

  /** Column `i` of a report, with its dates. */
  function SelectionAt(g: Granularity, f: Month, t: Month, i: nat): (Date, Date)
    requires f <= t < END && g.Column(f) + i <= g.Column(t)
  {
    (FirstOf(ClippedFirst(g, f, g.Column(f) + i)), LastOf(ClippedLast(g, t, g.Column(f) + i)))
  }

  lemma SelectionOfPeriod(g: Granularity, f: Month, t: Month, i: nat)
    requires f <= t < END && g.Column(f) + i <= g.Column(t)
    ensures SelectionDates(MonthText(f), MonthText(t), g, PeriodTexts(g, f, t)[i]) == Ok(SelectionAt(g, f, t, i))
  {
    hide ColumnText, MonthText, SelectionDates, FirstOf, LastOf, FirstDay, DaysIn, ClippedFirst, ClippedLast,
      ColumnTexts,
      Granularity.Column;
    ColumnTextsAt(g, g.Column(f), g.Column(t) + 1 - g.Column(f), i);
    SelectionOfColumn(g, f, t, g.Column(f) + i);
  }

  /** The dates of neighbouring columns, and of the first and the last. */
  lemma SelectionsAdjoin(g: Granularity, f: Month, t: Month, i: nat)
    requires f <= t < END && g.Column(f) + i <= g.Column(t)
    ensures
      var dates := SelectionAt(g, f, t, i);
      && dates.0.Valid() && dates.1.Valid()
      && dates.0.Number() <= dates.1.Number()
      && (i == 0 ==> dates.0 == FirstOf(f))
      && (g.Column(f) + i == g.Column(t) ==> dates.1 == LastOf(t))
      && (g.Column(f) + i < g.Column(t) ==> SelectionAt(g, f, t, i + 1).0 == DayAfter(dates.1))
  {
    hide FirstOf, LastOf, FirstDay, DaysIn, DayAfter, ClippedFirst, ClippedLast, Granularity.Column;
    var c := g.Column(f) + i;
    ColumnInRange(g, f, t, c);
    MonthsFollow(ClippedFirst(g, f, c), ClippedLast(g, t, c) + 1);
    if i == 0 {
      ClippedEnds(g, f, t);
    }
    if c == g.Column(t) {
      ClippedEnds(g, f, t);
    } else {
      ClippedNeighbours(g, f, t, c);
      DayAfterLast(ClippedLast(g, t, c));
    }
  }

  lemma ClippedEnds(g: Granularity, f: Month, t: Month)
    requires f <= t
    ensures ClippedFirst(g, f, g.Column(f)) == f && ClippedLast(g, t, g.Column(t)) == t
  {
    ColumnBounds(g, f);
    ColumnBounds(g, t);
  }

  /** The columns tile the range. The first opens on the range's first day, the last
    * closes on its last, each runs forwards, and each opens the day after the one before
    * it closed; partial quarters and years and leap Februaries included. */
  lemma ColumnsTile(g: Granularity, f: Month, t: Month, i: nat)
    requires f <= t < END && g.Column(f) + i <= g.Column(t)
    ensures
      var periods := PeriodTexts(g, f, t);
      var range := MonthRange(MonthText(f), MonthText(t));
      var dates := SelectionDates(MonthText(f), MonthText(t), g, periods[i]);
      && range.Ok? && dates.Ok?
      && dates.value.0.Valid() && dates.value.1.Valid()
      && dates.value.0.Number() <= dates.value.1.Number()
      && (i == 0 ==> dates.value.0 == range.value.0)
      && (i == |periods| - 1 ==> dates.value.1 == range.value.1)
      && (i < |periods| - 1 ==>
            && var next := SelectionDates(MonthText(f), MonthText(t), g, periods[i + 1]);
            && next.Ok? && next.value.0 == DayAfter(dates.value.1)
            && next.value.0.Number() == dates.value.1.Number() + 1)
  {
    hide ColumnText, MonthText, SelectionDates, MonthRange, SelectionAt, PeriodTexts, FirstOf, LastOf, FirstDay,
      DaysIn, DayAfter;
    SelectionOfPeriod(g, f, t, i);
    MonthRangeOfMonths(f, t);
    SelectionsAdjoin(g, f, t, i);
    if g.Column(f) + i < g.Column(t) {
      SelectionOfPeriod(g, f, t, i + 1);
      DayAfterIsNext(SelectionAt(g, f, t, i).1);
    }
  }

  lemma ClippedNeighbours(g: Granularity, f: Month, t: Month, c: nat)
    requires f <= t && g.Column(f) <= c < g.Column(t)
    ensures ClippedFirst(g, f, c + 1) == ClippedLast(g, t, c) + 1
  {
    match g
    case Monthly =>
    case Quarterly =>
    case Yearly =>
  }

  lemma DayAfterLast(m: Month)
    ensures DayAfter(LastOf(m)) == FirstOf(m + 1)
  {
    if m % 12 == 11 {
      assert (m + 1) / 12 == m / 12 + 1 && (m + 1) % 12 == 0;
    } else {
      assert (m + 1) / 12 == m / 12 && (m + 1) % 12 == m % 12 + 1;
    }
  }

  lemma FirstOfNext(m: Month)
    ensures FirstDay(m + 1) == FirstDay(m) + DaysIn(m)
  {
  }

  /** A day of the range lies in a period exactly when its month carries that period's
    * label, so every day lies in exactly one: what the figure groups by label and what
    * the drill-down selects by date are the same rows. */
  lemma DayInPeriodIffLabel(g: Granularity, f: Month, t: Month, i: nat, d: Date)
    requires f <= t < END && g.Column(f) + i <= g.Column(t)
    requires d.Valid() && f <= d.MonthOf() <= t
    ensures
      var dates := SelectionAt(g, f, t, i);
      dates.0.Number() <= d.Number() <= dates.1.Number()
      <==> Label(g, MonthText(d.MonthOf())) == Ok(PeriodTexts(g, f, t)[i])
  {
    hide ColumnText, MonthText, Label, FirstOf, LastOf, FirstDay, DaysIn, ClippedFirst, ClippedLast;
    var c, m := g.Column(f) + i, d.MonthOf();
    ColumnTextsAt(g, g.Column(f), g.Column(t) + 1 - g.Column(f), i);
    ColumnInRange(g, f, t, c);
    BetweenMonths(d, ClippedFirst(g, f, c), ClippedLast(g, t, c));
    FirstOfNext(ClippedLast(g, t, c));
    LabelOfMonth(g, m);
    InColumn(g, f, t, c, m);
    if ColumnText(g, g.Column(m)) == ColumnText(g, c) {
      ColumnInRange(g, m, m, g.Column(m));
      ColumnTextIsInjective(g, g.Column(m), c);
    }
  }

  lemma InColumn(g: Granularity, f: Month, t: Month, c: nat, m: Month)
    requires f <= m <= t
    ensures ClippedFirst(g, f, c) <= m <= ClippedLast(g, t, c) <==> g.Column(m) == c
  {
    ColumnBounds(g, m);
  }
}
