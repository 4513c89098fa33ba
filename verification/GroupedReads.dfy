/** The report's three grouped reads of the ledger, and their months folded into columns:
  * the cell they make is the cell a drill-down sums. */
module GroupedReads {
  import opened Wrappers
  import opened Calendar
  import opened Int64
  import opened Pnl
  import opened Ledger
  import opened PeriodColumns

  /** The three reads of a report: classified rows and unanswered rows of its own basis,
    * and every row of the other one. */
  datatype Read = Lines | Unanswered | Other

  predicate Reads(read: Read, e: Entry, req: Request, from: Date, to: Date)
    requires e.bookedOn.Valid() && from.Valid() && to.Valid()
  {
    && e.entity == req.entity && InDates(e.bookedOn, from, to)
    && match read
       case Lines => e.kind == req.basis && e.live.Some?
       case Unanswered => e.kind == req.basis && e.live.None?
       case Other => e.kind != req.basis
  }

  /** What a read says of one transaction; the other basis comes without categories. */
  function ReadRow(read: Read, e: Entry, currency: string): Row
    requires e.bookedOn.Valid()
  {
    var month := MonthText(e.bookedOn.MonthOf());
    if read.Other? then Row(month, "", "", M.Amount(currency, InBase(e)), false, false, e.kind)
    else RowOf(e, month, currency)
  }

  predicate SameGroup(a: Row, b: Row) {
    a.(amount := b.amount) == b && a.amount.currency == b.amount.currency
  }

  /** GROUP BY everything but the amount. */
  function AddTo(groups: seq<Row>, row: Row): (r: seq<Row>)
    ensures |r| > 0
  {
    if groups == [] then [row]
    else
      var last := groups[|groups| - 1];
      if SameGroup(last, row) then
        groups[..|groups| - 1] + [row.(amount := M.Amount(row.amount.currency, last.amount.minor + row.amount.minor))]
      else AddTo(groups[..|groups| - 1], row) + [last]
  }

  function Groups(store: seq<Entry>, read: Read, req: Request, from: Date, to: Date, currency: string): seq<Row>
    requires ValidStore(store) && from.Valid() && to.Valid()
  {
    if store == [] then []
    else
      var before, e := Groups(store[..|store| - 1], read, req, from, to, currency), store[|store| - 1];
      if Reads(read, e, req, from, to) then AddTo(before, ReadRow(read, e, currency)) else before
  }

  predicate GroupsFit(groups: seq<Row>) {
    forall k :: 0 <= k < |groups| ==> Fits(groups[k].amount.minor)
  }

  /** sum(...)::bigint, per group. */
  function Query(store: seq<Entry>, read: Read, req: Request, from: Date, to: Date,
                 currency: string): Result<seq<Row>, Ledger.Error>
    requires ValidStore(store) && from.Valid() && to.Valid()
  {
    var groups := Groups(store, read, req, from, to, currency);
    if GroupsFit(groups) then Ok(groups) else Err(OutOfRange)
  }

  // ---- Months folded into columns -------------------------------------------------------------

  function WithLabel(g: Granularity, row: Row): Row {
    match Label(g, row.period)
    case Ok(period) => row.(period := period)
    case Err(_) => row
  }

  function WithLabels(g: Granularity, rows: seq<Row>): (r: seq<Row>)
    ensures |r| == |rows|
  {
    if rows == [] then [] else WithLabels(g, rows[..|rows| - 1]) + [WithLabel(g, rows[|rows| - 1])]
  }

  ghost predicate Labelled(g: Granularity, rows: seq<Row>) {
    forall k :: 0 <= k < |rows| ==> Label(g, rows[k].period).Ok?
  }

  /** The rows of one read, appended under the column each month belongs to. */
  method Append(rows: seq<Row>, groups: seq<Row>, g: Granularity) returns (r: Result<seq<Row>, PeriodColumns.Error>)
    ensures r.Ok? <==> Labelled(g, groups)
    ensures r.Ok? ==> r.value == rows + WithLabels(g, groups)
  {
    hide Label;
    var out := rows;
    for k := 0 to |groups|
      invariant Labelled(g, groups[..k])
      invariant out == rows + WithLabels(g, groups[..k])
    {
      var period := Label(g, groups[k].period);
      if period.Err? {
        return Err(period.error);
      }
      assert groups[..k + 1][..k] == groups[..k];
      out := out + [groups[k].(period := period.value)];
    }
    assert groups[..|groups|] == groups;
    return Ok(out);
  }

  // ---- Grouping changes no sum -------------------------------------------------------------------

  /** Whether a row falls in a region has nothing to do with its amount. */
  lemma GroupsFallTogether(spec: Spec, g: Granularity, a: Row, b: Row, lines: set<LineRef>, lo: nat, hi: nat)
    requires SameGroup(a, b)
    ensures Falls(spec, WithLabel(g, a), lines, lo, hi) == Falls(spec, WithLabel(g, b), lines, lo, hi)
  {
    hide Column, Label;
  }

  function Contribution(spec: Spec, g: Granularity, row: Row, lines: set<LineRef>, lo: nat, hi: nat): int {
    if Falls(spec, WithLabel(g, row), lines, lo, hi) then row.amount.minor else 0
  }

  lemma LabelledSnoc(spec: Spec, g: Granularity, rows: seq<Row>, row: Row, lines: set<LineRef>, lo: nat, hi: nat)
    ensures In(spec, WithLabels(g, rows + [row]), lines, lo, hi)
         == In(spec, WithLabels(g, rows), lines, lo, hi) + Contribution(spec, g, row, lines, lo, hi)
  {
    hide Falls, Label;
    assert (rows + [row])[..|rows|] == rows;
    var r := WithLabels(g, rows + [row]);
    assert r[..|r| - 1] == WithLabels(g, rows);
  }

  lemma {:induction false} AddedToGroup(spec: Spec, g: Granularity, groups: seq<Row>, row: Row,
                                        lines: set<LineRef>, lo: nat, hi: nat)
    ensures In(spec, WithLabels(g, AddTo(groups, row)), lines, lo, hi)
         == In(spec, WithLabels(g, groups), lines, lo, hi) + Contribution(spec, g, row, lines, lo, hi)
  {
    hide Falls, Label, In, WithLabels;
    if groups == [] {
      LabelledSnoc(spec, g, [], row, lines, lo, hi);
      assert [] + [row] == [row];
      assert groups == [];
    } else {
      var before, last := groups[..|groups| - 1], groups[|groups| - 1];
      assert groups == before + [last];
      LabelledSnoc(spec, g, before, last, lines, lo, hi);
      if SameGroup(last, row) {
        var sum := row.(amount := M.Amount(row.amount.currency, last.amount.minor + row.amount.minor));
        LabelledSnoc(spec, g, before, sum, lines, lo, hi);
        GroupsFallTogether(spec, g, last, row, lines, lo, hi);
        GroupsFallTogether(spec, g, sum, row, lines, lo, hi);
      } else {
        AddedToGroup(spec, g, before, row, lines, lo, hi);
        LabelledSnoc(spec, g, AddTo(before, row), last, lines, lo, hi);
      }
    }
  }

  lemma {:induction false} Appended(spec: Spec, a: seq<Row>, b: seq<Row>, lines: set<LineRef>, lo: nat, hi: nat)
    ensures In(spec, a + b, lines, lo, hi) == In(spec, a, lines, lo, hi) + In(spec, b, lines, lo, hi)
  {
    hide Falls;
    if b == [] {
      assert a + b == a;
    } else {
      assert (a + b)[..|a + b| - 1] == a + b[..|b| - 1];
      Appended(spec, a, b[..|b| - 1], lines, lo, hi);
    }
  }

  // ---- A transaction is read once, onto the line and into the column it is opened from --------------

  lemma InMonths(d: Date, first: Month, last: Month)
    requires d.Valid()
    ensures InDates(d, FirstOf(first), LastOf(last)) <==> first <= d.MonthOf() <= last
  {
    hide FirstDay, DaysIn;
    BetweenMonths(d, first, last);
    FirstOfNext(last);
  }

  /** A period's place among the columns. */
  lemma ColumnOfPeriod(g: Granularity, f: Month, t: Month, i: nat, period: string)
    requires f <= t < END && g.Column(f) <= g.Column(t) && i < |PeriodTexts(g, f, t)|
    ensures Column(PeriodTexts(g, f, t), period) == Some(i) <==> period == PeriodTexts(g, f, t)[i]
  {
    hide ColumnText, Column;
    var periods, column := PeriodTexts(g, f, t), Column(PeriodTexts(g, f, t), period);
    if period == periods[i] {
      var j := column.value;
      ColumnTextsAt(g, g.Column(f), |periods|, i);
      ColumnTextsAt(g, g.Column(f), |periods|, j);
      ColumnInRange(g, f, t, g.Column(f) + i);
      ColumnInRange(g, f, t, g.Column(f) + j);
      ColumnTextIsInjective(g, g.Column(f) + i, g.Column(f) + j);
    }
  }

  /** The report one request asks for. */
  ghost predicate Asks(req: Request, spec: Spec, f: Month, t: Month) {
    && f <= t < END && req.granularity.Column(f) <= req.granularity.Column(t)
    && req.from == MonthText(f) && req.to == MonthText(t)
    && spec.basis == req.basis && spec.periods == PeriodTexts(req.granularity, f, t)
  }

  /** What one read adds to a region for one transaction. */
  function Adds(read: Read, e: Entry, req: Request, f: Month, t: Month, spec: Spec, lines: set<LineRef>,
                lo: nat, hi: nat): int
    requires e.bookedOn.Valid()
  {
    if Reads(read, e, req, FirstOf(f), LastOf(t))
    then Contribution(spec, req.granularity, ReadRow(read, e, spec.currency), lines, lo, hi)
    else 0
  }

  function CellSelection(req: Request, f: Month, t: Month, i: nat, line: LineRef): (sel: Selection)
    requires f <= t < END && req.granularity.Column(f) + i <= req.granularity.Column(t)
    ensures sel.from.Valid() && sel.to.Valid()
  {
    var dates := SelectionAt(req.granularity, f, t, i);
    Selection(req.entity, req.basis, dates.0, dates.1, line)
  }

  predicate Named(e: Entry) {
    e.live.Some? ==> e.live.value.code != ""
  }

  lemma LandsInColumn(row: Row, req: Request, spec: Spec, f: Month, t: Month, i: nat, line: LineRef)
    requires Asks(req, spec, f, t) && i < |spec.periods|
    ensures Falls(spec, row, {line}, i, i + 1) <==> Place(row, spec.basis) == Ok(line) && row.period == spec.periods[i]
  {
    hide Place, Column, PeriodTexts, MonthText;
    ColumnOfPeriod(req.granularity, f, t, i, row.period);
  }

  lemma LabelOfRead(read: Read, e: Entry, req: Request, spec: Spec, f: Month, t: Month, i: nat)
    requires e.bookedOn.Valid() && Asks(req, spec, f, t) && i < |spec.periods|
    requires InDates(e.bookedOn, FirstOf(f), LastOf(t))
    ensures
      var row := WithLabel(req.granularity, ReadRow(read, e, spec.currency));
      && row == ReadRow(read, e, spec.currency).(period := row.period)
      && (row.period == spec.periods[i] <==>
          InDates(e.bookedOn, SelectionAt(req.granularity, f, t, i).0, SelectionAt(req.granularity, f, t, i).1))
  {
    InMonths(e.bookedOn, f, t);
    hide FirstOf, LastOf, MonthText, ColumnText, Label, RowOf, ClippedFirst, ClippedLast;
    LabelOfMonth(req.granularity, e.bookedOn.MonthOf());
    DayInPeriodIffLabel(req.granularity, f, t, i, e.bookedOn);
  }

  lemma RowFalls(read: Read, e: Entry, req: Request, spec: Spec, f: Month, t: Month, i: nat, line: LineRef)
    requires e.bookedOn.Valid() && Asks(req, spec, f, t) && i < |spec.periods| && line in Places() && Named(e)
    requires Reads(read, e, req, FirstOf(f), LastOf(t))
    ensures Falls(spec, WithLabel(req.granularity, ReadRow(read, e, spec.currency)), {line}, i, i + 1)
       <==> && OnLine(e, Wire(line), req.basis)
            && InDates(e.bookedOn, SelectionAt(req.granularity, f, t, i).0,
                       SelectionAt(req.granularity, f, t, i).1)
  {
    hide Falls, WithLabel, Place, Places, InDates, FirstOf, LastOf, OnLine, Wire, SelectionAt, MonthText, PeriodTexts,
      RowOf, Named, InBase;
    LabelOfRead(read, e, req, spec, f, t, i);
    var row := WithLabel(req.granularity, ReadRow(read, e, spec.currency));
    LandsInColumn(row, req, spec, f, t, i, line);
    ReadShape(read, e, spec.currency, row);
    PlaceOfRead(read, e, req.basis, line, row);
  }

  lemma ReadShape(read: Read, e: Entry, currency: string, row: Row)
    requires e.bookedOn.Valid() && row == ReadRow(read, e, currency).(period := row.period)
    ensures row.amount.minor == InBase(e)
    ensures if read.Other? then row == Row(row.period, "", "", row.amount, false, false, e.kind)
            else row == RowOf(e, row.period, row.amount.currency)
  {
    hide MonthText;
  }

  lemma PlaceOfRead(read: Read, e: Entry, basis: Basis, line: LineRef, row: Row)
    requires line in Places() && Named(e)
    requires read.Other? <==> e.kind != basis
    requires row.amount.minor == InBase(e)
    requires if read.Other? then row == Row(row.period, "", "", row.amount, false, false, e.kind)
             else row == RowOf(e, row.period, row.amount.currency)
    ensures Place(row, basis) == Ok(line) <==> OnLine(e, Wire(line), basis)
  {
    var plain := RowOf(e, row.period, row.amount.currency);
    PlacedOn(e, basis, plain, line);
    hide Places, OnLine, Wire;
  }

  /** Across the three reads a transaction counts once, in exactly the cell whose
    * drill-down lists it. */
  lemma ReadOnce(e: Entry, req: Request, spec: Spec, f: Month, t: Month, i: nat, line: LineRef)
    requires e.bookedOn.Valid() && Asks(req, spec, f, t) && i < |spec.periods| && line in Places() && Named(e)
    ensures
      Adds(Lines, e, req, f, t, spec, {line}, i, i + 1) + Adds(Unanswered, e, req, f, t, spec, {line}, i, i + 1)
      + Adds(Other, e, req, f, t, spec, {line}, i, i + 1)
      == if Selected(e, CellSelection(req, f, t, i, line)) then InBase(e) else 0
  {
    hide Falls, WithLabel, OnLine, Wire, Places, InDates, FirstOf, LastOf, SelectionAt, PeriodTexts;
    if Reads(Lines, e, req, FirstOf(f), LastOf(t)) {
      RowFalls(Lines, e, req, spec, f, t, i, line);
    } else if Reads(Unanswered, e, req, FirstOf(f), LastOf(t)) {
      RowFalls(Unanswered, e, req, spec, f, t, i, line);
    } else if Reads(Other, e, req, FirstOf(f), LastOf(t)) {
      RowFalls(Other, e, req, spec, f, t, i, line);
    } else {
      SelectionInRange(e.bookedOn, req, spec, f, t, i);
    }
  }

  /** A period's dates lie inside the range that was asked for. */
  lemma SelectionInRange(d: Date, req: Request, spec: Spec, f: Month, t: Month, i: nat)
    requires d.Valid() && Asks(req, spec, f, t) && i < |spec.periods|
    ensures var dates := SelectionAt(req.granularity, f, t, i);
            InDates(d, dates.0, dates.1) ==> InDates(d, FirstOf(f), LastOf(t))
  {
    hide *;
    AskedColumns(req, spec, f, t);
    ColumnInRangeDates(d, req.granularity, f, t, i);
  }

  lemma AskedColumns(req: Request, spec: Spec, f: Month, t: Month)
    requires Asks(req, spec, f, t)
    ensures f <= t < END && req.granularity.Column(f) + |spec.periods| == req.granularity.Column(t) + 1
  {
    hide MonthText, ColumnText, ColumnTexts;
  }

  lemma ColumnInRangeDates(d: Date, g: Granularity, f: Month, t: Month, i: nat)
    requires d.Valid() && f <= t < END && g.Column(f) + i <= g.Column(t)
    ensures
      var dates := SelectionAt(g, f, t, i);
      InDates(d, dates.0, dates.1) ==> InDates(d, FirstOf(f), LastOf(t))
  {
    hide InDates, FirstOf, LastOf, FirstDay, DaysIn, Granularity.Column;
    var c := g.Column(f) + i;
    InMonths(d, f, t);
    InMonths(d, ClippedFirst(g, f, c), ClippedLast(g, t, c));
  }

  /** What one read of the store adds to a region. */
  function ReadSum(store: seq<Entry>, read: Read, req: Request, spec: Spec, f: Month, t: Month,
                   lines: set<LineRef>, lo: nat, hi: nat): int
    requires ValidStore(store)
  {
    In(spec, WithLabels(req.granularity, Groups(store, read, req, FirstOf(f), LastOf(t), spec.currency)), lines, lo, hi)
  }

  lemma ReadSumStep(store: seq<Entry>, e: Entry, read: Read, req: Request, spec: Spec, f: Month, t: Month,
                    lines: set<LineRef>, lo: nat, hi: nat)
    requires ValidStore(store + [e]) && ValidStore(store) && e.bookedOn.Valid()
    ensures ReadSum(store + [e], read, req, spec, f, t, lines, lo, hi)
         == ReadSum(store, read, req, spec, f, t, lines, lo, hi) + Adds(read, e, req, f, t, spec, lines, lo, hi)
  {
    hide In, WithLabels, AddTo, Contribution, FirstOf, LastOf, MonthText, Reads, ReadRow;
    assert (store + [e])[..|store|] == store;
    var before := Groups(store, read, req, FirstOf(f), LastOf(t), spec.currency);
    AddedToGroup(spec, req.granularity, before, ReadRow(read, e, spec.currency), lines, lo, hi);
  }

  lemma NothingRead(read: Read, req: Request, spec: Spec, f: Month, t: Month, lines: set<LineRef>, lo: nat, hi: nat)
    ensures ReadSum([], read, req, spec, f, t, lines, lo, hi) == 0
  {
    hide FirstOf, LastOf;
  }

  /** The cell the three reads make is the cell the drill-down sums. */
  lemma {:induction false} CellIsTotal(store: seq<Entry>, req: Request, spec: Spec, f: Month, t: Month,
                                       i: nat, line: LineRef)
    requires ValidStore(store) && Asks(req, spec, f, t) && i < |spec.periods| && line in Places()
    requires forall k :: 0 <= k < |store| ==> Named(store[k])
    ensures
      ReadSum(store, Lines, req, spec, f, t, {line}, i, i + 1)
      + ReadSum(store, Unanswered, req, spec, f, t, {line}, i, i + 1)
      + ReadSum(store, Other, req, spec, f, t, {line}, i, i + 1)
      == SumInBase(CellRows(store, CellSelection(req, f, t, i, line)))
  {
    hide ReadSum, Adds, Named, CellSelection, Selected, Places, FirstOf, LastOf, PeriodTexts, MonthText;
    if store == [] {
      NothingRead(Lines, req, spec, f, t, {line}, i, i + 1);
      NothingRead(Unanswered, req, spec, f, t, {line}, i, i + 1);
      NothingRead(Other, req, spec, f, t, {line}, i, i + 1);
    } else {
      var before, e := store[..|store| - 1], store[|store| - 1];
      assert store == before + [e];
      hide CellRows, SumInBase;
      CellIsTotal(before, req, spec, f, t, i, line);
      ReadSumStep(before, e, Lines, req, spec, f, t, {line}, i, i + 1);
      ReadSumStep(before, e, Unanswered, req, spec, f, t, {line}, i, i + 1);
      ReadSumStep(before, e, Other, req, spec, f, t, {line}, i, i + 1);
      ReadOnce(e, req, spec, f, t, i, line);
      CellSnoc(before, e, store, CellSelection(req, f, t, i, line));
    }
  }

  lemma CellSnoc(before: seq<Entry>, e: Entry, store: seq<Entry>, sel: Selection)
    requires ValidStore(store) && sel.from.Valid() && sel.to.Valid() && store == before + [e]
    ensures e.bookedOn.Valid() && ValidStore(before)
    ensures SumInBase(CellRows(store, sel)) == SumInBase(CellRows(before, sel)) + if Selected(e, sel) then InBase(e)
                                               else 0
  {
    hide Selected;
    assert store[..|store| - 1] == before && store[|store| - 1] == e;
    var rows := CellRows(before, sel);
    assert (rows + [e])[..|rows|] == rows && rows + [] == rows;
  }
}
