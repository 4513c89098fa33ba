/** The report as the service produces it: three grouped reads of the ledger, and the
  * calculation over the rows that come back. Every figure it prints is the total its
  * drill-down opens to. */
module ManagementReport {
  import opened Wrappers
  import opened Calendar
  import opened Int64
  import opened Pnl
  import opened Ledger
  import opened PeriodColumns
  import opened GroupedReads
  import opened StripAgreement
  import opened Reconciliation
  import Text

  // ---- Which stores have a report ------------------------------------------------------------------

  /** Can a grouped row be put under a column and on a line? */
  predicate Taken(spec: Spec, g: Granularity, row: Row) {
    Label(g, row.period).Ok? && Accepts(spec, WithLabel(g, row))
  }

  ghost predicate AllTaken(spec: Spec, g: Granularity, rows: seq<Row>) {
    forall k :: 0 <= k < |rows| ==> Taken(spec, g, rows[k])
  }

  lemma TakenTogether(spec: Spec, g: Granularity, a: Row, b: Row)
    requires SameGroup(a, b)
    ensures Taken(spec, g, a) == Taken(spec, g, b)
  {
    hide Label;
  }

  lemma AllTakenSnoc(spec: Spec, g: Granularity, rows: seq<Row>, row: Row)
    ensures AllTaken(spec, g, rows + [row]) <==> AllTaken(spec, g, rows) && Taken(spec, g, row)
  {
    hide Taken;
    var all := rows + [row];
    if AllTaken(spec, g, all) {
      assert Taken(spec, g, all[|rows|]);
      forall k | 0 <= k < |rows|
        ensures Taken(spec, g, rows[k])
      {
        assert Taken(spec, g, all[k]);
      }
    }
  }

  lemma {:induction false} AllTakenAdded(spec: Spec, g: Granularity, groups: seq<Row>, row: Row)
    ensures AllTaken(spec, g, AddTo(groups, row)) <==> AllTaken(spec, g, groups) && Taken(spec, g, row)
  {
    hide Taken, AllTaken;
    if groups == [] {
      AllTakenSnoc(spec, g, [], row);
      assert groups + [row] == [row] && [] + [row] == [row];
      assert AllTaken(spec, g, groups) by {
        NoneTaken(spec, g);
        assert groups == [];
      }
    } else {
      var before, last := groups[..|groups| - 1], groups[|groups| - 1];
      assert groups == before + [last];
      AllTakenSnoc(spec, g, before, last);
      if SameGroup(last, row) {
        var sum := row.(amount := M.Amount(row.amount.currency, last.amount.minor + row.amount.minor));
        AllTakenSnoc(spec, g, before, sum);
        TakenTogether(spec, g, last, row);
        TakenTogether(spec, g, sum, row);
      } else {
        AllTakenAdded(spec, g, before, row);
        AllTakenSnoc(spec, g, AddTo(before, row), last);
      }
    }
  }

  lemma NoneTaken(spec: Spec, g: Granularity)
    ensures AllTaken(spec, g, [])
  {
  }

  lemma StrayIsRefused(e: Entry, read: Read, req: Request, spec: Spec, f: Month, t: Month)
    requires e.bookedOn.Valid() && Asks(req, spec, f, t) && Reads(read, e, req, FirstOf(f), LastOf(t))
    ensures Taken(spec, req.granularity, ReadRow(read, e, spec.currency)) <==> !Stray(e, req.basis)
  {
    hide MonthText, ColumnText, Label, FirstOf, LastOf, PeriodTexts, Granularity.Column, InDates, FirstDay, DaysIn;
    var g, m := req.granularity, e.bookedOn.MonthOf();
    InMonths(e.bookedOn, f, t);
    LabelOfMonth(g, m);
    ColumnAmong(g, f, t, m);
  }

  lemma ColumnAmong(g: Granularity, f: Month, t: Month, m: Month)
    requires f <= m <= t && g.Column(f) <= g.Column(t)
    ensures ColumnText(g, g.Column(m)) in PeriodTexts(g, f, t)
  {
    hide ColumnText, ColumnTexts, Granularity.Column;
    ColumnsInOrder(g, f, m);
    ColumnsInOrder(g, m, t);
    ColumnIsListed(g, g.Column(f), g.Column(t) + 1 - g.Column(f), g.Column(m));
  }

  lemma ColumnIsListed(g: Granularity, first: nat, count: nat, column: nat)
    requires first <= column < first + count
    ensures ColumnText(g, column) in ColumnTexts(g, first, count)
  {
    hide ColumnText, ColumnTexts, Granularity.Column;
    ColumnTextsAt(g, first, count, column - first);
  }

  lemma ColumnsInOrder(g: Granularity, a: Month, b: Month)
    requires a <= b
    ensures g.Column(a) <= g.Column(b)
  {
  }

  ghost predicate ReadsNoStray(store: seq<Entry>, read: Read, req: Request, f: Month, t: Month)
    requires ValidStore(store)
  {
    forall k :: 0 <= k < |store| && Reads(read, store[k], req, FirstOf(f), LastOf(t)) ==> !Stray(store[k], req.basis)
  }

  lemma ReadsNoStraySnoc(store: seq<Entry>, e: Entry, read: Read, req: Request, f: Month, t: Month)
    requires ValidStore(store) && ValidStore(store + [e]) && e.bookedOn.Valid()
    ensures ReadsNoStray(store + [e], read, req, f, t)
       <==> ReadsNoStray(store, read, req, f, t)
            && (Reads(read, e, req, FirstOf(f), LastOf(t)) ==> !Stray(e, req.basis))
  {
    hide Reads, Stray, FirstOf, LastOf;
    var all := store + [e];
    assert all[|store|] == e;
    if ReadsNoStray(all, read, req, f, t) {
      forall k | 0 <= k < |store| && Reads(read, store[k], req, FirstOf(f), LastOf(t))
        ensures !Stray(store[k], req.basis)
      {
        assert all[k] == store[k];
      }
    }
  }

  lemma {:induction false} GroupsTaken(store: seq<Entry>, read: Read, req: Request, spec: Spec, f: Month, t: Month)
    requires ValidStore(store) && Asks(req, spec, f, t)
    ensures AllTaken(spec, req.granularity, Groups(store, read, req, FirstOf(f), LastOf(t), spec.currency))
       <==> ReadsNoStray(store, read, req, f, t)
  {
    hide AllTaken, Taken, AddTo, Reads, ReadRow, FirstOf, LastOf, Stray, Asks;
    if store == [] {
      NoneTaken(spec, req.granularity);
    } else {
      hide ReadsNoStray;
      var before, e := store[..|store| - 1], store[|store| - 1];
      assert store == before + [e];
      GroupsTaken(before, read, req, spec, f, t);
      ReadsNoStraySnoc(before, e, read, req, f, t);
      if Reads(read, e, req, FirstOf(f), LastOf(t)) {
        StrayIsRefused(e, read, req, spec, f, t);
        AllTakenAdded(
          spec, req.granularity, Groups(before, read, req, FirstOf(f), LastOf(t), spec.currency),
          ReadRow(read, e, spec.currency));
      }
    }
  }

  /** Every read's rows are taken exactly when the store holds no stray. */
  lemma ReadsTaken(store: seq<Entry>, req: Request, spec: Spec, f: Month, t: Month)
    requires ValidStore(store) && Asks(req, spec, f, t)
    ensures NoStrays(store, req, f, t)
       <==> && AllTaken(spec, req.granularity, Groups(store, Lines, req, FirstOf(f), LastOf(t), spec.currency))
            && AllTaken(spec, req.granularity,
                        Groups(store, Unanswered, req, FirstOf(f), LastOf(t), spec.currency))
            && AllTaken(spec, req.granularity, Groups(store, Other, req, FirstOf(f), LastOf(t), spec.currency))
  {
    hide AllTaken, FirstOf, LastOf, Groups, NoStrays, ReadsNoStray;
    GroupsTaken(store, Lines, req, spec, f, t);
    GroupsTaken(store, Unanswered, req, spec, f, t);
    GroupsTaken(store, Other, req, spec, f, t);
    StraysAreRead(store, req, f, t);
  }

  lemma StraysAreRead(store: seq<Entry>, req: Request, f: Month, t: Month)
    requires ValidStore(store)
    ensures NoStrays(store, req, f, t)
       <==> ReadsNoStray(store, Lines, req, f, t) && ReadsNoStray(store, Unanswered, req, f, t)
            && ReadsNoStray(store, Other, req, f, t)
  {
    hide FirstOf, LastOf, InDates;
  }

  lemma {:induction false} WithLabelsAt(g: Granularity, rows: seq<Row>, k: nat)
    requires k < |rows|
    ensures WithLabels(g, rows)[k] == WithLabel(g, rows[k])
  {
    hide WithLabel;
    if k < |rows| - 1 {
      WithLabelsAt(g, rows[..|rows| - 1], k);
    }
  }

  lemma LabelledAreAccepted(spec: Spec, g: Granularity, rows: seq<Row>)
    ensures AllTaken(spec, g, rows) <==> Labelled(g, rows) && AllAccepted(spec, WithLabels(g, rows))
  {
    hide WithLabel, Label, Accepts;
    forall k | 0 <= k < |rows|
      ensures WithLabels(g, rows)[k] == WithLabel(g, rows[k])
    {
      WithLabelsAt(g, rows, k);
    }
    if AllAccepted(spec, WithLabels(g, rows)) {
      forall k | 0 <= k < |rows|
        ensures Accepts(spec, WithLabel(g, rows[k]))
      {
        assert Accepts(spec, WithLabels(g, rows)[k]);
      }
    }
  }

  // ---- The report ---------------------------------------------------------------------------------

  /** Every section's figure and every bucket is the total of the cell it opens, costs
    * with the sign turned. */
  ghost predicate OpensToTotals(report: Report, store: seq<Entry>, req: Request, f: Month, t: Month, currency: string)
    requires ValidStore(store) && f <= t < END && req.granularity.Column(f) <= req.granularity.Column(t)
  {
    var periods := PeriodTexts(req.granularity, f, t);
    && |report.lines| == |ORDER|
    && (forall k, i :: 0 <= k < |ORDER| && ORDER[k] in SECTIONS && 0 <= i < |periods| ==>
                         FigureOpens(report.lines[k], ORDER[k], store, req, f, t, i, currency))
    && (forall b, i :: 0 <= i < |periods| ==> BucketOpens(report, b, store, req, f, t, i, currency))
  }

  ghost predicate FigureOpens(line: Line, code: string, store: seq<Entry>, req: Request, f: Month, t: Month,
                              i: nat, currency: string)
    requires ValidStore(store) && f <= t < END && req.granularity.Column(f) + i <= req.granularity.Column(t)
  {
    var sel := CellSelection(req, f, t, i, SectionLine(code));
    && SelectionFor(req, PeriodTexts(req.granularity, f, t)[i], SectionLine(code)) == Ok(sel)
    && i < |line.byPeriod|
    && line.byPeriod[i].amount == M.Amount(currency, Wrap(Signed(SumInBase(CellRows(store, sel)), Turned(code))))
  }

  ghost predicate BucketOpens(report: Report, b: Bucket, store: seq<Entry>, req: Request, f: Month, t: Month,
                              i: nat, currency: string)
    requires ValidStore(store) && f <= t < END && req.granularity.Column(f) + i <= req.granularity.Column(t)
  {
    var sel := CellSelection(req, f, t, i, BucketLine(b));
    && SelectionFor(req, PeriodTexts(req.granularity, f, t)[i], BucketLine(b)) == Ok(sel)
    && b in report.buckets && i < |report.buckets[b]|
    && report.buckets[b][i] == M.Amount(currency, Wrap(SumInBase(CellRows(store, sel))))
  }

  lemma CellIsSelectable(req: Request, f: Month, t: Month, i: nat, line: LineRef)
    requires f <= t < END && req.granularity.Column(f) + i <= req.granularity.Column(t)
    requires req.from == MonthText(f) && req.to == MonthText(t) && line in Places()
    ensures SelectionFor(req, PeriodTexts(req.granularity, f, t)[i], line) == Ok(CellSelection(req, f, t, i, line))
  {
    if line.SectionLine? {
      PlacesAreNotComputed(line);
      NoOperandsFrom(0, line.code);
    }
    hide MonthText, SelectionAt, PeriodTexts, Operands, SelectionDates;
    SelectionOfPeriod(req.granularity, f, t, i);
  }

  lemma PlacesAreNotComputed(line: LineRef)
    requires line in Places() && line.SectionLine?
    ensures !IsComputed(line.code)
  {
  }

  function ReadRows(store: seq<Entry>, read: Read, req: Request, f: Month, t: Month, currency: string): seq<Row>
    requires ValidStore(store)
  {
    WithLabels(req.granularity, Groups(store, read, req, FirstOf(f), LastOf(t), currency))
  }

  lemma RowsAdd(rows: seq<Row>, store: seq<Entry>, req: Request, spec: Spec, f: Month, t: Month, i: nat,
                lines: set<LineRef>)
    requires ValidStore(store)
    requires rows == ReadRows(store, Lines, req, f, t, spec.currency)
                     + ReadRows(store, Unanswered, req, f, t, spec.currency)
                     + ReadRows(store, Other, req, f, t, spec.currency)
    ensures In(spec, rows, lines, i, i + 1)
         == ReadSum(store, Lines, req, spec, f, t, lines, i, i + 1)
            + ReadSum(store, Unanswered, req, spec, f, t, lines, i, i + 1)
            + ReadSum(store, Other, req, spec, f, t, lines, i, i + 1)
  {
    hide In, Groups, WithLabels, FirstOf, LastOf;
    var l, u, o := ReadRows(store, Lines, req, f, t, spec.currency),
                   ReadRows(store, Unanswered, req, f, t, spec.currency),
                   ReadRows(store, Other, req, f, t, spec.currency);
    Appended(spec, l, u, lines, i, i + 1);
    Appended(spec, l + u, o, lines, i, i + 1);
  }

  lemma RowsMakeCell(rows: seq<Row>, store: seq<Entry>, req: Request, spec: Spec, f: Month, t: Month, i: nat,
                     line: LineRef)
    requires ValidStore(store) && Asks(req, spec, f, t) && i < |spec.periods| && line in Places()
    requires forall k :: 0 <= k < |store| ==> Named(store[k])
    requires rows == ReadRows(store, Lines, req, f, t, spec.currency)
                     + ReadRows(store, Unanswered, req, f, t, spec.currency)
                     + ReadRows(store, Other, req, f, t, spec.currency)
    ensures In(spec, rows, {line}, i, i + 1) == SumInBase(CellRows(store, CellSelection(req, f, t, i, line)))
  {
    hide In, ReadRows, ReadSum, Named, Places, FirstOf, LastOf, CellSelection, Asks;
    RowsAdd(rows, store, req, spec, f, t, i, {line});
    CellIsTotal(store, req, spec, f, t, i, line);
  }

  lemma FiguresOpen(report: Report, rows: seq<Row>, store: seq<Entry>, req: Request, spec: Spec, f: Month, t: Month)
    requires ValidStore(store) && Asks(req, spec, f, t) && Prints(report, spec, rows)
    requires forall k :: 0 <= k < |store| ==> Named(store[k])
    requires rows == ReadRows(store, Lines, req, f, t, spec.currency)
                     + ReadRows(store, Unanswered, req, f, t, spec.currency)
                     + ReadRows(store, Other, req, f, t, spec.currency)
    ensures OpensToTotals(report, store, req, f, t, spec.currency)
  {
    hide In, Wrap, Named, Places, ReadRows, CellSelection, MonthText, PeriodTexts, IsComputed, ORDER, SECTIONS,
      SelectionFor,
      Turned, Behind, FigureOf;
    forall k, i | 0 <= k < |ORDER| && ORDER[k] in SECTIONS && 0 <= i < |spec.periods|
      ensures FigureOpens(report.lines[k], ORDER[k], store, req, f, t, i, spec.currency)
    {
      assert PrintsLine(report.lines[k], ORDER[k], spec, rows);
      FigureOpensTo(report.lines[k], ORDER[k], rows, store, req, spec, f, t, i);
    }
    forall b, i | 0 <= i < |spec.periods|
      ensures BucketOpens(report, b, store, req, f, t, i, spec.currency)
    {
      BucketIsPlace(b);
      assert PrintsBucket(report.buckets[b], report.totals[b], b, spec, rows);
      CellIsSelectable(req, f, t, i, BucketLine(b));
      RowsMakeCell(rows, store, req, spec, f, t, i, BucketLine(b));
    }
  }

  lemma FigureOpensTo(line: Line, code: string, rows: seq<Row>, store: seq<Entry>, req: Request, spec: Spec,
                      f: Month, t: Month, i: nat)
    requires ValidStore(store) && Asks(req, spec, f, t) && PrintsLine(line, code, spec, rows)
    requires forall k :: 0 <= k < |store| ==> Named(store[k])
    requires code in SECTIONS && i < |spec.periods|
    requires rows == ReadRows(store, Lines, req, f, t, spec.currency)
                     + ReadRows(store, Unanswered, req, f, t, spec.currency)
                     + ReadRows(store, Other, req, f, t, spec.currency)
    ensures FigureOpens(line, code, store, req, f, t, i, spec.currency)
  {
    SectionIsPlace(code);
    hide In, Wrap, Named, Places, ReadRows, CellSelection, MonthText, PeriodTexts, IsComputed, SECTIONS, SelectionFor,
      Turned;
    CellIsSelectable(req, f, t, i, SectionLine(code));
    RowsMakeCell(rows, store, req, spec, f, t, i, SectionLine(code));
  }

  lemma SectionIsPlace(code: string)
    requires code in SECTIONS
    ensures SectionLine(code) in Places() && Behind(code) == {SectionLine(code)}
  {
    var k :| 0 <= k < |SECTIONS| && SECTIONS[k] == code;
    SectionBehind(k);
    hide SectionsIn, Behind;
  }

  lemma BucketIsPlace(b: Bucket)
    ensures BucketLine(b) in Places()
  {
    hide SectionsIn;
  }

  /** The rows of the three reads, under their columns. */
  ghost function RowsRead(store: seq<Entry>, req: Request, from: Date, to: Date, currency: string): seq<Row>
    requires ValidStore(store) && from.Valid() && to.Valid()
  {
    WithLabels(req.granularity, Groups(store, Lines, req, from, to, currency))
    + WithLabels(req.granularity, Groups(store, Unanswered, req, from, to, currency))
    + WithLabels(req.granularity, Groups(store, Other, req, from, to, currency))
  }

  ghost predicate Readable(store: seq<Entry>, read: Read, req: Request, from: Date, to: Date, currency: string)
    requires ValidStore(store) && from.Valid() && to.Valid()
  {
    && GroupsFit(Groups(store, read, req, from, to, currency))
    && Labelled(req.granularity, Groups(store, read, req, from, to, currency))
  }

  ghost predicate AllReadable(store: seq<Entry>, req: Request, from: Date, to: Date, currency: string)
    requires ValidStore(store) && from.Valid() && to.Valid()
  {
    && Readable(store, Lines, req, from, to, currency)
    && Readable(store, Unanswered, req, from, to, currency)
    && Readable(store, Other, req, from, to, currency)
  }

  ghost predicate GroupsAllFit(store: seq<Entry>, req: Request, from: Date, to: Date, currency: string)
    requires ValidStore(store) && from.Valid() && to.Valid()
  {
    && GroupsFit(Groups(store, Lines, req, from, to, currency))
    && GroupsFit(Groups(store, Unanswered, req, from, to, currency))
    && GroupsFit(Groups(store, Other, req, from, to, currency))
  }

  /** One read, and its rows put under their columns. */
  method ReadInto(rows: seq<Row>, store: seq<Entry>, read: Read, req: Request, from: Date, to: Date, currency: string)
    returns (r: Result<seq<Row>, Ledger.Error>)
    requires ValidStore(store) && from.Valid() && to.Valid()
    ensures r.Ok? <==> Readable(store, read, req, from, to, currency)
    ensures r.Ok? ==> r.value == rows + WithLabels(req.granularity, Groups(store, read, req, from, to, currency))
  {
    hide Groups, WithLabels, Labelled, GroupsFit;
    var groups := Query(store, read, req, from, to, currency);
    if groups.Err? {
      return Err(groups.error);
    }
    var more := Append(rows, groups.value, req.granularity);
    if more.Err? {
      return Err(BadRange);
    }
    return Ok(more.value);
  }

  method Gather(store: seq<Entry>, req: Request, from: Date, to: Date, currency: string)
    returns (r: Result<seq<Row>, Ledger.Error>)
    requires ValidStore(store) && from.Valid() && to.Valid()
    ensures r.Ok? <==> AllReadable(store, req, from, to, currency)
    ensures r.Ok? ==> r.value == RowsRead(store, req, from, to, currency)
  {
    hide Groups, WithLabels, Readable;
    r := ReadInto([], store, Lines, req, from, to, currency);
    if r.Ok? {
      r := ReadInto(r.value, store, Unanswered, req, from, to, currency);
      if r.Ok? {
        r := ReadInto(r.value, store, Other, req, from, to, currency);
      }
    }
  }

  /** When the rows can be read, put under columns and placed on lines. */
  lemma RowsReadable(store: seq<Entry>, req: Request, spec: Spec, f: Month, t: Month)
    requires ValidStore(store) && Asks(req, spec, f, t)
    ensures
      var from, to, c := FirstOf(f), LastOf(t), spec.currency;
      && AllReadable(store, req, from, to, c) && AllAccepted(spec, RowsRead(store, req, from, to, c))
         <==> GroupsAllFit(store, req, from, to, c) && NoStrays(store, req, f, t)
  {
    hide FirstOf, LastOf, Groups, GroupsFit, WithLabels, NoStrays, Labelled, AllAccepted, AllTaken, Asks;
    var from, to, g, c := FirstOf(f), LastOf(t), req.granularity, spec.currency;
    var l, u, o := Groups(store, Lines, req, from, to, c), Groups(store, Unanswered, req, from, to, c),
                   Groups(store, Other, req, from, to, c);
    LabelledAreAccepted(spec, g, l);
    LabelledAreAccepted(spec, g, u);
    LabelledAreAccepted(spec, g, o);
    AcceptedTogether(spec, WithLabels(g, l), WithLabels(g, u));
    AcceptedTogether(spec, WithLabels(g, l) + WithLabels(g, u), WithLabels(g, o));
    ReadsTaken(store, req, spec, f, t);
  }

  /** What a request is answered with: the table, and the strip at its foot. */
  datatype Printed = Printed(report: Report, strip: seq<Strip>)

  /** The strip closes in every period, from one period to the next, and against the table. */
  ghost predicate StripStands(printed: Printed, store: seq<Entry>, pairs: Pairs, req: Request, f: Month, t: Month,
                              currency: string)
    requires ValidStore(store) && f <= t < END && req.granularity.Column(f) <= req.granularity.Column(t)
  {
    var n := |PeriodTexts(req.granularity, f, t)|;
    && |printed.strip| == n
    && (forall i :: 0 <= i < n ==> Balanced(printed.strip[i], store, pairs, req, f, t, i, currency))
    && (forall i :: 0 < i < n ==> printed.strip[i - 1].closing == printed.strip[i].opening)
    && (forall i :: 0 <= i < n ==> MeetsStrip(printed.report, printed.strip[i], i))
  }

  /** When a ledger has a report: groups, balances and sums a bigint can hold, and sections of
    * the taxonomy. */
  ghost predicate HasReport(store: seq<Entry>, pairs: Pairs, req: Request, f: Month, t: Month, currency: string)
    requires ValidStore(store) && f <= t < END && req.granularity.Column(f) <= req.granularity.Column(t)
  {
    var n := |PeriodTexts(req.granularity, f, t)|;
    && GroupsAllFit(store, req, FirstOf(f), LastOf(t), currency)
    && NoStrays(store, req, f, t)
    && BalancesFit(store, pairs, req, f, t, n + 1)
    && SumsFit(store, pairs, req, f, t, n)
  }

  /** ManagementPNL: one moment of the ledger, read three times, reconciled and printed.
    * There is a report exactly for a range of months that can be named, a currency, and a
    * ledger that has one; and then every figure is what its own drill-down adds up to, and
    * the strip stands below it. */
  method ManagementPNL(store: seq<Entry>, pairs: Pairs, req: Request, currency: string)
    returns (r: Result<Printed, Ledger.Error>)
    requires ValidStore(store)
    ensures !InRange(req) ==> r == Err(BadRange)
    ensures InRange(req) && req.to == LAST ==> r == Err(UnknownGranularity)
    ensures InRange(req) && req.to != LAST && currency == "" ==> r == Err(Ledger.Error.NoBaseCurrency)
    ensures InRange(req) && req.to != LAST && currency != "" ==>
              var f, t := ParseMonth(req.from).value, ParseMonth(req.to).value;
              && f <= t < END && req.granularity.Column(f) <= req.granularity.Column(t)
              && (r.Ok? <==> HasReport(store, pairs, req, f, t, currency))
              && (r.Ok? ==> StripStands(r.value, store, pairs, req, f, t, currency))
              && (r.Ok? && (forall k :: 0 <= k < |store| ==> Named(store[k])) ==>
                    OpensToTotals(r.value.report, store, req, f, t, currency))
  {
    hide ParseMonth, MonthText, PeriodTexts, FirstOf, LastOf, OpensToTotals, Text.Less, LAST, StripStands, HasReport,
      Named;

    var range := MonthRange(req.from, req.to);
    if range.Err? {
      return Err(BadRange);
    }
    var periods := Periods(req.from, req.to, req.granularity);
    if periods.Err? {
      return Err(UnknownGranularity);
    }
    if currency == "" {
      return Err(Ledger.Error.NoBaseCurrency);
    }
    RangeOfRequest(req);
    ghost var f, t := ParseMonth(req.from).value, ParseMonth(req.to).value;
    r := ReadAndPrint(store, pairs, req, range.value, Spec(req.basis, periods.value, currency), f, t);
  }

  /** The reads of one transaction, and the table and the strip they make. */
  method ReadAndPrint(store: seq<Entry>, pairs: Pairs, req: Request, range: (Date, Date), spec: Spec, ghost f: Month,
                      ghost t: Month)
    returns (r: Result<Printed, Ledger.Error>)
    requires ValidStore(store) && Asks(req, spec, f, t) && range == (FirstOf(f), LastOf(t)) && spec.currency != ""
    ensures r.Ok? <==> HasReport(store, pairs, req, f, t, spec.currency)
    ensures r.Ok? ==> StripStands(r.value, store, pairs, req, f, t, spec.currency)
    ensures r.Ok? && (forall k :: 0 <= k < |store| ==> Named(store[k])) ==>
              OpensToTotals(r.value.report, store, req, f, t, spec.currency)
  {
    hide *;
    ReportExists(store, pairs, req, spec, f, t);
    var rows := Gather(store, req, range.0, range.1, spec.currency);
    if rows.Err? {
      return Err(rows.error);
    }
    var strip := Reconcile(store, pairs, req, spec.periods, spec.currency, f, t);
    if strip.Err? {
      return Err(strip.error);
    }
    var report, overflowed := Compute(rows.value, spec);
    if report.Err? {
      return Err(Refused(report.error));
    }
    r := Ok(Printed(report.value, strip.value));
    PrintedStands(r.value, store, pairs, req, spec, f, t);
  }

  /** There is a report when there are rows, a strip and a place for every row. */
  lemma ReportExists(store: seq<Entry>, pairs: Pairs, req: Request, spec: Spec, f: Month, t: Month)
    requires ValidStore(store) && Asks(req, spec, f, t)
    ensures Draws(req, spec.periods, f, t) && spec.periods != []
    ensures
      var from, to, n := FirstOf(f), LastOf(t), |spec.periods|;
      && n == |PeriodTexts(req.granularity, f, t)|
      && (HasReport(store, pairs, req, f, t, spec.currency) ==> NoStrays(store, req, f, t))
      && (HasReport(store, pairs, req, f, t, spec.currency)
          <==> && AllReadable(store, req, from, to, spec.currency)
               && AllAccepted(spec, RowsRead(store, req, from, to, spec.currency))
               && BalancesFit(store, pairs, req, f, t, n + 1) && SumsFit(store, pairs, req, f, t, n))
  {
    hide AllReadable, AllAccepted, RowsRead, BalancesFit, SumsFit, GroupsAllFit, NoStrays, FirstOf, LastOf, PeriodTexts,
      MonthText,
      Granularity.Column, Asks, Draws, ValidStore;
    AsksDraws(req, spec, f, t);
    RowsReadable(store, req, spec, f, t);
  }

  lemma AsksDraws(req: Request, spec: Spec, f: Month, t: Month)
    requires Asks(req, spec, f, t)
    ensures Draws(req, spec.periods, f, t) && spec.periods != [] && spec.periods == PeriodTexts(req.granularity, f, t)
  {
    SomePeriods(req.granularity, f, t);
    hide MonthText, PeriodTexts;
  }

  /** A table computed from the rows read, and a strip of the same store. */
  lemma PrintedStands(printed: Printed, store: seq<Entry>, pairs: Pairs, req: Request, spec: Spec, f: Month, t: Month)
    requires ValidStore(store) && Asks(req, spec, f, t) && NoStrays(store, req, f, t)
    requires Prints(printed.report, spec, RowsRead(store, req, FirstOf(f), LastOf(t), spec.currency))
    requires |printed.strip| == |spec.periods|
    requires forall i :: 0 <= i < |spec.periods| ==>
                           Balanced(printed.strip[i], store, pairs, req, f, t, i, spec.currency)
    requires forall i :: 0 < i < |spec.periods| ==> printed.strip[i - 1].closing == printed.strip[i].opening
    ensures StripStands(printed, store, pairs, req, f, t, spec.currency)
    ensures (forall k :: 0 <= k < |store| ==> Named(store[k])) ==>
              OpensToTotals(printed.report, store, req, f, t, spec.currency)
  {
    hide Asks, Prints, Balanced, ReadRows, RowsRead, NoStrays, Named, OpensToTotals, StripStands, FirstOf, LastOf,
      PeriodTexts;
    ReadRowsAre(store, req, f, t, spec.currency);
    var rows := RowsRead(store, req, FirstOf(f), LastOf(t), spec.currency);
    if forall k :: 0 <= k < |store| ==> Named(store[k]) {
      FiguresOpen(printed.report, rows, store, req, spec, f, t);
    }
    StripMeetsTable(printed, rows, store, pairs, req, spec, f, t);
  }

  lemma StripMeetsTable(printed: Printed, rows: seq<Row>, store: seq<Entry>, pairs: Pairs, req: Request, spec: Spec,
                        f: Month, t: Month)
    requires ValidStore(store) && Asks(req, spec, f, t) && Prints(printed.report, spec, rows)
             && NoStrays(store, req, f, t)
    requires rows == ReadRows(store, Lines, req, f, t, spec.currency)
                     + ReadRows(store, Unanswered, req, f, t, spec.currency)
                     + ReadRows(store, Other, req, f, t, spec.currency)
    requires |printed.strip| == |spec.periods|
    requires forall i :: 0 <= i < |spec.periods| ==>
                           Balanced(printed.strip[i], store, pairs, req, f, t, i, spec.currency)
    requires forall i :: 0 < i < |spec.periods| ==> printed.strip[i - 1].closing == printed.strip[i].opening
    ensures StripStands(printed, store, pairs, req, f, t, spec.currency)
  {
    hide In, Prints, Balanced, ReadRows, ReadSum, NoStrays, MeetsStrip, PeriodTexts, MonthText, BasisPlaces;
    forall i | 0 <= i < |spec.periods|
      ensures MeetsStrip(printed.report, printed.strip[i], i)
    {
      RowsAdd(rows, store, req, spec, f, t, i, BasisPlaces());
      ReportMeetsStrip(printed.report, printed.strip[i], rows, store, pairs, req, spec, f, t, i);
    }
  }

  lemma ReadRowsAre(store: seq<Entry>, req: Request, f: Month, t: Month, currency: string)
    requires ValidStore(store)
    ensures RowsRead(store, req, FirstOf(f), LastOf(t), currency)
         == ReadRows(store, Lines, req, f, t, currency) + ReadRows(store, Unanswered, req, f, t, currency)
            + ReadRows(store, Other, req, f, t, currency)
  {
    hide FirstOf, LastOf, Groups, WithLabels;
  }

  lemma AcceptedTogether(spec: Spec, a: seq<Row>, b: seq<Row>)
    ensures AllAccepted(spec, a + b) <==> AllAccepted(spec, a) && AllAccepted(spec, b)
  {
    hide Accepts;
    if AllAccepted(spec, a + b) {
      assert forall k :: 0 <= k < |a| ==> a[k] == (a + b)[k];
      assert forall k :: 0 <= k < |b| ==> b[k] == (a + b)[|a| + k];
    }
  }

  lemma SomePeriods(g: Granularity, f: Month, t: Month)
    requires g.Column(f) <= g.Column(t)
    ensures PeriodTexts(g, f, t) != []
  {
    hide ColumnText;
  }

  lemma RangeOfRequest(req: Request)
    requires InRange(req)
    ensures
      var f, t := ParseMonth(req.from).value, ParseMonth(req.to).value;
      && req.from == MonthText(f) && req.to == MonthText(t) && f <= t < END
      && MonthRange(req.from, req.to) == Ok((FirstOf(f), LastOf(t)))
  {
    var f, t := ParseMonth(req.from).value, ParseMonth(req.to).value;
    MonthTextOfParse(req.from);
    MonthTextOfParse(req.to);
    hide ParseMonth, MonthText, FirstOf, LastOf, MonthRange, Text.Less;
    MonthOrder(t, f);
    MonthRangeOfMonths(f, t);
  }

  /** A figure is what its drill-down adds up to exactly when int64 can print it; beside a
    * drill-down that answers, unless it is a cost of the most negative amount there is. */
  lemma FigureIsExact(line: Line, code: string, store: seq<Entry>, req: Request, f: Month, t: Month, i: nat,
                      currency: string)
    requires ValidStore(store) && f <= t < END && req.granularity.Column(f) + i <= req.granularity.Column(t)
    requires FigureOpens(line, code, store, req, f, t, i, currency)
    ensures
      var sel := SelectionFor(req, PeriodTexts(req.granularity, f, t)[i], SectionLine(code)).value;
      var total := LineTotal(store, sel);
      var figure := line.byPeriod[i].amount.minor;
      && (figure == Signed(SumInBase(CellRows(store, sel)), Turned(code))
          <==> Fits(Signed(SumInBase(CellRows(store, sel)), Turned(code))))
      && (total.Ok? ==> (figure == Signed(total.value.1, Turned(code)) <==> !Turned(code) || total.value.1 != MIN))
  {
    hide CellRows, SumInBase, SelectionFor, CellSelection, PeriodTexts, Turned;
  }

  /** In a report that was printed, only transfers can make a figure wrap: where none stands
    * on the line, the strip that could be drawn bounds the cell, its drill-down answers, and
    * the figure is that answer. */
  lemma FigureWithoutTransfers(line: Line, code: string, store: seq<Entry>, pairs: Pairs, req: Request, f: Month,
                               t: Month,
                               i: nat, currency: string)
    requires ValidStore(store) && f <= t < END && req.granularity.Column(f) + i <= req.granularity.Column(t)
    requires HasReport(store, pairs, req, f, t, currency) && code in SECTIONS
    requires FigureOpens(line, code, store, req, f, t, i, currency)
    requires forall e :: e in CellRows(store, CellSelection(req, f, t, i, SectionLine(code))) ==> !IsLeg(e, pairs)
    ensures
      var sel := CellSelection(req, f, t, i, SectionLine(code));
      && LineTotal(store, sel) == Ok((|CellRows(store, sel)|, SumInBase(CellRows(store, sel))))
      && line.byPeriod[i].amount.minor == Signed(LineTotal(store, sel).value.1, Turned(code))
  {
    hide CellRows, SumInBase, SelectionFor, CellSelection, PeriodTexts, Turned, PeriodSums, Boundary, HasReport, IsLeg,
      Places, SECTIONS, Granularity.Column, ValidStore;
    SectionIsPlace(code);
    SumsOfReport(store, pairs, req, f, t, i, currency);
    CellFits(store, pairs, req, f, t, i, SectionLine(code));
  }

  /** Where there is a report, every period's sums can be told. */
  lemma SumsOfReport(store: seq<Entry>, pairs: Pairs, req: Request, f: Month, t: Month, i: nat, currency: string)
    requires ValidStore(store) && f <= t < END && req.granularity.Column(f) + i <= req.granularity.Column(t)
    requires HasReport(store, pairs, req, f, t, currency)
    ensures PeriodSums(
              store, pairs, req, Boundary(req.granularity, f, t, i), Boundary(req.granularity, f, t, i + 1)).Ok?
  {
    hide PeriodSums, Boundary, GroupsAllFit, NoStrays, PeriodTexts, Granularity.Column, ValidStore, BalancesFit;
  }
}
