/** Opening a cell: its operands if it is computed, otherwise one page of its rows from a
  * cursor, with the count and sum of the whole cell beside it. */
module DrillDown {
  import opened Wrappers
  import opened Calendar
  import opened Text
  import opened Pnl
  import opened Ledger
  import opened Cursors
  import opened PeriodColumns
  import opened Int64

  datatype Operand = Operand(code: string, subtracted: bool)

  datatype Answer =
    | Operands(operands: seq<Operand>)
    | Transactions(rows: seq<Entry>, rowCount: nat, total: M.Amount, next: string)

  // ---- Order ------------------------------------------------------------------------------

  /** (a.booked_on, a.id) < (b.booked_on, b.id) */
  predicate Precedes(a: Cursor, b: Cursor)
    requires a.bookedOn.Valid() && b.bookedOn.Valid()
  {
    a.bookedOn.Number() < b.bookedOn.Number() || (a.bookedOn.Number() == b.bookedOn.Number() && Less(a.id, b.id))
  }

  function PlaceOf(e: Entry): Cursor {
    Cursor(e.bookedOn, e.id)
  }

  /** Rows in (booked_on, id) order. The ids are the table's own: canonical, and never nil. */
  ghost predicate Listed(rows: seq<Entry>) {
    && ValidStore(rows)
    && (forall k :: 0 <= k < |rows| ==> IsUuid(rows[k].id) && rows[k].id != NIL)
    && (forall j, k :: 0 <= j < k < |rows| ==> Precedes(PlaceOf(rows[j]), PlaceOf(rows[k])))
  }

  lemma PrecedesIsStrict(a: Cursor)
    requires a.bookedOn.Valid()
    ensures !Precedes(a, a)
  {
    LessIsIrreflexive(a.id);
  }

  lemma PrecedesIsTransitive(a: Cursor, b: Cursor, c: Cursor)
    requires a.bookedOn.Valid() && b.bookedOn.Valid() && c.bookedOn.Valid()
    requires Precedes(a, b) && Precedes(b, c)
    ensures Precedes(a, c)
  {
    hide FirstDay, DaysIn;
    if Less(a.id, b.id) && Less(b.id, c.id) {
      LessIsTransitive(a.id, b.id, c.id);
    }
  }

  // ---- One page ---------------------------------------------------------------------------

  /** The cursor clause of the WHERE: everything for the start of the list, and otherwise
    * what lies past the cursor. */
  predicate Past(e: Entry, c: Cursor)
    requires e.bookedOn.Valid() && c.bookedOn.Valid()
  {
    c.id == NIL || Precedes(c, PlaceOf(e))
  }

  function PastRows(rows: seq<Entry>, c: Cursor): (r: seq<Entry>)
    requires ValidStore(rows) && c.bookedOn.Valid()
    ensures |r| <= |rows|
  {
    if rows == [] then []
    else if Past(rows[0], c) then [rows[0]] + PastRows(rows[1..], c)
    else PastRows(rows[1..], c)
  }

  /** Up to 500 rows; anything else asked for is 100. */
  function PageSize(limit: int): (n: nat)
    ensures 1 <= limit <= 500 ==> n == limit
    ensures !(1 <= limit <= 500) ==> n == 100
  {
    if limit <= 0 || limit > 500 then 100 else limit
  }

  function Limit(rows: seq<Entry>, n: nat): (r: seq<Entry>)
    ensures r <= rows
  {
    if |rows| <= n then rows else rows[..n]
  }

  /** What one page shows of the rows from a cursor on, and where the next one starts. */
  function PageFrom(rows: seq<Entry>, c: Cursor, size: nat): (seq<Entry>, string)
    requires ValidStore(rows) && c.bookedOn.Valid() && size > 0
  {
    var past := PastRows(rows, c);
    if |past| <= size then (past, "") else (past[..size], CursorText(PlaceOf(past[size - 1])))
  }

  /** A page of one cell: the rows from the cursor on, one more read than asked for so
    * that "is there another page" is answered by the read. */
  method OpenCell(store: seq<Entry>, sel: Selection, currency: string, cursor: Cursor, limit: int)
    returns (r: Result<Answer, Ledger.Error>)
    requires ValidStore(store) && sel.from.Valid() && sel.to.Valid() && cursor.bookedOn.Valid()
    ensures IsPageOf(r, store, sel, currency, cursor, limit)
  {
    hide CellRows, PastRows, CursorText, SumInBase;
    var total := LineTotal(store, sel);
    if total.Err? {
      return Err(OutOfRange);
    }
    var size := PageSize(limit);
    var past := PastRows(CellRows(store, sel), cursor);
    var rows := Limit(past, size + 1);
    var next := "";
    if |rows| > size {
      assert rows[size - 1] == past[size - 1] && rows[..size] == past[..size];
      next := CursorText(PlaceOf(rows[size - 1]));
      rows := rows[..size];
    }
    var shown: seq<Entry> := [];
    for k := 0 to |rows|
      invariant shown == rows[..k]
    {
      shown := shown + [rows[k]];
    }
    assert shown == rows;
    return Ok(Transactions(shown, total.value.0, M.Amount(currency, total.value.1), next));
  }

  ghost predicate IsPageOf(r: Result<Answer, Ledger.Error>, store: seq<Entry>, sel: Selection,
                           currency: string, cursor: Cursor, limit: int)
    requires ValidStore(store) && sel.from.Valid() && sel.to.Valid() && cursor.bookedOn.Valid()
  {
    var total := LineTotal(store, sel);
    && (total.Err? ==> r == Err(OutOfRange))
    && (total.Ok? ==>
          && var (rows, next) := PageFrom(CellRows(store, sel), cursor, PageSize(limit));
          && r == Ok(Transactions(rows, total.value.0, M.Amount(currency, total.value.1), next)))
  }

  /** Is this one of the request's columns? */
  ghost predicate IsPeriod(req: Request, period: string) {
    && InRange(req) && req.to != LAST
    && var f, t := ParseMonth(req.from).value, ParseMonth(req.to).value;
    && f <= t && req.granularity.Column(f) <= req.granularity.Column(t)
    && period in PeriodTexts(req.granularity, f, t)
  }

  predicate ComputedRef(line: LineRef) {
    line.SectionLine? && IsComputed(line.code)
  }

  method LineTransactions(store: seq<Entry>, req: Request, currency: string, period: string, line: LineRef,
                          cursor: Cursor, limit: int)
    returns (r: Result<Answer, Ledger.Error>)
    requires ValidStore(store) && cursor.bookedOn.Valid()
    ensures !InRange(req) || req.to == LAST ==> r == Err(UnknownGranularity)
    ensures InRange(req) && req.to != LAST && !IsPeriod(req, period) ==> r == Err(UnknownPeriod)
    ensures IsPeriod(req, period) && ComputedRef(line) ==>
              && r.Ok? && r.value.Operands?
              && MakesUp(r.value.operands, line.code)
    ensures IsPeriod(req, period) && !ComputedRef(line) ==>
              && var sel := SelectionFor(req, period, line);
              && sel.Ok? && sel.value.from.Valid() && sel.value.to.Valid()
              && IsPageOf(r, store, sel.value, currency, cursor, limit)
  {
    hide ParseMonth, Less, LAST, PeriodTexts, IsComputed, SelectionFor, MakesUp, IsPageOf;

    var periods := Periods(req.from, req.to, req.granularity);
    if periods.Err? {
      return Err(UnknownGranularity);
    }
    if period !in periods.value {
      return Err(UnknownPeriod);
    }
    if ComputedRef(line) {
      var operands := ListOperands(line.code);
      return Ok(Operands(operands));
    }
    CellHasDates(req, period, line);
    r := OpenCell(store, SelectionFor(req, period, line).value, currency, cursor, limit);
  }

  function Tagged(codes: seq<string>, subtracted: bool): (r: seq<Operand>)
    ensures |r| == |codes| && forall k :: 0 <= k < |codes| ==> r[k] == Operand(codes[k], subtracted)
  {
    if codes == [] then [] else Tagged(codes[..|codes| - 1], subtracted) + [Operand(codes[|codes| - 1], subtracted)]
  }

  function OperandsOf(step: ComputedLine): seq<Operand> {
    Tagged(step.plus, false) + Tagged(step.minus, true)
  }

  /** Where a line stands in the table. */
  function Row(code: string): (k: nat)
    requires code in ORDER
    ensures k < |ORDER| && ORDER[k] == code
  {
    RowFrom(0, code)
  }

  function RowFrom(k: nat, code: string): (r: nat)
    requires k <= |ORDER| && code in ORDER[k..]
    ensures r < |ORDER| && ORDER[r] == code
    decreases |ORDER| - k
  {
    if ORDER[k] == code then k else RowFrom(k + 1, code)
  }

  /** What operands come to in a column of the table: the subtracted ones are taken away. */
  function Net(column: seq<int>, operands: seq<Operand>): int
    requires |column| == |ORDER| && forall k :: 0 <= k < |operands| ==> operands[k].code in ORDER
  {
    if operands == [] then 0
    else
      var op := operands[0];
      (if op.subtracted then 0 - column[Row(op.code)] else column[Row(op.code)]) + Net(column, operands[1..])
  }

  /** Distinct lines of the table, which make the line's own figure in every column in which
    * the table's formulas hold. */
  ghost predicate MakesUp(operands: seq<Operand>, code: string) {
    && code in ORDER
    && (forall k :: 0 <= k < |operands| ==> operands[k].code in ORDER)
    && (forall j, k :: 0 <= j < k < |operands| ==> operands[j].code != operands[k].code)
    && (forall column: seq<int> :: |column| == |ORDER| && FormulasHold(column) ==>
                                     column[Row(code)] == Wrap(Net(column, operands)))
  }

  lemma Rows()
    ensures Row(NET_SALES) == 0 && Row(CS) == 1 && Row(GM) == 2 && Row(OCS) == 3 && Row(NM) == 4 && Row(OPEX) == 5
    ensures Row(OIE) == 6 && Row(CM) == 7 && Row(FR) == 8 && Row(IBT) == 9 && Row(CIT) == 10 && Row(NI) == 11
  {
    TableIs();
    hide ORDER, RowFrom;
    forall j, k | 0 <= j < k < |ORDER|
      ensures ORDER[j] != ORDER[k]
    {
      TableHasNoTwins(j, k);
    }
  }

  lemma TableIs()
    ensures |ORDER| == 12
    ensures ORDER[0] == NET_SALES && ORDER[1] == CS && ORDER[2] == GM && ORDER[3] == OCS && ORDER[4] == NM
    ensures ORDER[5] == OPEX && ORDER[6] == OIE && ORDER[7] == CM && ORDER[8] == FR && ORDER[9] == IBT
    ensures ORDER[10] == CIT && ORDER[11] == NI
  {
  }

  lemma TableHasNoTwins(j: nat, k: nat)
    requires j < k < |ORDER|
    ensures ORDER[j] != ORDER[k]
  {
  }

  lemma OperandsMakeUp(k: nat)
    requires k < |CHAIN|
    ensures MakesUp(OperandsOf(CHAIN[k]), CHAIN[k].code)
  {
    hide Wrap, Row, Net, ORDER, OperandsOf, FormulasHold, CHAIN;
    var operands := OperandsOf(CHAIN[k]);
    OperandsAreLines(k);
    forall column: seq<int> | |column| == |ORDER| && FormulasHold(column)
      ensures column[Row(CHAIN[k].code)] == Wrap(Net(column, operands))
    {
      NetOf(column, operands);
      FormulaOf(k, column);
    }
  }

  /** Where each step of the chain finds its lines. */
  lemma StepRows(k: nat)
    requires k < |CHAIN|
    ensures
      var step := CHAIN[k];
      && step.code in ORDER && |step.plus| == 1 && |step.minus| == (if k == 2 then 2 else 1)
      && step.plus[0] in ORDER && forall j :: 0 <= j < |step.minus| ==> step.minus[j] in ORDER
    ensures
      var step := CHAIN[k];
      && Row(step.code) == [2, 4, 7, 9, 11][k] && Row(step.plus[0]) == [0, 2, 4, 7, 9][k]
      && Row(step.minus[0]) == [1, 3, 5, 8, 10][k] && (k == 2 ==> Row(step.minus[1]) == 6)
  {
    hide Row;
    Rows();
    ChainIs();
    hide CHAIN, ORDER;
    if k == 0 {
    } else if k == 1 {
    } else if k == 2 {
    } else if k == 3 {
    }
  }

  lemma ChainIs()
    ensures |CHAIN| == 5
    ensures CHAIN[0] == ComputedLine(GM, [NET_SALES], [CS]) && CHAIN[1] == ComputedLine(NM, [GM], [OCS])
    ensures CHAIN[2] == ComputedLine(CM, [NM], [OPEX, OIE]) && CHAIN[3] == ComputedLine(IBT, [CM], [FR])
    ensures CHAIN[4] == ComputedLine(NI, [IBT], [CIT])
  {
  }

  /** The formula of each computed line, on the lines where they stand. */
  lemma FormulaOf(k: nat, column: seq<int>)
    requires k < |CHAIN| && |column| == |ORDER| && FormulasHold(column)
    ensures
      var step := CHAIN[k];
      && step.code in ORDER && |step.plus| == 1 && 1 <= |step.minus| <= 2
      && step.plus[0] in ORDER && forall j :: 0 <= j < |step.minus| ==> step.minus[j] in ORDER
    ensures
      var step := CHAIN[k];
      column[Row(step.code)]
      == Wrap(column[Row(step.plus[0])] - column[Row(step.minus[0])]
              - if |step.minus| == 2 then column[Row(step.minus[1])] else 0)
  {
    hide Wrap, Row, CHAIN, ORDER;
    StepRows(k);
    assert k == 0 || k == 1 || k == 2 || k == 3 || k == 4 by { ChainIs(); }
  }

  /** One line, and the costs taken from it. */
  lemma OperandsAreLines(k: nat)
    requires k < |CHAIN|
    ensures
      var operands := OperandsOf(CHAIN[k]);
      && |operands| == 1 + |CHAIN[k].minus| && 2 <= |operands| <= 3
      && operands[0] == Operand(CHAIN[k].plus[0], false) && operands[1] == Operand(CHAIN[k].minus[0], true)
      && (|operands| == 3 ==> operands[2] == Operand(CHAIN[k].minus[1], true))
      && (forall j :: 0 <= j < |operands| ==> operands[j].code in ORDER)
      && (forall i, j :: 0 <= i < j < |operands| ==> operands[i].code != operands[j].code)
      && CHAIN[k].code in ORDER
  {
  }

  lemma NetOf(column: seq<int>, operands: seq<Operand>)
    requires |column| == |ORDER| && forall k :: 0 <= k < |operands| ==> operands[k].code in ORDER
    requires 2 <= |operands| <= 3 && !operands[0].subtracted
    requires forall k :: 1 <= k < |operands| ==> operands[k].subtracted
    ensures Net(column, operands)
         == column[Row(operands[0].code)] - column[Row(operands[1].code)]
            - if |operands| == 3 then column[Row(operands[2].code)] else 0
  {
    hide Row, ORDER;
    var rest := operands[1..];
    var last := rest[1..];
    assert rest[0] == operands[1];
    if |operands| == 3 {
      assert last[0] == operands[2] && last[1..] == [];
      assert Net(column, last) == 0 - column[Row(operands[2].code)];
    } else {
      assert last == [];
    }
    assert Net(column, rest) == 0 - column[Row(operands[1].code)] + Net(column, last);
  }

  /** The lines a computed line is made of, the ones its formula takes away marked. */
  method ListOperands(code: string) returns (operands: seq<Operand>)
    requires IsComputed(code)
    ensures MakesUp(operands, code)
  {
    hide Tagged, OperandsOf, MakesUp;
    var k := 0;
    while CHAIN[k].code != code
      invariant 0 <= k < |CHAIN|
      invariant forall j :: 0 <= j < k ==> CHAIN[j].code != code
      decreases |CHAIN| - k
    {
      k := k + 1;
    }
    OperandsMakeUp(k);
    operands := OperandsOf(CHAIN[k]);
  }

  /** So a computed line opened in any column of a printed table, or in its totals, opens to the
    * lines its figure is made of. */
  lemma OperandsMakeFigures(operands: seq<Operand>, code: string, report: Report, spec: Spec, rows: seq<Pnl.Row>,
                            i: nat)
    requires MakesUp(operands, code) && Prints(report, spec, rows) && i < |spec.periods|
    ensures
      && |report.lines| == |ORDER| && (forall k :: 0 <= k < |ORDER| ==> i < |report.lines[k].byPeriod|)
      && report.lines[Row(code)].byPeriod[i].amount.minor == Wrap(Net(ColumnOf(report, i), operands))
      && report.lines[Row(code)].total.amount.minor == Wrap(Net(TotalsOf(report), operands))
  {
    hide Wrap, Row, FormulasHold, PrintsLine, PrintsBucket, Net, ORDER;
    FormulasHoldAsPrinted(report, spec, rows, i);
    LinesArePrinted(report, spec, rows, i);
    var column, totals := ColumnOf(report, i), TotalsOf(report);
    assert column[Row(code)] == Wrap(Net(column, operands));
    assert totals[Row(code)] == Wrap(Net(totals, operands));
  }

  lemma LinesArePrinted(report: Report, spec: Spec, rows: seq<Pnl.Row>, i: nat)
    requires Prints(report, spec, rows) && i < |spec.periods|
    ensures |report.lines| == |ORDER| && forall k :: 0 <= k < |ORDER| ==> i < |report.lines[k].byPeriod|
  {
    hide Face, Wrap, ORDER;
  }

  /** No transactions are selected for a computed line, in whatever period, and it is refused for
    * nothing else than that and its period. */
  lemma SelectionRefuses(req: Request, period: string, line: LineRef)
    ensures
      var computed := line.SectionLine? && line.code in ["91", "92", "93", "94", "95"];
      var dates := SelectionDates(req.from, req.to, req.granularity, period);
      && (SelectionFor(req, period, line) == Err(LineIsComputed) <==> computed)
      && (SelectionFor(req, period, line) == Err(UnknownPeriod) <==> !computed && dates.Err?)
      && (SelectionFor(req, period, line).Ok? ==>
            SelectionFor(req, period, line).value
            == Selection(req.entity, req.basis, dates.value.0, dates.value.1, line))
  {
    hide SelectionDates, Ledger.Operands, CHAIN;
    if line.SectionLine? {
      HasOperands(line.code);
    }
  }

  /** The lines with operands are the computed ones. */
  lemma HasOperands(code: string)
    ensures Ledger.Operands(code) != [] <==> code in ["91", "92", "93", "94", "95"]
  {
    var codes := ["91", "92", "93", "94", "95"];
    CodesOfChain();
    hide CHAIN;
    if k :| 0 <= k < |CHAIN| && CHAIN[k].code == code {
      OperandsAgree(k);
      assert codes[k] == code;
    } else {
      NoOperandsFrom(0, code);
      forall k | 0 <= k < 5
        ensures codes[k] != code
      {
        assert CHAIN[k].code != code;
      }
    }
  }

  lemma CodesOfChain()
    ensures |CHAIN| == 5
    ensures forall k :: 0 <= k < 5 ==> CHAIN[k].code == ["91", "92", "93", "94", "95"][k]
    ensures forall j, k :: 0 <= j < k < 5 ==> CHAIN[j].code != CHAIN[k].code
  {
    ChainIs();
    hide CHAIN;
  }

  /** What a selection calls a line's operands are the lines it opens to. */
  lemma OperandsAgree(k: nat)
    requires k < |CHAIN|
    ensures Ledger.Operands(CHAIN[k].code) == CHAIN[k].plus + CHAIN[k].minus
    ensures |Ledger.Operands(CHAIN[k].code)| == |OperandsOf(CHAIN[k])| > 0
    ensures forall j :: 0 <= j < |OperandsOf(CHAIN[k])| ==>
                          Ledger.Operands(CHAIN[k].code)[j] == OperandsOf(CHAIN[k])[j].code
  {
    CodesOfChain();
    hide CHAIN, Tagged;
    FoundFrom(0, k);
    PlusIsOne(k);
  }

  lemma PlusIsOne(k: nat)
    requires k < |CHAIN|
    ensures |CHAIN[k].plus| == 1
  {
    ChainIs();
  }

  lemma {:induction false} FoundFrom(j: nat, k: nat)
    requires j <= k < |CHAIN| && forall a, b :: 0 <= a < b < |CHAIN| ==> CHAIN[a].code != CHAIN[b].code
    ensures OperandsFrom(j, CHAIN[k].code) == CHAIN[k].plus + CHAIN[k].minus
    decreases k - j
  {
    hide CHAIN;
    if j < k {
      FoundFrom(j + 1, k);
    }
  }

  /** Every period of the report has dates, whatever line is opened in it. */
  lemma CellHasDates(req: Request, period: string, line: LineRef)
    requires IsPeriod(req, period) && !ComputedRef(line)
    ensures SelectionFor(req, period, line).Ok?
    ensures SelectionFor(req, period, line).value.from.Valid() && SelectionFor(req, period, line).value.to.Valid()
  {
    hide Less, ParseMonth, PeriodTexts, MonthText, Ledger.Operands, SelectionDates;
    var f, t, g := ParseMonth(req.from).value, ParseMonth(req.to).value, req.granularity;
    MonthTextOfParse(req.from);
    MonthTextOfParse(req.to);
    var i :| 0 <= i < |PeriodTexts(g, f, t)| && PeriodTexts(g, f, t)[i] == period;
    SelectionOfPeriod(g, f, t, i);
    if line.SectionLine? {
      NotComputed(line.code);
    }
  }

  lemma NotComputed(code: string)
    requires !IsComputed(code)
    ensures Ledger.Operands(code) == []
  {
    NoOperandsFrom(0, code);
  }

  // ---- Following the cursor ---------------------------------------------------------------

  /** In a listed cell the rows past a cursor are its tail from some row on. */
  lemma {:induction false} PastIsTail(rows: seq<Entry>, c: Cursor) returns (k: nat)
    requires Listed(rows) && c.bookedOn.Valid()
    ensures k <= |rows| && PastRows(rows, c) == rows[k..]
  {
    hide Precedes, NIL, IsUuid;
    if rows == [] {
      k := 0;
    } else if Past(rows[0], c) {
      AllPast(rows, c);
      k := 0;
    } else {
      k := PastIsTail(rows[1..], c);
      assert rows[1..][k..] == rows[k + 1..];
      k := k + 1;
    }
  }

  lemma {:induction false} AllPast(rows: seq<Entry>, c: Cursor)
    requires Listed(rows) && c.bookedOn.Valid() && (rows == [] || Past(rows[0], c))
    ensures PastRows(rows, c) == rows
  {
    hide Precedes, NIL, IsUuid;
    if rows != [] {
      if |rows| > 1 && c.id != NIL {
        PrecedesIsTransitive(c, PlaceOf(rows[0]), PlaceOf(rows[1]));
      }
      AllPast(rows[1..], c);
      assert [rows[0]] + rows[1..] == rows;
    }
  }

  /** Past a row of the cell lies exactly what follows it. */
  lemma {:induction false} PastOwnRow(rows: seq<Entry>, k: nat)
    requires Listed(rows) && k < |rows|
    ensures PastRows(rows, PlaceOf(rows[k])) == rows[k + 1..]
  {
    hide Precedes, NIL, IsUuid;
    var c := PlaceOf(rows[k]);
    if k == 0 {
      PrecedesIsStrict(c);
      if |rows| > 1 {
        assert Precedes(c, PlaceOf(rows[1]));
      }
      AllPast(rows[1..], c);
    } else {
      if Precedes(c, PlaceOf(rows[0])) {
        PrecedesIsTransitive(PlaceOf(rows[0]), c, PlaceOf(rows[0]));
        PrecedesIsStrict(PlaceOf(rows[0]));
      }
      PastOwnRow(rows[1..], k - 1);
    }
  }

  /** The cursor a page hands out reads back as the place of its last row, and past it
    * lie exactly the rows the page did not show. */
  lemma NextPage(rows: seq<Entry>, c: Cursor, size: nat)
    requires Listed(rows) && c.bookedOn.Valid() && 0 < size < |PastRows(rows, c)|
    requires forall k :: 0 <= k < |rows| ==> rows[k].bookedOn.year < 10000
    ensures
      var past := PastRows(rows, c);
      var next := PlaceOf(past[size - 1]);
      && past[size - 1].bookedOn.Valid() && CursorText(next) != ""
      && ParseCursor(CursorText(next)) == Ok(next)
      && PastRows(rows, next) == past[size..]
      && forall e :: e in rows ==>
                       (e in PastRows(rows, next)
                        <==> || e.bookedOn.Number() > past[size - 1].bookedOn.Number()
                             || (e.bookedOn.Number() == past[size - 1].bookedOn.Number()
                                 && Less(past[size - 1].id, e.id)))
  {
    var k := PastIsTail(rows, c);
    hide Precedes, NIL, IsUuid, PastRows, CursorText, ParseCursor;
    PastOwnRow(rows, k + size - 1);
    RoundTrip(PlaceOf(rows[k + size - 1]));
    assert CursorText(PlaceOf(rows[k + size - 1])) != "" by { CursorIsText(PlaceOf(rows[k + size - 1])); }
    forall e | e in rows
      ensures e in PastRows(rows, PlaceOf(rows[k + size - 1])) <==> Precedes(PlaceOf(rows[k + size - 1]), PlaceOf(e))
    {
      PastHas(rows, PlaceOf(rows[k + size - 1]), e);
    }
    PrecedesMeans(rows, rows[k + size - 1]);
  }

  lemma {:induction false} PastHas(rows: seq<Entry>, c: Cursor, e: Entry)
    requires ValidStore(rows) && c.bookedOn.Valid() && e.bookedOn.Valid()
    ensures e in PastRows(rows, c) <==> e in rows && Past(e, c)
  {
    hide Past, NIL;
    if rows != [] {
      PastHas(rows[1..], c, e);
      assert rows == [rows[0]] + rows[1..];
    }
  }

  /** In the order of day and id. */
  lemma PrecedesMeans(rows: seq<Entry>, a: Entry)
    requires ValidStore(rows) && a.bookedOn.Valid()
    ensures forall b :: b in rows ==>
                          && b.bookedOn.Valid()
                          && (Precedes(PlaceOf(a), PlaceOf(b))
                              <==> || b.bookedOn.Number() > a.bookedOn.Number()
                                   || (b.bookedOn.Number() == a.bookedOn.Number() && Less(a.id, b.id)))
  {
    hide FirstDay, DaysIn;
  }

  lemma CursorIsText(c: Cursor)
    requires c.id != NIL
    ensures CursorText(c) != ""
  {
    hide DateText, NIL;
  }

  /** The rows a client sees who follows NextCursor until there is none. */
  ghost function Following(rows: seq<Entry>, c: Cursor, size: nat): seq<Entry>
    requires Listed(rows) && c.bookedOn.Valid() && size > 0
    requires forall k :: 0 <= k < |rows| ==> rows[k].bookedOn.year < 10000
    decreases |PastRows(rows, c)|
  {
    var (page, next) := PageFrom(rows, c, size);
    if next == "" then page
    else
      NextPage(rows, c, size);
      page + Following(rows, ParseCursor(next).value, size)
  }

  lemma ListedIsValid(rows: seq<Entry>)
    requires Listed(rows)
    ensures ValidStore(rows)
  {
  }

  lemma {:induction false} FollowingIsPast(rows: seq<Entry>, c: Cursor, size: nat)
    requires Listed(rows) && c.bookedOn.Valid() && size > 0
    requires forall k :: 0 <= k < |rows| ==> rows[k].bookedOn.year < 10000
    ensures Following(rows, c, size) == PastRows(rows, c)
    decreases |PastRows(rows, c)|
  {
    hide Listed, PastRows, CursorText, ParseCursor, Precedes, IsUuid, NIL;
    ListedIsValid(rows);
    var past := PastRows(rows, c);
    if |past| > size {
      NextPage(rows, c, size);
      var next := PlaceOf(past[size - 1]);
      FollowingIsPast(rows, next, size);
      assert past[..size] + past[size..] == past;
    }
  }

  lemma {:induction false} CellIsListed(store: seq<Entry>, sel: Selection)
    requires Listed(store) && sel.from.Valid() && sel.to.Valid()
    ensures Listed(CellRows(store, sel))
    ensures forall e :: e in CellRows(store, sel) ==> e in store && Selected(e, sel)
  {
    hide Selected, Precedes, IsUuid, NIL;
    if store != [] {
      var before, e := store[..|store| - 1], store[|store| - 1];
      LastIsPastAll(store);
      CellIsListed(before, sel);
      assert CellRows(before, sel) + [] == CellRows(before, sel);
      hide Listed;
      ListedSnoc(CellRows(before, sel), e);
    }
  }

  lemma LastIsPastAll(store: seq<Entry>)
    requires Listed(store) && store != []
    ensures
      var before, e := store[..|store| - 1], store[|store| - 1];
      && Listed(before) && Listed([e]) && e.bookedOn.Valid()
      && forall r :: r in before ==> r.bookedOn.Valid() && Precedes(PlaceOf(r), PlaceOf(e))
  {
    hide Precedes, IsUuid, NIL;
  }

  lemma ListedSnoc(rows: seq<Entry>, e: Entry)
    requires Listed(rows) && Listed([e]) && e.bookedOn.Valid()
    requires forall r :: r in rows ==> r.bookedOn.Valid() && Precedes(PlaceOf(r), PlaceOf(e))
    ensures Listed(rows + [e])
  {
    hide Precedes, IsUuid, NIL;
    assert [e][0] == e;
  }

  /** Pages concatenate to the cell: from the empty cursor, with any limit, following
    * NextCursor shows every row of the cell once and in order, and what was shown adds
    * up to the count and the total printed above it. */
  lemma PagesMakeCell(store: seq<Entry>, sel: Selection, limit: int)
    requires Listed(store) && sel.from.Valid() && sel.to.Valid() && sel.to.year < 10000
    ensures
      var cell := CellRows(store, sel);
      && Listed(cell) && (forall k :: 0 <= k < |cell| ==> cell[k].bookedOn.year < 10000)
      && ParseCursor("") == Ok(START)
      && var seen := Following(cell, START, PageSize(limit));
      && seen == cell
      && (forall j, k :: 0 <= j < k < |seen| ==>
                           || seen[j].bookedOn.Number() < seen[k].bookedOn.Number()
                           || (seen[j].bookedOn.Number() == seen[k].bookedOn.Number() && Less(seen[j].id, seen[k].id)))
      && (forall e :: e in store ==> (e in seen <==> Selected(e, sel)))
      && (LineTotal(store, sel).Ok? ==> LineTotal(store, sel).value == (|seen|, SumInBase(seen)))
  {
    var cell := CellRows(store, sel);
    CellIsListed(store, sel);
    forall k | 0 <= k < |cell|
      ensures cell[k].bookedOn.year < 10000
    {
      assert cell[k] in cell;
      EarlierYear(cell[k].bookedOn, sel.to);
    }
    hide Following, Precedes, IsUuid;
    CellInOrder(cell);
    FollowingIsPast(cell, START, PageSize(limit));
    AllPast(cell, START);
    forall e | e in store && Selected(e, sel)
      ensures e in cell
    {
      CellHas(store, sel, e);
    }
  }

  lemma CellInOrder(cell: seq<Entry>)
    requires Listed(cell)
    ensures forall j, k :: 0 <= j < k < |cell| ==>
                             || cell[j].bookedOn.Number() < cell[k].bookedOn.Number()
                             || (cell[j].bookedOn.Number() == cell[k].bookedOn.Number() && Less(cell[j].id, cell[k].id))
  {
    hide Less, IsUuid, NIL, FirstDay, DaysIn;
  }

  lemma {:induction false} CellHas(store: seq<Entry>, sel: Selection, e: Entry)
    requires ValidStore(store) && sel.from.Valid() && sel.to.Valid() && e in store && Selected(e, sel)
    ensures e in CellRows(store, sel)
  {
    hide Selected;
    if e != store[|store| - 1] {
      assert e in store[..|store| - 1] by {
        assert store == store[..|store| - 1] + [store[|store| - 1]];
      }
      CellHas(store[..|store| - 1], sel, e);
    }
  }

  lemma EarlierYear(a: Date, b: Date)
    requires a.Valid() && b.Valid() && a.Number() <= b.Number()
    ensures a.year <= b.year
  {
    hide FirstDay, DaysIn;
    if a.MonthOf() > b.MonthOf() {
      MonthsFollow(b.MonthOf(), a.MonthOf());
    }
  }
}
