/** The ledger a report reads: transactions with their live classification, the one
  * predicate that says which line of the report a transaction is on, and what a cell
  * adds up to when it is opened. */
module Ledger {
  import opened Wrappers
  import opened Calendar
  import opened Text
  import opened Int64
  import opened Pnl
  import PeriodColumns

  datatype Category = Category(code: string, section: string, isPnl: bool, requiresAllocation: bool)

  /** A transaction, with the category of its one live classification if it has one. */
  datatype Entry = Entry(
    id: string, entity: string, kind: Basis, bookedOn: Date,
    amount: int, base: Option<int>, live: Option<Category>)

  /** coalesce(base_amount_minor, amount_minor) */
  function InBase(e: Entry): (x: int)
    ensures e.base == Some(x) || (e.base == None && x == e.amount)
  {
    if e.base.Some? then e.base.value else e.amount
  }

  /** The transactions table: dates that exist, and amounts a bigint holds. */
  ghost predicate ValidStore(store: seq<Entry>) {
    forall k :: 0 <= k < |store| ==> store[k].bookedOn.Valid()
  }

  datatype Request = Request(
    entity: string, from: string, to: string, granularity: PeriodColumns.Granularity, basis: Basis)

  datatype Selection = Selection(entity: string, basis: Basis, from: Date, to: Date, line: LineRef)

  datatype Error =
    | BadRange | UnknownGranularity | NoBaseCurrency | UnknownPeriod | LineIsComputed | BadCursor | OutOfRange
    | Refused(why: Pnl.Error)

  /** A closed range of months that can be named. */
  ghost predicate InRange(req: Request) {
    && !Less(req.to, req.from)
    && PeriodColumns.ParseMonth(req.from).Ok? && PeriodColumns.ParseMonth(req.to).Ok?
  }

  /** The wire form of a line: its code, or the bucket's name. */
  function Wire(line: LineRef): string {
    match line
    case SectionLine(code) => code
    case BucketLine(Unclassified) => "unclassified"
    case BucketLine(NonPnl) => "non_pnl"
    case BucketLine(Unallocated) => "unallocated"
    case BucketLine(OtherBasis) => "other_basis"
  }

  function OperandsFrom(k: nat, code: string): seq<string>
    requires k <= |CHAIN|
    decreases |CHAIN| - k
  {
    if k == |CHAIN| then []
    else if CHAIN[k].code == code then CHAIN[k].plus + CHAIN[k].minus
    else OperandsFrom(k + 1, code)
  }

  /** The lines a computed line is made of; none for a line that takes transactions. */
  function Operands(code: string): seq<string> {
    OperandsFrom(0, code)
  }

  lemma {:induction false} NoOperandsFrom(k: nat, code: string)
    requires k <= |CHAIN| && !IsComputed(code)
    ensures OperandsFrom(k, code) == []
    decreases |CHAIN| - k
  {
    hide CHAIN;
    if k < |CHAIN| {
      assert CHAIN[k].code != code;
      NoOperandsFrom(k + 1, code);
    }
  }

  /** The transactions of one cell: its line, over its own dates. */
  function SelectionFor(req: Request, period: string, line: LineRef): Result<Selection, Error> {
    if line.SectionLine? && Operands(line.code) != [] then Err(LineIsComputed)
    else
      var dates := PeriodColumns.SelectionDates(req.from, req.to, req.granularity, period);
      if dates.Err? then Err(UnknownPeriod)
      else Ok(Selection(req.entity, req.basis, dates.value.0, dates.value.1, line))
  }

  // ---- The line predicate ----------------------------------------------------------------

  /** t.booked_on BETWEEN from AND to */
  predicate InDates(on: Date, from: Date, to: Date)
    requires on.Valid() && from.Valid() && to.Valid()
  {
    from.Number() <= on.Number() <= to.Number()
  }

  /** The two CASEs of the drill-down's WHERE clause. */
  predicate OnLine(e: Entry, line: string, basis: Basis) {
    && (if line == "other_basis" then e.kind != basis else e.kind == basis)
    && (if line == "other_basis" then true
        else if line == "unclassified" then e.live.None?
        else if line == "non_pnl" then
          && e.live.Some?
          && (!e.live.value.isPnl || (!e.live.value.requiresAllocation && e.live.value.section in ["08", "09"]))
        else if line == "unallocated" then
          e.live.Some? && e.live.value.isPnl && e.live.value.requiresAllocation
        else
          e.live.Some? && e.live.value.isPnl && !e.live.value.requiresAllocation && e.live.value.section == line)
  }

  predicate Selected(e: Entry, sel: Selection)
    requires e.bookedOn.Valid() && sel.from.Valid() && sel.to.Valid()
  {
    e.entity == sel.entity && InDates(e.bookedOn, sel.from, sel.to) && OnLine(e, Wire(sel.line), sel.basis)
  }

  /** The rows of a cell, in the table's order. */
  function CellRows(store: seq<Entry>, sel: Selection): (rows: seq<Entry>)
    requires ValidStore(store) && sel.from.Valid() && sel.to.Valid()
    ensures |rows| <= |store| && ValidStore(rows)
  {
    if store == [] then []
    else
      var e := store[|store| - 1];
      CellRows(store[..|store| - 1], sel) + if Selected(e, sel) then [e] else []
  }

  function SumInBase(rows: seq<Entry>): int {
    if rows == [] then 0 else SumInBase(rows[..|rows| - 1]) + InBase(rows[|rows| - 1])
  }

  /** LineTotal: the cell counted and summed; a sum no bigint holds is an error. */
  function LineTotal(store: seq<Entry>, sel: Selection): (r: Result<(nat, int), Error>)
    requires ValidStore(store) && sel.from.Valid() && sel.to.Valid()
  {
    var rows := CellRows(store, sel);
    if Fits(SumInBase(rows)) then Ok((|rows|, SumInBase(rows))) else Err(OutOfRange)
  }

  // ---- The same line, found twice -----------------------------------------------------------

  /** The row the report makes of one transaction, before rows are grouped. */
  function RowOf(e: Entry, period: string, currency: string): Row {
    var amount := M.Amount(currency, InBase(e));
    if e.live.None? then Row(period, "", "", amount, false, false, e.kind)
    else Row(period, e.live.value.code, e.live.value.section, amount, e.live.value.isPnl,
             e.live.value.requiresAllocation, e.kind)
  }

  /** The drill-down's predicate is the report's placing, branch for branch, for every
    * transaction whose category has a code; for one without, they never agree. */
  lemma PlacedAlike(e: Entry, basis: Basis, period: string, currency: string)
    ensures
      (forall line :: line in Places() ==>
                        (Place(RowOf(e, period, currency), basis) == Ok(line) <==> OnLine(e, Wire(line), basis)))
      <==> (e.kind == basis && e.live.Some? ==> e.live.value.code != "")
  {
    var row := RowOf(e, period, currency);
    if e.kind == basis && e.live.Some? && e.live.value.code == "" {
      var line := BucketLine(Unclassified);
      assert line in Places() && Place(row, basis) == Ok(line) && !OnLine(e, Wire(line), basis);
    } else {
      forall line | line in Places()
        ensures Place(row, basis) == Ok(line) <==> OnLine(e, Wire(line), basis)
      {
        PlacedOn(e, basis, row, line);
      }
    }
  }

  lemma PlacedOn(e: Entry, basis: Basis, row: Row, line: LineRef)
    requires line in Places()
    requires e.kind == basis && e.live.Some? ==> e.live.value.code != ""
    requires row == RowOf(e, row.period, row.amount.currency)
    ensures Place(row, basis) == Ok(line) <==> OnLine(e, Wire(line), basis)
  {
    if line.SectionLine? {
      SectionWire(line.code);
    }
  }

  lemma SectionWire(code: string)
    requires code in SECTIONS
    ensures |code| == 2 && code !in NON_PNL_SECTIONS
  {
  }
}
