/** What transfers do to a report. Its reads never ask who is a leg, so a line is free of
  * transfers only where its legs cancel; and four legs, each within int64, are enough for a
  * figure that is not. */
module TransferFigures {
  import opened Wrappers
  import opened Calendar
  import opened Int64
  import opened Pnl
  import opened Ledger
  import opened PeriodColumns
  import opened GroupedReads
  import opened StripAgreement
  import opened Reconciliation
  import opened ManagementReport

  // ---- Legs on a line ----------------------------------------------------------------------------

  /** The rows of a cell that are legs of an active transfer, or that are none. */
  function LegsAmong(rows: seq<Entry>, pairs: Pairs, legs: bool): seq<Entry> {
    if rows == [] then []
    else
      var e := rows[|rows| - 1];
      LegsAmong(rows[..|rows| - 1], pairs, legs) + if IsLeg(e, pairs) == legs then [e] else []
  }

  lemma {:induction false} LegsAndOthers(rows: seq<Entry>, pairs: Pairs)
    ensures SumInBase(rows) == SumInBase(LegsAmong(rows, pairs, true)) + SumInBase(LegsAmong(rows, pairs, false))
  {
    hide IsLeg, InBase;
    if rows != [] {
      var before, e := rows[..|rows| - 1], rows[|rows| - 1];
      LegsAndOthers(before, pairs);
      SumAppend(LegsAmong(before, pairs, true), if IsLeg(e, pairs) then [e] else []);
      SumAppend(LegsAmong(before, pairs, false), if IsLeg(e, pairs) then [] else [e]);
      SumOne(e);
    }
  }

  lemma SameWrapped(a: int, b: int, turned: bool)
    ensures Wrap(Signed(a + b, turned)) == Wrap(Signed(a, turned)) <==> Wrap(b) == 0
  {
    var y := if turned then 0 - b else b;
    var x := Signed(a, turned);
    SumWrapsToFirst(x, y);
    WrapsToZero(b);
  }

  lemma SumWrapsToFirst(x: int, y: int)
    ensures Wrap(x + y) == Wrap(x) <==> Wrap(y) == 0
  {
    hide Wrap;
    WrapAdd(x, y);
    WrapAdd(x + y, 0 - x);
    WrapAdd(x, 0 - x);
    WrapOfZero();
  }

  lemma WrapOfZero()
    ensures Wrap(0) == 0
  {
  }

  lemma WrapsToZero(b: int)
    ensures Wrap(0 - b) == 0 <==> Wrap(b) == 0
  {
    hide Wrap;
    WrapAdd(b, 0 - b);
    WrapAdd(0 - b, b);
    WrapOfZero();
  }

  /** A pair is meant to be out of the P&L. A section's drill-down is the sum of its rows that
    * are no legs exactly when the legs on its line add up to nothing, and its figure is, as
    * printed, exactly when int64 sees nothing of them. */
  lemma LegsStayOnLine(line: Line, code: string, store: seq<Entry>, pairs: Pairs, req: Request, f: Month, t: Month,
                       i: nat,
                       currency: string)
    requires ValidStore(store) && f <= t < END && req.granularity.Column(f) + i <= req.granularity.Column(t)
    requires FigureOpens(line, code, store, req, f, t, i, currency)
    ensures
      var rows := CellRows(store, CellSelection(req, f, t, i, SectionLine(code)));
      var others, legs := SumInBase(LegsAmong(rows, pairs, false)), SumInBase(LegsAmong(rows, pairs, true));
      && (SumInBase(rows) == others <==> legs == 0)
      && (line.byPeriod[i].amount.minor == Wrap(Signed(others, Turned(code))) <==> Wrap(legs) == 0)
  {
    hide CellRows, SumInBase, LegsAmong, SelectionFor, CellSelection, PeriodTexts, Turned, Wrap, Signed;
    var rows := CellRows(store, CellSelection(req, f, t, i, SectionLine(code)));
    LegsAndOthers(rows, pairs);
    SameWrapped(SumInBase(LegsAmong(rows, pairs, false)), SumInBase(LegsAmong(rows, pairs, true)), Turned(code));
  }

  // ---- A store in which no two rows are one group ------------------------------------------------

  ghost predicate Apart(store: seq<Entry>, basis: Basis) {
    && (forall k :: 0 <= k < |store| ==> store[k].kind == basis && store[k].live.Some? && Fits(InBase(store[k])))
    && (forall j, k :: 0 <= j < k < |store| ==> store[j].live.value.code != store[k].live.value.code)
  }

  lemma {:induction false} AddedApart(groups: seq<Row>, row: Row)
    requires forall k :: 0 <= k < |groups| ==> !SameGroup(groups[k], row)
    ensures forall r :: r in AddTo(groups, row) ==> r in groups || r == row
  {
    if groups != [] {
      AddedApart(groups[..|groups| - 1], row);
      assert groups == groups[..|groups| - 1] + [groups[|groups| - 1]];
    }
  }

  lemma {:induction false} GroupsApart(store: seq<Entry>, read: Read, req: Request, from: Date, to: Date,
                                       currency: string)
    requires ValidStore(store) && from.Valid() && to.Valid() && Apart(store, req.basis)
    ensures forall r :: r in Groups(store, read, req, from, to, currency) ==>
                          exists k :: 0 <= k < |store| && r == ReadRow(Lines, store[k], currency)
  {
    hide InDates, MonthText, AddTo;
    if store != [] {
      var before, e := store[..|store| - 1], store[|store| - 1];
      GroupsApart(before, read, req, from, to, currency);
      var groups := Groups(before, read, req, from, to, currency);
      if Reads(read, e, req, from, to) {
        forall k | 0 <= k < |groups|
          ensures !SameGroup(groups[k], ReadRow(read, e, currency))
        {
          assert groups[k] in groups;
          var j :| 0 <= j < |before| && groups[k] == ReadRow(Lines, before[j], currency);
          assert store[j] == before[j];
        }
        AddedApart(groups, ReadRow(read, e, currency));
      }
      forall r | r in Groups(store, read, req, from, to, currency)
        ensures exists k :: 0 <= k < |store| && r == ReadRow(Lines, store[k], currency)
      {
        if r in groups {
          var j :| 0 <= j < |before| && r == ReadRow(Lines, before[j], currency);
          assert store[j] == before[j];
        }
      }
    }
  }

  lemma ApartFits(store: seq<Entry>, read: Read, req: Request, from: Date, to: Date, currency: string)
    requires ValidStore(store) && from.Valid() && to.Valid() && Apart(store, req.basis)
    ensures GroupsFit(Groups(store, read, req, from, to, currency))
  {
    hide Groups, MonthText;
    GroupsApart(store, read, req, from, to, currency);
    var groups := Groups(store, read, req, from, to, currency);
    forall k | 0 <= k < |groups|
      ensures Fits(groups[k].amount.minor)
    {
      assert groups[k] in groups;
    }
  }

  // ---- The store ---------------------------------------------------------------------------------

  const CLOUD := Category("0401010201", OPEX, true, false)
  const COMMISSION := Category("0401010204", OPEX, true, false)
  const EXCHANGE := Category("060101", FR, true, false)
  const INTEREST := Category("060201", FR, true, false)

  function Leg(id: string, on: Date, amount: int, category: Category): Entry {
    Entry(id, "entity", Bank, on, amount, None, Some(category))
  }

  /** Two costs and two incomes of one size on one day. */
  function Legs(on: Date, x: int): (store: seq<Entry>)
    ensures |store| == 4
  {
    [Leg("a", on, 0 - x, CLOUD), Leg("b", on, 0 - x, COMMISSION), Leg("c", on, x, EXCHANGE), Leg("d", on, x, INTEREST)]
  }

  /** They are the sides of two transfers between accounts. */
  const PAIRED: Pairs := Pairs(
                           map["a" := Membership("ac", OutLeg), "c" := Membership("ac", InLeg),
                               "b" := Membership("bd", OutLeg), "d" := Membership("bd", InLeg)],
                           {"ac", "bd"})

  function OneMonth(f: Month): Request {
    Request("entity", MonthText(f), MonthText(f), Monthly, Bank)
  }

  lemma LegsApart(on: Date, x: int)
    requires 0 < x <= MAX
    ensures Apart(Legs(on, x), Bank)
  {
  }

  lemma MovedSnoc(before: seq<Entry>, e: Entry, term: Term, pairs: Pairs, req: Request, lo: int, hi: int)
    requires ValidStore(before) && e.bookedOn.Valid()
    ensures ValidStore(before + [e])
    ensures Moved(before + [e], term, pairs, req, lo, hi)
         == Moved(before, term, pairs, req, lo, hi)
            + if Booked(e, req, lo, hi) && Counts(term, e, pairs) then InBase(e) else 0
  {
    hide Booked, Counts, InBase;
    assert (before + [e])[..|before|] == before;
  }

  lemma LegCounts(on: Date, x: int, k: nat, req: Request, term: Term, lo: int, hi: int)
    requires on.Valid() && k < 4 && req.entity == "entity" && req.basis == Bank
    ensures
      var e := Legs(on, x)[k];
      && e.bookedOn == on && InBase(e) == (if k < 2 then 0 - x else x)
      && (Booked(e, req, lo, hi) && Counts(term, e, PAIRED)
          <==> lo <= on.Number() < hi && (term.Every? || term.Transfer?))
  {
    hide FirstDay, DaysIn;
    assert IsLeg(Legs(on, x)[k], PAIRED);
  }

  /** Whatever the days, the four legs move nothing, together or by any of the strip's terms. */
  lemma LegsMoveNothing(on: Date, x: int, req: Request, term: Term, lo: int, hi: int)
    requires on.Valid() && req.entity == "entity" && req.basis == Bank
    ensures ValidStore(Legs(on, x)) && Moved(Legs(on, x), term, PAIRED, req, lo, hi) == 0
  {
    hide Moved, FirstDay, DaysIn, Legs, Booked, Counts, InBase;
    var s := Legs(on, x);
    LegCounts(on, x, 0, req, term, lo, hi);
    LegCounts(on, x, 1, req, term, lo, hi);
    LegCounts(on, x, 2, req, term, lo, hi);
    LegCounts(on, x, 3, req, term, lo, hi);
    assert s[..2] == [s[0]] + [s[1]] && s[..3] == s[..2] + [s[2]] && s == s[..3] + [s[3]];
    assert [] + [s[0]] == [s[0]];
    NothingMoved(term, req, lo, hi);
    MovedSnoc([], s[0], term, PAIRED, req, lo, hi);
    MovedSnoc([s[0]], s[1], term, PAIRED, req, lo, hi);
    MovedSnoc(s[..2], s[2], term, PAIRED, req, lo, hi);
    MovedSnoc(s[..3], s[3], term, PAIRED, req, lo, hi);
  }

  lemma NothingMoved(term: Term, req: Request, lo: int, hi: int)
    ensures Moved([], term, PAIRED, req, lo, hi) == 0
  {
  }

  lemma LegsHaveReport(f: Month, x: int, currency: string)
    requires f < END && 0 < x <= MAX
    ensures ValidStore(Legs(FirstOf(f), x)) && HasReport(Legs(FirstOf(f), x), PAIRED, OneMonth(f), f, f, currency)
  {
    hide Moved, Groups, FirstDay, DaysIn, MonthText, PeriodTexts, FirstOf, LastOf, Boundary, GroupsFit;
    var req, store := OneMonth(f), Legs(FirstOf(f), x);
    LegsApart(FirstOf(f), x);
    ApartFits(store, Lines, req, FirstOf(f), LastOf(f), currency);
    ApartFits(store, Unanswered, req, FirstOf(f), LastOf(f), currency);
    ApartFits(store, Other, req, FirstOf(f), LastOf(f), currency);
    LegsStand(FirstOf(f), x, req, f);
    forall term: Term, lo: int, hi: int
      ensures Moved(store, term, PAIRED, req, lo, hi) == 0
    {
      LegsMoveNothing(FirstOf(f), x, req, term, lo, hi);
    }
  }

  lemma LegsStand(on: Date, x: int, req: Request, f: Month)
    requires on.Valid()
    ensures ValidStore(Legs(on, x)) && NoStrays(Legs(on, x), req, f, f)
  {
    hide FirstOf, LastOf, InScope, DaysIn;
    assert OPEX == SECTIONS[3] && FR == SECTIONS[5];
  }

  // ---- Its figure ----------------------------------------------------------------------------------

  /** The month's cell for operating costs holds the two costs. */
  lemma CostsOfLegs(f: Month, x: int)
    requires f < END
    ensures ValidStore(Legs(FirstOf(f), x))
    ensures SumInBase(CellRows(Legs(FirstOf(f), x), CellSelection(OneMonth(f), f, f, 0, SectionLine(OPEX))))
         == 0 - 2 * x
  {
    hide FirstDay, DaysIn, MonthText, FirstOf, LastOf, CellRows, SumInBase;
    var on, sel := FirstOf(f), CellSelection(OneMonth(f), f, f, 0, SectionLine(OPEX));
    var s := Legs(on, x);
    InMonths(on, f, f);
    assert s[..2] == [s[0]] + [s[1]] && s[..3] == s[..2] + [s[2]] && s == s[..3] + [s[3]];
    assert [] + [s[0]] == [s[0]];
    EmptyCell(sel);
    CellSnoc([], s[0], [s[0]], sel);
    CellSnoc([s[0]], s[1], s[..2], sel);
    CellSnoc(s[..2], s[2], s[..3], sel);
    CellSnoc(s[..3], s[3], s, sel);
    assert FR != OPEX && OPEX == "04";
  }

  lemma EmptyCell(sel: Selection)
    requires sel.from.Valid() && sel.to.Valid()
    ensures SumInBase(CellRows([], sel)) == 0
  {
  }

  lemma AskedFor(f: Month)
    requires f < END - 1
    ensures InRange(OneMonth(f)) && OneMonth(f).to != LAST && ParseMonth(OneMonth(f).from) == Ok(f)
  {
    hide MonthText, ParseMonth, Text.Less, LAST;
    ParseOfMonthText(f);
    MonthOrder(f, f);
    LastMonthText();
  }

  lemma LegsAreNamed(on: Date, x: int)
    ensures forall k :: 0 <= k < 4 ==> Named(Legs(on, x)[k])
  {
  }

  lemma OneColumn(f: Month)
    ensures |PeriodTexts(Monthly, f, f)| == 1
  {
    hide ColumnTexts;
  }

  /** In every month, for every amount there is: a report is printed whose operating costs are
    * twice the amount, though no row behind them is other than a leg. */
  method PrintLegs(f: Month, x: int, currency: string) returns (printed: Printed)
    requires f < END - 1 && currency != "" && 0 < x <= MAX
    ensures |printed.report.lines| == |ORDER| && ORDER[5] == OPEX && 0 < |printed.report.lines[5].byPeriod|
    ensures printed.report.lines[5].byPeriod[0].amount == M.Amount(currency, Wrap(2 * x))
    ensures ValidStore(Legs(FirstOf(f), x))
    ensures
      var rows := CellRows(Legs(FirstOf(f), x), CellSelection(OneMonth(f), f, f, 0, SectionLine(OPEX)));
      SumInBase(rows) == 0 - 2 * x && LegsAmong(rows, PAIRED, false) == []
  {
    hide MonthText, ParseMonth, FirstOf, LastOf, HasReport, StripStands, Text.Less, LAST, CellRows, SumInBase,
      PeriodTexts, Legs,
      SelectionFor, CellSelection, InRange, Wrap, LegsAmong;
    AskedFor(f);
    LegsHaveReport(f, x, currency);
    CostsOfLegs(f, x);
    LegsAreNamed(FirstOf(f), x);
    NothingElse(Legs(FirstOf(f), x), CellSelection(OneMonth(f), f, f, 0, SectionLine(OPEX)), FirstOf(f), x);
    var r := ManagementPNL(Legs(FirstOf(f), x), PAIRED, OneMonth(f), currency);
    printed := r.value;
    OneColumn(f);
    CostsAreTurned(x);
    assert FigureOpens(printed.report.lines[5], ORDER[5], Legs(FirstOf(f), x), OneMonth(f), f, f, 0, currency);
  }

  lemma CostsAreTurned(x: int)
    ensures ORDER[5] == OPEX && OPEX in SECTIONS && Signed(0 - 2 * x, Turned(OPEX)) == 2 * x
  {
  }

  lemma {:induction false} NothingElse(store: seq<Entry>, sel: Selection, on: Date, x: int)
    requires ValidStore(store) && sel.from.Valid() && sel.to.Valid() && forall e :: e in store ==> e in Legs(on, x)
    ensures LegsAmong(CellRows(store, sel), PAIRED, false) == []
  {
    hide Selected, Legs;
    if store != [] {
      var before, e := store[..|store| - 1], store[|store| - 1];
      assert e in store && forall y :: y in before ==> y in store;
      NothingElse(before, sel, on, x);
      LegsAreLegs(e, on, x);
      var rows := CellRows(before, sel);
      assert (rows + [e])[..|rows|] == rows && rows + [] == rows;
    }
  }

  lemma LegsAreLegs(e: Entry, on: Date, x: int)
    requires e in Legs(on, x)
    ensures IsLeg(e, PAIRED)
  {
  }

  /** Of the largest amount there is, the costs print as -2, and no drill-down can say what the
    * rows behind them add up to. */
  method PrintWrapped(f: Month, currency: string) returns (printed: Printed)
    requires f < END - 1 && currency != ""
    ensures |printed.report.lines| == |ORDER| && ORDER[5] == OPEX && 0 < |printed.report.lines[5].byPeriod|
    ensures printed.report.lines[5].byPeriod[0].amount == M.Amount(currency, -2)
    ensures ValidStore(Legs(FirstOf(f), MAX))
    ensures LineTotal(Legs(FirstOf(f), MAX), CellSelection(OneMonth(f), f, f, 0, SectionLine(OPEX))) == Err(OutOfRange)
  {
    hide FirstOf, CellRows, SumInBase, Legs, CellSelection, Wrap, LegsAmong;
    printed := PrintLegs(f, MAX, currency);
    WrapsToMinusTwo();
  }

  lemma WrapsToMinusTwo()
    ensures Wrap(2 * MAX) == -2
  {
    assert Wrap(2 * MAX) == Wrap(2 * MAX - SPAN);
  }
}
