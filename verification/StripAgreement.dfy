/** Two ways of counting one period: the figures of the report, placed line by line, and the
  * strip at its foot, counted by sign and by transfer. They agree. */
module StripAgreement {
  import opened Wrappers
  import opened Calendar
  import opened Int64
  import opened Pnl
  import opened Ledger
  import opened PeriodColumns
  import opened GroupedReads
  import opened Reconciliation

  // ---- Which rows the report cannot place -----------------------------------------------------

  /** A transaction no line and no bucket can take: classified, on the P&L, allocated, and
    * in a section the taxonomy does not have. */
  predicate Stray(e: Entry, basis: Basis) {
    && e.kind == basis && e.live.Some?
    && e.live.value.code != "" && e.live.value.isPnl && !e.live.value.requiresAllocation
    && e.live.value.section !in SECTIONS && e.live.value.section !in NON_PNL_SECTIONS
  }

  predicate InScope(e: Entry, req: Request, from: Date, to: Date)
    requires e.bookedOn.Valid() && from.Valid() && to.Valid()
  {
    e.entity == req.entity && InDates(e.bookedOn, from, to)
  }

  ghost predicate NoStrays(store: seq<Entry>, req: Request, f: Month, t: Month)
    requires ValidStore(store)
  {
    forall k :: 0 <= k < |store| ==> !(InScope(store[k], req, FirstOf(f), LastOf(t)) && Stray(store[k], req.basis))
  }

  // ---- A row of the basis stands on one line, and moves the balance once ---------------------------

  /** Every line and bucket a row of the report's own basis can land on. */
  function BasisPlaces(): set<LineRef> {
    FirstSections(7) + {BucketLine(Unclassified), BucketLine(NonPnl), BucketLine(Unallocated)}
  }

  lemma PlaceOfBasis(e: Entry, read: Read, basis: Basis, row: Row)
    requires if read.Other? then row == Row(row.period, "", "", row.amount, false, false, e.kind)
             else row == RowOf(e, row.period, row.amount.currency)
    requires row.amount.minor == InBase(e) && (read.Other? <==> e.kind != basis)
    requires !Stray(e, basis)
    ensures Place(row, basis).Ok? && (Place(row, basis).value in BasisPlaces() <==> !read.Other?)
  {
    assert SECTIONS[..7] == SECTIONS;
  }

  lemma FallsInColumn(row: Row, req: Request, spec: Spec, f: Month, t: Month, i: nat, lines: set<LineRef>)
    requires Asks(req, spec, f, t) && i < |spec.periods|
    ensures Falls(spec, row, lines, i, i + 1)
       <==> Place(row, spec.basis).Ok? && Place(row, spec.basis).value in lines && row.period == spec.periods[i]
  {
    hide Place, Column, PeriodTexts, MonthText;
    ColumnOfPeriod(req.granularity, f, t, i, row.period);
  }

  /** A row a read returns counts in the basis's places of a column exactly when it is of the
    * basis and booked between the column's boundaries. */
  lemma ReadInBasis(read: Read, e: Entry, req: Request, spec: Spec, f: Month, t: Month, i: nat)
    requires e.bookedOn.Valid() && Asks(req, spec, f, t) && i < |spec.periods|
    requires Reads(read, e, req, FirstOf(f), LastOf(t)) && !Stray(e, req.basis)
    ensures Adds(read, e, req, f, t, spec, BasisPlaces(), i, i + 1)
         == if Booked(e, req, Boundary(req.granularity, f, t, i), Boundary(req.granularity, f, t, i + 1))
            then InBase(e) else 0
  {
    hide Falls, WithLabel, Place, BasisPlaces, FirstOf, LastOf, SelectionAt, MonthText, PeriodTexts, RowOf, Stray,
      InBase, FirstDay,
      DaysIn, ReadRow, Granularity.Column;
    LabelOfRead(read, e, req, spec, f, t, i);
    var row := WithLabel(req.granularity, ReadRow(read, e, spec.currency));
    FallsInColumn(row, req, spec, f, t, i, BasisPlaces());
    ReadShape(read, e, spec.currency, row);
    ReadShape(read, e, spec.currency, ReadRow(read, e, spec.currency));
    PlaceOfBasis(e, read, req.basis, row);
    BoundariesAscend(req.granularity, f, t, i);
  }

  lemma ReadOnceInBasis(e: Entry, req: Request, spec: Spec, f: Month, t: Month, i: nat)
    requires e.bookedOn.Valid() && Asks(req, spec, f, t) && i < |spec.periods|
    requires !(InScope(e, req, FirstOf(f), LastOf(t)) && Stray(e, req.basis))
    ensures
      Adds(Lines, e, req, f, t, spec, BasisPlaces(), i, i + 1)
      + Adds(Unanswered, e, req, f, t, spec, BasisPlaces(), i, i + 1)
      + Adds(Other, e, req, f, t, spec, BasisPlaces(), i, i + 1)
      == if Booked(e, req, Boundary(req.granularity, f, t, i), Boundary(req.granularity, f, t, i + 1))
      then InBase(e) else 0
  {
    hide BasisPlaces, InDates, FirstOf, LastOf, SelectionAt, PeriodTexts, Stray, Contribution, InBase, FirstDay, DaysIn;
    if Reads(Lines, e, req, FirstOf(f), LastOf(t)) {
      ReadInBasis(Lines, e, req, spec, f, t, i);
    } else if Reads(Unanswered, e, req, FirstOf(f), LastOf(t)) {
      ReadInBasis(Unanswered, e, req, spec, f, t, i);
    } else if Reads(Other, e, req, FirstOf(f), LastOf(t)) {
      ReadInBasis(Other, e, req, spec, f, t, i);
    } else {
      NotBooked(e, req, spec, f, t, i);
    }
  }

  lemma NotBooked(e: Entry, req: Request, spec: Spec, f: Month, t: Month, i: nat)
    requires e.bookedOn.Valid() && Asks(req, spec, f, t) && i < |spec.periods|
    requires e.entity != req.entity || !InDates(e.bookedOn, FirstOf(f), LastOf(t))
    ensures !Booked(e, req, Boundary(req.granularity, f, t, i), Boundary(req.granularity, f, t, i + 1))
  {
    hide FirstOf, LastOf, SelectionAt, PeriodTexts, FirstDay, DaysIn;
    SelectionInRange(e.bookedOn, req, spec, f, t, i);
    BoundariesAscend(req.granularity, f, t, i);
  }

  /** The three reads' rows of the basis, in one column, are what moved between its
    * boundaries. */
  lemma {:induction false} BasisIsMoved(store: seq<Entry>, pairs: Pairs, req: Request, spec: Spec, f: Month, t: Month,
                                        i: nat)
    requires ValidStore(store) && Asks(req, spec, f, t) && i < |spec.periods| && NoStrays(store, req, f, t)
    ensures
      ReadSum(store, Lines, req, spec, f, t, BasisPlaces(), i, i + 1)
      + ReadSum(store, Unanswered, req, spec, f, t, BasisPlaces(), i, i + 1)
      + ReadSum(store, Other, req, spec, f, t, BasisPlaces(), i, i + 1)
      == Moved(store, Every, pairs, req, Boundary(req.granularity, f, t, i), Boundary(req.granularity, f, t, i + 1))
  {
    hide ReadSum, Adds, BasisPlaces, FirstOf, LastOf, PeriodTexts, MonthText, Booked, Stray, InScope, Boundary, InBase,
      Asks;
    if store == [] {
      NothingRead(Lines, req, spec, f, t, BasisPlaces(), i, i + 1);
      NothingRead(Unanswered, req, spec, f, t, BasisPlaces(), i, i + 1);
      NothingRead(Other, req, spec, f, t, BasisPlaces(), i, i + 1);
    } else {
      var before, e := store[..|store| - 1], store[|store| - 1];
      assert store == before + [e];
      BasisIsMoved(before, pairs, req, spec, f, t, i);
      ReadSumStep(before, e, Lines, req, spec, f, t, BasisPlaces(), i, i + 1);
      ReadSumStep(before, e, Unanswered, req, spec, f, t, BasisPlaces(), i, i + 1);
      ReadSumStep(before, e, Other, req, spec, f, t, BasisPlaces(), i, i + 1);
      ReadOnceInBasis(e, req, spec, f, t, i);
    }
  }

  // ---- The report meets the strip ----------------------------------------------------------------

  /** Net income and the three buckets of the basis, as printed, are the period's movement as
    * the strip counts it. */
  ghost predicate MeetsStrip(report: Report, strip: Strip, i: nat) {
    && |report.lines| == |ORDER| && i < |report.lines[11].byPeriod|
    && (forall b :: b in report.buckets && i < |report.buckets[b]|)
    && Wrap(report.lines[11].byPeriod[i].amount.minor + report.buckets[Unclassified][i].minor
            + report.buckets[NonPnl][i].minor + report.buckets[Unallocated][i].minor)
       == Wrap(strip.inflow.minor - strip.outflow.minor - strip.transfers.minor)
  }

  lemma BasisPlacesAdd(spec: Spec, rows: seq<Row>, lo: nat, hi: nat)
    ensures In(spec, rows, BasisPlaces(), lo, hi)
         == In(spec, rows, FirstSections(7), lo, hi) + In(spec, rows, {BucketLine(Unclassified)}, lo, hi)
            + In(spec, rows, {BucketLine(NonPnl)}, lo, hi) + In(spec, rows, {BucketLine(Unallocated)}, lo, hi)
  {
    hide In, SectionsIn;
    var s, u, n, a := FirstSections(7), {BucketLine(Unclassified)}, {BucketLine(NonPnl)}, {BucketLine(Unallocated)};
    LinesAdd(spec, rows, s, u, lo, hi);
    LinesAdd(spec, rows, s + u, n, lo, hi);
    LinesAdd(spec, rows, s + u + n, a, lo, hi);
    assert s + u + n + a == BasisPlaces();
  }

  lemma WrapFour(a: int, b: int, c: int, d: int)
    ensures Wrap(Wrap(a) + Wrap(b) + Wrap(c) + Wrap(d)) == Wrap(a + b + c + d)
  {
    hide Wrap;
    WrapAdd(a, Wrap(b) + Wrap(c) + Wrap(d));
    WrapAdd(a + Wrap(c) + Wrap(d), b);
    WrapAdd(a + b + Wrap(d), c);
    WrapAdd(a + b + c, d);
  }

  lemma ReportMeetsStrip(report: Report, strip: Strip, rows: seq<Row>, store: seq<Entry>, pairs: Pairs, req: Request,
                         spec: Spec, f: Month, t: Month, i: nat)
    requires ValidStore(store) && Asks(req, spec, f, t) && i < |spec.periods| && NoStrays(store, req, f, t)
    requires Prints(report, spec, rows) && Balanced(strip, store, pairs, req, f, t, i, spec.currency)
    requires In(spec, rows, BasisPlaces(), i, i + 1)
          == ReadSum(store, Lines, req, spec, f, t, BasisPlaces(), i, i + 1)
             + ReadSum(store, Unanswered, req, spec, f, t, BasisPlaces(), i, i + 1)
             + ReadSum(store, Other, req, spec, f, t, BasisPlaces(), i, i + 1)
    ensures MeetsStrip(report, strip, i)
  {
    hide In, Wrap, Face, Moved, ReadSum, BasisPlaces, FirstSections, PeriodTexts, MonthText, Boundary, BalanceBefore,
      LegRows,
      NoStrays;
    BucketsPrint(report, spec, rows);
    NetIncome(spec, rows, i, i + 1);
    BasisPlacesAdd(spec, rows, i, i + 1);
    BasisIsMoved(store, pairs, req, spec, f, t, i);
    TermsCover(store, pairs, req, Boundary(req.granularity, f, t, i), Boundary(req.granularity, f, t, i + 1));
    WrapFour(In(spec, rows, FirstSections(7), i, i + 1), In(spec, rows, {BucketLine(Unclassified)}, i, i + 1),
             In(spec, rows, {BucketLine(NonPnl)}, i, i + 1), In(spec, rows, {BucketLine(Unallocated)}, i, i + 1));
    assert PrintsLine(report.lines[11], ORDER[11], spec, rows);
    assert PrintsBucket(report.buckets[Unclassified], report.totals[Unclassified], Unclassified, spec, rows);
    assert PrintsBucket(report.buckets[NonPnl], report.totals[NonPnl], NonPnl, spec, rows);
    assert PrintsBucket(report.buckets[Unallocated], report.totals[Unallocated], Unallocated, spec, rows);
  }

  // ---- The cells make the strip, exactly -----------------------------------------------------------

  /** The lines and buckets of the report's own basis. */
  const BASIS_LINES: seq<LineRef> := [
    SectionLine(NET_SALES), SectionLine(CS), SectionLine(OCS), SectionLine(OPEX), SectionLine(OIE), SectionLine(FR),
    SectionLine(CIT),
    BucketLine(Unclassified), BucketLine(NonPnl), BucketLine(Unallocated)]

  /** What the drill-downs of `lines` add up to in one column. */
  function CellsSum(store: seq<Entry>, req: Request, f: Month, t: Month, i: nat, lines: seq<LineRef>): int
    requires ValidStore(store) && f <= t < END && req.granularity.Column(f) + i <= req.granularity.Column(t)
  {
    if lines == [] then 0
    else SumInBase(CellRows(store, CellSelection(req, f, t, i, lines[0]))) + CellsSum(store, req, f, t, i, lines[1..])
  }

  /** How many of `lines` list a transaction. */
  function Listings(e: Entry, basis: Basis, lines: seq<LineRef>): nat {
    if lines == [] then 0 else (if OnLine(e, Wire(lines[0]), basis) then 1 else 0) + Listings(e, basis, lines[1..])
  }

  predicate InColumn(e: Entry, req: Request, f: Month, t: Month, i: nat)
    requires e.bookedOn.Valid() && f <= t < END && req.granularity.Column(f) + i <= req.granularity.Column(t)
  {
    var dates := SelectionAt(req.granularity, f, t, i);
    e.entity == req.entity && dates.0.Number() <= e.bookedOn.Number() <= dates.1.Number()
  }

  lemma {:induction false} CellsSnoc(before: seq<Entry>, e: Entry, req: Request, f: Month, t: Month, i: nat,
                                     lines: seq<LineRef>)
    requires ValidStore(before) && e.bookedOn.Valid() && ValidStore(before + [e])
    requires f <= t < END && req.granularity.Column(f) + i <= req.granularity.Column(t)
    ensures CellsSum(before + [e], req, f, t, i, lines)
         == CellsSum(before, req, f, t, i, lines)
            + if InColumn(e, req, f, t, i) then Listings(e, req.basis, lines) * InBase(e) else 0
  {
    hide CellRows, SumInBase, OnLine, Wire, InBase, SelectionAt, FirstDay, DaysIn;
    if lines != [] {
      CellsSnoc(before, e, req, f, t, i, lines[1..]);
      CellSnoc(before, e, before + [e], CellSelection(req, f, t, i, lines[0]));
      Distributes(if OnLine(e, Wire(lines[0]), req.basis) then 1 else 0, Listings(e, req.basis, lines[1..]), InBase(e));
    }
  }

  lemma Distributes(a: nat, b: nat, x: int)
    ensures (a + b) * x == a * x + b * x
  {
  }

  lemma {:induction false} NothingInCells(req: Request, f: Month, t: Month, i: nat, lines: seq<LineRef>)
    requires f <= t < END && req.granularity.Column(f) + i <= req.granularity.Column(t)
    ensures CellsSum([], req, f, t, i, lines) == 0
  {
    hide SelectionAt;
    if lines != [] {
      NothingInCells(req, f, t, i, lines[1..]);
    }
  }

  function Times(p: LineRef, lines: seq<LineRef>): nat {
    if lines == [] then 0 else (if lines[0] == p then 1 else 0) + Times(p, lines[1..])
  }

  lemma {:induction false} ListedWhereItStands(e: Entry, basis: Basis, p: LineRef, lines: seq<LineRef>)
    requires forall line :: line in lines ==> line in Places()
    requires e.kind == basis && Named(e) && Place(RowOf(e, "", ""), basis) == Ok(p)
    ensures Listings(e, basis, lines) == Times(p, lines)
  {
    hide OnLine, Wire, Places, Place;
    if lines != [] {
      assert lines[0] in lines;
      PlacedOn(e, basis, RowOf(e, "", ""), lines[0]);
      ListedWhereItStands(e, basis, p, lines[1..]);
    }
  }

  /** A transaction of the basis is listed by exactly one of its lines, one of the other
    * basis by none. */
  lemma ListedOnce(e: Entry, basis: Basis)
    requires Named(e) && !Stray(e, basis)
    ensures Listings(e, basis, BASIS_LINES) == if e.kind == basis then 1 else 0
  {
    hide Listings, OnLine, BASIS_LINES, Place, Stray, Times;
    BasisLinesArePlaces();
    if e.kind == basis {
      StandsOnBasisLine(e, basis);
      var p := Place(RowOf(e, "", ""), basis).value;
      OnceEach(p);
      ListedWhereItStands(e, basis, p, BASIS_LINES);
    } else {
      OtherBasisIsNoLine();
      NotListed(e, basis, BASIS_LINES);
    }
  }

  lemma StandsOnBasisLine(e: Entry, basis: Basis)
    requires e.kind == basis && !Stray(e, basis)
    ensures Place(RowOf(e, "", ""), basis).Ok? && Place(RowOf(e, "", ""), basis).value in BASIS_LINES
  {
    var section := if e.live.Some? then e.live.value.section else "";
    if section in SECTIONS {
      var k :| 0 <= k < |SECTIONS| && SECTIONS[k] == section;
      assert BASIS_LINES[k] == SectionLine(section);
    }
    assert BASIS_LINES[7] == BucketLine(Unclassified) && BASIS_LINES[8] == BucketLine(NonPnl);
    assert BASIS_LINES[9] == BucketLine(Unallocated);
    hide BASIS_LINES, SECTIONS;
  }

  lemma OtherBasisIsNoLine()
    ensures BucketLine(OtherBasis) !in BASIS_LINES
  {
  }

  lemma {:induction false} TimesInDistinct(p: LineRef, lines: seq<LineRef>)
    requires forall j, k :: 0 <= j < k < |lines| ==> lines[j] != lines[k]
    ensures Times(p, lines) == if p in lines then 1 else 0
  {
    if lines != [] {
      TimesInDistinct(p, lines[1..]);
      assert lines == [lines[0]] + lines[1..];
      assert forall k :: 0 <= k < |lines| - 1 ==> lines[1..][k] == lines[k + 1];
    }
  }

  lemma OnceEach(p: LineRef)
    requires p in BASIS_LINES
    ensures Times(p, BASIS_LINES) == 1
    ensures forall line :: line in BASIS_LINES ==> line in Places()
  {
    hide Times, BASIS_LINES, Places;
    BasisLinesDiffer();
    BasisLinesArePlaces();
    TimesInDistinct(p, BASIS_LINES);
  }

  lemma BasisLinesDiffer()
    ensures forall j, k :: 0 <= j < k < |BASIS_LINES| ==> BASIS_LINES[j] != BASIS_LINES[k]
  {
    var lines := BASIS_LINES;
    assert forall k :: 0 <= k < 7 ==> lines[k].SectionLine? && lines[k].code[1] as int == '1' as int + k;
    assert lines[7] == BucketLine(Unclassified) && lines[8] == BucketLine(NonPnl)
           && lines[9] == BucketLine(Unallocated);
    hide BASIS_LINES;
  }

  lemma BasisLinesArePlaces()
    ensures forall line :: line in BASIS_LINES ==> line in Places()
  {
  }

  lemma {:induction false} NotListed(e: Entry, basis: Basis, lines: seq<LineRef>)
    requires e.kind != basis && BucketLine(OtherBasis) !in lines && forall line :: line in lines ==> line in Places()
    ensures Listings(e, basis, lines) == 0
  {
    hide Places, Wire;
    if lines != [] {
      assert lines[0] in lines && forall line :: line in lines[1..] ==> line in lines;
      WireIsOther(lines[0]);
      NotListed(e, basis, lines[1..]);
    }
  }

  /** The drill-downs of one column, together and without rounding, are the strip's in less
    * out less transfers. */
  lemma {:induction false} CellsAreMoved(store: seq<Entry>, pairs: Pairs, req: Request, f: Month, t: Month, i: nat)
    requires ValidStore(store) && f <= t < END && req.granularity.Column(f) + i <= req.granularity.Column(t)
    requires NoStrays(store, req, f, t) && forall k :: 0 <= k < |store| ==> Named(store[k])
    ensures CellsSum(store, req, f, t, i, BASIS_LINES)
         == Moved(store, Every, pairs, req, Boundary(req.granularity, f, t, i),
                  Boundary(req.granularity, f, t, i + 1))
  {
    hide CellsSum, BASIS_LINES, Listings, FirstOf, LastOf, Stray, InBase, Named, SelectionAt, FirstDay, DaysIn,
      Boundary, Booked,
      InColumn, InScope;
    if store == [] {
      NothingInCells(req, f, t, i, BASIS_LINES);
    } else {
      var before, e := store[..|store| - 1], store[|store| - 1];
      assert store == before + [e];
      CellsAreMoved(before, pairs, req, f, t, i);
      CellsSnoc(before, e, req, f, t, i, BASIS_LINES);
      BookedInColumn(e, req, f, t, i);
      if InColumn(e, req, f, t, i) {
        ListedOnce(e, req.basis);
      }
    }
  }

  lemma BookedInColumn(e: Entry, req: Request, f: Month, t: Month, i: nat)
    requires e.bookedOn.Valid() && f <= t < END && req.granularity.Column(f) + i <= req.granularity.Column(t)
    ensures Booked(e, req, Boundary(req.granularity, f, t, i), Boundary(req.granularity, f, t, i + 1))
       <==> InColumn(e, req, f, t, i) && e.kind == req.basis
    ensures InColumn(e, req, f, t, i) ==> InScope(e, req, FirstOf(f), LastOf(t))
  {
    hide FirstOf, LastOf, FirstDay, DaysIn, SelectionAt, Granularity.Column;
    BoundariesAscend(req.granularity, f, t, i);
    ColumnInRangeDates(e.bookedOn, req.granularity, f, t, i);
  }

  // ---- Where the strip fits, so do the figures that hold no transfers -----------------------------------

  /** A cell of rows that are no transfers lies between what went out and what came in. */
  lemma {:induction false} CellWithin(store: seq<Entry>, pairs: Pairs, req: Request, f: Month, t: Month, i: nat,
                                      line: LineRef)
    requires ValidStore(store) && f <= t < END && req.granularity.Column(f) + i <= req.granularity.Column(t)
    requires line in Places() && line != BucketLine(OtherBasis)
    requires forall e :: e in CellRows(store, CellSelection(req, f, t, i, line)) ==> !IsLeg(e, pairs)
    ensures
      var lo, hi := Boundary(req.granularity, f, t, i), Boundary(req.granularity, f, t, i + 1);
      Moved(store, Outflow, pairs, req, lo, hi) <= SumInBase(CellRows(store, CellSelection(req, f, t, i, line)))
   <= Moved(store, Inflow, pairs, req, lo, hi)
  {
    hide SelectionAt, Selected, IsLeg, InBase, Boundary, Places, FirstDay, DaysIn, Booked;
    if store != [] {
      var before, e := store[..|store| - 1], store[|store| - 1];
      assert store == before + [e];
      var sel := CellSelection(req, f, t, i, line);
      var rows := CellRows(before, sel);
      assert forall x :: x in rows ==> x in CellRows(store, sel);
      CellWithin(before, pairs, req, f, t, i, line);
      CellSnoc(before, e, store, sel);
      if Selected(e, sel) {
        assert e in CellRows(store, sel);
        SelectedIsBooked(e, req, f, t, i, line);
      }
    }
  }

  lemma SelectedIsBooked(e: Entry, req: Request, f: Month, t: Month, i: nat, line: LineRef)
    requires e.bookedOn.Valid() && f <= t < END && req.granularity.Column(f) + i <= req.granularity.Column(t)
    requires line in Places() && line != BucketLine(OtherBasis) && Selected(e, CellSelection(req, f, t, i, line))
    ensures Booked(e, req, Boundary(req.granularity, f, t, i), Boundary(req.granularity, f, t, i + 1))
  {
    hide SelectionAt, FirstDay, DaysIn, Boundary, Booked;
    BookedInColumn(e, req, f, t, i);
    WireIsOther(line);
  }

  lemma WireIsOther(line: LineRef)
    requires line in Places()
    ensures Wire(line) == "other_basis" <==> line == BucketLine(OtherBasis)
  {
    if line.SectionLine? {
      SectionWire(line.code);
    }
  }

  /** So where the strip can be drawn, a drill-down without transfers can be summed, and its
    * sum negated. */
  lemma CellFits(store: seq<Entry>, pairs: Pairs, req: Request, f: Month, t: Month, i: nat, line: LineRef)
    requires ValidStore(store) && f <= t < END && req.granularity.Column(f) + i <= req.granularity.Column(t)
    requires line in Places() && line != BucketLine(OtherBasis)
    requires forall e :: e in CellRows(store, CellSelection(req, f, t, i, line)) ==> !IsLeg(e, pairs)
    requires PeriodSums(
               store, pairs, req, Boundary(req.granularity, f, t, i), Boundary(req.granularity, f, t, i + 1)).Ok?
    ensures
      var sum := SumInBase(CellRows(store, CellSelection(req, f, t, i, line)));
      Fits(sum) && Fits(0 - sum)
  {
    hide CellRows, SumInBase, Places, Boundary, Moved, CellSelection, LegRows;
    CellWithin(store, pairs, req, f, t, i, line);
  }
}
