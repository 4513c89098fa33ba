/** The management P&L: rows are placed on a section or in a bucket, a signed chain is
  * folded over the sections, and costs are printed positive. */
module Pnl {
  import opened Wrappers
  import opened Int64
  import M = Money

  datatype Basis = Ledger | Bank

  datatype Bucket = Unclassified | NonPnl | Unallocated | OtherBasis

  /** What a cell is addressed by: a section or computed line of the table, or a bucket. */
  datatype LineRef = SectionLine(code: string) | BucketLine(bucket: Bucket)

  datatype Row = Row(
    period: string, categoryCode: string, section: string, amount: M.Amount,
    isPnl: bool, requiresAllocation: bool, sourceKind: Basis)

  datatype Spec = Spec(basis: Basis, periods: seq<string>, currency: string)

  datatype Error = NoBaseCurrency | NoPeriods | PeriodNotRequested | OtherCurrency | NotASection

  datatype Figure = Figure(amount: M.Amount, percentOfRevenue: Option<real>)

  datatype Line = Line(code: string, computed: bool, byPeriod: seq<Figure>, total: Figure)

  datatype Report = Report(lines: seq<Line>, buckets: map<Bucket, seq<M.Amount>>, totals: map<Bucket, M.Amount>)

  const NET_SALES := "01"
  const CS := "02"
  const OCS := "03"
  const OPEX := "04"
  const OIE := "05"
  const FR := "06"
  const CIT := "07"
  const CAPEX := "08"
  const OUT_OF_PNL := "09"
  const GM := "91"
  const NM := "92"
  const CM := "93"
  const IBT := "94"
  const NI := "95"

  const SECTIONS: seq<string> := [NET_SALES, CS, OCS, OPEX, OIE, FR, CIT]
  const NON_PNL_SECTIONS: seq<string> := [CAPEX, OUT_OF_PNL]

  /** The table as it is printed. */
  const ORDER: seq<string> := [NET_SALES, CS, GM, OCS, NM, OPEX, OIE, CM, FR, IBT, CIT, NI]

  /** One computed line. A `minus` operand is a cost, already negative in the store, so
    * the arithmetic adds it. */
  datatype ComputedLine = ComputedLine(code: string, plus: seq<string>, minus: seq<string>)

  const CHAIN: seq<ComputedLine> := [
    ComputedLine(GM, [NET_SALES], [CS]),
    ComputedLine(NM, [GM], [OCS]),
    ComputedLine(CM, [NM], [OPEX, OIE]),
    ComputedLine(IBT, [CM], [FR]),
    ComputedLine(NI, [IBT], [CIT])
  ]

  // ---- Placing a row ------------------------------------------------------------------

  /** Where a row of a report goes. */
  function Place(row: Row, basis: Basis): Result<LineRef, Error> {
    if row.sourceKind != basis then Ok(BucketLine(OtherBasis))
    else if row.categoryCode == "" then Ok(BucketLine(Unclassified))
    else if !row.isPnl then Ok(BucketLine(NonPnl))
    else if row.requiresAllocation then Ok(BucketLine(Unallocated))
    else if row.section in SECTIONS then Ok(SectionLine(row.section))
    else if row.section in NON_PNL_SECTIONS then Ok(BucketLine(NonPnl))
    else Err(NotASection)
  }

  /** The column of a period: the last one of that name. */
  function Column(periods: seq<string>, period: string): (i: Option<nat>)
    ensures i.Some? ==> i.value < |periods| && periods[i.value] == period
    ensures i.None? <==> period !in periods
  {
    if periods == [] then None
    else if periods[|periods| - 1] == period then Some(|periods| - 1)
    else
      var i := Column(periods[..|periods| - 1], period);
      assert periods == periods[..|periods| - 1] + [periods[|periods| - 1]];
      i
  }

  predicate Accepts(spec: Spec, row: Row) {
    && row.period in spec.periods
    && row.amount.currency == spec.currency
    && Place(row, spec.basis).Ok?
  }

  /** Why a row stops the report. */
  function Fault(spec: Spec, row: Row): Error {
    if row.period !in spec.periods then PeriodNotRequested
    else if row.amount.currency != spec.currency then OtherCurrency
    else NotASection
  }

  ghost predicate AllAccepted(spec: Spec, rows: seq<Row>) {
    forall k :: 0 <= k < |rows| ==> Accepts(spec, rows[k])
  }

  // ---- What a region of the report adds up to ---------------------------------------------

  /** Does a row land on one of `lines`, in one of the columns `lo` up to `hi`? */
  predicate Falls(spec: Spec, row: Row, lines: set<LineRef>, lo: nat, hi: nat) {
    var place, column := Place(row, spec.basis), Column(spec.periods, row.period);
    place.Ok? && place.value in lines && column.Some? && lo <= column.value < hi
  }

  /** The exact sum of the rows in a region. */
  function In(spec: Spec, rows: seq<Row>, lines: set<LineRef>, lo: nat, hi: nat): int {
    if rows == [] then 0
    else
      var row := rows[|rows| - 1];
      In(spec, rows[..|rows| - 1], lines, lo, hi) + if Falls(spec, row, lines, lo, hi) then row.amount.minor else 0
  }

  function Total(rows: seq<Row>): int {
    if rows == [] then 0 else Total(rows[..|rows| - 1]) + rows[|rows| - 1].amount.minor
  }

  function Magnitude(rows: seq<Row>): nat {
    if rows == [] then 0
    else
      var amount := rows[|rows| - 1].amount.minor;
      Magnitude(rows[..|rows| - 1]) + if amount < 0 then 0 - amount else amount
  }

  lemma {:induction false} InIsBounded(spec: Spec, rows: seq<Row>, lines: set<LineRef>, lo: nat, hi: nat)
    ensures 0 - Magnitude(rows) <= In(spec, rows, lines, lo, hi) <= Magnitude(rows)
  {
    hide Falls;
    if rows != [] {
      InIsBounded(spec, rows[..|rows| - 1], lines, lo, hi);
    }
  }

  lemma {:induction false} MagnitudeOfPrefix(rows: seq<Row>, k: nat)
    requires k <= |rows|
    ensures Magnitude(rows[..k]) <= Magnitude(rows)
  {
    if k == |rows| {
      assert rows[..k] == rows;
    } else {
      MagnitudeOfPrefix(rows[..|rows| - 1], k);
      assert rows[..|rows| - 1][..k] == rows[..k];
    }
  }

  /** Disjoint lines add. */
  lemma {:induction false} LinesAdd(spec: Spec, rows: seq<Row>, a: set<LineRef>, b: set<LineRef>, lo: nat, hi: nat)
    requires a !! b
    ensures In(spec, rows, a + b, lo, hi) == In(spec, rows, a, lo, hi) + In(spec, rows, b, lo, hi)
  {
    hide Place, Column;
    if rows != [] {
      LinesAdd(spec, rows[..|rows| - 1], a, b, lo, hi);
    }
  }

  /** Neighbouring columns add. */
  lemma {:induction false} ColumnsAdd(spec: Spec, rows: seq<Row>, lines: set<LineRef>, lo: nat, mid: nat, hi: nat)
    requires lo <= mid <= hi
    ensures In(spec, rows, lines, lo, hi) == In(spec, rows, lines, lo, mid) + In(spec, rows, lines, mid, hi)
  {
    hide Place, Column;
    if rows != [] {
      ColumnsAdd(spec, rows[..|rows| - 1], lines, lo, mid, hi);
    }
  }

  lemma {:induction false} NoColumns(spec: Spec, rows: seq<Row>, lines: set<LineRef>, lo: nat)
    ensures In(spec, rows, lines, lo, lo) == 0
  {
    hide Place, Column;
    if rows != [] {
      NoColumns(spec, rows[..|rows| - 1], lines, lo);
    }
  }

  /** Every line and bucket a row can land on. */
  function Places(): set<LineRef> {
    SectionsIn(SECTIONS) + {BucketLine(Unclassified), BucketLine(NonPnl), BucketLine(Unallocated),
                            BucketLine(OtherBasis)}
  }

  function SectionsIn(codes: seq<string>): (lines: set<LineRef>)
    ensures forall line :: line in lines <==> line.SectionLine? && line.code in codes && line.code in SECTIONS
  {
    set code | code in codes && code in SECTIONS :: SectionLine(code)
  }

  lemma PlaceIsAPlace(row: Row, basis: Basis)
    ensures Place(row, basis).Ok? ==> Place(row, basis).value in Places()
  {
  }


  // ---- Compute ----------------------------------------------------------------------------

  /** Section and bucket sums, one series of columns each. */
  type Cells = map<LineRef, seq<int>>

  /** Each cell holds what int64 keeps of the exact sum of its rows. */
  ghost predicate Holds(cells: Cells, spec: Spec, rows: seq<Row>) {
    && cells.Keys == Places()
    && (forall line :: line in cells ==> Series(cells[line], spec, rows, {line}))
  }

  ghost predicate Series(series: seq<int>, spec: Spec, rows: seq<Row>, lines: set<LineRef>) {
    && |series| == |spec.periods|
    && (forall i :: 0 <= i < |series| ==> series[i] == Wrap(In(spec, rows, lines, i, i + 1)))
  }

  method IndexOf(periods: seq<string>) returns (index: map<string, nat>)
    ensures forall p :: p in index <==> p in periods
    ensures forall p :: p in index ==> Column(periods, p) == Some(index[p])
  {
    index := map[];
    for i := 0 to |periods|
      invariant forall p :: p in index <==> p in periods[..i]
      invariant forall p :: p in index ==> Column(periods[..i], p) == Some(index[p])
    {
      assert periods[..i + 1][..i] == periods[..i];
      index := index[periods[i] := i];
    }
    assert periods[..|periods|] == periods;
  }

  function Zeros(n: nat): (s: seq<int>)
    ensures |s| == n && forall i :: 0 <= i < n ==> s[i] == 0
  {
    if n == 0 then [] else Zeros(n - 1) + [0]
  }

  lemma CellGrows(spec: Spec, rows: seq<Row>, row: Row, line: LineRef, column: nat, other: LineRef, i: nat)
    requires Place(row, spec.basis) == Ok(line) && Column(spec.periods, row.period) == Some(column)
    ensures In(spec, rows + [row], {other}, i, i + 1)
         == In(spec, rows, {other}, i, i + 1) + if other == line && i == column then row.amount.minor else 0
  {
    hide Place, Column;
    assert (rows + [row])[..|rows|] == rows;
  }

  /** One row added to its cell. */
  lemma RowPlaced(cells: Cells, spec: Spec, rows: seq<Row>, row: Row, line: LineRef, column: nat)
    requires Holds(cells, spec, rows)
    requires Place(row, spec.basis) == Ok(line) && Column(spec.periods, row.period) == Some(column)
    ensures line in cells && column < |cells[line]|
    ensures
      var after := cells[line := cells[line][column := Wrap(cells[line][column] + row.amount.minor)]];
      Holds(after, spec, rows + [row])
  {
    PlaceIsAPlace(row, spec.basis);
    hide Place, Column, In, Places, Wrap;
    assert Series(cells[line], spec, rows, {line});
    var after := cells[line := cells[line][column := Wrap(cells[line][column] + row.amount.minor)]];
    forall other | other in after
      ensures Series(after[other], spec, rows + [row], {other})
    {
      assert Series(cells[other], spec, rows, {other});
      forall i | 0 <= i < |after[other]|
        ensures after[other][i] == Wrap(In(spec, rows + [row], {other}, i, i + 1))
      {
        CellGrows(spec, rows, row, line, column, other, i);
        WrapAdd(In(spec, rows, {other}, i, i + 1), row.amount.minor);
      }
    }
  }

  /** The rows up to the first one that stops the report, added to their cells. The
    * ghost result says whether any addition left the range of int64. */
  method Accumulate(spec: Spec, rows: seq<Row>) returns (r: Result<Cells, Error>, ghost overflowed: bool)
    ensures r.Ok? <==> AllAccepted(spec, rows)
    ensures r.Ok? ==> Holds(r.value, spec, rows)
    ensures r.Err? ==> exists k ::
                && 0 <= k < |rows| && AllAccepted(spec, rows[..k]) && !Accepts(spec, rows[k])
                && r.error == Fault(spec, rows[k])
    ensures Magnitude(rows) <= MAX ==> !overflowed
  {
    hide Place, Column, In, Places, Wrap, Magnitude;

    var index := IndexOf(spec.periods);
    var cells: Cells := map line | line in Places() :: Zeros(|spec.periods|);
    overflowed := false;
    NothingYet(cells, spec);
    for k := 0 to |rows|
      invariant AllAccepted(spec, rows[..k])
      invariant Holds(cells, spec, rows[..k])
      invariant Magnitude(rows) <= MAX ==> !overflowed
    {
      var row := rows[k];
      if row.period !in index {
        return Err(PeriodNotRequested), overflowed;
      }
      if row.amount.currency != spec.currency {
        return Err(OtherCurrency), overflowed;
      }
      var place := Place(row, spec.basis);
      if place.Err? {
        PlaceFaults(row, spec.basis);
        return Err(place.error), overflowed;
      }
      var line, i := place.value, index[row.period];
      RowPlaced(cells, spec, rows[..k], row, line, i);
      if Magnitude(rows) <= MAX {
        NoOverflow(spec, rows, k, {line}, i, i + 1);
        NoOverflow(spec, rows, k + 1, {line}, i, i + 1);
        CellGrows(spec, rows[..k], row, line, i, line, i);
        assert Series(cells[line], spec, rows[..k], {line});
        assert rows[..k + 1] == rows[..k] + [row];
      }
      overflowed := overflowed || !Fits(cells[line][i] + row.amount.minor);
      cells := cells[line := cells[line][i := Wrap(cells[line][i] + row.amount.minor)]];
      assert rows[..k + 1] == rows[..k] + [row];
    }
    assert rows[..|rows|] == rows;
    r := Ok(cells);
  }

  lemma PlaceFaults(row: Row, basis: Basis)
    requires Place(row, basis).Err?
    ensures Place(row, basis).error == NotASection
  {
  }

  lemma NothingYet(cells: Cells, spec: Spec)
    requires cells == map line | line in Places() :: Zeros(|spec.periods|)
    ensures Holds(cells, spec, [])
  {
    hide Places, Place, Column;
  }

  /** While the amounts together stay within int64, so does every partial sum. */
  lemma NoOverflow(spec: Spec, rows: seq<Row>, k: nat, lines: set<LineRef>, lo: nat, hi: nat)
    requires k <= |rows| && Magnitude(rows) <= MAX
    ensures Fits(In(spec, rows[..k], lines, lo, hi)) && Fits(0 - In(spec, rows[..k], lines, lo, hi))
    ensures Wrap(In(spec, rows[..k], lines, lo, hi)) == In(spec, rows[..k], lines, lo, hi)
  {
    hide In, Magnitude, Wrap;
    InIsBounded(spec, rows[..k], lines, lo, hi);
    MagnitudeOfPrefix(rows, k);
  }

  // ---- The chain --------------------------------------------------------------------------

  predicate IsComputed(code: string) {
    exists k :: 0 <= k < |CHAIN| && CHAIN[k].code == code
  }

  /** How many sections stand above a computed line in the table. */
  function Reach(code: string): (n: nat)
    ensures n <= |SECTIONS|
  {
    if code == GM then 2 else if code == NM then 3 else if code == CM then 5 else if code == IBT then 6
    else if code == NI then 7 else 0
  }

  function FirstSections(n: nat): set<LineRef>
    requires n <= |SECTIONS|
  {
    SectionsIn(SECTIONS[..n])
  }

  /** The sections a line of the table is made of: itself, or every section above it. */
  function Behind(code: string): set<LineRef> {
    if IsComputed(code) then FirstSections(Reach(code)) else {SectionLine(code)}
  }

  lemma NextSection(n: nat)
    requires n < |SECTIONS|
    ensures FirstSections(n + 1) == FirstSections(n) + {SectionLine(SECTIONS[n])}
    ensures FirstSections(n) !! {SectionLine(SECTIONS[n])}
    ensures SectionLine(SECTIONS[n]) in Places()
  {
    assert SECTIONS[..n + 1] == SECTIONS[..n] + [SECTIONS[n]];
    assert SECTIONS[n] !in SECTIONS[..n];
  }

  /** The reach of the line a step starts from. */
  function Start(k: nat): (n: nat)
    requires k < |CHAIN|
    ensures 1 <= n <= |SECTIONS|
  {
    if k == 0 then 1 else if k == 1 then 2 else if k == 2 then 3 else if k == 3 then 5 else 6
  }

  /** A step starts from the line above it and takes the sections between, one by one. */
  lemma ChainShape(k: nat)
    requires k < |CHAIN|
    ensures
      var step := CHAIN[k];
      && step.plus == [if k == 0 then NET_SALES else CHAIN[k - 1].code]
      && (k > 0 ==> Reach(CHAIN[k - 1].code) == Start(k))
      && Start(k) + |step.minus| == Reach(step.code)
      && (forall j :: 0 <= j < |step.minus| ==> step.minus[j] == SECTIONS[Start(k) + j])
      && IsComputed(step.code)
  {
    assert CHAIN[k].code == CHAIN[k].code;
  }

  lemma SeriesOfNothing(spec: Spec, rows: seq<Row>)
    ensures Series(Zeros(|spec.periods|), spec, rows, {})
  {
    hide Place, Column;
    forall i | 0 <= i < |spec.periods|
      ensures Zeros(|spec.periods|)[i] == Wrap(In(spec, rows, {}, i, i + 1))
    {
      var none: set<LineRef> := {};
      LinesAdd(spec, rows, none, none, i, i + 1);
      assert none + none == none;
    }
  }

  method AddInto(dst: seq<int>, src: seq<int>, ghost spec: Spec, ghost rows: seq<Row>,
                 ghost a: set<LineRef>, ghost b: set<LineRef>)
    returns (out: seq<int>, ghost overflowed: bool)
    requires Series(dst, spec, rows, a) && Series(src, spec, rows, b) && a !! b
    ensures |out| == |dst| && forall i :: 0 <= i < |dst| ==> out[i] == Wrap(dst[i] + src[i])
    ensures Series(out, spec, rows, a + b)
    ensures Magnitude(rows) <= MAX ==> !overflowed
  {
    hide In, Wrap, Magnitude;
    out := dst;
    overflowed := false;
    for i := 0 to |dst|
      invariant |out| == |dst| && out[i..] == dst[i..]
      invariant forall j :: 0 <= j < i ==> out[j] == Wrap(dst[j] + src[j])
      invariant forall j :: 0 <= j < i ==> out[j] == Wrap(In(spec, rows, a + b, j, j + 1))
      invariant Magnitude(rows) <= MAX ==> !overflowed
    {
      assert out[i] == dst[i];
      LinesAdd(spec, rows, a, b, i, i + 1);
      WrapSum(In(spec, rows, a, i, i + 1), In(spec, rows, b, i, i + 1));
      if Magnitude(rows) <= MAX {
        WholeIsExact(spec, rows, a, i, i + 1);
        WholeIsExact(spec, rows, b, i, i + 1);
        WholeIsExact(spec, rows, a + b, i, i + 1);
      }
      overflowed := overflowed || !Fits(out[i] + src[i]);
      out := out[i := Wrap(out[i] + src[i])];
    }
  }

  lemma WrapSum(a: int, b: int)
    ensures Wrap(Wrap(a) + Wrap(b)) == Wrap(a + b)
  {
    hide Wrap;
    WrapAdd(a, Wrap(b));
    WrapAdd(a, b);
  }

  lemma WholeIsExact(spec: Spec, rows: seq<Row>, lines: set<LineRef>, lo: nat, hi: nat)
    requires Magnitude(rows) <= MAX
    ensures var exact := In(spec, rows, lines, lo, hi);
            Fits(exact) && Fits(0 - exact) && Wrap(exact) == exact && Wrap(0 - exact) == 0 - exact
  {
    hide In, Magnitude, Wrap;
    NoOverflow(spec, rows, |rows|, lines, lo, hi);
    assert rows[..|rows|] == rows;
  }

  type Computed = map<string, seq<int>>

  ghost predicate ChainDone(computed: Computed, k: nat, spec: Spec, rows: seq<Row>)
    requires k <= |CHAIN|
  {
    forall j :: 0 <= j < k ==>
                  CHAIN[j].code in computed
                  && Series(computed[CHAIN[j].code], spec, rows, FirstSections(Reach(CHAIN[j].code)))
  }

  /** A section's own series, or the computed line's. */
  function Value(cells: Cells, computed: Computed, code: string): seq<int>
    requires SectionLine(code) in cells || code in computed
  {
    if SectionLine(code) in cells then cells[SectionLine(code)] else computed[code]
  }

  lemma FirstSection()
    ensures FirstSections(1) == {SectionLine(NET_SALES)} && SectionLine(NET_SALES) in Places()
  {
    NextSection(0);
    assert FirstSections(0) == {};
  }

  lemma ResultIsNoPlace(k: nat)
    requires k < |CHAIN|
    ensures SectionLine(CHAIN[k].code) !in Places()
  {
    hide SectionsIn;
  }

  lemma StartValue(k: nat, cells: Cells, computed: Computed, spec: Spec, rows: seq<Row>)
    requires k < |CHAIN| && Holds(cells, spec, rows) && ChainDone(computed, k, spec, rows)
    ensures var code := CHAIN[k].plus[0];
            && (SectionLine(code) in cells || code in computed)
            && Series(Value(cells, computed, code), spec, rows, FirstSections(Start(k)))
  {
    ChainShape(k);
    assert Start(0) == 1;
    hide Series, FirstSections, CHAIN, Places, Start, Reach;
    if k == 0 {
      FirstSection();
    } else {
      ResultIsNoPlace(k - 1);
    }
  }

  lemma CostValue(k: nat, j: nat, cells: Cells, computed: Computed, spec: Spec, rows: seq<Row>)
    requires k < |CHAIN| && j < |CHAIN[k].minus| && Holds(cells, spec, rows)
    ensures var n, code := Start(k) + j, CHAIN[k].minus[j];
            && n < |SECTIONS|
            && SectionLine(code) in cells
            && Series(Value(cells, computed, code), spec, rows, {SectionLine(SECTIONS[n])})
            && FirstSections(n) !! {SectionLine(SECTIONS[n])}
            && FirstSections(n) + {SectionLine(SECTIONS[n])} == FirstSections(n + 1)
  {
    hide Series, FirstSections;
    ChainShape(k);
    NextSection(Start(k) + j);
  }

  /** One computed line: its operands, added to a series of zeros. */
  method FoldStep(k: nat, cells: Cells, computed: Computed, n: nat, ghost spec: Spec, ghost rows: seq<Row>)
    returns (out: seq<int>, ghost overflowed: bool)
    requires k < |CHAIN| && n == |spec.periods|
    requires Holds(cells, spec, rows) && ChainDone(computed, k, spec, rows)
    ensures Series(out, spec, rows, FirstSections(Reach(CHAIN[k].code)))
    ensures Magnitude(rows) <= MAX ==> !overflowed
  {
    hide Series, In, Wrap, Magnitude, Places, Reach, SectionsIn, Start, FirstSections, CHAIN, SECTIONS, Holds,
      ChainDone, Value;

    ChainShape(k);
    SeriesOfNothing(spec, rows);
    StartValue(k, cells, computed, spec, rows);
    var step := CHAIN[k];
    out, overflowed := AddInto(
      Zeros(n), Value(cells, computed, step.plus[0]), spec, rows, {}, FirstSections(Start(k)));
    assert {} + FirstSections(Start(k)) == FirstSections(Start(k));
    for j := 0 to |step.minus|
      invariant Start(k) + j <= |SECTIONS|
      invariant Series(out, spec, rows, FirstSections(Start(k) + j))
      invariant Magnitude(rows) <= MAX ==> !overflowed
    {
      ghost var more;
      CostValue(k, j, cells, computed, spec, rows);
      out, more := AddInto(
        out, Value(cells, computed, step.minus[j]), spec, rows,
        FirstSections(Start(k) + j), {SectionLine(SECTIONS[Start(k) + j])});
      overflowed := overflowed || more;
    }
  }

  /** The computed lines, each built from sections and from the lines before it. */
  method FoldChain(cells: Cells, n: nat, ghost spec: Spec, ghost rows: seq<Row>)
    returns (computed: Computed, ghost overflowed: bool)
    requires n == |spec.periods| && Holds(cells, spec, rows)
    ensures ChainDone(computed, |CHAIN|, spec, rows)
    ensures Magnitude(rows) <= MAX ==> !overflowed
  {
    hide Series, Magnitude, Places, Reach, FirstSections, Holds;

    computed := map[];
    overflowed := false;
    for k := 0 to |CHAIN|
      invariant ChainDone(computed, k, spec, rows)
      invariant Magnitude(rows) <= MAX ==> !overflowed
    {
      var out;
      ghost var more;
      out, more := FoldStep(k, cells, computed, n, spec, rows);
      computed := computed[CHAIN[k].code := out];
      overflowed := overflowed || more;
    }
  }

  // ---- The printed report -----------------------------------------------------------------

  /** Is a line printed with its sign turned? Costs are; revenue and results are not. */
  predicate Turned(code: string) {
    code != NET_SALES && !IsComputed(code)
  }

  function Signed(x: int, turned: bool): int {
    if turned then 0 - x else x
  }

  /** The exact figure of a line over columns `lo` up to `hi`, in the sign it is printed in. */
  function Face(spec: Spec, rows: seq<Row>, code: string, lo: nat, hi: nat): int {
    Signed(In(spec, rows, Behind(code), lo, hi), Turned(code))
  }

  ghost predicate Shows(series: seq<int>, spec: Spec, rows: seq<Row>, code: string) {
    && |series| == |spec.periods|
    && (forall i :: 0 <= i < |series| ==> series[i] == Wrap(Face(spec, rows, code, i, i + 1)))
  }

  /** present: a cost section's series with every sign turned. */
  method Present(series: seq<int>, code: string, ghost spec: Spec, ghost rows: seq<Row>)
    returns (out: seq<int>, ghost overflowed: bool)
    requires !IsComputed(code) && Series(series, spec, rows, {SectionLine(code)})
    ensures Shows(out, spec, rows, code)
    ensures Magnitude(rows) <= MAX ==> !overflowed
  {
    hide In, Wrap, Magnitude, IsComputed;
    out := series;
    overflowed := false;
    if code == NET_SALES {
      return;
    }
    for i := 0 to |series|
      invariant |out| == |series| && out[i..] == series[i..]
      invariant forall j :: 0 <= j < i ==> out[j] == Wrap(Face(spec, rows, code, j, j + 1))
      invariant Magnitude(rows) <= MAX ==> !overflowed
    {
      assert out[i] == series[i];
      WrapNegate(In(spec, rows, {SectionLine(code)}, i, i + 1));
      if Magnitude(rows) <= MAX {
        WholeIsExact(spec, rows, {SectionLine(code)}, i, i + 1);
      }
      overflowed := overflowed || !Fits(0 - out[i]);
      out := out[i := Wrap(0 - out[i])];
    }
  }

  function SumOf(series: seq<int>): int {
    if series == [] then 0 else SumOf(series[..|series| - 1]) + series[|series| - 1]
  }

  method Sum(series: seq<int>) returns (total: int, ghost overflowed: bool)
    ensures total == Wrap(SumOf(series))
    ensures (forall k :: 0 <= k <= |series| ==> Fits(SumOf(series[..k]))) ==> !overflowed
  {
    hide Wrap;
    total := 0;
    overflowed := false;
    for k := 0 to |series|
      invariant total == Wrap(SumOf(series[..k]))
      invariant (forall j :: 0 <= j <= |series| ==> Fits(SumOf(series[..j]))) ==> !overflowed
    {
      assert series[..k + 1][..k] == series[..k];
      WrapAdd(SumOf(series[..k]), series[k]);
      overflowed := overflowed || !Fits(total + series[k]);
      assert Fits(SumOf(series[..k])) && Fits(SumOf(series[..k + 1])) ==> Fits(total + series[k]);
      total := Wrap(total + series[k]);
    }
    assert series[..|series|] == series;
  }

  /** Totals taken across the columns are the region's own sum. */
  lemma {:induction false} SumOfSeries(series: seq<int>, spec: Spec, rows: seq<Row>, lines: set<LineRef>,
                                       turned: bool, k: nat)
    requires k <= |series|
    requires forall i :: 0 <= i < |series| ==> series[i] == Wrap(Signed(In(spec, rows, lines, i, i + 1), turned))
    ensures Wrap(SumOf(series[..k])) == Wrap(Signed(In(spec, rows, lines, 0, k), turned))
    ensures Magnitude(rows) <= MAX ==> SumOf(series[..k]) == Signed(In(spec, rows, lines, 0, k), turned)
  {
    hide In, Wrap, Magnitude;
    if k == 0 {
      NoColumns(spec, rows, lines, 0);
    } else {
      SumOfSeries(series, spec, rows, lines, turned, k - 1);
      assert series[..k][..k - 1] == series[..k - 1];
      NextColumnSummed(
        SumOf(series[..k - 1]), In(spec, rows, lines, 0, k - 1), series[k - 1], spec, rows, lines, turned, k);
    }
  }

  lemma NextColumnSummed(sum: int, before: int, cell: int, spec: Spec, rows: seq<Row>, lines: set<LineRef>,
                         turned: bool, k: nat)
    requires k > 0 && before == In(spec, rows, lines, 0, k - 1)
    requires Wrap(sum) == Wrap(Signed(before, turned)) && cell == Wrap(Signed(In(spec, rows, lines, k - 1, k), turned))
    requires Magnitude(rows) <= MAX ==> sum == Signed(before, turned)
    ensures Wrap(sum + cell) == Wrap(Signed(In(spec, rows, lines, 0, k), turned))
    ensures Magnitude(rows) <= MAX ==> sum + cell == Signed(In(spec, rows, lines, 0, k), turned)
  {
    hide In, Wrap, Magnitude;
    ColumnsAdd(spec, rows, lines, 0, k - 1, k);
    WrapSum(Signed(before, turned), Signed(In(spec, rows, lines, k - 1, k), turned));
    WrapAdd(sum, cell);
    if Magnitude(rows) <= MAX {
      WholeIsExact(spec, rows, lines, k - 1, k);
    }
  }

  method SumColumns(series: seq<int>, ghost spec: Spec, ghost rows: seq<Row>, ghost lines: set<LineRef>,
                    ghost turned: bool)
    returns (total: int, ghost overflowed: bool)
    requires forall i :: 0 <= i < |series| ==> series[i] == Wrap(Signed(In(spec, rows, lines, i, i + 1), turned))
    ensures total == Wrap(Signed(In(spec, rows, lines, 0, |series|), turned))
    ensures Magnitude(rows) <= MAX ==> !overflowed
  {
    hide In, Wrap, Magnitude, SumOf;
    total, overflowed := Sum(series);
    SumOfSeries(series, spec, rows, lines, turned, |series|);
    assert series[..|series|] == series;
    if Magnitude(rows) <= MAX {
      forall k | 0 <= k <= |series|
        ensures Fits(SumOf(series[..k]))
      {
        SumOfSeries(series, spec, rows, lines, turned, k);
        WholeIsExact(spec, rows, lines, 0, k);
      }
    }
  }

  /** A share of revenue, where there was any. */
  function Share(amount: int, revenue: int): Option<real> {
    if revenue == 0 then None else Some(amount as real / revenue as real * 100.0)
  }

  function FigureOf(amount: int, revenue: int, currency: string): Figure {
    Figure(M.Amount(currency, amount), Share(amount, revenue))
  }

  /** A printed line shows its figure in every column and across all of them. */
  ghost predicate PrintsLine(line: Line, code: string, spec: Spec, rows: seq<Row>) {
    var n := |spec.periods|;
    && line.code == code && line.computed == IsComputed(code)
    && |line.byPeriod| == n
    && (forall i :: 0 <= i < n ==>
                      line.byPeriod[i] == FigureOf(
                        Wrap(Face(spec, rows, code, i, i + 1)), Wrap(Face(spec, rows, NET_SALES, i, i + 1)),
                        spec.currency))
    && line.total == FigureOf(Wrap(Face(spec, rows, code, 0, n)), Wrap(Face(spec, rows, NET_SALES, 0, n)),
                              spec.currency)
  }

  ghost predicate PrintsBucket(series: seq<M.Amount>, total: M.Amount, bucket: Bucket, spec: Spec, rows: seq<Row>) {
    var n := |spec.periods|;
    && |series| == n
    && (forall i :: 0 <= i < n ==>
                      series[i] == M.Amount(spec.currency, Wrap(In(spec, rows, {BucketLine(bucket)}, i, i + 1))))
    && total == M.Amount(spec.currency, Wrap(In(spec, rows, {BucketLine(bucket)}, 0, n)))
  }

  ghost predicate Prints(report: Report, spec: Spec, rows: seq<Row>) {
    && |report.lines| == |ORDER|
    && (forall k :: 0 <= k < |ORDER| ==> PrintsLine(report.lines[k], ORDER[k], spec, rows))
    && (forall b :: b in report.buckets && b in report.totals
                    && PrintsBucket(report.buckets[b], report.totals[b], b, spec, rows))
  }

  method BuildLine(code: string, series: seq<int>, revenue: seq<int>, currency: string, ghost spec: Spec,
                   ghost rows: seq<Row>)
    returns (line: Line, ghost overflowed: bool)
    requires Shows(series, spec, rows, code) && Shows(revenue, spec, rows, NET_SALES) && currency == spec.currency
    ensures PrintsLine(line, code, spec, rows)
    ensures Magnitude(rows) <= MAX ==> !overflowed
  {
    hide In, Wrap, Magnitude, Behind, IsComputed, Share, NET_SALES;
    var figures: seq<Figure> := [];
    for i := 0 to |series|
      invariant |figures| == i
      invariant forall j :: 0 <= j < i ==> figures[j] == FigureOf(series[j], revenue[j], currency)
    {
      figures := figures + [FigureOf(series[i], revenue[i], currency)];
    }
    ghost var more;
    var total, whole;
    total, overflowed := SumColumns(series, spec, rows, Behind(code), Turned(code));
    whole, more := SumColumns(revenue, spec, rows, Behind(NET_SALES), Turned(NET_SALES));
    overflowed := overflowed || more;
    line := Line(code, IsComputed(code), figures, FigureOf(total, whole, currency));
  }

  method ToMoney(series: seq<int>, currency: string, ghost bucket: Bucket, ghost spec: Spec, ghost rows: seq<Row>)
    returns (out: seq<M.Amount>, total: M.Amount, ghost overflowed: bool)
    requires Series(series, spec, rows, {BucketLine(bucket)}) && currency == spec.currency
    ensures PrintsBucket(out, total, bucket, spec, rows)
    ensures Magnitude(rows) <= MAX ==> !overflowed
  {
    hide In, Wrap, Magnitude;
    out := [];
    for i := 0 to |series|
      invariant |out| == i
      invariant forall j :: 0 <= j < i ==> out[j] == M.Amount(currency, series[j])
    {
      out := out + [M.Amount(currency, series[i])];
    }
    var units;
    units, overflowed := SumColumns(series, spec, rows, {BucketLine(bucket)}, false);
    total := M.Amount(currency, units);
  }

  lemma Revenue(cells: Cells, spec: Spec, rows: seq<Row>)
    requires Holds(cells, spec, rows)
    ensures SectionLine(NET_SALES) in cells && Shows(cells[SectionLine(NET_SALES)], spec, rows, NET_SALES)
    ensures forall b :: BucketLine(b) in cells
  {
    hide In, Wrap;
    forall b: Bucket
      ensures BucketLine(b) in cells
    {
      assert b == Unclassified || b == NonPnl || b == Unallocated || b == OtherBasis;
    }
  }

  /** Where each line of the table is found: a section among the cells, a computed line
    * among the steps of the chain. */
  lemma LineOfTable(k: nat)
    requires k < |ORDER|
    ensures !IsComputed(ORDER[k]) ==> SectionLine(ORDER[k]) in Places()
    ensures IsComputed(ORDER[k]) ==> exists j :: 0 <= j < |CHAIN| && CHAIN[j].code == ORDER[k]
  {
    if k == 2 { ChainShape(0); }
    if k == 4 { ChainShape(1); }
    if k == 7 { ChainShape(2); }
    if k == 9 { ChainShape(3); }
    if k == 11 { ChainShape(4); }
  }

  lemma ComputedShows(computed: Computed, code: string, spec: Spec, rows: seq<Row>)
    requires ChainDone(computed, |CHAIN|, spec, rows) && IsComputed(code)
    ensures code in computed && Shows(computed[code], spec, rows, code)
  {
    hide In, Wrap, Reach, FirstSections, CHAIN;
    var j :| 0 <= j < |CHAIN| && CHAIN[j].code == code;
  }

  method PrintTable(cells: Cells, computed: Computed, currency: string, ghost spec: Spec, ghost rows: seq<Row>)
    returns (lines: seq<Line>, ghost overflowed: bool)
    requires Holds(cells, spec, rows) && ChainDone(computed, |CHAIN|, spec, rows) && currency == spec.currency
    ensures |lines| == |ORDER|
    ensures forall k :: 0 <= k < |ORDER| ==> PrintsLine(lines[k], ORDER[k], spec, rows)
    ensures Magnitude(rows) <= MAX ==> !overflowed
  {
    hide Series, Shows, PrintsLine, Magnitude, Places, ChainDone, NET_SALES, ORDER, IsComputed;

    Revenue(cells, spec, rows);
    var revenue := cells[SectionLine(NET_SALES)];
    lines := [];
    overflowed := false;
    for k := 0 to |ORDER|
      invariant |lines| == k
      invariant forall j :: 0 <= j < k ==> PrintsLine(lines[j], ORDER[j], spec, rows)
      invariant Magnitude(rows) <= MAX ==> !overflowed
    {
      LineOfTable(k);
      var code, series := ORDER[k], [];
      ghost var more, most := false, false;
      if IsComputed(code) {
        ComputedShows(computed, code, spec, rows);
        series := computed[code];
      } else {
        series, more := Present(cells[SectionLine(code)], code, spec, rows);
      }
      var line;
      line, most := BuildLine(code, series, revenue, currency, spec, rows);
      lines := lines + [line];
      overflowed := overflowed || more || most;
    }
  }

  method PrintBuckets(cells: Cells, currency: string, ghost spec: Spec, ghost rows: seq<Row>)
    returns (buckets: map<Bucket, seq<M.Amount>>, totals: map<Bucket, M.Amount>, ghost overflowed: bool)
    requires Holds(cells, spec, rows) && currency == spec.currency
    ensures forall b :: b in buckets && b in totals && PrintsBucket(buckets[b], totals[b], b, spec, rows)
    ensures Magnitude(rows) <= MAX ==> !overflowed
  {
    hide Series, PrintsBucket, Magnitude, Places;

    Revenue(cells, spec, rows);
    buckets, totals, overflowed := map[], map[], false;
    var order := [Unclassified, NonPnl, Unallocated, OtherBasis];
    for k := 0 to |order|
      invariant forall j :: 0 <= j < k ==>
                              && order[j] in buckets && order[j] in totals
                              && PrintsBucket(buckets[order[j]], totals[order[j]], order[j], spec, rows)
      invariant Magnitude(rows) <= MAX ==> !overflowed
    {
      var series, total;
      ghost var more;
      series, total, more := ToMoney(cells[BucketLine(order[k])], currency, order[k], spec, rows);
      buckets, totals := buckets[order[k] := series], totals[order[k] := total];
      overflowed := overflowed || more;
    }
    forall b: Bucket
      ensures b in buckets && b in totals && PrintsBucket(buckets[b], totals[b], b, spec, rows)
    {
      assert b == order[0] || b == order[1] || b == order[2] || b == order[3];
    }
  }

  /** Compute. A report is refused for want of a currency or of columns, or for its first
    * row that no cell can take; otherwise every cell and every total is what int64 keeps
    * of the exact sum of its rows, and nothing leaves int64's range on the way while the
    * amounts together stay within it. */
  method Compute(rows: seq<Row>, spec: Spec) returns (r: Result<Report, Error>, ghost overflowed: bool)
    ensures r.Ok? <==> spec.currency != "" && spec.periods != [] && AllAccepted(spec, rows)
    ensures r.Ok? ==> Prints(r.value, spec, rows)
    ensures spec.currency == "" ==> r == Err(NoBaseCurrency)
    ensures spec.currency != "" && spec.periods == [] ==> r == Err(NoPeriods)
    ensures spec.currency != "" && spec.periods != [] && r.Err? ==> exists k ::
                && 0 <= k < |rows| && AllAccepted(spec, rows[..k]) && !Accepts(spec, rows[k])
                && r.error == Fault(spec, rows[k])
    ensures Magnitude(rows) <= MAX ==> !overflowed
  {
    hide Holds, ChainDone, PrintsLine, PrintsBucket, Magnitude, Accepts, Fault;

    if spec.currency == "" {
      return Err(NoBaseCurrency), false;
    }
    if spec.periods == [] {
      return Err(NoPeriods), false;
    }
    var summed;
    summed, overflowed := Accumulate(spec, rows);
    if summed.Err? {
      return Err(summed.error), overflowed;
    }
    var cells := summed.value;
    var computed, lines, buckets, totals;
    ghost var chained, printed, bucketed;
    computed, chained := FoldChain(cells, |spec.periods|, spec, rows);
    lines, printed := PrintTable(cells, computed, spec.currency, spec, rows);
    buckets, totals, bucketed := PrintBuckets(cells, spec.currency, spec, rows);
    overflowed := overflowed || chained || printed || bucketed;
    r := Ok(Report(lines, buckets, totals));
  }

  /** Which rows a report takes: of its columns and its currency, and of the basis only those that
    * are unclassified, off the P&L, to be allocated, or in a section there is. */
  lemma AcceptedMeans(spec: Spec, row: Row)
    ensures Accepts(spec, row)
       <==> && row.period in spec.periods && row.amount.currency == spec.currency
            && (row.sourceKind != spec.basis || row.categoryCode == "" || !row.isPnl || row.requiresAllocation
                || row.section in ["01", "02", "03", "04", "05", "06", "07", "08", "09"])
  {
    assert SECTIONS + NON_PNL_SECTIONS == ["01", "02", "03", "04", "05", "06", "07", "08", "09"];
  }

  /** And why the first that it does not take is refused. */
  lemma FaultMeans(spec: Spec, row: Row)
    requires !Accepts(spec, row)
    ensures Fault(spec, row) == PeriodNotRequested <==> row.period !in spec.periods
    ensures Fault(spec, row) == OtherCurrency <==> row.period in spec.periods && row.amount.currency != spec.currency
    ensures Fault(spec, row) == NotASection <==> row.period in spec.periods && row.amount.currency == spec.currency
  {
  }

  // ---- Conservation -----------------------------------------------------------------------

  /** Every row of columns `lo` up to `hi`, wherever it was placed. */
  function Between(spec: Spec, rows: seq<Row>, lo: nat, hi: nat): int {
    if rows == [] then 0
    else
      var row := rows[|rows| - 1];
      var column := Column(spec.periods, row.period);
      Between(spec, rows[..|rows| - 1], lo, hi)
      + if column.Some? && lo <= column.value < hi then row.amount.minor else 0
  }

  lemma {:induction false} BetweenIsIn(spec: Spec, rows: seq<Row>, lo: nat, hi: nat)
    requires AllAccepted(spec, rows)
    ensures Between(spec, rows, lo, hi) == In(spec, rows, Places(), lo, hi)
  {
    hide Place, Places, Column;
    if rows != [] {
      var row := rows[|rows| - 1];
      assert Accepts(spec, row);
      PlaceIsAPlace(row, spec.basis);
      BetweenIsIn(spec, rows[..|rows| - 1], lo, hi);
    }
  }

  lemma {:induction false} BetweenAll(spec: Spec, rows: seq<Row>)
    requires AllAccepted(spec, rows)
    ensures Between(spec, rows, 0, |spec.periods|) == Total(rows)
  {
    hide Place, Column;
    if rows != [] {
      assert Accepts(spec, rows[|rows| - 1]);
      BetweenAll(spec, rows[..|rows| - 1]);
    }
  }

  /** Sections and buckets together hold every row, each once. */
  lemma PlacesAdd(spec: Spec, rows: seq<Row>, lo: nat, hi: nat)
    ensures In(spec, rows, Places(), lo, hi)
         == In(spec, rows, FirstSections(7), lo, hi)
            + In(spec, rows, {BucketLine(Unclassified)}, lo, hi) + In(spec, rows, {BucketLine(NonPnl)}, lo, hi)
            + In(spec, rows, {BucketLine(Unallocated)}, lo, hi) + In(spec, rows, {BucketLine(OtherBasis)}, lo, hi)
  {
    assert SECTIONS[..7] == SECTIONS;
    hide In, SectionsIn;
    var s, u, n, a := FirstSections(7), {BucketLine(Unclassified)}, {BucketLine(NonPnl)}, {BucketLine(Unallocated)};
    LinesAdd(spec, rows, s, u, lo, hi);
    LinesAdd(spec, rows, s + u, n, lo, hi);
    LinesAdd(spec, rows, s + u + n, a, lo, hi);
    LinesAdd(spec, rows, s + u + n + a, {BucketLine(OtherBasis)}, lo, hi);
    assert s + u + n + a + {BucketLine(OtherBasis)} == Places();
  }

  lemma WrapFive(a: int, b: int, c: int, d: int, e: int)
    ensures Wrap(Wrap(a) + Wrap(b) + Wrap(c) + Wrap(d) + Wrap(e)) == Wrap(a + b + c + d + e)
  {
    hide Wrap;
    var rest := Wrap(b) + Wrap(c) + Wrap(d) + Wrap(e);
    WrapAdd(a, rest);
    WrapAdd(a + rest - Wrap(b), b);
    WrapAdd(a + b + Wrap(d) + Wrap(e), c);
    WrapAdd(a + b + c + Wrap(e), d);
    WrapAdd(a + b + c + d, e);
  }

  /** The amounts of one column of the table, line by line. */
  function ColumnOf(report: Report, i: nat): (s: seq<int>)
    requires |report.lines| == |ORDER| && forall k :: 0 <= k < |ORDER| ==> i < |report.lines[k].byPeriod|
    ensures |s| == |ORDER|
  {
    seq(|ORDER|, k requires 0 <= k < |ORDER| => report.lines[k].byPeriod[i].amount.minor)
  }

  function TotalsOf(report: Report): (s: seq<int>)
    requires |report.lines| == |ORDER|
    ensures |s| == |ORDER|
  {
    seq(|ORDER|, k requires 0 <= k < |ORDER| => report.lines[k].total.amount.minor)
  }

  lemma NetIncome(spec: Spec, rows: seq<Row>, lo: nat, hi: nat)
    ensures Face(spec, rows, ORDER[11], lo, hi) == In(spec, rows, FirstSections(7), lo, hi)
  {
    ResultFace(4, spec, rows, lo, hi);
  }

  lemma ResultFace(k: nat, spec: Spec, rows: seq<Row>, lo: nat, hi: nat)
    requires k < |CHAIN|
    ensures Face(spec, rows, CHAIN[k].code, lo, hi) == In(spec, rows, FirstSections(Reach(CHAIN[k].code)), lo, hi)
  {
    ChainShape(k);
    hide In, FirstSections;
  }

  lemma BucketsPrint(report: Report, spec: Spec, rows: seq<Row>)
    requires Prints(report, spec, rows)
    ensures forall b :: b in report.buckets && b in report.totals
    ensures forall b :: |report.buckets[b]| == |spec.periods|
  {
    hide In, Wrap, Face;
  }

  /** No money is lost and none is made: net income and the four buckets add up to every
    * row of the column, and their totals to every row there is. */
  lemma Conserved(report: Report, spec: Spec, rows: seq<Row>, i: nat)
    requires Prints(report, spec, rows) && AllAccepted(spec, rows) && i < |spec.periods|
    ensures forall b :: b in report.buckets && b in report.totals && |report.buckets[b]| == |spec.periods|
    ensures
      var inColumn := report.lines[11].byPeriod[i].amount.minor + report.buckets[Unclassified][i].minor
                      + report.buckets[NonPnl][i].minor + report.buckets[Unallocated][i].minor
                      + report.buckets[OtherBasis][i].minor;
      && Wrap(inColumn) == Wrap(Between(spec, rows, i, i + 1))
      && (Magnitude(rows) <= MAX ==> inColumn == Between(spec, rows, i, i + 1))
    ensures
      var inAll := report.lines[11].total.amount.minor + report.totals[Unclassified].minor
                   + report.totals[NonPnl].minor + report.totals[Unallocated].minor
                   + report.totals[OtherBasis].minor;
      && Wrap(inAll) == Wrap(Total(rows))
      && (Magnitude(rows) <= MAX ==> inAll == Total(rows))
  {
    hide In, Wrap, Magnitude, Face, Places, Between, FirstSections;
    BucketsPrint(report, spec, rows);
    RegionConserved(spec, rows, i, i + 1);
    RegionConserved(spec, rows, 0, |spec.periods|);
    BetweenAll(spec, rows);
    assert PrintsLine(report.lines[11], ORDER[11], spec, rows);
    assert PrintsBucket(report.buckets[Unclassified], report.totals[Unclassified], Unclassified, spec, rows);
    assert PrintsBucket(report.buckets[NonPnl], report.totals[NonPnl], NonPnl, spec, rows);
    assert PrintsBucket(report.buckets[Unallocated], report.totals[Unallocated], Unallocated, spec, rows);
    assert PrintsBucket(report.buckets[OtherBasis], report.totals[OtherBasis], OtherBasis, spec, rows);
  }

  lemma RegionConserved(spec: Spec, rows: seq<Row>, lo: nat, hi: nat)
    requires AllAccepted(spec, rows)
    ensures
      var sum := Wrap(Face(spec, rows, ORDER[11], lo, hi))
                 + Wrap(In(spec, rows, {BucketLine(Unclassified)}, lo, hi))
                 + Wrap(In(spec, rows, {BucketLine(NonPnl)}, lo, hi))
                 + Wrap(In(spec, rows, {BucketLine(Unallocated)}, lo, hi))
                 + Wrap(In(spec, rows, {BucketLine(OtherBasis)}, lo, hi));
      && Wrap(sum) == Wrap(Between(spec, rows, lo, hi))
      && (Magnitude(rows) <= MAX ==> sum == Between(spec, rows, lo, hi))
  {
    hide In, Wrap, Magnitude, Face, Places, Between, FirstSections;
    NetIncome(spec, rows, lo, hi);
    PlacesAdd(spec, rows, lo, hi);
    BetweenIsIn(spec, rows, lo, hi);
    var n, u, p, a, o :=
      In(spec, rows, FirstSections(7), lo, hi), In(spec, rows, {BucketLine(Unclassified)}, lo, hi),
      In(spec, rows, {BucketLine(NonPnl)}, lo, hi), In(spec, rows, {BucketLine(Unallocated)}, lo, hi),
      In(spec, rows, {BucketLine(OtherBasis)}, lo, hi);
    WrapFive(n, u, p, a, o);
    if Magnitude(rows) <= MAX {
      WholeIsExact(spec, rows, FirstSections(7), lo, hi);
      WholeIsExact(spec, rows, {BucketLine(Unclassified)}, lo, hi);
      WholeIsExact(spec, rows, {BucketLine(NonPnl)}, lo, hi);
      WholeIsExact(spec, rows, {BucketLine(Unallocated)}, lo, hi);
      WholeIsExact(spec, rows, {BucketLine(OtherBasis)}, lo, hi);
    }
  }

  /** The percentage beside a figure is its share of net sales, as both are printed, in the same
    * column or in the totals; there is none where there were no sales. */
  lemma SharesAreOfNetSales(report: Report, spec: Spec, rows: seq<Row>, k: nat, i: nat)
    requires Prints(report, spec, rows) && k < |ORDER| && i < |spec.periods|
    ensures |report.lines| == |ORDER| && i < |report.lines[k].byPeriod| && i < |report.lines[0].byPeriod|
    ensures IsShare(report.lines[k].byPeriod[i], report.lines[0].byPeriod[i].amount.minor)
    ensures IsShare(report.lines[k].total, report.lines[0].total.amount.minor)
  {
    hide Face, Wrap, PrintsBucket;
    assert PrintsLine(report.lines[k], ORDER[k], spec, rows) && PrintsLine(report.lines[0], ORDER[0], spec, rows);
    assert ORDER[0] == NET_SALES;
    hide ORDER;
  }

  ghost predicate IsShare(f: Figure, sales: int) {
    && (f.percentOfRevenue.None? <==> sales == 0)
    && (f.percentOfRevenue.Some? ==> f.percentOfRevenue.value * sales as real == 100.0 * f.amount.minor as real)
  }

  // ---- The formulas, as printed -------------------------------------------------------------

  /** GM = NET SALES - CS, NM = GM - OCS, CM = NM - OPEX - OIE, IBT = CM - FR and
    * NI = IBT - CIT, over the figures as they are printed. */
  predicate FormulasHold(f: seq<int>)
    requires |f| == |ORDER|
  {
    && f[2] == Wrap(f[0] - f[1])
    && f[4] == Wrap(f[2] - f[3])
    && f[7] == Wrap(f[4] - f[5] - f[6])
    && f[9] == Wrap(f[7] - f[8])
    && f[11] == Wrap(f[9] - f[10])
  }

  predicate FormulasHoldExactly(f: seq<int>)
    requires |f| == |ORDER|
  {
    f[2] == f[0] - f[1] && f[4] == f[2] - f[3] && f[7] == f[4] - f[5] - f[6] && f[9] == f[7] - f[8]
    && f[11] == f[9] - f[10]
  }

  /** The exact figure of a result, and what each section takes from it. */
  lemma SectionFaces(n: nat, spec: Spec, rows: seq<Row>, lo: nat, hi: nat)
    requires n < |SECTIONS|
    ensures n == 0 ==> Face(spec, rows, SECTIONS[n], lo, hi) == In(spec, rows, FirstSections(1), lo, hi)
    ensures n > 0 ==>
              Face(spec, rows, SECTIONS[n], lo, hi)
              == In(spec, rows, FirstSections(n), lo, hi) - In(spec, rows, FirstSections(n + 1), lo, hi)
  {
    SectionBehind(n);
    NextSection(n);
    FirstSection();
    hide In, FirstSections, Behind, Turned, Places, SECTIONS;
    LinesAdd(spec, rows, FirstSections(n), {SectionLine(SECTIONS[n])}, lo, hi);
  }

  lemma SectionBehind(n: nat)
    requires n < |SECTIONS|
    ensures Behind(SECTIONS[n]) == {SectionLine(SECTIONS[n])}
    ensures Turned(SECTIONS[n]) <==> n > 0
    ensures n == 0 ==> SECTIONS[n] == NET_SALES
  {
    hide FirstSections;
  }

  lemma WrapMinus(a: int, b: int)
    ensures Wrap(Wrap(a) - Wrap(b)) == Wrap(a - b)
  {
    hide Wrap;
    WrapNegate(b);
    WrapAdd(Wrap(a), 0 - Wrap(b));
    WrapAdd(Wrap(a), 0 - b);
    WrapAdd(a, 0 - b);
  }

  lemma WrapMinusTwo(a: int, b: int, c: int)
    ensures Wrap(Wrap(a) - Wrap(b) - Wrap(c)) == Wrap(a - b - c)
  {
    hide Wrap;
    WrapSum(b, c);
    WrapMinus(a, b + c);
    WrapMinus(Wrap(a), Wrap(b) + Wrap(c));
    WrapAdd(a, 0);
    WrapAdd(0, b + c);
    WrapMinus(Wrap(a), b + c);
  }

  /** The exact sum of the sections above a line. */
  function Above(spec: Spec, rows: seq<Row>, n: nat, lo: nat, hi: nat): int
    requires n <= |SECTIONS|
  {
    In(spec, rows, FirstSections(n), lo, hi)
  }

  /** Line `k` of the table, from the sums above each section: `sn` adds the first n. */
  function FromSums(k: nat, s1: int, s2: int, s3: int, s4: int, s5: int, s6: int, s7: int): int {
    if k == 0 then s1
    else if k == 1 then s1 - s2
    else if k == 2 then s2
    else if k == 3 then s2 - s3
    else if k == 4 then s3
    else if k == 5 then s3 - s4
    else if k == 6 then s4 - s5
    else if k == 7 then s5
    else if k == 8 then s5 - s6
    else if k == 9 then s6
    else if k == 10 then s6 - s7
    else s7
  }

  lemma FaceAt(spec: Spec, rows: seq<Row>, lo: nat, hi: nat, k: nat)
    requires k < |ORDER|
    ensures Face(spec, rows, ORDER[k], lo, hi)
         == FromSums(k, Above(spec, rows, 1, lo, hi), Above(spec, rows, 2, lo, hi), Above(spec, rows, 3, lo, hi),
                     Above(spec, rows, 4, lo, hi), Above(spec, rows, 5, lo, hi), Above(spec, rows, 6, lo, hi),
                     Above(spec, rows, 7, lo, hi))
  {
    hide In, Face, FirstSections;
    if k == 2 || k == 4 || k == 7 || k == 9 || k == 11 {
      var j := if k == 2 then 0 else if k == 4 then 1 else if k == 7 then 2 else if k == 9 then 3 else 4;
      ResultFace(j, spec, rows, lo, hi);
    } else {
      var n := if k < 2 then k else if k == 3 then 2 else if k < 7 then k - 2 else if k == 8 then 5 else 6;
      SectionFaces(n, spec, rows, lo, hi);
    }
  }

  lemma SumsMakeFormulas(f: seq<int>, s1: int, s2: int, s3: int, s4: int, s5: int, s6: int, s7: int)
    requires |f| == 12 && forall k :: 0 <= k < 12 ==> f[k] == FromSums(k, s1, s2, s3, s4, s5, s6, s7)
    ensures FormulasHoldExactly(f)
  {
  }

  lemma FacesOfTable(spec: Spec, rows: seq<Row>, lo: nat, hi: nat, f: seq<int>)
    requires |f| == |ORDER|
    requires forall k :: 0 <= k < |ORDER| ==> f[k] == Face(spec, rows, ORDER[k], lo, hi)
    ensures FormulasHoldExactly(f)
  {
    hide Face, Above, FromSums, FormulasHoldExactly;
    var s1, s2, s3, s4 :=
      Above(spec, rows, 1, lo, hi), Above(spec, rows, 2, lo, hi), Above(spec, rows, 3, lo, hi),
      Above(spec, rows, 4, lo, hi);
    var s5, s6, s7 := Above(spec, rows, 5, lo, hi), Above(spec, rows, 6, lo, hi), Above(spec, rows, 7, lo, hi);
    forall k | 0 <= k < 12
      ensures f[k] == FromSums(k, s1, s2, s3, s4, s5, s6, s7)
    {
      FaceAt(spec, rows, lo, hi, k);
    }
    SumsMakeFormulas(f, s1, s2, s3, s4, s5, s6, s7);
  }

  lemma FormulasWrap(f: seq<int>, w: seq<int>)
    requires |f| == |w| == |ORDER| && FormulasHoldExactly(f) && forall k :: 0 <= k < |ORDER| ==> w[k] == Wrap(f[k])
    ensures FormulasHold(w)
  {
    hide Wrap;
    WrapMinus(f[0], f[1]);
    WrapMinus(f[2], f[3]);
    WrapMinusTwo(f[4], f[5], f[6]);
    WrapMinus(f[7], f[8]);
    WrapMinus(f[9], f[10]);
  }

  function Faces(spec: Spec, rows: seq<Row>, lo: nat, hi: nat): (s: seq<int>)
    ensures |s| == |ORDER|
    ensures forall k :: 0 <= k < |ORDER| ==> s[k] == Face(spec, rows, ORDER[k], lo, hi)
  {
    seq(|ORDER|, k requires 0 <= k < |ORDER| => Face(spec, rows, ORDER[k], lo, hi))
  }

  lemma FacesFit(spec: Spec, rows: seq<Row>, lo: nat, hi: nat, k: nat)
    requires Magnitude(rows) <= MAX && k < |ORDER|
    ensures Wrap(Face(spec, rows, ORDER[k], lo, hi)) == Face(spec, rows, ORDER[k], lo, hi)
  {
    hide In, Magnitude, Wrap, Behind, Turned;
    WholeIsExact(spec, rows, Behind(ORDER[k]), lo, hi);
  }

  lemma RegionFormulas(spec: Spec, rows: seq<Row>, lo: nat, hi: nat, w: seq<int>)
    requires |w| == |ORDER| && forall k :: 0 <= k < |ORDER| ==> w[k] == Wrap(Face(spec, rows, ORDER[k], lo, hi))
    ensures FormulasHold(w)
    ensures Magnitude(rows) <= MAX ==> FormulasHoldExactly(w)
  {
    hide Face, Wrap, Magnitude, FormulasHold, FormulasHoldExactly;
    var f := Faces(spec, rows, lo, hi);
    FacesOfTable(spec, rows, lo, hi, f);
    FormulasWrap(f, w);
    if Magnitude(rows) <= MAX {
      forall k | 0 <= k < |ORDER|
        ensures w[k] == f[k]
      {
        FacesFit(spec, rows, lo, hi, k);
      }
      assert w == f;
    }
  }

  /** The table adds up on the page: every formula of the chain holds between the figures
    * as printed, costs positive, in each column and in the totals. */
  lemma FormulasHoldAsPrinted(report: Report, spec: Spec, rows: seq<Row>, i: nat)
    requires Prints(report, spec, rows) && i < |spec.periods|
    ensures FormulasHold(ColumnOf(report, i)) && FormulasHold(TotalsOf(report))
    ensures Magnitude(rows) <= MAX ==> FormulasHoldExactly(ColumnOf(report, i)) && FormulasHoldExactly(TotalsOf(report))
  {
    hide Face, Wrap, Magnitude, FormulasHold, FormulasHoldExactly, ORDER;
    RegionFormulas(spec, rows, i, i + 1, ColumnOf(report, i));
    RegionFormulas(spec, rows, 0, |spec.periods|, TotalsOf(report));
  }
}
