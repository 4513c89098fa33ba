/** The strip at the foot of the report: balances read at the boundaries between periods,
  * and what moved in between counted a second way. */
module Reconciliation {
  import opened Wrappers
  import opened Calendar
  import opened Int64
  import opened Ledger
  import opened PeriodColumns
  import M = Money

  datatype Side = OutLeg | InLeg

  datatype Membership = Membership(transfer: string, side: Side)

  /** The two tables of internal transfers: one membership at most for a transaction, and
    * the transfers nobody has dismissed. */
  datatype Pairs = Pairs(members: map<string, Membership>, active: set<string>)

  datatype Strip = Strip(
    period: string, opening: M.Amount, inflow: M.Amount, outflow: M.Amount, transfers: M.Amount, closing: M.Amount,
    transferRowCount: nat, balances: bool)

  /** Which of the strip's sums a row counts in; `Every` is the balance. */
  datatype Term = Every | Inflow | Outflow | Transfer

  predicate IsLeg(e: Entry, pairs: Pairs) {
    e.id in pairs.members && pairs.members[e.id].transfer in pairs.active
  }

  predicate Counts(term: Term, e: Entry, pairs: Pairs) {
    match term
    case Every => true
    case Inflow => !IsLeg(e, pairs) && InBase(e) > 0
    case Outflow => !IsLeg(e, pairs) && InBase(e) < 0
    case Transfer => IsLeg(e, pairs)
  }

  /** Rows of one entity and basis booked on days numbered `lo` up to `hi`. */
  predicate Booked(e: Entry, req: Request, lo: int, hi: int)
    requires e.bookedOn.Valid()
  {
    e.entity == req.entity && e.kind == req.basis && lo <= e.bookedOn.Number() < hi
  }

  function Moved(store: seq<Entry>, term: Term, pairs: Pairs, req: Request, lo: int, hi: int): int
    requires ValidStore(store)
  {
    if store == [] then 0
    else
      var e := store[|store| - 1];
      Moved(store[..|store| - 1], term, pairs, req, lo, hi)
      + if Booked(e, req, lo, hi) && Counts(term, e, pairs) then InBase(e) else 0
  }

  function LegRows(store: seq<Entry>, pairs: Pairs, req: Request, lo: int, hi: int): (rows: seq<Entry>)
    requires ValidStore(store)
  {
    if store == [] then []
    else
      var e := store[|store| - 1];
      LegRows(store[..|store| - 1], pairs, req, lo, hi)
      + if Booked(e, req, lo, hi) && IsLeg(e, pairs) then [e] else []
  }

  /** OpeningBalanceBefore: everything booked before a day. */
  function BalanceBefore(store: seq<Entry>, pairs: Pairs, req: Request, day: int): int
    requires ValidStore(store)
  {
    Moved(store, Every, pairs, req, 0, day)
  }

  lemma DaysAreNumbered(d: Date)
    requires d.Valid()
    ensures d.Number() >= 0
  {
    hide DaysIn;
    FirstDayIsNatural(d.MonthOf());
  }

  lemma {:induction false} FirstDayIsNatural(m: Month)
    ensures FirstDay(m) >= 0
  {
    hide DaysIn;
    if m > 0 {
      FirstDayIsNatural(m - 1);
    }
  }

  /** A balance is the one before it and everything in between. */
  lemma {:induction false} BalanceGrows(store: seq<Entry>, pairs: Pairs, req: Request, lo: int, hi: int)
    requires ValidStore(store) && 0 <= lo <= hi
    ensures BalanceBefore(store, pairs, req, hi)
         == BalanceBefore(store, pairs, req, lo) + Moved(store, Every, pairs, req, lo, hi)
  {
    if store != [] {
      hide FirstDay, DaysIn;
      DaysAreNumbered(store[|store| - 1].bookedOn);
      BalanceGrows(store[..|store| - 1], pairs, req, lo, hi);
    }
  }

  /** In, out and transfers leave nothing out and count nothing twice. */
  lemma {:induction false} TermsCover(store: seq<Entry>, pairs: Pairs, req: Request, lo: int, hi: int)
    requires ValidStore(store)
    ensures Moved(store, Every, pairs, req, lo, hi)
         == Moved(store, Inflow, pairs, req, lo, hi) + Moved(store, Outflow, pairs, req, lo, hi)
            + Moved(store, Transfer, pairs, req, lo, hi)
  {
    hide FirstDay, DaysIn, Booked;
    if store != [] {
      TermsCover(store[..|store| - 1], pairs, req, lo, hi);
    }
  }

  /** ReconciliationForPeriod: four aggregates, each a bigint or an error. */
  function PeriodSums(store: seq<Entry>, pairs: Pairs, req: Request, lo: int,
                      hi: int): Result<(int, int, int, nat), Ledger.Error>
    requires ValidStore(store)
  {
    var inflow := Moved(store, Inflow, pairs, req, lo, hi);
    var outflow := 0 - Moved(store, Outflow, pairs, req, lo, hi);
    var transfers := 0 - Moved(store, Transfer, pairs, req, lo, hi);
    if Fits(inflow) && Fits(outflow) && Fits(transfers)
    then Ok((inflow, outflow, transfers, |LegRows(store, pairs, req, lo, hi)|))
    else Err(OutOfRange)
  }

  /** The request whose strip is drawn: a range of months and the periods they make. */
  ghost predicate Draws(req: Request, periods: seq<string>, f: Month, t: Month) {
    && f <= t < END && req.granularity.Column(f) <= req.granularity.Column(t)
    && req.from == MonthText(f) && req.to == MonthText(t)
    && periods == PeriodTexts(req.granularity, f, t)
  }

  /** The first day of period `i`; after the last period, the day after the range. */
  function Boundary(g: Granularity, f: Month, t: Month, i: nat): int
    requires f <= t < END && g.Column(f) + i <= g.Column(t) + 1
  {
    if g.Column(f) + i <= g.Column(t) then SelectionAt(g, f, t, i).0.Number() else LastOf(t).Number() + 1
  }

  lemma BoundariesAscend(g: Granularity, f: Month, t: Month, i: nat)
    requires f <= t < END && g.Column(f) + i <= g.Column(t)
    ensures 0 <= Boundary(g, f, t, i) <= Boundary(g, f, t, i + 1)
    ensures Boundary(g, f, t, i + 1) == SelectionAt(g, f, t, i).1.Number() + 1
    ensures SelectionAt(g, f, t, i).0.Valid() && SelectionAt(g, f, t, i).1.Valid()
  {
    SelectionsAdjoin(g, f, t, i);
    hide FirstOf, LastOf, FirstDay, DaysIn, DayAfter, SelectionAt;
    DaysAreNumbered(SelectionAt(g, f, t, i).0);
    if g.Column(f) + i < g.Column(t) {
      DayAfterIsNext(SelectionAt(g, f, t, i).1);
    }
  }

  ghost predicate BalancesFit(store: seq<Entry>, pairs: Pairs, req: Request, f: Month, t: Month, upTo: nat)
    requires ValidStore(store) && f <= t < END && req.granularity.Column(f) + upTo <= req.granularity.Column(t) + 2
  {
    forall i :: 0 <= i < upTo ==> Fits(BalanceBefore(store, pairs, req, Boundary(req.granularity, f, t, i)))
  }

  ghost predicate SumsFit(store: seq<Entry>, pairs: Pairs, req: Request, f: Month, t: Month, upTo: nat)
    requires ValidStore(store) && f <= t < END && req.granularity.Column(f) + upTo <= req.granularity.Column(t) + 1
  {
    forall i :: 0 <= i < upTo ==>
                  PeriodSums(store, pairs, req, Boundary(req.granularity, f, t, i),
                             Boundary(req.granularity, f, t, i + 1)).Ok?
  }

  /** One period of the strip: its balances, its movement, and the identity between them. */
  ghost predicate Balanced(strip: Strip, store: seq<Entry>, pairs: Pairs, req: Request, f: Month, t: Month,
                           i: nat, currency: string)
    requires ValidStore(store) && f <= t < END && req.granularity.Column(f) + i <= req.granularity.Column(t)
  {
    var lo, hi := Boundary(req.granularity, f, t, i), Boundary(req.granularity, f, t, i + 1);
    && strip.period == PeriodTexts(req.granularity, f, t)[i]
    && strip.opening == M.Amount(currency, BalanceBefore(store, pairs, req, lo))
    && strip.inflow == M.Amount(currency, Moved(store, Inflow, pairs, req, lo, hi))
    && strip.outflow == M.Amount(currency, 0 - Moved(store, Outflow, pairs, req, lo, hi))
    && strip.transfers == M.Amount(currency, 0 - Moved(store, Transfer, pairs, req, lo, hi))
    && strip.closing == M.Amount(currency, BalanceBefore(store, pairs, req, hi))
    && strip.transferRowCount == |LegRows(store, pairs, req, lo, hi)|
    && strip.opening.minor + strip.inflow.minor - strip.outflow.minor - strip.transfers.minor == strip.closing.minor
    && strip.balances
  }

  /** The identity, from the two ways of counting; and int64's own sum of it, which may
    * wrap on the way and still arrives. */
  lemma IdentityHolds(store: seq<Entry>, pairs: Pairs, req: Request, lo: int, hi: int)
    requires ValidStore(store) && 0 <= lo <= hi && Fits(BalanceBefore(store, pairs, req, hi))
    ensures
      var opening, closing := BalanceBefore(store, pairs, req, lo), BalanceBefore(store, pairs, req, hi);
      var inflow, outflow, transfers :=
        Moved(store, Inflow, pairs, req, lo, hi), 0 - Moved(store, Outflow, pairs, req, lo, hi),
        0 - Moved(store, Transfer, pairs, req, lo, hi);
      && opening + inflow - outflow - transfers == closing
      && Wrap(Wrap(Wrap(opening + inflow) - outflow) - transfers) == closing
  {
    hide Moved, Wrap, BalanceBefore;
    BalanceGrows(store, pairs, req, lo, hi);
    TermsCover(store, pairs, req, lo, hi);
    SumWraps(
      BalanceBefore(store, pairs, req, lo), Moved(store, Inflow, pairs, req, lo, hi),
      0 - Moved(store, Outflow, pairs, req, lo, hi), 0 - Moved(store, Transfer, pairs, req, lo, hi),
      BalanceBefore(store, pairs, req, hi));
  }

  lemma SumWraps(opening: int, inflow: int, outflow: int, transfers: int, closing: int)
    requires opening + inflow - outflow - transfers == closing && Fits(closing)
    ensures Wrap(Wrap(Wrap(opening + inflow) - outflow) - transfers) == closing
  {
    hide Wrap;
    WrapAdd(opening + inflow, 0 - outflow);
    WrapAdd(opening + inflow - outflow, 0 - transfers);
  }

  /** reconciliation: the strip of every period, from N + 1 balances and N movements. For
    * any ledger and any pairs it closes: opening + in - out - transfers is the closing
    * balance of each period, and each closing balance opens the next. */
  method Reconcile(store: seq<Entry>, pairs: Pairs, req: Request, periods: seq<string>, currency: string,
                   ghost f: Month, ghost t: Month)
    returns (r: Result<seq<Strip>, Ledger.Error>)
    requires ValidStore(store) && Draws(req, periods, f, t)
    ensures r.Ok? <==> BalancesFit(store, pairs, req, f, t, |periods| + 1)
                       && SumsFit(store, pairs, req, f, t, |periods|)
    ensures r.Ok? ==>
              && |r.value| == |periods|
              && (forall i :: 0 <= i < |periods| ==> Balanced(r.value[i], store, pairs, req, f, t, i, currency))
              && (forall i :: 0 < i < |periods| ==> r.value[i - 1].closing == r.value[i].opening)
  {
    hide Moved, Wrap, BalanceBefore, MonthText, PeriodTexts, SelectionAt, FirstDay, DaysIn, SelectionDates, Boundary,
      LegRows,
      FirstOf, LastOf, Granularity.Column;

    var bounds := Bounds(req, periods, f, t);
    var balances := new int[|periods| + 1];
    for i := 0 to balances.Length
      invariant BalancesFit(store, pairs, req, f, t, i)
      invariant forall j :: 0 <= j < i ==>
                              balances[j] == BalanceBefore(store, pairs, req, Boundary(req.granularity, f, t, j))
    {
      var b := BalanceBefore(store, pairs, req, bounds[i]);
      if !Fits(b) {
        return Err(OutOfRange);
      }
      balances[i] := b;
    }

    var out: seq<Strip> := [];
    for i := 0 to |periods|
      invariant |out| == i
      invariant forall j :: 0 <= j < balances.Length ==>
                              balances[j] == BalanceBefore(store, pairs, req, Boundary(req.granularity, f, t, j))
      invariant SumsFit(store, pairs, req, f, t, i)
      invariant forall j :: 0 <= j < i ==> Balanced(out[j], store, pairs, req, f, t, j, currency)
    {
      BoundariesAscend(req.granularity, f, t, i);
      var sums := PeriodSums(store, pairs, req, bounds[i], bounds[i + 1]);
      if sums.Err? {
        return Err(OutOfRange);
      }
      var (inflow, outflow, transfers, count) := sums.value;
      var opening, closing := balances[i], balances[i + 1];
      assert Fits(BalanceBefore(store, pairs, req, Boundary(req.granularity, f, t, i + 1)));
      IdentityHolds(store, pairs, req, bounds[i], bounds[i + 1]);
      var strip := Strip(
        periods[i], M.Amount(currency, opening), M.Amount(currency, inflow), M.Amount(currency, outflow),
        M.Amount(currency, transfers), M.Amount(currency, closing), count,
        Wrap(Wrap(Wrap(opening + inflow) - outflow) - transfers) == closing);
      assert Balanced(strip, store, pairs, req, f, t, i, currency);
      out := out + [strip];
    }
    return Ok(out);
  }

  /** The days on which balances are read: each period's first, and the day after the last. */
  method Bounds(req: Request, periods: seq<string>, ghost f: Month, ghost t: Month) returns (bounds: seq<int>)
    requires Draws(req, periods, f, t)
    ensures |bounds| == |periods| + 1
    ensures forall i :: 0 <= i < |bounds| ==> bounds[i] == Boundary(req.granularity, f, t, i)
  {
    hide MonthText, SelectionAt, FirstDay, DaysIn, SelectionDates, FirstOf, LastOf;
    bounds := [];
    var last := 0;
    for i := 0 to |periods|
      invariant |bounds| == i
      invariant forall j :: 0 <= j < i ==> bounds[j] == Boundary(req.granularity, f, t, j)
      invariant i > 0 ==> last == Boundary(req.granularity, f, t, i)
    {
      SelectionOfPeriod(req.granularity, f, t, i);
      BoundariesAscend(req.granularity, f, t, i);
      var dates := SelectionDates(req.from, req.to, req.granularity, periods[i]).value;
      bounds := bounds + [dates.0.Number()];
      last := dates.1.Number() + 1;
    }
    bounds := bounds + [last];
  }

  // ---- Transfers inside a period ------------------------------------------------------------

  /** UNIQUE (transfer_id, side): a transfer has one member on each side. */
  ghost predicate OnePerSide(pairs: Pairs) {
    forall a, b :: a in pairs.members && b in pairs.members && pairs.members[a] == pairs.members[b] ==> a == b
  }

  ghost predicate DistinctIds(rows: seq<Entry>) {
    forall i, j :: 0 <= i < j < |rows| ==> rows[i].id != rows[j].id
  }

  /** Two different rows on the sides of one transfer, whose amounts cancel. */
  predicate Cancel(a: Entry, b: Entry, pairs: Pairs) {
    && a.id != b.id && a.id in pairs.members && b.id in pairs.members
    && pairs.members[a.id].transfer == pairs.members[b.id].transfer
    && InBase(a) + InBase(b) == 0
  }

  /** Every leg among the rows has its other leg among them too. */
  ghost predicate Whole(rows: seq<Entry>, pairs: Pairs) {
    forall a :: a in rows ==> HasOtherLeg(a, rows, pairs)
  }

  ghost predicate HasOtherLeg(a: Entry, rows: seq<Entry>, pairs: Pairs) {
    exists b :: b in rows && Cancel(a, b, pairs)
  }

  lemma OtherLeg(a: Entry, rows: seq<Entry>, pairs: Pairs) returns (b: Entry)
    requires HasOtherLeg(a, rows, pairs)
    ensures b in rows && Cancel(a, b, pairs)
  {
    hide Cancel;
    b :| b in rows && Cancel(a, b, pairs);
  }

  lemma {:induction false} SumAppend(a: seq<Entry>, b: seq<Entry>)
    ensures SumInBase(a + b) == SumInBase(a) + SumInBase(b)
  {
    if b == [] {
      assert a + b == a;
    } else {
      assert (a + b)[..|a + b| - 1] == a + b[..|b| - 1];
      SumAppend(a, b[..|b| - 1]);
    }
  }

  /** A transfer has no third leg. */
  lemma NoThirdLeg(a: Entry, b: Entry, c: Entry, pairs: Pairs)
    requires OnePerSide(pairs) && Cancel(a, b, pairs) && Cancel(a, c, pairs)
    ensures b.id == c.id
  {
    var m := pairs.members;
    assert m[a.id].side != m[b.id].side && m[a.id].side != m[c.id].side;
    assert m[b.id] == m[c.id];
  }

  /** A list without its last row and without row `j`. */
  function WithoutTwo(rows: seq<Entry>, j: nat): (r: seq<Entry>)
    requires j < |rows| - 1
    ensures |r| == |rows| - 2
  {
    var init := rows[..|rows| - 1];
    init[..j] + init[j + 1..]
  }

  lemma WithoutTwoAt(rows: seq<Entry>, j: nat, k: nat)
    requires j < |rows| - 1 && k < |rows| - 2
    ensures WithoutTwo(rows, j)[k] == rows[if k < j then k else k + 1]
  {
  }

  lemma WithoutTwoDistinct(rows: seq<Entry>, j: nat)
    requires j < |rows| - 1 && DistinctIds(rows)
    ensures DistinctIds(WithoutTwo(rows, j))
  {
    hide WithoutTwo;
    var rest := WithoutTwo(rows, j);
    forall a, b | 0 <= a < b < |rest|
      ensures rest[a].id != rest[b].id
    {
      WithoutTwoAt(rows, j, a);
      WithoutTwoAt(rows, j, b);
    }
  }

  lemma WithoutTwoHas(rows: seq<Entry>, j: nat, e: Entry)
    requires j < |rows| - 1 && DistinctIds(rows)
    ensures e in WithoutTwo(rows, j) <==> e in rows && e.id != rows[j].id && e.id != rows[|rows| - 1].id
  {
    hide WithoutTwo;
    var rest := WithoutTwo(rows, j);
    if e in rows && e.id != rows[j].id && e.id != rows[|rows| - 1].id {
      var k :| 0 <= k < |rows| && rows[k] == e;
      WithoutTwoAt(rows, j, if k < j then k else k - 1);
      assert rest[if k < j then k else k - 1] == e;
    }
    if e in rest {
      var k :| 0 <= k < |rest| && rest[k] == e;
      WithoutTwoAt(rows, j, k);
      assert rows[if k < j then k else k + 1] == e;
    }
  }

  lemma SumOne(e: Entry)
    ensures SumInBase([e]) == InBase(e)
  {
    assert [e][..0] == [];
  }

  lemma SumAround(a: seq<Entry>, e: Entry, b: seq<Entry>)
    ensures SumInBase(a + [e] + b) == SumInBase(a + b) + InBase(e)
  {
    hide InBase, SumInBase;
    SumAppend(a + [e], b);
    SumAppend(a, [e]);
    SumAppend(a, b);
    SumOne(e);
  }

  lemma SplitAround(s: seq<Entry>, j: nat)
    requires j < |s|
    ensures s == s[..j] + [s[j]] + s[j + 1..]
  {
  }

  lemma SumWithout(s: seq<Entry>, j: nat)
    requires j < |s|
    ensures SumInBase(s) == SumInBase(s[..j] + s[j + 1..]) + InBase(s[j])
  {
    hide *;
    SplitAround(s, j);
    SumAround(s[..j], s[j], s[j + 1..]);
  }

  lemma SumOfLast(s: seq<Entry>)
    requires s != []
    ensures SumInBase(s) == SumInBase(s[..|s| - 1]) + InBase(s[|s| - 1])
  {
  }

  lemma WithoutTwoSum(rows: seq<Entry>, j: nat)
    requires j < |rows| - 1
    ensures SumInBase(rows) == SumInBase(WithoutTwo(rows, j)) + InBase(rows[j]) + InBase(rows[|rows| - 1])
  {
    hide SumInBase, InBase;
    SumOfLast(rows);
    SumWithout(rows[..|rows| - 1], j);
  }

  lemma RestIsWhole(rows: seq<Entry>, pairs: Pairs, j: nat)
    requires OnePerSide(pairs) && DistinctIds(rows) && Whole(rows, pairs)
    requires j < |rows| - 1 && Cancel(rows[|rows| - 1], rows[j], pairs)
    ensures Whole(WithoutTwo(rows, j), pairs)
  {
    hide Cancel, OnePerSide, WithoutTwo, InBase, HasOtherLeg, DistinctIds;
    var rest := WithoutTwo(rows, j);
    forall a | a in rest
      ensures HasOtherLeg(a, rest, pairs)
    {
      WithoutTwoHas(rows, j, a);
      var b := OtherLeg(a, rows, pairs);
      StaysIn(rows, pairs, j, a, b);
      OtherLegIn(a, b, rest, pairs);
    }
  }

  lemma OtherLegIn(a: Entry, b: Entry, rows: seq<Entry>, pairs: Pairs)
    requires b in rows && Cancel(a, b, pairs)
    ensures HasOtherLeg(a, rows, pairs)
  {
  }

  lemma StaysIn(rows: seq<Entry>, pairs: Pairs, j: nat, a: Entry, b: Entry)
    requires OnePerSide(pairs) && DistinctIds(rows)
    requires j < |rows| - 1 && Cancel(rows[|rows| - 1], rows[j], pairs)
    requires a in WithoutTwo(rows, j) && b in rows && Cancel(a, b, pairs)
    ensures b in WithoutTwo(rows, j)
  {
    hide Cancel, OnePerSide, WithoutTwo, InBase;
    var last, other := rows[|rows| - 1], rows[j];
    WithoutTwoHas(rows, j, a);
    WithoutTwoHas(rows, j, b);
    CancelParts(a, b, pairs);
    CancelParts(last, other, pairs);
    if b.id == last.id {
      SameId(rows, b, last);
      NoThirdLeg(last, a, other, pairs);
    } else if b.id == other.id {
      SameId(rows, b, other);
      NoThirdLeg(other, a, last, pairs);
    }
  }

  lemma PartnerOfLast(rows: seq<Entry>, pairs: Pairs) returns (j: nat)
    requires rows != [] && Whole(rows, pairs)
    ensures j < |rows| - 1 && Cancel(rows[|rows| - 1], rows[j], pairs)
  {
    hide Cancel, InBase, HasOtherLeg;
    var last := rows[|rows| - 1];
    assert last in rows;
    var other := OtherLeg(last, rows, pairs);
    CancelParts(last, other, pairs);
    j :| 0 <= j < |rows| && rows[j] == other;
  }

  lemma {:induction false} WholeCancels(rows: seq<Entry>, pairs: Pairs)
    requires OnePerSide(pairs) && DistinctIds(rows) && Whole(rows, pairs)
    ensures SumInBase(rows) == 0
    decreases |rows|
  {
    if rows != [] {
      hide *;
      var j := PartnerOfLast(rows, pairs);
      CancelParts(rows[|rows| - 1], rows[j], pairs);
      WithoutTwoDistinct(rows, j);
      RestIsWhole(rows, pairs, j);
      WithoutTwoSum(rows, j);
      WholeCancels(WithoutTwo(rows, j), pairs);
    }
  }

  lemma CancelParts(a: Entry, b: Entry, pairs: Pairs)
    requires Cancel(a, b, pairs)
    ensures Cancel(b, a, pairs) && a.id != b.id && InBase(a) + InBase(b) == 0
  {
  }

  lemma SameId(rows: seq<Entry>, a: Entry, b: Entry)
    requires DistinctIds(rows) && a in rows && b in rows && a.id == b.id
    ensures a == b
  {
  }

  lemma {:induction false} LegsMoved(store: seq<Entry>, pairs: Pairs, req: Request, lo: int, hi: int)
    requires ValidStore(store)
    ensures Moved(store, Transfer, pairs, req, lo, hi) == SumInBase(LegRows(store, pairs, req, lo, hi))
  {
    hide Booked, IsLeg;
    if store != [] {
      var before, e := store[..|store| - 1], store[|store| - 1];
      LegsMoved(before, pairs, req, lo, hi);
      var rows := LegRows(before, pairs, req, lo, hi);
      assert (rows + [e])[..|rows|] == rows && rows + [] == rows;
    }
  }

  lemma {:induction false} LegsAreDistinct(store: seq<Entry>, pairs: Pairs, req: Request, lo: int, hi: int)
    requires ValidStore(store) && DistinctIds(store)
    ensures DistinctIds(LegRows(store, pairs, req, lo, hi))
    ensures forall e :: e in LegRows(store, pairs, req, lo, hi) ==>
                          e in store && Booked(e, req, lo, hi) && IsLeg(e, pairs)
  {
    hide Booked, IsLeg;
    if store != [] {
      var before, e := store[..|store| - 1], store[|store| - 1];
      LegsAreDistinct(before, pairs, req, lo, hi);
      forall r | r in LegRows(before, pairs, req, lo, hi)
        ensures r.id != e.id
      {
        var j :| 0 <= j < |before| && before[j] == r;
        assert store[j] == r;
      }
    }
  }

  /** A period holding both legs of every transfer it touches moves nothing by transfers,
    * so its own rows alone explain its closing balance. */
  lemma TransfersCancel(store: seq<Entry>, pairs: Pairs, req: Request, lo: int, hi: int)
    requires ValidStore(store) && DistinctIds(store) && OnePerSide(pairs)
    requires Whole(LegRows(store, pairs, req, lo, hi), pairs)
    ensures Moved(store, Transfer, pairs, req, lo, hi) == 0
    ensures Moved(store, Every, pairs, req, lo, hi)
         == Moved(store, Inflow, pairs, req, lo, hi) + Moved(store, Outflow, pairs, req, lo, hi)
  {
    LegsAreDistinct(store, pairs, req, lo, hi);
    WholeCancels(LegRows(store, pairs, req, lo, hi), pairs);
    LegsMoved(store, pairs, req, lo, hi);
    TermsCover(store, pairs, req, lo, hi);
  }
}
