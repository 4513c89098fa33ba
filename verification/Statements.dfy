/** From a parsed statement to ledger amounts: validation row by row and over the file, the
  * declared balance, and the signed amount each row becomes. */
module Statements {
  import opened Wrappers
  import opened Int64
  import M = Money
  import ImportStatus
  import D = Dedup

  /** One line of a statement; `debit` and `credit` are the reader's own parse. */
  datatype Row = Row(
    lineNo: int, bookedOn: string, documentNo: string, counterpartyName: string, counterpartyAccount: string,
    description: string, debit: int, credit: int, debitRaw: string, creditRaw: string)

  datatype Statement = Statement(
    currency: string, rows: seq<Row>, opening: int, closing: int, hasDeclaredBalance: bool,
    declaredRowCount: Option<int>)

  /** What is asked of dates, texts and currencies elsewhere. */
  datatype Checks = Checks(
    plausible: string -> bool, parses: string -> bool, replaced: string -> bool, blank: string -> bool,
    known: string -> bool, inPeriod: string -> bool)

  datatype Code =
    | DateImplausible | AmountUnparseable | CurrencyUnknown | DebitAndCreditBothSet | ReplacementCharacter
    | DescriptionMissing

  /** "booked_on", "debit" and so on. */
  datatype Field = BookedOn | Debit | Credit | DocumentNo | CounterpartyName | Description | Currency

  datatype RowError = RowError(line: int, field: Field, code: Code, raw: string)

  datatype Warning = BalanceMismatch(opening: int, movements: int, closing: int, difference: int,
                                     currency: string) | PeriodGap | DuplicateBankReference | RowCountMismatch

  datatype ValidationResult = ValidationResult(
    outcome: ImportStatus.Outcome, rowCount: nat, errors: seq<RowError>, warnings: seq<Warning>,
    balancePassed: Option<bool>)

  /** The columns an int64 holds. */
  ghost predicate Held(st: Statement) {
    && Fits(st.opening) && Fits(st.closing)
    && forall k :: 0 <= k < |st.rows| ==> Fits(st.rows[k].debit) && Fits(st.rows[k].credit)
  }

  // ---- One row ----------------------------------------------------------------------------

  function When(bad: bool, r: Row, field: Field, code: Code, raw: string): seq<RowError> {
    if bad then [RowError(r.lineNo, field, code, raw)] else []
  }

  /** checkRow: its errors, in the order the checks run. */
  function RowErrors(r: Row, checks: Checks): seq<RowError> {
    When(!checks.plausible(r.bookedOn), r, BookedOn, DateImplausible, r.bookedOn)
    + When(!checks.parses(r.debitRaw), r, Debit, AmountUnparseable, r.debitRaw)
    + When(!checks.parses(r.creditRaw), r, Credit, AmountUnparseable, r.creditRaw)
    + When(r.debit != 0 && r.credit != 0, r, Debit, DebitAndCreditBothSet, r.debitRaw + " / " + r.creditRaw)
    + When(checks.replaced(r.bookedOn), r, BookedOn, ReplacementCharacter, r.bookedOn)
    + When(checks.replaced(r.documentNo), r, DocumentNo, ReplacementCharacter, r.documentNo)
    + When(checks.replaced(r.counterpartyName), r, CounterpartyName, ReplacementCharacter, r.counterpartyName)
    + When(checks.replaced(r.description), r, Description, ReplacementCharacter, r.description)
    + When(checks.blank(r.description), r, Description, DescriptionMissing, r.description)
  }

  /** What is wrong with a row, each fault on its own. */
  predicate Wrong(r: Row, checks: Checks, field: Field, code: Code) {
    match code
    case DateImplausible => field == BookedOn && !checks.plausible(r.bookedOn)
    case AmountUnparseable =>
      (field == Debit && !checks.parses(r.debitRaw)) || (field == Credit && !checks.parses(r.creditRaw))
    case DebitAndCreditBothSet => field == Debit && r.debit != 0 && r.credit != 0
    case ReplacementCharacter =>
      field in {BookedOn, DocumentNo, CounterpartyName, Description} && checks.replaced(TextOf(r, field))
    case DescriptionMissing => field == Description && checks.blank(r.description)
    case CurrencyUnknown => false
  }

  function TextOf(r: Row, field: Field): string {
    match field
    case BookedOn => r.bookedOn
    case Debit => r.debitRaw
    case Credit => r.creditRaw
    case DocumentNo => r.documentNo
    case CounterpartyName => r.counterpartyName
    case Description => r.description
    case Currency => ""
  }

  /** The text an error quotes: its field's, or both amounts where the two are the fault. */
  function Quoted(r: Row, field: Field, code: Code): string {
    if code == DebitAndCreditBothSet then r.debitRaw + " / " + r.creditRaw else TextOf(r, field)
  }

  /** The order a row's faults are reported in. */
  function Rank(e: RowError): nat {
    match e.code
    case DateImplausible => 0
    case AmountUnparseable => if e.field == Debit then 1 else 2
    case DebitAndCreditBothSet => 3
    case ReplacementCharacter =>
      if e.field == BookedOn then 4
      else if e.field == DocumentNo then 5
      else if e.field == CounterpartyName then 6
      else 7
    case DescriptionMissing => 8
    case CurrencyUnknown => 9
  }

  /** Every fault of the row is reported, once and in order, and nothing else is. */
  ghost predicate Reports(errors: seq<RowError>, r: Row, checks: Checks) {
    && (forall e :: e in errors <==>
                    e.line == r.lineNo && Wrong(r, checks, e.field, e.code) && e.raw == Quoted(r, e.field, e.code))
    && Ranked(errors)
  }

  /** A row's errors up to a rank, and from it on. */
  ghost predicate InRanks(errors: seq<RowError>, from: nat, to: nat) {
    && (forall e :: e in errors ==> from <= Rank(e) < to)
    && forall i, j :: 0 <= i < j < |errors| ==> Rank(errors[i]) < Rank(errors[j])
  }

  lemma RanksFollow(a: seq<RowError>, b: seq<RowError>, from: nat, mid: nat, to: nat)
    requires InRanks(a, from, mid) && InRanks(b, mid, to) && from <= mid <= to
    ensures InRanks(a + b, from, to)
  {
    hide Rank;
    var all := a + b;
    forall i, j | 0 <= i < j < |all|
      ensures Rank(all[i]) < Rank(all[j])
    {
      if i < |a| <= j {
        assert all[i] in a && all[j] in b;
      }
    }
  }

  lemma RowErrorsReport(r: Row, checks: Checks)
    ensures Reports(RowErrors(r, checks), r, checks)
  {
    RowErrorsInOrder(r, checks);
    hide RowErrors, Wrong, Quoted, Rank;
    forall e: RowError
      ensures e in RowErrors(r, checks) <==>
              e.line == r.lineNo && Wrong(r, checks, e.field, e.code) && e.raw == Quoted(r, e.field, e.code)
    {
      ReportedIsWrong(r, checks, e);
    }
  }

  lemma InWhen(bad: bool, r: Row, field: Field, code: Code, raw: string, e: RowError)
    ensures e in When(bad, r, field, code, raw) <==> bad && e == RowError(r.lineNo, field, code, raw)
  {
  }

  lemma WhenInRank(bad: bool, r: Row, field: Field, code: Code, raw: string)
    ensures
      var rank := Rank(RowError(r.lineNo, field, code, raw));
      InRanks(When(bad, r, field, code, raw), rank, rank + 1)
  {
    hide Rank;
  }

  lemma ReportedIsWrong(r: Row, checks: Checks, e: RowError)
    ensures e in RowErrors(r, checks) <==>
            e.line == r.lineNo && Wrong(r, checks, e.field, e.code) && e.raw == Quoted(r, e.field, e.code)
  {
    hide When, Wrong, Quoted;
    InWhen(!checks.plausible(r.bookedOn), r, BookedOn, DateImplausible, r.bookedOn, e);
    InWhen(!checks.parses(r.debitRaw), r, Debit, AmountUnparseable, r.debitRaw, e);
    InWhen(!checks.parses(r.creditRaw), r, Credit, AmountUnparseable, r.creditRaw, e);
    InWhen(r.debit != 0 && r.credit != 0, r, Debit, DebitAndCreditBothSet, r.debitRaw + " / " + r.creditRaw, e);
    InWhen(checks.replaced(r.bookedOn), r, BookedOn, ReplacementCharacter, r.bookedOn, e);
    InWhen(checks.replaced(r.documentNo), r, DocumentNo, ReplacementCharacter, r.documentNo, e);
    InWhen(checks.replaced(r.counterpartyName), r, CounterpartyName, ReplacementCharacter, r.counterpartyName, e);
    InWhen(checks.replaced(r.description), r, Description, ReplacementCharacter, r.description, e);
    InWhen(checks.blank(r.description), r, Description, DescriptionMissing, r.description, e);
    ByCode(r, checks, e);
  }

  /** The faults a row can have, by their codes. */
  lemma ByCode(r: Row, checks: Checks, e: RowError)
    ensures
      e.line == r.lineNo && Wrong(r, checks, e.field, e.code) && e.raw == Quoted(r, e.field, e.code)
      <==>
      || (!checks.plausible(r.bookedOn) && e == RowError(r.lineNo, BookedOn, DateImplausible, r.bookedOn))
      || (!checks.parses(r.debitRaw) && e == RowError(r.lineNo, Debit, AmountUnparseable, r.debitRaw))
      || (!checks.parses(r.creditRaw) && e == RowError(r.lineNo, Credit, AmountUnparseable, r.creditRaw))
      || (r.debit != 0 && r.credit != 0
          && e == RowError(r.lineNo, Debit, DebitAndCreditBothSet, r.debitRaw + " / " + r.creditRaw))
      || (checks.replaced(r.bookedOn) && e == RowError(r.lineNo, BookedOn, ReplacementCharacter, r.bookedOn))
      || (checks.replaced(r.documentNo) && e == RowError(r.lineNo, DocumentNo, ReplacementCharacter, r.documentNo))
      || (checks.replaced(r.counterpartyName)
          && e == RowError(r.lineNo, CounterpartyName, ReplacementCharacter, r.counterpartyName))
      || (checks.replaced(r.description) && e == RowError(r.lineNo, Description, ReplacementCharacter, r.description))
      || (checks.blank(r.description) && e == RowError(r.lineNo, Description, DescriptionMissing, r.description))
  {
  }

  lemma RowErrorsInOrder(r: Row, checks: Checks)
    ensures InRanks(RowErrors(r, checks), 0, 9)
  {
    hide When, InRanks;
    var e0 := When(!checks.plausible(r.bookedOn), r, BookedOn, DateImplausible, r.bookedOn);
    WhenInRank(!checks.plausible(r.bookedOn), r, BookedOn, DateImplausible, r.bookedOn);
    var e1 := When(!checks.parses(r.debitRaw), r, Debit, AmountUnparseable, r.debitRaw);
    WhenInRank(!checks.parses(r.debitRaw), r, Debit, AmountUnparseable, r.debitRaw);
    var e2 := When(!checks.parses(r.creditRaw), r, Credit, AmountUnparseable, r.creditRaw);
    WhenInRank(!checks.parses(r.creditRaw), r, Credit, AmountUnparseable, r.creditRaw);
    var e3 := When(r.debit != 0 && r.credit != 0, r, Debit, DebitAndCreditBothSet, r.debitRaw + " / " + r.creditRaw);
    WhenInRank(r.debit != 0 && r.credit != 0, r, Debit, DebitAndCreditBothSet, r.debitRaw + " / " + r.creditRaw);
    var e4 := When(checks.replaced(r.bookedOn), r, BookedOn, ReplacementCharacter, r.bookedOn);
    WhenInRank(checks.replaced(r.bookedOn), r, BookedOn, ReplacementCharacter, r.bookedOn);
    var e5 := When(checks.replaced(r.documentNo), r, DocumentNo, ReplacementCharacter, r.documentNo);
    WhenInRank(checks.replaced(r.documentNo), r, DocumentNo, ReplacementCharacter, r.documentNo);
    var e6 := When(checks.replaced(r.counterpartyName), r, CounterpartyName, ReplacementCharacter, r.counterpartyName);
    WhenInRank(checks.replaced(r.counterpartyName), r, CounterpartyName, ReplacementCharacter, r.counterpartyName);
    var e7 := When(checks.replaced(r.description), r, Description, ReplacementCharacter, r.description);
    WhenInRank(checks.replaced(r.description), r, Description, ReplacementCharacter, r.description);
    var e8 := When(checks.blank(r.description), r, Description, DescriptionMissing, r.description);
    WhenInRank(checks.blank(r.description), r, Description, DescriptionMissing, r.description);
    RanksFollow(e0, e1, 0, 1, 2);
    RanksFollow(e0 + e1, e2, 0, 2, 3);
    RanksFollow(e0 + e1 + e2, e3, 0, 3, 4);
    RanksFollow(e0 + e1 + e2 + e3, e4, 0, 4, 5);
    RanksFollow(e0 + e1 + e2 + e3 + e4, e5, 0, 5, 6);
    RanksFollow(e0 + e1 + e2 + e3 + e4 + e5, e6, 0, 6, 7);
    RanksFollow(e0 + e1 + e2 + e3 + e4 + e5 + e6, e7, 0, 7, 8);
    RanksFollow(e0 + e1 + e2 + e3 + e4 + e5 + e6 + e7, e8, 0, 8, 9);
  }

  ghost predicate Ranked(errors: seq<RowError>) {
    forall i, j :: 0 <= i < j < |errors| ==> Rank(errors[i]) < Rank(errors[j])
  }

  lemma {:induction false} RankedIsUnique(a: seq<RowError>, b: seq<RowError>)
    requires Ranked(a) && Ranked(b) && forall e :: e in a <==> e in b
    ensures a == b
  {
    hide Rank;
    assert |b| > 0 ==> b[0] in b;
    if a != [] {
      var m, n := |a| - 1, |b| - 1;
      assert a[m] in b && b[n] in a;
      LastHasRank(a, b[n]);
      LastHasRank(b, a[m]);
      assert a[m] == b[n];
      forall e
        ensures e in a[..m] <==> e in b[..n]
      {
        BeforeLast(a, e);
        BeforeLast(b, e);
      }
      RankedIsUnique(a[..m], b[..n]);
      assert a == a[..m] + [a[m]] && b == b[..n] + [b[n]];
    }
  }

  lemma LastHasRank(errors: seq<RowError>, e: RowError)
    requires Ranked(errors) && e in errors
    ensures e == errors[|errors| - 1] || Rank(e) < Rank(errors[|errors| - 1])
  {
    hide Rank;
  }

  lemma BeforeLast(errors: seq<RowError>, e: RowError)
    requires Ranked(errors) && errors != []
    ensures e in errors[..|errors| - 1] <==> e in errors && e != errors[|errors| - 1]
  {
    hide Rank;
    var n := |errors| - 1;
    if e in errors[..n] {
      var i :| 0 <= i < n && errors[i] == e;
      assert Rank(errors[i]) < Rank(errors[n]);
    }
  }

  /** There is one report of a row. */
  lemma ReportIsUnique(a: seq<RowError>, b: seq<RowError>, r: Row, checks: Checks)
    requires Reports(a, r, checks) && Reports(b, r, checks)
    ensures a == b
  {
    hide Rank, Wrong, Quoted;
    RankedIsUnique(a, b);
  }

  method CheckRow(r: Row, checks: Checks) returns (errors: seq<RowError>)
    ensures Reports(errors, r, checks)
    ensures errors == [] ==> r.debit == 0 || r.credit == 0
  {
    hide When, Reports;
    errors := When(!checks.plausible(r.bookedOn), r, BookedOn, DateImplausible, r.bookedOn);
    errors := errors + When(!checks.parses(r.debitRaw), r, Debit, AmountUnparseable, r.debitRaw);
    errors := errors + When(!checks.parses(r.creditRaw), r, Credit, AmountUnparseable, r.creditRaw);
    errors := errors + When(r.debit != 0
                            && r.credit != 0, r, Debit, DebitAndCreditBothSet, r.debitRaw + " / " + r.creditRaw);
    errors := errors + When(checks.replaced(r.bookedOn), r, BookedOn, ReplacementCharacter, r.bookedOn);
    errors := errors + When(checks.replaced(r.documentNo), r, DocumentNo, ReplacementCharacter, r.documentNo);
    errors := errors + When(checks.replaced(r.counterpartyName), r, CounterpartyName, ReplacementCharacter,
                            r.counterpartyName);
    errors := errors + When(checks.replaced(r.description), r, Description, ReplacementCharacter, r.description);
    errors := errors + When(checks.blank(r.description), r, Description, DescriptionMissing, r.description);
    RowErrorsReport(r, checks);
    if errors == [] {
      NoErrorMeansOneSide(r, checks);
    }
  }

  /** A row without errors has a side that is zero. */
  lemma NoErrorMeansOneSide(r: Row, checks: Checks)
    requires RowErrors(r, checks) == []
    ensures r.debit == 0 || r.credit == 0
  {
    assert |When(r.debit != 0 && r.credit != 0, r, Debit, DebitAndCreditBothSet, r.debitRaw + " / "
                 + r.creditRaw)| <= |RowErrors(r, checks)|;
  }

  function AllErrors(rows: seq<Row>, checks: Checks): seq<RowError> {
    if rows == [] then [] else AllErrors(rows[..|rows| - 1], checks) + RowErrors(rows[|rows| - 1], checks)
  }

  // ---- The amount a row becomes --------------------------------------------------------------

  /** buildTransaction: a debit that is not zero is money out, whatever the credit says. */
  function Amount(r: Row): int {
    if r.debit != 0 then Wrap(0 - r.debit) else r.credit
  }

  /** The signed amount is the row's movement exactly when one of its sides is zero. */
  lemma AmountIsMovement(r: Row)
    requires Fits(r.debit) && Fits(r.credit)
    ensures Amount(r) == Wrap(r.credit - r.debit) <==> r.debit == 0 || r.credit == 0
  {
    var a := WrapDistance(0 - r.debit);
    var b := WrapDistance(r.credit - r.debit);
  }

  function Debits(rows: seq<Row>): int {
    if rows == [] then 0 else Debits(rows[..|rows| - 1]) + rows[|rows| - 1].debit
  }

  function Credits(rows: seq<Row>): int {
    if rows == [] then 0 else Credits(rows[..|rows| - 1]) + rows[|rows| - 1].credit
  }

  function Amounts(rows: seq<Row>): int {
    if rows == [] then 0 else Amounts(rows[..|rows| - 1]) + Amount(rows[|rows| - 1])
  }

  /** The rows whose debit is the one number int64 cannot negate. */
  function Unnegatable(rows: seq<Row>): nat {
    if rows == [] then 0
    else Unnegatable(rows[..|rows| - 1]) + if rows[|rows| - 1].debit == MIN then 1 else 0
  }

  /** Rows with a zero side add up to credits less debits, short of 2^64 for each debit
    * int64 cannot negate. */
  lemma {:induction false} AmountsAreMovements(rows: seq<Row>)
    requires forall k :: 0 <= k < |rows| ==> Fits(rows[k].debit) && Fits(rows[k].credit)
    requires forall k :: 0 <= k < |rows| ==> rows[k].debit == 0 || rows[k].credit == 0
    ensures Amounts(rows) == Credits(rows) - Debits(rows) - Unnegatable(rows) * SPAN
  {
    hide Wrap, Amount;
    if rows != [] {
      var before, r := rows[..|rows| - 1], rows[|rows| - 1];
      AmountsAreMovements(before);
      AmountIsExact(r);
    }
  }

  lemma {:induction false} NoneUnnegatable(rows: seq<Row>)
    ensures Unnegatable(rows) == 0 <==> forall k :: 0 <= k < |rows| ==> rows[k].debit != MIN
  {
    if rows != [] {
      NoneUnnegatable(rows[..|rows| - 1]);
    }
  }

  lemma AmountIsExact(r: Row)
    requires Fits(r.debit) && (r.debit == 0 || r.credit == 0)
    ensures Amount(r) == r.credit - r.debit - if r.debit == MIN then SPAN else 0
  {
  }

  lemma SumsAgree(a: int, b: int, x: int, y: int)
    requires Wrap(a) == Wrap(b) && x == Wrap(y)
    ensures Wrap(a + x) == Wrap(b + y)
  {
    hide Wrap;
    WrapAdd(a, y);
    WrapAdd(b, y);
  }

  // ---- The declared balance -----------------------------------------------------------------

  /** BalanceCheck: opening + credits - debits against the declared closing balance, in
    * int64 throughout. */
  method BalanceCheck(st: Statement, checks: Checks) returns (r: Option<(bool, int)>)
    requires Held(st)
    ensures r.Some? <==> checks.known(st.currency)
    ensures r.Some? ==>
              && (r.value.0 <==> Wrap(st.opening + Credits(st.rows) - Debits(st.rows)) == st.closing)
              && (r.value.0 <==> r.value.1 == 0)
              && r.value.1 == Wrap(st.opening + Credits(st.rows) - Debits(st.rows) - st.closing)
  {
    hide Wrap;
    var debits, credits := SumSides(st.rows);
    var expected := Wrap(Wrap(st.opening + credits) - debits);
    ExpectedBalance(st.opening, Credits(st.rows), Debits(st.rows));
    var difference := Wrap(expected - st.closing);
    hide Credits, Debits;
    WrapAdd(st.opening + Credits(st.rows) - Debits(st.rows), 0 - st.closing);
    ZeroDifference(expected, st.closing);
    if !checks.known(st.currency) {
      return None;
    }
    return Some((difference == 0, difference));
  }

  method SumSides(rows: seq<Row>) returns (debits: int, credits: int)
    ensures debits == Wrap(Debits(rows)) && credits == Wrap(Credits(rows))
  {
    hide Wrap;
    debits, credits := 0, 0;
    for k := 0 to |rows|
      invariant debits == Wrap(Debits(rows[..k])) && credits == Wrap(Credits(rows[..k]))
    {
      assert rows[..k + 1][..k] == rows[..k];
      WrapAdd(Debits(rows[..k]), rows[k].debit);
      WrapAdd(Credits(rows[..k]), rows[k].credit);
      debits := Wrap(debits + rows[k].debit);
      credits := Wrap(credits + rows[k].credit);
    }
    assert rows[..|rows|] == rows;
  }

  lemma ExpectedBalance(opening: int, credits: int, debits: int)
    ensures Wrap(Wrap(opening + Wrap(credits)) - Wrap(debits)) == Wrap(opening + credits - debits)
  {
    hide Wrap;
    WrapAdd(opening, credits);
    WrapAdd(opening + credits, 0 - Wrap(debits));
    WrapNegate(debits);
    WrapAdd(opening + credits, 0 - Wrap(debits));
    WrapAdd(opening + credits, 0 - debits);
  }

  lemma ZeroDifference(a: int, b: int)
    requires Fits(a) && Fits(b)
    ensures Wrap(a - b) == 0 <==> a == b
  {
    if a - b > MAX {
      assert Wrap(a - b) == Wrap(a - b - SPAN) == a - b - SPAN;
    } else if a - b < MIN {
      assert Wrap(a - b) == Wrap(a - b + SPAN) == a - b + SPAN;
    }
  }

  // ---- The file ---------------------------------------------------------------------------

  function Reference(r: Row): string {
    r.bookedOn + "|" + r.documentNo + "|" + r.counterpartyAccount + "|" + M.FormatInt(r.debit) + "|"
    + M.FormatInt(r.credit)
  }

  /** Two rows of the file carry one reference. */
  predicate HasDuplicate(rows: seq<Row>) {
    exists i, j :: 0 <= i < j < |rows| && Reference(rows[i]) == Reference(rows[j])
  }

  /** Which rows are each other's duplicates within a file: the same text for the day, the same
    * document number, counterparty account, debit and credit, where no text has a `|` in it. */
  lemma ReferenceMeans(a: Row, b: Row)
    requires '|' !in a.bookedOn && '|' !in a.documentNo && '|' !in a.counterpartyAccount
    requires '|' !in b.bookedOn && '|' !in b.documentNo && '|' !in b.counterpartyAccount
    ensures Reference(a) == Reference(b)
       <==> && a.bookedOn == b.bookedOn && a.documentNo == b.documentNo
            && a.counterpartyAccount == b.counterpartyAccount && a.debit == b.debit && a.credit == b.credit
  {
    hide M.FormatInt;
    if Reference(a) == Reference(b) {
      var da, db := M.FormatInt(a.debit), M.FormatInt(b.debit);
      var ca, cb := M.FormatInt(a.credit), M.FormatInt(b.credit);
      ReferenceParts(a);
      ReferenceParts(b);
      NoBarInNumber(a.debit);
      NoBarInNumber(b.debit);
      D.TwoParts(a.bookedOn, a.documentNo + ['|'] + (a.counterpartyAccount + ['|'] + (da + ['|'] + ca)),
                 b.bookedOn, b.documentNo + ['|'] + (b.counterpartyAccount + ['|'] + (db + ['|'] + cb)), '|');
      D.TwoParts(a.documentNo, a.counterpartyAccount + ['|'] + (da + ['|'] + ca),
                 b.documentNo, b.counterpartyAccount + ['|'] + (db + ['|'] + cb), '|');
      D.TwoParts(a.counterpartyAccount, da + ['|'] + ca, b.counterpartyAccount, db + ['|'] + cb, '|');
      D.TwoParts(da, ca, db, cb, '|');
      D.IntTextIsInjective(a.debit, b.debit);
      D.IntTextIsInjective(a.credit, b.credit);
    }
  }

  lemma ReferenceParts(r: Row)
    ensures Reference(r)
         == r.bookedOn + ['|'] + (r.documentNo + ['|'] + (r.counterpartyAccount + ['|']
                                                          + (M.FormatInt(r.debit) + ['|'] + M.FormatInt(r.credit))))
  {
    hide M.FormatInt;
  }

  lemma NoBarInNumber(n: int)
    ensures '|' !in M.FormatInt(n)
  {
  }

  method CheckDuplicateReference(rows: seq<Row>) returns (found: bool)
    ensures found <==> HasDuplicate(rows)
  {
    hide Reference;
    var seen: set<string> := {};
    for k := 0 to |rows|
      invariant forall s :: s in seen <==> exists i :: 0 <= i < k && Reference(rows[i]) == s
      invariant forall i, j :: 0 <= i < j < k ==> Reference(rows[i]) != Reference(rows[j])
    {
      if Reference(rows[k]) in seen {
        return true;
      }
      seen := seen + {Reference(rows[k])};
    }
    return false;
  }

  /** Rows outside the declared period. */
  predicate OutsidePeriod(rows: seq<Row>, checks: Checks) {
    exists k :: 0 <= k < |rows| && !checks.inPeriod(rows[k].bookedOn)
  }

  predicate CountMismatch(st: Statement) {
    st.declaredRowCount.Some? && |st.rows| != st.declaredRowCount.value
  }

  function BalanceWarning(st: Statement, checks: Checks): seq<Warning> {
    if st.hasDeclaredBalance && checks.known(st.currency) && !Reconciles(st)
    then [BalanceMismatch(
            st.opening, Wrap(Credits(st.rows) - Debits(st.rows)), st.closing,
            Wrap(st.opening + Credits(st.rows) - Debits(st.rows) - st.closing), st.currency)]
    else []
  }

  /** What a validation finds wrong with the file as a whole, in order. */
  function Warnings(st: Statement, checks: Checks): seq<Warning> {
    BalanceWarning(st, checks)
    + (if OutsidePeriod(st.rows, checks) then [PeriodGap] else [])
    + (if HasDuplicate(st.rows) then [DuplicateBankReference] else [])
    + (if CountMismatch(st) then [RowCountMismatch] else [])
  }

  /** Each warning, and when it is given: at most once, in this order, and nothing else. */
  lemma WarningsMean(st: Statement, checks: Checks)
    ensures
      var w := Warnings(st, checks);
      && (PeriodGap in w <==> exists k :: 0 <= k < |st.rows| && !checks.inPeriod(st.rows[k].bookedOn))
      && (DuplicateBankReference in w
          <==> exists i, j :: 0 <= i < j < |st.rows| && Reference(st.rows[i]) == Reference(st.rows[j]))
      && (RowCountMismatch in w <==> exists n :: st.declaredRowCount == Some(n) && n != |st.rows|)
      && (forall x :: x in w && x.BalanceMismatch? ==>
                        && x.opening == st.opening && x.closing == st.closing
                        && x.currency == st.currency
                        && x.movements == Wrap(Credits(st.rows) - Debits(st.rows))
                        && x.difference == Wrap(st.opening + Credits(st.rows) - Debits(st.rows) - st.closing))
      && ((exists x :: x in w && x.BalanceMismatch?)
          <==> && st.hasDeclaredBalance && checks.known(st.currency)
               && Wrap(st.opening + Credits(st.rows) - Debits(st.rows)) != st.closing)
      && (forall i, j :: 0 <= i < j < |w| ==> WarningRank(w[i]) < WarningRank(w[j]))
  {
    hide Wrap, Reference, Credits, Debits, WarningRank, BalanceWarning, OutsidePeriod, HasDuplicate, CountMismatch;
    BalanceWarningMeans(st, checks);
    FileChecksMean(st, checks);
    InTurn(BalanceWarning(st, checks), OutsidePeriod(st.rows, checks), HasDuplicate(st.rows), CountMismatch(st));
  }

  lemma BalanceWarningMeans(st: Statement, checks: Checks)
    ensures
      var w := BalanceWarning(st, checks);
      && |w| <= 1
      && (forall x :: x in w ==>
                        && x.BalanceMismatch? && x.opening == st.opening && x.closing == st.closing
                        && x.currency == st.currency
                        && x.movements == Wrap(Credits(st.rows) - Debits(st.rows))
                        && x.difference == Wrap(st.opening + Credits(st.rows) - Debits(st.rows) - st.closing))
      && ((exists x :: x in w)
          <==> && st.hasDeclaredBalance && checks.known(st.currency)
               && Wrap(st.opening + Credits(st.rows) - Debits(st.rows)) != st.closing)
  {
    hide Wrap, Credits, Debits;
    var w := BalanceWarning(st, checks);
    assert w != [] ==> w[0] in w;
  }

  lemma FileChecksMean(st: Statement, checks: Checks)
    ensures OutsidePeriod(st.rows, checks) <==> exists k :: 0 <= k < |st.rows| && !checks.inPeriod(st.rows[k].bookedOn)
    ensures HasDuplicate(st.rows)
       <==> exists i, j :: 0 <= i < j < |st.rows| && Reference(st.rows[i]) == Reference(st.rows[j])
    ensures CountMismatch(st) <==> exists n :: st.declaredRowCount == Some(n) && n != |st.rows|
  {
    hide Reference;
    assert CountMismatch(st) ==> st.declaredRowCount == Some(st.declaredRowCount.value);
  }

  lemma InTurn(balance: seq<Warning>, gap: bool, duplicate: bool, count: bool)
    requires |balance| <= 1 && forall x :: x in balance ==> x.BalanceMismatch?
    ensures
      var w :=
        balance + (if gap then [PeriodGap] else []) + (if duplicate then [DuplicateBankReference] else [])
        + (if count then [RowCountMismatch] else []);
      && (PeriodGap in w <==> gap) && (DuplicateBankReference in w <==> duplicate) && (RowCountMismatch in w <==> count)
      && (forall x :: x in w && x.BalanceMismatch? <==> x in balance)
      && (forall i, j :: 0 <= i < j < |w| ==> WarningRank(w[i]) < WarningRank(w[j]))
  {
  }

  function WarningRank(w: Warning): nat {
    match w
    case BalanceMismatch(_, _, _, _, _) => 0
    case PeriodGap => 1
    case DuplicateBankReference => 2
    case RowCountMismatch => 3
  }

  /** The file's own arithmetic, as int64 does it. */
  predicate Reconciles(st: Statement) {
    Wrap(st.opening + Credits(st.rows) - Debits(st.rows)) == st.closing
  }

  /** ValidateStatement: rejected exactly when some row or the currency is in error, and
    * the tri-state of the balance check. */
  method ValidateStatement(st: Statement, checks: Checks) returns (r: ValidationResult)
    requires Held(st)
    ensures r.errors == AllErrors(st.rows, checks)
                        + if checks.known(st.currency) then []
                        else [RowError(0, Currency, CurrencyUnknown, st.currency)]
    ensures r.warnings == Warnings(st, checks) && r.rowCount == |st.rows|
    ensures r.outcome == ImportStatus.DecideOutcome(|r.errors|, |r.warnings|)
    ensures r.outcome.RejectedOutcome? <==> r.errors != []
    ensures r.outcome.Valid? <==> r.errors == [] && r.warnings == []
    ensures r.balancePassed
         == if st.hasDeclaredBalance && checks.known(st.currency) then Some(Reconciles(st)) else None
  {
    hide RowErrors, HasDuplicate, Wrap;
    var errors := CollectErrors(st.rows, checks);
    if !checks.known(st.currency) {
      errors := errors + [RowError(0, Currency, CurrencyUnknown, st.currency)];
    } else {
      assert errors + [] == errors;
    }
    var passed, warnings := CheckBalance(st, checks);
    if OutsidePeriod(st.rows, checks) {
      warnings := warnings + [PeriodGap];
    } else {
      assert warnings + [] == warnings;
    }
    var duplicate := CheckDuplicateReference(st.rows);
    if duplicate {
      warnings := warnings + [DuplicateBankReference];
    } else {
      assert warnings + [] == warnings;
    }
    if CountMismatch(st) {
      warnings := warnings + [RowCountMismatch];
    } else {
      assert warnings + [] == warnings;
    }
    return ValidationResult(ImportStatus.DecideOutcome(|errors|, |warnings|), |st.rows|, errors, warnings, passed);
  }

  method CollectErrors(rows: seq<Row>, checks: Checks) returns (errors: seq<RowError>)
    ensures errors == AllErrors(rows, checks)
  {
    hide RowErrors;
    errors := [];
    for k := 0 to |rows|
      invariant errors == AllErrors(rows[..k], checks)
    {
      assert rows[..k + 1][..k] == rows[..k];
      var found := CheckRow(rows[k], checks);
      RowErrorsReport(rows[k], checks);
      ReportIsUnique(found, RowErrors(rows[k], checks), rows[k], checks);
      errors := errors + found;
    }
    assert rows[..|rows|] == rows;
  }

  method CheckBalance(st: Statement, checks: Checks) returns (passed: Option<bool>, warnings: seq<Warning>)
    requires Held(st)
    ensures passed == if st.hasDeclaredBalance && checks.known(st.currency) then Some(Reconciles(st)) else None
    ensures warnings
         == if st.hasDeclaredBalance && checks.known(st.currency) && !Reconciles(st)
            then [BalanceMismatch(
                    st.opening, Wrap(Credits(st.rows) - Debits(st.rows)), st.closing,
                    Wrap(st.opening + Credits(st.rows) - Debits(st.rows) - st.closing), st.currency)]
            else []
  {
    hide Wrap, Credits, Debits;
    if !st.hasDeclaredBalance {
      return None, [];
    }
    var checked := BalanceCheck(st, checks);
    if checked.None? {
      return None, [];
    }
    if checked.value.0 {
      return Some(true), [];
    }
    var movements := SumMovements(st.rows);
    return Some(false), [BalanceMismatch(st.opening, movements, st.closing, checked.value.1, st.currency)];
  }

  method SumMovements(rows: seq<Row>) returns (movements: int)
    ensures movements == Wrap(Credits(rows) - Debits(rows))
  {
    hide Wrap;
    movements := 0;
    for k := 0 to |rows|
      invariant movements == Wrap(Credits(rows[..k]) - Debits(rows[..k]))
    {
      assert rows[..k + 1][..k] == rows[..k];
      var moved := Wrap(rows[k].credit - rows[k].debit);
      SumsAgree(movements, Credits(rows[..k]) - Debits(rows[..k]), moved, rows[k].credit - rows[k].debit);
      movements := Wrap(movements + moved);
    }
    assert rows[..|rows|] == rows;
  }

  // ---- Money from the statement to the ledger --------------------------------------------------

  lemma {:induction false} NoErrorsNoneOfTheRows(rows: seq<Row>, checks: Checks, k: nat)
    requires AllErrors(rows, checks) == [] && k < |rows|
    ensures RowErrors(rows[k], checks) == []
  {
    hide RowErrors;
    if k < |rows| - 1 {
      NoErrorsNoneOfTheRows(rows[..|rows| - 1], checks, k);
    }
  }

  /** The amounts of the rows `keep` marks: inserted, or skipped as already imported. */
  function Kept(rows: seq<Row>, inserted: seq<bool>, keep: bool): int
    requires |inserted| == |rows|
  {
    if rows == [] then 0
    else
      var n := |rows| - 1;
      Kept(rows[..n], inserted[..n], keep) + if inserted[n] == keep then Amount(rows[n]) else 0
  }

  lemma {:induction false} InsertedAndSkipped(rows: seq<Row>, inserted: seq<bool>)
    requires |inserted| == |rows|
    ensures Kept(rows, inserted, true) + Kept(rows, inserted, false) == Amounts(rows)
  {
    hide Amount;
    if rows != [] {
      InsertedAndSkipped(rows[..|rows| - 1], inserted[..|rows| - 1]);
    }
  }

  /** For every statement validation does not reject, the amounts the ledger gets and the
    * ones it skips as already there add up to credits less debits exactly when no debit is
    * the most negative int64; each one that is takes 2^64 from the sum. */
  lemma StatementConserves(st: Statement, checks: Checks, inserted: seq<bool>)
    requires Held(st) && AllErrors(st.rows, checks) == [] && |inserted| == |st.rows|
    ensures
      var ledger, movements := Kept(st.rows, inserted, true)
                               + Kept(st.rows, inserted, false), Credits(st.rows) - Debits(st.rows);
      && ledger == movements - Unnegatable(st.rows) * SPAN
      && Wrap(ledger) == Wrap(movements)
      && (ledger == movements <==> forall k :: 0 <= k < |st.rows| ==> st.rows[k].debit != MIN)
  {
    hide Wrap, RowErrors, AllErrors;
    forall k | 0 <= k < |st.rows|
      ensures st.rows[k].debit == 0 || st.rows[k].credit == 0
    {
      NoErrorsNoneOfTheRows(st.rows, checks, k);
      NoErrorMeansOneSide(st.rows[k], checks);
    }
    InsertedAndSkipped(st.rows, inserted);
    AmountsAreMovements(st.rows);
    NoneUnnegatable(st.rows);
    SpansVanish(Credits(st.rows) - Debits(st.rows), Unnegatable(st.rows));
  }

  lemma SpansVanish(x: int, k: int)
    ensures Wrap(x - k * SPAN) == Wrap(x)
  {
    var j := WrapDistance(x);
    WrapIsUnique(x - k * SPAN, Wrap(x), j + k);
  }

  /** It is off in a statement of one row: a debit of -2^63 moves 2^63 minor units in, and
    * the ledger books as many going out. */
  lemma LoneDebitIsLost(st: Statement, checks: Checks, r: Row)
    requires st.rows == [r] && r.debit == MIN && r.credit == 0 && AllErrors(st.rows, checks) == []
    ensures Credits(st.rows) - Debits(st.rows) == MAX + 1 && Kept(st.rows, [true], true) == MIN
  {
    hide AllErrors;
    assert st.rows[..0] == [];
    AmountIsExact(r);
  }

  /** So a passed balance check says: the declared opening balance, what was inserted and
    * what was skipped as a duplicate make the declared closing balance. */
  lemma PassedBalanceConserves(st: Statement, checks: Checks, inserted: seq<bool>)
    requires Held(st) && AllErrors(st.rows, checks) == [] && |inserted| == |st.rows| && Reconciles(st)
    ensures Wrap(st.opening + Kept(st.rows, inserted, true) + Kept(st.rows, inserted, false)) == st.closing
    ensures Fits(st.opening + Kept(st.rows, inserted, true) + Kept(st.rows, inserted, false)) ==>
              st.opening + Kept(st.rows, inserted, true) + Kept(st.rows, inserted, false) == st.closing
  {
    hide Wrap, AllErrors, Kept;
    StatementConserves(st, checks, inserted);
    var ledger := Kept(st.rows, inserted, true) + Kept(st.rows, inserted, false);
    WrapAdd(st.opening, ledger);
    WrapAdd(st.opening, Credits(st.rows) - Debits(st.rows));
  }
}
