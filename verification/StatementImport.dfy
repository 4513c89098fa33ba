/** A validated statement imported: its rows hashed, looked up, stored or skipped, and
  * paired, in one transaction. What the ledger gains is what the statement declares. */
module StatementImport {
  import opened Wrappers
  import opened Int64
  import opened Statements
  import Calendar
  import M = Money
  import D = Dedup
  import T = Transfers

  /** What a row is read with: its account, and the parsing of dates and descriptions. */
  datatype Reading = Reading(
    account: string, entity: string, kind: string, date: string -> Option<Calendar.Date>, norm: string -> string)

  datatype Error = BadDate | NotPaired(why: T.Error)

  datatype Counts = Counts(inserted: nat, skipped: nat)

  /** The transactions table by its hashes, and the same rows as pairing sees them. */
  datatype State = State(hashes: seq<string>, pairing: T.State)

  // ---- What a row becomes ---------------------------------------------------------------------

  /** buildTransaction refuses a row whose date it cannot read. */
  predicate Dated(rows: seq<Row>, reading: Reading) {
    forall k :: 0 <= k < |rows| ==> Readable(rows[k], reading)
  }

  predicate Readable(r: Row, reading: Reading) {
    var date := reading.date(r.bookedOn);
    date.Some? && 1 <= date.value.month
  }

  function ContentOf(r: Row, currency: string, reading: Reading): D.Content
    requires Readable(r, reading)
  {
    var date := reading.date(r.bookedOn).value;
    D.Content(reading.account, date, M.Amount(currency, Amount(r)), reading.norm(r.description), r.documentNo, "", 0)
  }

  function Contents(rows: seq<Row>, currency: string, reading: Reading): (s: seq<D.Content>)
    requires Dated(rows, reading)
    ensures |s| == |rows| && forall k :: 0 <= k < |rows| ==> s[k] == ContentOf(rows[k], currency, reading)
  {
    seq(|rows|, k requires 0 <= k < |rows| => ContentOf(rows[k], currency, reading))
  }

  function RowHashes(rows: seq<Row>, currency: string, reading: Reading, hash: string -> string): (s: seq<string>)
    requires Dated(rows, reading)
    ensures |s| == |rows|
  {
    D.Hashes(D.Keys(Contents(rows, currency, reading)), hash)
  }

  function TxnOf(r: Row, id: nat, reading: Reading): T.Txn
    requires Readable(r, reading)
  {
    T.Txn(id, reading.entity, reading.account, reading.kind, reading.date(r.bookedOn).value.Number(), Amount(r))
  }

  /** The rows whose hash nothing stored has, each with the id it is given. */
  function Inserted(rows: seq<Row>, hashes: seq<string>, ids: seq<nat>, stored: seq<string>,
                    reading: Reading): (s: seq<T.Txn>)
    requires |hashes| == |rows| == |ids| && Dated(rows, reading)
    ensures |s| <= |rows|
    ensures forall t :: t in s ==> t.account == reading.account && t.id in ids
  {
    if rows == [] then []
    else
      var n := |rows| - 1;
      Inserted(rows[..n], hashes[..n], ids[..n], stored, reading)
      + if hashes[n] in stored then [] else [TxnOf(rows[n], ids[n], reading)]
  }

  /** The amounts of the rows already stored by an earlier import. */
  function SkippedMinor(rows: seq<Row>, hashes: seq<string>, stored: seq<string>): int
    requires |hashes| == |rows|
  {
    if rows == [] then 0
    else
      var n := |rows| - 1;
      SkippedMinor(rows[..n], hashes[..n], stored) + if hashes[n] in stored then Amount(rows[n]) else 0
  }

  function LedgerTotal(store: seq<T.Txn>): int {
    if store == [] then 0 else LedgerTotal(store[..|store| - 1]) + store[|store| - 1].amount
  }

  // ---- One import, as a whole --------------------------------------------------------------------

  /** Ids the database has not given yet. */
  ghost predicate NewIds(ids: seq<nat>, s: State) {
    && (forall k :: 0 <= k < |ids| ==> !T.HasId(s.pairing.store, ids[k]))
    && (forall j, k :: 0 <= j < k < |ids| ==> ids[j] != ids[k])
  }

  function Import(s: State, st: Statement, reading: Reading, ids: seq<nat>, hash: string -> string): Result<State,
    Error>
    requires |ids| == |st.rows|
  {
    if !Dated(st.rows, reading) then Err(BadDate)
    else
      var hashes := RowHashes(st.rows, st.currency, reading, hash);
      match T.Persisted(s.pairing, Inserted(st.rows, hashes, ids, s.hashes, reading))
      case Err(e) => Err(NotPaired(e))
      case Ok(pairing) => Ok(State(s.hashes + D.Fresh(s.hashes, hashes), pairing))
  }

  /** A hash for every row. */
  ghost predicate Inv(s: State) {
    |s.hashes| == |s.pairing.store| && T.Inv(s.pairing)
  }

  lemma {:induction false} InsertedIsFresh(rows: seq<Row>, hashes: seq<string>, ids: seq<nat>, stored: seq<string>,
                                           reading: Reading)
    requires |hashes| == |rows| == |ids| && Dated(rows, reading)
    ensures |Inserted(rows, hashes, ids, stored, reading)| == |D.Fresh(stored, hashes)|
  {
    hide Readable, TxnOf, Inserted, D.Fresh;
    if rows == [] {
      NothingInserted(stored, reading);
      NothingFound(stored);
    } else {
      var n := |rows| - 1;
      assert rows[..n + 1] == rows && hashes[..n + 1] == hashes && ids[..n + 1] == ids;
      InsertedIsFresh(rows[..n], hashes[..n], ids[..n], stored, reading);
      InsertedStep(rows, hashes, ids, stored, reading, n);
      D.FreshStep(stored, hashes, n);
    }
  }

  lemma NothingFound(stored: seq<string>)
    ensures D.Fresh(stored, []) == []
  {
  }

  lemma {:induction false} InsertedAmounts(rows: seq<Row>, hashes: seq<string>, ids: seq<nat>, stored: seq<string>,
                                           reading: Reading)
    requires |hashes| == |rows| == |ids| && Dated(rows, reading)
    ensures LedgerTotal(Inserted(rows, hashes, ids, stored, reading)) + SkippedMinor(rows, hashes, stored)
         == Amounts(rows)
  {
    hide Readable, Amount;
    if rows != [] {
      var n := |rows| - 1;
      InsertedAmounts(rows[..n], hashes[..n], ids[..n], stored, reading);
      var before := Inserted(rows[..n], hashes[..n], ids[..n], stored, reading);
      TotalAppend(before, if hashes[n] in stored then [] else [TxnOf(rows[n], ids[n], reading)]);
      TotalOfOne(TxnOf(rows[n], ids[n], reading));
    }
  }

  lemma TotalOfOne(t: T.Txn)
    ensures LedgerTotal([t]) == t.amount
  {
    assert [t][..0] == [];
  }

  lemma {:induction false} TotalAppend(a: seq<T.Txn>, b: seq<T.Txn>)
    ensures LedgerTotal(a + b) == LedgerTotal(a) + LedgerTotal(b)
  {
    if b == [] {
      assert a + b == a;
    } else {
      assert (a + b)[..|a + b| - 1] == a + b[..|b| - 1];
      TotalAppend(a, b[..|b| - 1]);
    }
  }

  lemma {:induction false} InsertedHasNewIds(rows: seq<Row>, hashes: seq<string>, ids: seq<nat>, stored: seq<string>,
                                             reading: Reading)
    requires |hashes| == |rows| == |ids| && Dated(rows, reading)
    requires forall j, k :: 0 <= j < k < |ids| ==> ids[j] != ids[k]
    ensures
      var s := Inserted(rows, hashes, ids, stored, reading);
      forall j, k :: 0 <= j < k < |s| ==> s[j].id != s[k].id
  {
    hide Readable, Inserted;
    if rows == [] {
      NothingInserted(stored, reading);
    } else {
      var n := |rows| - 1;
      InsertedHasNewIds(rows[..n], hashes[..n], ids[..n], stored, reading);
      var before := Inserted(rows[..n], hashes[..n], ids[..n], stored, reading);
      forall j | 0 <= j < |before|
        ensures before[j].id != ids[n]
      {
        assert before[j] in before && before[j].id in ids[..n];
        var m :| 0 <= m < n && ids[m] == before[j].id;
      }
      InsertedStep(rows, hashes, ids, stored, reading, n);
      assert rows[..n + 1] == rows && hashes[..n + 1] == hashes && ids[..n + 1] == ids;
    }
  }

  lemma NothingInserted(stored: seq<string>, reading: Reading)
    ensures Inserted([], [], [], stored, reading) == []
  {
  }

  lemma InsertedIsPersistable(s: State, st: Statement, reading: Reading, ids: seq<nat>, hash: string -> string)
    requires |ids| == |st.rows| && NewIds(ids, s) && Dated(st.rows, reading)
    ensures
      var txns := Inserted(st.rows, RowHashes(st.rows, st.currency, reading, hash), ids, s.hashes, reading);
      T.FreshIds(s.pairing.store, txns) && T.OneAccount(txns, reading.account)
  {
    hide RowHashes, Dated, T.HasId, Inserted;
    var hashes := RowHashes(st.rows, st.currency, reading, hash);
    InsertedHasNewIds(st.rows, hashes, ids, s.hashes, reading);
    var txns := Inserted(st.rows, hashes, ids, s.hashes, reading);
    forall k | 0 <= k < |txns|
      ensures !T.HasId(s.pairing.store, txns[k].id) && txns[k].account == reading.account
    {
      assert txns[k] in txns;
    }
  }

  /** An import fails for a date it cannot read or an amount it cannot negate, and for nothing
    * else; and keeps the tables in order. */
  lemma ImportKeeps(s: State, st: Statement, reading: Reading, ids: seq<nat>, hash: string -> string)
    requires Inv(s) && |ids| == |st.rows| && NewIds(ids, s)
    ensures Import(s, st, reading, ids, hash).Ok?
       <==> && Dated(st.rows, reading)
            && T.Negatable(Inserted(st.rows, RowHashes(st.rows, st.currency, reading, hash), ids, s.hashes,
                                    reading))
    ensures Import(s, st, reading, ids, hash).Ok? ==>
              && Inv(Import(s, st, reading, ids, hash).value)
              && Import(s, st, reading, ids, hash).value.pairing.store
                 == s.pairing.store
                    + Inserted(st.rows, RowHashes(st.rows, st.currency, reading, hash), ids, s.hashes, reading)
  {
    hide RowHashes, Dated, Inserted, T.Persisted, T.Negatable, T.Inv, NewIds, T.FreshIds, T.OneAccount;
    if Dated(st.rows, reading) {
      var hashes := RowHashes(st.rows, st.currency, reading, hash);
      var txns := Inserted(st.rows, hashes, ids, s.hashes, reading);
      InsertedIsPersistable(s, st, reading, ids, hash);
      T.PersistKeeps(s.pairing, txns, reading.account);
      InsertedIsFresh(st.rows, hashes, ids, s.hashes, reading);
      T.PersistStores(s.pairing, txns);
    }
  }

  // ---- What the ledger gains is what the statement declares -----------------------------------------

  /** For a statement without errors whose declared balance holds, the declared opening balance,
    * what this import adds to the ledger, and the amounts of the rows an earlier one brought,
    * make the declared closing balance. */
  lemma ImportReconciles(s: State, st: Statement, checks: Checks, reading: Reading, ids: seq<nat>,
                         hash: string -> string)
    requires Inv(s) && |ids| == |st.rows| && NewIds(ids, s)
    requires Held(st) && AllErrors(st.rows, checks) == [] && Reconciles(st)
    requires Import(s, st, reading, ids, hash).Ok?
    ensures Dated(st.rows, reading)
    ensures
      var hashes := RowHashes(st.rows, st.currency, reading, hash);
      var gained := LedgerTotal(Import(s, st, reading, ids, hash).value.pairing.store) - LedgerTotal(s.pairing.store);
      var skipped := SkippedMinor(st.rows, hashes, s.hashes);
      && gained + skipped == Credits(st.rows) - Debits(st.rows) - Unnegatable(st.rows) * SPAN
      && Wrap(st.opening + gained + skipped) == st.closing
  {
    hide RowHashes, Dated, Inserted, Import, Inv, NewIds, Held, AllErrors, Reconciles, Wrap, SkippedMinor, LedgerTotal,
      Amounts,
      T.Negatable;
    ImportKeeps(s, st, reading, ids, hash);
    var hashes := RowHashes(st.rows, st.currency, reading, hash);
    var txns := Inserted(st.rows, hashes, ids, s.hashes, reading);
    TotalAppend(s.pairing.store, txns);
    InsertedAmounts(st.rows, hashes, ids, s.hashes, reading);
    RowsReconcile(st, checks);
  }

  /** The whole of a statement, wherever its rows end up. */
  lemma RowsReconcile(st: Statement, checks: Checks)
    requires Held(st) && AllErrors(st.rows, checks) == [] && Reconciles(st)
    ensures Amounts(st.rows) == Credits(st.rows) - Debits(st.rows) - Unnegatable(st.rows) * SPAN
    ensures Wrap(st.opening + Amounts(st.rows)) == st.closing
  {
    hide AllErrors, Wrap, Held, Kept, Amounts, Unnegatable, Credits, Debits;
    var mask := seq(|st.rows|, _ => true);
    InsertedAndSkipped(st.rows, mask);
    StatementConserves(st, checks, mask);
    PassedBalanceConserves(st, checks, mask);
  }

  lemma {:induction false} NothingNew(rows: seq<Row>, hashes: seq<string>, ids: seq<nat>, stored: seq<string>,
                                      reading: Reading)
    requires |hashes| == |rows| == |ids| && Dated(rows, reading)
    requires forall k :: 0 <= k < |hashes| ==> hashes[k] in stored
    ensures Inserted(rows, hashes, ids, stored, reading) == []
    ensures SkippedMinor(rows, hashes, stored) == Amounts(rows)
  {
    hide Readable, Amount;
    if rows != [] {
      var n := |rows| - 1;
      NothingNew(rows[..n], hashes[..n], ids[..n], stored, reading);
    }
  }

  /** The same file again adds nothing: no row, no amount, no pair. */
  lemma ImportedTwice(s: State, st: Statement, reading: Reading, ids: seq<nat>, again: seq<nat>, hash: string -> string)
    requires Inv(s) && |ids| == |again| == |st.rows| && NewIds(ids, s)
    requires Import(s, st, reading, ids, hash).Ok?
    ensures
      var n := Import(s, st, reading, ids, hash).value;
      Import(n, st, reading, again, hash) == Ok(n)
  {
    hide RowHashes, Inserted, Readable, NewIds, T.Inv, T.Negatable;
    var n := Import(s, st, reading, ids, hash).value;
    var hashes := RowHashes(st.rows, st.currency, reading, hash);
    forall k | 0 <= k < |hashes|
      ensures hashes[k] in n.hashes
    {
      assert hashes[k] in hashes;
    }
    NothingNew(st.rows, hashes, again, n.hashes, reading);
    D.NothingFresh(n.hashes, hashes);
    assert n.hashes + [] == n.hashes;
    T.NothingPersisted(n.pairing);
  }

  lemma InsertedStep(rows: seq<Row>, hashes: seq<string>, ids: seq<nat>, stored: seq<string>, reading: Reading, k: nat)
    requires |hashes| == |rows| == |ids| && Dated(rows, reading) && k < |rows|
    ensures
      var before := Inserted(rows[..k], hashes[..k], ids[..k], stored, reading);
      Inserted(rows[..k + 1], hashes[..k + 1], ids[..k + 1], stored, reading)
      == if hashes[k] in stored then before else before + [TxnOf(rows[k], ids[k], reading)]
  {
    hide Readable, TxnOf;
    assert rows[..k + 1][..k] == rows[..k];
    assert hashes[..k + 1][..k] == hashes[..k];
    assert ids[..k + 1][..k] == ids[..k];
    var before := Inserted(rows[..k], hashes[..k], ids[..k], stored, reading);
    assert before + [] == before;
  }

  // ---- As the job does it --------------------------------------------------------------------------

  class Ledger {
    const hash: string -> string
    var hashes: seq<string>
    var pairing: T.State

    function Tables(): State
      reads this
    {
      State(hashes, pairing)
    }

    constructor (hash: string -> string)
      ensures this.hash == hash && Tables() == State([], T.START) && Inv(Tables())
    {
      this.hash := hash;
      hashes, pairing := [], T.START;
    }

    /** Work: rows are built, hashed and looked up in order, then stored and paired; an error
      * anywhere leaves everything as it was. */
    method Persist(st: Statement, reading: Reading, ids: seq<nat>) returns (r: Result<Counts, Error>)
      requires Inv(Tables()) && |ids| == |st.rows| && NewIds(ids, Tables())
      modifies this
      ensures Inv(Tables())
      ensures
        match Import(old(Tables()), st, reading, ids, hash)
        case Err(e) => r == Err(e) && Tables() == old(Tables())
        case Ok(n) =>
          && Tables() == n && r.Ok?
          && r.value.inserted == |n.hashes| - |old(hashes)| && r.value.inserted + r.value.skipped == |st.rows|
    {
      hide Inv, NewIds, T.Persisted, RowHashes, Inserted, Dated;
      ghost var s := Tables();
      ImportKeeps(s, st, reading, ids, hash);
      var dated := AllDated(st.rows, reading);
      if !dated {
        return Err(BadDate);
      }
      var rowHashes := HashRows(st, reading);
      var toInsert, added := LookUp(st.rows, rowHashes, ids, reading);
      InsertedIsFresh(st.rows, rowHashes, ids, hashes, reading);
      var paired := T.Persisted(pairing, toInsert);
      if paired.Err? {
        return Err(NotPaired(paired.error));
      }
      hashes, pairing := hashes + added, paired.value;
      return Ok(Counts(|toInsert|, |st.rows| - |toInsert|));
    }

    method AllDated(rows: seq<Row>, reading: Reading) returns (dated: bool)
      ensures dated <==> Dated(rows, reading)
    {
      hide Readable;
      for k := 0 to |rows|
        invariant forall j :: 0 <= j < k ==> Readable(rows[j], reading)
      {
        if !Readable(rows[k], reading) {
          return false;
        }
      }
      return true;
    }

    method HashRows(st: Statement, reading: Reading) returns (rowHashes: seq<string>)
      requires Dated(st.rows, reading)
      ensures rowHashes == RowHashes(st.rows, st.currency, reading, hash)
    {
      hide D.Hashes;
      rowHashes := D.Partition(Contents(st.rows, st.currency, reading), hash);
    }

    /** Every hash against what was stored before the file. */
    method LookUp(rows: seq<Row>, rowHashes: seq<string>, ids: seq<nat>, reading: Reading)
      returns (toInsert: seq<T.Txn>, added: seq<string>)
      requires |rowHashes| == |rows| == |ids| && Dated(rows, reading)
      ensures toInsert == Inserted(rows, rowHashes, ids, hashes, reading)
      ensures added == D.Fresh(hashes, rowHashes)
    {
      hide Readable, TxnOf, Inserted, D.Fresh;
      toInsert, added := [], [];
      for k := 0 to |rows|
        invariant toInsert == Inserted(rows[..k], rowHashes[..k], ids[..k], hashes, reading)
        invariant added == D.Fresh(hashes, rowHashes[..k])
      {
        InsertedStep(rows, rowHashes, ids, hashes, reading, k);
        D.FreshStep(hashes, rowHashes, k);
        if rowHashes[k] !in hashes {
          toInsert, added := toInsert + [TxnOf(rows[k], ids[k], reading)], added + [rowHashes[k]];
        }
      }
      assert rows[..|rows|] == rows && rowHashes[..|rows|] == rowHashes && ids[..|rows|] == ids;
    }
  }
}
