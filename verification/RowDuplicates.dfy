/** What makes a row of a statement a duplicate, told of the rows themselves, and what any
  * history of imports makes of it. */
module RowDuplicates {
  import opened Wrappers
  import opened Int64
  import opened Statements
  import opened StatementImport
  import Calendar
  import M = Money
  import D = Dedup
  import T = Transfers

  /** What a row is known by. */
  datatype Mark = Mark(
    account: string, currency: string, date: Calendar.Date, minor: int, description: string, document: string)

  /** None of its texts contains the separator, U+001F. */
  predicate Plain(m: Mark) {
    '\U{001F}' !in m.account && '\U{001F}' !in m.currency && '\U{001F}' !in m.description && '\U{001F}' !in m.document
  }

  /** A row that bears the mark: its account and currency, its day, its signed amount, its
    * normalised description and the bank's document number. */
  predicate Bears(r: Row, currency: string, reading: Reading, m: Mark) {
    && reading.account == m.account && currency == m.currency
    && reading.date(r.bookedOn) == Some(m.date)
    && m.minor == (if r.debit == 0 then r.credit else Wrap(0 - r.debit))
    && reading.norm(r.description) == m.description
    && r.documentNo == m.document
  }

  function MarkContent(m: Mark): D.Content {
    D.Content(m.account, m.date, M.Amount(m.currency, m.minor), m.description, m.document, "", 0)
  }

  /** The key a row is hashed under. */
  function RowKey(r: Row, currency: string, reading: Reading): string
    requires Readable(r, reading)
  {
    D.Keys(Contents([r], currency, reading))[0]
  }

  lemma RowKeyIs(r: Row, currency: string, reading: Reading)
    requires Readable(r, reading)
    ensures RowKey(r, currency, reading) == D.ContentKey(ContentOf(r, currency, reading))
  {
    hide D.ContentKey, Readable, ContentOf;
  }

  lemma ContentBears(r: Row, currency: string, reading: Reading, m: Mark)
    requires Readable(r, reading)
    ensures ContentOf(r, currency, reading) == MarkContent(m) <==> Bears(r, currency, reading, m)
  {
    hide Wrap;
  }

  lemma PlainIsClean(m: Mark)
    requires Plain(m)
    ensures D.Clean(MarkContent(m))
  {
  }

  /** Two rows are duplicates of each other, where the texts of one are plain, exactly when
    * they agree in account and currency, day, signed amount, normalised description and
    * document number; and in nothing else need they agree. */
  lemma RowsShareKey(a: Row, b: Row, ca: string, cb: string, ra: Reading, rb: Reading)
    requires Readable(a, ra) && Readable(b, rb)
    requires '\U{001F}' !in ra.account && '\U{001F}' !in ca
    requires '\U{001F}' !in ra.norm(a.description) && '\U{001F}' !in a.documentNo
    ensures RowKey(a, ca, ra) == RowKey(b, cb, rb)
       <==> && ra.account == rb.account && ca == cb && ra.date(a.bookedOn) == rb.date(b.bookedOn)
            && (if a.debit == 0 then a.credit else Wrap(0 - a.debit))
               == (if b.debit == 0 then b.credit else Wrap(0 - b.debit))
            && ra.norm(a.description) == rb.norm(b.description) && a.documentNo == b.documentNo
  {
    hide D.ContentKey, D.Clean, Wrap, RowKey, ContentOf, MarkContent;
    var m := Mark(ra.account, ca, ra.date(a.bookedOn).value, if a.debit == 0 then a.credit else Wrap(0 - a.debit),
                  ra.norm(a.description), a.documentNo);
    ContentBears(a, ca, ra, m);
    ContentBears(b, cb, rb, m);
    PlainIsClean(m);
    RowKeyIs(a, ca, ra);
    RowKeyIs(b, cb, rb);
    D.KeysTellApart(ContentOf(a, ca, ra), ContentOf(b, cb, rb));
  }

  // ---- Over a history of imports -----------------------------------------------------------------

  datatype Upload = Upload(st: Statement, reading: Reading, ids: seq<nat>)

  /** An upload gives an id to each of its rows. */
  ghost predicate WellFormed(uploads: seq<Upload>) {
    forall u :: u in uploads ==> |u.ids| == |u.st.rows|
  }

  /** The tables after a history of uploads; one that is refused leaves them as they were. */
  function After(uploads: seq<Upload>, hash: string -> string): State
    requires WellFormed(uploads)
  {
    if uploads == [] then State([], T.START)
    else
      var s, u := After(uploads[..|uploads| - 1], hash), uploads[|uploads| - 1];
      match Import(s, u.st, u.reading, u.ids, hash) case Ok(n) => n case Err(_) => s
  }

  /** The uploads that were not refused. */
  function Accepted(uploads: seq<Upload>, hash: string -> string): (r: seq<Upload>)
    requires WellFormed(uploads)
    ensures forall u :: u in r ==> u in uploads && Dated(u.st.rows, u.reading)
  {
    if uploads == [] then []
    else
      var s, u := After(uploads[..|uploads| - 1], hash), uploads[|uploads| - 1];
      Accepted(uploads[..|uploads| - 1], hash) + if Import(s, u.st, u.reading, u.ids, hash).Ok? then [u] else []
  }

  /** How many rows of a statement bear the mark. */
  function Bearers(rows: seq<Row>, currency: string, reading: Reading, m: Mark): nat {
    if rows == [] then 0
    else
      Bearers(rows[..|rows| - 1], currency, reading, m)
      + if Bears(rows[|rows| - 1], currency, reading, m) then 1 else 0
  }

  /** The most rows that bear it in any one of the uploads. */
  function MostBearers(uploads: seq<Upload>, m: Mark): nat {
    if uploads == [] then 0
    else
      var before, u := MostBearers(uploads[..|uploads| - 1], m), uploads[|uploads| - 1];
      var here := Bearers(u.st.rows, u.st.currency, u.reading, m);
      if before < here then here else before
  }

  /** How many rows that bear the mark an import stores: those whose hash is not stored yet. */
  function NewBearers(rows: seq<Row>, currency: string, reading: Reading, hashes: seq<string>, stored: seq<string>,
                      m: Mark): nat
    requires |hashes| == |rows|
  {
    if rows == [] then 0
    else
      var n := |rows| - 1;
      NewBearers(rows[..n], currency, reading, hashes[..n], stored, m)
      + if Bears(rows[n], currency, reading, m) && hashes[n] !in stored then 1 else 0
  }

  // ---- As hashes count them -------------------------------------------------------------------------

  function Files(uploads: seq<Upload>): (files: seq<seq<D.Content>>)
    requires forall u :: u in uploads ==> Dated(u.st.rows, u.reading)
    ensures |files| == |uploads|
  {
    if uploads == [] then []
    else
      var u := uploads[|uploads| - 1];
      assert u in uploads;
      Files(uploads[..|uploads| - 1]) + [Contents(u.st.rows, u.st.currency, u.reading)]
  }

  lemma {:induction false} HashesOfHistory(uploads: seq<Upload>, hash: string -> string)
    requires WellFormed(uploads)
    ensures After(uploads, hash).hashes == D.Stored(D.AllKeys(Files(Accepted(uploads, hash))), hash)
  {
    hide Import, Dated, D.Hashes, D.Keys, D.Fresh;
    if uploads != [] {
      var before, u := uploads[..|uploads| - 1], uploads[|uploads| - 1];
      HashesOfHistory(before, hash);
      var s, accepted := After(before, hash), Accepted(before, hash);
      if Import(s, u.st, u.reading, u.ids, hash).Ok? {
        ImportAdds(s, u, hash);
        AcceptedSnoc(accepted, u);
        StoredSnoc(Files(accepted), Contents(u.st.rows, u.st.currency, u.reading), hash);
      } else {
        assert accepted + [] == accepted;
      }
    }
  }

  lemma ImportAdds(s: State, u: Upload, hash: string -> string)
    requires |u.ids| == |u.st.rows| && Import(s, u.st, u.reading, u.ids, hash).Ok?
    ensures Dated(u.st.rows, u.reading)
    ensures Import(s, u.st, u.reading, u.ids, hash).value.hashes
         == s.hashes + D.Fresh(s.hashes, D.Hashes(D.Keys(Contents(u.st.rows, u.st.currency, u.reading)), hash))
  {
    hide T.Persisted, D.Fresh, D.Hashes, D.Keys, Inserted;
  }

  lemma AcceptedSnoc(accepted: seq<Upload>, u: Upload)
    requires forall x :: x in accepted + [u] ==> Dated(x.st.rows, x.reading)
    ensures Dated(u.st.rows, u.reading) && forall x :: x in accepted ==> Dated(x.st.rows, x.reading)
    ensures Files(accepted + [u]) == Files(accepted) + [Contents(u.st.rows, u.st.currency, u.reading)]
  {
    hide Dated;
    var all := accepted + [u];
    assert all[|accepted|] == u && u in all && all[..|all| - 1] == accepted;
    forall x | x in accepted
      ensures Dated(x.st.rows, x.reading)
    {
      assert x in all;
    }
  }

  lemma StoredSnoc(files: seq<seq<D.Content>>, file: seq<D.Content>, hash: string -> string)
    ensures D.Stored(D.AllKeys(files + [file]), hash)
         == D.Stored(D.AllKeys(files), hash) + D.Fresh(D.Stored(D.AllKeys(files), hash), D.Hashes(D.Keys(file), hash))
  {
    hide D.Hashes, D.Keys, D.Fresh;
    var history := D.AllKeys(files + [file]);
    assert history[..|history| - 1] == D.AllKeys(files);
    assert history[|history| - 1] == D.Keys(file);
  }

  lemma {:induction false} CopiesAreBearers(rows: seq<Row>, currency: string, reading: Reading, m: Mark)
    requires Dated(rows, reading)
    ensures D.Copies(Contents(rows, currency, reading), MarkContent(m)) == Bearers(rows, currency, reading, m)
  {
    hide Bears, MarkContent, ContentOf, Readable;
    if rows != [] {
      var n := |rows| - 1;
      CopiesAreBearers(rows[..n], currency, reading, m);
      assert Contents(rows, currency, reading)[..n] == Contents(rows[..n], currency, reading);
      ContentBears(rows[n], currency, reading, m);
    }
  }

  lemma {:induction false} MostCopiesAreBearers(uploads: seq<Upload>, m: Mark)
    requires forall u :: u in uploads ==> Dated(u.st.rows, u.reading)
    ensures D.MostCopies(Files(uploads), MarkContent(m)) == MostBearers(uploads, m)
  {
    hide Dated, Bearers, D.Copies, Contents, MarkContent;
    if uploads != [] {
      var before, u := uploads[..|uploads| - 1], uploads[|uploads| - 1];
      assert uploads == before + [u];
      AcceptedSnoc(before, u);
      MostCopiesAreBearers(before, m);
      CopiesAreBearers(u.st.rows, u.st.currency, u.reading, m);
      var files := Files(uploads);
      assert files[..|files| - 1] == Files(before);
    }
  }

  /** Within a file the bearers of a mark are its occurrences one by one, so an import stores
    * those past the most that is stored already. */
  lemma {:induction false} NewAreThosePast(rows: seq<Row>, currency: string, reading: Reading, stored: seq<string>,
                                           hash: string -> string, m: Mark, most: nat)
    requires Dated(rows, reading) && Plain(m)
    requires forall n: nat :: hash(D.Keyed(D.ContentKey(MarkContent(m)), n)) in stored <==> 1 <= n <= most
    ensures
      var have := Bearers(rows, currency, reading, m);
      NewBearers(rows, currency, reading, RowHashes(rows, currency, reading, hash), stored, m)
      == if have > most then have - most else 0
  {
    hide Bears, MarkContent, ContentOf, Readable, D.ContentKey, D.Keyed, D.Count, Plain, D.Clean;
    if rows != [] {
      var n := |rows| - 1;
      var hashes, key := RowHashes(rows, currency, reading, hash), D.ContentKey(MarkContent(m));
      var contents := Contents(rows, currency, reading);
      NewAreThosePast(rows[..n], currency, reading, stored, hash, m, most);
      assert contents[..n] == Contents(rows[..n], currency, reading);
      assert D.Keys(contents)[..n] == D.Keys(contents[..n]);
      assert hashes[..n] == RowHashes(rows[..n], currency, reading, hash);
      ContentBears(rows[n], currency, reading, m);
      PlainIsClean(m);
      CopiesAreBearers(rows, currency, reading, m);
      D.CopiesAreKeys(contents, MarkContent(m));
    }
  }

  /** So for every history of imports, of whatever accounts and files: of the rows that bear a
    * plain mark, a statement adds exactly as many as exceed the most that any one earlier
    * statement held; the others are skipped. */
  lemma ImportAddsTheExcess(uploads: seq<Upload>, hash: string -> string, u: Upload, m: Mark)
    requires WellFormed(uploads) && |u.ids| == |u.st.rows| && D.Injective(hash) && Plain(m)
    requires Import(After(uploads, hash), u.st, u.reading, u.ids, hash).Ok?
    ensures Dated(u.st.rows, u.reading)
    ensures
      var hashes, stored := RowHashes(u.st.rows, u.st.currency, u.reading, hash), After(uploads, hash).hashes;
      var have, most := Bearers(u.st.rows, u.st.currency, u.reading, m), MostBearers(Accepted(uploads, hash), m);
      NewBearers(u.st.rows, u.st.currency, u.reading, hashes, stored, m) == if have > most then have - most else 0
  {
    hide Dated, D.Stored, D.AllKeys, D.ContentKey, D.Keyed, MarkContent, Plain, D.Clean, RowHashes, Bearers, NewBearers,
      After,
      Accepted,
      D.Injective;
    ImportAdds(After(uploads, hash), u, hash);
    HashesOfHistory(uploads, hash);
    var files := Files(Accepted(uploads, hash));
    PlainIsClean(m);
    MostCopiesAreBearers(Accepted(uploads, hash), m);
    forall n: nat
      ensures hash(D.Keyed(D.ContentKey(MarkContent(m)), n)) in After(uploads, hash).hashes
         <==> 1 <= n <= MostBearers(Accepted(uploads, hash), m)
    {
      D.StoredIsMaximum(files, hash, MarkContent(m), n);
    }
    NewAreThosePast(u.st.rows, u.st.currency, u.reading, After(uploads, hash).hashes, hash, m,
                    MostBearers(Accepted(uploads, hash), m));
  }

  // ---- What is stored of a row ---------------------------------------------------------------------

  /** Every row whose hash was not there is stored, with the id it was given, the entity, account
    * and kind of the upload, its own day, and its signed amount. */
  lemma {:induction false} RowIsStored(rows: seq<Row>, hashes: seq<string>, ids: seq<nat>, stored: seq<string>,
                                       reading: Reading, k: nat) returns (t: T.Txn)
    requires |hashes| == |rows| == |ids| && Dated(rows, reading) && k < |rows| && hashes[k] !in stored
    ensures t in Inserted(rows, hashes, ids, stored, reading) && StoredAs(rows[k], ids[k], reading, t)
  {
    hide StoredAs, Readable, TxnOf;
    var n := |rows| - 1;
    if k < n {
      t := RowIsStored(rows[..n], hashes[..n], ids[..n], stored, reading, k);
    } else {
      t := TxnOf(rows[n], ids[n], reading);
      StoredAsTxn(rows[n], ids[n], reading);
    }
  }

  /** And nothing else is. */
  lemma {:induction false} StoredIsRow(rows: seq<Row>, hashes: seq<string>, ids: seq<nat>, stored: seq<string>,
                                       reading: Reading, t: T.Txn) returns (k: nat)
    requires |hashes| == |rows| == |ids| && Dated(rows, reading) && t in Inserted(rows, hashes, ids, stored, reading)
    ensures k < |rows| && hashes[k] !in stored && StoredAs(rows[k], ids[k], reading, t)
  {
    hide StoredAs, Readable, TxnOf;
    var n := |rows| - 1;
    if t in Inserted(rows[..n], hashes[..n], ids[..n], stored, reading) {
      k := StoredIsRow(rows[..n], hashes[..n], ids[..n], stored, reading, t);
    } else {
      k := n;
      StoredAsTxn(rows[n], ids[n], reading);
    }
  }

  predicate StoredAs(r: Row, id: nat, reading: Reading, t: T.Txn) {
    && t.id == id && t.entity == reading.entity && t.account == reading.account && t.kind == reading.kind
    && var date := reading.date(r.bookedOn);
    && date.Some? && 1 <= date.value.month
    && t.day == Calendar.FirstDay(12 * date.value.year + date.value.month - 1) + date.value.day - 1
    && t.amount == (if r.debit == 0 then r.credit else Wrap(0 - r.debit))
  }

  lemma StoredAsTxn(r: Row, id: nat, reading: Reading)
    requires Readable(r, reading)
    ensures StoredAs(r, id, reading, TxnOf(r, id, reading))
  {
    hide Wrap, Calendar.FirstDay;
  }
}
