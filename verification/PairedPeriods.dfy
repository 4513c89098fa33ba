/** The pairs an import makes, as the strip reads them: what pairing keeps is what lets a
  * period's transfers cancel. */
module PairedPeriods {
  import opened Wrappers
  import opened Ledger
  import opened Reconciliation
  import Pnl
  import T = Transfers

  /** How pairing's rows and transfers are named in the tables the report reads. */
  datatype Names = Names(txn: nat -> string, transfer: nat -> string, basis: string -> Pnl.Basis)

  ghost predicate Distinct(names: Names) {
    && (forall a, b :: names.txn(a) == names.txn(b) ==> a == b)
    && (forall a, b :: names.transfer(a) == names.transfer(b) ==> a == b)
  }

  /** One row of the transactions table, seen by the report and by pairing. */
  predicate SameRow(e: Entry, t: T.Txn, names: Names)
    requires e.bookedOn.Valid()
  {
    && e.id == names.txn(t.id) && e.entity == t.entity && e.kind == names.basis(t.kind)
    && e.bookedOn.Number() == t.day && InBase(e) == t.amount
  }

  ghost predicate SameStore(store: seq<Entry>, s: T.State, names: Names)
    requires ValidStore(store)
  {
    |store| == |s.store| && forall k :: 0 <= k < |store| ==> SameRow(store[k], s.store[k], names)
  }

  /** The member row of a transaction. */
  function MemberOf(s: T.State, id: nat, names: Names): Membership
    requires id in s.members && s.members[id] < |s.transfers|
  {
    Membership(names.transfer(s.members[id]), if id == s.transfers[s.members[id]].outTxn then OutLeg else InLeg)
  }

  /** The members and the transfers nobody has dismissed. */
  ghost predicate SamePairs(pairs: Pairs, s: T.State, names: Names) {
    && (forall id :: names.txn(id) in pairs.members <==> id in s.members)
    && (forall name :: name in pairs.members ==> exists id :: id in s.members && names.txn(id) == name)
    && (forall id :: id in s.members ==>
                       s.members[id] < |s.transfers| && pairs.members[names.txn(id)] == MemberOf(s, id, names))
    && (forall k :: 0 <= k < |s.transfers| ==> (names.transfer(k) in pairs.active <==> !s.transfers[k].dismissed))
  }

  ghost predicate Within(s: T.State, id: nat, lo: int, hi: int) {
    forall t :: t in s.store && t.id == id ==> lo <= t.day < hi
  }

  /** The period holds both legs of every active transfer or neither. */
  ghost predicate HoldsWhole(s: T.State, lo: int, hi: int) {
    forall k :: 0 <= k < |s.transfers| && !s.transfers[k].dismissed ==>
                  (Within(s, s.transfers[k].outTxn, lo, hi) <==> Within(s, s.transfers[k].inTxn, lo, hi))
  }

  // ---- What pairing keeps, as the strip needs it ------------------------------------------------------

  lemma StoreIsDistinct(store: seq<Entry>, s: T.State, names: Names)
    requires ValidStore(store) && SameStore(store, s, names) && Distinct(names) && T.DistinctIds(s.store)
    ensures Reconciliation.DistinctIds(store)
  {
    hide InBase;
    forall i, j | 0 <= i < j < |store|
      ensures store[i].id != store[j].id
    {
      assert SameRow(store[i], s.store[i], names) && SameRow(store[j], s.store[j], names);
    }
  }

  lemma SidesAreDistinct(pairs: Pairs, s: T.State, names: Names)
    requires T.Matching(s) && SamePairs(pairs, s, names) && Distinct(names)
    ensures OnePerSide(pairs)
  {
    hide T.Matching, MemberOf;
    forall a, b | a in pairs.members && b in pairs.members && pairs.members[a] == pairs.members[b]
      ensures a == b
    {
      var x :| x in s.members && names.txn(x) == a;
      var y :| y in s.members && names.txn(y) == b;
      OneIdPerSide(s, x, y, names);
    }
  }

  lemma OneIdPerSide(s: T.State, x: nat, y: nat, names: Names)
    requires T.Matching(s) && Distinct(names) && x in s.members && y in s.members
    requires s.members[x] < |s.transfers| && s.members[y] < |s.transfers|
    requires MemberOf(s, x, names) == MemberOf(s, y, names)
    ensures x == y
  {
    hide T.IsPair;
    assert s.members[x] == s.members[y];
  }

  /** The transfer a leg belongs to, and its other leg. */
  lemma OtherLegOf(s: T.State, t: T.Txn) returns (u: T.Txn)
    requires T.Inv(s) && t in s.store && t.id in s.members
    ensures
      var transfer := s.transfers[s.members[t.id]];
      && u in s.store && u.id in s.members && u.id != t.id && s.members[u.id] == s.members[t.id]
      && u.entity == t.entity && u.kind == t.kind && t.amount + u.amount == 0
      && {t.id, u.id} == {transfer.outTxn, transfer.inTxn}
  {
    hide T.Maximal;
    var k := s.members[t.id];
    assert T.IsPair(s, s.transfers[k]);
    var o, i :| o in s.store && i in s.store && o.id == s.transfers[k].outTxn && i.id == s.transfers[k].inTxn
                && T.Opposite(o, i);
    if t.id == o.id {
      T.SameRow(s.store, t, o);
      u := i;
    } else {
      T.SameRow(s.store, t, i);
      u := o;
    }
    if o.id == i.id {
      T.SameRow(s.store, o, i);
      assert false;
    }
  }

  lemma WithinIs(s: T.State, t: T.Txn, lo: int, hi: int)
    requires T.DistinctIds(s.store) && t in s.store
    ensures Within(s, t.id, lo, hi) <==> lo <= t.day < hi
  {
    forall x | x in s.store && x.id == t.id
      ensures x == t
    {
      T.SameRow(s.store, x, t);
    }
  }

  lemma {:induction false} LegRowsHas(store: seq<Entry>, pairs: Pairs, req: Request, lo: int, hi: int, e: Entry)
    requires ValidStore(store) && e in store && Booked(e, req, lo, hi) && IsLeg(e, pairs)
    ensures e in LegRows(store, pairs, req, lo, hi)
  {
    hide Booked, IsLeg;
    if e != store[|store| - 1] {
      assert store == store[..|store| - 1] + [store[|store| - 1]];
      LegRowsHas(store[..|store| - 1], pairs, req, lo, hi, e);
    }
  }

  lemma EntryOf(store: seq<Entry>, s: T.State, names: Names, t: T.Txn) returns (e: Entry)
    requires ValidStore(store) && SameStore(store, s, names) && t in s.store
    ensures e in store && e.bookedOn.Valid() && SameRow(e, t, names)
  {
    hide InBase;
    var k :| 0 <= k < |s.store| && s.store[k] == t;
    e := store[k];
  }

  lemma TxnOf(store: seq<Entry>, s: T.State, names: Names, e: Entry) returns (t: T.Txn)
    requires ValidStore(store) && SameStore(store, s, names) && e in store
    ensures t in s.store && e.bookedOn.Valid() && SameRow(e, t, names)
  {
    hide InBase;
    var k :| 0 <= k < |store| && store[k] == e;
    t := s.store[k];
  }

  lemma LegHasOther(store: seq<Entry>, pairs: Pairs, s: T.State, names: Names, req: Request, lo: int, hi: int, a: Entry)
    requires ValidStore(store) && SameStore(store, s, names) && Distinct(names)
    requires T.Inv(s) && SamePairs(pairs, s, names) && HoldsWhole(s, lo, hi)
    requires a in store && Booked(a, req, lo, hi) && IsLeg(a, pairs)
    ensures HasOtherLeg(a, LegRows(store, pairs, req, lo, hi), pairs)
  {
    hide InBase, T.Matching, T.Maximal, T.DistinctIds, LegRows, Within;
    var t := TxnOf(store, s, names, a);
    assert a.id == names.txn(t.id);
    var u := OtherLegOf(s, t);
    var b := EntryOf(store, s, names, u);
    var k := s.members[t.id];
    MemberNumber(s, t.id);
    WithinIs(s, t, lo, hi);
    WithinIs(s, u, lo, hi);
    assert MemberOf(s, t.id, names).transfer == MemberOf(s, u.id, names).transfer == names.transfer(k);
    LegRowsHas(store, pairs, req, lo, hi, b);
    OtherLegIn(a, b, LegRows(store, pairs, req, lo, hi), pairs);
  }

  lemma MemberNumber(s: T.State, id: nat)
    requires T.Matching(s) && id in s.members
    ensures s.members[id] < |s.transfers|
  {
    hide T.IsPair;
  }

  /** After any history of imports and dismissals, in any period that holds both legs of every
    * active transfer or neither, transfers move nothing: in less out is all that moved. */
  lemma PairedPeriodCancels(actions: seq<T.Action>, store: seq<Entry>, pairs: Pairs, names: Names, req: Request,
                            lo: int, hi: int)
    requires T.OneAccountEach(actions) && ValidStore(store) && Distinct(names)
    requires SameStore(store, T.After(actions), names) && SamePairs(pairs, T.After(actions), names)
    requires HoldsWhole(T.After(actions), lo, hi)
    ensures Moved(store, Transfer, pairs, req, lo, hi) == 0
    ensures Moved(store, Every, pairs, req, lo, hi)
         == Moved(store, Inflow, pairs, req, lo, hi) + Moved(store, Outflow, pairs, req, lo, hi)
  {
    hide T.After, Moved, SameStore, SamePairs, HoldsWhole, Distinct, T.Matching, T.Maximal, T.DistinctIds, LegRows,
      HasOtherLeg,
      Booked, IsLeg, OnePerSide, Reconciliation.DistinctIds;
    var s := T.After(actions);
    T.HistoryKeeps(actions);
    StoreIsDistinct(store, s, names);
    SidesAreDistinct(pairs, s, names);
    LegsAreDistinct(store, pairs, req, lo, hi);
    var rows := LegRows(store, pairs, req, lo, hi);
    forall a | a in rows
      ensures HasOtherLeg(a, rows, pairs)
    {
      LegHasOther(store, pairs, s, names, req, lo, hi, a);
    }
    TransfersCancel(store, pairs, req, lo, hi);
  }
}
