/** Internal transfers: every newly imported row takes the nearest row of another account
  * that cancels it, once and for good. */
module Transfers {
  import opened Wrappers
  import Int64

  datatype Txn = Txn(id: nat, entity: string, account: string, kind: string, day: int, amount: int)

  datatype Transfer = Transfer(outTxn: nat, inTxn: nat, dismissed: bool)

  /** `members` maps a transaction to the transfer it is a leg of. */
  datatype State = State(store: seq<Txn>, transfers: seq<Transfer>, members: map<nat, nat>)

  datatype Error = MemberTaken | IdTaken | NoActiveTransfer | OutOfRange

  const WINDOW := 3

  function Distance(a: Txn, b: Txn): nat {
    if a.day < b.day then b.day - a.day else a.day - b.day
  }

  /** The candidates query, apart from membership; `t`'s own amount is not zero. */
  predicate Cancels(c: Txn, t: Txn) {
    && c.entity == t.entity && c.id != t.id && c.account != t.account && c.kind == t.kind
    && t.amount != 0 && c.amount == 0 - t.amount && Distance(c, t) <= WINDOW
  }

  /** ORDER BY abs(c.booked_on - t.booked_on), c.id */
  predicate Nearer(a: Txn, b: Txn, t: Txn) {
    Distance(a, t) < Distance(b, t) || (Distance(a, t) == Distance(b, t) && a.id < b.id)
  }

  predicate Candidate(c: Txn, t: Txn, members: map<nat, nat>) {
    Cancels(c, t) && c.id !in members
  }

  /** The first candidate in that order. */
  function Nearest(store: seq<Txn>, t: Txn, members: map<nat, nat>): (c: Option<Txn>)
    ensures c.Some? ==> c.value in store && Candidate(c.value, t, members)
    ensures c.None? ==> forall x :: x in store ==> !Candidate(x, t, members)
  {
    if store == [] then None
    else
      var x, rest := store[|store| - 1], Nearest(store[..|store| - 1], t, members);
      assert forall y :: y in store ==> y == x || y in store[..|store| - 1];
      if !Candidate(x, t, members) then rest
      else if rest.Some? && Nearer(rest.value, x, t) then rest
      else Some(x)
  }

  /** No candidate is nearer in days, nor as near with a lower id. */
  lemma {:induction false} NearestIsFirst(store: seq<Txn>, t: Txn, members: map<nat, nat>, x: Txn)
    requires x in store && Candidate(x, t, members)
    ensures
      var c := Nearest(store, t, members);
      c.Some? && (c.value == x || Nearer(c.value, x, t)
                  || (Distance(c.value, t) == Distance(x, t) && c.value.id == x.id))
  {
    hide Candidate;
    if x != store[|store| - 1] {
      assert x in store[..|store| - 1] by {
        assert store == store[..|store| - 1] + [store[|store| - 1]];
      }
      NearestIsFirst(store[..|store| - 1], t, members, x);
    }
  }

  /** DetectAndPair, for a row already stored. The query negates the row's amount, which the
    * most negative bigint does not allow; and the insert of the two member rows is refused
    * if either is a member already. */
  function Pair(s: State, t: Txn): Result<State, Error> {
    var c := Nearest(s.store, t, s.members);
    if t.amount == Int64.MIN then Err(OutOfRange)
    else if c.None? then Ok(s)
    else if t.id in s.members then Err(MemberTaken)
    else
      var transfer := if t.amount > 0 then Transfer(c.value.id, t.id, false) else Transfer(t.id, c.value.id, false);
      Ok(s.(
         transfers := s.transfers + [transfer],
         members := s.members[t.id := |s.transfers|][c.value.id := |s.transfers|]))
  }

  function PairAll(s: State, rows: seq<Txn>): Result<State, Error> {
    if rows == [] then Ok(s)
    else
      var before :- PairAll(s, rows[..|rows| - 1]);
      Pair(before, rows[|rows| - 1])
  }

  predicate HasId(store: seq<Txn>, id: nat) {
    exists k :: 0 <= k < |store| && store[k].id == id
  }

  ghost predicate DistinctIds(store: seq<Txn>) {
    forall i, j :: 0 <= i < j < |store| ==> store[i].id != store[j].id
  }

  /** A file's rows stored and then paired, in one database transaction. */
  function Persisted(s: State, rows: seq<Txn>): Result<State, Error> {
    if !FreshIds(s.store, rows) then Err(IdTaken)
    else PairAll(s.(store := s.store + rows), rows)
  }

  /** The ids the database gives are new. */
  predicate FreshIds(store: seq<Txn>, rows: seq<Txn>) {
    && (forall k :: 0 <= k < |rows| ==> !HasId(store, rows[k].id))
    && (forall i, j :: 0 <= i < j < |rows| ==> rows[i].id != rows[j].id)
  }

  function Dismissed(s: State, k: nat): Result<State, Error> {
    if k >= |s.transfers| || s.transfers[k].dismissed then Err(NoActiveTransfer)
    else Ok(s.(transfers := s.transfers[k := s.transfers[k].(dismissed := true)]))
  }

  // ---- A matching, and a maximal one -----------------------------------------------------

  /** A pair: the outgoing leg negative, the incoming one its opposite in another account
    * of the same entity and source kind, at most three days apart. */
  ghost predicate IsPair(s: State, transfer: Transfer) {
    exists o, i :: o in s.store && i in s.store && o.id == transfer.outTxn && i.id == transfer.inTxn && Opposite(o, i)
  }

  predicate Opposite(o: Txn, i: Txn) {
    && o.entity == i.entity && o.kind == i.kind && o.account != i.account
    && o.amount < 0 < i.amount && o.amount + i.amount == 0
    && Distance(o, i) <= WINDOW
  }

  /** Both legs of every transfer are its members and nobody else's; a member is a leg. */
  ghost predicate Matching(s: State) {
    && (forall k :: 0 <= k < |s.transfers| ==>
                      && IsPair(s, s.transfers[k])
                      && s.transfers[k].outTxn in s.members && s.members[s.transfers[k].outTxn] == k
                      && s.transfers[k].inTxn in s.members && s.members[s.transfers[k].inTxn] == k)
    && (forall id :: id in s.members ==>
                       && s.members[id] < |s.transfers|
                       && (id == s.transfers[s.members[id]].outTxn || id == s.transfers[s.members[id]].inTxn))
  }

  /** No two unpaired rows cancel each other, unless one still waits its turn. */
  ghost predicate Maximal(s: State, waiting: seq<Txn>) {
    forall a, b :: a in s.store && b in s.store && a.id !in s.members && b.id !in s.members && Cancels(a, b) ==>
                     a in waiting || b in waiting
  }

  ghost predicate Inv(s: State) {
    DistinctIds(s.store) && Matching(s) && Maximal(s, [])
  }

  lemma CancelsBothWays(a: Txn, b: Txn)
    ensures Cancels(a, b) <==> Cancels(b, a)
  {
  }

  lemma PairIsOpposite(s: State, t: Txn, c: Txn)
    requires t in s.store && c in s.store && Cancels(c, t)
    ensures IsPair(s, if t.amount > 0 then Transfer(c.id, t.id, false) else Transfer(t.id, c.id, false))
  {
    if t.amount > 0 {
      assert Opposite(c, t);
    } else {
      assert Opposite(t, c);
    }
  }

  lemma SameRow(store: seq<Txn>, a: Txn, b: Txn)
    requires DistinctIds(store) && a in store && b in store && a.id == b.id
    ensures a == b
  {
  }

  lemma PairKeepsMatching(s: State, t: Txn)
    requires Matching(s) && t in s.store && Pair(s, t).Ok?
    ensures Matching(Pair(s, t).value)
  {
    hide Nearest, Cancels, IsPair;
    var c, n := Nearest(s.store, t, s.members), Pair(s, t).value;
    if c.Some? {
      PairIsOpposite(s, t, c.value);
      forall k | 0 <= k < |n.transfers|
        ensures IsPair(n, n.transfers[k])
      {
        StillPair(s, n, n.transfers[k]);
      }
    }
  }

  lemma StillPair(s: State, n: State, transfer: Transfer)
    requires forall t :: t in s.store ==> t in n.store
    ensures IsPair(s, transfer) ==> IsPair(n, transfer)
  {
    hide Opposite;
  }

  lemma PairKeepsMaximal(s: State, t: Txn, waiting: seq<Txn>)
    requires DistinctIds(s.store) && t in s.store && waiting != [] && waiting[0] == t
    requires Maximal(s, waiting) && Pair(s, t).Ok?
    ensures Maximal(Pair(s, t).value, waiting[1..])
  {
    var c, n := Nearest(s.store, t, s.members), Pair(s, t).value;
    hide Nearest, Cancels, DistinctIds;
    forall a, b | a in n.store && b in n.store && a.id !in n.members && b.id !in n.members && Cancels(a, b)
      ensures a in waiting[1..] || b in waiting[1..]
    {
      assert a in waiting || b in waiting;
      assert waiting == [t] + waiting[1..];
      CancelsBothWays(a, b);
      if c.None? {
        assert a != t || !Candidate(b, t, s.members);
        assert b != t || !Candidate(a, t, s.members);
      }
    }
  }

  // ---- One statement, one account --------------------------------------------------------

  ghost predicate OneAccount(rows: seq<Txn>, account: string) {
    forall k :: 0 <= k < |rows| ==> rows[k].account == account
  }

  /** Every amount can be negated. */
  predicate Negatable(rows: seq<Txn>) {
    forall k :: 0 <= k < |rows| ==> rows[k].amount != Int64.MIN
  }

  /** While the first `k` rows of one account's statement are paired, the rest are nobody's. */
  lemma {:induction false} PairAllKeeps(s: State, rows: seq<Txn>, k: nat, account: string)
    requires k <= |rows| && OneAccount(rows, account) && Negatable(rows)
    requires DistinctIds(s.store) && Matching(s) && Maximal(s, rows)
    requires forall i :: 0 <= i < |rows| ==> rows[i] in s.store && rows[i].id !in s.members
    requires forall i, j :: 0 <= i < j < |rows| ==> rows[i].id != rows[j].id
    ensures PairAll(s, rows[..k]).Ok?
    ensures
      var n := PairAll(s, rows[..k]).value;
      && n.store == s.store && Matching(n) && Maximal(n, rows[k..])
      && (forall i :: k <= i < |rows| ==> rows[i].id !in n.members)
  {
    hide Pair, Matching, Maximal, DistinctIds;
    if k == 0 {
      assert rows[..0] == [] && rows[0..] == rows;
    } else {
      PairAllKeeps(s, rows, k - 1, account);
      assert rows[..k][..k - 1] == rows[..k - 1];
      assert rows[k - 1..][0] == rows[k - 1] && rows[k - 1..][1..] == rows[k..];
      var before := PairAll(s, rows[..k - 1]).value;
      PairTakesOther(before, rows, k - 1, account);
      PairKeepsMatching(before, rows[k - 1]);
      PairKeepsMaximal(before, rows[k - 1], rows[k - 1..]);
    }
  }

  /** A row's partner is in another account, so never among the rows still to come. */
  lemma PairTakesOther(s: State, rows: seq<Txn>, k: nat, account: string)
    requires k < |rows| && OneAccount(rows, account) && DistinctIds(s.store) && rows[k].amount != Int64.MIN
    requires forall i :: 0 <= i < |rows| ==> rows[i] in s.store
    requires forall i :: k <= i < |rows| ==> rows[i].id !in s.members
    requires forall i, j :: 0 <= i < j < |rows| ==> rows[i].id != rows[j].id
    ensures Pair(s, rows[k]).Ok?
    ensures Pair(s, rows[k]).value.store == s.store
    ensures forall i :: k < i < |rows| ==> rows[i].id !in Pair(s, rows[k]).value.members
  {
    var c := Nearest(s.store, rows[k], s.members);
    hide Nearest;
    if c.Some? {
      forall i | k < i < |rows|
        ensures rows[i].id != c.value.id
      {
        if rows[i].id == c.value.id {
          SameRow(s.store, rows[i], c.value);
        }
      }
    }
  }

  lemma MembersAreStored(s: State, id: nat)
    requires Matching(s) && id in s.members
    ensures HasId(s.store, id)
  {
    hide Opposite;
    var k := s.members[id];
    assert IsPair(s, s.transfers[k]);
    var o, i :| o in s.store && i in s.store && o.id == s.transfers[k].outTxn && i.id == s.transfers[k].inTxn
                && Opposite(o, i);
    var m :| 0 <= m < |s.store| && s.store[m] == if id == o.id then o else i;
    assert s.store[m].id == id;
  }

  /** The rows are in the store, and none of them waits alone. */
  lemma StoredReady(s: State, rows: seq<Txn>)
    requires Inv(s) && FreshIds(s.store, rows)
    ensures
      var n := s.(store := s.store + rows);
      && DistinctIds(n.store) && Matching(n) && Maximal(n, rows)
      && (forall i :: 0 <= i < |rows| ==> rows[i] in n.store && rows[i].id !in n.members)
  {
    hide Cancels, IsPair, HasId, Matching, DistinctIds;
    StoredDistinct(s, rows);
    StoredMatching(s, rows);
    forall i | 0 <= i < |rows|
      ensures rows[i].id !in s.members
    {
      assert !HasId(s.store, rows[i].id);
      if rows[i].id in s.members {
        MembersAreStored(s, rows[i].id);
      }
    }
  }

  lemma StoredDistinct(s: State, rows: seq<Txn>)
    requires DistinctIds(s.store) && FreshIds(s.store, rows)
    ensures DistinctIds(s.store + rows)
  {
    var store := s.store + rows;
    forall i, j | 0 <= i < j < |store|
      ensures store[i].id != store[j].id
    {
      if i < |s.store| <= j {
        assert !HasId(s.store, rows[j - |s.store|].id);
      }
    }
  }

  lemma StoredMatching(s: State, rows: seq<Txn>)
    requires Matching(s)
    ensures Matching(s.(store := s.store + rows))
  {
    hide IsPair;
    var n := s.(store := s.store + rows);
    forall k | 0 <= k < |n.transfers|
      ensures IsPair(n, n.transfers[k])
    {
      assert IsPair(s, s.transfers[k]);
      StillPair(s, n, s.transfers[k]);
    }
  }

  /** A statement of one account never violates the members' key: it is refused only for an
    * amount that cannot be negated, and otherwise leaves a matching that is valid and
    * maximal. */
  lemma PersistKeeps(s: State, rows: seq<Txn>, account: string)
    requires Inv(s) && OneAccount(rows, account) && FreshIds(s.store, rows)
    ensures Persisted(s, rows).Ok? <==> Negatable(rows)
    ensures Negatable(rows) ==> Inv(Persisted(s, rows).value)
  {
    hide Inv, PairAll, Matching, Maximal, DistinctIds, FreshIds, Pair;
    var n := s.(store := s.store + rows);
    StoredReady(s, rows);
    IdsDiffer(s.store, rows);
    assert rows[..|rows|] == rows && rows[|rows|..] == [];
    if Negatable(rows) {
      PairAllKeeps(n, rows, |rows|, account);
      MakeInv(Persisted(s, rows).value);
    } else {
      var k :| 0 <= k < |rows| && rows[k].amount == Int64.MIN;
      if PairAll(n, rows).Ok? {
        PrefixSucceeds(n, rows, k + 1);
        PairAllStep(n, rows, k);
        NotNegated(n, rows, k);
        assert false;
      }
    }
  }

  /** No row of the most negative amount is ever paired. */
  lemma NotNegated(s: State, rows: seq<Txn>, k: nat)
    requires k < |rows| && rows[k].amount == Int64.MIN
    ensures PairAll(s, rows[..k]).Ok? ==> Pair(PairAll(s, rows[..k]).value, rows[k]).Err?
  {
    hide PairAll;
  }

  lemma IdsDiffer(store: seq<Txn>, rows: seq<Txn>)
    requires FreshIds(store, rows)
    ensures forall i, j :: 0 <= i < j < |rows| ==> rows[i].id != rows[j].id
  {
  }

  lemma MakeInv(s: State)
    requires DistinctIds(s.store) && Matching(s) && Maximal(s, [])
    ensures Inv(s)
  {
  }

  lemma DismissKeeps(s: State, k: nat)
    requires Inv(s) && Dismissed(s, k).Ok?
    ensures Inv(Dismissed(s, k).value)
  {
    hide Cancels, Opposite;
    var n := Dismissed(s, k).value;
    forall j | 0 <= j < |n.transfers|
      ensures IsPair(n, n.transfers[j])
    {
      assert IsPair(s, s.transfers[j]);
    }
  }

  // ---- Every history ----------------------------------------------------------------------

  datatype Action = PersistAction(account: string, rows: seq<Txn>) | DismissAction(transfer: nat)

  const START: State := State([], [], map[])

  function OrElse(r: Result<State, Error>, s: State): State {
    if r.Ok? then r.value else s
  }

  function After(actions: seq<Action>): State {
    if actions == [] then START
    else
      var s := After(actions[..|actions| - 1]);
      match actions[|actions| - 1]
      case PersistAction(_, rows) => OrElse(Persisted(s, rows), s)
      case DismissAction(k) => OrElse(Dismissed(s, k), s)
  }

  ghost predicate OneAccountEach(actions: seq<Action>) {
    forall k :: 0 <= k < |actions| && actions[k].PersistAction? ==> OneAccount(actions[k].rows, actions[k].account)
  }

  /** Over any history of statements of one account each, and of dismissals, pairing is a
    * valid matching and a maximal one. */
  lemma {:induction false} HistoryKeeps(actions: seq<Action>)
    requires OneAccountEach(actions)
    ensures Inv(After(actions))
  {
    hide Persisted, Dismissed, OneAccount, FreshIds;
    if actions != [] {
      hide Inv;
      var before, last := actions[..|actions| - 1], actions[|actions| - 1];
      assert forall k :: 0 <= k < |before| ==> before[k] == actions[k];
      HistoryKeeps(before);
      var s := After(before);
      match last
      case PersistAction(account, rows) =>
        if Persisted(s, rows).Ok? {
          PersistedFresh(s, rows);
          assert OneAccount(rows, account);
          PersistKeeps(s, rows, account);
        }
      case DismissAction(k) =>
        if Dismissed(s, k).Ok? {
          DismissKeeps(s, k);
        }
    }
  }

  lemma PersistedFresh(s: State, rows: seq<Txn>)
    requires Persisted(s, rows).Ok?
    ensures FreshIds(s.store, rows)
  {
  }

  /** Who could be paired: two rows of one entity and kind, in two accounts, of opposite amounts
    * that are not zero, three days apart at most. */
  lemma CancelsMeans(a: Txn, b: Txn)
    ensures Cancels(a, b)
       <==> && a.id != b.id && a.entity == b.entity && a.kind == b.kind && a.account != b.account
            && a.amount + b.amount == 0 && a.amount != 0 && -3 <= a.day - b.day <= 3
    ensures Cancels(a, b) <==> a.id != b.id && (Opposite(a, b) || Opposite(b, a))
  {
  }

  /** What that comes to: no transaction in two pairs; every pair an outgoing and an incoming
    * amount of two accounts; and no two rows left that could be a pair. */
  lemma PairsAfterHistory(actions: seq<Action>, j: nat, k: nat)
    requires OneAccountEach(actions) && j < |After(actions).transfers| && k < |After(actions).transfers|
    ensures
      var s := After(actions);
      var a, b := s.transfers[j], s.transfers[k];
      && (j != k ==> {a.outTxn, a.inTxn} !! {b.outTxn, b.inTxn})
      && (exists o, i ::
            && o in s.store && i in s.store && o.id == a.outTxn && i.id == a.inTxn
            && o.entity == i.entity && o.kind == i.kind && o.account != i.account
            && o.amount < 0 && o.amount + i.amount == 0 && -3 <= o.day - i.day <= 3)
    ensures
      var s := After(actions);
      forall x, y ::
        && x in s.store && y in s.store
        && x.entity == y.entity && x.kind == y.kind && x.account != y.account
        && x.amount != 0 && x.amount + y.amount == 0 && -3 <= x.day - y.day <= 3 ==>
          x.id in s.members || y.id in s.members
  {
    HistoryKeeps(actions);
    hide After, IsPair, Cancels, Opposite;
    var s := After(actions);
    assert s.members[s.transfers[j].outTxn] == j && s.members[s.transfers[j].inTxn] == j;
    assert s.members[s.transfers[k].outTxn] == k && s.members[s.transfers[k].inTxn] == k;
    PairMeans(s, s.transfers[j]);
    forall x, y | && x in s.store && y in s.store
                  && x.entity == y.entity && x.kind == y.kind && x.account != y.account
                  && x.amount != 0 && x.amount + y.amount == 0 && -3 <= x.day - y.day <= 3
      ensures x.id in s.members || y.id in s.members
    {
      if x.id == y.id {
        SameRow(s.store, x, y);
      }
      CancelsMeans(x, y);
    }
  }

  lemma PairMeans(s: State, transfer: Transfer)
    requires IsPair(s, transfer)
    ensures exists o, i ::
              && o in s.store && i in s.store && o.id == transfer.outTxn && i.id == transfer.inTxn
              && o.entity == i.entity && o.kind == i.kind && o.account != i.account
              && o.amount < 0 && o.amount + i.amount == 0 && -3 <= o.day - i.day <= 3
  {
  }

  /** One pairing: the row left alone where it is zero or nobody could be paired with it;
    * otherwise one more transfer, of the row and of the candidate nearest in days and then of
    * lowest id, the outgoing one first, and two more members. */
  lemma DetectionMeans(s: State, t: Txn)
    requires DistinctIds(s.store) && t in s.store && t.amount != Int64.MIN && t.id !in s.members
    ensures Pair(s, t).Ok?
    ensures
      var n := Pair(s, t).value;
      var pairable := (x: Txn) =>
                        && x in s.store && x.id !in s.members && x.entity == t.entity && x.kind == t.kind
                        && x.account != t.account
                        && x.amount + t.amount == 0 && t.amount != 0 && -3 <= x.day - t.day <= 3;
      && n.store == s.store
      && ((forall x :: !pairable(x)) ==> n == s)
      && forall x :: pairable(x) ==>
                       && |n.transfers| == |s.transfers| + 1 && n.transfers[..|s.transfers|] == s.transfers
                       && var made := n.transfers[|s.transfers|];
                       && !made.dismissed && (if t.amount < 0 then made.outTxn == t.id else made.inTxn == t.id)
                       && var other := if t.amount < 0 then made.inTxn else made.outTxn;
                       && n.members == s.members[t.id := |s.transfers|][other := |s.transfers|]
                       && exists c ::
                            && pairable(c) && c.id == other
                            && var near, far := if c.day < t.day then t.day - c.day else c.day - t.day,
                                                if x.day < t.day then t.day - x.day else x.day - t.day;
                            near < far || (near == far && c.id <= x.id)
  {
    hide Cancels, Nearest;
    var c := Nearest(s.store, t, s.members);
    forall x | x in s.store
      ensures Cancels(x, t)
         <==> && x.entity == t.entity && x.kind == t.kind && x.account != t.account
              && x.amount + t.amount == 0 && t.amount != 0 && -3 <= x.day - t.day <= 3
    {
      if x.id == t.id {
        SameRow(s.store, x, t);
      }
      CancelsMeans(x, t);
    }
    forall x | x in s.store && Candidate(x, t, s.members)
      ensures
        && c.Some?
        && var near, far := if c.value.day < t.day then t.day - c.value.day else c.value.day - t.day,
                            if x.day < t.day then t.day - x.day else x.day - t.day;
        near < far || (near == far && c.value.id <= x.id)
    {
      NearestIsFirst(s.store, t, s.members, x);
    }
  }

  /** A dismissal stamps one active transfer and changes nothing else; there is no other
    * refusal than that none is active under that number. */
  lemma DismissalMeans(s: State, k: nat)
    ensures Dismissed(s, k).Ok? <==> k < |s.transfers| && !s.transfers[k].dismissed
    ensures Dismissed(s, k).Ok? ==>
              var n := Dismissed(s, k).value;
              && n.store == s.store && n.members == s.members && |n.transfers| == |s.transfers|
              && n.transfers[k] == Transfer(s.transfers[k].outTxn, s.transfers[k].inTxn, true)
              && forall j :: 0 <= j < |s.transfers| && j != k ==> n.transfers[j] == s.transfers[j]
  {
  }

  // ---- When an import is refused ------------------------------------------------------------

  /** A row is refused exactly when its amount cannot be negated, or when it is a member
    * already and could be paired. */
  lemma PairRefused(s: State, t: Txn)
    ensures Pair(s, t).Err?
       <==> t.amount == Int64.MIN || (t.id in s.members && exists c :: c in s.store && Candidate(c, t, s.members))
  {
  }

  /** At its own turn row `j` takes row `k`, which still waits for its own. */
  predicate Takes(s: State, rows: seq<Txn>, j: nat, k: nat)
    requires j < k < |rows|
  {
    && PairAll(s, rows[..j]).Ok?
    && var before := PairAll(s, rows[..j]).value;
    var c := Nearest(before.store, rows[j], before.members);
    c.Some? && c.value.id == rows[k].id
  }

  /** At its own turn row `k` could still be paired. */
  ghost predicate Pairable(s: State, rows: seq<Txn>, k: nat)
    requires k < |rows|
  {
    && PairAll(s, rows[..k]).Ok?
    && var before := PairAll(s, rows[..k]).value;
    exists c :: c in before.store && Candidate(c, rows[k], before.members)
  }

  lemma PairAllStep(s: State, rows: seq<Txn>, k: nat)
    requires k < |rows|
    ensures PairAll(s, rows[..k + 1])
         == if PairAll(s, rows[..k]).Ok? then Pair(PairAll(s, rows[..k]).value, rows[k]) else PairAll(s, rows[..k])
  {
    hide Pair;
    assert rows[..k + 1][..k] == rows[..k];
  }

  /** A row still to come is a member exactly when a row before it has taken it. */
  lemma {:induction false} TakenBefore(s: State, rows: seq<Txn>, m: nat, k: nat)
    requires m <= k < |rows| && rows[k].id !in s.members && PairAll(s, rows[..m]).Ok?
    requires forall i, j :: 0 <= i < j < |rows| ==> rows[i].id != rows[j].id
    ensures rows[k].id in PairAll(s, rows[..m]).value.members <==> exists j :: 0 <= j < m && Takes(s, rows, j, k)
  {
    hide Nearest, PairAll, Candidate;
    if m == 0 {
      NoRowsYet(s, rows);
    } else {
      PairAllStep(s, rows, m - 1);
      TakenBefore(s, rows, m - 1, k);
      assert Takes(s, rows, m - 1, k) <==>
             var before := PairAll(s, rows[..m - 1]).value;
             var c := Nearest(before.store, rows[m - 1], before.members);
             c.Some? && c.value.id == rows[k].id;
      hide Takes;
    }
  }

  lemma NoRowsYet(s: State, rows: seq<Txn>)
    ensures PairAll(s, rows[..0]) == Ok(s)
  {
  }

  /** The first refusal refuses them all. */
  lemma {:induction false} FirstRefusal(s: State, rows: seq<Txn>, n: nat)
    requires n <= |rows|
    ensures PairAll(s, rows[..n]).Err?
       <==> exists k :: 0 <= k < n && PairAll(s, rows[..k]).Ok? && Pair(PairAll(s, rows[..k]).value, rows[k]).Err?
  {
    hide Pair, PairAll;
    if n == 0 {
      NoRowsYet(s, rows);
    } else {
      PairAllStep(s, rows, n - 1);
      FirstRefusal(s, rows, n - 1);
    }
  }

  /** A row that was taken before its turn, and that at its turn could be paired again. */
  ghost predicate Collides(s: State, rows: seq<Txn>, j: nat, k: nat)
    requires j < k < |rows|
  {
    Takes(s, rows, j, k) && Pairable(s, rows, k)
  }

  /** Some row before `k` collides with it. */
  ghost predicate TakenTwice(s: State, rows: seq<Txn>, k: nat)
    requires k < |rows|
  {
    exists j :: 0 <= j < k && Collides(s, rows, j, k)
  }

  lemma RowRefused(s: State, rows: seq<Txn>, k: nat)
    requires k < |rows| && rows[k].id !in s.members
    requires forall i, j :: 0 <= i < j < |rows| ==> rows[i].id != rows[j].id
    ensures PairAll(s, rows[..k]).Ok? && Pair(PairAll(s, rows[..k]).value, rows[k]).Err?
       <==> TakenTwice(s, rows, k) || (PairAll(s, rows[..k]).Ok? && rows[k].amount == Int64.MIN)
  {
    hide Nearest, PairAll, Candidate, Pair, Takes;
    if PairAll(s, rows[..k]).Ok? {
      PairRefused(PairAll(s, rows[..k]).value, rows[k]);
      TakenBefore(s, rows, k, k);
      assert forall j :: 0 <= j < k ==> (Collides(s, rows, j, k) <==> Takes(s, rows, j, k) && Pairable(s, rows, k));
    }
  }

  /** An import is refused exactly when an amount of its rows cannot be negated, or when one
    * of its rows takes another before that one's turn, and the other could then be paired a
    * second time. */
  lemma PersistRefused(s: State, rows: seq<Txn>)
    requires Inv(s) && FreshIds(s.store, rows)
    ensures Persisted(s, rows).Err?
       <==> !Negatable(rows) || exists k :: 0 <= k < |rows| && TakenTwice(s.(store := s.store + rows), rows, k)
  {
    hide Inv, PairAll, Matching, Maximal, DistinctIds, FreshIds, TakenTwice, Pair;
    var n := s.(store := s.store + rows);
    StoredReady(s, rows);
    IdsDiffer(s.store, rows);
    FirstRefusal(n, rows, |rows|);
    assert rows[..|rows|] == rows;
    forall k | 0 <= k < |rows|
      ensures PairAll(n, rows[..k]).Ok? && Pair(PairAll(n, rows[..k]).value, rows[k]).Err?
         <==> TakenTwice(n, rows, k) || (PairAll(n, rows[..k]).Ok? && rows[k].amount == Int64.MIN)
    {
      RowRefused(n, rows, k);
    }
    if !Negatable(rows) && PairAll(n, rows).Ok? {
      var k :| 0 <= k < |rows| && rows[k].amount == Int64.MIN;
      PrefixSucceeds(n, rows, k);
      assert false;
    }
  }

  const FIRST := Txn(1, "E", "A", "bank", 0, -5)
  const SECOND := Txn(2, "E", "B", "bank", 0, 5)
  const THIRD := Txn(3, "E", "A", "bank", 0, -5)

  /** Which is why every row of a statement is given the statement's one account: three rows
    * over two accounts would pair the second row twice. */
  lemma TwoAccountsCollide()
    ensures FreshIds([], [FIRST, SECOND, THIRD]) && Persisted(START, [FIRST, SECOND, THIRD]) == Err(MemberTaken)
  {
    WhoCancelsWhom();
    NewIds();
    hide FIRST, SECOND, THIRD, Pair, Nearest, Candidate, PairAll, FreshIds;
    var rows := [FIRST, SECOND, THIRD];
    FirstPairs(rows, FIRST, SECOND, THIRD);
    SecondCollides(rows, FIRST, SECOND, THIRD);
    assert [] + rows == rows;
    SecondFails(State(rows, [], map[]), rows, State(rows, [Transfer(1, 2, false)], map[1 := 0, 2 := 0]));
  }

  lemma WhoCancelsWhom()
    ensures Candidate(SECOND, FIRST, map[]) && !Candidate(THIRD, FIRST, map[])
    ensures Candidate(THIRD, SECOND, map[1 := 0, 2 := 0])
    ensures FIRST.id == 1 && SECOND.id == 2 && FIRST.amount == -5 && SECOND.amount == 5
  {
  }

  lemma NewIds()
    ensures FreshIds([], [FIRST, SECOND, THIRD])
  {
  }

  lemma SecondFails(s: State, rows: seq<Txn>, after: State)
    requires |rows| == 3 && Pair(s, rows[0]) == Ok(after) && Pair(after, rows[1]) == Err(MemberTaken)
    ensures PairAll(s, rows) == Err(MemberTaken)
  {
    hide Pair;
    var one, two := [rows[0]], [rows[0], rows[1]];
    assert one[..0] == [] && two[..1] == one && rows[..2] == two;
    assert PairAll(s, one) == Ok(after);
    assert PairAll(s, two) == Err(MemberTaken);
  }

  lemma FirstPairs(rows: seq<Txn>, a: Txn, b: Txn, c: Txn)
    requires rows == [a, b, c] && a.id == 1 && b.id == 2
    requires Candidate(b, a, map[]) && !Candidate(c, a, map[]) && a.amount == -5
    ensures Pair(State(rows, [], map[]), a) == Ok(State(rows, [Transfer(1, 2, false)], map[1 := 0, 2 := 0]))
  {
    assert rows[..2] == [a, b] && [a, b][..1] == [a];
    assert Nearest([a], a, map[]) == None by { NoneNear([a], a, map[]); }
    assert Nearest([a, b], a, map[]) == Some(b);
    assert Nearest(rows, a, map[]) == Some(b);
    assert [] + [Transfer(1, 2, false)] == [Transfer(1, 2, false)];
  }

  lemma SecondCollides(rows: seq<Txn>, a: Txn, b: Txn, c: Txn)
    requires rows == [a, b, c] && a.id == 1 && b.id == 2 && b.amount == 5 && Candidate(c, b, map[1 := 0, 2 := 0])
    ensures Pair(State(rows, [Transfer(1, 2, false)], map[1 := 0, 2 := 0]), b) == Err(MemberTaken)
  {
    var m: map<nat, nat> := map[1 := 0, 2 := 0];
    assert rows[..2] == [a, b];
    NoneNear([a, b], b, m);
    assert Nearest(rows, b, m) == Some(c);
  }

  lemma {:induction false} NoneNear(store: seq<Txn>, t: Txn, members: map<nat, nat>)
    requires forall k :: 0 <= k < |store| ==> !Candidate(store[k], t, members)
    ensures Nearest(store, t, members) == None
  {
    if store != [] {
      NoneNear(store[..|store| - 1], t, members);
    }
  }

  // ---- As the tables are kept -------------------------------------------------------------

  class Tables {
    var store: seq<Txn>
    var transfers: seq<Transfer>
    var members: map<nat, nat>

    function Contents(): State
      reads this
    {
      State(store, transfers, members)
    }

    constructor ()
      ensures Contents() == START && Inv(Contents())
    {
      store, transfers, members := [], [], map[];
    }

    method DetectAndPair(t: Txn) returns (r: Result<Option<Transfer>, Error>)
      modifies this`transfers, this`members
      ensures
        match Pair(old(Contents()), t)
        case Err(e) => r == Err(e) && Contents() == old(Contents())
        case Ok(n) =>
          && Contents() == n
          && r == Ok(if n.transfers == old(transfers) then None else Some(n.transfers[|n.transfers| - 1]))
    {
      hide Cancels;
      if t.amount == 0 {
        assert Nearest(store, t, members).None? by { NoMirror(t); }
        return Ok(None);
      }
      if t.amount == Int64.MIN {
        return Err(OutOfRange);
      }
      var candidate := FindNearest(t);
      if candidate.None? {
        return Ok(None);
      }
      var outTxn, inTxn := t.id, candidate.value.id;
      if t.amount > 0 {
        outTxn, inTxn := candidate.value.id, t.id;
      }
      if t.id in members {
        return Err(MemberTaken);
      }
      var transfer := Transfer(outTxn, inTxn, false);
      members := members[t.id := |transfers|][candidate.value.id := |transfers|];
      transfers := transfers + [transfer];
      return Ok(Some(transfer));
    }

    lemma NoMirror(t: Txn)
      requires t.amount == 0
      ensures forall x: Txn :: !Cancels(x, t)
    {
    }

    method FindNearest(t: Txn) returns (c: Option<Txn>)
      ensures c == Nearest(store, t, members)
    {
      hide Candidate;
      c := None;
      for k := 0 to |store|
        invariant c == Nearest(store[..k], t, members)
      {
        assert store[..k + 1][..k] == store[..k];
        var x := store[k];
        if Candidate(x, t, members) && (c.None? || !Nearer(c.value, x, t)) {
          c := Some(x);
        }
      }
      assert store[..|store|] == store;
    }

    /** One statement: stored and paired in one transaction, or not at all, which happens for
      * an amount that cannot be negated and for nothing else. */
    method Persist(rows: seq<Txn>, ghost account: string) returns (r: Result<(), Error>)
      requires Inv(Contents()) && OneAccount(rows, account) && FreshIds(store, rows)
      modifies this
      ensures Inv(Contents())
      ensures r.Ok? <==> Negatable(rows)
      ensures
        match Persisted(old(Contents()), rows)
        case Err(e) => r == Err(e) && Contents() == old(Contents())
        case Ok(n) => r == Ok(()) && Contents() == n && store == old(store) + rows
    {
      hide Inv, Pair, FreshIds, OneAccount, Negatable, PairAll;
      ghost var s := Contents();
      var storeBefore, transfersBefore, membersBefore := store, transfers, members;
      PersistKeeps(s, rows, account);
      store := store + rows;
      ghost var n := Contents();
      NoRowsYet(n, rows);
      for k := 0 to |rows|
        invariant PairAll(n, rows[..k]) == Ok(Contents())
        invariant store == n.store
      {
        PairAllStep(n, rows, k);
        PairKeepsStore(Contents(), rows[k]);
        var paired := DetectAndPair(rows[k]);
        if paired.Err? {
          StaysRefused(n, rows, k + 1);
          store, transfers, members := storeBefore, transfersBefore, membersBefore;
          return Err(paired.error);
        }
      }
      assert rows[..|rows|] == rows;
      return Ok(());
    }

    method Dismiss(k: nat) returns (r: Result<Transfer, Error>)
      requires Inv(Contents())
      modifies this`transfers
      ensures Inv(Contents())
      ensures
        match Dismissed(old(Contents()), k)
        case Err(e) => r == Err(e) && Contents() == old(Contents())
        case Ok(n) => Contents() == n && r == Ok(n.transfers[k])
    {
      hide Inv;
      if k >= |transfers| || transfers[k].dismissed {
        return Err(NoActiveTransfer);
      }
      DismissKeeps(Contents(), k);
      transfers := transfers[k := transfers[k].(dismissed := true)];
      return Ok(transfers[k]);
    }
  }

  lemma {:induction false} PrefixSucceeds(s: State, rows: seq<Txn>, k: nat)
    requires k <= |rows| && PairAll(s, rows).Ok?
    ensures PairAll(s, rows[..k]).Ok?
  {
    hide Pair;
    if k == |rows| {
      assert rows[..k] == rows;
    } else {
      assert rows[..|rows| - 1][..k] == rows[..k];
      PrefixSucceeds(s, rows[..|rows| - 1], k);
    }
  }

  lemma {:induction false} PairAllStores(s: State, rows: seq<Txn>)
    ensures PairAll(s, rows).Ok? ==> PairAll(s, rows).value.store == s.store
  {
    hide Pair;
    if rows != [] {
      PairAllStores(s, rows[..|rows| - 1]);
      if PairAll(s, rows[..|rows| - 1]).Ok? {
        PairKeepsStore(PairAll(s, rows[..|rows| - 1]).value, rows[|rows| - 1]);
      }
    }
  }

  lemma PersistStores(s: State, rows: seq<Txn>)
    ensures Persisted(s, rows).Ok? ==> Persisted(s, rows).value.store == s.store + rows
  {
    hide PairAll, FreshIds;
    PairAllStores(s.(store := s.store + rows), rows);
  }

  lemma NothingPersisted(s: State)
    ensures Persisted(s, []) == Ok(s)
  {
    assert s.store + [] == s.store;
  }

  lemma {:induction false} StaysRefused(s: State, rows: seq<Txn>, k: nat)
    requires k <= |rows| && PairAll(s, rows[..k]).Err?
    ensures PairAll(s, rows) == PairAll(s, rows[..k])
  {
    hide Pair;
    if k == |rows| {
      assert rows[..k] == rows;
    } else {
      assert rows[..|rows| - 1][..k] == rows[..k];
      StaysRefused(s, rows[..|rows| - 1], k);
    }
  }

  lemma PairKeepsStore(s: State, t: Txn)
    ensures Pair(s, t).Ok? ==> Pair(s, t).value.store == s.store
  {
    hide Nearest;
  }
}
