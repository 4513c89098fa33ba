/** Deciding and undoing keep the books, and an undo takes back exactly its decision. */
module BookDecisions {
  import opened Books

  // ---- Resolve keeps it -------------------------------------------------------------------

  lemma GroupIsUnanswered(s: State, entity: string, key: string)
    requires TxnsKept(s)
    ensures
      var rows := GroupRows(s, entity, key);
      && (forall t :: t in rows <==>
                      t in s.txns && t.entity == entity && t.key == key && !HasLive(s.classifications, t.id))
      && (forall i, j :: 0 <= i < j < |rows| ==> rows[i].id != rows[j].id)
  {
    hide HasLive, Before;
    EligibleKeepsOrder(s.txns, s.classifications, (t: Txn) => t.entity == entity && t.key == key);
  }

  ghost predicate DistinctIds(rows: seq<Txn>) {
    forall i, j :: 0 <= i < j < |rows| ==> rows[i].id != rows[j].id
  }

  lemma {:induction false} EligibleKeepsOrder(rows: seq<Txn>, log: seq<Classification>, keep: Txn -> bool)
    requires Ascending(rows) && DistinctIds(rows)
    ensures Ascending(Eligible(rows, log, keep)) && DistinctIds(Eligible(rows, log, keep))
  {
    hide HasLive, Before;
    if rows != [] {
      var before, t := rows[..|rows| - 1], rows[|rows| - 1];
      EligibleKeepsOrder(before, log, keep);
      var r := Eligible(before, log, keep);
      hide Ascending, DistinctIds;
      assert r + [] == r;
      LastOfAll(rows);
      Appends(r, t);
    }
  }

  /** The last row comes after every other. */
  lemma LastOfAll(rows: seq<Txn>)
    requires rows != [] && Ascending(rows) && DistinctIds(rows)
    ensures forall x :: x in rows[..|rows| - 1] ==> Before(x, rows[|rows| - 1]) && x.id != rows[|rows| - 1].id
  {
    hide Before;
  }

  lemma Appends(rows: seq<Txn>, t: Txn)
    requires Ascending(rows) && DistinctIds(rows) && forall x :: x in rows ==> Before(x, t) && x.id != t.id
    ensures Ascending(rows + [t]) && DistinctIds(rows + [t])
  {
    hide Before;
  }

  lemma OneLiveGrows(log: seq<Classification>, rows: seq<Txn>, category: string, author: Author)
    requires OneLive(log)
    requires forall k :: 0 <= k < |rows| ==> !HasLive(log, rows[k].id)
    requires forall i, j :: 0 <= i < j < |rows| ==> rows[i].id != rows[j].id
    ensures OneLive(log + Written(rows, category, author))
  {
    var all, m := log + Written(rows, category, author), |log|;
    forall i, j | 0 <= i < j < |all| && all[i].live && all[j].live
      ensures all[i].txn != all[j].txn
    {
      if i < m <= j {
        assert !HasLive(log, rows[j - m].id);
        assert log[i].live;
      }
    }
  }

  /** A kept answer stays kept while rows, decisions and runs are only added. */
  ghost predicate Extends(n: State, s: State) {
    && (forall t :: t in s.txns ==> t in n.txns)
    && s.decisions <= n.decisions
    && (forall batch :: batch in s.runs ==> batch in n.runs)
  }

  lemma AnswersStayKept(s: State, n: State, k: nat)
    requires LogKept(s) && Extends(n, s) && k < |s.classifications|
    ensures s.classifications[k].author.ByHuman? ==> HumanAnswerKept(n, s.classifications[k])
    ensures s.classifications[k].author.ByRun? ==> RunAnswerKept(n, s.classifications[k])
  {
    hide OneLive;
    var c := s.classifications[k];
    if c.author.ByHuman? {
      assert HumanAnswerKept(s, c);
      var t :| t in s.txns && t.id == c.txn && t.key == s.decisions[c.author.decision].key;
      assert t in n.txns;
    } else {
      assert RunAnswerKept(s, c);
    }
  }

  /** Runs are untouched by what writes no run's answer. */
  lemma RunsStayKept(s: State, n: State)
    requires RunsKept(s) && n.runs == s.runs && n.workers == s.workers
    requires forall t :: t in s.txns ==> t in n.txns
    requires forall batch :: CountBy(n.classifications, ByRun(batch)) == CountBy(s.classifications, ByRun(batch))
    ensures RunsKept(n)
  {
    hide CountBy, Ascending, PastCursor;
    forall batch | batch in n.runs
      ensures RunKept(n, batch)
    {
      assert RunKept(s, batch);
    }
    forall batch | batch in n.workers
      ensures WorkerKept(n, batch)
    {
      assert WorkerKept(s, batch);
    }
  }

  /** What a decision adds to the log. */
  function ResolveLog(s: State, entity: string, key: string, outcome: Outcome, category: string): seq<Classification> {
    if outcome.Skipped? then []
    else Written(GroupRows(s, entity, key), if outcome.Categorised? then category
                 else OUT_OF_PNL, ByHuman(|s.decisions|))
  }

  /** What a decision leaves alone, and what it adds. */
  lemma ResolveAdds(s: State, setup: Setup, entity: string, key: string, outcome: Outcome, category: string)
    requires Resolve(s, setup, entity, key, outcome, category).Ok?
    ensures
      var n, m := Resolve(s, setup, entity, key, outcome, category).value, |s.decisions|;
      && n.txns == s.txns && n.runs == s.runs && n.workers == s.workers
      && n.classifications == s.classifications + ResolveLog(s, entity, key, outcome, category)
      && |n.decisions| == m + 1 && n.decisions[..m] == s.decisions && !HasLiveDecision(s.decisions, key)
      && n.decisions[m].key == key && n.decisions[m].outcome == outcome && !n.decisions[m].undone
      && n.decisions[m].coveredCount == |GroupRows(s, entity, key)|
      && Meaning(n.decisions[m]) == if outcome.Categorised? then category else OUT_OF_PNL
  {
    hide HasLiveDecision, GroupRows, Coverage;
  }

  lemma ResolveLogKept(s: State, n: State, entity: string, key: string, outcome: Outcome, category: string, k: nat)
    requires TxnsKept(s) && k < |ResolveLog(s, entity, key, outcome, category)|
    requires n.txns == s.txns && |n.decisions| == |s.decisions| + 1
    requires n.decisions[|s.decisions|].key == key && n.decisions[|s.decisions|].outcome == outcome
    requires !n.decisions[|s.decisions|].undone
    requires Meaning(n.decisions[|s.decisions|]) == if outcome.Categorised? then category else OUT_OF_PNL
    ensures
      var c := ResolveLog(s, entity, key, outcome, category)[k];
      c.author.ByHuman? && HumanAnswerKept(n, c)
  {
    GroupIsUnanswered(s, entity, key);
    hide GroupRows, TxnsKept, Meaning;
    var rows := GroupRows(s, entity, key);
    assert rows[k] in rows;
    assert HasKey(n, rows[k].id, key);
  }

  lemma ResolveLogIsNew(s: State, entity: string, key: string, outcome: Outcome, category: string)
    requires TxnsKept(s) && OneLive(s.classifications)
    ensures OneLive(s.classifications + ResolveLog(s, entity, key, outcome, category))
  {
    GroupIsUnanswered(s, entity, key);
    hide GroupRows, OneLive, HasLive, TxnsKept;
    if outcome.Skipped? {
      assert s.classifications + [] == s.classifications;
    } else {
      var rows := GroupRows(s, entity, key);
      forall k | 0 <= k < |rows|
        ensures !HasLive(s.classifications, rows[k].id)
      {
        assert rows[k] in rows;
      }
      OneLiveGrows(s.classifications, rows, if outcome.Categorised? then category
                   else OUT_OF_PNL, ByHuman(|s.decisions|));
    }
  }

  lemma ResolveKeepsLog(s: State, setup: Setup, entity: string, key: string, outcome: Outcome, category: string)
    requires Inv(s) && Resolve(s, setup, entity, key, outcome, category).Ok?
    ensures LogKept(Resolve(s, setup, entity, key, outcome, category).value)
  {
    hide Resolve, ResolveLog, RunsKept, VendorsKept, CoverageKept, DecisionsKept, TxnsKept, OneLive, HumanAnswerKept,
      RunAnswerKept,
      Meaning;
    ResolveAdds(s, setup, entity, key, outcome, category);
    ResolveLogIsNew(s, entity, key, outcome, category);
    var n, m := Resolve(s, setup, entity, key, outcome, category).value, |s.classifications|;
    forall k | 0 <= k < |n.classifications|
      ensures n.classifications[k].author.ByHuman? ==> HumanAnswerKept(n, n.classifications[k])
      ensures n.classifications[k].author.ByRun? ==> RunAnswerKept(n, n.classifications[k])
    {
      if k < m {
        AnswersStayKept(s, n, k);
      } else {
        ResolveLogKept(s, n, entity, key, outcome, category, k - m);
      }
    }
  }

  lemma ResolveVendors(s: State, setup: Setup, entity: string, key: string, outcome: Outcome, category: string)
    requires Resolve(s, setup, entity, key, outcome, category).Ok?
    ensures
      var n, m := Resolve(s, setup, entity, key, outcome, category).value, |s.decisions|;
      && n.vendors == (if outcome.Categorised? then s.vendors[key := category] else s.vendors)
      && |n.decisions| == m + 1
      && (n.decisions[m].category.Some? <==> outcome.Categorised?)
  {
    hide HasLiveDecision, GroupRows, Coverage, Written;
  }

  lemma ResolveKeepsDecisions(s: State, setup: Setup, entity: string, key: string, outcome: Outcome, category: string)
    requires Inv(s) && Resolve(s, setup, entity, key, outcome, category).Ok?
    ensures DecisionsKept(Resolve(s, setup, entity, key, outcome, category).value)
    ensures VendorsKept(Resolve(s, setup, entity, key, outcome, category).value)
  {
    hide Resolve, ResolveLog, RunsKept, CoverageKept, LogKept, TxnsKept, GroupRows, Meaning;
    ResolveAdds(s, setup, entity, key, outcome, category);
    ResolveVendors(s, setup, entity, key, outcome, category);
    var n, m := Resolve(s, setup, entity, key, outcome, category).value, |s.decisions|;
    assert forall d :: 0 <= d < m ==> n.decisions[d] == n.decisions[..m][d] == s.decisions[d];
    DecisionAdded(s, n, key);
    VendorsFollow(s, n, key, outcome, category);
  }

  lemma DecisionAdded(s: State, n: State, key: string)
    requires DecisionsKept(s) && |n.decisions| == |s.decisions| + 1 && !HasLiveDecision(s.decisions, key)
    requires forall d :: 0 <= d < |s.decisions| ==> n.decisions[d] == s.decisions[d]
    requires n.decisions[|s.decisions|].key == key
    requires n.decisions[|s.decisions|].category.Some? <==> n.decisions[|s.decisions|].outcome.Categorised?
    ensures DecisionsKept(n)
  {
  }

  lemma VendorsFollow(s: State, n: State, key: string, outcome: Outcome, category: string)
    requires VendorsKept(s) && |n.decisions| == |s.decisions| + 1 && !HasLiveDecision(s.decisions, key)
    requires forall d :: 0 <= d < |s.decisions| ==> n.decisions[d] == s.decisions[d]
    requires n.decisions[|s.decisions|].key == key && n.decisions[|s.decisions|].outcome == outcome
    requires !n.decisions[|s.decisions|].undone
    requires outcome.Categorised? ==> Meaning(n.decisions[|s.decisions|]) == category
    requires n.vendors == if outcome.Categorised? then s.vendors[key := category] else s.vendors
    ensures VendorsKept(n)
  {
    hide Meaning;
    var m := |s.decisions|;
    forall k | k in n.vendors
      ensures exists d :: 0 <= d < |n.decisions| && Remembers(n.decisions[d], k)
    {
      if k == key && outcome.Categorised? {
        assert Remembers(n.decisions[m], k);
      } else {
        var d :| 0 <= d < m && Remembers(s.decisions[d], k);
        assert Remembers(n.decisions[d], k);
      }
    }
    forall d | 0 <= d < |n.decisions| && Remembers(n.decisions[d], n.decisions[d].key)
      ensures n.decisions[d].key in n.vendors && n.vendors[n.decisions[d].key] == Meaning(n.decisions[d])
    {
      if d < m {
        assert Remembers(s.decisions[d], s.decisions[d].key);
      }
    }
  }

  lemma {:induction false} HumanAuthorsAreKnown(s: State)
    requires LogKept(s)
    ensures CountBy(s.classifications, ByHuman(|s.decisions|)) == 0
  {
    hide OneLive;
    forall k | 0 <= k < |s.classifications|
      ensures s.classifications[k].author != ByHuman(|s.decisions|)
    {
      if s.classifications[k].author.ByHuman? {
        assert HumanAnswerKept(s, s.classifications[k]);
      }
    }
    CountNone(s.classifications, ByHuman(|s.decisions|));
  }

  lemma ResolveKeepsCounts(s: State, setup: Setup, entity: string, key: string, outcome: Outcome, category: string)
    requires Inv(s) && Resolve(s, setup, entity, key, outcome, category).Ok?
    ensures CoverageKept(Resolve(s, setup, entity, key, outcome, category).value)
    ensures RunsKept(Resolve(s, setup, entity, key, outcome, category).value)
  {
    hide Coverage, GroupRows, VendorsKept, DecisionsKept, TxnsKept, HasLiveDecision, RunsKept, CountBy, OneLive;
    var n, m := Resolve(s, setup, entity, key, outcome, category).value, |s.decisions|;
    var log := ResolveLog(s, entity, key, outcome, category);
    assert n.classifications == s.classifications + log;
    HumanAuthorsAreKnown(s);
    CountAll(log, ByHuman(m));
    forall d | 0 <= d < |n.decisions|
      ensures CountBy(n.classifications, ByHuman(d)) == if n.decisions[d].outcome.Skipped? then 0
                                                        else n.decisions[d].coveredCount
    {
      CountAppend(s.classifications, log, ByHuman(d));
      if d < m {
        CountNone(log, ByHuman(d));
        assert n.decisions[d] == s.decisions[d];
      }
    }
    forall batch
      ensures CountBy(n.classifications, ByRun(batch)) == CountBy(s.classifications, ByRun(batch))
    {
      CountAppend(s.classifications, log, ByRun(batch));
      CountNone(log, ByRun(batch));
    }
    RunsStayKept(s, n);
  }

  // ---- Undo keeps it, and is exact ----------------------------------------------------------

  /** Of the log, only the answers decision `d` wrote are taken back. */
  ghost predicate TakesBack(n: seq<Classification>, log: seq<Classification>, d: nat) {
    && |n| == |log|
    && forall k :: 0 <= k < |log| ==> n[k] == if log[k].author == ByHuman(d) then log[k].(live := false) else log[k]
  }

  lemma LiveAnswerIsOf(s: State, d: nat, t: Txn, k: nat)
    requires Inv(s) && d < |s.decisions| && !s.decisions[d].undone
    requires k < |s.classifications| && s.classifications[k].live && s.classifications[k].author.ByHuman?
    requires t in s.txns && t.id == s.classifications[k].txn && t.key == s.decisions[d].key
    ensures s.classifications[k].author == ByHuman(d)
  {
    hide OneLive, VendorsKept, CoverageKept, RunsKept, Ascending;
    var c := s.classifications[k];
    assert HumanAnswerKept(s, c);
    var e := c.author.decision;
    var u :| u in s.txns && u.id == c.txn && u.key == s.decisions[e].key;
    var i :| 0 <= i < |s.txns| && s.txns[i] == t;
    var j :| 0 <= j < |s.txns| && s.txns[j] == u;
    assert i == j;
    assert s.decisions[e].key == s.decisions[d].key;
  }

  lemma AnsweredByDecision(s: State, d: nat, k: nat)
    requires Inv(s) && d < |s.decisions| && !s.decisions[d].undone && k < |s.classifications|
    ensures s.classifications[k].live ==>
              (s.classifications[k].txn in HumanAnswered(s, s.decisions[d].key)
               <==> s.classifications[k].author == ByHuman(d))
    ensures s.classifications[k].author == ByHuman(d) ==> s.classifications[k].live
  {
    hide VendorsKept, CoverageKept, RunsKept, TxnsKept, DecisionsKept;
    var c, key := s.classifications[k], s.decisions[d].key;
    if c.author == ByHuman(d) {
      assert HumanAnswerKept(s, c);
      var t :| t in s.txns && t.id == c.txn && t.key == key;
      assert HumanLive(s.classifications, t.id);
    }
    if c.live && c.txn in HumanAnswered(s, key) {
      var t :| t in s.txns && t.key == key && HumanLive(s.classifications, t.id) && t.id == c.txn;
      var j :| 0 <= j < |s.classifications| && s.classifications[j].live && s.classifications[j].txn == t.id
               && s.classifications[j].author.ByHuman?;
      assert j == k;
      LiveAnswerIsOf(s, d, t, k);
    }
  }

  /** Retracting a counterparty's live human answers retracts the decision's own, all of
    * them, and nothing else. */
  lemma UndoTakesBack(s: State, d: nat)
    requires Inv(s) && d < |s.decisions| && !s.decisions[d].undone
    ensures TakesBack(Retracted(s.classifications, HumanAnswered(s, s.decisions[d].key)), s.classifications, d)
  {
    hide Inv, HumanAnswered;
    forall k | 0 <= k < |s.classifications|
      ensures
        var c := s.classifications[k];
        (if c.txn in HumanAnswered(s, s.decisions[d].key) then c.(live := false) else c)
        == if c.author == ByHuman(d) then c.(live := false) else c
    {
      AnsweredByDecision(s, d, k);
    }
  }

  /** What an undo leaves alone, and what it takes back. */
  lemma UndoRemoves(s: State, d: nat)
    requires Inv(s) && Undo(s, d).Ok?
    ensures
      var n := Undo(s, d).value;
      && d < |s.decisions| && !s.decisions[d].undone
      && n.txns == s.txns && n.runs == s.runs && n.workers == s.workers
      && n.decisions == s.decisions[d := s.decisions[d].(undone := true)]
      && n.vendors == (if s.decisions[d].outcome.Categorised? then s.vendors - {s.decisions[d].key} else s.vendors)
      && TakesBack(n.classifications, s.classifications, d)
  {
    hide Inv, HumanAnswered;
    if d < |s.decisions| && !s.decisions[d].undone {
      UndoTakesBack(s, d);
    }
  }

  lemma UndoKeepsLog(s: State, d: nat)
    requires Inv(s) && Undo(s, d).Ok?
    ensures LogKept(Undo(s, d).value)
  {
    hide Undo, RunsKept, VendorsKept, CoverageKept, DecisionsKept, TxnsKept;
    UndoRemoves(s, d);
    var n := Undo(s, d).value;
    forall k | 0 <= k < |n.classifications|
      ensures n.classifications[k].author.ByHuman? ==> HumanAnswerKept(n, n.classifications[k])
      ensures n.classifications[k].author.ByRun? ==> RunAnswerKept(n, n.classifications[k])
    {
      var c := s.classifications[k];
      if c.author.ByHuman? {
        assert HumanAnswerKept(s, c);
      } else {
        assert RunAnswerKept(s, c);
      }
    }
  }

  lemma SameMeaning(d: Decision)
    ensures Meaning(d.(undone := true)) == Meaning(d)
  {
  }

  lemma UndoKeepsDecisions(s: State, d: nat)
    requires Inv(s) && Undo(s, d).Ok?
    ensures DecisionsKept(Undo(s, d).value) && VendorsKept(Undo(s, d).value)
  {
    hide Undo, RunsKept, CoverageKept, LogKept, TxnsKept, TakesBack, Meaning;
    UndoRemoves(s, d);
    assert Meaning(s.decisions[d].(undone := true)) == Meaning(s.decisions[d]) by { SameMeaning(s.decisions[d]); }
    var n := Undo(s, d).value;
    forall key | key in n.vendors
      ensures exists e :: 0 <= e < |n.decisions| && Remembers(n.decisions[e], key)
    {
      var e :| 0 <= e < |s.decisions| && Remembers(s.decisions[e], key);
      assert Remembers(n.decisions[e], key);
    }
    forall e | 0 <= e < |n.decisions| && Remembers(n.decisions[e], n.decisions[e].key)
      ensures n.decisions[e].key in n.vendors && n.vendors[n.decisions[e].key] == Meaning(n.decisions[e])
    {
      assert e != d && Remembers(s.decisions[e], s.decisions[e].key);
    }
  }

  lemma UndoKeepsCounts(s: State, d: nat)
    requires Inv(s) && Undo(s, d).Ok?
    ensures CoverageKept(Undo(s, d).value) && RunsKept(Undo(s, d).value)
  {
    UndoRemoves(s, d);
    hide Undo, VendorsKept, DecisionsKept, LogKept, TxnsKept, CountBy, RunsKept;
    var n := Undo(s, d).value;
    forall author: Author
      ensures CountBy(n.classifications, author) == CountBy(s.classifications, author)
    {
      CountSameAuthors(n.classifications, s.classifications, author);
    }
    RunsStayKept(s, n);
  }

  lemma ResolveKeeps(s: State, setup: Setup, entity: string, key: string, outcome: Outcome, category: string)
    requires Inv(s) && Resolve(s, setup, entity, key, outcome, category).Ok?
    ensures Inv(Resolve(s, setup, entity, key, outcome, category).value)
  {
    ResolveAdds(s, setup, entity, key, outcome, category);
    ResolveKeepsLog(s, setup, entity, key, outcome, category);
    ResolveKeepsDecisions(s, setup, entity, key, outcome, category);
    ResolveKeepsCounts(s, setup, entity, key, outcome, category);
    hide Resolve, LogKept, DecisionsKept, VendorsKept, CoverageKept, RunsKept;
  }

  lemma UndoKeeps(s: State, d: nat)
    requires Inv(s) && Undo(s, d).Ok?
    ensures Inv(Undo(s, d).value)
  {
    UndoRemoves(s, d);
    UndoKeepsLog(s, d);
    UndoKeepsDecisions(s, d);
    UndoKeepsCounts(s, d);
    hide Undo, LogKept, DecisionsKept, VendorsKept, CoverageKept, RunsKept;
  }
}
