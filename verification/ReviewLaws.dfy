/** What a decision does to the books, told of the rows themselves: which it answers, with
  * what, and what it says it covered. */
module ReviewLaws {
  import opened Wrappers
  import opened Books
  import opened BookDecisions
  import opened BookLaws

  // ---- What a decision answers -------------------------------------------------------------------

  /** The amounts of an entity's rows of one counterparty that nobody has answered. */
  function OpenMinor(rows: seq<Txn>, log: seq<Classification>, entity: string, key: string): int {
    if rows == [] then 0
    else
      var t := rows[|rows| - 1];
      OpenMinor(rows[..|rows| - 1], log, entity, key)
      + if t.entity == entity && t.key == key && !HasLive(log, t.id) then t.amount else 0
  }

  lemma {:induction false} CoverageOfKept(rows: seq<Txn>, log: seq<Classification>, entity: string, key: string)
    ensures Coverage(Eligible(rows, log, (t: Txn) => t.entity == entity && t.key == key))
         == OpenMinor(rows, log, entity, key)
  {
    hide HasLive;
    if rows != [] {
      CoverageOfKept(rows[..|rows| - 1], log, entity, key);
      var before := Eligible(rows[..|rows| - 1], log, (t: Txn) => t.entity == entity && t.key == key);
      var t := rows[|rows| - 1];
      assert (before + [t])[..|before|] == before && before + [] == before;
    }
  }

  lemma {:induction false} DistinctRowsCount(rows: seq<Txn>, all: set<Txn>)
    requires DistinctIds(rows) && forall t :: t in rows <==> t in all
    ensures |rows| == |all|
  {
    if rows == [] {
      assert all == {};
    } else {
      var before, t := rows[..|rows| - 1], rows[|rows| - 1];
      assert rows == before + [t];
      forall x
        ensures x in before <==> x in all - {t}
      {
        if x in before {
          var i :| 0 <= i < |before| && before[i] == x;
          assert rows[i].id != rows[|rows| - 1].id;
        }
      }
      DistinctRowsCount(before, all - {t});
    }
  }

  /** A decision that is not a skip answers exactly the rows of its entity and counterparty
    * that nobody had answered, each with what it decided; a skip answers none. Either says
    * how many those rows were and what they came to. */
  lemma ResolveAnswers(s: State, setup: Setup, entity: string, key: string, outcome: Outcome, category: string)
    requires Inv(s) && Resolve(s, setup, entity, key, outcome, category).Ok?
    ensures
      var n, d := Resolve(s, setup, entity, key, outcome, category).value, |s.decisions|;
      && s.classifications <= n.classifications
      && (forall id: nat ::
            HasLive(n.classifications, id)
            <==> HasLive(s.classifications, id)
                 || (!outcome.Skipped? && exists t :: t in s.txns && t.id == id && t.entity == entity && t.key == key))
      && (forall k :: |s.classifications| <= k < |n.classifications| ==>
                        n.classifications[k].live && n.classifications[k].author == ByHuman(d)
                        && n.classifications[k].category == if outcome.Categorised? then category else "09")
      && OneLive(n.classifications)
    ensures
      var n, d := Resolve(s, setup, entity, key, outcome, category).value, |s.decisions|;
      && n.decisions[..d] == s.decisions && |n.decisions| == d + 1
      && n.decisions[d].key == key && n.decisions[d].outcome == outcome && !n.decisions[d].undone
      && n.decisions[d].category == (if outcome.Categorised? then Some(category) else None)
      && n.decisions[d].coveredCount
         == |set t | t in s.txns && t.entity == entity && t.key == key && !HasLive(s.classifications, t.id)|
      && n.decisions[d].coveredMinor == OpenMinor(s.txns, s.classifications, entity, key)
  {
    hide Inv, Resolve, GroupRows, ResolveLog, HasLive, OneLive, Coverage, OpenMinor, Meaning;
    ResolveAdds(s, setup, entity, key, outcome, category);
    ResolveRecords(s, setup, entity, key, outcome, category);
    CoverageOfGroup(s, entity, key);
    KeptFacts(s);
    GroupIsUnanswered(s, entity, key);
    DistinctRowsCount(
      GroupRows(s, entity, key),
      set t | t in s.txns && t.entity == entity && t.key == key && !HasLive(s.classifications, t.id));
    ResolveLogIsNew(s, entity, key, outcome, category);
    LogOfDecision(s, entity, key, outcome, category);
    var log := ResolveLog(s, entity, key, outcome, category);
    forall id: nat
      ensures HasLive(s.classifications + log, id)
         <==> HasLive(s.classifications, id)
              || (!outcome.Skipped? && exists t :: t in s.txns && t.id == id && t.entity == entity && t.key == key)
    {
      LiveInEither(s.classifications, log, id);
      DecisionReaches(s, entity, key, outcome, category, id);
    }
  }

  lemma KeptFacts(s: State)
    requires Inv(s)
    ensures TxnsKept(s) && OneLive(s.classifications)
  {
    hide OneLive, TxnsKept, RunsKept, CoverageKept, VendorsKept, DecisionsKept;
  }

  lemma ResolveRecords(s: State, setup: Setup, entity: string, key: string, outcome: Outcome, category: string)
    requires Resolve(s, setup, entity, key, outcome, category).Ok?
    ensures
      var n, d := Resolve(s, setup, entity, key, outcome, category).value, |s.decisions|;
      && |n.decisions| == d + 1
      && n.decisions[d].category == (if outcome.Categorised? then Some(category) else None)
      && n.decisions[d].coveredMinor == Coverage(GroupRows(s, entity, key))
  {
    hide GroupRows, HasLiveDecision, Coverage, Written;
  }

  lemma CoverageOfGroup(s: State, entity: string, key: string)
    ensures Coverage(GroupRows(s, entity, key)) == OpenMinor(s.txns, s.classifications, entity, key)
  {
    hide Coverage, Eligible, OpenMinor;
    CoverageOfKept(s.txns, s.classifications, entity, key);
  }

  lemma LogOfDecision(s: State, entity: string, key: string, outcome: Outcome, category: string)
    ensures
      var log := ResolveLog(s, entity, key, outcome, category);
      && (outcome.Skipped? ==> log == [])
      && (!outcome.Skipped? ==> |log| == |GroupRows(s, entity, key)|)
      && forall k :: 0 <= k < |log| ==>
                       log[k] == Classification(GroupRows(s, entity, key)[k].id,
                                                if outcome.Categorised? then category else "09",
                                                ByHuman(|s.decisions|), true)
  {
    hide GroupRows;
  }

  /** Of the ids nobody has answered, a decision's log holds those of its own rows. */
  lemma DecisionReaches(s: State, entity: string, key: string, outcome: Outcome, category: string, id: nat)
    requires TxnsKept(s)
    ensures
      var log := ResolveLog(s, entity, key, outcome, category);
      var mine := exists t :: t in s.txns && t.id == id && t.entity == entity && t.key == key;
      && (HasLive(log, id) ==> !outcome.Skipped? && mine)
      && (!outcome.Skipped? && mine && !HasLive(s.classifications, id) ==> HasLive(log, id))
  {
    hide GroupRows, ResolveLog, TxnsKept;
    GroupIsUnanswered(s, entity, key);
    LogOfDecision(s, entity, key, outcome, category);
    var log, rows := ResolveLog(s, entity, key, outcome, category), GroupRows(s, entity, key);
    if HasLive(log, id) {
      var k :| 0 <= k < |log| && log[k].live && log[k].txn == id;
      assert rows[k] in rows;
    }
    if !outcome.Skipped? && !HasLive(s.classifications, id) {
      forall t | t in s.txns && t.id == id && t.entity == entity && t.key == key
        ensures HasLive(log, id)
      {
        assert t in rows;
        var k :| 0 <= k < |rows| && rows[k] == t;
        assert log[k].live && log[k].txn == id;
      }
    }
  }

  // ---- When it is refused ------------------------------------------------------------------------

  /** Every refusal, and when: a category missing or not wanted, no row to decide, a category
    * that does not exist, a decision that stands. */
  lemma ResolveRefuses(s: State, setup: Setup, entity: string, key: string, outcome: Outcome, category: string)
    requires TxnsKept(s)
    ensures
      var r := Resolve(s, setup, entity, key, outcome, category);
      var needs := outcome == Categorised;
      var asked := (category != "") == needs;
      var open := exists t :: t in s.txns && t.entity == entity && t.key == key && !HasLive(s.classifications, t.id);
      var known := outcome == Skipped || (if needs then category else "09") in setup.categories;
      var stands := exists d :: 0 <= d < |s.decisions| && s.decisions[d].key == key && !s.decisions[d].undone;
      && (r == Err(CategoryRequired) <==> needs && !asked)
      && (r == Err(CategoryRefused) <==> !needs && !asked)
      && (r == Err(EmptyGroup) <==> asked && !open)
      && (r == Err(UnknownCategory) <==> asked && open && !known)
      && (r == Err(AlreadyDecided) <==> asked && open && known && stands)
      && (r.Ok? <==> asked && open && known && !stands)
  {
    hide GroupRows, Coverage, HasLive, TxnsKept, Written;
    GroupIsUnanswered(s, entity, key);
    var rows := GroupRows(s, entity, key);
    assert rows != [] ==> rows[0] in rows;
  }

  /** An undo is refused for a decision that is not there, or that is undone already. */
  lemma UndoRefuses(s: State, d: nat)
    ensures Undo(s, d) == Err(NoSuchDecision) <==> d >= |s.decisions|
    ensures Undo(s, d) == Err(AlreadyUndone) <==> d < |s.decisions| && s.decisions[d].undone
    ensures Undo(s, d).Ok? <==> d < |s.decisions| && !s.decisions[d].undone
  {
    hide Retracted, HumanAnswered;
  }
}
