/** What the invariant of the books means for the people and the jobs that use them. */
module BookLaws {
  import opened Wrappers
  import opened Books
  import opened BookDecisions
  import opened BookKeeping

  // ---- One answer, one decision, one memory ---------------------------------------------------

  predicate AnsweredBy(log: seq<Classification>, id: nat, author: Author) {
    exists k :: 0 <= k < |log| && log[k].txn == id && log[k].author == author
  }

  /** In every reachable state a row a person's answer is live on belongs to a counterparty
    * with exactly one live decision; that decision wrote the answer, meant it, and did not
    * merely skip. */
  lemma LiveAnswerHasDecision(setup: Setup, actions: seq<Action>, k: nat) returns (d: nat)
    requires k < |After(setup, actions).classifications|
    requires After(setup, actions).classifications[k].live && After(setup, actions).classifications[k].author.ByHuman?
    ensures
      var s := After(setup, actions);
      var c := s.classifications[k];
      && d < |s.decisions| && c.author == ByHuman(d)
      && HasKey(s, c.txn, s.decisions[d].key) && !s.decisions[d].undone
      && !s.decisions[d].outcome.Skipped? && c.category == Meaning(s.decisions[d])
      && (forall e :: 0 <= e < |s.decisions| && !s.decisions[e].undone && s.decisions[e].key == s.decisions[d].key ==>
                        e == d)
      && (forall j :: 0 <= j < |s.classifications| && s.classifications[j].live && s.classifications[j].txn == c.txn ==>
                        j == k)
  {
    BooksAreKept(setup, actions);
    hide After, HasKey, Meaning, RunsKept, CoverageKept, VendorsKept, TxnsKept;
    var s := After(setup, actions);
    assert HumanAnswerKept(s, s.classifications[k]);
    d := s.classifications[k].author.decision;
  }

  /** Vendor memory holds a counterparty exactly while its live decision is a
    * categorisation, and remembers that decision's category. */
  lemma MemoryIsLiveCategorisation(setup: Setup, actions: seq<Action>, key: string)
    ensures
      var s := After(setup, actions);
      && (key in s.vendors <==> exists d :: 0 <= d < |s.decisions| && Remembers(s.decisions[d], key))
      && (forall d :: 0 <= d < |s.decisions| && Remembers(s.decisions[d], key) ==>
                        key in s.vendors && s.decisions[d].category == Some(s.vendors[key]))
  {
    BooksAreKept(setup, actions);
    hide After, RunsKept, CoverageKept, LogKept, TxnsKept;
    var s := After(setup, actions);
    forall d | 0 <= d < |s.decisions| && Remembers(s.decisions[d], key)
      ensures key in s.vendors && s.decisions[d].category == Some(s.vendors[key])
    {
      assert Remembers(s.decisions[d], s.decisions[d].key);
    }
  }

  // ---- A counterparty is decided until the decision is undone ------------------------------------

  /** An outcome that can be asked for, with the category it needs. */
  predicate Answerable(setup: Setup, outcome: Outcome, category: string) {
    && (outcome.Categorised? <==> category != "")
    && (outcome.Skipped? || (if outcome.Categorised? then category else OUT_OF_PNL) in setup.categories)
  }

  /** A group with rows in it can be decided exactly when no decision of any entity stands on
    * its counterparty, whatever that decision was. */
  lemma ResolveSucceeds(s: State, setup: Setup, entity: string, key: string, outcome: Outcome, category: string)
    requires GroupRows(s, entity, key) != [] && Answerable(setup, outcome, category)
    ensures Resolve(s, setup, entity, key, outcome, category).Ok? <==> !HasLiveDecision(s.decisions, key)
    ensures HasLiveDecision(s.decisions, key) ==>
              Resolve(s, setup, entity, key, outcome, category) == Err(AlreadyDecided)
  {
    hide GroupRows, HasLiveDecision, Coverage, Written;
  }

  lemma StepLeavesDecision(s: State, setup: Setup, a: Action, d: nat)
    requires d < |s.decisions| && a != UndoAction(d)
    ensures
      var n := Step(s, setup, a);
      d < |n.decisions| && n.decisions[d] == s.decisions[d]
  {
    hide GroupRows, HasLiveDecision, Answers, OneLive, Page, Retracted, HumanAnswered, Inserted, Coverage, Written;
  }

  /** Until it is undone a decision refuses every further one on its counterparty: rows that
    * were skipped, and rows that arrive later, stay in the queue. */
  lemma {:induction false} DecidedUntilUndone(s: State, setup: Setup, actions: seq<Action>, d: nat)
    requires d < |s.decisions| && !s.decisions[d].undone && UndoAction(d) !in actions
    ensures
      var n := Continue(s, setup, actions);
      && d < |n.decisions| && n.decisions[d] == s.decisions[d]
      && HasLiveDecision(n.decisions, s.decisions[d].key)
  {
    hide Step;
    if actions != [] {
      var before, a := actions[..|actions| - 1], actions[|actions| - 1];
      assert a in actions;
      DecidedUntilUndone(s, setup, before, d);
      StepLeavesDecision(Continue(s, setup, before), setup, a, d);
    }
  }

  /** A row that arrives and is skipped is still queued, and cannot be decided again. */
  lemma SkippedIsStuck(setup: Setup, t: Txn, outcome: Outcome, category: string)
    requires Answerable(setup, outcome, category)
    ensures
      var s := After(setup, [ArriveAction(t), ResolveAction(t.entity, t.key, Skipped, "")]);
      && GroupRows(s, t.entity, t.key) == [t]
      && Resolve(s, setup, t.entity, t.key, outcome, category) == Err(AlreadyDecided)
  {
    hide After, GroupRows, HasLiveDecision, Coverage, Answerable;
    var a, b := ArriveAction(t), ResolveAction(t.entity, t.key, Skipped, "");
    var arrived := State([t], [], [], map[], map[], map[]);
    Nothing(setup);
    AfterOneMore(setup, [], a);
    AfterOneMore(setup, [a], b);
    assert [] + [a] == [a] && [a] + [b] == [a, b];
    assert After(setup, [a]) == arrived;
    OnlyRowIsGrouped(arrived, t);
    NoDecisionYet(t.key);
    var s := After(setup, [a, b]);
    assert s.classifications == [] && s.txns == [t] && |s.decisions| == 1;
    OnlyRowIsGrouped(s, t);
    FirstIsDecided(s.decisions, t.key);
    ResolveSucceeds(s, setup, t.entity, t.key, outcome, category);
  }

  lemma OnlyRowIsGrouped(s: State, t: Txn)
    requires s.txns == [t] && s.classifications == []
    ensures GroupRows(s, t.entity, t.key) == [t]
  {
    var rows := GroupRows(s, t.entity, t.key);
    assert t in rows && |rows| == 1;
    assert rows[0] in rows;
  }

  lemma NoDecisionYet(key: string)
    ensures !HasLiveDecision([], key)
  {
  }

  lemma FirstIsDecided(decisions: seq<Decision>, key: string)
    requires decisions != [] && decisions[0].key == key && !decisions[0].undone
    ensures HasLiveDecision(decisions, key)
  {
  }

  // ---- Undo is the inverse of its decision ------------------------------------------------------

  /** Undoing a live decision, whatever has happened since it was taken, retracts the
    * classifications it wrote, all of them and no others, as many as it covered; returns
    * exactly those rows to the queue; and forgets the counterparty only if the decision
    * is what was remembered. */
  lemma UndoIsExact(s: State, d: nat)
    requires Inv(s) && d < |s.decisions| && !s.decisions[d].undone
    ensures Undo(s, d).Ok?
    ensures
      var n := Undo(s, d).value;
      && TakesBack(n.classifications, s.classifications, d)
      && (forall k :: 0 <= k < |s.classifications| && s.classifications[k].author == ByHuman(d) ==>
                        s.classifications[k].live)
      && CountBy(s.classifications, ByHuman(d))
         == (if s.decisions[d].outcome.Skipped? then 0 else s.decisions[d].coveredCount)
      && (forall id: nat ::
            HasLive(n.classifications, id)
            <==> HasLive(s.classifications, id) && !AnsweredBy(s.classifications, id, ByHuman(d)))
      && (forall key :: key in n.vendors <==>
                        key in s.vendors && !(key == s.decisions[d].key && s.decisions[d].outcome.Categorised?))
      && (forall key :: key in n.vendors ==> n.vendors[key] == s.vendors[key])
  {
    UndoRemoves(s, d);
    hide Undo, Inv, CountBy, TakesBack;
    var n := Undo(s, d).value;
    CoveredByDecision(s, d);
    forall k | 0 <= k < |s.classifications| && s.classifications[k].author == ByHuman(d)
      ensures s.classifications[k].live
    {
      AnsweredByDecision(s, d, k);
    }
    forall id: nat
      ensures HasLive(n.classifications, id)
         <==> HasLive(s.classifications, id) && !AnsweredBy(s.classifications, id, ByHuman(d))
    {
      BackInQueue(s, n.classifications, d, id);
    }
  }

  lemma CoveredByDecision(s: State, d: nat)
    requires Inv(s) && d < |s.decisions|
    ensures CountBy(s.classifications, ByHuman(d)) == if s.decisions[d].outcome.Skipped? then 0
                                                      else s.decisions[d].coveredCount
  {
    hide CountBy, LogKept, VendorsKept, DecisionsKept, RunsKept, TxnsKept;
  }

  lemma BackInQueue(s: State, after: seq<Classification>, d: nat, id: nat)
    requires Inv(s) && d < |s.decisions| && !s.decisions[d].undone && TakesBack(after, s.classifications, d)
    ensures HasLive(after, id) <==> HasLive(s.classifications, id) && !AnsweredBy(s.classifications, id, ByHuman(d))
  {
    hide VendorsKept, DecisionsKept, CoverageKept, RunsKept, TxnsKept, HumanAnswerKept, RunAnswerKept;
    var log := s.classifications;
    if HasLive(after, id) {
      var k :| 0 <= k < |after| && after[k].live && after[k].txn == id;
      assert log[k].live && log[k].txn == id;
      if AnsweredBy(log, id, ByHuman(d)) {
        var j :| 0 <= j < |log| && log[j].txn == id && log[j].author == ByHuman(d);
        AnsweredByDecision(s, d, j);
      }
    }
    if HasLive(log, id) && !AnsweredBy(log, id, ByHuman(d)) {
      var k :| 0 <= k < |log| && log[k].live && log[k].txn == id;
      assert after[k] == log[k];
    }
  }

  /** Taken at once, the undo restores the queue of every counterparty and the memory as
    * they were. */
  lemma UndoInvertsResolve(s: State, setup: Setup, entity: string, key: string, outcome: Outcome, category: string)
    requires Inv(s) && Resolve(s, setup, entity, key, outcome, category).Ok?
    ensures
      var n := Resolve(s, setup, entity, key, outcome, category).value;
      var u := Undo(n, |s.decisions|);
      && u.Ok?
      && u.value.txns == s.txns && u.value.vendors == s.vendors
      && u.value.runs == s.runs && u.value.workers == s.workers
      && (forall id: nat :: HasLive(u.value.classifications, id) <==> HasLive(s.classifications, id))
      && (forall e, k :: GroupRows(u.value, e, k) == GroupRows(s, e, k))
  {
    hide Resolve, Undo, Inv, CountBy, TakesBack, ResolveLog, GroupRows, HasLiveDecision, HasLive, AnsweredBy, Meaning;
    ResolveKeeps(s, setup, entity, key, outcome, category);
    ResolveAdds(s, setup, entity, key, outcome, category);
    if key in s.vendors {
      MemoryHasDecision(s, key);
    }
    ResolveRemembers(s, setup, entity, key, outcome, category);
    var n, d := Resolve(s, setup, entity, key, outcome, category).value, |s.decisions|;
    UndoIsExact(n, d);
    UndoRemoves(n, d);
    var u := Undo(n, d).value;
    assert u.vendors == s.vendors;
    AnswersRestored(s, n, u, entity, key, outcome, category);
    QueuesRestored(s, u);
  }

  lemma AnswersRestored(s: State, n: State, u: State, entity: string, key: string, outcome: Outcome, category: string)
    requires Inv(s) && n.classifications == s.classifications + ResolveLog(s, entity, key, outcome, category)
    requires forall id: nat :: HasLive(u.classifications, id)
                               <==> HasLive(n.classifications, id)
                                    && !AnsweredBy(n.classifications, id, ByHuman(|s.decisions|))
    ensures forall id: nat :: HasLive(u.classifications, id) <==> HasLive(s.classifications, id)
  {
    hide Inv, HasLive, AnsweredBy, ResolveLog;
    forall id: nat
      ensures HasLive(u.classifications, id) <==> HasLive(s.classifications, id)
    {
      LiveBefore(s, n.classifications, entity, key, outcome, category, id);
    }
  }

  lemma QueuesRestored(s: State, u: State)
    requires u.txns == s.txns
    requires forall id: nat :: HasLive(u.classifications, id) <==> HasLive(s.classifications, id)
    ensures forall e, k :: GroupRows(u, e, k) == GroupRows(s, e, k)
  {
    hide HasLive, GroupRows;
    forall e, k
      ensures GroupRows(u, e, k) == GroupRows(s, e, k)
    {
      SameQueue(s, u, e, k);
    }
  }

  lemma ResolveRemembers(s: State, setup: Setup, entity: string, key: string, outcome: Outcome, category: string)
    requires Resolve(s, setup, entity, key, outcome, category).Ok?
    ensures Resolve(s, setup, entity, key, outcome, category).value.vendors
         == if outcome.Categorised? then s.vendors[key := category] else s.vendors
  {
    hide GroupRows, HasLiveDecision, Coverage;
  }

  lemma MemoryHasDecision(s: State, key: string)
    requires Inv(s) && key in s.vendors
    ensures HasLiveDecision(s.decisions, key)
  {
    hide LogKept, DecisionsKept, CoverageKept, RunsKept, TxnsKept;
    var d :| 0 <= d < |s.decisions| && Remembers(s.decisions[d], key);
    assert s.decisions[d].key == key && !s.decisions[d].undone;
  }

  /** A row is answered without the new decision exactly when it was answered before it. */
  lemma LiveBefore(s: State, after: seq<Classification>, entity: string, key: string, outcome: Outcome,
                   category: string, id: nat)
    requires Inv(s) && after == s.classifications + ResolveLog(s, entity, key, outcome, category)
    ensures HasLive(after, id) && !AnsweredBy(after, id, ByHuman(|s.decisions|)) <==> HasLive(s.classifications, id)
  {
    var log, more := s.classifications, ResolveLog(s, entity, key, outcome, category);
    ResolveLogAuthor(s, entity, key, outcome, category);
    NoAuthorYet(s);
    LiveIsAnswered(more, id, ByHuman(|s.decisions|));
    hide Inv, ResolveLog;
    LiveInEither(log, more, id);
    AnsweredInEither(log, more, id, ByHuman(|s.decisions|));
  }

  lemma LiveIsAnswered(log: seq<Classification>, id: nat, author: Author)
    requires forall k :: 0 <= k < |log| ==> log[k].author == author
    ensures HasLive(log, id) ==> AnsweredBy(log, id, author)
  {
    if HasLive(log, id) {
      var k :| 0 <= k < |log| && log[k].live && log[k].txn == id;
      assert log[k].author == author;
    }
  }

  lemma LiveInEither(a: seq<Classification>, b: seq<Classification>, id: nat)
    ensures HasLive(a + b, id) <==> HasLive(a, id) || HasLive(b, id)
  {
    var all := a + b;
    forall k | 0 <= k < |b| && b[k].live && b[k].txn == id
      ensures HasLive(all, id)
    {
      assert all[|a| + k] == b[k];
    }
    forall k | 0 <= k < |a| && a[k].live && a[k].txn == id
      ensures HasLive(all, id)
    {
      assert all[k] == a[k];
    }
  }

  lemma AnsweredInEither(a: seq<Classification>, b: seq<Classification>, id: nat, author: Author)
    ensures AnsweredBy(a + b, id, author) <==> AnsweredBy(a, id, author) || AnsweredBy(b, id, author)
  {
    var all := a + b;
    forall k | 0 <= k < |b| && b[k].txn == id && b[k].author == author
      ensures AnsweredBy(all, id, author)
    {
      assert all[|a| + k] == b[k];
    }
    forall k | 0 <= k < |a| && a[k].txn == id && a[k].author == author
      ensures AnsweredBy(all, id, author)
    {
      assert all[k] == a[k];
    }
  }

  lemma ResolveLogAuthor(s: State, entity: string, key: string, outcome: Outcome, category: string)
    ensures
      var more := ResolveLog(s, entity, key, outcome, category);
      forall k :: 0 <= k < |more| ==>
                    more[k].author == ByHuman(|s.decisions|) && !HasLive(s.classifications, more[k].txn)
  {
    hide HasLive;
    var rows := GroupRows(s, entity, key);
    forall k | 0 <= k < |rows|
      ensures !HasLive(s.classifications, rows[k].id)
    {
      assert rows[k] in rows;
    }
  }

  lemma NoAuthorYet(s: State)
    requires Inv(s)
    ensures forall k :: 0 <= k < |s.classifications| ==> s.classifications[k].author != ByHuman(|s.decisions|)
  {
    hide OneLive, VendorsKept, DecisionsKept, CoverageKept, RunsKept, TxnsKept;
    forall k | 0 <= k < |s.classifications| && s.classifications[k].author.ByHuman?
      ensures s.classifications[k].author != ByHuman(|s.decisions|)
    {
      assert HumanAnswerKept(s, s.classifications[k]);
    }
  }

  lemma SameQueue(s: State, u: State, entity: string, key: string)
    requires u.txns == s.txns
    requires forall id: nat :: HasLive(u.classifications, id) <==> HasLive(s.classifications, id)
    ensures GroupRows(u, entity, key) == GroupRows(s, entity, key)
  {
    hide HasLive;
    SameEligible(s.txns, s.classifications, u.classifications, (t: Txn) => t.entity == entity && t.key == key);
  }

  lemma {:induction false} SameEligible(rows: seq<Txn>, a: seq<Classification>, b: seq<Classification>,
                                        keep: Txn -> bool)
    requires forall id: nat :: HasLive(a, id) <==> HasLive(b, id)
    ensures Eligible(rows, a, keep) == Eligible(rows, b, keep)
  {
    hide HasLive;
    if rows != [] {
      SameEligible(rows[..|rows| - 1], a, b, keep);
    }
  }
}
