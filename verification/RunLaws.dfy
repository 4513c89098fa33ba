/** What runs keep, how a job is stopped, and that a stopped one never resumes. */
module RunLaws {
  import opened Wrappers
  import opened Books
  import opened BookDecisions
  import opened BookRuns
  import opened BookKeeping
  import opened BookLaws

  // ---- What every run keeps --------------------------------------------------------------------------------

  lemma StepLeavesRun(s: State, setup: Setup, a: Action, batch: string)
    requires batch in s.runs && batch !in s.workers
    ensures
      var n := Step(s, setup, a);
      batch in n.runs && n.runs[batch] == s.runs[batch] && batch !in n.workers
  {
    hide GroupRows, HasLiveDecision, Answers, OneLive, Page, Retracted, HumanAnswered, Inserted, Coverage;
  }

  /** A run whose job has stopped stays as it is for good: the job tried again stops at
    * Open, so a run abandoned while running is never finished, and its batch never
    * classified further. */
  lemma {:induction false} StoppedForGood(s: State, setup: Setup, actions: seq<Action>, batch: string)
    requires batch in s.runs && batch !in s.workers
    ensures
      var n := Continue(s, setup, actions);
      batch in n.runs && n.runs[batch] == s.runs[batch] && batch !in n.workers
  {
    hide Step;
    if actions != [] {
      StoppedForGood(s, setup, actions[..|actions| - 1], batch);
      StepLeavesRun(Continue(s, setup, actions[..|actions| - 1]), setup, actions[|actions| - 1], batch);
    }
  }

  lemma {:induction false} FitsWithin(rows: seq<Txn>, all: seq<Txn>)
    requires Ascending(rows) && Ascending(all) && forall t :: t in rows ==> t in all
    ensures |rows| <= |all|
    decreases |all|
  {
    if rows != [] {
      var last := rows[|rows| - 1];
      assert last in all;
      var j :| 0 <= j < |all| && all[j] == last;
      forall t | t in rows[..|rows| - 1]
        ensures t in all[..j]
      {
        var i :| 0 <= i < |rows| - 1 && rows[i] == t;
        assert Before(t, last) && t in all;
        var m :| 0 <= m < |all| && all[m] == t;
        assert m > j ==> Before(last, t);
        assert all[..j][m] == t;
      }
      FitsWithin(rows[..|rows| - 1], all[..j]);
    }
  }

  /** In every reachable state a run has paged each of its rows once, in order; its
    * counters add up to them, so it has written no more chunks than its batch has rows;
    * and what it counted as classified is what stands in the ledger in its name, live. */
  lemma RunsAdvance(setup: Setup, actions: seq<Action>, batch: string)
    requires batch in After(setup, actions).runs
    ensures
      var s := After(setup, actions);
      var run := s.runs[batch];
      && Ascending(run.answered)
      && run.classified + run.review == |run.answered|
      && run.chunks <= |run.answered| <= |s.txns|
      && run.classified == CountBy(s.classifications, ByRun(batch))
      && (forall k :: 0 <= k < |s.classifications| && s.classifications[k].author == ByRun(batch) ==>
                        s.classifications[k].live)
      && (batch in s.workers && s.workers[batch].page.Some? ==>
            forall t, u :: t in run.answered && u in s.workers[batch].page.value ==> Before(t, u))
  {
    BooksAreKept(setup, actions);
    hide After, CountBy, OneLive, VendorsKept, DecisionsKept, CoverageKept;
    var s := After(setup, actions);
    assert RunKept(s, batch);
    FitsWithin(s.runs[batch].answered, s.txns);
    forall k | 0 <= k < |s.classifications| && s.classifications[k].author == ByRun(batch)
      ensures s.classifications[k].live
    {
      assert RunAnswerKept(s, s.classifications[k]);
    }
    if batch in s.workers && s.workers[batch].page.Some? {
      assert WorkerKept(s, batch);
      PageIsPast(s.runs[batch], s.workers[batch].page.value);
    }
  }

  lemma PageIsPast(run: Run, page: seq<Txn>)
    requires Ascending(run.answered) && forall t :: t in page ==> PastCursor(run, t)
    ensures forall t, u :: t in run.answered && u in page ==> Before(t, u)
  {
    forall t, u | t in run.answered && u in page
      ensures Before(t, u)
    {
      var i :| 0 <= i < |run.answered| && run.answered[i] == t;
      assert PastCursor(run, u);
      if i < |run.answered| - 1 {
        assert Before(t, run.answered[|run.answered| - 1]);
      }
    }
  }

  // ---- The answers to a page ------------------------------------------------------------------

  lemma {:induction false} AnswersAppend(a: seq<Txn>, b: seq<Txn>, setup: Setup, memory: map<string, string>,
                                         batch: string)
    ensures Answers(a + b, setup, memory, batch) == Answers(a, setup, memory, batch) + Answers(b, setup, memory, batch)
  {
    if b == [] {
      assert a + b == a;
    } else {
      assert (a + b)[..|a + b| - 1] == a + b[..|b| - 1];
      AnswersAppend(a, b[..|b| - 1], setup, memory, batch);
    }
  }

  lemma NotAnsweredYet(rows: seq<Txn>, k: nat, j: nat, setup: Setup, memory: map<string, string>, batch: string)
    requires k <= j < |rows| && DistinctIds(rows)
    ensures !HasLive(Answers(rows[..k], setup, memory, batch), rows[j].id)
  {
    AnswersNameRows(rows[..k], setup, memory, batch);
    hide Answers;
    var log := Answers(rows[..k], setup, memory, batch);
    forall c | c in log
      ensures c.txn != rows[j].id
    {
      var t :| t in rows[..k] && t.id == c.txn;
      var i :| 0 <= i < k && rows[i] == t;
    }
    assert forall m :: 0 <= m < |log| ==> log[m] in log;
  }

  lemma OneMore(log: seq<Classification>, c: Classification)
    requires c.live
    ensures OneLive(log + [c]) <==> OneLive(log) && !HasLive(log, c.txn)
  {
    var all := log + [c];
    if OneLive(all) {
      forall i, j | 0 <= i < j < |log| && log[i].live && log[j].live
        ensures log[i].txn != log[j].txn
      {
        assert all[i] == log[i] && all[j] == log[j];
      }
      forall i | 0 <= i < |log| && log[i].live
        ensures log[i].txn != c.txn
      {
        assert all[i] == log[i] && all[|log|] == c;
      }
    }
    if OneLive(log) && !HasLive(log, c.txn) {
      forall i, j | 0 <= i < j < |all| && all[i].live && all[j].live
        ensures all[i].txn != all[j].txn
      {
        assert all[i] == log[i];
      }
    }
  }

  lemma {:induction false} AnsweredIfOffered(rows: seq<Txn>, setup: Setup, memory: map<string, string>,
                                             batch: string, t: Txn)
    requires t in rows && DistinctIds(rows)
    ensures HasLive(Answers(rows, setup, memory, batch), t.id) <==> setup.engine(t, memory).Some?
  {
    var m := |rows| - 1;
    var before, last := rows[..m], rows[m];
    var answered := Answers(before, setup, memory, batch);
    var more := Answers(rows, setup, memory, batch)[|answered|..];
    assert Answers(rows, setup, memory, batch) == answered + more;
    LiveInEither(answered, more, t.id);
    if t == last {
      NotAnsweredYet(rows, m, m, setup, memory, batch);
      if setup.engine(t, memory).Some? {
        assert more[0].live && more[0].txn == t.id;
      }
    } else {
      assert t in before;
      AnsweredIfOffered(before, setup, memory, batch, t);
      var j :| 0 <= j < m && rows[j] == t;
      assert last.id != t.id;
    }
  }

  /** How a job ends: well, once a page came back empty; badly, whenever it is refused; or it
    * stops, and its run is left as it was. */
  lemma JobEnds(s: State, setup: Setup, batch: string)
    requires Inv(s) && batch in s.workers
    ensures
      var done, failed, stopped :=
        Step(s, setup, FinishAction(batch)), Step(s, setup, FailAction(batch)), Step(s, setup, CrashAction(batch));
      && batch in s.runs && s.runs[batch].status == Running
      && (if s.workers[batch].page == Some([])
          then done == s.(runs := s.runs[batch := s.runs[batch].(status := Classified)], workers := s.workers - {batch})
          else done == s)
      && failed == s.(runs := s.runs[batch := s.runs[batch].(status := Failed)], workers := s.workers - {batch})
      && stopped == s.(workers := s.workers - {batch})
  {
    hide Inv, Arrive, Resolve, Undo, Open, ReadContext, ReadPage, WriteChunk;
    JobIsRunning(s, batch);
  }

  /** A row that arrives is there from then on, unless its id was taken; nothing else changes. */
  lemma ArrivalMeans(s: State, setup: Setup, t: Txn)
    ensures
      var n := Step(s, setup, ArriveAction(t));
      && n == s.(txns := n.txns)
      && (forall x :: x in n.txns <==> x in s.txns || (x == t && forall y :: y in s.txns ==> y.id != t.id))
  {
    hide Inserted;
  }

  // ---- When a chunk does not commit ---------------------------------------------------------

  /** A row of the page that the engine answers and that somebody has answered already. */
  ghost predicate Taken(log: seq<Classification>, page: seq<Txn>, setup: Setup, memory: map<string, string>) {
    exists t :: t in page && setup.engine(t, memory).Some? && HasLive(log, t.id)
  }

  /** A chunk collides exactly when a row it answers was answered since its page was read. */
  lemma {:induction false} ChunkCollides(log: seq<Classification>, page: seq<Txn>, setup: Setup,
                                         memory: map<string, string>, batch: string)
    requires OneLive(log) && DistinctIds(page)
    ensures OneLive(log + Answers(page, setup, memory, batch)) <==> !Taken(log, page, setup, memory)
  {
    if page == [] {
      assert log + [] == log;
    } else {
      var m := |page| - 1;
      var before, t := page[..m], page[m];
      assert page == before + [t];
      ChunkCollides(log, before, setup, memory, batch);
      NotAnsweredYet(page, m, m, setup, memory, batch);
      var answered, all := Answers(before, setup, memory, batch), log + Answers(page, setup, memory, batch);
      LiveInEither(log, answered, t.id);
      TakenByOneMore(log, before, t, setup, memory);
      hide Taken, OneLive, HasLive, DistinctIds;
      if setup.engine(t, memory).Some? {
        var c := Classification(t.id, setup.engine(t, memory).value, ByRun(batch), true);
        assert all == (log + answered) + [c];
        OneMore(log + answered, c);
      } else {
        assert all == log + answered;
      }
    }
  }

  lemma TakenByOneMore(log: seq<Classification>, before: seq<Txn>, t: Txn, setup: Setup, memory: map<string, string>)
    ensures Taken(log, before + [t], setup, memory)
       <==> Taken(log, before, setup, memory) || (setup.engine(t, memory).Some? && HasLive(log, t.id))
  {
    hide HasLive;
    var page := before + [t];
    assert t in page;
    if Taken(log, before, setup, memory) {
      var x :| x in before && setup.engine(x, memory).Some? && HasLive(log, x.id);
      assert x in page;
    }
  }

  /** A job with a page in hand is stopped by its own write exactly when somebody answered
    * one of the rows it was about to answer; otherwise the chunk commits. */
  lemma WriteStops(s: State, setup: Setup, batch: string)
    requires Inv(s) && batch in s.workers && s.workers[batch].memory.Some?
    requires s.workers[batch].page.Some? && s.workers[batch].page.value != []
    ensures
      var taken := Taken(s.classifications, s.workers[batch].page.value, setup, s.workers[batch].memory.value);
      var n := Step(s, setup, WriteAction(batch));
      && (WriteChunk(s, setup, batch) == Err(TwoLive) <==> taken)
      && (WriteChunk(s, setup, batch).Ok? <==> !taken)
      && (batch !in n.workers <==> taken)
      && (taken ==> n == s.(workers := s.workers - {batch}) && batch in n.runs && n.runs[batch].status.Running?)
  {
    hide Inv, RunsKept, WorkerKept, Answers, Taken, OneLive, RunKept, DistinctIds;
    JobIsRunning(s, batch);
    PageIsDistinct(s, batch);
    LogIsOneLive(s);
    ChunkCollides(s.classifications, s.workers[batch].page.value, setup, s.workers[batch].memory.value, batch);
  }

  lemma JobIsRunning(s: State, batch: string)
    requires Inv(s) && batch in s.workers
    ensures batch in s.runs && s.runs[batch].status.Running?
  {
    hide LogKept, CoverageKept, VendorsKept, DecisionsKept, TxnsKept, RunKept;
    assert WorkerKept(s, batch);
  }

  lemma LogIsOneLive(s: State)
    requires Inv(s)
    ensures OneLive(s.classifications)
  {
    hide OneLive, RunsKept, CoverageKept, VendorsKept, DecisionsKept, TxnsKept;
  }

  lemma PageIsDistinct(s: State, batch: string)
    requires Inv(s) && batch in s.workers && s.workers[batch].page.Some?
    ensures DistinctIds(s.workers[batch].page.value)
  {
    hide LogKept, CoverageKept, VendorsKept, DecisionsKept, PastCursor, RunKept;
    assert WorkerKept(s, batch);
    AscendingRowsDiffer(s.txns, s.workers[batch].page.value);
  }

  lemma AscendingRowsDiffer(all: seq<Txn>, rows: seq<Txn>)
    requires DistinctIds(all) && Ascending(rows) && forall t :: t in rows ==> t in all
    ensures DistinctIds(rows)
  {
    forall i, j | 0 <= i < j < |rows|
      ensures rows[i].id != rows[j].id
    {
      assert rows[i] in all && rows[j] in all && Before(rows[i], rows[j]);
      var x :| 0 <= x < |all| && all[x] == rows[i];
      var y :| 0 <= y < |all| && all[y] == rows[j];
    }
  }

  /** A row arrives, a run pages it, and a person decides its counterparty before the
    * answer is written. */
  function Interrupted(t: Txn, outcome: Outcome, category: string): seq<Action> {
    [ArriveAction(t), OpenAction(t.batch), ContextAction(t.batch), ReadAction(t.batch),
     ResolveAction(t.entity, t.key, outcome, category), WriteAction(t.batch)]
  }

  /** The run has opened on the one row, and read what the engine reasons with. */
  function Ready(t: Txn): State {
    State([t], [], [], map[], map[t.batch := Run(Running, 0, 0, 0, [])], map[t.batch := Worker(Some(map[]), None)])
  }

  lemma ReadyState(setup: Setup, t: Txn)
    ensures After(setup, [ArriveAction(t), OpenAction(t.batch), ContextAction(t.batch)]) == Ready(t)
  {
    hide After, ReadPage, WriteChunk, Close, Resolve, Undo;
    var a, b, c := ArriveAction(t), OpenAction(t.batch), ContextAction(t.batch);
    Nothing(setup);
    AfterOneMore(setup, [], a);
    AfterOneMore(setup, [a], b);
    AfterOneMore(setup, [a, b], c);
    assert [] + [a] == [a] && [a] + [b] == [a, b] && [a, b] + [c] == [a, b, c];
    assert After(setup, [a]) == State([t], [], [], map[], map[], map[]);
  }

  lemma PagedState(setup: Setup, t: Txn)
    ensures
      After(setup, [ArriveAction(t), OpenAction(t.batch), ContextAction(t.batch), ReadAction(t.batch)])
      == Ready(t).(workers := map[t.batch := Worker(Some(map[]), Some([t]))])
  {
    hide After, Unanswered;
    var before := [ArriveAction(t), OpenAction(t.batch), ContextAction(t.batch)];
    ReadyState(setup, t);
    AfterOneMore(setup, before, ReadAction(t.batch));
    assert before + [ReadAction(t.batch)]
        == [ArriveAction(t), OpenAction(t.batch), ContextAction(t.batch), ReadAction(t.batch)];
    OnlyRowIsPaged(t);
  }

  lemma OnlyRowIsPaged(t: Txn)
    ensures Unanswered(Ready(t), t.batch, Run(Running, 0, 0, 0, [])) == [t]
  {
    var rows := Unanswered(Ready(t), t.batch, Run(Running, 0, 0, 0, []));
    assert t in rows && |rows| == 1;
    assert rows[0] in rows;
  }

  /** It happens: whenever the engine would have answered the row, the job stops, the run is
    * left `running`, and so it stays whatever follows. */
  lemma ReviewStrandsRun(setup: Setup, t: Txn, outcome: Outcome, category: string, more: seq<Action>)
    requires setup.engine(t, map[]).Some? && !outcome.Skipped?
    requires category == "" <==> !outcome.Categorised?
    requires (if outcome.Categorised? then category else OUT_OF_PNL) in setup.categories
    ensures
      var n := Continue(After(setup, Interrupted(t, outcome, category)), setup, more);
      && t.batch in n.runs && n.runs[t.batch] == Run(Running, 0, 0, 0, [])
      && t.batch !in n.workers
  {
    hide After, Inv, Resolve, Step, HasLive;
    var b, actions := t.batch, Interrupted(t, outcome, category);
    PagedState(setup, t);
    AfterOneMore(setup, actions[..4], actions[4]);
    AfterOneMore(setup, actions[..5], actions[5]);
    assert actions[..4] == [ArriveAction(t), OpenAction(b), ContextAction(b), ReadAction(b)];
    assert actions[..4] + [actions[4]] == actions[..5] && actions[..5] + [actions[5]] == actions;
    var decided := After(setup, actions[..5]);
    DecidedState(After(setup, actions[..4]), setup, t, outcome, category);
    BooksAreKept(setup, actions[..5]);
    assert t in decided.workers[b].page.value;
    WriteStops(decided, setup, b);
    StoppedForGood(After(setup, actions), setup, more, b);
  }

  lemma DecidedState(s: State, setup: Setup, t: Txn, outcome: Outcome, category: string)
    requires s.txns == [t] && s.classifications == [] && s.decisions == []
    requires !outcome.Skipped? && (category == "" <==> !outcome.Categorised?)
    requires (if outcome.Categorised? then category else OUT_OF_PNL) in setup.categories
    ensures
      var n := Step(s, setup, ResolveAction(t.entity, t.key, outcome, category));
      && n.runs == s.runs && n.workers == s.workers
      && HasLive(n.classifications, t.id)
  {
    hide GroupRows, HasLive, HasLiveDecision, Coverage;
    OnlyRowIsGrouped(s, t);
    NoDecisionYet(t.key);
    var code := if outcome.Categorised? then category else OUT_OF_PNL;
    var log := Written([t], code, ByHuman(0));
    assert Step(s, setup, ResolveAction(t.entity, t.key, outcome, category)).classifications == [] + log == log;
    FirstIsLive(log, t.id);
  }

  lemma FirstIsLive(log: seq<Classification>, id: nat)
    requires log != [] && log[0].live && log[0].txn == id
    ensures HasLive(log, id)
  {
  }
}
