/** A run in flight is invisible to everybody else: what others do is what they would have
  * done had it never been opened. */
module RunsApart {
  import opened Wrappers
  import opened Books
  import opened BookDecisions
  import opened BookRuns
  import opened BookKeeping
  import opened RunLaws
  import opened UnreviewedRuns

  /** The classifications an author did not write, in order. */
  function Except(log: seq<Classification>, author: Author): seq<Classification> {
    if log == [] then []
    else Except(log[..|log| - 1], author) + if log[|log| - 1].author == author then [] else [log[|log| - 1]]
  }

  /** The books had the batch's run never been opened. */
  function Without(s: State, batch: string): State {
    s.(classifications := Except(s.classifications, ByRun(batch)), runs := s.runs - {batch}, workers :=
    s.workers - {batch})
  }

  // ---- Leaving an author out -----------------------------------------------------------------

  lemma {:induction false} ExceptHas(log: seq<Classification>, author: Author, c: Classification)
    ensures c in Except(log, author) <==> c in log && c.author != author
  {
    if log != [] {
      ExceptHas(log[..|log| - 1], author, c);
      assert log == log[..|log| - 1] + [log[|log| - 1]];
    }
  }

  lemma {:induction false} ExceptAppend(a: seq<Classification>, b: seq<Classification>, author: Author)
    ensures Except(a + b, author) == Except(a, author) + Except(b, author)
  {
    if b == [] {
      assert a + b == a;
    } else {
      assert (a + b)[..|a + b| - 1] == a + b[..|b| - 1];
      ExceptAppend(a, b[..|b| - 1], author);
    }
  }

  lemma {:induction false} ExceptNobody(log: seq<Classification>, author: Author)
    requires forall c :: c in log ==> c.author != author
    ensures Except(log, author) == log
  {
    if log != [] {
      var before, c := log[..|log| - 1], log[|log| - 1];
      assert log == before + [c];
      assert c in log && forall x :: x in before ==> x in log;
      ExceptNobody(before, author);
    }
  }

  lemma ExceptHasLive(log: seq<Classification>, author: Author, id: nat)
    requires forall c :: c in log && c.author == author ==> c.txn != id
    ensures HasLive(Except(log, author), id) <==> HasLive(log, id)
  {
    var rest := Except(log, author);
    if HasLive(rest, id) {
      var k :| 0 <= k < |rest| && rest[k].live && rest[k].txn == id;
      ExceptHas(log, author, rest[k]);
      var j :| 0 <= j < |log| && log[j] == rest[k];
    }
    if HasLive(log, id) {
      var k :| 0 <= k < |log| && log[k].live && log[k].txn == id;
      ExceptHas(log, author, log[k]);
      var j :| 0 <= j < |rest| && rest[j] == log[k];
    }
  }

  lemma {:induction false} ExceptOneLive(log: seq<Classification>, author: Author)
    requires OneLive(log)
    ensures OneLive(Except(log, author))
  {
    if log != [] {
      var before, c := log[..|log| - 1], log[|log| - 1];
      assert log == before + [c];
      ExceptOneLive(before, author);
      hide OneLive, Except;
      assert Except(log, author) == Except(before, author) + if c.author == author then [] else [c] by {
        ExceptLast(log, author);
      }
      assert Except(before, author) + [] == Except(before, author);
      if c.author != author {
        FewerLive(before, author, c);
      }
    }
  }

  lemma ExceptLast(log: seq<Classification>, author: Author)
    requires log != []
    ensures
      var c := log[|log| - 1];
      Except(log, author) == Except(log[..|log| - 1], author) + if c.author == author then [] else [c]
  {
  }

  lemma FewerLive(before: seq<Classification>, author: Author, c: Classification)
    requires OneLive(before + [c]) && OneLive(Except(before, author))
    ensures OneLive(Except(before, author) + [c])
  {
    var rest, all := Except(before, author), before + [c];
    var some := rest + [c];
    forall i, j | 0 <= i < j < |some| && some[i].live && some[j].live
      ensures some[i].txn != some[j].txn
    {
      if j == |rest| {
        ExceptHas(before, author, rest[i]);
        var m :| 0 <= m < |before| && before[m] == rest[i];
        assert all[m] == rest[i] && all[|before|] == c;
      }
    }
  }

  // ---- Others see nothing of it --------------------------------------------------------------

  /** The run's answers are to rows of its batch, so rows of others are answered as without it. */
  lemma AnsweredAsWithout(n: State, batch: string, t: Txn)
    requires Inv(n) && t in n.txns && t.batch != batch
    ensures HasLive(Without(n, batch).classifications, t.id) <==> HasLive(n.classifications, t.id)
  {
    hide HasLive, Except, DecisionsKept, VendorsKept, CoverageKept, RunsKept, OneLive, HumanAnswerKept, Ascending;
    forall c | c in n.classifications && c.author == ByRun(batch)
      ensures c.txn != t.id
    {
      var k :| 0 <= k < |n.classifications| && n.classifications[k] == c;
      assert RunAnswerKept(n, n.classifications[k]);
      var u :| u in n.txns && u.id == c.txn && u.batch == batch;
      var i :| 0 <= i < |n.txns| && n.txns[i] == u;
      var j :| 0 <= j < |n.txns| && n.txns[j] == t;
    }
    ExceptHasLive(n.classifications, ByRun(batch), t.id);
  }

  lemma {:induction false} SameEligibleRows(rows: seq<Txn>, a: seq<Classification>, b: seq<Classification>,
                                            keep: Txn -> bool)
    requires forall t :: t in rows && keep(t) ==> (HasLive(a, t.id) <==> HasLive(b, t.id))
    ensures Eligible(rows, a, keep) == Eligible(rows, b, keep)
  {
    hide HasLive;
    if rows != [] {
      SameEligibleRows(rows[..|rows| - 1], a, b, keep);
      assert rows[|rows| - 1] in rows;
    }
  }

  lemma SamePage(n: State, setup: Setup, batch: string, other: string, run: Run)
    requires Inv(n) && other != batch
    ensures Page(Without(n, batch), setup, other, run) == Page(n, setup, other, run)
  {
    hide Inv, HasLive, Except, PastCursor;
    forall t | t in n.txns && t.batch == other
      ensures HasLive(Without(n, batch).classifications, t.id) <==> HasLive(n.classifications, t.id)
    {
      AnsweredAsWithout(n, batch, t);
    }
    SameEligibleRows(n.txns, Without(n, batch).classifications, n.classifications,
                     (t: Txn) => t.batch == other && PastCursor(run, t));
  }

  /** Another run's chunk commits with the run exactly when it commits without. */
  lemma SameCollision(n: State, setup: Setup, batch: string, other: string)
    requires Inv(n) && other != batch && other in n.workers
    requires n.workers[other].page.Some? && n.workers[other].memory.Some?
    ensures
      var more := Answers(n.workers[other].page.value, setup, n.workers[other].memory.value, other);
      OneLive(Without(n, batch).classifications + more) <==> OneLive(n.classifications + more)
  {
    hide Inv, HasLive, Except, OneLive, Answers, DistinctIds;
    var page, memory := n.workers[other].page.value, n.workers[other].memory.value;
    var w := Without(n, batch).classifications;
    LogIsOneLive(n);
    ExceptOneLive(n.classifications, ByRun(batch));
    PageIsDistinct(n, other);
    ChunkCollides(n.classifications, page, setup, memory, other);
    ChunkCollides(w, page, setup, memory, other);
    forall t | t in page
      ensures HasLive(w, t.id) <==> HasLive(n.classifications, t.id)
    {
      PageRowIsOfBatch(n, other, t);
      AnsweredAsWithout(n, batch, t);
    }
  }

  lemma PageRowIsOfBatch(n: State, other: string, t: Txn)
    requires Inv(n) && other in n.workers && n.workers[other].page.Some? && t in n.workers[other].page.value
    ensures t in n.txns && t.batch == other
  {
    hide LogKept, DecisionsKept, VendorsKept, CoverageKept, TxnsKept, RunsKept;
    PageOfBatch(n, other);
  }

  lemma OtherWriteApart(n: State, setup: Setup, batch: string, other: string)
    requires Inv(n) && other != batch
    ensures Without(Step(n, setup, WriteAction(other)), batch) == Step(Without(n, batch), setup, WriteAction(other))
  {
    hide Inv, Except, OneLive, Answers;
    if other in n.workers && n.workers[other].page.Some? && n.workers[other].memory.Some? {
      SameCollision(n, setup, batch, other);
      var more := Answers(n.workers[other].page.value, setup, n.workers[other].memory.value, other);
      AnswersAreOfRun(n.workers[other].page.value, setup, n.workers[other].memory.value, other);
      ExceptAppend(n.classifications, more, ByRun(batch));
      ExceptNobody(more, ByRun(batch));
    }
  }

  lemma OtherReadApart(n: State, setup: Setup, batch: string, other: string)
    requires Inv(n) && other != batch
    ensures Without(Step(n, setup, ReadAction(other)), batch) == Step(Without(n, batch), setup, ReadAction(other))
  {
    hide Inv, Except, Page;
    if other in n.runs {
      SamePage(n, setup, batch, other, n.runs[other]);
    }
  }

  lemma OtherOpenApart(n: State, batch: string, other: string)
    requires other != batch
    ensures Without(OrElse(Open(n, other), n), batch) == OrElse(Open(Without(n, batch), other), Without(n, batch))
  {
    hide Except;
    assert n.runs[other := Run(Running, 0, 0, 0, [])] - {batch}
        == (n.runs - {batch})[other := Run(Running, 0, 0, 0, [])];
    assert n.workers[other := Worker(None, None)] - {batch} == (n.workers - {batch})[other := Worker(None, None)];
  }

  lemma OtherContextApart(n: State, batch: string, other: string)
    requires other != batch
    ensures Without(OrElse(ReadContext(n, other), n), batch)
         == OrElse(ReadContext(Without(n, batch), other), Without(n, batch))
  {
    hide Except;
  }

  lemma OtherCloseApart(n: State, batch: string, other: string, status: Status)
    requires other != batch
    ensures Without(OrElse(Close(n, other, status), n), batch)
         == OrElse(Close(Without(n, batch), other, status), Without(n, batch))
  {
    hide Except;
    assert n.workers - {other} - {batch} == n.workers - {batch} - {other};
  }

  /** Each step of others does with the run in flight what it would have done without. */
  lemma OtherStepApart(n: State, setup: Setup, batch: string, a: Action)
    requires Inv(n) && Elsewhere(a, batch)
    ensures Without(Step(n, setup, a), batch) == Step(Without(n, batch), setup, a)
  {
    if a.ReadAction? {
      OtherReadApart(n, setup, batch, a.batch);
    } else if a.WriteAction? {
      OtherWriteApart(n, setup, batch, a.batch);
    } else {
      hide Inv, Except, OrElse, Inserted, Resolve, Undo, Open, ReadContext, ReadPage, WriteChunk, Close;
      match a
      case ArriveAction(t) =>
      case OpenAction(other) => OtherOpenApart(n, batch, other);
      case ContextAction(other) => OtherContextApart(n, batch, other);
      case FinishAction(other) => OtherCloseApart(n, batch, other, Classified);
      case FailAction(other) => OtherCloseApart(n, batch, other, Failed);
      case CrashAction(other) => assert n.workers - {other} - {batch} == n.workers - {batch} - {other};
    }
  }

  // ---- And the run's own steps show in nothing else ------------------------------------------

  lemma OpenApart(s: State, batch: string)
    requires Inv(s) && Open(s, batch).Ok?
    ensures Without(Open(s, batch).value, batch) == s
  {
    hide TxnsKept, DecisionsKept, VendorsKept, CoverageKept, RunKept, OneLive, Except, HumanAnswerKept;
    forall c | c in s.classifications
      ensures c.author != ByRun(batch)
    {
      var k :| 0 <= k < |s.classifications| && s.classifications[k] == c;
      if c.author.ByRun? {
        assert RunAnswerKept(s, s.classifications[k]);
      }
    }
    ExceptNobody(s.classifications, ByRun(batch));
    assert batch in s.workers ==> WorkerKept(s, batch);
  }

  lemma OwnStepApart(n: State, setup: Setup, batch: string)
    ensures ReadContext(n, batch).Ok? ==> Without(ReadContext(n, batch).value, batch) == Without(n, batch)
    ensures ReadPage(n, setup, batch).Ok? ==> Without(ReadPage(n, setup, batch).value, batch) == Without(n, batch)
    ensures Close(n, batch, Classified).Ok? ==> Without(Close(n, batch, Classified).value, batch) == Without(n, batch)
  {
    hide Except, Page;
  }

  lemma OwnWriteApart(n: State, setup: Setup, batch: string)
    requires WriteChunk(n, setup, batch).Ok?
    ensures Without(WriteChunk(n, setup, batch).value, batch) == Without(n, batch)
  {
    hide Except, Answers, OneLive;
    var more := Answers(n.workers[batch].page.value, setup, n.workers[batch].memory.value, batch);
    AnswersAreOfRun(n.workers[batch].page.value, setup, n.workers[batch].memory.value, batch);
    ExceptAppend(n.classifications, more, ByRun(batch));
    ExceptEverything(more, ByRun(batch));
    assert Except(n.classifications, ByRun(batch)) + [] == Except(n.classifications, ByRun(batch));
  }

  lemma {:induction false} ExceptEverything(log: seq<Classification>, author: Author)
    requires forall c :: c in log ==> c.author == author
    ensures Except(log, author) == []
  {
    if log != [] {
      var before, c := log[..|log| - 1], log[|log| - 1];
      assert log == before + [c];
      assert c in log && forall x :: x in before ==> x in log;
      ExceptEverything(before, author);
    }
  }

  // ---- While others act -------------------------------------------------------------------------

  lemma {:induction false} OthersAct(n: State, s: State, setup: Setup, batch: string, actions: seq<Action>)
    requires Inv(n) && Along(n, s, setup, batch) && forall a :: a in actions ==> Elsewhere(a, batch)
    ensures
      var m := Continue(n, setup, actions);
      && Inv(m) && Along(m, s, setup, batch)
      && batch in n.runs && batch in m.runs && m.runs[batch] == n.runs[batch]
      && (batch in m.workers <==> batch in n.workers) && (batch in n.workers ==> m.workers[batch] == n.workers[batch])
      && Without(m, batch) == Continue(Without(n, batch), setup, actions)
  {
    hide Inv, Along, Step, Without;
    RunIsThere(n, s, setup, batch);
    if actions != [] {
      var before, a := actions[..|actions| - 1], actions[|actions| - 1];
      assert a in actions;
      OthersAct(n, s, setup, batch, before);
      var m := Continue(n, setup, before);
      StepKeeps(m, setup, a);
      OtherStepAlong(m, s, setup, batch, a);
      OtherStepLeaves(m, setup, batch, a);
      OtherStepApart(m, setup, batch, a);
    }
  }

  lemma {:induction false} ContinueAppend(s: State, setup: Setup, a: seq<Action>, b: seq<Action>)
    ensures Continue(Continue(s, setup, a), setup, b) == Continue(s, setup, a + b)
  {
    hide Step;
    if b == [] {
      assert a + b == a;
    } else {
      assert (a + b)[..|a + b| - 1] == a + b[..|b| - 1];
      ContinueAppend(s, setup, a, b[..|b| - 1]);
    }
  }

  // ---- A log is its author's part and the rest -------------------------------------------------

  /** Where nobody else has written, the log is the old one and the run's own answers. */
  lemma OnlyOwn(log: seq<Classification>, before: seq<Classification>, author: Author)
    requires before <= log && Except(log, author) == before && WrittenBy(before, author) == []
    ensures log == before + WrittenBy(log, author)
  {
    hide Except, WrittenBy;
    var more := log[|before|..];
    assert log == before + more;
    ExceptAppend(before, more, author);
    WrittenAppend(before, more, author);
    NoneMeansNobody(before, author);
    ExceptNobody(before, author);
    assert Except(more, author) == [];
    forall c | c in more
      ensures c.author == author
    {
      ExceptHas(more, author, c);
    }
    WrittenByOne(more, author);
  }

  lemma {:induction false} NoneMeansNobody(log: seq<Classification>, author: Author)
    requires WrittenBy(log, author) == []
    ensures forall c :: c in log ==> c.author != author
  {
    if log != [] {
      NoneMeansNobody(log[..|log| - 1], author);
      assert log == log[..|log| - 1] + [log[|log| - 1]];
    }
  }
}
