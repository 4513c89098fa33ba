/** Runs keep the books: opening, paging, writing, ending, and rows that arrive meanwhile. */
module BookRuns {
  import opened Books
  import opened BookDecisions

  // ---- A run keeps it -----------------------------------------------------------------------

  lemma NoRunNoAnswers(s: State, batch: string)
    requires LogKept(s) && batch !in s.runs
    ensures CountBy(s.classifications, ByRun(batch)) == 0
  {
    hide OneLive;
    forall k | 0 <= k < |s.classifications|
      ensures s.classifications[k].author != ByRun(batch)
    {
      if s.classifications[k].author.ByRun? {
        assert RunAnswerKept(s, s.classifications[k]);
      }
    }
    CountNone(s.classifications, ByRun(batch));
  }

  /** The log is untouched: answers stay kept while runs are only added. */
  lemma LogStaysKept(s: State, n: State)
    requires LogKept(s) && Extends(n, s) && n.classifications == s.classifications
    ensures LogKept(n)
  {
    hide OneLive, HumanAnswerKept, RunAnswerKept;
    forall k | 0 <= k < |n.classifications|
      ensures n.classifications[k].author.ByHuman? ==> HumanAnswerKept(n, n.classifications[k])
      ensures n.classifications[k].author.ByRun? ==> RunAnswerKept(n, n.classifications[k])
    {
      AnswersStayKept(s, n, k);
    }
  }

  /** A run whose rows and counters are the same is kept, whatever its status. */
  lemma RunStaysKept(s: State, n: State, batch: string)
    requires batch in s.runs && RunKept(s, batch)
    requires batch in n.runs && n.runs[batch] == s.runs[batch].(status := n.runs[batch].status)
    requires n.classifications == s.classifications && n.txns == s.txns
    ensures RunKept(n, batch)
  {
    hide Ascending, CountBy;
  }

  lemma WorkerStaysKept(s: State, n: State, batch: string)
    requires batch in s.workers && WorkerKept(s, batch)
    requires batch in n.workers && n.workers[batch] == s.workers[batch]
    requires batch in s.runs && batch in n.runs && n.runs[batch] == s.runs[batch]
    requires n.txns == s.txns
    ensures WorkerKept(n, batch)
  {
    hide Ascending, PastCursor;
  }

  /** A step that touches nothing but runs and workers. */
  lemma OnlyRunsChanged(s: State, n: State)
    requires Inv(s) && RunsKept(n)
    requires n.txns == s.txns && n.classifications == s.classifications
    requires n.decisions == s.decisions && n.vendors == s.vendors
    requires forall batch :: batch in s.runs ==> batch in n.runs
    ensures Inv(n)
  {
    hide LogKept, DecisionsKept, VendorsKept, CoverageKept, RunsKept;
    LogStaysKept(s, n);
    SameDecisions(s, n);
  }

  lemma OpenKeeps(s: State, batch: string)
    requires Inv(s) && Open(s, batch).Ok?
    ensures Inv(Open(s, batch).value)
  {
    var n := Open(s, batch).value;
    NoRunNoAnswers(s, batch);
    NothingAscends();
    assert RunKept(n, batch) && WorkerKept(n, batch);
    hide LogKept, RunKept, WorkerKept, DecisionsKept, VendorsKept, CoverageKept, TxnsKept;
    forall b | b in n.runs
      ensures RunKept(n, b)
    {
      if b != batch {
        RunStaysKept(s, n, b);
      }
    }
    forall b | b in n.workers
      ensures WorkerKept(n, b)
    {
      if b != batch {
        WorkerHasRun(s, b);
        WorkerStaysKept(s, n, b);
      }
    }
    OnlyRunsChanged(s, n);
  }

  lemma WorkerHasRun(s: State, batch: string)
    requires RunsKept(s) && batch in s.workers
    ensures WorkerKept(s, batch) && batch in s.runs && RunKept(s, batch)
  {
    hide Ascending, PastCursor;
  }

  lemma NothingAscends()
    ensures Ascending([])
  {
  }

  lemma PageIsKept(s: State, setup: Setup, batch: string, run: Run)
    requires TxnsKept(s)
    ensures
      var page := Page(s, setup, batch, run);
      Ascending(page) && OfBatch(s, page, batch) && forall t :: t in page ==> PastCursor(run, t)
  {
    hide HasLive, Before, PastCursor;
    EligibleKeepsOrder(s.txns, s.classifications, (t: Txn) => t.batch == batch && PastCursor(run, t));
  }

  lemma ContextKeeps(s: State, batch: string)
    requires Inv(s) && ReadContext(s, batch).Ok?
    ensures Inv(ReadContext(s, batch).value)
  {
    var n := ReadContext(s, batch).value;
    WorkerHasRun(s, batch);
    hide Ascending, PastCursor;
    assert WorkerKept(n, batch);
    hide LogKept, RunKept, WorkerKept, DecisionsKept, VendorsKept, CoverageKept, TxnsKept;
    forall b | b in n.runs
      ensures RunKept(n, b)
    {
      RunStaysKept(s, n, b);
    }
    forall b | b in n.workers
      ensures WorkerKept(n, b)
    {
      if b != batch {
        WorkerHasRun(s, b);
        WorkerStaysKept(s, n, b);
      }
    }
    OnlyRunsChanged(s, n);
  }

  lemma ReadKeeps(s: State, setup: Setup, batch: string)
    requires Inv(s) && ReadPage(s, setup, batch).Ok?
    ensures Inv(ReadPage(s, setup, batch).value)
  {
    var n := ReadPage(s, setup, batch).value;
    PageIsKept(s, setup, batch, s.runs[batch]);
    WorkerHasRun(s, batch);
    hide Page, Ascending, PastCursor;
    assert WorkerKept(n, batch);
    hide LogKept, RunKept, WorkerKept, DecisionsKept, VendorsKept, CoverageKept, TxnsKept;
    forall b | b in n.runs
      ensures RunKept(n, b)
    {
      RunStaysKept(s, n, b);
    }
    forall b | b in n.workers
      ensures WorkerKept(n, b)
    {
      if b != batch {
        WorkerHasRun(s, b);
        WorkerStaysKept(s, n, b);
      }
    }
    OnlyRunsChanged(s, n);
  }

  lemma {:induction false} AnswersAreOfRun(page: seq<Txn>, setup: Setup, memory: map<string, string>, batch: string)
    ensures forall c :: c in Answers(page, setup, memory, batch) ==> c.author == ByRun(batch) && c.live
  {
    if page != [] {
      AnswersAreOfRun(page[..|page| - 1], setup, memory, batch);
    }
  }

  lemma {:induction false} AnswersNameRows(page: seq<Txn>, setup: Setup, memory: map<string, string>, batch: string)
    ensures forall c :: c in Answers(page, setup, memory, batch) ==> exists t :: t in page && t.id == c.txn
  {
    if page != [] {
      AnswersNameRows(page[..|page| - 1], setup, memory, batch);
    }
  }

  lemma PageOfBatch(s: State, batch: string)
    requires RunsKept(s) && batch in s.workers && s.workers[batch].page.Some?
    ensures OfBatch(s, s.workers[batch].page.value, batch)
  {
    hide RunKept, Ascending, PastCursor;
    assert WorkerKept(s, batch);
  }

  lemma AnswersAreOfBatch(s: State, page: seq<Txn>, setup: Setup, memory: map<string, string>, batch: string)
    requires OfBatch(s, page, batch)
    ensures forall c :: c in Answers(page, setup, memory, batch) ==> HasBatch(s, c.txn, batch)
  {
    hide Answers;
    AnswersNameRows(page, setup, memory, batch);
    forall c | c in Answers(page, setup, memory, batch)
      ensures HasBatch(s, c.txn, batch)
    {
      var t :| t in page && t.id == c.txn;
      assert t in s.txns && t.batch == batch;
    }
  }

  /** A chunk that commits writes its answers behind its own rows, past every row before. */
  lemma {:induction false} ChunkAscends(run: Run, page: seq<Txn>)
    requires Ascending(run.answered) && Ascending(page) && forall t :: t in page ==> PastCursor(run, t)
    ensures Ascending(run.answered + page)
  {
    var all, m := run.answered + page, |run.answered|;
    forall i, j | 0 <= i < j < |all|
      ensures Before(all[i], all[j])
    {
      if i < m <= j {
        assert page[j - m] in page;
        assert PastCursor(run, page[j - m]);
        if i < m - 1 {
          assert Before(run.answered[i], run.answered[m - 1]);
        }
      }
    }
  }

  lemma WriteKeepsLog(s: State, setup: Setup, batch: string)
    requires Inv(s) && WriteChunk(s, setup, batch).Ok?
    ensures LogKept(WriteChunk(s, setup, batch).value)
    ensures CoverageKept(WriteChunk(s, setup, batch).value)
  {
    hide OneLive, HumanAnswerKept, TxnsKept, DecisionsKept, VendorsKept, RunsKept, CountBy, Answers;
    var n, m := WriteChunk(s, setup, batch).value, |s.classifications|;
    var worker := s.workers[batch];
    var log := Answers(worker.page.value, setup, worker.memory.value, batch);
    assert n.classifications == s.classifications + log;
    AnswersAreOfRun(worker.page.value, setup, worker.memory.value, batch);
    PageOfBatch(s, batch);
    AnswersAreOfBatch(s, worker.page.value, setup, worker.memory.value, batch);
    hide HasBatch;
    forall k | 0 <= k < |n.classifications|
      ensures n.classifications[k].author.ByHuman? ==> HumanAnswerKept(n, n.classifications[k])
      ensures n.classifications[k].author.ByRun? ==> RunAnswerKept(n, n.classifications[k])
    {
      if k < m {
        AnswersStayKept(s, n, k);
      } else {
        assert log[k - m] in log;
      }
    }
    forall d | 0 <= d < |n.decisions|
      ensures CountBy(n.classifications, ByHuman(d)) == CountBy(s.classifications, ByHuman(d))
    {
      CountAppend(s.classifications, log, ByHuman(d));
      assert forall k :: 0 <= k < |log| ==> log[k] in log;
      CountNone(log, ByHuman(d));
    }
  }

  lemma WriteKeepsRuns(s: State, setup: Setup, batch: string)
    requires Inv(s) && WriteChunk(s, setup, batch).Ok?
    ensures RunsKept(WriteChunk(s, setup, batch).value)
  {
    hide OneLive, LogKept, TxnsKept, DecisionsKept, VendorsKept, CoverageKept, CountBy, Answers, Ascending, PastCursor;
    var n := WriteChunk(s, setup, batch).value;
    var worker, run := s.workers[batch], s.runs[batch];
    var page := worker.page.value;
    var log := Answers(page, setup, worker.memory.value, batch);
    AnswersAreOfRun(page, setup, worker.memory.value, batch);
    assert forall k :: 0 <= k < |log| ==> log[k] in log;
    assert RunKept(s, batch) && WorkerKept(s, batch);
    ChunkAscends(run, page);
    forall b | b in n.runs
      ensures RunKept(n, b)
    {
      assert RunKept(s, b);
      CountAppend(s.classifications, log, ByRun(b));
      if b == batch {
        CountAll(log, ByRun(b));
      } else {
        CountNone(log, ByRun(b));
      }
    }
    forall b | b in n.workers
      ensures WorkerKept(n, b)
    {
      assert WorkerKept(s, b);
    }
  }

  lemma WriteKeeps(s: State, setup: Setup, batch: string)
    requires Inv(s) && WriteChunk(s, setup, batch).Ok?
    ensures Inv(WriteChunk(s, setup, batch).value)
  {
    WriteKeepsLog(s, setup, batch);
    WriteKeepsRuns(s, setup, batch);
    hide LogKept, CoverageKept, RunsKept, OneLive, Answers, Ascending;
  }

  /** A job that ends, well or badly, or simply stops. */
  lemma EndKeeps(s: State, n: State, batch: string, status: Status)
    requires Inv(s)
    requires n == s.(workers := s.workers - {batch})
             || (batch in s.runs && n == s.(runs := s.runs[batch := s.runs[batch].(status := status)], workers :=
                                         s.workers - {batch}))
    ensures Inv(n)
  {
    hide LogKept, RunKept, WorkerKept, DecisionsKept, VendorsKept, CoverageKept, TxnsKept;
    forall b | b in n.runs
      ensures RunKept(n, b)
    {
      RunStaysKept(s, n, b);
    }
    forall b | b in n.workers
      ensures WorkerKept(n, b)
    {
      WorkerHasRun(s, b);
      WorkerStaysKept(s, n, b);
    }
    OnlyRunsChanged(s, n);
  }

  lemma {:induction false} InsertedAscends(rows: seq<Txn>, t: Txn)
    requires Ascending(rows)
    requires forall i :: 0 <= i < |rows| ==> rows[i].id != t.id
    requires forall i, j :: 0 <= i < j < |rows| ==> rows[i].id != rows[j].id
    ensures
      var r := Inserted(rows, t);
      Ascending(r) && forall i, j :: 0 <= i < j < |r| ==> r[i].id != r[j].id
  {
    if rows == [] {
    } else if Before(rows[|rows| - 1], t) {
      var r := rows + [t];
      forall i | 0 <= i < |rows|
        ensures Before(r[i], t)
      {
        if i < |rows| - 1 {
          assert Before(rows[i], rows[|rows| - 1]);
        }
      }
    } else {
      var before, last := rows[..|rows| - 1], rows[|rows| - 1];
      InsertedAscends(before, t);
      forall x | x in Inserted(before, t)
        ensures Before(x, last) && x.id != last.id
      {
        if x in before {
          var j :| 0 <= j < |before| && before[j] == x;
          assert rows[j] == x;
        }
      }
    }
  }

  lemma ArriveKeeps(s: State, t: Txn)
    requires Inv(s)
    ensures Inv(Arrive(s, t))
  {
    hide OneLive, DecisionsKept, VendorsKept, CoverageKept, RunKept, WorkerKept, CountBy, HumanAnswerKept,
      RunAnswerKept;
    if !exists x :: x in s.txns && x.id == t.id {
      assert forall i :: 0 <= i < |s.txns| ==> s.txns[i] in s.txns;
      InsertedAscends(s.txns, t);
      var n := Arrive(s, t);
      hide Ascending;
      LogStaysKept(s, n);
      RunsStayKept(s, n);
      SameDecisions(s, n);
    }
  }

  lemma SameDecisions(s: State, n: State)
    requires n.decisions == s.decisions && n.vendors == s.vendors && n.classifications == s.classifications
    ensures DecisionsKept(s) ==> DecisionsKept(n)
    ensures VendorsKept(s) ==> VendorsKept(n)
    ensures CoverageKept(s) ==> CoverageKept(n)
  {
  }
}
