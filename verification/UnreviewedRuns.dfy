/** A run during which nobody reviews: whatever other batches are imported and classified
  * meanwhile, it leaves the engine's answers to its batch's queue. */
module UnreviewedRuns {
  import opened Wrappers
  import opened Books
  import opened BookDecisions
  import opened BookRuns
  import opened BookKeeping
  import opened BookLaws
  import opened RunLaws
  import Int64

  // ---- A page ---------------------------------------------------------------------------------

  /** A page is the first rows, in the order of day and id, of the batch's rows that nobody has
    * answered and that lie past the run's cursor: 5000 of them, or as many as are asked for. */
  lemma PageIsFirst(s: State, setup: Setup, batch: string, run: Run)
    requires TxnsKept(s)
    ensures
      var page := Page(s, setup, batch, run);
      var size := if setup.chunk == 0 then 5000 else setup.chunk;
      && |page| <= size
      && (forall i, j :: 0 <= i < j < |page| ==>
                           page[i].day < page[j].day || (page[i].day == page[j].day && page[i].id < page[j].id))
      && (forall t :: t in page ==> Waits(s, batch, run, t))
      && (forall t, u :: Waits(s, batch, run, t) && t !in page && u in page ==>
                           u.day < t.day || (u.day == t.day && u.id < t.id))
      && (forall t :: Waits(s, batch, run, t) && t !in page ==> |page| == size)
  {
    hide HasLive, PastCursor, Waits, Ascending, TxnsKept;
    WaitingRows(s, batch, run);
    FirstRows(Unanswered(s, batch, run), if setup.chunk == 0 then 5000 else setup.chunk);
  }

  lemma WaitingRows(s: State, batch: string, run: Run)
    requires TxnsKept(s)
    ensures Ascending(Unanswered(s, batch, run))
    ensures forall t :: t in Unanswered(s, batch, run) <==> Waits(s, batch, run, t)
  {
    hide HasLive, PastCursor, Before;
    EligibleKeepsOrder(s.txns, s.classifications, (t: Txn) => t.batch == batch && PastCursor(run, t));
    forall t
      ensures t in Unanswered(s, batch, run) <==> Waits(s, batch, run, t)
    {
      CursorIsPassed(run, t);
    }
  }

  lemma FirstRows(rows: seq<Txn>, size: nat)
    requires Ascending(rows)
    ensures
      var page := if |rows| <= size then rows else rows[..size];
      && (forall i, j :: 0 <= i < j < |page| ==>
                           page[i].day < page[j].day || (page[i].day == page[j].day && page[i].id < page[j].id))
      && (forall t, u :: t in rows && t !in page && u in page ==> u.day < t.day || (u.day == t.day && u.id < t.id))
      && (forall t :: t in page ==> t in rows)
      && (forall t :: t in rows && t !in page ==> |page| == size)
  {
    var page := if |rows| <= size then rows else rows[..size];
    forall t, u | t in rows && t !in page && u in page
      ensures Before(u, t)
    {
      var i :| 0 <= i < |rows| && rows[i] == t;
      var j :| 0 <= j < |page| && page[j] == u;
      assert i >= |page| && rows[j] == u;
    }
  }

  /** An unanswered row of the batch that the run has not come to. */
  predicate Waits(s: State, batch: string, run: Run, t: Txn) {
    && t in s.txns && t.batch == batch && !HasLive(s.classifications, t.id)
    && (run.answered == []
        || var last := run.answered[|run.answered| - 1]; last.day < t.day || (last.day == t.day && last.id < t.id))
  }

  lemma CursorIsPassed(run: Run, t: Txn)
    ensures PastCursor(run, t)
       <==> run.answered == []
            || var last := run.answered[|run.answered| - 1]; last.day < t.day || (last.day == t.day && last.id < t.id)
  {
  }

  /** Neither review nor a further row of the batch; anything else may happen, the steps of
    * the batch's own job and of every other among it. */
  predicate Unreviewing(a: Action, batch: string) {
    match a
    case ArriveAction(t) => t.batch != batch
    case ResolveAction(_, _, _, _) => false
    case UndoAction(_) => false
    case _ => true
  }

  // ---- The queue ------------------------------------------------------------------------------

  const FRESH: Run := Run(Running, 0, 0, 0, [])

  /** The rows of a batch that have no answer. */
  function Queue(s: State, batch: string): seq<Txn> {
    Unanswered(s, batch, FRESH)
  }

  lemma QueueFacts(s: State, batch: string)
    requires TxnsKept(s)
    ensures
      var rows := Queue(s, batch);
      && Ascending(rows)
      && DistinctIds(rows)
      && (forall t :: t in rows <==> t in s.txns && t.batch == batch && !HasLive(s.classifications, t.id))
  {
    hide HasLive, Before;
    EligibleKeepsOrder(s.txns, s.classifications, (t: Txn) => t.batch == batch && PastCursor(FRESH, t));
  }

  lemma {:induction false} AscendingIsUnique(a: seq<Txn>, b: seq<Txn>)
    requires Ascending(a) && Ascending(b) && forall t :: t in a <==> t in b
    ensures a == b
  {
    assert |b| > 0 ==> b[0] in b;
    if a != [] {
      var x := a[|a| - 1];
      assert x in b;
      var y := b[|b| - 1];
      assert y in a;
      if x != y {
        LastIsLast(a, y);
        LastIsLast(b, x);
      }
      ShorterSame(a, b);
      AscendingIsUnique(Init(a), Init(b));
    }
  }

  lemma LastIsLast(a: seq<Txn>, t: Txn)
    requires Ascending(a) && t in a
    ensures t == a[|a| - 1] || Before(t, a[|a| - 1])
  {
  }

  function Init(rows: seq<Txn>): (r: seq<Txn>)
    requires rows != []
    ensures |r| == |rows| - 1
  {
    rows[..|rows| - 1]
  }

  lemma ShorterSame(a: seq<Txn>, b: seq<Txn>)
    requires a != [] && b != [] && a[|a| - 1] == b[|b| - 1]
    requires Ascending(a) && Ascending(b) && forall t :: t in a <==> t in b
    ensures forall t :: t in Init(a) <==> t in Init(b)
  {
    forall t
      ensures t in Init(a) <==> t in Init(b)
    {
      InInit(a, t);
      InInit(b, t);
    }
  }

  lemma InInit(a: seq<Txn>, t: Txn)
    requires a != [] && Ascending(a)
    ensures t in Init(a) <==> t in a && t != a[|a| - 1]
  {
    if t in Init(a) {
      var i :| 0 <= i < |a| - 1 && a[i] == t;
      assert Before(t, a[|a| - 1]);
    }
  }

  lemma TailAscends(rows: seq<Txn>, k: nat)
    requires Ascending(rows) && k <= |rows|
    ensures Ascending(rows[k..])
  {
  }

  lemma InTail(rows: seq<Txn>, k: nat, j: nat)
    requires k <= |rows| && j < |rows|
    ensures j >= k ==> rows[j] in rows[k..]
  {
    assert j >= k ==> rows[k..][j - k] == rows[j];
  }

  // ---- A run on its way -------------------------------------------------------------------------

  /** What the run writes to the first `k` rows of the queue. */
  function Own(s: State, setup: Setup, batch: string, k: nat): seq<Classification>
    requires k <= |Queue(s, batch)|
  {
    Answers(Queue(s, batch)[..k], setup, s.vendors, batch)
  }

  /** The classifications one author wrote, in order. */
  function WrittenBy(log: seq<Classification>, author: Author): (r: seq<Classification>)
    ensures |r| == CountBy(log, author)
  {
    if log == [] then []
    else WrittenBy(log[..|log| - 1], author) + if log[|log| - 1].author == author then [log[|log| - 1]] else []
  }

  ghost predicate SameRows(n: State, s: State, batch: string) {
    forall t: Txn :: t.batch == batch ==> (t in n.txns <==> t in s.txns)
  }

  /** The batch's rows are answered as they were before the run, or by the run itself. */
  ghost predicate AnsweredAlike(log: seq<Classification>, before: seq<Classification>, s: State, batch: string) {
    forall t :: t in s.txns && t.batch == batch ==> (HasLive(log, t.id) <==> HasLive(before, t.id))
  }

  /** The job's memory is that of the start, and its page the queue's next rows: a whole
    * chunk of them, or all that are left. */
  ghost predicate JobAlong(w: Worker, rows: seq<Txn>, k: nat, memory: map<string, string>, size: nat)
    requires k <= |rows|
  {
    && (w.memory.Some? ==> w.memory == Some(memory))
    && (w.page.Some? ==>
          && w.memory.Some? && |w.page.value| == (if size < |rows| - k then size else |rows| - k)
          && w.page.value == rows[k..k + |w.page.value|])
  }

  /** So many chunks take `k` of `n` rows, and none of them was empty. */
  predicate InChunks(k: nat, n: nat, chunks: nat, size: nat) {
    && k == (if chunks * size < n then chunks * size else n)
    && (chunks > 0 ==> (chunks - 1) * size < n)
  }

  lemma OneMoreChunk(k: nat, n: nat, chunks: nat, size: nat)
    requires InChunks(k, n, chunks, size) && k < n && size > 0
    ensures InChunks(k + if size < n - k then size else n - k, n, chunks + 1, size)
  {
    assert (chunks + 1) * size == chunks * size + size;
  }

  /** Which is as many as it takes. */
  lemma AllInChunks(n: nat, chunks: nat, size: nat)
    requires InChunks(n, n, chunks, size) && size > 0
    ensures chunks == (n + size - 1) / size
  {
    if chunks > 0 {
      assert chunks * size == (chunks - 1) * size + size;
      var rest := n + size - 1 - chunks * size;
      assert 0 <= rest < size && n + size - 1 == chunks * size + rest;
      Int64.QuotientIs(n + size - 1, size, chunks, rest);
    } else {
      Int64.QuotientIs(n + size - 1, size, 0, n + size - 1);
    }
  }

  /** A run opened on `s`, some of whose queue it has answered by now. */
  ghost predicate Along(n: State, s: State, setup: Setup, batch: string) {
    var rows := Queue(s, batch);
    && batch in n.runs
    && var run := n.runs[batch];
    var k := |run.answered|;
    && k <= |rows| && run.answered == rows[..k]
    && n.vendors == s.vendors && n.decisions == s.decisions && SameRows(n, s, batch)
    && s.classifications <= n.classifications
    && WrittenBy(n.classifications, ByRun(batch)) == Own(s, setup, batch, k)
    && AnsweredAlike(n.classifications, s.classifications + Own(s, setup, batch, k), s, batch)
    && (batch in n.workers ==> JobAlong(n.workers[batch], rows, k, s.vendors, ChunkSize(setup)))
    && InChunks(k, |rows|, run.chunks, ChunkSize(setup))
    && (run.status.Classified? ==> k == |rows|)
  }

  lemma {:induction false} WrittenAppend(a: seq<Classification>, b: seq<Classification>, author: Author)
    ensures WrittenBy(a + b, author) == WrittenBy(a, author) + WrittenBy(b, author)
  {
    if b == [] {
      assert a + b == a;
    } else {
      assert (a + b)[..|a + b| - 1] == a + b[..|b| - 1];
      WrittenAppend(a, b[..|b| - 1], author);
    }
  }

  lemma {:induction false} WrittenByNobody(log: seq<Classification>, author: Author)
    requires forall c :: c in log ==> c.author != author
    ensures WrittenBy(log, author) == []
  {
    if log != [] {
      var before, c := log[..|log| - 1], log[|log| - 1];
      assert log == before + [c];
      assert c in log && forall x :: x in before ==> x in log;
      WrittenByNobody(before, author);
    }
  }

  lemma {:induction false} WrittenByOne(log: seq<Classification>, author: Author)
    requires forall c :: c in log ==> c.author == author
    ensures WrittenBy(log, author) == log
  {
    if log != [] {
      var before, c := log[..|log| - 1], log[|log| - 1];
      assert log == before + [c];
      assert c in log && forall x :: x in before ==> x in log;
      WrittenByOne(before, author);
    }
  }

  lemma OpensAlong(s: State, setup: Setup, batch: string)
    requires Inv(s) && batch !in s.runs
    ensures Open(s, batch).Ok? && Along(Open(s, batch).value, s, setup, batch)
  {
    hide Inv, Queue, WrittenBy, HasLive;
    NothingWritten(s, batch);
    assert s.classifications + [] == s.classifications;
  }

  lemma NothingWritten(s: State, batch: string)
    requires Inv(s) && batch !in s.runs
    ensures WrittenBy(s.classifications, ByRun(batch)) == []
  {
    hide DecisionsKept, VendorsKept, CoverageKept, RunsKept, TxnsKept, WrittenBy;
    NoRunNoAnswers(s, batch);
  }

  // ---- What others do ----------------------------------------------------------------------------

  /** A step that leaves the run and its rows alone, and adds `more` of others' answers. */
  ghost predicate Leaves(m: State, n: State, batch: string, more: seq<Classification>) {
    && batch in n.runs && batch in m.runs && m.runs[batch] == n.runs[batch]
    && (batch in m.workers ==> batch in n.workers && m.workers[batch] == n.workers[batch])
    && m.vendors == n.vendors && m.decisions == n.decisions && SameRows(m, n, batch)
    && m.classifications == n.classifications + more
    && (forall c :: c in more ==> c.author != ByRun(batch))
    && (forall t :: t in n.txns && t.batch == batch ==> !HasLive(more, t.id))
  }

  lemma LeavesAlong(m: State, n: State, s: State, setup: Setup, batch: string, more: seq<Classification>)
    requires Along(n, s, setup, batch) && Leaves(m, n, batch, more)
    ensures Along(m, s, setup, batch)
  {
    hide Queue, Own, HasLive, WrittenBy, JobAlong, InChunks, ChunkSize;
    WrittenAppend(n.classifications, more, ByRun(batch));
    WrittenByNobody(more, ByRun(batch));
    forall t | t in s.txns && t.batch == batch
      ensures HasLive(m.classifications, t.id) <==> HasLive(n.classifications, t.id)
    {
      LiveInEither(n.classifications, more, t.id);
    }
  }

  lemma NothingAdded(m: State, n: State, batch: string)
    requires batch in n.runs && batch in m.runs && m.runs[batch] == n.runs[batch]
    requires batch in m.workers ==> batch in n.workers && m.workers[batch] == n.workers[batch]
    requires m.vendors == n.vendors && m.decisions == n.decisions && SameRows(m, n, batch)
    requires m.classifications == n.classifications
    ensures Leaves(m, n, batch, [])
  {
    assert n.classifications + [] == n.classifications;
  }

  /** Another run's chunk answers no row of this batch. */
  lemma OtherChunkLeaves(n: State, setup: Setup, batch: string, other: string)
    requires Inv(n) && batch in n.runs && other != batch && WriteChunk(n, setup, other).Ok?
    ensures
      var w := n.workers[other];
      Leaves(WriteChunk(n, setup, other).value, n, batch, Answers(w.page.value, setup, w.memory.value, other))
  {
    hide Inv, RunsKept, TxnsKept, Answers, OneLive, HasLive;
    var page, memory := n.workers[other].page.value, n.workers[other].memory.value;
    var more := Answers(page, setup, memory, other);
    AnswersAreOfRun(page, setup, memory, other);
    AnswersNameRows(page, setup, memory, other);
    forall t | t in n.txns && t.batch == batch
      ensures !HasLive(more, t.id)
    {
      PageAvoids(n, other, t);
      NotNamed(more, page, t.id);
    }
  }

  lemma PageAvoids(n: State, other: string, t: Txn)
    requires Inv(n) && other in n.workers && n.workers[other].page.Some? && t in n.txns && t.batch != other
    ensures forall x :: x in n.workers[other].page.value ==> x.id != t.id
  {
    hide LogKept, DecisionsKept, VendorsKept, CoverageKept, RunKept, Ascending, PastCursor;
    assert WorkerKept(n, other);
    forall x | x in n.workers[other].page.value
      ensures x.id != t.id
    {
      assert x in n.txns && x.batch == other;
      var i :| 0 <= i < |n.txns| && n.txns[i] == x;
      var j :| 0 <= j < |n.txns| && n.txns[j] == t;
    }
  }

  lemma NotNamed(log: seq<Classification>, page: seq<Txn>, id: nat)
    requires forall c :: c in log ==> exists t :: t in page && t.id == c.txn
    requires forall x :: x in page ==> x.id != id
    ensures !HasLive(log, id)
  {
    forall k | 0 <= k < |log|
      ensures log[k].txn != id
    {
      assert log[k] in log;
    }
  }

  // ---- What the run does ---------------------------------------------------------------------------

  /** A row of the queue has no answer until its own turn. */
  lemma StillUnanswered(s: State, setup: Setup, batch: string, k: nat, t: Txn)
    requires TxnsKept(s) && k <= |Queue(s, batch)| && t in s.txns && t.batch == batch
    ensures
      var rows := Queue(s, batch);
      !HasLive(s.classifications + Own(s, setup, batch, k), t.id)
      && (k == 0 || Before(rows[k - 1], t))
      <==> t in rows[k..]
  {
    hide TxnsKept, Queue, Answers, HasLive, Before;
    QueueFacts(s, batch);
    var rows := Queue(s, batch);
    var log := Answers(rows[..k], setup, s.vendors, batch);
    LiveInEither(s.classifications, log, t.id);
    if t in rows[k..] {
      var j :| k <= j < |rows| && rows[j] == t;
      NotAnsweredYet(rows, k, j, setup, s.vendors, batch);
      assert rows[j] in rows;
    } else if !HasLive(s.classifications, t.id) {
      assert t in rows;
      var j :| 0 <= j < |rows| && rows[j] == t;
      InTail(rows, k, j);
      if j < k {
        NotBoth(t, rows[k - 1]);
      }
    }
  }

  lemma NotBoth(a: Txn, b: Txn)
    ensures Before(a, b) ==> !Before(b, a)
    ensures !Before(a, a)
  {
  }

  /** The next page starts where the last one stopped, and skips nothing. */
  lemma NextRows(n: State, s: State, setup: Setup, batch: string)
    requires TxnsKept(s) && TxnsKept(n) && Along(n, s, setup, batch)
    ensures Unanswered(n, batch, n.runs[batch]) == Queue(s, batch)[|n.runs[batch].answered|..]
  {
    hide TxnsKept, Ascending, DistinctIds, HasLive, Queue, Own, WrittenBy, Before;
    QueueFacts(s, batch);
    RemainingFacts(n, batch);
    var rows, run := Queue(s, batch), n.runs[batch];
    var k := |run.answered|;
    var next := Unanswered(n, batch, run);
    TailAscends(rows, k);
    forall t
      ensures t in next <==> t in rows[k..]
    {
      assert t in rows[k..] ==> t in rows;
      assert k > 0 ==> run.answered[|run.answered| - 1] == rows[k - 1];
      if t in s.txns && t.batch == batch {
        StillUnanswered(s, setup, batch, k, t);
      }
    }
    AscendingIsUnique(next, rows[k..]);
  }

  lemma RemainingFacts(n: State, batch: string)
    requires TxnsKept(n) && batch in n.runs
    ensures
      var next := Unanswered(n, batch, n.runs[batch]);
      && Ascending(next)
      && forall t :: t in next <==>
                     t in n.txns && t.batch == batch && PastCursor(n.runs[batch], t)
                     && !HasLive(n.classifications, t.id)
  {
    hide HasLive, Before, PastCursor;
    EligibleKeepsOrder(n.txns, n.classifications, (t: Txn) => t.batch == batch && PastCursor(n.runs[batch], t));
  }

  lemma RowsAreKept(s: State)
    requires Inv(s)
    ensures TxnsKept(s)
  {
    hide LogKept, DecisionsKept, VendorsKept, CoverageKept, RunsKept, TxnsKept;
  }

  lemma ContextAlong(n: State, s: State, setup: Setup, batch: string)
    requires Along(n, s, setup, batch) && ReadContext(n, batch).Ok?
    ensures Along(ReadContext(n, batch).value, s, setup, batch)
  {
    hide Queue, Own, HasLive, WrittenBy;
  }

  lemma ReadAlong(n: State, s: State, setup: Setup, batch: string)
    requires Inv(s) && Inv(n) && Along(n, s, setup, batch) && ReadPage(n, setup, batch).Ok?
    ensures Along(ReadPage(n, setup, batch).value, s, setup, batch)
  {
    hide Inv, Queue, Own, HasLive, WrittenBy, Unanswered, AnsweredAlike;
    RowsAreKept(s);
    RowsAreKept(n);
    NextRows(n, s, setup, batch);
  }

  lemma WriteAlong(n: State, s: State, setup: Setup, batch: string)
    requires Along(n, s, setup, batch) && WriteChunk(n, setup, batch).Ok?
    ensures Along(WriteChunk(n, setup, batch).value, s, setup, batch)
  {
    hide Queue, HasLive, WrittenBy, Answers, OneLive, AnsweredAlike, InChunks, ChunkSize;
    var rows, k := Queue(s, batch), |n.runs[batch].answered|;
    var page := n.workers[batch].page.value;
    OneMoreChunk(k, |rows|, n.runs[batch].chunks, ChunkSize(setup));
    var more := Answers(page, setup, s.vendors, batch);
    AnswersAppend(rows[..k], page, setup, s.vendors, batch);
    assert rows[..k] + page == rows[..k + |page|];
    AnswersAreOfRun(page, setup, s.vendors, batch);
    WrittenAppend(n.classifications, more, ByRun(batch));
    WrittenByOne(more, ByRun(batch));
    AlikeAppend(n.classifications, s.classifications + Own(s, setup, batch, k), more, s, batch);
    assert s.classifications + Own(s, setup, batch, k) + more == s.classifications + Own(s, setup, batch, k + |page|);
  }

  lemma AlikeAppend(log: seq<Classification>, before: seq<Classification>, more: seq<Classification>, s: State,
                    batch: string)
    requires AnsweredAlike(log, before, s, batch)
    ensures AnsweredAlike(log + more, before + more, s, batch)
  {
    hide HasLive;
    forall t | t in s.txns && t.batch == batch
      ensures HasLive(log + more, t.id) <==> HasLive(before + more, t.id)
    {
      LiveInEither(log, more, t.id);
      LiveInEither(before, more, t.id);
    }
  }

  lemma CloseAlong(n: State, s: State, setup: Setup, batch: string, status: Status)
    requires Along(n, s, setup, batch) && Close(n, batch, status).Ok?
    ensures Along(Close(n, batch, status).value, s, setup, batch)
  {
    hide Queue, Own, HasLive, WrittenBy, AnsweredAlike;
  }

  // ---- Any interleaving --------------------------------------------------------------------------

  lemma OtherStepAlong(n: State, s: State, setup: Setup, batch: string, a: Action)
    requires Inv(n) && Along(n, s, setup, batch) && Elsewhere(a, batch)
    ensures Along(Step(n, setup, a), s, setup, batch)
  {
    hide Inv, Along, Step, WriteChunk, Answers, HasLive, SameRows;
    var m := Step(n, setup, a);
    RunIsThere(n, s, setup, batch);
    OtherStepLeaves(n, setup, batch, a);
    if a.WriteAction? && WriteChunk(n, setup, a.batch).Ok? {
      WroteStep(n, setup, a.batch);
      OtherChunkLeaves(n, setup, batch, a.batch);
      LeavesAlong(m, n, s, setup, batch,
                  Answers(n.workers[a.batch].page.value, setup, n.workers[a.batch].memory.value, a.batch));
    } else {
      NothingAdded(m, n, batch);
      LeavesAlong(m, n, s, setup, batch, []);
    }
  }

  lemma WroteStep(n: State, setup: Setup, other: string)
    requires WriteChunk(n, setup, other).Ok?
    ensures Step(n, setup, WriteAction(other)) == WriteChunk(n, setup, other).value
    ensures other in n.workers && n.workers[other].memory.Some? && n.workers[other].page.Some?
  {
    hide Answers, OneLive;
  }

  /** Whatever others do, the run's row and its job are as they were. */
  lemma OtherStepLeaves(n: State, setup: Setup, batch: string, a: Action)
    requires batch in n.runs && Elsewhere(a, batch)
    ensures
      var m := Step(n, setup, a);
      && batch in m.runs && m.runs[batch] == n.runs[batch] && (batch in m.workers <==> batch in n.workers)
      && (batch in n.workers ==> m.workers[batch] == n.workers[batch])
      && m.vendors == n.vendors && m.decisions == n.decisions && SameRows(m, n, batch)
      && (m.classifications == n.classifications || (a.WriteAction? && WriteChunk(n, setup, a.batch).Ok?))
  {
    hide Page, Answers, OneLive, Inserted, Resolve, Undo;
    if a.ArriveAction? {
      ArriveElsewhere(n, a.txn, batch);
    }
  }

  /** Steps of neither review nor this batch's job. */
  predicate Elsewhere(a: Action, batch: string) {
    && Unreviewing(a, batch)
    && match a
       case OpenAction(b) => b != batch
       case ContextAction(b) => b != batch
       case ReadAction(b) => b != batch
       case WriteAction(b) => b != batch
       case FinishAction(b) => b != batch
       case FailAction(b) => b != batch
       case CrashAction(b) => b != batch
       case _ => true
  }

  lemma RunIsThere(n: State, s: State, setup: Setup, batch: string)
    requires Along(n, s, setup, batch)
    ensures batch in n.runs
  {
  }

  lemma ArriveElsewhere(n: State, t: Txn, batch: string)
    requires t.batch != batch
    ensures SameRows(Arrive(n, t), n, batch)
  {
  }

  lemma StepAlong(n: State, s: State, setup: Setup, batch: string, a: Action)
    requires Inv(s) && Inv(n) && Along(n, s, setup, batch) && Unreviewing(a, batch)
    ensures Along(Step(n, setup, a), s, setup, batch)
  {
    hide Inv, Along, ReadContext, ReadPage, WriteChunk, Close, Arrive;
    if Elsewhere(a, batch) {
      OtherStepAlong(n, s, setup, batch, a);
    } else {
      match a
      case ContextAction(b) =>
        if ReadContext(n, b).Ok? {
          ContextAlong(n, s, setup, b);
        }
      case ReadAction(b) =>
        if ReadPage(n, setup, b).Ok? {
          ReadAlong(n, s, setup, b);
        }
      case WriteAction(b) =>
        if WriteChunk(n, setup, b).Ok? {
          WriteAlong(n, s, setup, b);
        } else {
          StopAlong(n, s, setup, b);
        }
      case FinishAction(b) =>
        if Close(n, b, Classified).Ok? {
          CloseAlong(n, s, setup, b, Classified);
        }
      case FailAction(b) =>
        if Close(n, b, Failed).Ok? {
          CloseAlong(n, s, setup, b, Failed);
        }
      case CrashAction(b) => StopAlong(n, s, setup, b);
      case OpenAction(b) => RunIsThere(n, s, setup, b);
      case _ =>
    }
  }

  lemma StopAlong(n: State, s: State, setup: Setup, batch: string)
    requires Along(n, s, setup, batch)
    ensures Along(n.(workers := n.workers - {batch}), s, setup, batch)
  {
    hide Queue, Own, HasLive, WrittenBy, AnsweredAlike;
  }

  lemma {:induction false} RunAlong(n: State, s: State, setup: Setup, batch: string, actions: seq<Action>)
    requires Inv(s) && Inv(n) && Along(n, s, setup, batch)
    requires forall a :: a in actions ==> Unreviewing(a, batch)
    ensures Inv(Continue(n, setup, actions)) && Along(Continue(n, setup, actions), s, setup, batch)
  {
    hide Inv, Along, Step;
    if actions != [] {
      var before, a := actions[..|actions| - 1], actions[|actions| - 1];
      assert a in actions;
      RunAlong(n, s, setup, batch, before);
      StepKeeps(Continue(n, setup, before), setup, a);
      StepAlong(Continue(n, setup, before), s, setup, batch, a);
    }
  }

  // ---- How it ends ------------------------------------------------------------------------------

  /** The run has answered its whole queue: its classifications are the engine's answers to
    * it, in order and once each; its counters add up to it, and what it counted for review
    * is what remains unanswered. */
  ghost predicate Completed(n: State, s: State, setup: Setup, batch: string) {
    var rows := Queue(s, batch);
    var own := Answers(rows, setup, s.vendors, batch);
    && batch in n.runs
    && var run := n.runs[batch];
    && run.answered == rows
    && WrittenBy(n.classifications, ByRun(batch)) == own
    && run.classified == |own| && run.classified + run.review == |rows|
    && |Queue(n, batch)| == run.review
    && var size := if setup.chunk == 0 then 5000 else setup.chunk;
    run.chunks == (|rows| + size - 1) / size
  }

  /** Whatever else happens but review and further rows of the batch, whatever the size of a
    * chunk: a run that ends has answered its whole queue. */
  lemma UnreviewedRun(s: State, setup: Setup, batch: string, actions: seq<Action>)
    requires Inv(s) && batch !in s.runs && forall a :: a in actions ==> Unreviewing(a, batch)
    ensures
      var n := Continue(Step(s, setup, OpenAction(batch)), setup, actions);
      && batch in n.runs
      && (n.runs[batch].status.Classified? ==> Completed(n, s, setup, batch))
  {
    hide Inv, Along, Completed;
    OpensAlong(s, setup, batch);
    OpenKeeps(s, batch);
    var n := Continue(Step(s, setup, OpenAction(batch)), setup, actions);
    RunAlong(Step(s, setup, OpenAction(batch)), s, setup, batch, actions);
    RunIsThere(n, s, setup, batch);
    if n.runs[batch].status.Classified? {
      EndsCompleted(n, s, setup, batch);
    }
  }

  lemma EndsCompleted(n: State, s: State, setup: Setup, batch: string)
    requires Inv(s) && Inv(n) && Along(n, s, setup, batch)
    requires n.runs[batch].status.Classified?
    ensures Completed(n, s, setup, batch)
  {
    hide Inv, Queue, HasLive, WrittenBy, Answers, AnsweredAlike;
    var rows := Queue(s, batch);
    assert rows[..|rows|] == rows;
    AllInChunks(|rows|, n.runs[batch].chunks, ChunkSize(setup));
    RunIsKept(n, batch);
    RowsAreKept(s);
    RowsAreKept(n);
    ReviewRemains(n, s, setup, batch);
  }

  lemma RunIsKept(n: State, batch: string)
    requires Inv(n) && batch in n.runs
    ensures
      var run := n.runs[batch];
      run.classified == CountBy(n.classifications, ByRun(batch)) && run.classified + run.review == |run.answered|
  {
    hide LogKept, DecisionsKept, VendorsKept, CoverageKept, TxnsKept;
    assert RunKept(n, batch);
  }

  /** What the run leaves unanswered is exactly what it counted for review. */
  lemma ReviewRemains(n: State, s: State, setup: Setup, batch: string)
    requires TxnsKept(s) && TxnsKept(n) && SameRows(n, s, batch)
    requires
      var own := Answers(Queue(s, batch), setup, s.vendors, batch);
      AnsweredAlike(n.classifications, s.classifications + own, s, batch)
    ensures |Queue(n, batch)| == |Queue(s, batch)| - |Answers(Queue(s, batch), setup, s.vendors, batch)|
  {
    hide TxnsKept, Queue, HasLive, Ascending, Answers, Refused, DistinctIds;
    var rows := Queue(s, batch);
    QueueFacts(s, batch);
    QueueFacts(n, batch);
    var left := Refused(rows, setup, s.vendors);
    RefusedFacts(rows, setup, s.vendors, batch);
    forall t
      ensures t in Queue(n, batch) <==> t in left
    {
      LiveInEither(s.classifications, Answers(rows, setup, s.vendors, batch), t.id);
      if t in rows {
        AnsweredIfOffered(rows, setup, s.vendors, batch, t);
      }
    }
    AscendingIsUnique(Queue(n, batch), left);
  }

  /** The rows the engine does not answer. */
  function Refused(rows: seq<Txn>, setup: Setup, memory: map<string, string>): seq<Txn> {
    if rows == [] then []
    else
      var t := rows[|rows| - 1];
      Refused(rows[..|rows| - 1], setup, memory) + if setup.engine(t, memory).None? then [t] else []
  }

  lemma {:induction false} RefusedFacts(rows: seq<Txn>, setup: Setup, memory: map<string, string>, batch: string)
    requires Ascending(rows)
    ensures
      var left := Refused(rows, setup, memory);
      && Ascending(left)
      && (forall t :: t in left <==> t in rows && setup.engine(t, memory).None?)
      && |left| == |rows| - |Answers(rows, setup, memory, batch)|
  {
    hide Before;
    if rows != [] {
      var before, last := rows[..|rows| - 1], rows[|rows| - 1];
      RefusedFacts(before, setup, memory, batch);
      var left := Refused(before, setup, memory);
      assert left + [] == left;
      hide Ascending;
      assert rows == before + [last];
      LastIsGreatest(before, last);
      AppendsInOrder(left, last);
    }
  }

  lemma LastIsGreatest(before: seq<Txn>, last: Txn)
    requires Ascending(before + [last])
    ensures forall x :: x in before ==> Before(x, last)
  {
    hide Before;
    var all := before + [last];
    forall x | x in before
      ensures Before(x, last)
    {
      var i :| 0 <= i < |before| && before[i] == x;
      assert all[i] == x && all[|before|] == last;
    }
  }

  lemma AppendsInOrder(rows: seq<Txn>, t: Txn)
    requires Ascending(rows) && forall x :: x in rows ==> Before(x, t)
    ensures Ascending(rows + [t])
  {
    hide Before;
  }

  /** The size of a chunk shows nowhere: two runs of one batch from one state, each with its
    * own chunk size and its own interleaving, end with the same answers and counters. */
  lemma ChunkingIsInvisible(s: State, setup: Setup, size: nat, batch: string, actions: seq<Action>, others: seq<Action>)
    requires Inv(s) && batch !in s.runs
    requires forall a :: a in actions + others ==> Unreviewing(a, batch)
    ensures
      var other := setup.(chunk := size);
      var n := Continue(Step(s, setup, OpenAction(batch)), setup, actions);
      var m := Continue(Step(s, other, OpenAction(batch)), other, others);
      && batch in n.runs && batch in m.runs
      && (n.runs[batch].status.Classified? && m.runs[batch].status.Classified? ==>
            && WrittenBy(n.classifications, ByRun(batch)) == WrittenBy(m.classifications, ByRun(batch))
            && n.runs[batch].classified == m.runs[batch].classified
            && n.runs[batch].review == m.runs[batch].review)
  {
    hide Inv, Queue, WrittenBy, Step, Answers;
    assert forall a :: a in actions ==> a in actions + others;
    assert forall a :: a in others ==> a in actions + others;
    UnreviewedRun(s, setup, batch, actions);
    UnreviewedRun(s, setup.(chunk := size), batch, others);
    SameEngine(Queue(s, batch), setup, size, s.vendors, batch);
  }

  lemma {:induction false} SameEngine(rows: seq<Txn>, setup: Setup, size: nat, memory: map<string, string>,
                                      batch: string)
    ensures Answers(rows, setup.(chunk := size), memory, batch) == Answers(rows, setup, memory, batch)
  {
    if rows != [] {
      SameEngine(rows[..|rows| - 1], setup, size, memory, batch);
    }
  }

  // ---- Nothing stands in its way ---------------------------------------------------------------

  /** While nobody reviews, no chunk of the run collides: the page in hand commits. */
  lemma ChunkCommits(n: State, s: State, setup: Setup, batch: string)
    requires Inv(s) && Inv(n) && Along(n, s, setup, batch)
    requires batch in n.workers && n.workers[batch].page.Some? && n.workers[batch].page.value != []
    ensures WriteChunk(n, setup, batch).Ok?
  {
    hide Inv, Queue, HasLive, WrittenBy, Own, WriteChunk, Step;
    RowsAreKept(s);
    var rows, k := Queue(s, batch), |n.runs[batch].answered|;
    var page, memory := n.workers[batch].page.value, n.workers[batch].memory.value;
    forall t | t in page
      ensures !HasLive(n.classifications, t.id)
    {
      QueueFacts(s, batch);
      var j :| 0 <= j < |page| && page[j] == t;
      assert rows[k + j] == t;
      InTail(rows, k, k + j);
      StillUnanswered(s, setup, batch, k, t);
    }
    WriteStops(n, setup, batch);
  }

  /** And a page that comes back empty ends the run. */
  lemma EmptyPageCloses(n: State, s: State, setup: Setup, batch: string)
    requires Inv(n) && Along(n, s, setup, batch)
    requires batch in n.workers && n.workers[batch].page == Some([])
    ensures Close(n, batch, Classified).Ok?
  {
    hide Inv, Along;
    JobIsRunning(n, batch);
  }
}
