/** The books as the service and the worker keep them: tables updated in place, one
  * database transaction at a time, each committed whole or rolled back whole. */
module BookService {
  import opened Wrappers
  import opened Books
  import opened BookDecisions
  import opened BookRuns
  import BookLaws
  import opened RunLaws
  import opened UnreviewedRuns
  import opened RunsApart

  class Service {
    const setup: Setup
    var txns: seq<Txn>
    var classifications: seq<Classification>
    var decisions: seq<Decision>
    var vendors: map<string, string>
    var runs: map<string, Run>
    var workers: map<string, Worker>

    function Tables(): State
      reads this
    {
      State(txns, classifications, decisions, vendors, runs, workers)
    }

    constructor (setup: Setup)
      ensures this.setup == setup && Tables() == START && Inv(Tables())
    {
      this.setup := setup;
      txns, classifications, decisions, vendors, runs, workers := [], [], [], map[], map[], map[];
    }

    /** Four writes in one transaction: memory, classifications, the decision; a second
      * live decision on the counterparty is refused last, and takes the others with it. */
    method Resolve(entity: string, key: string, outcome: Outcome, category: string) returns (r: Result<Decision, Error>)
      requires Inv(Tables())
      modifies this
      ensures Inv(Tables())
      ensures
        match Books.Resolve(old(Tables()), setup, entity, key, outcome, category)
        case Err(e) => r == Err(e) && Tables() == old(Tables())
        case Ok(n) => Tables() == n && r == Ok(n.decisions[|n.decisions| - 1])
    {
      hide Inv, HasLiveDecision, Coverage, GroupRows, Written;
      ghost var s := Tables();
      var vendorsBefore, classificationsBefore := vendors, classifications;
      if Books.Resolve(s, setup, entity, key, outcome, category).Ok? {
        ResolveKeeps(s, setup, entity, key, outcome, category);
      }
      if outcome.Categorised? && category == "" {
        return Err(CategoryRequired);
      }
      if !outcome.Categorised? && category != "" {
        return Err(CategoryRefused);
      }
      var rows := GroupRows(Tables(), entity, key);
      if rows == [] {
        return Err(EmptyGroup);
      }
      var code := if outcome.Categorised? then category else OUT_OF_PNL;
      if !outcome.Skipped? {
        if code !in setup.categories {
          return Err(UnknownCategory);
        }
        if outcome.Categorised? {
          vendors := vendors[key := code];
        }
        InsertAll(rows, code, ByHuman(|decisions|));
      }
      var covered := SumCovered(rows);
      var decision := Decision(key, outcome, if outcome.Categorised? then Some(code) else None, |rows|, covered, false);
      var taken := FindLiveDecision(key);
      if taken {
        vendors, classifications := vendorsBefore, classificationsBefore;
        return Err(AlreadyDecided);
      }
      decisions := decisions + [decision];
      assert outcome.Skipped? ==> s.classifications + [] == s.classifications;
      return Ok(decision);
    }

    method InsertAll(rows: seq<Txn>, code: string, author: Author)
      modifies this`classifications
      ensures classifications == old(classifications) + Written(rows, code, author)
    {
      ghost var log := classifications;
      for k := 0 to |rows|
        invariant classifications == log + Written(rows, code, author)[..k]
      {
        classifications := classifications + [Classification(rows[k].id, code, author, true)];
      }
      assert Written(rows, code, author)[..|rows|] == Written(rows, code, author);
    }

    /** The answers to a page, and how many there are. */
    method InsertAnswers(page: seq<Txn>, memory: map<string, string>, batch: string) returns (written: nat)
      modifies this`classifications
      ensures classifications == old(classifications) + Answers(page, setup, memory, batch)
      ensures written == |Answers(page, setup, memory, batch)|
    {
      ghost var log := classifications;
      written := 0;
      for k := 0 to |page|
        invariant classifications == log + Answers(page[..k], setup, memory, batch)
        invariant written == |Answers(page[..k], setup, memory, batch)|
      {
        assert page[..k + 1][..k] == page[..k];
        var answer := setup.engine(page[k], memory);
        if answer.Some? {
          classifications := classifications + [Classification(page[k].id, answer.value, ByRun(batch), true)];
          written := written + 1;
        } else {
          assert Answers(page[..k], setup, memory, batch) + [] == Answers(page[..k], setup, memory, batch);
        }
      }
      assert page[..|page|] == page;
    }

    /** coverage */
    method SumCovered(rows: seq<Txn>) returns (total: int)
      ensures total == Coverage(rows)
    {
      total := 0;
      for k := 0 to |rows|
        invariant total == Coverage(rows[..k])
      {
        assert rows[..k + 1][..k] == rows[..k];
        total := total + rows[k].amount;
      }
      assert rows[..|rows|] == rows;
    }

    method FindLiveDecision(key: string) returns (found: bool)
      ensures found <==> HasLiveDecision(decisions, key)
    {
      found := false;
      for d := 0 to |decisions|
        invariant found <==> exists e :: 0 <= e < d && decisions[e].key == key && !decisions[e].undone
      {
        found := found || (decisions[d].key == key && !decisions[d].undone);
      }
    }

    /** What the decision wrote is retracted, its memory deleted and itself stamped, in
      * that order; a decision already stamped takes the first two back. */
    method Undo(d: nat) returns (r: Result<nat, Error>)
      requires Inv(Tables())
      modifies this
      ensures Inv(Tables())
      ensures
        match Books.Undo(old(Tables()), d)
        case Err(e) => r == Err(e) && Tables() == old(Tables())
        case Ok(n) =>
          && Tables() == n
          && r == Ok(if old(decisions)[d].outcome.Skipped? then 0 else old(decisions)[d].coveredCount)
    {
      hide Inv, HumanAnswered, Retracted, RetractedCount;
      ghost var s := Tables();
      var vendorsBefore, classificationsBefore := vendors, classifications;
      if Books.Undo(s, d).Ok? {
        UndoKeeps(s, d);
        RetractsCovered(s, d);
      }
      if d >= |decisions| {
        return Err(NoSuchDecision);
      }
      var decision := decisions[d];
      var ids := FindHumanAnswered(decision.key);
      var count := Retract(ids);
      if decision.outcome.Categorised? {
        vendors := vendors - {decision.key};
      }
      if decisions[d].undone {
        vendors, classifications := vendorsBefore, classificationsBefore;
        return Err(AlreadyUndone);
      }
      decisions := decisions[d := decision.(undone := true)];
      return Ok(count);
    }

    method FindHumanAnswered(key: string) returns (ids: set<nat>)
      ensures ids == HumanAnswered(Tables(), key)
    {
      hide HumanLive;
      ids := {};
      for k := 0 to |txns|
        invariant ids == set t | t in txns[..k] && t.key == key && HumanLive(classifications, t.id) :: t.id
      {
        assert txns[..k + 1] == txns[..k] + [txns[k]];
        if txns[k].key == key && HumanLive(classifications, txns[k].id) {
          ids := ids + {txns[k].id};
        }
      }
      assert txns[..|txns|] == txns;
    }

    method Retract(ids: set<nat>) returns (count: nat)
      modifies this`classifications
      ensures classifications == Retracted(old(classifications), ids)
      ensures count == RetractedCount(old(classifications), ids)
    {
      ghost var log := classifications;
      count := 0;
      for k := 0 to |classifications|
        invariant |classifications| == |log|
        invariant forall j :: 0 <= j < k ==>
                                classifications[j] == if log[j].txn in ids then log[j].(live := false) else log[j]
        invariant classifications[k..] == log[k..]
        invariant count == RetractedCount(log[..k], ids)
      {
        assert log[..k + 1][..k] == log[..k];
        assert classifications[k] == log[k];
        if classifications[k].live && classifications[k].txn in ids {
          classifications := classifications[k := classifications[k].(live := false)];
          count := count + 1;
        }
      }
      assert log[..|log|] == log;
    }

    method Open(batch: string) returns (r: Result<(), Error>)
      requires Inv(Tables())
      modifies this`runs, this`workers
      ensures Inv(Tables())
      ensures
        match Books.Open(old(Tables()), batch)
        case Err(e) => r == Err(e) && Tables() == old(Tables())
        case Ok(n) => r == Ok(()) && Tables() == n
    {
      hide Inv;
      if batch in runs {
        return Err(AlreadyOpen);
      }
      OpenKeeps(Tables(), batch);
      runs := runs[batch := Run(Running, 0, 0, 0, [])];
      workers := workers[batch := Worker(None, None)];
      return Ok(());
    }

    /** requestContext */
    method ReadContext(batch: string)
      requires Inv(Tables()) && batch in workers && workers[batch].memory.None?
      modifies this`workers
      ensures Inv(Tables()) && Books.ReadContext(old(Tables()), batch) == Ok(Tables())
    {
      hide Inv;
      ContextKeeps(Tables(), batch);
      workers := workers[batch := workers[batch].(memory := Some(vendors))];
    }

    method ReadPage(batch: string) returns (page: seq<Txn>)
      requires Inv(Tables()) && batch in workers && batch in runs
      requires workers[batch].memory.Some? && workers[batch].page.None?
      modifies this`workers
      ensures Inv(Tables()) && Books.ReadPage(old(Tables()), setup, batch) == Ok(Tables())
      ensures page == Page(old(Tables()), setup, batch, old(runs)[batch])
    {
      hide Inv, Books.Page;
      ReadKeeps(Tables(), setup, batch);
      page := Books.Page(Tables(), setup, batch, runs[batch]);
      workers := workers[batch := workers[batch].(page := Some(page))];
    }

    /** The page's answers and the run's counters, together or not at all. */
    method WriteChunk(batch: string) returns (r: Result<(), Error>)
      requires Inv(Tables()) && batch in workers && batch in runs && runs[batch].status == Running
      requires workers[batch].memory.Some? && workers[batch].page.Some? && workers[batch].page.value != []
      modifies this`classifications, this`runs, this`workers
      ensures Inv(Tables())
      ensures
        match Books.WriteChunk(old(Tables()), setup, batch)
        case Err(e) => r == Err(e) && Tables() == old(Tables())
        case Ok(n) => r == Ok(()) && Tables() == n
    {
      hide Inv, OneLive, Answers;
      ghost var s := Tables();
      if Books.WriteChunk(s, setup, batch).Ok? {
        WriteKeeps(s, setup, batch);
      }
      var classificationsBefore := classifications;
      var worker, run := workers[batch], runs[batch];
      var page := worker.page.value;
      var written := InsertAnswers(page, worker.memory.value, batch);
      runs := runs[batch := Run(Running, run.chunks + 1, run.classified + written, run.review
                                + (|page| - written), run.answered + page)];
      if !OneLive(classifications) {
        classifications, runs := classificationsBefore, runs[batch := run];
        assert runs == s.runs;
        return Err(TwoLive);
      }
      workers := workers[batch := worker.(page := None)];
      return Ok(());
    }

    method Finish(batch: string)
      requires Inv(Tables()) && Close(Tables(), batch, Classified).Ok?
      modifies this`runs, this`workers
      ensures Inv(Tables()) && Close(old(Tables()), batch, Classified) == Ok(Tables())
    {
      hide Inv;
      EndKeeps(Tables(), Close(Tables(), batch, Classified).value, batch, Classified);
      runs := runs[batch := runs[batch].(status := Classified)];
      workers := workers - {batch};
    }

    /** What others do between two transactions of a job. */
    method Meanwhile(actions: seq<Action>)
      modifies this
      ensures Tables() == Continue(old(Tables()), setup, actions)
    {
      hide Step;
      ghost var s := Tables();
      for k := 0 to |actions|
        invariant Tables() == Continue(s, setup, actions[..k])
      {
        assert actions[..k + 1][..k] == actions[..k];
        var n := Step(Tables(), setup, actions[k]);
        txns, classifications, decisions := n.txns, n.classifications, n.decisions;
        vendors, runs, workers := n.vendors, n.runs, n.workers;
      }
      assert actions[..|actions|] == actions;
    }

    /** Work: a batch's whole run, where the engine answers and nobody reviews; between any
      * two of its transactions others do as they please (`meanwhile`). It never collides,
      * and what it leaves is the engine's answers to the batch's queue, in order and once
      * each, with counters that say so; the rest is what the others would have left without
      * it. Chunk size shows in nothing but the count of chunks. */
    method Work(batch: string, meanwhile: nat -> seq<Action>) returns (started: bool, ghost turns: nat)
      requires Inv(Tables())
      requires forall i, a :: a in meanwhile(i) ==> Elsewhere(a, batch)
      modifies this
      ensures Inv(Tables())
      ensures started <==> batch !in old(runs)
      ensures !started ==> Tables() == old(Tables())
      ensures started ==> Completed(Tables(), old(Tables()), setup, batch) && runs[batch].status.Classified?
      ensures started ==> old(classifications) <= classifications && batch !in workers
      ensures started ==> Without(Tables(), batch) == Continue(old(Tables()), setup, Meantime(meanwhile, turns))
    {
      hide Inv, Along, Without, Completed, Meantime, Continue;
      ghost var s := Tables();
      var turn;
      started, turn := Begin(batch, meanwhile);
      if !started {
        return false, 0;
      }
      var more := true;
      while more
        invariant Inv(Tables()) && Underway(batch, s, meanwhile, turn)
        invariant workers[batch].memory.Some? && runs[batch].status.Running?
        invariant workers[batch].page == if more then None else Some([])
        decreases more, |Queue(s, batch)| - |runs[batch].answered|
      {
        AnsweredWithin(Tables(), s, setup, batch);
        more, turn := OneChunk(batch, meanwhile, turn, s);
      }
      ghost var n := Tables();
      EmptyPageCloses(n, s, setup, batch);
      CloseAlong(n, s, setup, batch, Classified);
      OwnStepApart(n, setup, batch);
      Finish(batch);
      EndsCompleted(Tables(), s, setup, batch);
      OnlyGrows(Tables(), s, setup, batch);
      return true, turn;
    }

    /** The run opened and what the engine reasons with read, unless the run was there. */
    method Begin(batch: string, meanwhile: nat -> seq<Action>) returns (started: bool, turn: nat)
      requires Inv(Tables())
      requires forall i, a :: a in meanwhile(i) ==> Elsewhere(a, batch)
      modifies this
      ensures Inv(Tables())
      ensures started <==> batch !in old(runs)
      ensures !started ==> Tables() == old(Tables())
      ensures started ==> Underway(batch, old(Tables()), meanwhile, turn)
      ensures started ==> workers[batch].memory.Some? && workers[batch].page.None? && runs[batch].status.Running?
    {
      hide Inv, Along, Without, Meantime, Continue;
      ghost var s := Tables();
      var first := Open(batch);
      if first.Err? {
        return false, 0;
      }
      OpensAlong(s, setup, batch);
      OpenApart(s, batch);
      NoTime(s, setup, meanwhile);
      turn := Others(batch, meanwhile, 0, s);
      ghost var n := Tables();
      ReadContext(batch);
      ContextAlong(n, s, setup, batch);
      OwnStepApart(n, setup, batch);
      turn := Others(batch, meanwhile, turn, s);
      return true, turn;
    }

    /** A run opened on `s` is on its way; the rest is what others have done meanwhile. */
    ghost predicate Underway(batch: string, s: State, meanwhile: nat -> seq<Action>, turn: nat)
      reads this
    {
      && Along(Tables(), s, setup, batch) && batch in runs && batch in workers
      && Without(Tables(), batch) == Continue(s, setup, Meantime(meanwhile, turn))
    }

    method Others(batch: string, meanwhile: nat -> seq<Action>, turn: nat, ghost s: State)
      returns (next: nat)
      requires Inv(Tables()) && Underway(batch, s, meanwhile, turn)
      requires forall i, a :: a in meanwhile(i) ==> Elsewhere(a, batch)
      modifies this
      ensures next == turn + 1
      ensures Inv(Tables()) && Underway(batch, s, meanwhile, next)
      ensures runs[batch] == old(runs)[batch] && workers[batch] == old(workers)[batch]
    {
      hide Inv, Along, Without, Continue;
      OthersAct(Tables(), s, setup, batch, meanwhile(turn));
      ContinueAppend(s, setup, Meantime(meanwhile, turn), meanwhile(turn));
      Meanwhile(meanwhile(turn));
      next := turn + 1;
    }

    /** One turn of the loop: a page, and its answers written, until a page is empty. */
    method OneChunk(batch: string, meanwhile: nat -> seq<Action>, turn: nat, ghost s: State)
      returns (more: bool, next: nat)
      requires Inv(Tables()) && Inv(s) && Underway(batch, s, meanwhile, turn)
      requires workers[batch].memory.Some? && workers[batch].page.None? && runs[batch].status.Running?
      requires forall i, a :: a in meanwhile(i) ==> Elsewhere(a, batch)
      modifies this
      ensures Inv(Tables()) && Underway(batch, s, meanwhile, next)
      ensures workers[batch].memory.Some? && runs[batch].status.Running?
      ensures workers[batch].page == if more then None else Some([])
      ensures more ==> |old(runs)[batch].answered| < |runs[batch].answered| <= |Queue(s, batch)|
    {
      hide Inv, Along, Without, Continue, Meantime, Answers, OneLive, Page;
      ghost var n := Tables();
      var page := ReadPage(batch);
      ReadAlong(n, s, setup, batch);
      OwnStepApart(n, setup, batch);
      next := Others(batch, meanwhile, turn, s);
      if page == [] {
        return false, next;
      }
      n := Tables();
      ChunkCommits(n, s, setup, batch);
      WriteAlong(n, s, setup, batch);
      OwnWriteApart(n, setup, batch);
      var wrote := WriteChunk(batch);
      AnsweredWithin(Tables(), s, setup, batch);
      next := Others(batch, meanwhile, next, s);
      return true, next;
    }
  }

  /** What others have done by their `turn`th turn. */
  function Meantime(meanwhile: nat -> seq<Action>, turn: nat): seq<Action> {
    if turn == 0 then [] else Meantime(meanwhile, turn - 1) + meanwhile(turn - 1)
  }

  lemma NoTime(s: State, setup: Setup, meanwhile: nat -> seq<Action>)
    ensures Continue(s, setup, Meantime(meanwhile, 0)) == s
  {
  }

  lemma {:induction false} NothingMeanwhile(meanwhile: nat -> seq<Action>, turn: nat)
    requires forall i :: meanwhile(i) == []
    ensures Meantime(meanwhile, turn) == []
  {
    if turn > 0 {
      NothingMeanwhile(meanwhile, turn - 1);
    }
  }

  lemma AnsweredWithin(n: State, s: State, setup: Setup, batch: string)
    requires Along(n, s, setup, batch)
    ensures batch in n.runs && |n.runs[batch].answered| <= |Queue(s, batch)|
  {
    hide Queue, Own, HasLive, WrittenBy, AnsweredAlike;
  }

  lemma OnlyGrows(n: State, s: State, setup: Setup, batch: string)
    requires Along(n, s, setup, batch)
    ensures s.classifications <= n.classifications
  {
    hide Queue, Own, HasLive, WrittenBy, AnsweredAlike;
  }

  /** Where nobody else does anything, this is all that changes: the run's own answers
    * behind the others', and its row. */
  lemma AloneLeaves(n: State, s: State, setup: Setup, batch: string, meanwhile: nat -> seq<Action>, turns: nat)
    requires Inv(s) && batch !in s.runs && forall i :: meanwhile(i) == []
    requires Completed(n, s, setup, batch) && n.runs[batch].status.Classified?
    requires s.classifications <= n.classifications && batch !in n.workers
    requires Without(n, batch) == Continue(s, setup, Meantime(meanwhile, turns))
    ensures
      var rows := Queue(s, batch);
      var own := Answers(rows, setup, s.vendors, batch);
      && n == s.(classifications := s.classifications + own,
              runs := s.runs[batch := Run(Classified, n.runs[batch].chunks, |own|, |rows| - |own|, rows)])
      && n.runs[batch].chunks == (|rows| + ChunkSize(setup) - 1) / ChunkSize(setup)
  {
    hide Inv, Queue, Answers, WrittenBy, Except, HasLive;
    NothingMeanwhile(meanwhile, turns);
    assert Without(n, batch) == s;
    NothingWritten(s, batch);
    OnlyOwn(n.classifications, s.classifications, ByRun(batch));
    assert n.workers == n.workers - {batch};
    assert n.runs == (n.runs - {batch})[batch := n.runs[batch]];
  }

  function RetractedCount(log: seq<Classification>, ids: set<nat>): nat {
    if log == [] then 0
    else RetractedCount(log[..|log| - 1], ids) + if log[|log| - 1].live && log[|log| - 1].txn in ids then 1 else 0
  }

  lemma RetractsCovered(s: State, d: nat)
    requires Inv(s) && d < |s.decisions| && !s.decisions[d].undone
    ensures RetractedCount(s.classifications, HumanAnswered(s, s.decisions[d].key))
         == if s.decisions[d].outcome.Skipped? then 0 else s.decisions[d].coveredCount
  {
    BookLaws.CoveredByDecision(s, d);
    forall k | 0 <= k < |s.classifications|
      ensures s.classifications[k].live && s.classifications[k].txn in HumanAnswered(s, s.decisions[d].key)
         <==> s.classifications[k].author == ByHuman(d)
    {
      AnsweredByDecision(s, d, k);
    }
    hide Inv, HumanAnswered;
    SameCount(s.classifications, HumanAnswered(s, s.decisions[d].key), ByHuman(d));
  }

  lemma {:induction false} SameCount(log: seq<Classification>, ids: set<nat>, author: Author)
    requires forall k :: 0 <= k < |log| ==> (log[k].live && log[k].txn in ids <==> log[k].author == author)
    ensures RetractedCount(log, ids) == CountBy(log, author)
  {
    if log != [] {
      SameCount(log[..|log| - 1], ids, author);
    }
  }
}
