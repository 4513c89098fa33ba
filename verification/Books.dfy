/** Classifications under concurrent writers. A chunked run reads pages outside its write
  * transaction and commits chunk by chunk; people resolve and undo whole counterparties in
  * between. Every transaction of the database is one step, and a constraint that fails at
  * commit leaves the step without effect. */
module Books {
  import opened Wrappers

  datatype Txn = Txn(id: nat, entity: string, batch: string, key: string, day: int, amount: int)

  datatype Outcome = Categorised | InternalTransfer | NonPnl | Skipped

  /** Who wrote a classification: a person, in the decision they took, or a batch's run. */
  datatype Author = ByHuman(decision: nat) | ByRun(batch: string)

  /** A row of the append-only table. `live`: neither superseded nor retracted. */
  datatype Classification = Classification(txn: nat, category: string, author: Author, live: bool)

  datatype Decision = Decision(
    key: string, outcome: Outcome, category: Option<string>, coveredCount: nat, coveredMinor: int, undone: bool)

  datatype Status = Running | Classified | Failed

  /** A batch's run. `answered` is the rows of its committed chunks; its last is the cursor. */
  datatype Run = Run(status: Status, chunks: nat, classified: nat, review: nat, answered: seq<Txn>)

  /** A job at work on a run: the vendor memory, once it has read it, and the page in hand. */
  datatype Worker = Worker(memory: Option<map<string, string>>, page: Option<seq<Txn>>)

  datatype State = State(
    txns: seq<Txn>, classifications: seq<Classification>, decisions: seq<Decision>, vendors: map<string, string>,
    runs: map<string, Run>, workers: map<string, Worker>)

  /** What does not change: the engine, the categories that exist, and the page size. */
  datatype Setup = Setup(engine: (Txn, map<string, string>) -> Option<string>, categories: set<string>, chunk: nat)

  datatype Error =
    | EmptyGroup | CategoryRequired | CategoryRefused | UnknownCategory | AlreadyDecided | NoSuchDecision
    | AlreadyUndone | AlreadyOpen | NotAtWork | TwoLive

  const OUT_OF_PNL := "09"

  // ---- The ledger's order, and who has an answer ------------------------------------------

  /** (a.booked_on, a.id) < (b.booked_on, b.id) */
  predicate Before(a: Txn, b: Txn) {
    a.day < b.day || (a.day == b.day && a.id < b.id)
  }

  ghost predicate Ascending(rows: seq<Txn>) {
    forall i, j :: 0 <= i < j < |rows| ==> Before(rows[i], rows[j])
  }

  predicate HasLive(log: seq<Classification>, id: nat) {
    exists k :: 0 <= k < |log| && log[k].live && log[k].txn == id
  }

  /** classifications_one_live_per_transaction */
  predicate OneLive(log: seq<Classification>) {
    forall i, j :: 0 <= i < j < |log| && log[i].live && log[j].live ==> log[i].txn != log[j].txn
  }

  /** A transaction's counterparty key. */
  ghost predicate HasKey(s: State, id: nat, key: string) {
    exists t :: t in s.txns && t.id == id && t.key == key
  }

  /** A transaction's batch. */
  ghost predicate HasBatch(s: State, id: nat, batch: string) {
    exists t :: t in s.txns && t.id == id && t.batch == batch
  }

  function Eligible(rows: seq<Txn>, log: seq<Classification>, keep: Txn -> bool): (r: seq<Txn>)
    ensures |r| <= |rows|
    ensures forall t :: t in r <==> t in rows && keep(t) && !HasLive(log, t.id)
  {
    if rows == [] then []
    else
      var t := rows[|rows| - 1];
      Eligible(rows[..|rows| - 1], log, keep) + if keep(t) && !HasLive(log, t.id) then [t] else []
  }

  // ---- Resolve ----------------------------------------------------------------------------

  /** ReviewGroupRows: an entity's unanswered rows of one counterparty. */
  function GroupRows(s: State, entity: string, key: string): seq<Txn> {
    Eligible(s.txns, s.classifications, (t: Txn) => t.entity == entity && t.key == key)
  }

  function Written(rows: seq<Txn>, category: string, author: Author): (log: seq<Classification>)
    ensures |log| == |rows|
    ensures forall k :: 0 <= k < |rows| ==> log[k] == Classification(rows[k].id, category, author, true)
  {
    seq(|rows|, k requires 0 <= k < |rows| => Classification(rows[k].id, category, author, true))
  }

  function Coverage(rows: seq<Txn>): int {
    if rows == [] then 0 else Coverage(rows[..|rows| - 1]) + rows[|rows| - 1].amount
  }

  /** review_decisions_one_live_idx */
  predicate HasLiveDecision(decisions: seq<Decision>, key: string) {
    exists d :: 0 <= d < |decisions| && decisions[d].key == key && !decisions[d].undone
  }

  function Resolve(s: State, setup: Setup, entity: string, key: string, outcome: Outcome,
                   category: string): Result<State, Error> {
    var rows := GroupRows(s, entity, key);
    var code := if outcome.Categorised? then category else OUT_OF_PNL;
    if outcome.Categorised? && category == "" then Err(CategoryRequired)
    else if !outcome.Categorised? && category != "" then Err(CategoryRefused)
    else if rows == [] then Err(EmptyGroup)
    else if !outcome.Skipped? && code !in setup.categories then Err(UnknownCategory)
    else if HasLiveDecision(s.decisions, key) then Err(AlreadyDecided)
    else
      var decided := if outcome.Categorised? then Some(code) else None;
      var decision := Decision(key, outcome, decided, |rows|, Coverage(rows), false);
      var log := if outcome.Skipped? then [] else Written(rows, code, ByHuman(|s.decisions|));
      Ok(s.(
         vendors := if outcome.Categorised? then s.vendors[key := code] else s.vendors,
         classifications := s.classifications + log,
         decisions := s.decisions + [decision]))
  }

  // ---- Undo -------------------------------------------------------------------------------

  /** LiveClassificationsForCounterparty: transactions of the key a person's answer is live on. */
  function HumanAnswered(s: State, key: string): set<nat> {
    set t | t in s.txns && t.key == key && HumanLive(s.classifications, t.id) :: t.id
  }

  predicate HumanLive(log: seq<Classification>, id: nat) {
    exists k :: 0 <= k < |log| && log[k].live && log[k].txn == id && log[k].author.ByHuman?
  }

  /** RetractClassificationsOfTransactions */
  function Retracted(log: seq<Classification>, ids: set<nat>): (r: seq<Classification>)
    ensures |r| == |log|
    ensures forall k :: 0 <= k < |log| ==>
                          r[k] == if log[k].txn in ids then log[k].(live := false) else log[k]
  {
    seq(|log|, k requires 0 <= k < |log| => if log[k].txn in ids then log[k].(live := false) else log[k])
  }

  function Undo(s: State, d: nat): Result<State, Error> {
    if d >= |s.decisions| then Err(NoSuchDecision)
    else if s.decisions[d].undone then Err(AlreadyUndone)
    else
      var decision := s.decisions[d];
      Ok(s.(
         classifications := Retracted(s.classifications, HumanAnswered(s, decision.key)),
         vendors := if decision.outcome.Categorised? then s.vendors - {decision.key} else s.vendors,
         decisions := s.decisions[d := decision.(undone := true)]))
  }

  // ---- A run ------------------------------------------------------------------------------

  function Open(s: State, batch: string): Result<State, Error> {
    if batch in s.runs then Err(AlreadyOpen)
    else
      Ok(s.(
         runs := s.runs[batch := Run(Running, 0, 0, 0, [])],
         workers := s.workers[batch := Worker(None, None)]))
  }

  /** requestContext: what the engine reasons with, read once, in a transaction of its own. */
  function ReadContext(s: State, batch: string): Result<State, Error> {
    if batch !in s.workers || s.workers[batch].memory.Some? then Err(NotAtWork)
    else Ok(s.(workers := s.workers[batch := s.workers[batch].(memory := Some(s.vendors))]))
  }

  predicate PastCursor(run: Run, t: Txn) {
    run.answered == [] || Before(run.answered[|run.answered| - 1], t)
  }

  /** UnclassifiedTransactions: a batch's rows with no live classification, past the cursor. */
  function Unanswered(s: State, batch: string, run: Run): seq<Txn> {
    Eligible(s.txns, s.classifications, (t: Txn) => t.batch == batch && PastCursor(run, t))
  }

  /** 5000 where no size is set. */
  function ChunkSize(setup: Setup): (n: nat)
    ensures n > 0
  {
    if setup.chunk == 0 then 5000 else setup.chunk
  }

  function Page(s: State, setup: Setup, batch: string, run: Run): seq<Txn> {
    var rows := Unanswered(s, batch, run);
    if |rows| <= ChunkSize(setup) then rows else rows[..ChunkSize(setup)]
  }

  function ReadPage(s: State, setup: Setup, batch: string): Result<State, Error> {
    if batch !in s.workers || batch !in s.runs then Err(NotAtWork)
    else if s.workers[batch].memory.None? || s.workers[batch].page.Some? then Err(NotAtWork)
    else
      Ok(s.(workers := s.workers[batch := s.workers[batch].(page := Some(Page(s, setup, batch, s.runs[batch])))]))
  }

  /** The rows a response becomes: one for each transaction the engine answers. */
  function Answers(page: seq<Txn>, setup: Setup, memory: map<string, string>, batch: string): (log: seq<Classification>)
    ensures |log| <= |page|
  {
    if page == [] then []
    else
      var t := page[|page| - 1];
      Answers(page[..|page| - 1], setup, memory, batch)
      + match setup.engine(t, memory) case None => [] case Some(category) => [Classification(t.id, category,
                                                                                             ByRun(batch), true)]
  }

  /** One chunk, its classifications and its counters together; a row somebody answered
    * since the page was read makes two live, and the chunk does not commit. */
  function WriteChunk(s: State, setup: Setup, batch: string): Result<State, Error> {
    if batch !in s.workers || batch !in s.runs || s.runs[batch].status != Running then Err(NotAtWork)
    else if s.workers[batch].memory.None? || s.workers[batch].page.None? then Err(NotAtWork)
    else
      var worker, run := s.workers[batch], s.runs[batch];
      var page := worker.page.value;
      var log := Answers(page, setup, worker.memory.value, batch);
      if page == [] then Err(NotAtWork)
      else if !OneLive(s.classifications + log) then Err(TwoLive)
      else
        Ok(s.(
           classifications := s.classifications + log,
           runs := s.runs[batch := Run(Running, run.chunks + 1, run.classified + |log|, run.review
                                       + (|page| - |log|), run.answered + page)],
           workers := s.workers[batch := worker.(page := None)]))
  }

  /** The last page was empty and the run is over, or a refusal ended it early. */
  function Close(s: State, batch: string, status: Status): Result<State, Error> {
    if batch !in s.workers || batch !in s.runs || s.runs[batch].status != Running then Err(NotAtWork)
    else if status.Classified? && s.workers[batch].page != Some([]) then Err(NotAtWork)
    else
      Ok(s.(runs := s.runs[batch := s.runs[batch].(status := status)], workers := s.workers - {batch}))
  }

  // ---- Steps ------------------------------------------------------------------------------

  datatype Action =
    | ArriveAction(txn: Txn)
    | ResolveAction(entity: string, key: string, outcome: Outcome, category: string)
    | UndoAction(decision: nat)
    | OpenAction(batch: string)
    | ContextAction(batch: string)
    | ReadAction(batch: string)
    | WriteAction(batch: string)
    | FinishAction(batch: string)
    | FailAction(batch: string)
    | CrashAction(batch: string)

  function Inserted(rows: seq<Txn>, t: Txn): (r: seq<Txn>)
    ensures forall x :: x in r <==> x in rows || x == t
  {
    if rows == [] || Before(rows[|rows| - 1], t) then rows + [t]
    else
      var r := Inserted(rows[..|rows| - 1], t) + [rows[|rows| - 1]];
      assert rows == rows[..|rows| - 1] + [rows[|rows| - 1]];
      r
  }

  /** A row is imported; its id is new. */
  function Arrive(s: State, t: Txn): State {
    if exists x :: x in s.txns && x.id == t.id then s else s.(txns := Inserted(s.txns, t))
  }

  function OrElse(r: Result<State, Error>, s: State): State {
    if r.Ok? then r.value else s
  }

  /** One committed transaction. A chunk that cannot commit ends its job and leaves the
    * run as it is, as any other error does; the job tried again stops at Open. */
  function Step(s: State, setup: Setup, a: Action): State {
    match a
    case ArriveAction(t) => Arrive(s, t)
    case ResolveAction(entity, key, outcome, category) => OrElse(Resolve(s, setup, entity, key, outcome, category), s)
    case UndoAction(d) => OrElse(Undo(s, d), s)
    case OpenAction(batch) => OrElse(Open(s, batch), s)
    case ContextAction(batch) => OrElse(ReadContext(s, batch), s)
    case ReadAction(batch) => OrElse(ReadPage(s, setup, batch), s)
    case WriteAction(batch) =>
      var r := WriteChunk(s, setup, batch);
      if r == Err(TwoLive) then s.(workers := s.workers - {batch}) else OrElse(r, s)
    case FinishAction(batch) => OrElse(Close(s, batch, Classified), s)
    case FailAction(batch) => OrElse(Close(s, batch, Failed), s)
    case CrashAction(batch) => s.(workers := s.workers - {batch})
  }

  const START: State := State([], [], [], map[], map[], map[])

  function After(setup: Setup, actions: seq<Action>): State {
    if actions == [] then START
    else Step(After(setup, actions[..|actions| - 1]), setup, actions[|actions| - 1])
  }

  /** What a state comes to by further steps. */
  function Continue(s: State, setup: Setup, actions: seq<Action>): State {
    if actions == [] then s else Step(Continue(s, setup, actions[..|actions| - 1]), setup, actions[|actions| - 1])
  }

  // ---- The invariant ----------------------------------------------------------------------

  ghost predicate TxnsKept(s: State) {
    && Ascending(s.txns)
    && (forall i, j :: 0 <= i < j < |s.txns| ==> s.txns[i].id != s.txns[j].id)
  }

  /** What a decision classified its rows as. */
  function Meaning(d: Decision): string {
    if d.category.Some? then d.category.value else OUT_OF_PNL
  }

  /** A person's answer was written by a decision that is about the row's counterparty,
    * and is live exactly while that decision is. */
  ghost predicate HumanAnswerKept(s: State, c: Classification)
    requires c.author.ByHuman?
  {
    var d := c.author.decision;
    && d < |s.decisions| && !s.decisions[d].outcome.Skipped?
    && HasKey(s, c.txn, s.decisions[d].key)
    && c.category == Meaning(s.decisions[d])
    && (c.live <==> !s.decisions[d].undone)
  }

  /** A run's answer is to a row of its batch, and live for good: undoing retracts people's
    * answers only. */
  ghost predicate RunAnswerKept(s: State, c: Classification)
    requires c.author.ByRun?
  {
    c.author.batch in s.runs && c.live && HasBatch(s, c.txn, c.author.batch)
  }

  ghost predicate LogKept(s: State) {
    && OneLive(s.classifications)
    && (forall k :: 0 <= k < |s.classifications| && s.classifications[k].author.ByHuman? ==>
                      HumanAnswerKept(s, s.classifications[k]))
    && (forall k :: 0 <= k < |s.classifications| && s.classifications[k].author.ByRun? ==>
                      RunAnswerKept(s, s.classifications[k]))
  }

  /** One live decision per counterparty; a category exactly when it categorises. */
  ghost predicate DecisionsKept(s: State) {
    && (forall d, e :: 0 <= d < e < |s.decisions| && !s.decisions[d].undone && !s.decisions[e].undone ==>
                         s.decisions[d].key != s.decisions[e].key)
    && (forall d :: 0 <= d < |s.decisions| ==> (s.decisions[d].category.Some? <==> s.decisions[d].outcome.Categorised?))
  }

  predicate Remembers(d: Decision, key: string) {
    d.key == key && !d.undone && d.outcome.Categorised?
  }

  /** Memory is exactly the live categorisations. */
  ghost predicate VendorsKept(s: State) {
    && (forall d :: 0 <= d < |s.decisions| && Remembers(s.decisions[d], s.decisions[d].key) ==>
                      s.decisions[d].key in s.vendors && s.vendors[s.decisions[d].key] == Meaning(s.decisions[d]))
    && (forall key :: key in s.vendors ==> exists d :: 0 <= d < |s.decisions| && Remembers(s.decisions[d], key))
  }

  function CountBy(log: seq<Classification>, author: Author): nat {
    if log == [] then 0
    else CountBy(log[..|log| - 1], author) + if log[|log| - 1].author == author then 1 else 0
  }

  /** A decision wrote one classification for each row it says it covered. */
  ghost predicate CoverageKept(s: State) {
    forall d :: 0 <= d < |s.decisions| ==>
                  CountBy(s.classifications, ByHuman(d)) == if s.decisions[d].outcome.Skipped? then 0
                  else s.decisions[d].coveredCount
  }

  ghost predicate OfBatch(s: State, rows: seq<Txn>, batch: string) {
    forall t :: t in rows ==> t.batch == batch && t in s.txns
  }

  /** A run's counters: what it wrote, and what it left to people; its rows, once each. */
  ghost predicate RunKept(s: State, batch: string)
    requires batch in s.runs
  {
    var run := s.runs[batch];
    && run.classified == CountBy(s.classifications, ByRun(batch))
    && run.classified + run.review == |run.answered| && run.chunks <= |run.answered|
    && Ascending(run.answered) && OfBatch(s, run.answered, batch)
  }

  ghost predicate WorkerKept(s: State, batch: string)
    requires batch in s.workers
  {
    && batch in s.runs && s.runs[batch].status.Running?
    && (s.workers[batch].page.Some? ==>
          && var page := s.workers[batch].page.value;
          && Ascending(page) && OfBatch(s, page, batch)
          && (forall t :: t in page ==> PastCursor(s.runs[batch], t)))
  }

  ghost predicate RunsKept(s: State) {
    && (forall batch :: batch in s.runs ==> RunKept(s, batch))
    && (forall batch :: batch in s.workers ==> WorkerKept(s, batch))
  }

  ghost predicate Inv(s: State) {
    TxnsKept(s) && LogKept(s) && DecisionsKept(s) && VendorsKept(s) && CoverageKept(s) && RunsKept(s)
  }

  // ---- Counting ---------------------------------------------------------------------------

  lemma {:induction false} CountAppend(a: seq<Classification>, b: seq<Classification>, author: Author)
    ensures CountBy(a + b, author) == CountBy(a, author) + CountBy(b, author)
  {
    if b == [] {
      assert a + b == a;
    } else {
      assert (a + b)[..|a + b| - 1] == a + b[..|b| - 1];
      CountAppend(a, b[..|b| - 1], author);
    }
  }

  lemma {:induction false} CountAll(log: seq<Classification>, author: Author)
    requires forall k :: 0 <= k < |log| ==> log[k].author == author
    ensures CountBy(log, author) == |log|
  {
    if log != [] {
      CountAll(log[..|log| - 1], author);
    }
  }

  lemma {:induction false} CountNone(log: seq<Classification>, author: Author)
    requires forall k :: 0 <= k < |log| ==> log[k].author != author
    ensures CountBy(log, author) == 0
  {
    if log != [] {
      CountNone(log[..|log| - 1], author);
    }
  }

  lemma {:induction false} CountSameAuthors(a: seq<Classification>, b: seq<Classification>, author: Author)
    requires |a| == |b| && forall k :: 0 <= k < |a| ==> a[k].author == b[k].author
    ensures CountBy(a, author) == CountBy(b, author)
  {
    if a != [] {
      CountSameAuthors(a[..|a| - 1], b[..|b| - 1], author);
    }
  }
}
