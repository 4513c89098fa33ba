/** The engine inside a run: what a run of any chunk size leaves in the books is what one
  * request over the batch's whole queue would have answered. */
module BatchClassification {
  import opened Wrappers
  import B = Books
  import U = UnreviewedRuns
  import E = Engine

  /** The transactions of a page as the request carries them. */
  function Requested(rows: seq<B.Txn>, columns: B.Txn -> E.Txn): (txns: seq<E.Txn>)
    ensures |txns| == |rows| && forall k :: 0 <= k < |rows| ==> txns[k] == columns(rows[k])
  {
    seq(|rows|, k requires 0 <= k < |rows| => columns(rows[k]))
  }

  /** What the run makes of the engine's proposals for one transaction. */
  function Answered(proposals: seq<E.Proposal>): Option<string> {
    if proposals == [] then None else Some(proposals[0].answer.categoryCode)
  }

  /** The setup's engine is this engine: for every row it answers what the request with
    * its memory answers. */
  ghost predicate Engages(setup: B.Setup, memory: map<string, string>, req: E.BatchRequest,
                          columns: B.Txn -> E.Txn, rows: seq<B.Txn>) {
    forall t :: t in rows ==>
                  E.Proposed(columns(t), req).Ok?
                  && setup.engine(t, memory) == Answered(E.Proposed(columns(t), req).value)
  }

  /** Classifications and proposals, one for one: the same category for the same row. */
  ghost predicate Correspond(answers: seq<B.Classification>, proposals: seq<E.Proposal>, rows: seq<B.Txn>,
                             columns: B.Txn -> E.Txn) {
    && |answers| == |proposals|
    && forall k :: 0 <= k < |answers| ==> Matches(answers[k], proposals[k], rows, columns)
  }

  ghost predicate Matches(a: B.Classification, p: E.Proposal, rows: seq<B.Txn>, columns: B.Txn -> E.Txn) {
    && a.category == p.answer.categoryCode
    && exists t :: t in rows && t.id == a.txn && columns(t).id == p.transactionId
  }

  lemma OneMoreRow(answers: seq<B.Classification>, proposals: seq<E.Proposal>, before: seq<B.Txn>,
                   rows: seq<B.Txn>, columns: B.Txn -> E.Txn)
    requires Correspond(answers, proposals, before, columns) && forall t :: t in before ==> t in rows
    ensures Correspond(answers, proposals, rows, columns)
  {
  }

  lemma {:induction false} AnswersAreProposals(
    rows: seq<B.Txn>, setup: B.Setup, memory: map<string, string>, batch: string, req: E.BatchRequest,
    columns: B.Txn -> E.Txn)
    requires E.CodesKnown(req) && Engages(setup, memory, req, columns, rows)
    ensures E.Proposals(Requested(rows, columns), req).Ok?
    ensures Correspond(
              B.Answers(rows, setup, memory, batch), E.Proposals(Requested(rows, columns), req).value, rows, columns)
  {
    hide E.Proposed, E.CodesKnown, Correspond;
    if rows == [] {
      NothingCorresponds(rows, columns);
    } else {
      var before, last := rows[..|rows| - 1], rows[|rows| - 1];
      assert Requested(rows, columns)[..|rows| - 1] == Requested(before, columns);
      AnswersAreProposals(before, setup, memory, batch, req, columns);
      E.AnswerIsOffered(columns(last), req);
      assert last in rows && forall t :: t in before ==> t in rows;
      var answers, proposals := B.Answers(before, setup, memory, batch),
                                E.Proposals(Requested(before, columns), req).value;
      OneMoreRow(answers, proposals, before, rows, columns);
      LastCorresponds(answers, proposals, rows, last, E.Proposed(columns(last), req).value, setup, memory, batch,
                      columns);
    }
  }

  lemma NothingCorresponds(rows: seq<B.Txn>, columns: B.Txn -> E.Txn)
    ensures Correspond([], [], rows, columns)
  {
  }

  lemma LastCorresponds(answers: seq<B.Classification>, proposals: seq<E.Proposal>, rows: seq<B.Txn>, last: B.Txn,
                        more: seq<E.Proposal>, setup: B.Setup, memory: map<string, string>, batch: string,
                        columns: B.Txn -> E.Txn)
    requires Correspond(answers, proposals, rows, columns) && last in rows
    requires |more| <= 1 && (more != [] ==> more[0].transactionId == columns(last).id)
    requires setup.engine(last, memory) == Answered(more)
    ensures
      var added := match setup.engine(last, memory)
        case None => []
        case Some(category) => [B.Classification(last.id, category, B.ByRun(batch), true)];
      Correspond(answers + added, proposals + more, rows, columns)
  {
  }

  /** So for a whole run, whoever else imports and classifies meanwhile: once it has ended,
    * the classifications in its name are, in order, the proposals of one request over every
    * row its batch had unanswered when it opened. */
  lemma RunIsOneRequest(s: B.State, setup: B.Setup, batch: string, actions: seq<B.Action>, req: E.BatchRequest,
                        columns: B.Txn -> E.Txn)
    requires B.Inv(s) && batch !in s.runs && forall a :: a in actions ==> U.Unreviewing(a, batch)
    requires E.CodesKnown(req) && Engages(setup, s.vendors, req, columns, U.Queue(s, batch))
    ensures
      var n := B.Continue(B.Step(s, setup, B.OpenAction(batch)), setup, actions);
      var rows := U.Queue(s, batch);
      var proposals := E.Proposals(Requested(rows, columns), req);
      && batch in n.runs && proposals.Ok?
      && (n.runs[batch].status.Classified? ==>
            && Correspond(U.WrittenBy(n.classifications, B.ByRun(batch)), proposals.value, rows, columns)
            && n.runs[batch].classified == |proposals.value|
            && n.runs[batch].review == |rows| - |proposals.value| == |U.Queue(n, batch)|)
  {
    hide B.Inv, U.Queue, U.WrittenBy, B.Answers, B.Step, E.Proposals, Engages;
    U.UnreviewedRun(s, setup, batch, actions);
    AnswersAreProposals(U.Queue(s, batch), setup, s.vendors, batch, req, columns);
  }
}
