/** The import pipeline: each job's transaction as one step, run any number of times, in
  * any order, over any files. */
module ImportStatus {
  import opened Wrappers

  datatype Status =
    | AwaitingUpload | Abandoned | Uploaded | Parsing | Parsed | Validating | Validated | Rejected | Persisting
    | Imported | Failed

  datatype Failure =
    | UploadMissing | FileTooLarge | AlreadyImported | UnrecognizedFormat | PersistReparseFailed

  /** The table the stages consult. */
  function Transitions(from: Status): set<Status> {
    match from
    case AwaitingUpload => {Uploaded, Abandoned, Failed}
    case Uploaded => {Parsing, Failed}
    case Parsing => {Parsed, Failed}
    case Parsed => {Validating, Failed}
    case Validating => {Validated, Rejected, Failed}
    case Validated => {Persisting, Failed}
    case Persisting => {Imported, Failed}
    case Abandoned => {}
    case Rejected => {}
    case Imported => {}
    case Failed => {}
  }

  predicate CheckTransition(from: Status, to: Status) {
    to in Transitions(from)
  }

  predicate Terminal(status: Status) {
    Transitions(status) == {}
  }

  datatype Outcome = Valid | ValidWithWarnings | RejectedOutcome

  datatype Receipt = Receipt(outcome: Outcome, errorCount: nat, warningCount: nat)

  datatype Batch = Batch(status: Status, digest: Option<string>, failure: Option<Failure>)

  /** Batches, their receipts, and how many transactions and skips each has. */
  datatype State = State(
    batches: map<nat, Batch>, receipts: map<nat, Receipt>, transactions: map<nat, nat>, skips: map<nat, nat>)

  /** What a job finds outside the database: the object, and what parsing makes of it. */
  datatype Upload = Missing | TooLarge | File(digest: string)
  datatype Parse = Unreadable | Readable(errors: nat, warnings: nat)
  datatype Reparse = Unparsed | Rows(inserted: nat, skipped: nat)

  datatype Action =
    | Create(id: nat)
    | Measure(id: nat, upload: Upload)
    | Expire(id: nat)
    | Validate(id: nat, parse: Parse)
    | Persist(id: nat, reparse: Reparse)

  /** import_batches_file_once */
  predicate HeldByImported(s: State, digest: string) {
    exists id :: id in s.batches && s.batches[id].status == Imported && s.batches[id].digest == Some(digest)
  }

  function Fail(s: State, id: nat, failure: Failure): State
    requires id in s.batches
  {
    s.(batches := s.batches[id := s.batches[id].(status := Failed, failure := Some(failure))])
  }

  function MeasureStep(s: State, id: nat, upload: Upload): State {
    if id !in s.batches || s.batches[id].status !in {AwaitingUpload, Uploaded} then s
    else
      match upload
      case Missing => Fail(s, id, UploadMissing)
      case TooLarge => Fail(s, id, FileTooLarge)
      case File(digest) =>
        if HeldByImported(s, digest) then Fail(s, id, AlreadyImported)
        else s.(batches := s.batches[id := s.batches[id].(status := Uploaded, digest := Some(digest))])
  }

  function ExpireStep(s: State, id: nat): State {
    if id in s.batches && s.batches[id].status == AwaitingUpload
    then s.(batches := s.batches[id := s.batches[id].(status := Abandoned)])
    else s
  }

  /** decideOutcome */
  function DecideOutcome(errors: nat, warnings: nat): Outcome {
    if errors > 0 then RejectedOutcome else if warnings > 0 then ValidWithWarnings else Valid
  }

  /** One receipt for a batch; a second one takes the whole step back. */
  function ValidateStep(s: State, id: nat, parse: Parse): State {
    if id !in s.batches || s.batches[id].status != Uploaded then s
    else
      match parse
      case Unreadable => Fail(s, id, UnrecognizedFormat)
      case Readable(errors, warnings) =>
        var outcome := DecideOutcome(errors, warnings);
        var next := if outcome.RejectedOutcome? then Rejected else Validated;
        if id in s.receipts then s
        else
          s.(
          receipts := s.receipts[id := Receipt(outcome, errors, warnings)],
          batches := s.batches[id := s.batches[id].(status := next)])
  }

  function Held(m: map<nat, nat>, id: nat): nat {
    if id in m then m[id] else 0
  }

  /** Everything a batch brings in lands with its status, or not at all; the loser of a
    * race for one file is taken back and fails. */
  function PersistStep(s: State, id: nat, reparse: Reparse): State {
    if id !in s.batches || s.batches[id].status != Validated then s
    else
      match reparse
      case Unparsed => Fail(s, id, PersistReparseFailed)
      case Rows(inserted, skipped) =>
        if s.batches[id].digest.Some? && HeldByImported(s, s.batches[id].digest.value) then Fail(s, id, AlreadyImported)
        else
          s.(
          transactions := s.transactions[id := Held(s.transactions, id) + inserted],
          skips := s.skips[id := Held(s.skips, id) + skipped],
          batches := s.batches[id := s.batches[id].(status := Imported)])
  }

  function Step(s: State, a: Action): State {
    match a
    case Create(id) => if id in s.batches then s else s.(batches := s.batches[id := Batch(AwaitingUpload, None, None)])
    case Measure(id, upload) => MeasureStep(s, id, upload)
    case Expire(id) => ExpireStep(s, id)
    case Validate(id, parse) => ValidateStep(s, id, parse)
    case Persist(id, reparse) => PersistStep(s, id, reparse)
  }

  const START: State := State(map[], map[], map[], map[])

  function Continue(s: State, actions: seq<Action>): State {
    if actions == [] then s else Step(Continue(s, actions[..|actions| - 1]), actions[|actions| - 1])
  }

  // ---- Paths ------------------------------------------------------------------------------

  predicate IsPath(p: seq<Status>) {
    p != [] && forall k :: 0 < k < |p| ==> CheckTransition(p[k - 1], p[k])
  }

  ghost predicate Leads(from: Status, to: Status) {
    exists p :: IsPath(p) && p[0] == from && p[|p| - 1] == to
  }

  lemma LeadsToItself(a: Status)
    ensures Leads(a, a)
  {
    assert IsPath([a]);
  }

  lemma LeadsByEdge(a: Status, b: Status)
    requires CheckTransition(a, b)
    ensures Leads(a, b)
  {
    assert IsPath([a, b]);
  }

  lemma LeadsOnward(a: Status, b: Status, c: Status)
    requires Leads(a, b) && Leads(b, c)
    ensures Leads(a, c)
  {
    var p :| IsPath(p) && p[0] == a && p[|p| - 1] == b;
    var q :| IsPath(q) && q[0] == b && q[|q| - 1] == c;
    var r := p + q[1..];
    forall k | 0 < k < |r|
      ensures CheckTransition(r[k - 1], r[k])
    {
      if k >= |p| {
        assert r[k] == q[k - |p| + 1];
        assert r[k - 1] == q[k - |p|];
      }
    }
    assert IsPath(r) && r[|r| - 1] == c;
  }

  /** What the stages check before they write: their own legs of the path. */
  lemma StagePaths()
    ensures Leads(Uploaded, Validated) && Leads(Uploaded, Rejected) && Leads(Validated, Imported)
  {
    assert IsPath([Uploaded, Parsing, Parsed, Validating, Validated]);
    assert IsPath([Uploaded, Parsing, Parsed, Validating, Rejected]);
    assert IsPath([Validated, Persisting, Imported]);
  }

  /** Nothing leads out of a terminal state. */
  lemma TerminalAbsorbs(from: Status, to: Status)
    requires Terminal(from) && Leads(from, to)
    ensures to == from
  {
    var p :| IsPath(p) && p[0] == from && p[|p| - 1] == to;
    assert |p| > 1 ==> CheckTransition(p[0], p[1]);
  }

  /** A step leaves a batch where it is, or takes it along a path of the table. */
  lemma StepFollowsTable(s: State, a: Action, id: nat)
    requires id in s.batches
    ensures id in Step(s, a).batches
    ensures Leads(s.batches[id].status, Step(s, a).batches[id].status)
  {
    hide Leads, HeldByImported;
    var from, to := s.batches[id].status, Step(s, a).batches[id].status;
    StagePaths();
    LeadsToItself(from);
    if CheckTransition(from, to) {
      LeadsByEdge(from, to);
    }
  }

  /** Over any run a batch is only ever moved along paths of the table: between any two
    * moments, the later status lies downstream of the earlier one, and a terminal status
    * is the last. */
  lemma {:induction false} RunFollowsTable(s: State, actions: seq<Action>, id: nat)
    requires id in s.batches
    ensures id in Continue(s, actions).batches
    ensures Leads(s.batches[id].status, Continue(s, actions).batches[id].status)
    ensures Terminal(s.batches[id].status) ==> Continue(s, actions).batches[id].status == s.batches[id].status
  {
    hide Step, Leads, Terminal;
    if actions == [] {
      LeadsToItself(s.batches[id].status);
    } else {
      var before := Continue(s, actions[..|actions| - 1]);
      RunFollowsTable(s, actions[..|actions| - 1], id);
      StepFollowsTable(before, actions[|actions| - 1], id);
      LeadsOnward(s.batches[id].status, before.batches[id].status, Continue(s, actions).batches[id].status);
      if Terminal(s.batches[id].status) {
        TerminalAbsorbs(s.batches[id].status, Continue(s, actions).batches[id].status);
      }
    }
  }

  // ---- What a status says -----------------------------------------------------------------

  ghost predicate ReceiptSays(s: State, id: nat)
    requires id in s.batches
  {
    var status := s.batches[id].status;
    && (status in {AwaitingUpload, Abandoned, Uploaded} ==> id !in s.receipts)
    && (status == Rejected ==> id in s.receipts && s.receipts[id].outcome.RejectedOutcome?
                               && s.receipts[id].errorCount > 0)
    && (status in {Validated, Imported} ==>
          && id in s.receipts && !s.receipts[id].outcome.RejectedOutcome? && s.receipts[id].errorCount == 0)
    && (status in {Uploaded, Validated, Rejected, Imported} ==> s.batches[id].digest.Some?)
    && (status == Failed <==> s.batches[id].failure.Some?)
  }

  ghost predicate OnceEach(s: State, id: nat)
    requires id in s.batches
  {
    s.batches[id].status == Imported ==>
      forall other ::
        other in s.batches && other != id && s.batches[other].status == Imported ==>
          s.batches[other].digest != s.batches[id].digest
  }

  ghost predicate RowsIfImported(s: State, id: nat) {
    id in s.transactions || id in s.skips ==> id in s.batches && s.batches[id].status == Imported
  }

  ghost predicate Inv(s: State) {
    && (forall id :: id in s.batches ==> ReceiptSays(s, id) && OnceEach(s, id))
    && (forall id :: id in s.receipts ==> id in s.batches)
    && (forall id :: RowsIfImported(s, id))
  }

  /** A step that touches one batch only. */
  ghost predicate Touches(n: State, s: State, id: nat) {
    && id in n.batches && n.batches == s.batches[id := n.batches[id]]
    && n.receipts - {id} == s.receipts - {id}
    && n.transactions - {id} == s.transactions - {id} && n.skips - {id} == s.skips - {id}
  }

  lemma TouchKeeps(s: State, n: State, id: nat)
    requires Inv(s) && Touches(n, s, id)
    requires ReceiptSays(n, id) && OnceEach(n, id) && RowsIfImported(n, id)
    ensures Inv(n)
  {
    forall b | b in n.batches
      ensures ReceiptSays(n, b) && OnceEach(n, b)
    {
      if b != id {
        assert ReceiptSays(s, b) && OnceEach(s, b);
        SameReceipt(s, n, id, b);
      }
    }
    forall b: nat
      ensures RowsIfImported(n, b)
    {
      if b != id {
        assert RowsIfImported(s, b);
        assert b in n.transactions <==> b in (n.transactions - {id});
        assert b in n.skips <==> b in (n.skips - {id});
      }
    }
    forall b | b in n.receipts
      ensures b in n.batches
    {
      assert b != id ==> b in (n.receipts - {id});
    }
  }

  lemma SameReceipt(s: State, n: State, id: nat, b: nat)
    requires Touches(n, s, id) && b != id && b in s.batches && ReceiptSays(s, b)
    ensures b in n.batches && ReceiptSays(n, b)
  {
    assert b in n.receipts <==> b in (n.receipts - {id});
    assert b in s.receipts <==> b in (s.receipts - {id});
    assert b in n.receipts ==> n.receipts[b] == (n.receipts - {id})[b] == (s.receipts - {id})[b] == s.receipts[b];
  }

  lemma FailKeeps(s: State, id: nat, failure: Failure)
    requires Inv(s) && id in s.batches && !Terminal(s.batches[id].status)
    ensures Inv(Fail(s, id, failure))
  {
    assert RowsIfImported(s, id);
    TouchKeeps(s, Fail(s, id, failure), id);
  }

  lemma InvAt(s: State, id: nat)
    requires Inv(s)
    ensures id in s.batches ==> ReceiptSays(s, id) && OnceEach(s, id)
    ensures RowsIfImported(s, id)
    ensures id in s.receipts ==> id in s.batches
  {
  }

  lemma CreateKeeps(s: State, id: nat)
    requires Inv(s)
    ensures Inv(Step(s, Create(id)))
  {
    hide Inv;
    InvAt(s, id);
    if id !in s.batches {
      TouchKeeps(s, Step(s, Create(id)), id);
    }
  }

  lemma MeasureKeeps(s: State, id: nat, upload: Upload)
    requires Inv(s)
    ensures Inv(MeasureStep(s, id, upload))
  {
    hide Inv, HeldByImported;
    InvAt(s, id);
    var n := MeasureStep(s, id, upload);
    if id in s.batches && s.batches[id].status in {AwaitingUpload, Uploaded} {
      if n.batches[id].status == Failed {
        FailKeeps(s, id, n.batches[id].failure.value);
      } else {
        TouchKeeps(s, n, id);
      }
    }
  }

  lemma ExpireKeeps(s: State, id: nat)
    requires Inv(s)
    ensures Inv(ExpireStep(s, id))
  {
    hide Inv;
    InvAt(s, id);
    if id in s.batches && s.batches[id].status == AwaitingUpload {
      TouchKeeps(s, ExpireStep(s, id), id);
    }
  }

  lemma ValidateKeeps(s: State, id: nat, parse: Parse)
    requires Inv(s)
    ensures Inv(ValidateStep(s, id, parse))
  {
    hide Inv;
    InvAt(s, id);
    if id in s.batches && s.batches[id].status == Uploaded {
      if parse.Unreadable? {
        FailKeeps(s, id, UnrecognizedFormat);
      } else {
        TouchKeeps(s, ValidateStep(s, id, parse), id);
      }
    }
  }

  lemma PersistKeeps(s: State, id: nat, reparse: Reparse)
    requires Inv(s)
    ensures Inv(PersistStep(s, id, reparse))
  {
    hide Inv;
    InvAt(s, id);
    if id in s.batches && s.batches[id].status == Validated {
      if reparse.Unparsed? {
        FailKeeps(s, id, PersistReparseFailed);
      } else if HeldByImported(s, s.batches[id].digest.value) {
        FailKeeps(s, id, AlreadyImported);
      } else {
        TouchKeeps(s, PersistStep(s, id, reparse), id);
      }
    }
  }

  lemma StepKeeps(s: State, a: Action)
    requires Inv(s)
    ensures Inv(Step(s, a))
  {
    hide Inv, MeasureStep, ExpireStep, ValidateStep, PersistStep;
    match a
    case Create(id) => CreateKeeps(s, id);
    case Measure(id, upload) => MeasureKeeps(s, id, upload);
    case Expire(id) => ExpireKeeps(s, id);
    case Validate(id, parse) => ValidateKeeps(s, id, parse);
    case Persist(id, reparse) => PersistKeeps(s, id, reparse);
  }

  /** In every reachable state: only an imported batch has transactions or skips; a
    * rejected one has a correctness error on its receipt, a validated or imported one has
    * none; and no file is imported twice. */
  lemma {:induction false} ImportsAreKept(actions: seq<Action>)
    ensures Inv(Continue(START, actions))
  {
    hide Step;
    if actions == [] {
    } else {
      hide Inv;
      ImportsAreKept(actions[..|actions| - 1]);
      StepKeeps(Continue(START, actions[..|actions| - 1]), actions[|actions| - 1]);
    }
  }

  /** The same, spelled out for one batch and for two. */
  lemma ImportedMeans(actions: seq<Action>, a: nat, b: nat)
    requires a in Continue(START, actions).batches && b in Continue(START, actions).batches
    ensures
      var s := Continue(START, actions);
      && (a in s.transactions || a in s.skips ==> s.batches[a].status == Imported)
      && (s.batches[a].status == Rejected ==> a in s.receipts && s.receipts[a].errorCount > 0)
      && (s.batches[a].status == Imported ==> a in s.receipts && s.receipts[a].errorCount == 0)
      && (a != b && s.batches[a].status == Imported && s.batches[b].status == Imported ==>
            s.batches[a].digest != s.batches[b].digest)
  {
    hide Continue;
    ImportsAreKept(actions);
    InvAt(Continue(START, actions), a);
    InvAt(Continue(START, actions), b);
  }

  // ---- As the jobs write it ---------------------------------------------------------------

  class Pipeline {
    var batches: map<nat, Batch>
    var receipts: map<nat, Receipt>
    var transactions: map<nat, nat>
    var skips: map<nat, nat>

    ghost function Tables(): State
      reads this
    {
      State(batches, receipts, transactions, skips)
    }

    constructor ()
      ensures Tables() == START
    {
      batches, receipts, transactions, skips := map[], map[], map[], map[];
    }

    method SetFailed(id: nat, failure: Failure)
      requires id in batches
      modifies this`batches
      ensures Tables() == Fail(old(Tables()), id, failure)
    {
      batches := batches[id := batches[id].(status := Failed, failure := Some(failure))];
    }

    method FindImportedHolding(digest: string) returns (held: bool)
      ensures held <==> HeldByImported(Tables(), digest)
    {
      held := exists id :: id in batches && batches[id].status == Imported && batches[id].digest == Some(digest);
    }

    /** Measured once or again; an object over the limit is deleted, and no other. */
    method WorkMeasure(id: nat, upload: Upload) returns (deleteObject: bool)
      modifies this`batches
      ensures Tables() == MeasureStep(old(Tables()), id, upload)
      ensures deleteObject <==>
              upload.TooLarge? && id in old(batches) && old(batches)[id].status in {AwaitingUpload, Uploaded}
    {
      hide HeldByImported;
      if id !in batches || batches[id].status !in {AwaitingUpload, Uploaded} {
        return false;
      }
      deleteObject := upload.TooLarge?;
      match upload
      case Missing => SetFailed(id, UploadMissing);
      case TooLarge => SetFailed(id, FileTooLarge);
      case File(digest) =>
        var held := FindImportedHolding(digest);
        if held {
          SetFailed(id, AlreadyImported);
        } else {
          batches := batches[id := batches[id].(status := Uploaded, digest := Some(digest))];
        }
    }

    /** Abandoned in the statement that checks the upload never came; its object is
      * deleted only then. */
    method WorkExpire(id: nat) returns (deleteObject: bool)
      modifies this`batches
      ensures Tables() == ExpireStep(old(Tables()), id)
      ensures deleteObject <==> Tables() != old(Tables())
    {
      var abandoned := false;
      if id in batches && batches[id].status == AwaitingUpload {
        batches := batches[id := batches[id].(status := Abandoned)];
        abandoned := true;
      }
      if !abandoned {
        return false;
      }
      assert batches[id] != old(batches)[id];
      return true;
    }

    /** The receipt and the status in one transaction. */
    method WorkValidate(id: nat, parse: Parse)
      modifies this`batches, this`receipts
      ensures Tables() == ValidateStep(old(Tables()), id, parse)
    {
      if id !in batches || batches[id].status != Uploaded {
        return;
      }
      if parse.Unreadable? {
        SetFailed(id, UnrecognizedFormat);
        return;
      }
      if id in receipts {
        return;
      }
      var outcome := DecideOutcome(parse.errors, parse.warnings);
      receipts := receipts[id := Receipt(outcome, parse.errors, parse.warnings)];
      var next := Validated;
      if outcome.RejectedOutcome? {
        next := Rejected;
      }
      var legal :=
        CheckTransition(Uploaded, Parsing) && CheckTransition(Parsing, Parsed) && CheckTransition(Parsed, Validating)
        && CheckTransition(Validating, next);
      assert legal;
      batches := batches[id := batches[id].(status := next)];
    }

    method WorkPersist(id: nat, reparse: Reparse)
      modifies this
      ensures Tables() == PersistStep(old(Tables()), id, reparse)
    {
      hide HeldByImported;
      if id !in batches || batches[id].status != Validated {
        return;
      }
      if reparse.Unparsed? {
        SetFailed(id, PersistReparseFailed);
        return;
      }
      var transactionsBefore, skipsBefore := transactions, skips;
      skips := skips[id := Held(skips, id) + reparse.skipped];
      transactions := transactions[id := Held(transactions, id) + reparse.inserted];
      var digest := batches[id].digest;
      var held := false;
      if digest.Some? {
        held := FindImportedHolding(digest.value);
        HeldIsOfBatches(Tables(), old(Tables()), digest.value);
      }
      if held {
        transactions, skips := transactionsBefore, skipsBefore;
        SetFailed(id, AlreadyImported);
      } else {
        batches := batches[id := batches[id].(status := Imported)];
      }
    }
  }

  lemma HeldIsOfBatches(a: State, b: State, digest: string)
    requires a.batches == b.batches
    ensures HeldByImported(a, digest) == HeldByImported(b, digest)
  {
  }
}
