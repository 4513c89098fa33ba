/** Where the jobs move a batch, and what the tables remember of them: over any history,
  * nothing is recorded that did not happen, and every failure has its own cause. */
module ImportRecords {
  import opened Wrappers
  import opened ImportStatus

  /** The stage after each stage of the line from the upload to the import. */
  function NextStage(from: Status): Option<Status> {
    match from
    case AwaitingUpload => Some(Uploaded)
    case Uploaded => Some(Parsing)
    case Parsing => Some(Parsed)
    case Parsed => Some(Validating)
    case Validating => Some(Validated)
    case Validated => Some(Persisting)
    case Persisting => Some(Imported)
    case _ => None
  }

  /** The table by its shape: a line of stages, failure from every stage that is not the last, and
    * two ways out that are not failures. */
  lemma TableMeans(from: Status, to: Status)
    ensures CheckTransition(from, to)
       <==> || NextStage(from) == Some(to)
            || (to == Failed && NextStage(from).Some?)
            || (from == AwaitingUpload && to == Abandoned)
            || (from == Validating && to == Rejected)
  {
  }

  /** Which four statuses are final. */
  lemma FinalStatuses(status: Status)
    ensures Terminal(status) <==> status in {Abandoned, Rejected, Imported, Failed}
  {
  }

  /** Where each job takes the batch it is for; from any other status it takes it nowhere. */
  lemma JobsMove(s: State, id: nat, a: Action)
    requires Inv(s) && id in s.batches
    ensures
      var from, to := s.batches[id].status, Step(s, a).batches[id].status;
      to == match a
            case Measure(x, upload) =>
              if x != id || (from != AwaitingUpload && from != Uploaded) then from
              else if upload.File? && !Taken(s, Some(upload.digest)) then Uploaded else Failed
            case Expire(x) => if x == id && from == AwaitingUpload then Abandoned else from
            case Validate(x, parse) =>
              if x != id || from != Uploaded then from
              else if parse.Unreadable? then Failed else if parse.errors == 0 then Validated else Rejected
            case Persist(x, reparse) =>
              if x != id || from != Validated then from
              else if reparse.Rows? && !Taken(s, s.batches[id].digest) then Imported else Failed
            case Create(_) => from
  {
    InvAt(s, id);
    hide Inv, Continue;
    match a
    case Create(_) =>
    case Measure(x, upload) => MeasureMoves(s, id, x, upload);
    case Expire(_) =>
    case Validate(x, parse) => ValidateMoves(s, id, x, parse);
    case Persist(x, reparse) => PersistMoves(s, id, x, reparse);
  }

  /** Has an imported batch the file? */
  ghost predicate Taken(s: State, d: Option<string>) {
    d.Some? && exists x :: x in s.batches && s.batches[x].status == Imported && s.batches[x].digest == d
  }

  lemma MeasureMoves(s: State, id: nat, x: nat, upload: Upload)
    requires id in s.batches
    ensures id in MeasureStep(s, x, upload).batches
    ensures
      var from := s.batches[id].status;
      MeasureStep(s, x, upload).batches[id].status
      == if x != id || (from != AwaitingUpload && from != Uploaded) then from
      else if upload.File? && !Taken(s, Some(upload.digest)) then Uploaded else Failed
  {
  }

  lemma ValidateMoves(s: State, id: nat, x: nat, parse: Parse)
    requires id in s.batches && ReceiptSays(s, id)
    ensures id in ValidateStep(s, x, parse).batches
    ensures
      var from := s.batches[id].status;
      ValidateStep(s, x, parse).batches[id].status
      == if x != id || from != Uploaded then from
      else if parse.Unreadable? then Failed else if parse.errors == 0 then Validated else Rejected
  {
  }

  lemma PersistMoves(s: State, id: nat, x: nat, reparse: Reparse)
    requires id in s.batches
    ensures id in PersistStep(s, x, reparse).batches
    ensures
      var from := s.batches[id].status;
      PersistStep(s, x, reparse).batches[id].status
      == if x != id || from != Validated then from
      else if reparse.Rows? && !Taken(s, s.batches[id].digest) then Imported else Failed
  {
  }

  /** What the tables say of a batch, a job has done: nothing is recorded that did not happen,
    * and every failure has its own cause. */
  ghost predicate Recorded(s: State, actions: seq<Action>, id: nat)
    requires id in s.batches
  {
    var b := s.batches[id];
    && (b.status == Abandoned ==> Expire(id) in actions)
    && (b.digest.Some? ==> Measure(id, File(b.digest.value)) in actions)
    && (b.failure == Some(UploadMissing) ==> Measure(id, Missing) in actions)
    && (b.failure == Some(FileTooLarge) ==> Measure(id, TooLarge) in actions)
    && (b.failure == Some(UnrecognizedFormat) ==> Validate(id, Unreadable) in actions)
    && (b.failure == Some(PersistReparseFailed) ==> Persist(id, Unparsed) in actions)
    && (b.failure == Some(AlreadyImported) ==> FoundImported(s, actions, id))
    && (id in s.receipts ==>
          var receipt := s.receipts[id];
          && Validate(id, Readable(receipt.errorCount, receipt.warningCount)) in actions
          && (receipt.outcome == RejectedOutcome <==> receipt.errorCount > 0)
          && (receipt.outcome == Valid <==> receipt.errorCount == 0 && receipt.warningCount == 0))
    && (b.status == Imported ==>
          id in s.transactions && id in s.skips && Persist(id, Rows(s.transactions[id], s.skips[id])) in actions)
  }

  /** Another batch holds a file this one was measured to be. */
  ghost predicate FoundImported(s: State, actions: seq<Action>, id: nat) {
    exists x, d ::
      && x in s.batches && x != id && s.batches[x].status == Imported && s.batches[x].digest == Some(d)
      && Measure(id, File(d)) in actions
  }

  /** The batch a job is for. */
  function About(a: Action): nat {
    match a
    case Create(id) => id
    case Measure(id, _) => id
    case Expire(id) => id
    case Validate(id, _) => id
    case Persist(id, _) => id
  }

  lemma ImportedStays(s: State, a: Action, id: nat)
    requires id in s.batches && s.batches[id].status == Imported
    ensures id in Step(s, a).batches && Step(s, a).batches[id] == s.batches[id]
  {
    hide HeldByImported, DecideOutcome;
  }

  lemma StillFound(s: State, actions: seq<Action>, a: Action, id: nat)
    requires FoundImported(s, actions, id)
    ensures FoundImported(Step(s, a), actions + [a], id)
  {
    hide Step;
    var x, d :| && x in s.batches && x != id && s.batches[x].status == Imported && s.batches[x].digest == Some(d)
                && Measure(id, File(d)) in actions;
    ImportedStays(s, a, x);
    assert Measure(id, File(d)) in actions + [a];
  }

  /** A job for another batch leaves this one's tables alone. */
  lemma OthersAreLeft(s: State, a: Action, id: nat)
    requires id in s.batches && About(a) != id
    ensures SameTables(Step(s, a), s, id)
  {
    hide HeldByImported, DecideOutcome, MeasureStep, ExpireStep, ValidateStep, PersistStep;
    match a
    case Create(_) =>
    case Measure(x, upload) => MeasureLeaves(s, x, upload, id);
    case Expire(x) => ExpireLeaves(s, x, id);
    case Validate(x, parse) => ValidateLeaves(s, x, parse, id);
    case Persist(x, reparse) => PersistLeaves(s, x, reparse, id);
  }

  lemma MeasureLeaves(s: State, x: nat, upload: Upload, id: nat)
    requires id in s.batches && x != id
    ensures SameTables(MeasureStep(s, x, upload), s, id)
  {
    hide HeldByImported;
  }

  lemma ExpireLeaves(s: State, x: nat, id: nat)
    requires id in s.batches && x != id
    ensures SameTables(ExpireStep(s, x), s, id)
  {
  }

  lemma ValidateLeaves(s: State, x: nat, parse: Parse, id: nat)
    requires id in s.batches && x != id
    ensures SameTables(ValidateStep(s, x, parse), s, id)
  {
    hide DecideOutcome;
  }

  lemma PersistLeaves(s: State, x: nat, reparse: Reparse, id: nat)
    requires id in s.batches && x != id
    ensures SameTables(PersistStep(s, x, reparse), s, id)
  {
    hide HeldByImported;
  }

  ghost predicate SameTables(n: State, s: State, id: nat) {
    && id in s.batches && id in n.batches && n.batches[id] == s.batches[id]
    && (id in n.receipts <==> id in s.receipts) && (id in s.receipts ==> n.receipts[id] == s.receipts[id])
    && (id in n.transactions <==> id in s.transactions)
    && (id in s.transactions ==> n.transactions[id] == s.transactions[id])
    && (id in n.skips <==> id in s.skips) && (id in s.skips ==> n.skips[id] == s.skips[id])
  }

  lemma StaysRecorded(s: State, actions: seq<Action>, a: Action, id: nat)
    requires id in s.batches && Recorded(s, actions, id) && SameTables(Step(s, a), s, id)
    ensures Recorded(Step(s, a), actions + [a], id)
  {
    hide Step, FoundImported;
    if s.batches[id].failure == Some(AlreadyImported) {
      StillFound(s, actions, a, id);
    }
  }

  lemma CreateRecords(s: State, actions: seq<Action>, id: nat)
    requires Inv(s) && id !in s.batches
    ensures Recorded(Step(s, Create(id)), actions + [Create(id)], id)
  {
    InvAt(s, id);
    hide Inv;
  }

  lemma MeasureRecords(s: State, actions: seq<Action>, id: nat, upload: Upload)
    requires id in s.batches && Recorded(s, actions, id) && ReceiptSays(s, id)
    requires s.batches[id].status in {AwaitingUpload, Uploaded}
    ensures Recorded(MeasureStep(s, id, upload), actions + [Measure(id, upload)], id)
  {
    hide HeldByImported, FoundImported;
    var a, n := Measure(id, upload), MeasureStep(s, id, upload);
    assert a in actions + [a] && forall x :: x in actions ==> x in actions + [a];
    if upload.File? && HeldByImported(s, upload.digest) {
      var x := HolderOf(s, upload.digest);
      OtherHolds(n, actions + [a], id, x, upload.digest);
    }
  }

  lemma HolderOf(s: State, digest: string) returns (x: nat)
    requires HeldByImported(s, digest)
    ensures x in s.batches && s.batches[x].status == Imported && s.batches[x].digest == Some(digest)
  {
    x :| x in s.batches && s.batches[x].status == Imported && s.batches[x].digest == Some(digest);
  }

  lemma OtherHolds(n: State, actions: seq<Action>, id: nat, x: nat, digest: string)
    requires x in n.batches && x != id && n.batches[x].status == Imported && n.batches[x].digest == Some(digest)
    requires Measure(id, File(digest)) in actions
    ensures FoundImported(n, actions, id)
  {
  }

  lemma ExpireRecords(s: State, actions: seq<Action>, id: nat)
    requires id in s.batches && Recorded(s, actions, id) && ReceiptSays(s, id)
    requires s.batches[id].status == AwaitingUpload
    ensures Recorded(ExpireStep(s, id), actions + [Expire(id)], id)
  {
    hide FoundImported;
  }

  lemma ValidateRecords(s: State, actions: seq<Action>, id: nat, parse: Parse)
    requires id in s.batches && Recorded(s, actions, id) && ReceiptSays(s, id) && s.batches[id].status == Uploaded
    ensures Recorded(ValidateStep(s, id, parse), actions + [Validate(id, parse)], id)
  {
    hide FoundImported;
  }

  lemma PersistRecords(s: State, actions: seq<Action>, id: nat, reparse: Reparse)
    requires id in s.batches && Recorded(s, actions, id) && ReceiptSays(s, id) && RowsIfImported(s, id)
    requires s.batches[id].status == Validated
    ensures Recorded(PersistStep(s, id, reparse), actions + [Persist(id, reparse)], id)
  {
    hide HeldByImported, FoundImported;
    var a, n := Persist(id, reparse), PersistStep(s, id, reparse);
    assert a in actions + [a] && forall x :: x in actions ==> x in actions + [a];
    var digest := s.batches[id].digest.value;
    if reparse.Rows? && HeldByImported(s, digest) {
      var x := HolderOf(s, digest);
      OtherHolds(n, actions + [a], id, x, digest);
    }
  }

  lemma JobRecords(s: State, actions: seq<Action>, a: Action)
    requires Inv(s) && (About(a) in s.batches ==> Recorded(s, actions, About(a)))
    ensures About(a) in Step(s, a).batches ==> Recorded(Step(s, a), actions + [a], About(a))
  {
    var id := About(a);
    InvAt(s, id);
    hide Inv, Recorded, MeasureStep, ExpireStep, ValidateStep, PersistStep, RowsIfImported;
    if id !in s.batches {
      NothingToDo(s, a);
      if a.Create? {
        CreateRecords(s, actions, id);
      }
    } else if !Acts(s, a) {
      NothingToDo(s, a);
      StaysRecorded(s, actions, a, id);
    } else {
      match a
      case Measure(_, upload) => MeasureRecords(s, actions, id, upload);
      case Expire(_) => ExpireRecords(s, actions, id);
      case Validate(_, parse) => ValidateRecords(s, actions, id, parse);
      case Persist(_, reparse) => PersistRecords(s, actions, id, reparse);
    }
  }

  /** Is the batch where the job looks for it? */
  predicate Acts(s: State, a: Action) {
    && About(a) in s.batches
    && match a
       case Create(_) => false
       case Measure(id, _) => s.batches[id].status in {AwaitingUpload, Uploaded}
       case Expire(id) => s.batches[id].status == AwaitingUpload
       case Validate(id, _) => s.batches[id].status == Uploaded
       case Persist(id, _) => s.batches[id].status == Validated
  }

  lemma NothingToDo(s: State, a: Action)
    ensures !Acts(s, a) && (About(a) in s.batches || !a.Create?) ==> Step(s, a) == s
  {
    hide HeldByImported, DecideOutcome;
  }

  lemma {:induction false} HistoryRecords(actions: seq<Action>, id: nat)
    requires id in Continue(START, actions).batches
    ensures Recorded(Continue(START, actions), actions, id)
  {
    hide Step, Recorded, Inv;
    var before, a := actions[..|actions| - 1], actions[|actions| - 1];
    ImportsAreKept(before);
    if id in Continue(START, before).batches {
      HistoryRecords(before, id);
    }
    var s := Continue(START, before);
    if id in s.batches && About(a) != id {
      OthersAreLeft(s, a, id);
      StaysRecorded(s, before, a, id);
    } else {
      OnlyItsOwnIsCreated(s, a, id);
      JobRecords(s, before, a);
    }
    assert before + [a] == actions;
  }

  lemma OnlyItsOwnIsCreated(s: State, a: Action, id: nat)
    requires id in Step(s, a).batches && (id !in s.batches || About(a) == id)
    ensures About(a) == id
  {
    hide HeldByImported, DecideOutcome;
  }
}
