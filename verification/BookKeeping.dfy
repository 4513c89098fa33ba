/** The invariant of the books, over every run of every kind of step. */
module BookKeeping {
  import opened Books
  import opened BookDecisions
  import opened BookRuns

  // ---- Every reachable state ----------------------------------------------------------------

  lemma StepKeeps(s: State, setup: Setup, a: Action)
    requires Inv(s)
    ensures Inv(Step(s, setup, a))
  {
    hide Inv, Arrive, Resolve, Undo, Open, ReadContext, ReadPage, WriteChunk;
    match a
    case ArriveAction(t) => ArriveKeeps(s, t);
    case ResolveAction(entity, key, outcome, category) =>
      if Resolve(s, setup, entity, key, outcome, category).Ok? {
        ResolveKeeps(s, setup, entity, key, outcome, category);
      }
    case UndoAction(d) =>
      if Undo(s, d).Ok? {
        UndoKeeps(s, d);
      }
    case OpenAction(batch) =>
      if Open(s, batch).Ok? {
        OpenKeeps(s, batch);
      }
    case ContextAction(batch) =>
      if ReadContext(s, batch).Ok? {
        ContextKeeps(s, batch);
      }
    case ReadAction(batch) =>
      if ReadPage(s, setup, batch).Ok? {
        ReadKeeps(s, setup, batch);
      }
    case WriteAction(batch) =>
      if WriteChunk(s, setup, batch).Ok? {
        WriteKeeps(s, setup, batch);
      } else if WriteChunk(s, setup, batch).error == TwoLive {
        EndKeeps(s, s.(workers := s.workers - {batch}), batch, Running);
      }
    case FinishAction(batch) =>
      if Close(s, batch, Classified).Ok? {
        EndKeeps(s, Close(s, batch, Classified).value, batch, Classified);
      }
    case FailAction(batch) =>
      if Close(s, batch, Failed).Ok? {
        EndKeeps(s, Close(s, batch, Failed).value, batch, Failed);
      }
    case CrashAction(batch) => EndKeeps(s, s.(workers := s.workers - {batch}), batch, Running);
  }

  /** Whatever imports, runs, decisions and undos happen, in whatever order: the books are
    * kept. At most one live classification each; people's answers live exactly while the
    * decision that wrote them is; memory exactly the live categorisations; counters that
    * say what each run did. */
  lemma {:induction false} BooksAreKept(setup: Setup, actions: seq<Action>)
    ensures Inv(After(setup, actions))
  {
    hide Step;
    if actions == [] {
    } else {
      hide Inv;
      BooksAreKept(setup, actions[..|actions| - 1]);
      StepKeeps(After(setup, actions[..|actions| - 1]), setup, actions[|actions| - 1]);
    }
  }

  lemma AfterOneMore(setup: Setup, actions: seq<Action>, a: Action)
    ensures After(setup, actions + [a]) == Step(After(setup, actions), setup, a)
  {
    assert (actions + [a])[..|actions|] == actions;
  }

  lemma Nothing(setup: Setup)
    ensures After(setup, []) == START
  {
  }
}
