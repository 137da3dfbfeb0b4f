/** What becomes of a bracket, told from what is done in it and from the work that is pending, and with it
    exactly when a bracket restores the current transaction. */
module TransactionOutcomes {

  import opened TransactionState
  import opened TransactionInvariants
  import opened TransactionUnload
  import opened TransactionCommit
  import opened TransactionProtocol
  import opened TransactionBrackets
  import opened TransactionRuns
  import opened PendingWork

  // ---------- what can be told beforehand ----------

  /** Something stays in the transaction, unless there are errors. */
  predicate Leaves(body: seq<Action>) {
    body != [] && (LeavesAction(body[0]) || Leaves(body[1..]))
  }

  predicate LeavesAction(action: Action) {
    match action
    case Declares(decls, _, _) => decls > 0
    case Bracket(_, body) => Leaves(body)
  }

  predicate Fails(body: seq<Action>) {
    body != [] && (FailsIn(body[0]) || Fails(body[1..]))
  }

  /** Errors that parsing or instantiation brings on the way, and the work that is left otherwise. */
  function BodyGoes(work: seq<Arrival>, hasCodeGenerator: bool, body: seq<Action>): Progress
    decreases body, 0
  {
    if body == [] then Going(work)
    else match ActionGoes(work, hasCodeGenerator, body[0])
      case Erring => Erring
      case Going(rest) => BodyGoes(rest, hasCodeGenerator, body[1..])
  }

  function ActionGoes(work: seq<Arrival>, hasCodeGenerator: bool, action: Action): Progress
    decreases action, 1
  {
    match action
    case Declares(_, error, _) => if error then Erring else Going(work)
    case Bracket(codeGeneration, body) =>
      match BodyGoes(work, hasCodeGenerator, body)
      case Erring => Erring
      case Going(rest) => if Leaves(body) then CommitGoes(rest, codeGeneration && hasCodeGenerator) else Going(rest)
  }

  predicate AnyError(body: seq<Action>) {
    body != [] && (AnyErrorIn(body[0]) || AnyError(body[1..]))
  }

  predicate AnyErrorIn(action: Action) {
    match action
    case Declares(_, error, _) => error
    case Bracket(_, body) => AnyError(body)
  }

  /** When the work brings no errors, only those that are declared matter. */
  lemma {:induction false} CleanBodyGoes(work: seq<Arrival>, hasCodeGenerator: bool, body: seq<Action>)
    requires Clean(work)
    ensures match BodyGoes(work, hasCodeGenerator, body)
            case Erring => AnyError(body)
            case Going(rest) => !AnyError(body) && Clean(rest)
    decreases body, 0
  {
    if body != [] {
      CleanActionGoes(work, hasCodeGenerator, body[0]);
      match ActionGoes(work, hasCodeGenerator, body[0])
      case Erring =>
      case Going(rest) => CleanBodyGoes(rest, hasCodeGenerator, body[1..]);
    }
  }

  lemma {:induction false} CleanActionGoes(work: seq<Arrival>, hasCodeGenerator: bool, action: Action)
    requires Clean(work)
    ensures match ActionGoes(work, hasCodeGenerator, action)
            case Erring => AnyErrorIn(action)
            case Going(rest) => !AnyErrorIn(action) && Clean(rest)
    decreases action, 1
  {
    match action
    case Declares(_, _, _) =>
    case Bracket(codeGeneration, body) =>
      CleanBodyGoes(work, hasCodeGenerator, body);
      match BodyGoes(work, hasCodeGenerator, body)
      case Erring =>
      case Going(rest) => CleanCommitGoes(rest, codeGeneration && hasCodeGenerator);
  }

  // ---------- what happens to the transaction of a bracket ----------

  predicate Tidy(st: State, t: TId) {
    !HasFailed(st, t)
  }

  /** From `st` to `r`, things went for the transaction `t` as foretold. */
  ghost predicate Tracked(st: State, t: TId, r: State, progress: Progress, leaves: bool, fails: bool) {
    t in st.txs && t in r.txs && (r.txs[t].initialisersFail <==> st.txs[t].initialisersFail || fails) &&
    if !Tidy(st, t) then !Tidy(r, t)
    else match progress
      case Erring => !Tidy(r, t)
      case Going(rest) => Tidy(r, t) && r.work == rest && (IsEmpty(r.txs[t]) <==> IsEmpty(st.txs[t]) && !leaves)
  }

  lemma DeclaresTracked(st: State, t: TId, decls: nat, error: bool, initialisersFail: bool)
    requires Linked(st.txs, st.nextId) && t in st.txs
    ensures Tracked(st, t, Declare(st, t, decls, error, initialisersFail), if error then Erring else Going(st.work),
                    decls > 0, initialisersFail)
  {
    RootStays(st.txs, Declare(st, t, decls, error, initialisersFail).txs, st.nextId, t);
  }

  // ---------- brackets that leave nothing ----------

  /** Nothing but the numbers of the transactions that came and went is different. */
  function Untouched(st: State, t: TId, nextId: TId, fails: bool): State
    requires t in st.txs
  {
    st.(nextId := nextId, txs := st.txs[t := st.txs[t].(initialisersFail := st.txs[t].initialisersFail || fails)])
  }

  lemma {:induction false} BodyLeavesNoTrace(st: State, t: TId, body: seq<Action>) returns (nextId: TId)
    requires Valid(st) && st.current == Some(t) && t in st.txs && st.txs[t].phase == Collecting && Tidy(st, t)
    requires !Leaves(body) && BodyGoes(st.work, st.hasCodeGenerator, body).Going?
    ensures ActAll(st, t, body) == Untouched(st, t, nextId, Fails(body))
    decreases body, 0
  {
    if body == [] {
      nextId := st.nextId;
      assert st.txs[t := st.txs[t]] == st.txs;
    } else {
      var a, fails := Act(st, t, body[0]), FailsIn(body[0]);
      NothingTaken(st.work, st.hasCodeGenerator, body[0]);
      var between := ActionLeavesNoTrace(st, t, body[0]);
      ActKeeps(st, t, body[0]);
      UntouchedStill(st, t, a, between, fails);
      nextId := BodyLeavesNoTrace(a, t, body[1..]);
      UntouchedTwice(st, t, between, fails, nextId, Fails(body[1..]));
    }
  }

  predicate FailsIn(action: Action) {
    action.Declares? && action.initialisersFail
  }

  /** What leaves nothing takes no work. */
  lemma {:induction false} NothingTaken(work: seq<Arrival>, hasCodeGenerator: bool, action: Action)
    requires !LeavesAction(action) && ActionGoes(work, hasCodeGenerator, action).Going?
    ensures ActionGoes(work, hasCodeGenerator, action) == Going(work)
    decreases action, 1
  {
    if action.Bracket? {
      NothingTakenBy(work, hasCodeGenerator, action.body);
    }
  }

  lemma {:induction false} NothingTakenBy(work: seq<Arrival>, hasCodeGenerator: bool, body: seq<Action>)
    requires !Leaves(body) && BodyGoes(work, hasCodeGenerator, body).Going?
    ensures BodyGoes(work, hasCodeGenerator, body) == Going(work)
    decreases body, 0
  {
    if body != [] {
      NothingTaken(work, hasCodeGenerator, body[0]);
      NothingTakenBy(work, hasCodeGenerator, body[1..]);
    }
  }

  lemma UntouchedStill(st: State, t: TId, a: State, nextId: TId, fails: bool)
    requires Linked(st.txs, st.nextId) && t in st.txs && a == Untouched(st, t, nextId, fails)
    ensures Tidy(a, t) == Tidy(st, t) && t in a.txs && a.txs[t].phase == st.txs[t].phase && a.current == st.current
    ensures a.work == st.work && a.hasCodeGenerator == st.hasCodeGenerator
  {
    RootStays(st.txs, a.txs, st.nextId, t);
  }

  lemma UntouchedTwice(st: State, t: TId, between: TId, first: bool, nextId: TId, second: bool)
    requires t in st.txs
    ensures Untouched(Untouched(st, t, between, first), t, nextId, second) == Untouched(st, t, nextId, first || second)
  {
  }

  lemma {:induction false} ActionLeavesNoTrace(st: State, t: TId, action: Action) returns (nextId: TId)
    requires Valid(st) && st.current == Some(t) && t in st.txs && st.txs[t].phase == Collecting && Tidy(st, t)
    requires !LeavesAction(action) && ActionGoes(st.work, st.hasCodeGenerator, action).Going?
    ensures Act(st, t, action) == Untouched(st, t, nextId, FailsIn(action))
    decreases action, 1
  {
    match action
    case Declares(decls, error, initialisersFail) =>
      nextId := st.nextId;
    case Bracket(codeGeneration, body) =>
      nextId := BracketLeavesNoTrace(st, t, codeGeneration, body);
      assert st.txs[t := st.txs[t]] == st.txs;
  }

  lemma {:induction false} BracketLeavesNoTrace(st: State, t: TId, codeGeneration: bool, body: seq<Action>)
    returns (nextId: TId)
    requires Valid(st) && st.current == Some(t) && t in st.txs && st.txs[t].phase == Collecting && Tidy(st, t)
    requires !Leaves(body) && BodyGoes(st.work, st.hasCodeGenerator, body).Going?
    ensures RunBracket(st, codeGeneration, body) == st.(nextId := nextId)
    decreases body, 1
  {
    var u, a := st.nextId, Begin(st, codeGeneration);
    OpensBracket(st, codeGeneration);
    BegunErrors(st, t, NewTx(Some(t), codeGeneration));
    nextId := BodyLeavesNoTrace(a, u, body);
    ClosesEmpty(st, t, codeGeneration, nextId, Fails(body));
  }

  /** The end of a bracket with nothing in it. */
  lemma ClosesEmpty(st: State, t: TId, codeGeneration: bool, nextId: TId, fails: bool)
    requires Valid(st) && st.current == Some(t) && t in st.txs && st.txs[t].phase == Collecting && Tidy(st, t)
    ensures st.nextId in Begin(st, codeGeneration).txs
    ensures Pop(Untouched(Begin(st, codeGeneration), st.nextId, nextId, fails), st.nextId) == st.(nextId := nextId)
  {
    var u, tx := st.nextId, NewTx(Some(t), codeGeneration).(initialisersFail := fails);
    var b := Untouched(Begin(st, codeGeneration), u, nextId, fails);
    assert b.txs == Opened(st, t, tx).txs;
    assert b == Opened(st, t, tx).(nextId := nextId);
    NextIsNew(st);
    EndEmpty(st, t, tx);
    EndIgnoresNumber(Opened(st, t, tx), u, nextId);
  }

  lemma EndIgnoresNumber(st: State, t: TId, nextId: TId)
    requires t in st.txs
    ensures End(st.(nextId := nextId), t) == End(st, t).(nextId := nextId)
  {
    assert Completing(st.(nextId := nextId), t) == Completing(st, t);
  }

  // ---------- brackets in an open transaction ----------

  /** Transactions that went do not matter to the errors of those that stay. */
  lemma ErrorsKept(fewer: Txs, txs: Txs, nextId: TId, t: TId)
    requires Linked(fewer, nextId) && t in fewer
    requires forall x | x in fewer :: x in txs && fewer[x].parent == txs[x].parent &&
               fewer[x].hasErrors == txs[x].hasErrors
    ensures HasErrors(fewer, t) == HasErrors(txs, t)
  {
    RootStays(fewer, txs, nextId, t);
  }

  /** Whether there are errors at the end of a transaction, they are noted exactly then. */
  lemma CompletingErrors(b: State, u: TId)
    requires Linked(b.txs, b.nextId) && u in b.txs
    ensures EndFails(b, u) == HasFailed(b, u) && u in Completing(b, u)
    ensures HasErrors(Completing(b, u), u) == HasFailed(b, u)
    ensures !HasFailed(b, u) ==> Completing(b, u) == b.txs[u := b.txs[u].(phase := Completed)]
  {
    var txs := b.txs[u := b.txs[u].(phase := Completed)];
    RootStays(b.txs, txs, b.nextId, u);
    RootStays(b.txs, MarkErrors(txs, u), b.nextId, u);
  }

  /** Errors in a bracket are noted for the transaction around it. */
  lemma PopMarks(st: State, b: State, u: TId, t: TId)
    requires InBracket(st, b, u, t) && HasFailed(b, u)
    ensures t in Pop(b, u).txs && HasErrors(Pop(b, u).txs, t)
  {
    var m := b.(txs := Completing(b, u));
    CompletingErrors(b, u);
    CompletingOutside(b, u);
    CompletingValid(b, u);
    ErrorsBelow(m, t, u);
    PopCloses(st, b, u, t);
    assert KeptTx(st.txs[t], Pop(b, u).txs[t], st.nextId);
    PopPrunes(st, b, u, t);
    ErrorsKept(Pop(b, u).txs, m.txs, Pop(b, u).nextId, t);
  }

  lemma PopPrunes(st: State, b: State, u: TId, t: TId)
    requires InBracket(st, b, u, t) && HasFailed(b, u)
    ensures forall x | x in Pop(b, u).txs ::
              x in Completing(b, u) && Pop(b, u).txs[x].parent == Completing(b, u)[x].parent &&
              Pop(b, u).txs[x].hasErrors == Completing(b, u)[x].hasErrors
  {
    CompletingErrors(b, u);
    if IsEmpty(Completing(b, u)[u]) {
      forall x | x in Pop(b, u).txs
        ensures x in Completing(b, u) && Pop(b, u).txs[x].parent == Completing(b, u)[x].parent &&
                Pop(b, u).txs[x].hasErrors == Completing(b, u)[x].hasErrors
      {
        ReleasedKeys(Completing(b, u), u, x);
        ReleasedAt(Completing(b, u), u, x);
      }
    } else {
      EndsFilled(st, b, u, t);
      EndsNested(b, u);
      var c := End(b, u);
      assert IsLinked(c.txs, c.nextId, u);
      UnloadSound(c.(current := Some(t), hasErrorOccurred := false), u);
    }
  }

  /** What is in a bracket without errors is committed, with the errors that come in the course of this. */
  lemma PopCommits(st: State, b: State, u: TId, t: TId)
    requires InBracket(st, b, u, t) && !HasFailed(b, u) && !IsEmpty(b.txs[u])
    ensures t in Pop(b, u).txs && !IsEmpty(Pop(b, u).txs[t])
    ensures match CommitGoes(b.work, GeneratesCode(b, u))
            case Erring => !Tidy(Pop(b, u), t)
            case Going(rest) => Tidy(Pop(b, u), t) && Pop(b, u).work == rest
  {
    var c, r := End(b, u), Pop(b, u);
    CompletingErrors(b, u);
    EndsFilled(st, b, u, t);
    EndsNested(b, u);
    EndingEnded(st, c, u, t);
    CommitGrows(c, u, c.nextId);
    assert GrownTx(c.txs[u], r.txs[u], c.nextId);
    assert IsLinked(r.txs, r.nextId, u);
    ErrorsBelow(r, t, u);
  }

  lemma {:induction false} BracketTracked(st: State, t: TId, codeGeneration: bool, body: seq<Action>)
    requires Valid(st) && st.current == Some(t) && t in st.txs && st.txs[t].phase == Collecting
    ensures var action := Bracket(codeGeneration, body);
            Tracked(st, t, RunBracket(st, codeGeneration, body), ActionGoes(st.work, st.hasCodeGenerator, action),
                    Leaves(body), false)
    decreases body, 1
  {
    var u, a := st.nextId, Begin(st, codeGeneration);
    var b := ActAll(a, u, body);
    OpensBracket(st, codeGeneration);
    BodyTracked(a, u, body);
    BracketStaysInner(st, t, codeGeneration, body, b);
    StaysOutside(st, t, codeGeneration, body);
    if !Tidy(b, u) {
      PopMarks(st, b, u, t);
      MarkedTracked(st, t, Pop(b, u), codeGeneration, body);
    } else if IsEmpty(b.txs[u]) {
      EmptyTracked(st, t, codeGeneration, body);
    } else {
      PopCommits(st, b, u, t);
      FilledTracked(st, t, b, u, Pop(b, u), codeGeneration, body);
    }
  }

  /** From the beginning of a bracket to its end. */
  lemma BracketStaysInner(st: State, t: TId, codeGeneration: bool, body: seq<Action>, b: State)
    requires Valid(st) && st.current == Some(t) && t in st.txs && st.txs[t].phase == Collecting
    requires b == ActAll(Begin(st, codeGeneration), st.nextId, body)
    requires Tracked(Begin(st, codeGeneration), st.nextId, b, BodyGoes(st.work, st.hasCodeGenerator, body),
                     Leaves(body), Fails(body))
    ensures InBracket(st, b, st.nextId, t) && GeneratesCode(b, st.nextId) == (codeGeneration && st.hasCodeGenerator)
    ensures if !Tidy(st, t) then !Tidy(b, st.nextId)
            else match BodyGoes(st.work, st.hasCodeGenerator, body)
              case Erring => !Tidy(b, st.nextId)
              case Going(rest) => Tidy(b, st.nextId) && b.work == rest && (IsEmpty(b.txs[st.nextId]) <==> !Leaves(body))
  {
    var u, a := st.nextId, Begin(st, codeGeneration);
    OpensBracket(st, codeGeneration);
    BegunErrors(st, t, NewTx(Some(t), codeGeneration));
    ActAllKeeps(a, u, body);
    StaysInBracket(st, a, b, u, t);
    assert KeptTx(a.txs[u], b.txs[u], a.nextId);
  }

  lemma EmptyTracked(st: State, t: TId, codeGeneration: bool, body: seq<Action>)
    requires Valid(st) && st.current == Some(t) && t in st.txs && st.txs[t].phase == Collecting && Tidy(st, t)
    requires !Leaves(body) && BodyGoes(st.work, st.hasCodeGenerator, body).Going?
    ensures Tracked(st, t, RunBracket(st, codeGeneration, body),
                    ActionGoes(st.work, st.hasCodeGenerator, Bracket(codeGeneration, body)), false, false)
  {
    NothingTakenBy(st.work, st.hasCodeGenerator, body);
    var nextId := BracketLeavesNoTrace(st, t, codeGeneration, body);
  }

  lemma MarkedTracked(st: State, t: TId, r: State, codeGeneration: bool, body: seq<Action>)
    requires t in st.txs && t in r.txs && r.txs[t].initialisersFail == st.txs[t].initialisersFail && !Tidy(r, t)
    requires Tidy(st, t) ==> BodyGoes(st.work, st.hasCodeGenerator, body).Erring?
    ensures Tracked(st, t, r, ActionGoes(st.work, st.hasCodeGenerator, Bracket(codeGeneration, body)), Leaves(body),
                    false)
  {
  }

  lemma FilledTracked(st: State, t: TId, b: State, u: TId, r: State, codeGeneration: bool, body: seq<Action>)
    requires t in st.txs && t in r.txs && r.txs[t].initialisersFail == st.txs[t].initialisersFail && !IsEmpty(r.txs[t])
    requires Leaves(body) && BodyGoes(st.work, st.hasCodeGenerator, body) == Going(b.work)
    requires u in b.txs && GeneratesCode(b, u) == (codeGeneration && st.hasCodeGenerator) && Tidy(st, t)
    requires match CommitGoes(b.work, GeneratesCode(b, u))
             case Erring => !Tidy(r, t)
             case Going(rest) => Tidy(r, t) && r.work == rest
    ensures Tracked(st, t, r, ActionGoes(st.work, st.hasCodeGenerator, Bracket(codeGeneration, body)), true, false)
  {
  }

  lemma StaysOutside(st: State, t: TId, codeGeneration: bool, body: seq<Action>)
    requires Valid(st) && st.current == Some(t) && t in st.txs && st.txs[t].phase == Collecting
    ensures t in RunBracket(st, codeGeneration, body).txs
    ensures RunBracket(st, codeGeneration, body).txs[t].initialisersFail == st.txs[t].initialisersFail
  {
    BracketCloses(st, codeGeneration, body);
    NextIsNew(st);
  }

  lemma {:induction false} ActionTracked(st: State, t: TId, action: Action)
    requires Valid(st) && st.current == Some(t) && t in st.txs && st.txs[t].phase == Collecting
    ensures Tracked(st, t, Act(st, t, action), ActionGoes(st.work, st.hasCodeGenerator, action), LeavesAction(action),
                    FailsIn(action))
    decreases action, 2
  {
    match action
    case Declares(decls, error, initialisersFail) => DeclaresTracked(st, t, decls, error, initialisersFail);
    case Bracket(codeGeneration, body) => BracketTracked(st, t, codeGeneration, body);
  }

  /** What is done in a transaction goes as foretold. */
  lemma {:induction false} BodyTracked(st: State, t: TId, body: seq<Action>)
    requires Valid(st) && st.current == Some(t) && t in st.txs && st.txs[t].phase == Collecting
    ensures Tracked(st, t, ActAll(st, t, body), BodyGoes(st.work, st.hasCodeGenerator, body), Leaves(body), Fails(body))
    decreases body, 0
  {
    if body != [] {
      var a := Act(st, t, body[0]);
      ActionTracked(st, t, body[0]);
      ActKeeps(st, t, body[0]);
      assert KeptTx(st.txs[t], a.txs[t], st.nextId);
      BodyTracked(a, t, body[1..]);
    }
  }

  // ---------- top-level brackets ----------

  /** Whether the transaction of a bracket goes, when it is opened while none is open: with errors, with
      nothing in it, or with initialisers that run and fail. */
  predicate Vanishes(st: State, codeGeneration: bool, body: seq<Action>) {
    st.hasErrorOccurred || BodyGoes(st.work, st.hasCodeGenerator, body).Erring? || !Leaves(body) ||
    (codeGeneration && st.hasCodeGenerator && Fails(body))
  }

  lemma TopFailedGoes(st: State, b: State, t: TId)
    requires InTop(st, b, t) && HasFailed(b, t)
    ensures t !in Pop(b, t).txs
  {
    CompletingErrors(b, t);
    CompletingOutside(b, t);
    if IsEmpty(Completing(b, t)[t]) {
      TopEndsEmpty(st, b, t);
    } else {
      TopEndsFilled(st, b, t);
      assert HasErrors(End(b, t).txs, t) by {
        TopErrorsStay(b, t);
      }
      CommitFailedValid(End(b, t), t);
    }
  }

  /** The end of a top-level transaction keeps the errors that were noted. */
  lemma TopErrorsStay(b: State, t: TId)
    requires Linked(b.txs, b.nextId) && t in b.txs && b.txs[t].parent.None? && !IsEmpty(Completing(b, t)[t])
    ensures HasErrors(End(b, t).txs, t) == HasErrors(Completing(b, t), t)
  {
    CompletingOutside(b, t);
  }

  /** A top-level transaction is committed, with errors noted or not, and runs once more if code is
      generated. */
  predicate CommittedAsTold(b: State, t: TId, r: State)
    requires t in b.txs && t in r.txs
  {
    r.txs[t].phase == Committed && (HasErrors(r.txs, t) <==> TopGoes(b.work, GeneratesCode(b, t)).Erring?) &&
    (GeneratesCode(b, t) ==> r.txs[t].runs == b.txs[t].runs + 1)
  }

  lemma TopTidyCommits(st: State, b: State, t: TId)
    requires InTop(st, b, t) && !HasFailed(b, t) && !IsEmpty(b.txs[t])
    ensures t in Pop(b, t).txs <==> !Throws(b, t)
    ensures t in Pop(b, t).txs ==> CommittedAsTold(b, t, Pop(b, t))
  {
    var c := End(b, t);
    CompletingErrors(b, t);
    TopEndsFilled(st, b, t);
    TopErrorsStay(b, t);
    TopReady(st, c, t);
    QuietGoesWell(c, c.txs[t].nested);
    CommitTop(c, t);
    TopEndKeeps(b, t);
  }

  lemma TopEndKeeps(b: State, t: TId)
    requires t in b.txs && !HasFailed(b, t) && !IsEmpty(b.txs[t]) && EndFails(b, t) == HasFailed(b, t)
    ensures t in End(b, t).txs && Throws(End(b, t), t) == Throws(b, t) && End(b, t).work == b.work
    ensures GeneratesCode(End(b, t), t) == GeneratesCode(b, t) && End(b, t).txs[t].runs == b.txs[t].runs
  {
  }

  /** The transaction of a top-level bracket stays, and is committed, exactly if this is foretold. */
  lemma TopStaysExactly(st: State, codeGeneration: bool, body: seq<Action>)
    requires Valid(st) && !IsOpen(st)
    ensures st.nextId in RunBracket(st, codeGeneration, body).txs <==> !Vanishes(st, codeGeneration, body)
    ensures st.nextId in RunBracket(st, codeGeneration, body).txs ==>
              RunBracket(st, codeGeneration, body).txs[st.nextId].phase == Committed
  {
    var t, a := st.nextId, Begin(st, codeGeneration);
    var b := ActAll(a, t, body);
    OpensTop(st, codeGeneration);
    BodyTracked(a, t, body);
    StaysInTop(st, a, t, body);
    TopBodyTracked(st, codeGeneration, body, b);
    if HasFailed(b, t) {
      TopFailedGoes(st, b, t);
    } else if IsEmpty(b.txs[t]) {
      CompletingErrors(b, t);
      TopEndsEmpty(st, b, t);
    } else {
      TopTidyCommits(st, b, t);
    }
  }

  /** A bracket that stays has errors noted exactly if they come with the work that is pending when it is
      committed; it is committed and runs once all the same. */
  lemma LateErrorsExactly(st: State, codeGeneration: bool, body: seq<Action>)
    requires Valid(st) && !IsOpen(st) && !Vanishes(st, codeGeneration, body)
    ensures var r, generates := RunBracket(st, codeGeneration, body), codeGeneration && st.hasCodeGenerator;
            st.nextId in r.txs && r.txs[st.nextId].phase == Committed && (generates ==> r.txs[st.nextId].runs == 1) &&
            (HasErrors(r.txs, st.nextId) <==>
             TopGoes(BodyGoes(st.work, st.hasCodeGenerator, body).rest, generates).Erring?)
  {
    var t, a := st.nextId, Begin(st, codeGeneration);
    var b := ActAll(a, t, body);
    OpensTop(st, codeGeneration);
    BodyTracked(a, t, body);
    StaysInTop(st, a, t, body);
    TopBodyTracked(st, codeGeneration, body, b);
    TopTidyCommits(st, b, t);
  }

  lemma StaysInTop(st: State, a: State, t: TId, body: seq<Action>)
    requires InTop(st, a, t)
    ensures InTop(st, ActAll(a, t, body), t) && ActAll(a, t, body).txs[t].codeGeneration == a.txs[t].codeGeneration
    ensures ActAll(a, t, body).hasCodeGenerator == a.hasCodeGenerator && ActAll(a, t, body).txs[t].runs == a.txs[t].runs
  {
    ActAllKeeps(a, t, body);
    KeptTwice(st, a, ActAll(a, t, body), t);
    assert KeptTx(a.txs[t], ActAll(a, t, body).txs[t], a.nextId);
  }

  /** From the beginning of a top-level bracket to its end. */
  lemma TopBodyTracked(st: State, codeGeneration: bool, body: seq<Action>, b: State)
    requires !IsOpen(st)
    requires Tracked(Begin(st, codeGeneration), st.nextId, b, BodyGoes(st.work, st.hasCodeGenerator, body),
                     Leaves(body), Fails(body))
    requires b.txs[st.nextId].codeGeneration == codeGeneration && b.hasCodeGenerator == st.hasCodeGenerator
    ensures HasFailed(b, st.nextId) <==> st.hasErrorOccurred || BodyGoes(st.work, st.hasCodeGenerator, body).Erring?
    ensures !HasFailed(b, st.nextId) ==> (IsEmpty(b.txs[st.nextId]) <==> !Leaves(body))
    ensures Throws(b, st.nextId) <==> codeGeneration && st.hasCodeGenerator && Fails(body)
    ensures !HasFailed(b, st.nextId) ==> b.work == BodyGoes(st.work, st.hasCodeGenerator, body).rest
  {
  }

  // ---------- restoring the current transaction ----------

  /** A bracket restores the current transaction exactly when it is opened while a transaction is open, or
      when there is none and the transaction of the bracket goes. */
  lemma BracketRestoresExactly(st: State, codeGeneration: bool, body: seq<Action>)
    requires Valid(st)
    ensures RunBracket(st, codeGeneration, body).current == st.current <==>
            IsOpen(st) || (st.current.None? && Vanishes(st, codeGeneration, body))
  {
    if IsOpen(st) {
      BracketCloses(st, codeGeneration, body);
    } else {
      TopBracketCloses(st, codeGeneration, body);
      TopStaysExactly(st, codeGeneration, body);
      NextIsNew(st);
    }
  }

  /** When the pending work brings no errors, what is done in the bracket alone decides. */
  lemma CleanVanishes(st: State, codeGeneration: bool, body: seq<Action>)
    requires Clean(st.work)
    ensures Vanishes(st, codeGeneration, body) <==>
            st.hasErrorOccurred || AnyError(body) || !Leaves(body) ||
            (codeGeneration && st.hasCodeGenerator && Fails(body))
  {
    CleanBodyGoes(st.work, st.hasCodeGenerator, body);
  }

  /** After a bracket that leaves one declaration, its committed transaction is current, and no further
      bracket restores it: not even an empty one. */
  lemma CommittedIsNotRestored(hasCodeGenerator: bool, codeGeneration: bool, body: seq<Action>)
    ensures var st := RunBracket(Initial(hasCodeGenerator), true, [Declares(1, false, false)]);
            Valid(st) && st.current == Some(0) && RunBracket(st, codeGeneration, body).current != Some(0) &&
            RunBracket(st, codeGeneration, []).current == None
  {
    var st := RunBracket(Initial(hasCodeGenerator), true, [Declares(1, false, false)]);
    FirstStays(hasCodeGenerator, [Declares(1, false, false)]);
    BracketRestoresExactly(st, codeGeneration, body);
    TopBracketCloses(st, codeGeneration, []);
    TopStaysExactly(st, codeGeneration, []);
  }

  lemma FirstStays(hasCodeGenerator: bool, first: seq<Action>)
    requires first == [Declares(1, false, false)]
    ensures var st := RunBracket(Initial(hasCodeGenerator), true, first);
            Valid(st) && st.current == Some(0) && !IsOpen(st)
  {
    InitialValid(hasCodeGenerator);
    TopStaysExactly(Initial(hasCodeGenerator), true, first);
    TopBracketCloses(Initial(hasCodeGenerator), true, first);
    OneDeclaration([], hasCodeGenerator, first);
  }

  /** One declaration, behind which instantiation brings an error: the transaction is committed and runs,
      though errors are noted at it. */
  lemma LateErrorsAreMissed()
    ensures var st := Perform(Initial(true), Pending([Arrival(0, true)]));
            var r := Perform(st, Open(true, [Declares(1, false, false)]));
            0 in r.txs && r.txs[0].phase == Committed && r.txs[0].runs == 1 && HasErrors(r.txs, 0)
  {
    var st := Perform(Initial(true), Pending([Arrival(0, true)]));
    InitialValid(true);
    PerformValid(Initial(true), Pending([Arrival(0, true)]));
    assert st.work == [Arrival(0, true)];
    OneDeclaration(st.work, true, [Declares(1, false, false)]);
    LateErrorsExactly(st, true, [Declares(1, false, false)]);
    TopGoesHookByHook(st.work);
  }

  lemma OneDeclaration(work: seq<Arrival>, hasCodeGenerator: bool, first: seq<Action>)
    requires first == [Declares(1, false, false)]
    ensures BodyGoes(work, hasCodeGenerator, first) == Going(work) && Leaves(first) && !Fails(first)
  {
    var rest := first[1..];
    assert rest == [] && BodyGoes(work, hasCodeGenerator, rest) == Going(work) && !Fails(rest);
    assert ActionGoes(work, hasCodeGenerator, first[0]) == Going(work) && LeavesAction(first[0]) && !FailsIn(first[0]);
  }
}
