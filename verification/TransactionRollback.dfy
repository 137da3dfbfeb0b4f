/** What is left in a transaction when errors arise in it, and what becomes of the open module: exactly when
    a bracket takes it, and that no transaction has it again after a rollback. */
module TransactionRollback {

  import opened TransactionState
  import opened TransactionInvariants
  import opened TransactionUnload
  import opened TransactionCommit
  import opened TransactionProtocol
  import opened TransactionBrackets
  import opened TransactionRuns
  import opened TransactionOutcomes
  import opened TransactionModules
  import opened PendingWork

  // ---------- what a bracket changes in the transactions around it ----------

  lemma PopEmptyNests(st: State, b: State, u: TId, p: TId, x: TId)
    requires InBracket(st, b, u, p) && IsEmpty(Completing(b, u)[u]) && x in b.txs && x < u
    ensures x in Pop(b, u).txs
    ensures Pop(b, u).txs[x].nested == if x == p then Without(b.txs[x].nested, u) else b.txs[x].nested
  {
    CompletingOutside(b, u);
    CompletingNests(b, u, x);
    ReleasedAt(Completing(b, u), u, x);
  }

  lemma PopFailedNests(st: State, b: State, u: TId, p: TId, x: TId)
    requires InBracket(st, b, u, p) && !IsEmpty(Completing(b, u)[u]) && HasFailed(b, u) && x in b.txs && x < u
    ensures x in Pop(b, u).txs
    ensures Pop(b, u).txs[x].nested == if x == p then Without(b.txs[x].nested, u) else b.txs[x].nested
  {
    FailedEnd(st, b, u, p);
    CompletingNests(b, u, x);
    RollbackNests(End(b, u), u, p, x);
  }

  lemma CompletingNests(b: State, u: TId, x: TId)
    requires u in b.txs && x in b.txs
    ensures x in Completing(b, u) && Completing(b, u)[x].nested == b.txs[x].nested
  {
  }

  lemma FailedEnd(st: State, b: State, u: TId, p: TId)
    requires InBracket(st, b, u, p) && !IsEmpty(Completing(b, u)[u]) && HasFailed(b, u)
    ensures var c := End(b, u);
            Valid(c) && u in c.txs && c.txs[u].parent == Some(p) && HasErrors(c.txs, u) && c.txs == Completing(b, u)
  {
    CompletingErrors(b, u);
    EndsFilled(st, b, u, p);
    EndsNested(b, u);
  }

  lemma RollbackNests(c: State, u: TId, p: TId, x: TId)
    requires Valid(c) && u in c.txs && c.txs[u].parent == Some(p) && HasErrors(c.txs, u) && x in c.txs && x < u
    ensures x in Commit(c, u, c.nextId).txs
    ensures Commit(c, u, c.nextId).txs[x].nested == if x == p then Without(c.txs[x].nested, u) else c.txs[x].nested
  {
    assert IsLinked(c.txs, c.nextId, u);
    UnloadSound(c.(current := Some(p), hasErrorOccurred := false), u);
  }

  lemma PopTidyNests(st: State, b: State, u: TId, p: TId, x: TId)
    requires InBracket(st, b, u, p) && !IsEmpty(Completing(b, u)[u]) && !HasFailed(b, u) && x in b.txs && x < u
    ensures x in Pop(b, u).txs && Pop(b, u).txs[x].nested == b.txs[x].nested
  {
    CompletingErrors(b, u);
    EndsFilled(st, b, u, p);
    EndsNested(b, u);
    EndingEnded(st, End(b, u), u, p);
    CommitGrows(End(b, u), u, End(b, u).nextId);
  }

  /** Only the transaction around a bracket gets to know of it. */
  lemma PopNests(st: State, b: State, u: TId, p: TId, x: TId)
    requires InBracket(st, b, u, p) && x in b.txs && x < u
    ensures x in Pop(b, u).txs && (x != p ==> Pop(b, u).txs[x].nested == b.txs[x].nested)
  {
    if IsEmpty(Completing(b, u)[u]) {
      PopEmptyNests(st, b, u, p, x);
    } else if HasFailed(b, u) {
      PopFailedNests(st, b, u, p, x);
    } else {
      PopTidyNests(st, b, u, p, x);
    }
  }

  /** What is done in `t` changes what is nested in no older transaction. */
  lemma {:induction false} ActAllNests(st: State, t: TId, body: seq<Action>, x: TId)
    requires Valid(st) && st.current == Some(t) && t in st.txs && st.txs[t].phase == Collecting && x in st.txs && x < t
    ensures x in ActAll(st, t, body).txs && ActAll(st, t, body).txs[x].nested == st.txs[x].nested
    decreases body, 0
  {
    if body != [] {
      var a := Act(st, t, body[0]);
      ActNests(st, t, body[0], x);
      ActKeeps(st, t, body[0]);
      assert KeptTx(st.txs[t], a.txs[t], st.nextId);
      ActAllNests(a, t, body[1..], x);
    }
  }

  lemma {:induction false} ActNests(st: State, t: TId, action: Action, x: TId)
    requires Valid(st) && st.current == Some(t) && t in st.txs && st.txs[t].phase == Collecting && x in st.txs && x < t
    ensures x in Act(st, t, action).txs && Act(st, t, action).txs[x].nested == st.txs[x].nested
    decreases action, 2
  {
    match action
    case Declares(_, _, _) =>
    case Bracket(codeGeneration, body) => BracketNests(st, t, codeGeneration, body, x);
  }

  /** Up to the end of a bracket, it is one more transaction nested in the one around it. */
  lemma {:induction false} BracketBodyNests(st: State, t: TId, codeGeneration: bool, body: seq<Action>, x: TId)
    requires Valid(st) && st.current == Some(t) && t in st.txs && st.txs[t].phase == Collecting && x in st.txs && x <= t
    ensures var b := ActAll(Begin(st, codeGeneration), st.nextId, body);
            InBracket(st, b, st.nextId, t) && x in b.txs && x < st.nextId &&
            b.txs[x].nested == if x == t then st.txs[x].nested + [st.nextId] else st.txs[x].nested
    decreases body, 1
  {
    BodyStays(st, t, codeGeneration, body);
    BegunNests(st, t, codeGeneration, x);
    ActAllNests(Begin(st, codeGeneration), st.nextId, body, x);
  }

  lemma BodyStays(st: State, t: TId, codeGeneration: bool, body: seq<Action>)
    requires Valid(st) && st.current == Some(t) && t in st.txs && st.txs[t].phase == Collecting
    ensures InBracket(st, ActAll(Begin(st, codeGeneration), st.nextId, body), st.nextId, t)
  {
    var a := Begin(st, codeGeneration);
    OpensBracket(st, codeGeneration);
    ActAllKeeps(a, st.nextId, body);
    StaysInBracket(st, a, ActAll(a, st.nextId, body), st.nextId, t);
  }

  /** A bracket has just been opened in `t`. */
  lemma BegunNests(st: State, t: TId, codeGeneration: bool, x: TId)
    requires Valid(st) && st.current == Some(t) && t in st.txs && st.txs[t].phase == Collecting && x in st.txs && x <= t
    ensures var a, u := Begin(st, codeGeneration), st.nextId;
            Valid(a) && a.current == Some(u) && u in a.txs && a.txs[u].phase == Collecting && x in a.txs && x < u &&
            a.txs[x].nested == if x == t then st.txs[x].nested + [u] else st.txs[x].nested
  {
    BeginValid(st, codeGeneration);
    assert IsLinked(st.txs, st.nextId, x);
  }

  lemma {:induction false} BracketNests(st: State, t: TId, codeGeneration: bool, body: seq<Action>, x: TId)
    requires Valid(st) && st.current == Some(t) && t in st.txs && st.txs[t].phase == Collecting && x in st.txs && x < t
    ensures x in RunBracket(st, codeGeneration, body).txs
    ensures RunBracket(st, codeGeneration, body).txs[x].nested == st.txs[x].nested
    decreases body, 2
  {
    BracketBodyNests(st, t, codeGeneration, body, x);
    PopNests(st, ActAll(Begin(st, codeGeneration), st.nextId, body), st.nextId, t, x);
  }

  lemma LastLeaves(s: seq<TId>, u: TId)
    ensures Without(s + [u], u) == s
  {
  }

  /** A bracket with errors leaves nothing in the transaction around it. */
  lemma FailedBracketLeaves(st: State, t: TId, codeGeneration: bool, body: seq<Action>)
    requires Valid(st) && st.current == Some(t) && t in st.txs && st.txs[t].phase == Collecting
    requires HasFailed(ActAll(Begin(st, codeGeneration), st.nextId, body), st.nextId)
    ensures t in RunBracket(st, codeGeneration, body).txs
    ensures RunBracket(st, codeGeneration, body).txs[t].nested == st.txs[t].nested
  {
    var u, b := st.nextId, ActAll(Begin(st, codeGeneration), st.nextId, body);
    BracketBodyNests(st, t, codeGeneration, body, t);
    LastLeaves(st.txs[t].nested, u);
    FailedNests(st, b, u, t, t);
  }

  lemma FailedNests(st: State, b: State, u: TId, p: TId, x: TId)
    requires InBracket(st, b, u, p) && HasFailed(b, u) && x in b.txs && x < u
    ensures x in Pop(b, u).txs
    ensures Pop(b, u).txs[x].nested == if x == p then Without(b.txs[x].nested, u) else b.txs[x].nested
  {
    if IsEmpty(Completing(b, u)[u]) {
      PopEmptyNests(st, b, u, p, x);
    } else {
      PopFailedNests(st, b, u, p, x);
    }
  }

  // ---------- what remains, told beforehand ----------

  function Standing(st: State, t: TId): Progress {
    if Tidy(st, t) then Going(st.work) else Erring
  }

  function GoesOn(p: Progress, hasCodeGenerator: bool, action: Action): Progress {
    if p.Erring? then Erring else ActionGoes(p.rest, hasCodeGenerator, action)
  }

  /** What is declared directly remains in any case; a bracket does when there are no errors before it is
      committed. */
  predicate RemainsOf(p: Progress, hasCodeGenerator: bool, action: Action) {
    match action
    case Declares(decls, _, _) => decls > 0
    case Bracket(_, body) => p.Going? && BodyGoes(p.rest, hasCodeGenerator, body).Going? && Leaves(body)
  }

  predicate Remains(p: Progress, hasCodeGenerator: bool, body: seq<Action>)
    decreases body
  {
    body != [] && (RemainsOf(p, hasCodeGenerator, body[0]) ||
                   Remains(GoesOn(p, hasCodeGenerator, body[0]), hasCodeGenerator, body[1..]))
  }

  lemma FailedBracketRemains(st: State, t: TId, codeGeneration: bool, body: seq<Action>)
    requires Valid(st) && st.current == Some(t) && t in st.txs && st.txs[t].phase == Collecting
    requires HasFailed(ActAll(Begin(st, codeGeneration), st.nextId, body), st.nextId)
    ensures t in RunBracket(st, codeGeneration, body).txs
    ensures IsEmpty(RunBracket(st, codeGeneration, body).txs[t]) == IsEmpty(st.txs[t])
  {
    FailedBracketLeaves(st, t, codeGeneration, body);
    BracketCloses(st, codeGeneration, body);
    NextIsNew(st);
  }

  /** How a bracket ends that begins without errors. */
  lemma BracketEnds(st: State, t: TId, codeGeneration: bool, body: seq<Action>)
    requires Valid(st) && st.current == Some(t) && t in st.txs && st.txs[t].phase == Collecting
    ensures var b := ActAll(Begin(st, codeGeneration), st.nextId, body);
            var p := BodyGoes(st.work, st.hasCodeGenerator, body);
            InBracket(st, b, st.nextId, t) && (HasFailed(b, st.nextId) <==> !Tidy(st, t) || p.Erring?) &&
            (!HasFailed(b, st.nextId) ==> (IsEmpty(b.txs[st.nextId]) <==> !Leaves(body)))
  {
    var u, a := st.nextId, Begin(st, codeGeneration);
    OpensBracket(st, codeGeneration);
    BodyTracked(a, u, body);
    BracketStaysInner(st, t, codeGeneration, body, ActAll(a, u, body));
  }

  lemma TidyBracketRemains(st: State, t: TId, codeGeneration: bool, body: seq<Action>)
    requires Valid(st) && st.current == Some(t) && t in st.txs && st.txs[t].phase == Collecting && Tidy(st, t)
    requires BodyGoes(st.work, st.hasCodeGenerator, body).Going?
    ensures t in RunBracket(st, codeGeneration, body).txs
    ensures IsEmpty(RunBracket(st, codeGeneration, body).txs[t]) <==> IsEmpty(st.txs[t]) && !Leaves(body)
  {
    BracketEnds(st, t, codeGeneration, body);
    if Leaves(body) {
      PopCommits(st, ActAll(Begin(st, codeGeneration), st.nextId, body), st.nextId, t);
    } else {
      EmptyTracked(st, t, codeGeneration, body);
      NothingTakenBy(st.work, st.hasCodeGenerator, body);
    }
  }

  lemma BracketRemains(st: State, t: TId, codeGeneration: bool, body: seq<Action>)
    requires Valid(st) && st.current == Some(t) && t in st.txs && st.txs[t].phase == Collecting
    ensures t in RunBracket(st, codeGeneration, body).txs
    ensures IsEmpty(RunBracket(st, codeGeneration, body).txs[t]) <==>
            IsEmpty(st.txs[t]) && !RemainsOf(Standing(st, t), st.hasCodeGenerator, Bracket(codeGeneration, body))
  {
    RemainsMeans(st, t, codeGeneration, body);
    if Tidy(st, t) && BodyGoes(st.work, st.hasCodeGenerator, body).Going? {
      TidyBracketRemains(st, t, codeGeneration, body);
    } else {
      BracketEnds(st, t, codeGeneration, body);
      FailedBracketRemains(st, t, codeGeneration, body);
    }
  }

  lemma RemainsMeans(st: State, t: TId, codeGeneration: bool, body: seq<Action>)
    ensures RemainsOf(Standing(st, t), st.hasCodeGenerator, Bracket(codeGeneration, body)) <==>
            Tidy(st, t) && BodyGoes(st.work, st.hasCodeGenerator, body).Going? && Leaves(body)
  {
  }

  lemma ActionRemains(st: State, t: TId, action: Action)
    requires Valid(st) && st.current == Some(t) && t in st.txs && st.txs[t].phase == Collecting
    ensures t in Act(st, t, action).txs
    ensures IsEmpty(Act(st, t, action).txs[t]) <==>
            IsEmpty(st.txs[t]) && !RemainsOf(Standing(st, t), st.hasCodeGenerator, action)
  {
    match action
    case Declares(_, _, _) =>
    case Bracket(codeGeneration, body) => BracketRemains(st, t, codeGeneration, body);
  }

  lemma StandingOn(st: State, t: TId, a: State, action: Action)
    requires Tracked(st, t, a, ActionGoes(st.work, st.hasCodeGenerator, action), LeavesAction(action), FailsIn(action))
    ensures Standing(a, t) == GoesOn(Standing(st, t), st.hasCodeGenerator, action)
  {
  }

  lemma ActionStays(st: State, t: TId, action: Action)
    requires Valid(st) && st.current == Some(t) && t in st.txs && st.txs[t].phase == Collecting
    ensures var a := Act(st, t, action);
            Valid(a) && a.current == Some(t) && t in a.txs && a.txs[t].phase == Collecting &&
            a.hasCodeGenerator == st.hasCodeGenerator
  {
    ActKeeps(st, t, action);
    assert KeptTx(st.txs[t], Act(st, t, action).txs[t], st.nextId);
  }

  /** Exactly when something is in a transaction after what is done in it, errors or not. */
  lemma {:induction false} BodyRemains(st: State, t: TId, body: seq<Action>)
    requires Valid(st) && st.current == Some(t) && t in st.txs && st.txs[t].phase == Collecting
    ensures t in ActAll(st, t, body).txs
    ensures IsEmpty(ActAll(st, t, body).txs[t]) <==>
            IsEmpty(st.txs[t]) && !Remains(Standing(st, t), st.hasCodeGenerator, body)
    decreases body
  {
    if body != [] {
      var a := Act(st, t, body[0]);
      ActionTracked(st, t, body[0]);
      StandingOn(st, t, a, body[0]);
      ActionStays(st, t, body[0]);
      ActionRemains(st, t, body[0]);
      BodyRemains(a, t, body[1..]);
    }
  }

  // ---------- the open module ----------

  /** What becomes of the module that is open: nothing, or it goes to `t`, or it leaves. */
  ghost predicate ModulePassed(st: State, t: TId, r: State, taken: bool) {
    if !taken then SameModuleOpen(st, r)
    else NextModuleOpen(st, r) && (t in r.txs ==> r.txs[t].mod == st.openModule) &&
         forall x | x in r.txs && x != t :: r.txs[x].mod != st.openModule
  }

  /** Whether a top-level transaction takes the module: when it is not empty, and rolled back for errors or
      with code generated for it. */
  predicate Takes(b: State, t: TId)
    requires t in b.txs
  {
    b.hasCodeGenerator && !IsEmpty(b.txs[t]) && (HasFailed(b, t) || b.txs[t].codeGeneration)
  }

  lemma TopEndModules(st: State, b: State, t: TId)
    requires InTop(st, b, t) && !IsEmpty(b.txs[t])
    ensures var c := End(b, t);
            t in c.txs && c.txs[t].parent.None? && SameModuleOpen(b, c) && c.hasCodeGenerator == b.hasCodeGenerator &&
            c.txs[t].codeGeneration == b.txs[t].codeGeneration && HasErrors(c.txs, t) == HasFailed(b, t)
  {
    CompletingErrors(b, t);
    CompletingOutside(b, t);
    TopErrorsStay(b, t);
    EndModules(b, t);
  }

  lemma EndModules(b: State, t: TId)
    requires t in b.txs && b.txs[t].parent.None? && !IsEmpty(Completing(b, t)[t])
    ensures var c := End(b, t);
            t in c.txs && c.txs[t].parent.None? && SameModuleOpen(b, c) && c.hasCodeGenerator == b.hasCodeGenerator &&
            c.txs[t].codeGeneration == b.txs[t].codeGeneration
  {
    CompletingOutside(b, t);
  }

  lemma TopPopModules(st: State, b: State, t: TId)
    requires InTop(st, b, t)
    ensures ModulePassed(b, t, Pop(b, t), Takes(b, t))
  {
    if IsEmpty(b.txs[t]) {
      EmptyModules(b, t);
    } else {
      FilledModules(st, b, t);
    }
  }

  lemma FilledModules(st: State, b: State, t: TId)
    requires InTop(st, b, t) && !IsEmpty(b.txs[t])
    ensures ModulePassed(b, t, Pop(b, t), Takes(b, t))
  {
    var c := End(b, t);
    TopEndModules(st, b, t);
    FilledEnds(st, b, t);
    EndedModules(st, c, t);
    PassedFromEnd(b, c, t, Commit(c, t, c.nextId), Takes(b, t));
  }

  lemma FilledEnds(st: State, b: State, t: TId)
    requires InTop(st, b, t) && !IsEmpty(b.txs[t])
    ensures TopEnding(st, End(b, t), t) && (End(b, t).hasErrorOccurred ==> HasErrors(End(b, t).txs, t))
  {
    CompletingOutside(b, t);
    TopEndsFilled(st, b, t);
  }

  lemma PassedFromEnd(b: State, c: State, t: TId, r: State, taken: bool)
    requires SameModuleOpen(b, c) && ModulePassed(c, t, r, taken)
    ensures ModulePassed(b, t, r, taken)
  {
  }

  lemma EmptyModules(b: State, t: TId)
    requires t in b.txs && IsEmpty(b.txs[t])
    ensures SameModuleOpen(b, Pop(b, t))
  {
    CompletingOutside(b, t);
  }

  lemma EndedModules(st: State, c: State, t: TId)
    requires TopEnding(st, c, t) && (c.hasErrorOccurred ==> HasErrors(c.txs, t))
    ensures ModulePassed(c, t, Commit(c, t, c.nextId),
                         c.hasCodeGenerator && (HasErrors(c.txs, t) || c.txs[t].codeGeneration))
  {
    if HasErrors(c.txs, t) {
      CommitFailedValid(c, t);
    } else {
      TopReady(st, c, t);
      TidyTopModules(c, t);
    }
  }

  lemma TidyTopModules(c: State, t: TId)
    requires MayCommit(c, t, c.nextId) && c.txs[t].parent.None? && MayUnload(c, t)
    requires AllCommitted(c.txs, c.txs[t].nested)
    ensures ModulePassed(c, t, Commit(c, t, c.nextId), GeneratesCode(c, t))
  {
    QuietGoesWell(c, c.txs[t].nested);
    CommitTop(c, t);
    GeneratorStays(c, t, c.nextId);
    if Throws(c, t) {
      GonePasses(c, t, Commit(c, t, c.nextId));
    } else {
      CommittedPasses(c, t, Commit(c, t, c.nextId));
    }
  }

  lemma GeneratorStays(st: State, t: TId, bound: nat)
    requires t in st.txs
    ensures Commit(st, t, bound).hasCodeGenerator == st.hasCodeGenerator
  {
    CommitOnward(st, t, bound);
  }

  lemma GonePasses(c: State, t: TId, r: State)
    requires t in c.txs && Gone(c, t, r) && Throws(c, t)
    ensures ModulePassed(c, t, r, GeneratesCode(c, t))
  {
  }

  lemma CommittedPasses(c: State, t: TId, r: State)
    requires Modules(c) && t in c.txs && CommittedTop(c, t, r) && Modules(r) &&
               r.hasCodeGenerator == c.hasCodeGenerator
    ensures ModulePassed(c, t, r, GeneratesCode(c, t))
  {
    forall x | x in r.txs && x != t
      ensures r.txs[x].mod.Some? ==> x in c.txs && r.txs[x].mod == c.txs[x].mod
    {
    }
  }

  /** Whether a bracket takes the open module, told beforehand. */
  predicate TakesModule(st: State, codeGeneration: bool, body: seq<Action>) {
    var start := if st.hasErrorOccurred then Erring else Going(st.work);
    st.hasCodeGenerator && !IsOpen(st) && Remains(start, st.hasCodeGenerator, body) &&
    (st.hasErrorOccurred || BodyGoes(st.work, st.hasCodeGenerator, body).Erring? || codeGeneration)
  }

  lemma TakesAsTold(st: State, codeGeneration: bool, body: seq<Action>, b: State)
    requires Valid(st) && !IsOpen(st) && b == ActAll(Begin(st, codeGeneration), st.nextId, body)
    ensures InTop(st, b, st.nextId) && Takes(b, st.nextId) == TakesModule(st, codeGeneration, body)
  {
    var t, a := st.nextId, Begin(st, codeGeneration);
    OpensTop(st, codeGeneration);
    BodyTracked(a, t, body);
    BodyRemains(a, t, body);
    StaysInTop(st, a, t, body);
    TopBodyTracked(st, codeGeneration, body, b);
  }

  /** A bracket passes on the open module exactly if this is told beforehand: to its own transaction, or out
      of sight if that is rolled back, for errors or for failing initialisers. The next one is open then. */
  lemma BracketModules(st: State, codeGeneration: bool, body: seq<Action>)
    requires Valid(st)
    ensures ModulePassed(st, st.nextId, RunBracket(st, codeGeneration, body), TakesModule(st, codeGeneration, body))
  {
    if IsOpen(st) {
      BracketCloses(st, codeGeneration, body);
    } else {
      var b := ActAll(Begin(st, codeGeneration), st.nextId, body);
      TakesAsTold(st, codeGeneration, body, b);
      TopPopModules(st, b, st.nextId);
    }
  }

  // ---------- over runs ----------

  /** How many modules a run takes, told operation by operation. */
  function ModulesTaken(st: State, ops: seq<Operation>): nat
    decreases |ops|
  {
    if ops == [] then 0
    else (if ops[0].Open? && TakesModule(st, ops[0].codeGeneration, ops[0].body) then 1 else 0) +
         ModulesTaken(Perform(st, ops[0]), ops[1..])
  }

  lemma PerformModules(st: State, op: Operation)
    requires Valid(st)
    ensures Perform(st, op).moduleNo ==
            st.moduleNo + if op.Open? && TakesModule(st, op.codeGeneration, op.body) then 1 else 0
  {
    match op
    case Open(codeGeneration, body) => BracketModules(st, codeGeneration, body);
    case UnloadNewest =>
      if st.deque != [] && Last(st.deque) in st.txs {
        UnloadSound(st, Last(st.deque));
      }
    case Pending(_) =>
  }

  /** A run opens one module for each that is taken. */
  lemma {:induction false} RunOpensExactly(st: State, ops: seq<Operation>)
    requires Valid(st)
    ensures PerformAll(st, ops).moduleNo == st.moduleNo + ModulesTaken(st, ops)
    ensures PerformAll(st, ops).openModule ==
            if st.hasCodeGenerator then Some(st.moduleNo + ModulesTaken(st, ops) - 1) else None
    decreases |ops|
  {
    if ops != [] {
      var a := Perform(st, ops[0]);
      PerformValid(st, ops[0]);
      PerformOnward(st, ops[0]);
      PerformModules(st, ops[0]);
      RunOpensExactly(a, ops[1..]);
    }
  }

  /** The module that a bracket took which was rolled back, be it for errors or for failing initialisers, is
      never seen again: in no later state is it open, or does a transaction have it. */
  lemma RolledBackForGood(st: State, codeGeneration: bool, body: seq<Action>, after: seq<Operation>, m: nat)
    requires Valid(st) && st.openModule == Some(m) && TakesModule(st, codeGeneration, body) &&
               Vanishes(st, codeGeneration, body)
    ensures !IsModule(PerformAll(RunBracket(st, codeGeneration, body), after), m)
  {
    var r := RunBracket(st, codeGeneration, body);
    BracketModules(st, codeGeneration, body);
    TopStaysExactly(st, codeGeneration, body);
    PerformAllOnward(r, after);
    NotSeenAgain(r, PerformAll(r, after), m);
  }

  lemma NotSeenAgain(a: State, b: State, m: nat)
    requires Onward(a, b) && m < a.moduleNo && !IsModule(a, m)
    ensures !IsModule(b, m)
  {
    forall t | t in b.txs && b.txs[t].mod.Some?
      ensures b.txs[t].mod.value != m
    {
      assert ComesFrom(a, t, b.txs[t].mod.value);
    }
  }
}
