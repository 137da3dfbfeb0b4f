/** The protocol as a whole: top-level commits, rollback on errors, and brackets of begin and commit. */
module TransactionProtocol {

  import opened TransactionState
  import opened TransactionInvariants
  import opened TransactionUnload
  import opened TransactionCommit
  import opened PendingWork

  // ---------- rollback ----------

  lemma PrunedModules(a: State, b: State, open: nat)
    requires Pruned(a, b) && ModulesApart(a.txs, open)
    ensures ModulesApart(b.txs, open)
  {
  }

  /** Unloading keeps the whole invariant. */
  lemma UnloadValid(st: State, t: TId)
    requires Valid(st) && t in st.txs && MayUnload(st, t)
    ensures Valid(Unload(st, t)) && t !in Unload(st, t).txs
    ensures st.current == Some(t) ==> Unload(st, t).current == st.txs[t].parent
  {
    UnloadSound(st, t);
    PrunedModules(st, Unload(st, t), if st.hasCodeGenerator then st.moduleNo - 1 else st.moduleNo);
  }

  lemma TakeModuleSound(st: State, t: TId)
    requires Sound(st) && t in st.txs
    ensures Sound(TakeModule(st, t))
  {
    if st.openModule.Some? {
      var tx := st.txs[t].(mod := st.openModule);
      UpdateLinked(st.txs, st.nextId, t, tx);
      UpdateChained(st.txs, st.deque, t, tx);
      UpdateSettled(st.txs, st.clock, st.clock, t, tx);
    }
  }

  /** The open module leaves with the transaction that is rolled back, and a new one is open. */
  lemma FailedModules(st: State, t: TId, b: State)
    requires Modules(st) && t in st.txs && Pruned(TakeModule(st, t).(hasErrorOccurred := false), b) && t !in b.txs
    ensures Modules(StartModule(b))
  {
    var a := TakeModule(st, t);
    assert forall x | x in b.txs ::
      x != t && x in st.txs && b.txs[x].mod == st.txs[x].mod && b.txs[x].parent == st.txs[x].parent;
  }

  /** The module with the next number is open. */
  predicate NextModuleOpen(st: State, r: State) {
    r.openModule == Some(st.moduleNo) && r.moduleNo == st.moduleNo + 1
  }

  predicate SameModuleOpen(st: State, r: State) {
    r.openModule == st.openModule && r.moduleNo == st.moduleNo
  }

  /** The module that was open has left: the next one is open, and no transaction has the old one. */
  ghost predicate ModuleLeft(st: State, r: State) {
    NextModuleOpen(st, r) && forall x | x in r.txs :: r.txs[x].mod != st.openModule
  }

  lemma FailedLeaves(st: State, t: TId, b: State)
    requires Modules(st) && t in st.txs && st.hasCodeGenerator && t !in b.txs
    requires Pruned(TakeModule(st, t).(hasErrorOccurred := false), b)
    ensures ModuleLeft(st, StartModule(b))
  {
    assert forall x | x in b.txs :: x != t && x in st.txs && b.txs[x].mod == st.txs[x].mod;
  }

  /** A transaction with errors is unloaded. A top-level one takes the module that was open with it, with
      whatever has been emitted into it, and a new module is open. */
  lemma CommitFailedValid(st: State, t: TId)
    requires Valid(st) && t in st.txs && MayUnload(st, t)
    ensures var r := CommitFailed(st, t);
            Valid(r) && t !in r.txs && !r.hasErrorOccurred &&
            (st.current == Some(t) ==> r.current == st.txs[t].parent) &&
            if st.txs[t].parent.None? && st.hasCodeGenerator then ModuleLeft(st, r) else SameModuleOpen(st, r)
  {
    if st.txs[t].parent.None? && st.hasCodeGenerator {
      var a := TakeModule(st, t).(hasErrorOccurred := false);
      TakeModuleSound(st, t);
      UnloadSound(a, t);
      FailedModules(st, t, Unload(a, t));
      FailedLeaves(st, t, Unload(a, t));
    } else {
      UnloadValid(st.(hasErrorOccurred := false), t);
      UnloadSound(st.(hasErrorOccurred := false), t);
    }
  }

  // ---------- the commit of a top-level transaction ----------

  lemma ModuleTakenModules(st: State, t: TId)
    requires Modules(st) && t in st.txs && st.txs[t].parent.None? && st.hasCodeGenerator
    ensures Modules(StartModule(TakeModule(st, t)))
  {
  }

  /** A top-level transaction takes the open module, and the next one is open. */
  lemma ModuleTaken(st: State, t: TId)
    requires Valid(st) && t in st.txs && st.txs[t].parent.None? && st.hasCodeGenerator
    ensures var a := StartModule(TakeModule(st, t));
            Valid(a) && a == st.(txs := st.txs[t := st.txs[t].(mod := Some(st.moduleNo - 1))],
                                 openModule := Some(st.moduleNo), moduleNo := st.moduleNo + 1)
  {
    TakeModuleSound(st, t);
    ModuleTakenModules(st, t);
  }

  /** What the top-level transaction looks like after it ran. */
  function Ran(st: State, t: TId): Tx
    requires t in st.txs && st.hasCodeGenerator && st.moduleNo > 0
  {
    st.txs[t].(mod := Some(st.moduleNo - 1), phase := Committed, committedAt := st.clock,
               runs := st.txs[t].runs + 1, runAt := st.clock + 1)
  }

  /** The state after the initialisers have run. */
  function AfterRun(st: State, t: TId): State
    requires t in st.txs && st.hasCodeGenerator && st.moduleNo > 0
  {
    st.(txs := st.txs[t := Ran(st, t)], openModule := Some(st.moduleNo), moduleNo := st.moduleNo + 1,
        clock := st.clock + 2)
  }

  lemma UpdateTwice(txs: Txs, t: TId, x: Tx, y: Tx)
    ensures txs[t := x][t := y] == txs[t := y]
  {
  }

  lemma RunMeans(st: State, t: TId)
    requires t in st.txs && st.hasCodeGenerator && st.moduleNo > 0 && ModuleOpen(st) && st.txs[t].phase == Completed
    ensures Execute(SetCommitted(StartModule(TakeModule(st, t)), t), t) == AfterRun(st, t)
  {
    var tx := st.txs[t].(mod := Some(st.moduleNo - 1));
    UpdateTwice(st.txs, t, tx, tx.(phase := Committed, committedAt := st.clock));
    UpdateTwice(st.txs, t, tx.(phase := Committed, committedAt := st.clock), Ran(st, t));
  }

  lemma AfterRunValid(st: State, t: TId)
    requires Valid(st) && t in st.txs && st.txs[t].parent.None? && st.hasCodeGenerator && st.txs[t].phase == Completed
    requires AllCommitted(st.txs, st.txs[t].nested)
    ensures Valid(AfterRun(st, t))
  {
    RunMeans(st, t);
    ModuleTaken(st, t);
    var a := StartModule(TakeModule(st, t));
    SetCommittedValid(a, t);
    ExecuteValid(SetCommitted(a, t), t);
  }

  /** Apart from `t`, nothing took a module or ran, and what came is committed; what is older than `t`
      is as before. */
  ghost predicate OthersQuiet(st: State, t: TId, r: State) {
    (forall x | x in st.txs && x != t ::
      x in r.txs && r.txs[x].parent == st.txs[x].parent && r.txs[x].mod == st.txs[x].mod &&
      r.txs[x].runs == st.txs[x].runs) &&
    (forall x | x in r.txs && x !in st.txs :: CameAndCommitted(r.txs[x])) &&
    (forall x | x in st.txs && x < t :: x in r.txs && r.txs[x] == st.txs[x])
  }

  /** The transaction took the open module and ran once, after it was committed. */
  predicate TookModuleAndRan(st: State, t: TId, r: State)
    requires t in st.txs && t in r.txs
  {
    r.txs[t].mod == st.openModule && r.txs[t].runs == st.txs[t].runs + 1 && r.txs[t].runAt > r.txs[t].committedAt &&
    r.moduleNo == st.moduleNo + 1
  }

  predicate TookNothing(st: State, t: TId, r: State)
    requires t in st.txs && t in r.txs
  {
    r.txs[t].mod == st.txs[t].mod && r.txs[t].runs == st.txs[t].runs && r.moduleNo == st.moduleNo
  }

  /** What the commit of a top-level transaction without errors achieves. Errors that come meanwhile are
      noted at it, but it is committed and runs all the same. */
  ghost predicate CommittedTop(st: State, t: TId, r: State) {
    t in st.txs && t in r.txs && r.txs[t].phase == Committed && OthersQuiet(st, t, r) &&
    (AllCommitted(st.txs, st.txs[t].nested) ==>
      r.current == st.current && Noted(r, t, TopGoes(st.work, GeneratesCode(st, t)))) &&
    if st.txs[t].codeGeneration && st.hasCodeGenerator then TookModuleAndRan(st, t, r) else TookNothing(st, t, r)
  }

  lemma GrownQuiet(st: State, b: State, t: TId, r: State)
    requires Grown(st, b, t, t) && t in st.txs && forall x | x in b.txs && x != t :: x in r.txs && r.txs[x] == b.txs[x]
    requires forall x | x in r.txs :: x in b.txs
    ensures OthersQuiet(st, t, r)
  {
    forall x | x in st.txs
      ensures x in b.txs && GrownTx(st.txs[x], b.txs[x], st.nextId)
    {
    }
  }

  /** Both hooks of the code generation of a top-level transaction. */
  function HookedTwice(st: State, t: TId): State {
    Hook(Hook(st.(current := Some(t)), true), true)
  }

  /** Code may be generated for the current transaction. */
  ghost predicate Generating(st: State, t: TId) {
    Valid(st) && IsCurrent(st, t) && st.txs[t].phase == Completed && AllCommitted(st.txs, st.txs[t].nested)
  }

  /** Hooks have left the current transaction, which is a top-level one, ready for code generation. */
  ghost predicate StillGenerating(st: State, t: TId, progress: Progress, c: State) {
    t in st.txs && Generating(c, t) && Grown(st, c, t, t) && (!st.txs[t].hasErrors ==> Noted(c, t, progress)) &&
    (st.txs[t].hasErrors ==> HasErrors(c.txs, t))
  }

  lemma OneMoreHook(st: State, t: TId)
    requires Generating(st, t) && st.txs[t].parent.None?
    ensures StillGenerating(st, t, HookGoes(st.work, st.hasCodeGenerator), Hook(st, true))
  {
    HookGrows(st, t, true);
    assert st == st.(current := Some(t)) && Root(st.txs, t) == t;
    HookedKeeps(st, Hook(st, true), t, st.hasCodeGenerator);
  }

  lemma OneHookAfter(st: State, a: State, t: TId, progress: Progress, c: State)
    requires StillGenerating(st, t, progress, a) && StillGenerating(a, t, HookGoes(a.work, st.hasCodeGenerator), c) &&
               st.hasCodeGenerator
    requires st.txs[t].parent.None? && a.txs[t].parent.None?
    ensures StillGenerating(st, t, Generates(progress, true), c)
  {
    GrownTwice(st, a, c, t, t, t);
    NotedOn(a, c, t, progress);
  }

  lemma NotedOn(a: State, c: State, t: TId, progress: Progress)
    requires HasErrors(a.txs, t) ==> HasErrors(c.txs, t)
    requires !HasErrors(a.txs, t) ==> Noted(c, t, HookGoes(a.work, true))
    ensures Noted(a, t, progress) ==> Noted(c, t, Generates(progress, true))
  {
  }

  lemma BothHooks(st: State, t: TId)
    requires Generating(st.(current := Some(t)), t) && st.txs[t].parent.None? && st.hasCodeGenerator
    ensures StillGenerating(st.(current := Some(t)), t, Generates(HookGoes(st.work, true), true), HookedTwice(st, t))
  {
    var s := st.(current := Some(t));
    var a := Hook(s, true);
    OneMoreHook(s, t);
    assert GrownTx(s.txs[t], a.txs[t], s.nextId);
    OneMoreHook(a, t);
    OneHookAfter(s, a, t, HookGoes(st.work, true), HookedTwice(st, t));
  }

  lemma TopRuns(st: State, c: State, t: TId, previous: Option<TId>)
    requires t in st.txs && Modules(st) && st.hasCodeGenerator && st.txs[t].codeGeneration && Grown(st, c, t, t)
    requires t in c.txs && c.hasCodeGenerator && c.moduleNo > 0 && st.txs[t].parent.None?
    requires AllCommitted(st.txs, st.txs[t].nested) ==> previous == st.current && Noted(c, t, TopGoes(st.work, true))
    ensures CommittedTop(st, t, AfterRun(c, t).(current := previous))
  {
    var r := AfterRun(c, t).(current := previous);
    assert GrownTx(st.txs[t], c.txs[t], st.nextId);
    assert HasErrors(r.txs, t) == HasErrors(c.txs, t);
    GrownQuiet(st, c, t, r);
  }

  lemma TopCommits(st: State, b: State, t: TId)
    requires t in st.txs && t in b.txs && !GeneratesCode(st, t) && Grown(st, b, t, t) && st.txs[t].parent.None?
    requires AllCommitted(st.txs, st.txs[t].nested) ==> b.current == st.current && Noted(b, t, HookGoes(st.work, false))
    ensures CommittedTop(st, t, SetCommitted(b, t))
  {
    assert GrownTx(st.txs[t], b.txs[t], st.nextId);
    TopGoesHookByHook(st.work);
    assert HasErrors(SetCommitted(b, t).txs, t) == HasErrors(b.txs, t);
    GrownQuiet(st, b, t, SetCommitted(b, t));
  }

  /** Whether the initialisers of `t` run, and fail. */
  predicate Throws(st: State, t: TId)
    requires t in st.txs
  {
    st.txs[t].codeGeneration && st.hasCodeGenerator && st.txs[t].initialisersFail
  }

  /** A top-level transaction was rolled back when its initialisers failed; its module has left with it. */
  ghost predicate Gone(st: State, t: TId, r: State) {
    t !in r.txs && r.current == None && ModuleLeft(st, r)
  }

  lemma GenerateIsRun(b: State, t: TId)
    requires t in b.txs
    requires t in Hook(b.(current := Some(t)), true).txs && Hook(b.(current := Some(t)), true).txs[t].parent.None?
    requires t in HookedTwice(b, t).txs
    ensures Generate(b, t) == Run(HookedTwice(b, t), t, b.current)
  {
  }

  lemma RunIs(c: State, t: TId, previous: Option<TId>)
    requires t in c.txs && c.hasCodeGenerator && c.moduleNo > 0 && ModuleOpen(c) && c.txs[t].phase == Completed
    ensures Run(c, t, previous) ==
            if c.txs[t].initialisersFail then Unload(AfterRun(c, t), t) else AfterRun(c, t).(current := previous)
  {
    RunMeans(c, t);
  }

  lemma RunsOrGoes(c: State, t: TId, previous: Option<TId>)
    requires Valid(c) && t in c.txs && c.txs[t].parent.None? && MayUnload(c, t) && c.hasCodeGenerator
    requires c.txs[t].phase == Completed && AllCommitted(c.txs, c.txs[t].nested) &&
               (previous.Some? ==> previous.value in c.txs)
    ensures Valid(Run(c, t, previous))
    ensures if c.txs[t].initialisersFail then
              t !in Run(c, t, previous).txs && (c.current == Some(t) ==> Run(c, t, previous).current == None) &&
              ModuleLeft(c, Run(c, t, previous))
            else Run(c, t, previous) == AfterRun(c, t).(current := previous)
  {
    RunIs(c, t, previous);
    AfterRunValid(c, t);
    if c.txs[t].initialisersFail {
      AfterRunGoes(c, t);
    } else {
      CurrentValid(AfterRun(c, t), previous);
    }
  }

  lemma AfterRunGoes(c: State, t: TId)
    requires t in c.txs && c.hasCodeGenerator && Modules(c) && Valid(AfterRun(c, t)) && MayUnload(c, t)
    ensures Valid(Unload(AfterRun(c, t), t)) && t !in Unload(AfterRun(c, t), t).txs
    ensures c.current == Some(t) ==> Unload(AfterRun(c, t), t).current == c.txs[t].parent
    ensures ModuleLeft(c, Unload(AfterRun(c, t), t))
  {
    UnloadValid(AfterRun(c, t), t);
    UnloadSound(AfterRun(c, t), t);
    OthersHaveOlder(c, t, Unload(AfterRun(c, t), t));
  }

  lemma OthersHaveOlder(c: State, t: TId, r: State)
    requires t in c.txs && c.hasCodeGenerator && Modules(c) && Pruned(AfterRun(c, t), r) && t !in r.txs
    ensures ModuleLeft(c, r)
  {
    assert forall x | x in r.txs :: x != t && x in c.txs && r.txs[x].mod == c.txs[x].mod;
  }

  lemma CurrentValid(st: State, current: Option<TId>)
    requires Valid(st) && (current.Some? ==> current.value in st.txs)
    ensures Valid(st.(current := current))
  {
  }

  lemma RunTop(st: State, c: State, t: TId, previous: Option<TId>)
    requires Valid(st) && t in st.txs && st.txs[t].parent.None? && MayUnload(st, t)
    requires st.hasCodeGenerator && st.txs[t].codeGeneration
    requires Grown(st, c, t, t) && Generating(c, t) && (previous.Some? ==> previous.value in c.txs)
    requires AllCommitted(st.txs, st.txs[t].nested) ==> previous == st.current && Noted(c, t, TopGoes(st.work, true))
    ensures Valid(Run(c, t, previous))
    ensures if Throws(st, t) then Gone(st, t, Run(c, t, previous)) else CommittedTop(st, t, Run(c, t, previous))
  {
    assert GrownTx(st.txs[t], c.txs[t], st.nextId);
    RunsOrGoes(c, t, previous);
    if !Throws(st, t) {
      TopRuns(st, c, t, previous);
    }
  }

  lemma GeneratesTop(b: State, t: TId)
    requires Generating(b.(current := Some(t)), t) && b.txs[t].parent.None? && b.hasCodeGenerator
    ensures StillGenerating(b.(current := Some(t)), t, Generates(HookGoes(b.work, true), true), HookedTwice(b, t))
    ensures Generate(b, t) == Run(HookedTwice(b, t), t, b.current)
  {
    BothHooks(b, t);
    OneMoreHook(b.(current := Some(t)), t);
    assert GrownTx(b.txs[t], Hook(b.(current := Some(t)), true).txs[t], b.nextId);
    GenerateIsRun(b, t);
  }

  lemma GenerateTop(st: State, b: State, c: State, t: TId)
    requires Valid(st) && t in st.txs && st.txs[t].parent.None? && MayUnload(st, t) && Prepared(st, b, t)
    requires st.hasCodeGenerator && st.txs[t].codeGeneration
    requires StillGenerating(b.(current := Some(t)), t, Generates(HookGoes(b.work, true), true), c)
    ensures Valid(Run(c, t, b.current))
    ensures if Throws(st, t) then Gone(st, t, Run(c, t, b.current)) else CommittedTop(st, t, Run(c, t, b.current))
  {
    assert GrownTx(st.txs[t], b.txs[t], st.nextId);
    GrownFrom(b, b.(current := Some(t)), c, t, t);
    GrownTwice(st, b, c, t, t, t);
    TopNoted(st, b, c, t);
    RunTop(st, c, t, b.current);
  }

  lemma TopNoted(st: State, b: State, c: State, t: TId)
    requires t in b.txs && (b.txs[t].hasErrors ==> HasErrors(c.txs, t)) && b.txs[t].parent.None?
    requires !b.txs[t].hasErrors ==> Noted(c, t, Generates(HookGoes(b.work, true), true))
    ensures Noted(b, t, HookGoes(st.work, true)) ==> Noted(c, t, TopGoes(st.work, true))
  {
    TopGoesHookByHook(st.work);
  }

  lemma FinishTop(st: State, b: State, t: TId)
    requires Valid(st) && t in st.txs && st.txs[t].parent.None? && MayUnload(st, t) && Prepared(st, b, t)
    ensures Valid(Finish(b, t))
    ensures if Throws(st, t) then Gone(st, t, Finish(b, t)) else CommittedTop(st, t, Finish(b, t))
  {
    assert GrownTx(st.txs[t], b.txs[t], st.nextId);
    if b.txs[t].codeGeneration && b.hasCodeGenerator {
      CurrentValid(b, Some(t));
      GeneratesTop(b, t);
      GenerateTop(st, b, HookedTwice(b, t), t);
    } else {
      CommittingGrows(b, t);
      TopCommits(st, b, t);
    }
  }

  /** Committing a top-level transaction without errors, with everything nested in it, when no errors come
      while what is nested is committed. */
  lemma CommitTop(st: State, t: TId)
    requires MayCommit(st, t, st.nextId) && st.txs[t].parent.None? && MayUnload(st, t) && GoesWell(st, st.txs[t].nested)
    ensures Valid(Commit(st, t, st.nextId))
    ensures if Throws(st, t) then Gone(st, t, Commit(st, t, st.nextId))
              else CommittedTop(st, t, Commit(st, t, st.nextId))
  {
    PrepareGrows(st, t, st.nextId);
    var a := CommitNested(st, t, st.txs[t].nested, st.nextId);
    var b := Hook(a.(current := Some(t)), a.txs[t].codeGeneration).(current := a.current);
    CommitGoodIs(st, t, st.nextId, a, b);
    FinishTop(st, b, t);
  }

  /** Errors that come with the last nested transaction that is open: the transaction around it goes, and
      what it is nested in is current. The open module is not taken. */
  lemma NestedErrorsRollBack(st: State, t: TId, bound: nat)
    requires MayCommit(st, t, bound) && MayUnload(st, t) && Orderly(st, st.txs[t].nested) &&
               NestedErrs(st, st.txs[t].nested)
    ensures var r := Commit(st, t, bound);
            Valid(r) && t !in r.txs && r.current == st.txs[t].parent && r.openModule == st.openModule &&
            r.moduleNo == st.moduleNo
  {
    var s := ToParent(st, t);
    ToParentReady(st, t, bound);
    NestedReadyAtFirst(s, t, bound);
    CommitNestedGrows(s, t, s.txs[t].nested, bound);
    RollsBackAfter(s, CommitNested(s, t, s.txs[t].nested, bound), t);
  }

  lemma RollsBackAfter(st: State, a: State, t: TId)
    requires t in st.txs && MayUnload(st, t) && !HasErrors(st.txs, t) && NestedErrs(st, st.txs[t].nested)
    requires AllNestedCommitted(st, t, st.txs[t].nested, a)
    ensures t in a.txs && HasErrors(a.txs, t)
    ensures var r := Unload(a, t);
            Valid(r) && t !in r.txs && r.current == st.txs[t].parent && r.openModule == st.openModule &&
            r.moduleNo == st.moduleNo
  {
    assert GrownTx(st.txs[t], a.txs[t], st.nextId);
    UnloadValid(a, t);
    UnloadSound(a, t);
  }
}
