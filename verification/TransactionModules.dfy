/** Where modules go, over whole runs: numbers only grow, and what a transaction has it was given once. */
module TransactionModules {

  import opened Decimals
  import opened TransactionState
  import opened TransactionInvariants
  import opened TransactionBrackets
  import opened TransactionRuns

  // ---------- from one state to a later one ----------

  /** A module of a transaction is one that it had before, or the one that was open, or a newer one. */
  predicate ComesFrom(a: State, t: TId, mod: nat) {
    (t in a.txs && a.txs[t].mod == Some(mod)) || a.openModule == Some(mod) || mod >= a.moduleNo
  }

  ghost predicate Onward(a: State, b: State) {
    a.hasCodeGenerator == b.hasCodeGenerator && a.moduleNo <= b.moduleNo &&
    (!a.hasCodeGenerator ==> b.moduleNo == a.moduleNo) &&
    (b.openModule.Some? ==> b.openModule == a.openModule || b.openModule.value >= a.moduleNo) &&
    forall t | t in b.txs && b.txs[t].mod.Some? :: ComesFrom(a, t, b.txs[t].mod.value)
  }

  lemma OnwardTwice(a: State, b: State, c: State)
    requires Onward(a, b) && Onward(b, c)
    ensures Onward(a, c)
  {
    forall t | t in c.txs && c.txs[t].mod.Some?
      ensures ComesFrom(a, t, c.txs[t].mod.value)
    {
      assert ComesFrom(b, t, c.txs[t].mod.value);
    }
  }

  /** Steps that neither give nor open a module. */
  ghost predicate LeavesModules(a: State, b: State) {
    b == a.(txs := b.txs, deque := b.deque, current := b.current, nextId := b.nextId,
            hasErrorOccurred := b.hasErrorOccurred, work := b.work, clock := b.clock) &&
    forall t | t in b.txs && b.txs[t].mod.Some? :: t in a.txs && a.txs[t].mod == b.txs[t].mod
  }

  lemma LeavingIsOnward(a: State, b: State)
    requires LeavesModules(a, b)
    ensures Onward(a, b)
  {
  }

  // ---------- single steps ----------

  lemma BeginOnward(st: State, codeGeneration: bool)
    ensures Onward(st, Begin(st, codeGeneration))
  {
    LeavingIsOnward(st, Begin(st, codeGeneration));
  }

  lemma DeclareOnward(st: State, t: TId, decls: nat, error: bool, initialisersFail: bool)
    requires t in st.txs
    ensures Onward(st, Declare(st, t, decls, error, initialisersFail))
  {
    LeavingIsOnward(st, Declare(st, t, decls, error, initialisersFail));
  }

  lemma ReleasedMods(txs: Txs, t: TId)
    requires t in txs
    ensures forall x | x in Released(txs, t) :: x in txs && Released(txs, t)[x].mod == txs[x].mod
  {
  }

  lemma EndOnward(st: State, t: TId)
    requires t in st.txs
    ensures Onward(st, End(st, t))
  {
    CompletingMods(st, t);
    if IsEmpty(Completing(st, t)[t]) {
      ReleasedMods(Completing(st, t), t);
    }
    LeavingIsOnward(st, End(st, t));
  }

  lemma CompletingMods(st: State, t: TId)
    requires t in st.txs
    ensures t in Completing(st, t)
    ensures forall x | x in Completing(st, t) :: x in st.txs && Completing(st, t)[x].mod == st.txs[x].mod
  {
  }

  lemma TakeOnward(st: State, t: TId)
    requires t in st.txs
    ensures Onward(st, TakeModule(st, t))
  {
  }

  lemma StartOnward(st: State)
    ensures Onward(st, StartModule(st))
  {
  }

  lemma CommittedOnward(st: State, t: TId)
    requires t in st.txs
    ensures Onward(st, SetCommitted(st, t))
  {
    LeavingIsOnward(st, SetCommitted(st, t));
  }

  lemma DeregisterOnward(st: State, t: TId)
    requires t in st.txs
    ensures Onward(st, Deregister(st, t))
  {
    ReleasedMods(st.txs, t);
    var txs := if st.deque != [] then SetNext(st.txs, Init(st.deque), None) else st.txs;
    ReleasedMods(txs, t);
    LeavingIsOnward(st, Deregister(st, t));
  }

  lemma {:induction false} UnloadOnward(st: State, t: TId)
    requires t in st.txs
    ensures Onward(st, Unload(st, t))
    decreases Above(st.nextId, t), 1, 0
  {
    var a := UnloadNested(st, t, st.txs[t].nested);
    UnloadNestedOnward(st, t, st.txs[t].nested);
    if t in a.txs {
      DeregisterOnward(a, t);
      OnwardTwice(st, a, Deregister(a, t));
    }
  }

  lemma {:induction false} UnloadNestedOnward(st: State, t: TId, list: seq<TId>)
    ensures Onward(st, UnloadNested(st, t, list))
    decreases Above(st.nextId, t), 0, |list|
  {
    if list == [] {
      LeavingIsOnward(st, st);
    } else {
      var last := Last(list);
      var a := if last in st.txs && t < last < st.nextId then Unload(st, last) else st;
      if last in st.txs && t < last < st.nextId {
        UnloadOnward(st, last);
      } else {
        LeavingIsOnward(st, st);
      }
      UnloadNestedOnward(a, t, Init(list));
      OnwardTwice(st, a, UnloadNested(a, t, Init(list)));
    }
  }

  // ---------- commits ----------

  lemma {:induction false} CommitOnward(st: State, t: TId, bound: nat)
    requires t in st.txs
    ensures Onward(st, Commit(st, t, bound))
    decreases |st.work|, Above(bound, t), 6, 0
  {
    var a := ToParent(st, t);
    LeavingIsOnward(st, a);
    if HasErrors(a.txs, t) {
      FailedOnward(a, t);
    } else {
      GoodOnward(a, t, bound);
    }
    OnwardTwice(st, a, Commit(st, t, bound));
  }

  lemma FailedOnward(st: State, t: TId)
    requires t in st.txs
    ensures Onward(st, CommitFailed(st, t))
  {
    var top := st.txs[t].parent.None? && st.hasCodeGenerator;
    var a := if top then TakeModule(st, t) else st;
    TakeOnward(st, t);
    LeavingIsOnward(st, st);
    LeavingIsOnward(a, a.(hasErrorOccurred := false));
    var b := Unload(a.(hasErrorOccurred := false), t);
    UnloadOnward(a.(hasErrorOccurred := false), t);
    OnwardTwice(st, a, a.(hasErrorOccurred := false));
    OnwardTwice(st, a.(hasErrorOccurred := false), b);
    StartOnward(b);
    OnwardTwice(st, b, StartModule(b));
  }

  lemma {:induction false} GoodOnward(st: State, t: TId, bound: nat)
    requires t in st.txs
    ensures Onward(st, CommitGood(st, t, bound))
    decreases |st.work|, Above(bound, t), 5, 0
  {
    var a := CommitNested(st, t, st.txs[t].nested, bound);
    NestedOnward(st, t, st.txs[t].nested, bound);
    if t in a.txs && HasErrors(a.txs, t) {
      UnloadOnward(a, t);
      OnwardTwice(st, a, Unload(a, t));
    } else if t in a.txs {
      var s := a.(current := Some(t));
      var h := Hook(s, a.txs[t].codeGeneration);
      var b := h.(current := a.current);
      LeavingIsOnward(a, s);
      HookOnward(s, a.txs[t].codeGeneration);
      OnwardTwice(a, s, h);
      LeavingIsOnward(h, b);
      OnwardTwice(a, h, b);
      FinishOnward(b, t);
      OnwardTwice(st, a, b);
      OnwardTwice(st, b, Finish(b, t));
    }
  }

  lemma {:induction false} FinishOnward(st: State, t: TId)
    ensures Onward(st, Finish(st, t))
    decreases |st.work|, 0, 4, 0
  {
    if t !in st.txs {
      LeavingIsOnward(st, st);
    } else if st.txs[t].codeGeneration && st.hasCodeGenerator {
      GenerateOnward(st, t);
    } else {
      CommittedOnward(st, t);
    }
  }

  lemma {:induction false} NestedOnward(st: State, t: TId, list: seq<TId>, bound: nat)
    ensures Onward(st, CommitNested(st, t, list, bound))
    decreases |st.work|, Above(bound, t), 2, |list|
  {
    LeavingIsOnward(st, st);
    if list != [] {
      var c := list[0];
      var a := if c in st.txs && st.txs[c].phase != Committed && t < c < bound then Commit(st, c, bound) else st;
      if c in st.txs && st.txs[c].phase != Committed && t < c < bound {
        CommitOnward(st, c, bound);
      }
      NestedOnward(a, t, list[1..], bound);
      OnwardTwice(st, a, CommitNested(a, t, list[1..], bound));
    }
  }

  lemma {:induction false} HookOnward(st: State, codeGeneration: bool)
    ensures Onward(st, Hook(st, codeGeneration))
    decreases |st.work|, 0, 1, 0
  {
    var t, filled := st.nextId, Filling(st, codeGeneration);
    var a := End(filled, t);
    FilledOnward(st, codeGeneration);
    if t !in a.txs {
      NothingOnward(st, a, EndFails(filled, t));
    } else if st.work != [] {
      CommitOnward(a, t, t + 1);
      OnwardTwice(st, a, Commit(a, t, t + 1));
    }
  }

  lemma FilledOnward(st: State, codeGeneration: bool)
    ensures Onward(st, End(Filling(st, codeGeneration), st.nextId))
  {
    var filled := Filling(st, codeGeneration);
    FillingOnward(st, codeGeneration);
    EndOnward(filled, st.nextId);
    OnwardTwice(st, filled, End(filled, st.nextId));
  }

  lemma NothingOnward(st: State, a: State, failed: bool)
    requires Onward(st, a)
    ensures Onward(st, CommitNothing(a, failed))
  {
    LeavingIsOnward(a, CommitNothing(a, failed));
    OnwardTwice(st, a, CommitNothing(a, failed));
  }

  lemma FillingOnward(st: State, codeGeneration: bool)
    ensures Onward(st, Filling(st, codeGeneration))
  {
    LeavingIsOnward(st, Filling(st, codeGeneration));
  }

  lemma {:induction false} GenerateOnward(st: State, t: TId)
    requires t in st.txs
    ensures Onward(st, Generate(st, t))
    decreases |st.work|, 0, 3, 0
  {
    var s := st.(current := Some(t));
    LeavingIsOnward(st, s);
    HookOnward(s, true);
    OnwardTwice(st, s, Hook(s, true));
    RestOnward(Hook(s, true), t, st.current);
    OnwardTwice(st, Hook(s, true), Generate(st, t));
  }

  lemma {:induction false} RestOnward(st: State, t: TId, previous: Option<TId>)
    ensures Onward(st, GenerateRest(st, t, previous))
    decreases |st.work|, 0, 2, 0
  {
    LeavingIsOnward(st, st);
    if t in st.txs && st.txs[t].parent.Some? {
      CommittedOnward(st, t);
      LeavingIsOnward(SetCommitted(st, t), SetCommitted(st, t).(current := previous));
      OnwardTwice(st, SetCommitted(st, t), SetCommitted(st, t).(current := previous));
    } else if t in st.txs {
      var a := Hook(st, true);
      HookOnward(st, true);
      if t in a.txs {
        RunOnward(a, t, previous);
        OnwardTwice(st, a, Run(a, t, previous));
      }
    }
  }

  lemma RunOnward(st: State, t: TId, previous: Option<TId>)
    requires t in st.txs
    ensures Onward(st, Run(st, t, previous))
  {
    var taken := TakeModule(st, t);
    TakeOnward(st, t);
    StartOnward(taken);
    OnwardTwice(st, taken, StartModule(taken));
    var b := SetCommitted(StartModule(taken), t);
    CommittedOnward(StartModule(taken), t);
    OnwardTwice(st, StartModule(taken), b);
    var a := Execute(b, t);
    LeavingIsOnward(b, a);
    OnwardTwice(st, b, a);
    if a.txs[t].initialisersFail {
      UnloadOnward(a, t);
      OnwardTwice(st, a, Unload(a, t));
    } else {
      LeavingIsOnward(a, a.(current := previous));
      OnwardTwice(st, a, a.(current := previous));
    }
  }

  // ---------- brackets and runs ----------

  lemma PopOnward(st: State, t: TId)
    ensures Onward(st, Pop(st, t))
  {
    LeavingIsOnward(st, st);
    if t in st.txs {
      var a := End(st, t);
      EndOnward(st, t);
      if t in a.txs {
        CommitOnward(a, t, a.nextId);
        OnwardTwice(st, a, Commit(a, t, a.nextId));
      }
    }
  }

  lemma {:induction false} ActAllOnward(st: State, t: TId, actions: seq<Action>)
    ensures Onward(st, ActAll(st, t, actions))
    decreases actions, 0
  {
    LeavingIsOnward(st, st);
    if actions != [] {
      var a := Act(st, t, actions[0]);
      ActOnward(st, t, actions[0]);
      ActAllOnward(a, t, actions[1..]);
      OnwardTwice(st, a, ActAll(a, t, actions[1..]));
    }
  }

  lemma {:induction false} ActOnward(st: State, t: TId, action: Action)
    ensures Onward(st, Act(st, t, action))
    decreases action, 1
  {
    LeavingIsOnward(st, st);
    match action
    case Declares(decls, error, initialisersFail) =>
      if t in st.txs {
        DeclareOnward(st, t, decls, error, initialisersFail);
      }
    case Bracket(codeGeneration, body) => BracketOnward(st, codeGeneration, body);
  }

  lemma {:induction false} BracketOnward(st: State, codeGeneration: bool, body: seq<Action>)
    ensures Onward(st, RunBracket(st, codeGeneration, body))
    decreases body, 1
  {
    var a := Begin(st, codeGeneration);
    var b := ActAll(a, st.nextId, body);
    BeginOnward(st, codeGeneration);
    ActAllOnward(a, st.nextId, body);
    OnwardTwice(st, a, b);
    PopOnward(b, st.nextId);
    OnwardTwice(st, b, Pop(b, st.nextId));
  }

  lemma {:induction false} PerformAllOnward(st: State, ops: seq<Operation>)
    ensures Onward(st, PerformAll(st, ops))
    decreases |ops|
  {
    LeavingIsOnward(st, st);
    if ops != [] {
      var a := Perform(st, ops[0]);
      PerformOnward(st, ops[0]);
      PerformAllOnward(a, ops[1..]);
      OnwardTwice(st, a, PerformAll(a, ops[1..]));
    }
  }

  lemma PerformOnward(st: State, op: Operation)
    ensures Onward(st, Perform(st, op))
  {
    LeavingIsOnward(st, st);
    match op
    case Open(codeGeneration, body) => BracketOnward(st, codeGeneration, body);
    case UnloadNewest =>
      if st.deque != [] && Last(st.deque) in st.txs {
        UnloadOnward(st, Last(st.deque));
      }
    case Pending(batches) => LeavingIsOnward(st, Perform(st, op));
  }

  // ---------- modules over a run ----------

  function MakeModuleName(moduleNo: nat): string {
    "cling-module-" + Decimal(moduleNo)
  }

  lemma ModuleNamesDiffer(m: nat, n: nat)
    requires MakeModuleName(m) == MakeModuleName(n)
    ensures m == n
  {
    assert MakeModuleName(m)[|"cling-module-"|..] == Decimal(m);
    assert MakeModuleName(n)[|"cling-module-"|..] == Decimal(n);
    DecimalInjective(m, n);
  }

  /** The names of all modules opened so far: every start of a module takes the next number. */
  function OpenedNames(st: State): (names: seq<string>)
    ensures |names| == st.moduleNo
  {
    seq(st.moduleNo, i requires 0 <= i < st.moduleNo => MakeModuleName(i))
  }

  /** A start opens one module under one more name. */
  lemma StartOpensNext(st: State)
    requires st.hasCodeGenerator
    ensures var r := StartModule(st);
            r.openModule.Some? && OpenedNames(r) == OpenedNames(st) + [MakeModuleName(r.openModule.value)]
  {
  }

  /** A module that is open or that a transaction has. */
  ghost predicate IsModule(st: State, m: nat) {
    st.openModule == Some(m) || exists t :: t in st.txs && st.txs[t].mod == Some(m)
  }

  /** Over a run, the names of all modules that are opened are different: they are the first so many names,
      a later part of the run opens further ones only, and the module that is open then, unless it is
      still the same, has a name that none had before. */
  lemma OpenedNamesDiffer(hasCodeGenerator: bool, before: seq<Operation>, after: seq<Operation>)
    ensures var a := PerformAll(Initial(hasCodeGenerator), before);
            var b := PerformAll(a, after);
            OpenedNames(a) <= OpenedNames(b) &&
            (forall m: nat | IsModule(b, m) :: MakeModuleName(m) in OpenedNames(b)) &&
            (b.openModule.Some? && b.openModule != a.openModule ==>
              MakeModuleName(b.openModule.value) !in OpenedNames(a) &&
              forall m: nat | IsModule(a, m) :: MakeModuleName(m) != MakeModuleName(b.openModule.value)) &&
            forall i, j | 0 <= i < j < |OpenedNames(b)| :: OpenedNames(b)[i] != OpenedNames(b)[j]
  {
    var a := PerformAll(Initial(hasCodeGenerator), before);
    var b := PerformAll(a, after);
    InitialValid(hasCodeGenerator);
    EveryRunValid(Initial(hasCodeGenerator), before);
    EveryRunValid(a, after);
    PerformAllOnward(a, after);
    ModulesHaveNames(a);
    ModulesHaveNames(b);
    if b.openModule.Some? && b.openModule != a.openModule {
      NewName(a, b.openModule.value);
    }
    forall i, j | 0 <= i < j < |OpenedNames(b)|
      ensures OpenedNames(b)[i] != OpenedNames(b)[j]
    {
      if MakeModuleName(i) == MakeModuleName(j) {
        ModuleNamesDiffer(i, j);
      }
    }
  }

  lemma ModulesHaveNames(st: State)
    requires Modules(st)
    ensures forall m: nat | IsModule(st, m) :: MakeModuleName(m) in OpenedNames(st)
  {
    forall m: nat | IsModule(st, m) ensures MakeModuleName(m) in OpenedNames(st) {
      assert OpenedNames(st)[m] == MakeModuleName(m);
    }
  }

  lemma NewName(st: State, m: nat)
    requires m >= st.moduleNo
    ensures MakeModuleName(m) !in OpenedNames(st)
  {
    if i :| 0 <= i < |OpenedNames(st)| && OpenedNames(st)[i] == MakeModuleName(m) {
      ModuleNamesDiffer(i, m);
    }
  }

  /** In every state that a run reaches, exactly one module is open when code is generated at all, and
      every other module that a transaction has is an older one, at a top-level transaction, and its own. */
  lemma EachModuleGoesOnce(hasCodeGenerator: bool, ops: seq<Operation>, t: TId, u: TId)
    requires t in PerformAll(Initial(hasCodeGenerator), ops).txs && u in PerformAll(Initial(hasCodeGenerator), ops).txs
    ensures var st := PerformAll(Initial(hasCodeGenerator), ops);
            ModuleOpen(st) && (st.txs[t].mod.Some? ==>
              st.txs[t].parent.None? && st.txs[t].mod != st.openModule && (u != t ==> st.txs[u].mod != st.txs[t].mod))
  {
    InitialValid(hasCodeGenerator);
    EveryRunValid(Initial(hasCodeGenerator), ops);
  }

  /** A module older than the one that is open is never given out again, even if the transaction that had
      it was rolled back: whoever has it later had it before. */
  lemma NeverGivenAgain(hasCodeGenerator: bool, before: seq<Operation>, after: seq<Operation>, t: TId)
    ensures var a := PerformAll(Initial(hasCodeGenerator), before);
            var b := PerformAll(a, after);
            a.moduleNo <= b.moduleNo &&
            (t in b.txs && b.txs[t].mod.Some? && (a.openModule.Some? ==> b.txs[t].mod.value < a.openModule.value) ==>
              t in a.txs && a.txs[t].mod == b.txs[t].mod)
  {
    var a := PerformAll(Initial(hasCodeGenerator), before);
    var b := PerformAll(a, after);
    InitialValid(hasCodeGenerator);
    EveryRunValid(Initial(hasCodeGenerator), before);
    EveryRunValid(a, after);
    PerformAllOnward(a, after);
    PerformAllOnward(Initial(hasCodeGenerator), before);
    if t in b.txs && b.txs[t].mod.Some? && (a.openModule.Some? ==> b.txs[t].mod.value < a.openModule.value) {
      GivenBefore(a, b, t);
    }
  }

  lemma GivenBefore(a: State, b: State, t: TId)
    requires Onward(a, b) && ModuleOpen(a) && Modules(b) && (!a.hasCodeGenerator ==> a.moduleNo == 0)
    requires t in b.txs && b.txs[t].mod.Some? && (a.openModule.Some? ==> b.txs[t].mod.value < a.openModule.value)
    ensures t in a.txs && a.txs[t].mod == b.txs[t].mod
  {
    assert ComesFrom(a, t, b.txs[t].mod.value);
  }

  /** Over a whole run, a module belongs to one transaction. */
  lemma OneOwner(hasCodeGenerator: bool, before: seq<Operation>, after: seq<Operation>, t: TId, u: TId)
    requires var a := PerformAll(Initial(hasCodeGenerator), before);
             var b := PerformAll(a, after);
             t in a.txs && u in b.txs && a.txs[t].mod.Some? && b.txs[u].mod == a.txs[t].mod
    ensures u == t
  {
    InitialValid(hasCodeGenerator);
    EveryRunValid(Initial(hasCodeGenerator), before);
    NeverGivenAgain(hasCodeGenerator, before, after, u);
  }
}
