/** The incremental parser: the methods that begin, end, commit and unload transactions. */
module IncrementalParsing {

  import opened TransactionState
  import opened TransactionInvariants
  import opened TransactionUnload
  import opened TransactionCommit
  import opened TransactionProtocol
  import opened TransactionBrackets
  import opened TransactionLists
  import opened PendingWork

  class IncrementalParser {
    var txs: Txs
    var transactions: seq<TId>
    /** The transaction that the consumer collects for. */
    var current: Option<TId>
    var nextId: TId
    const hasCodeGenerator: bool
    var openModule: Option<nat>
    var moduleNo: nat
    var hasErrorOccurred: bool
    var work: seq<Arrival>
    var clock: nat

    ghost function Abs(): State
      reads this
    {
      State(txs, transactions, current, nextId, hasCodeGenerator, openModule, moduleNo, hasErrorOccurred, work, clock)
    }

    constructor (hasCodeGenerator: bool)
      ensures this.hasCodeGenerator == hasCodeGenerator && Abs().txs == map[] && Abs().deque == [] && Valid(Abs())
    {
      this.hasCodeGenerator := hasCodeGenerator;
      txs, transactions, current, nextId, work, clock := map[], [], None, 0, [], 0;
      hasErrorOccurred := false;
      openModule := if hasCodeGenerator then Some(0) else None;
      moduleNo := if hasCodeGenerator then 1 else 0;
    }

    // ---------- begin and end ----------

    method BeginTransaction(codeGeneration: bool) returns (t: TId)
      modifies this
      ensures t == old(nextId) && Abs() == Begin(old(Abs()), codeGeneration)
    {
      t := nextId;
      nextId := nextId + 1;
      if current.Some? && current.value in txs && txs[current.value].phase != Committed {
        txs := AddNested(txs, current.value, t);
        txs := txs[t := NewTx(current, codeGeneration)];
      } else {
        txs := txs[t := NewTx(None, codeGeneration)];
      }
      current := Some(t);
    }

    method AddTransaction(t: TId)
      requires t in txs
      modifies this
      ensures Abs() == TransactionState.AddTransaction(old(Abs()), t)
    {
      if txs[t].parent.None? && (transactions == [] || Last(transactions) != t) {
        if transactions != [] {
          txs := SetNext(txs, transactions, Some(t));
        }
        transactions := transactions + [t];
      }
    }

    /** The result has no transaction when that turned out empty. */
    method EndTransaction(t: TId) returns (result: Option<TId>, failed: bool)
      requires t in txs
      modifies this
      ensures Abs() == End(old(Abs()), t) && failed == EndFails(old(Abs()), t)
      ensures result == if t in txs then Some(t) else None
    {
      txs := txs[t := txs[t].(phase := Completed)];
      failed := hasErrorOccurred || HasErrors(txs, t);
      if failed {
        txs := MarkErrors(txs, t);
      }
      if IsEmpty(txs[t]) {
        current := txs[t].parent;
        txs := Released(txs, t);
        return None, failed;
      }
      AddTransaction(t);
      result := Some(t);
    }

    // ---------- unload ----------

    method DeregisterTransaction(t: TId)
      requires t in txs
      modifies this
      ensures Abs() == Deregister(old(Abs()), t)
    {
      if current == Some(t) {
        current := txs[t].parent;
      }
      if txs[t].parent.None? && transactions != [] && Last(transactions) == t {
        transactions := Init(transactions);
        txs := SetNext(txs, transactions, None);
      }
      txs := Released(txs, t);
    }

    method UnloadTransaction(t: TId)
      requires t in txs && Sound(Abs()) && MayUnload(Abs(), t)
      modifies this
      ensures Abs() == Unload(old(Abs()), t)
      decreases Above(nextId, t), 1
    {
      UnloadNestedSound(Abs(), t, txs[t].nested);
      UnloadNestedTransactions(t);
      DeregisterTransaction(t);
    }

    /** The newest first, until none is left. */
    method UnloadNestedTransactions(t: TId)
      requires t in txs && Sound(Abs())
      modifies this
      ensures Abs() == UnloadNested(old(Abs()), t, old(txs)[t].nested)
      decreases Above(nextId, t), 0
    {
      ghost var goal := UnloadNested(Abs(), t, txs[t].nested);
      while txs[t].nested != []
        invariant t in txs && Sound(Abs()) && nextId == old(nextId)
        invariant UnloadNested(Abs(), t, txs[t].nested) == goal
        decreases |txs[t].nested|
      {
        UnloadStep(Abs(), t);
        UnloadTransaction(Last(txs[t].nested));
      }
    }

    // ---------- modules, marks, execution ----------

    method StartModule()
      modifies this
      ensures Abs() == TransactionState.StartModule(old(Abs()))
    {
      if hasCodeGenerator {
        openModule := Some(moduleNo);
        moduleNo := moduleNo + 1;
      }
    }

    method SetCommitted(t: TId)
      requires t in txs
      modifies this
      ensures Abs() == TransactionState.SetCommitted(old(Abs()), t)
    {
      if txs[t].phase != Committed {
        txs := txs[t := txs[t].(phase := Committed, committedAt := clock)];
        clock := clock + 1;
      }
    }

    /** The module is finished and goes to the transaction; the next one is open. */
    method FinishModule(t: TId)
      requires t in txs
      modifies this
      ensures Abs() == TransactionState.StartModule(TakeModule(old(Abs()), t))
    {
      if openModule.Some? {
        txs := txs[t := txs[t].(mod := openModule)];
        openModule := None;
      }
      StartModule();
    }

    method ExecuteTransaction(t: TId) returns (ok: bool)
      requires t in txs
      modifies this
      ensures Abs() == Execute(old(Abs()), t) && ok == !old(txs)[t].initialisersFail
    {
      ok := !txs[t].initialisersFail;
      txs := txs[t := txs[t].(runs := txs[t].runs + 1, runAt := clock)];
      clock := clock + 1;
    }

    // ---------- commit ----------

    /** A result without a transaction only makes errors forgotten. */
    method CommitTransaction(result: Option<TId>, failed: bool, ghost bound: nat)
      requires result.Some? ==> Committable(Abs(), result.value, bound)
      modifies this
      ensures Abs() == if result.Some? then Commit(old(Abs()), result.value, bound)
                else CommitNothing(old(Abs()), failed)
      decreases |work|, if result.Some? then Above(bound, result.value) else 0, if result.Some? then 5 else -1
    {
      if result.None? {
        if failed {
          hasErrorOccurred := false;
        }
        return;
      }
      var t := result.value;
      ToParentCommittable(Abs(), t, bound);
      if txs[t].parent.Some? {
        current := txs[t].parent;
      }
      if HasErrors(txs, t) {
        RollBackTransaction(t);
      } else {
        CommitGoodTransaction(t, bound);
      }
    }

    method RollBackTransaction(t: TId)
      requires t in txs && Sound(Abs()) && MayUnload(Abs(), t)
      modifies this
      ensures Abs() == CommitFailed(old(Abs()), t)
    {
      var mustStartNewModule := txs[t].parent.None? && hasCodeGenerator;
      TakeModuleSound(Abs(), t);
      if mustStartNewModule && openModule.Some? {
        txs := txs[t := txs[t].(mod := openModule)];
        openModule := None;
      }
      hasErrorOccurred := false;
      UnloadTransaction(t);
      if mustStartNewModule {
        StartModule();
      }
    }

    method CommitGoodTransaction(t: TId, ghost bound: nat)
      requires MayCommit(Abs(), t, bound) && MayUnload(Abs(), t) && Orderly(Abs(), txs[t].nested)
      modifies this
      ensures Abs() == CommitGood(old(Abs()), t, bound)
      decreases |work|, Above(bound, t), 4
    {
      ghost var st := Abs();
      CommitNestedTransactions(t, bound);
      ghost var a := Abs();
      NestedDone(st, a, t, bound);
      if HasErrors(txs, t) {
        UnloadTransaction(t);
        return;
      }
      HookCommit(t);
      HookDone(st, a, Abs(), t, bound);
      CommitGoodIs(st, t, bound, a, Abs());
      FinishCommit(t);
    }

    /** The consumer is set to the transaction while its hook is worked off. */
    method HookCommit(t: TId)
      requires t in txs && Valid(Abs()) && IsCurrent(Abs().(current := Some(t)), t)
      modifies this
      ensures Abs() == Hook(old(Abs()).(current := Some(t)), old(txs)[t].codeGeneration).(current := old(current))
      decreases |work|, 0, 2
    {
      var previous := current;
      current := Some(t);
      HookTransaction(t, txs[t].codeGeneration);
      current := previous;
    }

    method CommitNestedTransactions(t: TId, ghost bound: nat)
      requires MayCommit(Abs(), t, bound) && Orderly(Abs(), txs[t].nested)
      modifies this
      ensures Abs() == CommitNested(old(Abs()), t, old(txs)[t].nested, bound)
      decreases |work|, Above(bound, t), 3
    {
      var list := txs[t].nested;
      ghost var goal := CommitNested(Abs(), t, list, bound);
      NestedReadyAtFirst(Abs(), t, bound);
      ghost var rest := list;
      var i := 0;
      while i < |list|
        invariant i <= |list| && rest == list[i..] && StillToCommit(Abs(), t, rest, bound, old(Abs()), goal)
      {
        CommitNext(list[i], t, rest, bound, old(Abs()), goal);
        rest := rest[1..];
        i := i + 1;
      }
    }

    method CommitNext(c: TId, ghost t: TId, ghost list: seq<TId>, ghost bound: nat, ghost st: State, ghost goal: State)
      requires list != [] && c == list[0] && StillToCommit(Abs(), t, list, bound, st, goal)
      modifies this
      ensures StillToCommit(Abs(), t, list[1..], bound, st, goal)
      decreases |st.work|, Above(bound, t), 2
    {
      ghost var a := Abs();
      NestedChild(a, t, list, bound);
      if txs[c].phase != Committed {
        CommitTransaction(Some(c), false, bound);
      }
      NestedRest(a, Abs(), t, list, bound);
    }

    /** A transaction for what instantiation or deserialisation produces. */
    method HookTransaction(ghost p: TId, codeGeneration: bool)
      requires Valid(Abs()) && IsCurrent(Abs(), p)
      modifies this
      ensures Abs() == Hook(old(Abs()), codeGeneration)
      decreases |work|, 0, 1
    {
      ghost var st := Abs();
      var result, failed := FillTransaction(codeGeneration);
      HookResultReady(st, p, codeGeneration, Abs(), result, failed);
      CommitHooked(result, failed, st, codeGeneration);
    }

    method CommitHooked(result: Option<TId>, failed: bool, ghost st: State, ghost codeGeneration: bool)
      requires HookResult(st, codeGeneration, Abs(), result, failed)
      modifies this
      ensures Abs() == Hook(st, codeGeneration)
      decreases |st.work|, 0, 0
    {
      CommitTransaction(result, failed, st.nextId + 1);
    }

    method FillTransaction(codeGeneration: bool) returns (result: Option<TId>, failed: bool)
      modifies this
      ensures Abs() == End(Filling(old(Abs()), codeGeneration), old(nextId))
      ensures result == if old(nextId) in txs then Some(old(nextId)) else None
      ensures failed == EndFails(Filling(old(Abs()), codeGeneration), old(nextId))
    {
      var t := BeginTransaction(codeGeneration);
      CollectBatch(t);
      result, failed := EndTransaction(t);
    }

    /** The declarations of the next batch arrive. */
    method CollectBatch(t: TId)
      requires t in txs
      modifies this
      ensures Abs() == Declare(old(Abs()), t, Batch(old(Abs())).decls, Batch(old(Abs())).error,
                               false).(work := Later(old(Abs())))
    {
      if work == [] {
        txs := txs[t := txs[t]];
      } else {
        txs := txs[t := txs[t].(decls := txs[t].decls + work[0].decls)];
        hasErrorOccurred := hasErrorOccurred || work[0].error;
        work := work[1..];
      }
    }

    method FinishCommit(t: TId)
      requires MayGenerate(Abs().(current := Some(t)), t) && CurrentExists(Abs())
      modifies this
      ensures Abs() == Finish(old(Abs()), t)
      decreases |work|, 0, 4
    {
      if txs[t].codeGeneration && hasCodeGenerator {
        CodeGenTransaction(t);
      } else {
        SetCommitted(t);
      }
    }

    method CodeGenTransaction(t: TId)
      requires MayGenerate(Abs().(current := Some(t)), t) && CurrentExists(Abs()) && hasCodeGenerator
      modifies this
      ensures Abs() == Generate(old(Abs()), t)
      decreases |work|, 0, 3, 1
    {
      var previous := current;
      current := Some(t);
      CodeGenHook(t);
      CodeGenRest(t, previous);
    }

    method CodeGenRest(t: TId, previous: Option<TId>)
      requires MayGenerate(Abs(), t) && hasCodeGenerator
      modifies this
      ensures Abs() == GenerateRest(old(Abs()), t, previous)
      decreases |work|, 0, 3, 0
    {
      if txs[t].parent.Some? {
        SetCommitted(t);
        current := previous;
      } else {
        CodeGenHook(t);
        RunTransaction(t, previous);
      }
    }

    /** Deserialisation that code generation triggers. */
    method CodeGenHook(t: TId)
      requires MayGenerate(Abs(), t)
      modifies this
      ensures Abs() == Hook(old(Abs()), true) && MayGenerate(Abs(), t) && txs[t].parent == old(txs)[t].parent
      decreases |work|, 0, 2
    {
      StillMayGenerate(Abs(), t);
      HookTransaction(t, true);
    }

    method RunTransaction(t: TId, previous: Option<TId>)
      requires MayGenerate(Abs(), t) && txs[t].parent.None? && hasCodeGenerator
      modifies this
      ensures Abs() == Run(old(Abs()), t, previous)
    {
      RunMeans(Abs(), t);
      AfterRunValid(Abs(), t);
      FinishModule(t);
      SetCommitted(t);
      var ok := ExecuteTransaction(t);
      if !ok {
        UnloadTransaction(t);
        return;
      }
      current := previous;
    }

    // ---------- the list of transactions ----------

    /** `getAllTransactions`, which follows `next` from the front; the list is made with as many empty
        places as there are transactions. */
    method GetAllTransactions() returns (result: seq<Option<TId>>)
      requires Valid(Abs())
      ensures result == AllTransactions(transactions)
    {
      result := Places(|transactions|);
      var t := if transactions == [] then None else Some(transactions[0]);
      ghost var i := 0;
      while t.Some?
        invariant i <= |transactions| && t == if i < |transactions| then Some(transactions[i]) else None
        invariant result == Places(|transactions|) + Given(transactions[..i])
        decreases |transactions| - i
      {
        NextAt(txs, transactions, i);
        GivenMore(transactions, i);
        result := result + [t];
        t := txs[t.value].next;
        i := i + 1;
      }
      assert transactions[..i] == transactions;
    }

    /** `unload(n)`: never the first one. */
    method UnloadNewest(numberOfTransactions: nat)
      requires Valid(Abs())
      modifies this
      ensures Abs() == UnloadMany(old(Abs()), numberOfTransactions)
    {
      if transactions == [] {
        return;
      }
      UnloadAllBut(transactions[0], numberOfTransactions, UnloadMany(Abs(), numberOfTransactions));
    }

    method UnloadAllBut(first: TId, numberOfTransactions: nat, ghost goal: State)
      requires StillToUnload(Abs(), first, numberOfTransactions, goal)
      modifies this
      ensures Abs() == goal
    {
      ghost var left: nat := numberOfTransactions;
      for i := 0 to numberOfTransactions
        invariant left == numberOfTransactions - i && StillToUnload(Abs(), first, left, goal)
      {
        var stop;
        stop, left := UnloadUnlessFirst(first, left, goal);
        if stop {
          return;
        }
      }
    }

    method UnloadUnlessFirst(first: TId, ghost n: nat, ghost goal: State) returns (stop: bool, ghost left: nat)
      requires n > 0 && StillToUnload(Abs(), first, n, goal)
      modifies this
      ensures left == n - 1 && if stop then Abs() == goal else StillToUnload(Abs(), first, left, goal)
    {
      left := n - 1;
      ghost var next := MoreToUnload(Abs(), first, left, goal);
      if Last(transactions) == first {
        return true, left;
      }
      UnloadLast();
      assert Abs() == next;
      stop := false;
    }

    method UnloadLast()
      requires Valid(Abs()) && |transactions| > 1 && Last(transactions) in txs && MayUnload(Abs(), Last(transactions))
      modifies this
      ensures Abs() == Unload(old(Abs()), Last(old(transactions)))
      ensures Valid(Abs()) && transactions == Init(old(transactions))
    {
      NewestGoes(Abs());
      UnloadTransaction(Last(transactions));
    }

    /** The transactions whose destructors are run, in that order. */
    method RunAndRemoveStaticDestructors(numberOfTransactions: nat) returns (drained: seq<TId>)
      requires Valid(Abs())
      ensures drained == Reversed(Newest(transactions, numberOfTransactions))
    {
      var list := GetAllTransactions();
      DrainsNewest(transactions, list, numberOfTransactions);
      drained := DrainNewest(list, numberOfTransactions);
    }

    method DrainNewest(list: seq<Option<TId>>, n: nat) returns (drained: seq<TId>)
      ensures drained == Drained(list, |list|, LowestPosition(|list|, n))
    {
      var min := 0;
      if |list| > n {
        min := |list| - n;
      }
      drained := Drain(list, |list|, min);
    }

    method Drain(list: seq<Option<TId>>, begin: nat, end: nat) returns (drained: seq<TId>)
      requires end <= begin <= |list|
      ensures drained == Drained(list, begin, end)
    {
      drained := [];
      var i := begin;
      while i != end
        invariant end <= i <= begin
        invariant drained + Drained(list, i, end) == Drained(list, begin, end)
        decreases i
      {
        if list[i - 1].Some? {
          drained := drained + [list[i - 1].value];
        }
        i := i - 1;
      }
    }
  }

  lemma GivenMore(deque: seq<TId>, i: nat)
    requires i < |deque|
    ensures Given(deque[..i]) + [Some(deque[i])] == Given(deque[..i + 1])
  {
  }

  /** Unloading `n` more leads to the state that is wanted; the first transaction is there. */
  ghost predicate StillToUnload(st: State, first: TId, n: nat, goal: State) {
    Valid(st) && st.deque != [] && st.deque[0] == first && UnloadMany(st, n) == goal
  }

  /** Either the first transaction is the last, or the last one is unloaded next. */
  lemma MoreToUnload(st: State, first: TId, left: nat, goal: State) returns (next: State)
    requires StillToUnload(st, first, left + 1, goal)
    ensures Last(st.deque) in st.txs && MayUnload(st, Last(st.deque)) && next == Unload(st, Last(st.deque))
    ensures if Last(st.deque) == first then st == goal else |st.deque| > 1 && StillToUnload(next, first, left, goal)
  {
    OnlyFirst(st);
    next := Unload(st, Last(st.deque));
    if Last(st.deque) != first {
      UnloadManyUnfolds(st, left + 1);
      NewestGoes(st);
    }
  }

  /** The newest transaction is the first only when there is no other. */
  lemma OnlyFirst(st: State)
    requires Valid(st) && st.deque != []
    ensures Last(st.deque) in st.txs && MayUnload(st, Last(st.deque)) &&
              (Last(st.deque) == st.deque[0] <==> |st.deque| == 1)
  {
    LastThere(st.txs, st.deque);
  }

  /** What a commit may be called with: errors noted or not, and rollback possible. */
  ghost predicate Committable(st: State, t: TId, bound: nat) {
    Valid(st) && t in st.txs && MayUnload(st, t) &&
    (!HasErrors(st.txs, t) ==> MayCommit(st, t, bound) && Orderly(st, st.txs[t].nested))
  }

  lemma ToParentCommittable(st: State, t: TId, bound: nat)
    requires Committable(st, t, bound)
    ensures Committable(ToParent(st, t), t, bound)
  {
    assert IsLinked(st.txs, st.nextId, t);
  }

  /** The rest of the list is still to be committed, which leads to the state that is wanted. */
  ghost predicate StillToCommit(a: State, t: TId, list: seq<TId>, bound: nat, st: State, goal: State) {
    NestedReady(a, t, list, bound) && |a.work| <= |st.work| && CommitNested(a, t, list, bound) == goal
  }

  lemma NestedChild(st: State, t: TId, list: seq<TId>, bound: nat)
    requires NestedReady(st, t, list, bound) && list != []
    ensures list[0] in st.txs && t < list[0]
    ensures st.txs[list[0]].phase != Committed ==> list[0] < bound && Committable(st, list[0], bound)
  {
    FirstReady(st, t, list, bound);
    if st.txs[list[0]].phase != Committed {
      QuietGoesWell(st, st.txs[list[0]].nested);
    }
  }

  lemma NestedRest(st: State, a: State, t: TId, list: seq<TId>, bound: nat)
    requires NestedReady(st, t, list, bound) && list != []
    requires a == if list[0] in st.txs && st.txs[list[0]].phase != Committed then Commit(st, list[0], bound) else st
    ensures NestedReady(a, t, list[1..], bound) && |a.work| <= |st.work|
    ensures CommitNested(a, t, list[1..], bound) == CommitNested(st, t, list, bound)
  {
    var c := list[0];
    FirstReady(st, t, list, bound);
    if st.txs[c].phase != Committed {
      CommitGrows(st, c, bound);
    }
    FirstDone(st, a, t, list, bound);
  }

  /** Code may be generated for the current transaction, which may be rolled back. */
  ghost predicate MayGenerate(st: State, t: TId) {
    Generating(st, t) && MayUnload(st, t)
  }

  lemma StillMayGenerate(st: State, t: TId)
    requires MayGenerate(st, t)
    ensures MayGenerate(Hook(st, true), t) && Hook(st, true).txs[t].parent == st.txs[t].parent
  {
    HookGrows(st, t, true);
    assert st == st.(current := Some(t));
    HookedKeeps(st, Hook(st, true), t, st.hasCodeGenerator);
  }

  lemma NestedDone(st: State, a: State, t: TId, bound: nat)
    requires MayCommit(st, t, bound) && MayUnload(st, t) && Orderly(st, st.txs[t].nested)
    requires a == CommitNested(st, t, st.txs[t].nested, bound)
    ensures t in a.txs && Valid(a) && MayUnload(a, t) && IsCurrent(a.(current := Some(t)), t)
    ensures HasErrors(a.txs, t) <==> NestedErrs(st, st.txs[t].nested)
  {
    NestedReadyAtFirst(st, t, bound);
    CommitNestedGrows(st, t, st.txs[t].nested, bound);
    NestedReadies(st, a, t);
    assert GrownTx(st.txs[t], a.txs[t], st.nextId);
  }

  lemma HookDone(st: State, a: State, b: State, t: TId, bound: nat)
    requires MayCommit(st, t, bound) && MayUnload(st, t) && GoesWell(st, st.txs[t].nested)
    requires a == CommitNested(st, t, st.txs[t].nested, bound) && t in a.txs
    requires b == Hook(a.(current := Some(t)), a.txs[t].codeGeneration).(current := a.current)
    ensures t in b.txs && MayGenerate(b.(current := Some(t)), t) && CurrentExists(b)
  {
    PrepareGrows(st, t, bound);
    PreparedGenerates(st, b, t);
  }

  lemma PreparedGenerates(st: State, b: State, t: TId)
    requires t in st.txs && MayUnload(st, t) && Prepared(st, b, t)
    ensures t in b.txs && MayGenerate(b.(current := Some(t)), t) && CurrentExists(b)
  {
    assert GrownTx(st.txs[t], b.txs[t], st.nextId);
    CurrentValid(b, Some(t));
  }

  /** A hook ends with the commit of the result, which can be committed. */
  ghost predicate HookResult(st: State, codeGeneration: bool, a: State, result: Option<TId>, failed: bool) {
    |a.work| <= |st.work| &&
    match result
    case Some(t) => |a.work| < |st.work| && Committable(a, t, st.nextId + 1) &&
    Hook(st, codeGeneration) == Commit(a, t, st.nextId + 1)
    case None => Hook(st, codeGeneration) == CommitNothing(a, failed)
  }

  lemma HookResultReady(st: State, p: TId, codeGeneration: bool, a: State, result: Option<TId>, failed: bool)
    requires Valid(st) && IsCurrent(st, p)
    requires a == End(Filling(st, codeGeneration), st.nextId) &&
               failed == EndFails(Filling(st, codeGeneration), st.nextId)
    requires result == if st.nextId in a.txs then Some(st.nextId) else None
    ensures HookResult(st, codeGeneration, a, result, failed)
  {
    HookOf(st, codeGeneration, a, failed);
    if result.Some? {
      HookCommittable(st, p, codeGeneration, a, st.nextId);
    }
  }

  lemma HookOf(st: State, codeGeneration: bool, a: State, failed: bool)
    requires a == End(Filling(st, codeGeneration), st.nextId)
    requires failed == EndFails(Filling(st, codeGeneration), st.nextId)
    ensures |a.work| <= |st.work|
    ensures st.nextId !in a.txs ==> Hook(st, codeGeneration) == CommitNothing(a, failed)
    ensures st.nextId in a.txs && st.work != [] ==> Hook(st, codeGeneration) == Commit(a, st.nextId, st.nextId + 1)
  {
    var filled := Filling(st, codeGeneration);
    assert a.work == filled.work == Later(st);
  }

  lemma HookCommittable(st: State, p: TId, codeGeneration: bool, c: State, t: TId)
    requires Valid(st) && IsCurrent(st, p) && t == st.nextId && c == End(Filling(st, codeGeneration), t) && t in c.txs
    ensures st.work != [] && |c.work| < |st.work| && Committable(c, t, t + 1)
  {
    if Batch(st).decls == 0 {
      EmptyHook(st, p, codeGeneration);
      assert false;
    }
    FilledEnds(st, p, codeGeneration);
    FilledCommittable(st, p, codeGeneration);
  }

  lemma FilledCommittable(st: State, p: TId, codeGeneration: bool)
    requires Valid(st) && IsCurrent(st, p) && Batch(st).decls > 0 && p in Marked(Taken(st), p).txs
    ensures Committable(HookState(st, p, codeGeneration), st.nextId, st.nextId + 1)
  {
    if HasFailed(Taken(st), p) {
      ErringCommittable(st, p, codeGeneration);
    } else {
      HookStateReady(st, p, codeGeneration, st.nextId, st.nextId + 1);
    }
  }

  lemma ErringCommittable(st: State, p: TId, codeGeneration: bool)
    requires Valid(st) && IsCurrent(st, p) && Batch(st).decls > 0 && HasFailed(Taken(st), p) &&
               p in Marked(Taken(st), p).txs
    ensures Committable(HookState(st, p, codeGeneration), st.nextId, st.nextId + 1)
  {
    var m, tx := Marked(Taken(st), p), Filled(p, codeGeneration, Batch(st).decls).(phase := Completed);
    MarkErrorsValid(st, p);
    MarkedErrors(st, p);
    BegunErrors(m, p, tx);
    OpenedValid(m, p, tx);
  }

  lemma UnloadStep(st: State, t: TId)
    requires Sound(st) && t in st.txs && st.txs[t].nested != []
    ensures var c := Last(st.txs[t].nested);
            c in st.txs && t < c < st.nextId && MayUnload(st, c) &&
            var a := Unload(st, c);
            Sound(a) && t in a.txs && a.txs[t].nested == Init(st.txs[t].nested) &&
            UnloadNested(st, t, st.txs[t].nested) == UnloadNested(a, t, a.txs[t].nested)
  {
    var c := Last(st.txs[t].nested);
    assert IsLinked(st.txs, st.nextId, t);
    assert c in st.txs[t].nested && IsLinked(st.txs, st.nextId, c);
    UnloadSound(st, c);
  }
}
