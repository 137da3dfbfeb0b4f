/** Transactions and the single steps of the transaction protocol. */
module TransactionState {

  datatype Option<T> = None | Some(value: T)

  /** Transactions are numbered in the order in which they are begun. */
  type TId = nat

  datatype Phase = Collecting | Completed | Committed

  datatype Tx = Tx(
    parent: Option<TId>,
    nested: seq<TId>,
    phase: Phase,
    hasErrors: bool,
    next: Option<TId>,
    codeGeneration: bool,
    decls: nat,
    initialisersFail: bool,
    mod: Option<nat>,
    committedAt: nat,
    runs: nat,
    runAt: nat)

  type Txs = map<TId, Tx>

  /** A batch of declarations that instantiation or deserialisation produces, perhaps with errors. */
  datatype Arrival = Arrival(decls: nat, error: bool)

  /** The state of the parser. `work` has the batches that are still to come; `clock` counts commits and
      executions. */
  datatype State = State(
    txs: Txs,
    deque: seq<TId>,
    current: Option<TId>,
    nextId: TId,
    hasCodeGenerator: bool,
    openModule: Option<nat>,
    moduleNo: nat,
    hasErrorOccurred: bool,
    work: seq<Arrival>,
    clock: nat)

  function Last<T>(s: seq<T>): T
    requires s != []
  {
    s[|s| - 1]
  }

  function Init<T>(s: seq<T>): seq<T>
    requires s != []
  {
    s[..|s| - 1]
  }

  function Without(s: seq<TId>, t: TId): seq<TId> {
    if s == [] then [] else if Last(s) == t then Init(s) else Without(Init(s), t) + [Last(s)]
  }

  /** The topmost parent. */
  function Root(txs: Txs, t: TId): TId {
    if t in txs && txs[t].parent.Some? && txs[t].parent.value < t then Root(txs, txs[t].parent.value) else t
  }

  /** Errors are noted at the topmost parent, for the whole tree. */
  predicate HasErrors(txs: Txs, t: TId) {
    var r := Root(txs, t);
    r in txs && txs[r].hasErrors
  }

  predicate IsEmpty(tx: Tx) {
    tx.decls == 0 && tx.nested == []
  }

  // ---------- begin ----------

  function NewTx(parent: Option<TId>, codeGeneration: bool): Tx {
    Tx(parent, [], Collecting, false, None, codeGeneration, 0, false, None, 0, 0, 0)
  }

  /** A transaction that is begun in the middle of another one is nested in it. */
  predicate IsOpen(st: State) {
    st.current.Some? && st.current.value in st.txs && st.txs[st.current.value].phase != Committed
  }

  function AddNested(txs: Txs, p: TId, t: TId): Txs
    requires p in txs
  {
    txs[p := txs[p].(nested := txs[p].nested + [t])]
  }

  function Begin(st: State, codeGeneration: bool): (r: State)
    ensures r.work == st.work
  {
    var t := st.nextId;
    var parent := if IsOpen(st) then st.current else None;
    var txs := if IsOpen(st) then AddNested(st.txs, st.current.value, t) else st.txs;
    st.(txs := txs[t := NewTx(parent, codeGeneration)], current := Some(t), nextId := t + 1)
  }

  /** Parsing adds declarations to the current transaction, perhaps with errors. */
  function Declare(st: State, t: TId, decls: nat, error: bool, initialisersFail: bool): State
    requires t in st.txs
  {
    st.(txs := st.txs[t := st.txs[t].(decls := st.txs[t].decls + decls,
                                      initialisersFail := st.txs[t].initialisersFail || initialisersFail)],
        hasErrorOccurred := st.hasErrorOccurred || error)
  }

  // ---------- end ----------

  function MarkErrors(txs: Txs, t: TId): Txs {
    var r := Root(txs, t);
    if r in txs then txs[r := txs[r].(hasErrors := true)] else txs
  }

  /** Back to the pool; the parent is told. */
  function Released(txs: Txs, t: TId): Txs
    requires t in txs
  {
    var p := txs[t].parent;
    (if p.Some? && p.value in txs then txs[p.value := txs[p.value].(nested := Without(txs[p.value].nested, t))]
     else txs) - {t}
  }

  function SetNext(txs: Txs, deque: seq<TId>, next: Option<TId>): Txs {
    if deque != [] && Last(deque) in txs then txs[Last(deque) := txs[Last(deque)].(next := next)] else txs
  }

  function AddTransaction(st: State, t: TId): (r: State)
    requires t in st.txs
    ensures r.work == st.work
  {
    if st.txs[t].parent.Some? || (st.deque != [] && Last(st.deque) == t) then st
    else st.(txs := SetNext(st.txs, st.deque, Some(t)), deque := st.deque + [t])
  }

  /** Whether the end of the transaction reports failure. */
  predicate EndFails(st: State, t: TId)
    requires t in st.txs
  {
    st.hasErrorOccurred || HasErrors(st.txs[t := st.txs[t].(phase := Completed)], t)
  }

  function Completing(st: State, t: TId): Txs
    requires t in st.txs
  {
    var txs := st.txs[t := st.txs[t].(phase := Completed)];
    if EndFails(st, t) then MarkErrors(txs, t) else txs
  }

  /** An empty transaction is gone afterwards. */
  function End(st: State, t: TId): (r: State)
    requires t in st.txs
    ensures r.work == st.work
  {
    var txs := Completing(st, t);
    if IsEmpty(txs[t]) then st.(txs := Released(txs, t), current := txs[t].parent)
    else AddTransaction(st.(txs := txs), t)
  }

  // ---------- modules, marks, execution ----------

  function StartModule(st: State): State {
    if st.hasCodeGenerator then st.(openModule := Some(st.moduleNo), moduleNo := st.moduleNo + 1) else st
  }

  function TakeModule(st: State, t: TId): State
    requires t in st.txs
  {
    if st.openModule.None? then st
    else st.(txs := st.txs[t := st.txs[t].(mod := st.openModule)], openModule := None)
  }

  function SetCommitted(st: State, t: TId): State
    requires t in st.txs
  {
    if st.txs[t].phase == Committed then st
    else st.(txs := st.txs[t := st.txs[t].(phase := Committed, committedAt := st.clock)], clock := st.clock + 1)
  }

  function Execute(st: State, t: TId): State
    requires t in st.txs
  {
    st.(txs := st.txs[t := st.txs[t].(runs := st.txs[t].runs + 1, runAt := st.clock)], clock := st.clock + 1)
  }

  // ---------- unload ----------

  function Deregister(st: State, t: TId): (r: State)
    requires t in st.txs
    ensures r.work == st.work && r.nextId == st.nextId
  {
    var st := if st.current == Some(t) then st.(current := st.txs[t].parent) else st;
    if st.txs[t].parent.None? && st.deque != [] && Last(st.deque) == t then
      var txs := SetNext(st.txs, Init(st.deque), None);
      st.(txs := Released(txs, t), deque := Init(st.deque))
    else st.(txs := Released(st.txs, t))
  }

  function Above(bound: nat, t: TId): nat {
    if t < bound then bound - t else 0
  }

  /** A transaction goes with everything nested in it, the newest first. */
  function Unload(st: State, t: TId): (r: State)
    requires t in st.txs
    ensures r.work == st.work && r.nextId == st.nextId
    decreases Above(st.nextId, t), 1, 0
  {
    var a := UnloadNested(st, t, st.txs[t].nested);
    if t in a.txs then Deregister(a, t) else a
  }

  function UnloadNested(st: State, t: TId, list: seq<TId>): (r: State)
    ensures r.work == st.work && r.nextId == st.nextId
    decreases Above(st.nextId, t), 0, |list|
  {
    if list == [] then st
    else
      var last := Last(list);
      var a := if last in st.txs && t < last < st.nextId then Unload(st, last) else st;
      UnloadNested(a, t, Init(list))
  }

  // ---------- commit ----------

  /** The batch of declarations that comes next, and what comes later. */
  function Batch(st: State): Arrival {
    if st.work == [] then Arrival(0, false) else st.work[0]
  }

  function Later(st: State): seq<Arrival> {
    if st.work == [] then [] else st.work[1..]
  }

  /** A new transaction with the next batch of declarations. */
  function Filling(st: State, codeGeneration: bool): (r: State)
    ensures st.nextId in r.txs && r.work == Later(st)
  {
    Declare(Begin(st, codeGeneration), st.nextId, Batch(st).decls, Batch(st).error, false).(work := Later(st))
  }

  /** Committing the result of an end that left no transaction: errors are forgotten. */
  function CommitNothing(st: State, failed: bool): (r: State)
    ensures r.work == st.work
  {
    if failed then st.(hasErrorOccurred := false) else st
  }

  /** A nested transaction is left, for its parent. */
  function ToParent(st: State, t: TId): (r: State)
    requires t in st.txs
    ensures r.work == st.work
  {
    if st.txs[t].parent.Some? then st.(current := st.txs[t].parent) else st
  }

  /** Committing `t`; the transactions already nested in it are numbered below `bound`. */
  function Commit(st: State, t: TId, bound: nat): (r: State)
    requires t in st.txs
    ensures |r.work| <= |st.work|
    decreases |st.work|, Above(bound, t), 6, 0
  {
    var a := ToParent(st, t);
    if HasErrors(a.txs, t) then CommitFailed(a, t) else CommitGood(a, t, bound)
  }

  function CommitFailed(st: State, t: TId): (r: State)
    requires t in st.txs
    ensures r.work == st.work
  {
    var top := st.txs[t].parent.None? && st.hasCodeGenerator;
    var a := if top then TakeModule(st, t) else st;
    var b := Unload(a.(hasErrorOccurred := false), t);
    if top then StartModule(b) else b
  }

  function CommitGood(st: State, t: TId, bound: nat): (r: State)
    requires t in st.txs
    ensures |r.work| <= |st.work|
    decreases |st.work|, Above(bound, t), 5, 0
  {
    var a := CommitNested(st, t, st.txs[t].nested, bound);
    if t !in a.txs then a
    else if HasErrors(a.txs, t) then Unload(a, t)
    else
      Finish(Hook(a.(current := Some(t)), a.txs[t].codeGeneration).(current := a.current), t)
  }

  function Finish(st: State, t: TId): (r: State)
    ensures |r.work| <= |st.work|
    decreases |st.work|, 0, 4, 0
  {
    if t !in st.txs then st
    else if st.txs[t].codeGeneration && st.hasCodeGenerator then Generate(st, t)
    else SetCommitted(st, t)
  }

  function CommitNested(st: State, t: TId, list: seq<TId>, bound: nat): (r: State)
    ensures |r.work| <= |st.work|
    decreases |st.work|, Above(bound, t), 2, |list|
  {
    if list == [] then st
    else
      var c := list[0];
      var a := if c in st.txs && st.txs[c].phase != Committed && t < c < bound then Commit(st, c, bound) else st;
      CommitNested(a, t, list[1..], bound)
  }

  /** A transaction for what instantiation or deserialisation produces, begun, ended and committed. */
  function Hook(st: State, codeGeneration: bool): (r: State)
    ensures |r.work| <= |st.work|
    decreases |st.work|, 0, 1, 0
  {
    var t := st.nextId;
    var filled := Filling(st, codeGeneration);
    var a := End(filled, t);
    if t !in a.txs then CommitNothing(a, EndFails(filled, t))
    else if st.work == [] then a
    else Commit(a, t, t + 1)
  }

  /** Code generation, and for a top-level transaction the module and its execution. */
  function Generate(st: State, t: TId): (r: State)
    requires t in st.txs
    ensures |r.work| <= |st.work|
    decreases |st.work|, 0, 3, 0
  {
    GenerateRest(Hook(st.(current := Some(t)), true), t, st.current)
  }

  /** What comes after the declarations that code generation brought in first. */
  function GenerateRest(st: State, t: TId, previous: Option<TId>): (r: State)
    ensures |r.work| <= |st.work|
    decreases |st.work|, 0, 2, 0
  {
    if t !in st.txs then st
    else if st.txs[t].parent.Some? then SetCommitted(st, t).(current := previous)
    else
      var a := Hook(st, true);
      if t !in a.txs then a else Run(a, t, previous)
  }

  /** The open module is finished and a new one begun; then the initialisers run. */
  function Run(st: State, t: TId, previous: Option<TId>): (r: State)
    requires t in st.txs
    ensures r.work == st.work
  {
    var a := Execute(SetCommitted(StartModule(TakeModule(st, t)), t), t);
    if a.txs[t].initialisersFail then Unload(a, t) else a.(current := previous)
  }
}
