/** Runs of the parser: top-level brackets, unloading, and what holds in every state reached. */
module TransactionRuns {

  import opened TransactionState
  import opened TransactionInvariants
  import opened TransactionUnload
  import opened TransactionCommit
  import opened TransactionProtocol
  import opened TransactionBrackets
  import opened PendingWork

  // ---------- the tree of a committed transaction ----------

  /** `x` is `t` or nested in it, directly or not. */
  predicate Under(txs: Txs, x: TId, t: TId)
    decreases x
  {
    x == t || (x in txs && txs[x].parent.Some? && txs[x].parent.value < x && Under(txs, txs[x].parent.value, t))
  }

  /** Everything in the tree of a committed transaction is committed, and was so before it. */
  lemma {:induction false} TreeCommitted(txs: Txs, nextId: TId, clock: nat, x: TId, t: TId)
    requires Linked(txs, nextId) && Settled(txs, clock) && x in txs && t in txs && txs[t].phase == Committed &&
               Under(txs, x, t)
    ensures txs[x].phase == Committed && (x != t ==> txs[x].committedAt < txs[t].committedAt)
    decreases x
  {
    if x != t {
      var p := txs[x].parent.value;
      assert IsLinked(txs, nextId, x);
      TreeCommitted(txs, nextId, clock, p, t);
      assert IsSettled(txs, clock, p);
    }
  }

  /** What is under `t` stays so when parents stay. */
  lemma {:induction false} UnderStays(a: Txs, b: Txs, nextId: TId, x: TId, t: TId)
    requires Linked(a, nextId) && x in a && Under(a, x, t)
    requires forall y | y in a && y != t :: y in b && b[y].parent == a[y].parent
    ensures Under(b, x, t)
    decreases x
  {
    if x != t {
      assert IsLinked(a, nextId, x);
      UnderStays(a, b, nextId, a[x].parent.value, t);
    }
  }

  /** Committing a top-level transaction, when no errors come before all that is nested is committed: its
      whole tree is still there and committed, each transaction after what is nested in it. When code is
      generated, the top took the one open module and ran once, after everything in its tree was
      committed, and nothing else took a module or ran. What has come into the tree is committed too. */
  lemma CommitOfTree(st: State, t: TId, x: TId)
    requires MayCommit(st, t, st.nextId) && st.txs[t].parent.None? && MayUnload(st, t) && !Throws(st, t)
    requires GoesWell(st, st.txs[t].nested)
    requires (x in st.txs && Under(st.txs, x, t)) ||
             (x in Commit(st, t, st.nextId).txs && Under(Commit(st, t, st.nextId).txs, x, t))
    ensures var r := Commit(st, t, st.nextId);
            t in r.txs && x in r.txs && r.txs[x].phase == Committed && Under(r.txs, x, t) &&
            (x != t ==> r.txs[x].committedAt < r.txs[t].committedAt) &&
            (if GeneratesCode(st, t) then TookModuleAndRan(st, t, r) else TookNothing(st, t, r)) &&
            (x != t && x in st.txs ==> r.txs[x].mod == st.txs[x].mod && r.txs[x].runs == st.txs[x].runs) &&
            (x !in st.txs ==> r.txs[x].mod.None? && r.txs[x].runs == 0)
  {
    CommitTop(st, t);
    var r := Commit(st, t, st.nextId);
    if x in st.txs && Under(st.txs, x, t) {
      UnderStays(st.txs, r.txs, st.nextId, x, t);
    }
    TreeCommitted(r.txs, r.nextId, r.clock, x, t);
  }

  /** Errors that come with instantiation or deserialisation, once the commit has passed its checks, come
      too late: the transaction is committed and runs with the errors noted. Whether there are any is
      told by the list of pending batches. */
  lemma ErrorsComeTooLate(st: State, t: TId)
    requires MayCommit(st, t, st.nextId) && st.txs[t].parent.None? && MayUnload(st, t) && !Throws(st, t)
    requires AllCommitted(st.txs, st.txs[t].nested)
    ensures var r := Commit(st, t, st.nextId);
            t in r.txs && r.txs[t].phase == Committed &&
            (HasErrors(r.txs, t) <==> TopGoes(st.work, GeneratesCode(st, t)).Erring?) &&
            (GeneratesCode(st, t) ==> TookModuleAndRan(st, t, r))
  {
    QuietGoesWell(st, st.txs[t].nested);
    CommitTop(st, t);
  }

  // ---------- top-level brackets ----------

  /** What a top-level bracket leaves: the new transaction is current, unless it is gone. */
  ghost predicate TopClosed(r: State, t: TId) {
    Valid(r) && r.current == if t in r.txs then Some(t) else None
  }

  /** Inside a top-level bracket, all that came since is committed. */
  ghost predicate InTop(st: State, a: State, t: TId) {
    Valid(st) && t == st.nextId && KeptBut(st, a, t) && Valid(a) && t in a.txs && a.current == Some(t) &&
    a.txs[t].phase == Collecting && a.txs[t].parent.None?
  }

  lemma OpensTop(st: State, codeGeneration: bool)
    requires Valid(st) && !IsOpen(st)
    ensures InTop(st, Begin(st, codeGeneration), st.nextId)
  {
    BeginValid(st, codeGeneration);
    BeginKeeps(st, codeGeneration);
  }

  /** The state in which a top-level bracket commits. */
  ghost predicate TopEnding(st: State, c: State, t: TId) {
    Linked(st.txs, st.nextId) && t == st.nextId && KeptButDeque(st, c, t) && Valid(c) && t in c.txs &&
    c.current == Some(t) &&
    c.txs[t].phase == Completed && c.txs[t].parent.None? && c.deque == st.deque + [t]
  }

  /** The part of what a bracket keeps that bears on committing it. */
  ghost predicate KeptButDeque(a: State, b: State, t: TId) {
    forall x | x in b.txs && x !in a.txs && x != t :: CameAndCommitted(b.txs[x])
  }

  lemma TopEndsEmpty(st: State, a: State, t: TId)
    requires InTop(st, a, t) && IsEmpty(Completing(a, t)[t])
    ensures TopClosed(End(a, t), t) && t !in End(a, t).txs
  {
    EndValid(a, t);
    CompletingOutside(a, t);
  }

  lemma NotQueued(a: State, t: TId)
    requires Chained(a.txs, a.deque) && t in a.txs && a.txs[t].phase == Collecting
    ensures t !in a.deque
  {
  }

  lemma TopEndsFilled(st: State, a: State, t: TId)
    requires InTop(st, a, t) && !IsEmpty(Completing(a, t)[t])
    ensures TopEnding(st, End(a, t), t) && (End(a, t).hasErrorOccurred ==> HasErrors(End(a, t).txs, t))
  {
    EndValid(a, t);
    NotQueued(a, t);
    TopQueued(st, a, t);
    if a.hasErrorOccurred {
      TopErrorsMarked(a, t);
    }
  }

  lemma TopErrorsMarked(a: State, t: TId)
    requires Linked(a.txs, a.nextId) && t in a.txs && a.txs[t].parent.None? && a.hasErrorOccurred &&
               !IsEmpty(Completing(a, t)[t])
    ensures HasErrors(End(a, t).txs, t)
  {
    ErrorsMarked(a, t);
    CompletingOutside(a, t);
  }

  lemma TopQueued(st: State, a: State, t: TId)
    requires KeptBut(st, a, t) && t in a.txs && a.txs[t].parent.None? && t !in a.deque && !IsEmpty(Completing(a, t)[t])
    requires st.deque != [] ==> Last(st.deque) in st.txs
    ensures var c := End(a, t);
            KeptButDeque(st, c, t) && t in c.txs && c.txs[t].phase == Completed && c.txs[t].parent.None? &&
            c.deque == st.deque + [t] && c.current == a.current
  {
    CompletingOutside(a, t);
  }

  /** `t` is the newest transaction that is not committed. */
  ghost predicate IsNewest(txs: Txs, nextId: TId, t: TId) {
    forall x | x in txs :: x < nextId && (x > t ==> txs[x].phase == Committed)
  }

  lemma NewerCommitted(st: State, c: State, t: TId)
    requires Linked(st.txs, st.nextId) && t == st.nextId && KeptButDeque(st, c, t) && Linked(c.txs, c.nextId)
    ensures IsNewest(c.txs, c.nextId, t)
  {
    forall x | x in c.txs
      ensures x < c.nextId && (x > t ==> c.txs[x].phase == Committed)
    {
      assert IsLinked(c.txs, c.nextId, x);
      assert x in st.txs ==> IsLinked(st.txs, st.nextId, x);
    }
  }

  lemma NestedCommitted(txs: Txs, nextId: TId, t: TId)
    requires Linked(txs, nextId) && t in txs && txs[t].phase == Completed && IsNewest(txs, nextId, t)
    ensures AllCommitted(txs, txs[t].nested) && Ended(txs, t, nextId)
  {
    assert IsLinked(txs, nextId, t);
    forall x | x in txs[t].nested
      ensures x in txs && txs[x].phase == Committed
    {
      assert IsLinked(txs, nextId, x);
    }
  }

  lemma TopFails(c: State, t: TId)
    requires Valid(c) && t in c.txs && c.txs[t].parent.None? && MayUnload(c, t) && c.current == Some(t) &&
               HasErrors(c.txs, t)
    ensures TopClosed(Commit(c, t, c.nextId), t)
  {
    CommitFailedValid(c, t);
  }

  lemma TopSucceeds(c: State, t: TId)
    requires MayCommit(c, t, c.nextId) && c.txs[t].parent.None? && MayUnload(c, t) && c.current == Some(t)
    requires AllCommitted(c.txs, c.txs[t].nested)
    ensures TopClosed(Commit(c, t, c.nextId), t)
  {
    QuietGoesWell(c, c.txs[t].nested);
    CommitTop(c, t);
  }

  lemma TopReady(st: State, c: State, t: TId)
    requires TopEnding(st, c, t) && !c.hasErrorOccurred && !HasErrors(c.txs, t)
    ensures MayCommit(c, t, c.nextId) && AllCommitted(c.txs, c.txs[t].nested)
  {
    NewerCommitted(st, c, t);
    NestedCommitted(c.txs, c.nextId, t);
  }

  lemma TopCommitCloses(st: State, c: State, t: TId)
    requires TopEnding(st, c, t) && (c.hasErrorOccurred ==> HasErrors(c.txs, t))
    ensures TopClosed(Commit(c, t, c.nextId), t)
  {
    if HasErrors(c.txs, t) {
      TopFails(c, t);
    } else {
      TopReady(st, c, t);
      TopSucceeds(c, t);
    }
  }

  lemma TopPopCloses(st: State, a: State, t: TId)
    requires InTop(st, a, t)
    ensures TopClosed(Pop(a, t), t)
  {
    if IsEmpty(Completing(a, t)[t]) {
      TopEndsEmpty(st, a, t);
    } else {
      TopEndsFilled(st, a, t);
      TopCommitCloses(st, End(a, t), t);
    }
  }

  lemma TopBodyCloses(st: State, a: State, t: TId, body: seq<Action>)
    requires InTop(st, a, t)
    ensures TopClosed(Pop(ActAll(a, t, body), t), t)
  {
    ActAllKeeps(a, t, body);
    KeptTwice(st, a, ActAll(a, t, body), t);
    assert KeptTx(a.txs[t], ActAll(a, t, body).txs[t], a.nextId);
    TopPopCloses(st, ActAll(a, t, body), t);
  }

  lemma TopBracketCloses(st: State, codeGeneration: bool, body: seq<Action>)
    requires Valid(st) && !IsOpen(st)
    ensures TopClosed(RunBracket(st, codeGeneration, body), st.nextId)
  {
    OpensTop(st, codeGeneration);
    TopBodyCloses(st, Begin(st, codeGeneration), st.nextId, body);
  }

  function RunBracket(st: State, codeGeneration: bool, body: seq<Action>): State {
    Pop(ActAll(Begin(st, codeGeneration), st.nextId, body), st.nextId)
  }

  /** Opened while a transaction is open, a bracket leaves it, and everything else that was there, as
      it was, but for errors noted and transactions nested. */
  lemma BracketLeavesOutside(st: State, codeGeneration: bool, body: seq<Action>, x: TId)
    requires Valid(st) && IsOpen(st) && x in st.txs
    ensures var r := RunBracket(st, codeGeneration, body);
            x in r.txs && r.txs[x] == st.txs[x].(nested := r.txs[x].nested, hasErrors := r.txs[x].hasErrors)
  {
    BracketCloses(st, codeGeneration, body);
    NextIsNew(st);
    assert KeptTx(st.txs[x], RunBracket(st, codeGeneration, body).txs[x], st.nextId);
  }

  // ---------- runs ----------

  /** What the interpreter may ask for between commits; `Pending` is work found by parsing. */
  datatype Operation =
    | Open(codeGeneration: bool, body: seq<Action>)
    | UnloadNewest
    | Pending(batches: seq<Arrival>)

  function Initial(hasCodeGenerator: bool): State {
    State(map[], [], None, 0, hasCodeGenerator, if hasCodeGenerator then Some(0) else None,
          if hasCodeGenerator then 1 else 0, false, [], 0)
  }

  function Perform(st: State, op: Operation): State {
    match op
    case Open(codeGeneration, body) => RunBracket(st, codeGeneration, body)
    case UnloadNewest => if st.deque == [] || Last(st.deque) !in st.txs then st else Unload(st, Last(st.deque))
    case Pending(batches) => st.(work := st.work + batches)
  }

  function PerformAll(st: State, ops: seq<Operation>): State
    decreases |ops|
  {
    if ops == [] then st else PerformAll(Perform(st, ops[0]), ops[1..])
  }

  lemma PerformValid(st: State, op: Operation)
    requires Valid(st)
    ensures Valid(Perform(st, op))
  {
    match op
    case Open(codeGeneration, body) =>
      if IsOpen(st) {
        BracketCloses(st, codeGeneration, body);
      } else {
        TopBracketCloses(st, codeGeneration, body);
      }
    case UnloadNewest =>
      if st.deque != [] && Last(st.deque) in st.txs {
        UnloadValid(st, Last(st.deque));
      }
    case Pending(_) =>
  }

  /** Unloading between commits takes the newest of the deque. */
  lemma UnloadNewestTakesLast(st: State)
    requires Valid(st) && st.deque != []
    ensures var r := Perform(st, UnloadNewest); r.deque == Init(st.deque) && Last(st.deque) !in r.txs
  {
    UnloadSound(st, Last(st.deque));
    UnloadValid(st, Last(st.deque));
  }

  /** In every state that a run reaches, the transactions are linked, the deque is what `next` lists,
      committed trees were committed from the leaves up, and exactly one module is open. */
  lemma {:induction false} EveryRunValid(st: State, ops: seq<Operation>)
    requires Valid(st)
    ensures Valid(PerformAll(st, ops))
    decreases |ops|
  {
    if ops != [] {
      PerformValid(st, ops[0]);
      EveryRunValid(Perform(st, ops[0]), ops[1..]);
    }
  }

  lemma InitialValid(hasCodeGenerator: bool)
    ensures Valid(Initial(hasCodeGenerator))
  {
  }
}
