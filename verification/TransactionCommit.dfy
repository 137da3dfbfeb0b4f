/** Committing a tree of transactions without errors: it ends with everything in the tree committed,
    each transaction after what is nested in it. Errors that instantiation brings meanwhile are noted at
    the topmost parent. */
module TransactionCommit {

  import opened TransactionState
  import opened TransactionInvariants
  import opened PendingWork

  // ---------- how a commit changes the state ----------

  /** A transaction may get more nested ones, which are new, errors may be noted at it, and it may get
      committed. */
  predicate GrownTx(a: Tx, b: Tx, nextId: TId) {
    b == a.(nested := b.nested, hasErrors := b.hasErrors, phase := b.phase, committedAt := b.committedAt) &&
    (a.hasErrors ==> b.hasErrors) &&
    (b.phase == a.phase || b.phase == Committed) && (a.phase == Committed ==> b == a) &&
    forall c | c in b.nested :: c in a.nested || c >= nextId
  }

  /** A transaction that came and was committed; only top-level ones get a module and run. */
  predicate CameAndCommitted(tx: Tx) {
    tx.phase == Committed && tx.parent.Some? && tx.next.None? && tx.mod.None? && tx.runs == 0
  }

  /** What happens to the rest of the state. */
  predicate SameFrame(a: State, b: State) {
    a.nextId <= b.nextId && a.clock <= b.clock &&
    b == a.(txs := b.txs, current := b.current, nextId := b.nextId, work := b.work, clock := b.clock)
  }

  /** Transactions older than `t` are as before, but for errors at `root`, which only come when there are
      some in the work; new ones have come and are committed. */
  ghost predicate Grown(a: State, b: State, t: TId, root: TId) {
    SameFrame(a, b) && (Clean(a.work) ==> Clean(b.work)) &&
    (forall x | x in a.txs ::
      x in b.txs && GrownTx(a.txs[x], b.txs[x], a.nextId) &&
      (x < t ==> b.txs[x] == a.txs[x].(hasErrors := b.txs[x].hasErrors)) &&
      (x != root || Clean(a.work) ==> b.txs[x].hasErrors == a.txs[x].hasErrors)) &&
    (forall x | x in b.txs && x !in a.txs :: x >= a.nextId && CameAndCommitted(b.txs[x]))
  }

  lemma GrownTwice(a: State, b: State, c: State, t: TId, u: TId, root: TId)
    requires Grown(a, b, u, root) && Grown(b, c, t, root) && t <= u
    ensures Grown(a, c, t, root)
  {
    forall x | x in a.txs
      ensures x in c.txs && GrownTx(a.txs[x], c.txs[x], a.nextId)
    {
      assert GrownTx(a.txs[x], b.txs[x], a.nextId) && GrownTx(b.txs[x], c.txs[x], b.nextId);
    }
    forall x | x in c.txs && x !in a.txs
      ensures x >= a.nextId && CameAndCommitted(c.txs[x])
    {
      if x in b.txs {
        assert GrownTx(b.txs[x], c.txs[x], b.nextId);
      }
    }
  }

  /** Which transaction is current does not matter. */
  lemma GrownFrom(a: State, c: State, b: State, t: TId, root: TId)
    requires a == c.(current := a.current) && Grown(c, b, t, root)
    ensures Grown(a, b, t, root)
  {
  }

  lemma BackToCurrent(a: State, b: State, c: State, t: TId, root: TId, current: Option<TId>)
    requires CurrentExists(a) && Valid(b) && Grown(a, b, t, root) && c == b.(current := current)
    requires current == a.current || (current.Some? && current.value in b.txs)
    ensures Valid(c) && Grown(a, c, t, root)
  {
  }

  /** The topmost parent stays. */
  lemma {:induction false} RootStays(a: Txs, b: Txs, nextId: TId, t: TId)
    requires Linked(a, nextId) && t in a
    requires forall x | x in a :: x in b && b[x].parent == a[x].parent
    ensures Root(a, t) == Root(b, t) && Root(a, t) in a && Root(a, t) <= t && a[Root(a, t)].parent.None?
    decreases t
  {
    assert IsLinked(a, nextId, t);
    if a[t].parent.Some? {
      RootStays(a, b, nextId, a[t].parent.value);
    }
  }

  /** Errors that are noted stay noted; without any in the work, none come. */
  lemma ErrorsGrow(a: State, b: State, t: TId, root: TId, u: TId)
    requires Linked(a.txs, a.nextId) && u in a.txs && Grown(a, b, t, root)
    ensures Root(b.txs, u) == Root(a.txs, u)
    ensures HasErrors(a.txs, u) ==> HasErrors(b.txs, u)
    ensures Clean(a.work) ==> HasErrors(b.txs, u) == HasErrors(a.txs, u)
  {
    forall x | x in a.txs
      ensures b.txs[x].parent == a.txs[x].parent && (a.txs[x].hasErrors ==> b.txs[x].hasErrors)
    {
      assert GrownTx(a.txs[x], b.txs[x], a.nextId);
    }
    RootStays(a.txs, b.txs, a.nextId, u);
  }

  // ---------- what a commit asks for ----------

  /** Everything from `t` on has ended; what is not committed is numbered below `bound`. */
  predicate Ended(txs: Txs, t: TId, bound: nat) {
    (forall x | x in txs && x >= t :: txs[x].phase != Collecting) &&
    (forall x | x in txs && txs[x].phase != Committed :: x < bound)
  }

  lemma EndedStays(a: State, b: State, t: TId, root: TId, u: TId, v: TId, bound: nat)
    requires Grown(a, b, t, root) && Ended(a.txs, u, bound) && u <= v
    ensures Ended(b.txs, v, bound)
  {
    forall x | x in b.txs
      ensures (x >= v ==> b.txs[x].phase != Collecting) && (b.txs[x].phase != Committed ==> x < bound)
    {
      if x in a.txs {
        assert GrownTx(a.txs[x], b.txs[x], a.nextId);
      }
    }
  }

  // ---------- hooks ----------

  lemma ReleasedNew(txs: Txs, p: TId, t: TId, tx: Tx)
    requires p in txs && t !in txs && tx.parent == Some(p)
    ensures Released(AddNested(txs, p, t)[t := tx], t) == txs
  {
    var nested := txs[p].nested;
    assert Init(nested + [t]) == nested;
    assert Without(nested + [t], t) == nested;
  }

  /** What is begun in `p` shares its topmost parent. */
  lemma BegunErrors(st: State, p: TId, tx: Tx)
    requires Linked(st.txs, st.nextId) && p in st.txs && tx.parent == Some(p)
    ensures Root(AddNested(st.txs, p, st.nextId)[st.nextId := tx], st.nextId) == Root(st.txs, p) &&
              Root(st.txs, p) in st.txs
    ensures HasErrors(AddNested(st.txs, p, st.nextId)[st.nextId := tx], st.nextId) == HasErrors(st.txs, p)
  {
    var txs := AddNested(st.txs, p, st.nextId)[st.nextId := tx];
    assert IsLinked(st.txs, st.nextId, p);
    NextIsNew(st);
    RootStays(st.txs, txs, st.nextId, p);
  }

  /** The state with `tx` as the newest transaction, nested in `p`. */
  function Opened(st: State, p: TId, tx: Tx): State
    requires p in st.txs
  {
    st.(txs := AddNested(st.txs, p, st.nextId)[st.nextId := tx], current := Some(st.nextId), nextId := st.nextId + 1)
  }

  function Filled(p: TId, codeGeneration: bool, decls: nat): Tx {
    NewTx(Some(p), codeGeneration).(decls := decls)
  }

  /** The state without its next batch, whose errors have occurred. */
  function Taken(st: State): State {
    st.(work := Later(st), hasErrorOccurred := st.hasErrorOccurred || Batch(st).error)
  }

  lemma FillingOpens(st: State, p: TId, codeGeneration: bool)
    requires st.current == Some(p) && p in st.txs && st.txs[p].phase != Committed
    ensures Filling(st, codeGeneration) ==
            Opened(Taken(st), p, Filled(p, codeGeneration, Batch(st).decls))
  {
    var txs: Txs := AddNested(st.txs, p, st.nextId);
    assert txs[st.nextId := NewTx(Some(p), codeGeneration)][st.nextId := Filled(p, codeGeneration, Batch(st).decls)] ==
           txs[st.nextId := Filled(p, codeGeneration, Batch(st).decls)];
  }

  predicate HasFailed(st: State, p: TId) {
    st.hasErrorOccurred || HasErrors(st.txs, p)
  }

  /** Errors that occurred in the tree of `p` are noted. */
  function Marked(st: State, p: TId): State {
    if HasFailed(st, p) then st.(txs := MarkErrors(st.txs, p)) else st
  }

  lemma MarkedOpened(st: State, p: TId, tx: Tx)
    requires Linked(st.txs, st.nextId) && p in st.txs && tx.parent == Some(p)
    ensures p in MarkErrors(st.txs, p)
    ensures MarkErrors(Opened(st, p, tx).txs, st.nextId) == Opened(st.(txs := MarkErrors(st.txs, p)), p, tx).txs
  {
    BegunErrors(st, p, tx);
    NextIsNew(st);
  }

  lemma CompletingOpened(st: State, p: TId, tx: Tx)
    requires Linked(st.txs, st.nextId) && p in st.txs && tx.parent == Some(p)
    ensures p in Marked(st, p).txs
    ensures EndFails(Opened(st, p, tx), st.nextId) == HasFailed(st, p)
    ensures Completing(Opened(st, p, tx), st.nextId) == Opened(Marked(st, p), p, tx.(phase := Completed)).txs
  {
    var txs: Txs := AddNested(st.txs, p, st.nextId);
    assert txs[st.nextId := tx][st.nextId := tx.(phase := Completed)] == txs[st.nextId := tx.(phase := Completed)];
    BegunErrors(st, p, tx.(phase := Completed));
    MarkedOpened(st, p, tx.(phase := Completed));
  }

  /** A transaction in which nothing comes leaves no trace but errors. */
  lemma EndEmpty(st: State, p: TId, tx: Tx)
    requires Linked(st.txs, st.nextId) && p in st.txs && tx.parent == Some(p) && IsEmpty(tx)
    ensures End(Opened(st, p, tx), st.nextId) == Marked(st, p).(nextId := st.nextId + 1, current := Some(p))
  {
    CompletingOpened(st, p, tx);
    NextIsNew(st);
    ReleasedNew(Marked(st, p).txs, p, st.nextId, tx.(phase := Completed));
  }

  lemma EndFilled(st: State, p: TId, tx: Tx)
    requires Linked(st.txs, st.nextId) && p in st.txs && tx.parent == Some(p) && !IsEmpty(tx)
    ensures p in Marked(st, p).txs && End(Opened(st, p, tx), st.nextId) ==
              Opened(Marked(st, p), p, tx.(phase := Completed))
  {
    CompletingOpened(st, p, tx);
  }

  /** Nesting a new transaction in an open one. */
  lemma OpenedLinked(st: State, p: TId, tx: Tx)
    requires Linked(st.txs, st.nextId) && p in st.txs && tx.parent == Some(p) && tx.nested == []
    ensures Linked(Opened(st, p, tx).txs, st.nextId + 1)
  {
    var after := Opened(st, p, tx).txs;
    NextIsNew(st);
    assert IsLinked(st.txs, st.nextId, p);
    forall x | x in st.txs
      ensures after[x].nested == st.txs[x].nested + if after[st.nextId].parent == Some(x) then [st.nextId] else []
    {
      assert st.txs[x].nested + [] == st.txs[x].nested;
    }
    forall u | u in after
      ensures IsLinked(after, st.nextId + 1, u)
    {
      if u in st.txs {
        OldLinked(st, after, u);
      }
    }
  }

  lemma OpenedSettled(st: State, p: TId, tx: Tx)
    requires Linked(st.txs, st.nextId) && Settled(st.txs, st.clock) && p in st.txs && st.txs[p].phase != Committed
    requires tx.phase != Committed
    ensures Settled(Opened(st, p, tx).txs, st.clock)
  {
    var after := Opened(st, p, tx).txs;
    NextIsNew(st);
    forall u | u in after
      ensures IsSettled(after, st.clock, u)
    {
      if u in st.txs {
        assert IsSettled(st.txs, st.clock, u) && IsLinked(st.txs, st.nextId, u);
      }
    }
  }

  lemma OpenedChained(st: State, p: TId, tx: Tx)
    requires Chained(st.txs, st.deque) && p in st.txs && st.nextId !in st.txs && tx.next.None?
    ensures Chained(Opened(st, p, tx).txs, st.deque)
  {
  }

  lemma OpenedModules(st: State, p: TId, tx: Tx)
    requires Modules(st) && p in st.txs && st.nextId !in st.txs && tx.mod.None?
    ensures Modules(Opened(st, p, tx))
  {
  }

  lemma OpenedValid(st: State, p: TId, tx: Tx)
    requires Valid(st) && p in st.txs && st.txs[p].phase != Committed
    requires tx.parent == Some(p) && tx.nested == [] && tx.phase != Committed && tx.next.None? && tx.mod.None?
    ensures Valid(Opened(st, p, tx))
  {
    NextIsNew(st);
    OpenedLinked(st, p, tx);
    OpenedSettled(st, p, tx);
    OpenedChained(st, p, tx);
    OpenedModules(st, p, tx);
  }

  /** What a hook asks for: an open transaction is the current one. */
  predicate IsCurrent(st: State, p: TId) {
    !st.hasErrorOccurred && st.current == Some(p) && p in st.txs && st.txs[p].phase != Committed
  }

  /** The state after a hook that brings nothing, or errors: these are noted, and whatever else came is
      gone again. */
  function Passed(st: State, p: TId): State {
    Marked(Taken(st), p).(nextId := st.nextId + 1, hasErrorOccurred := false)
  }

  /** The state in which a hook commits its transaction. */
  function HookState(st: State, p: TId, codeGeneration: bool): State
    requires p in Marked(Taken(st), p).txs
  {
    Opened(Marked(Taken(st), p), p, Filled(p, codeGeneration, Batch(st).decls).(phase := Completed))
  }

  lemma EmptyHook(st: State, p: TId, codeGeneration: bool)
    requires Linked(st.txs, st.nextId) && IsCurrent(st, p) && Batch(st).decls == 0
    ensures st.nextId !in End(Filling(st, codeGeneration), st.nextId).txs
    ensures Hook(st, codeGeneration) == Passed(st, p)
  {
    var tx := Filled(p, codeGeneration, 0);
    FillingOpens(st, p, codeGeneration);
    NextIsNew(st);
    CompletingOpened(Taken(st), p, tx);
    EndEmpty(Taken(st), p, tx);
  }

  lemma FilledEnds(st: State, p: TId, codeGeneration: bool)
    requires Linked(st.txs, st.nextId) && IsCurrent(st, p) && Batch(st).decls > 0
    ensures p in Marked(Taken(st), p).txs &&
              End(Filling(st, codeGeneration), st.nextId) == HookState(st, p, codeGeneration)
  {
    var tx := Filled(p, codeGeneration, Batch(st).decls);
    FillingOpens(st, p, codeGeneration);
    EndFilled(Taken(st), p, tx);
  }

  lemma FilledHook(st: State, p: TId, codeGeneration: bool, t: TId, bound: nat)
    requires Linked(st.txs, st.nextId) && IsCurrent(st, p) && Batch(st).decls > 0 && t == st.nextId && bound == t + 1
    ensures p in Marked(Taken(st), p).txs && t in HookState(st, p, codeGeneration).txs
    ensures Hook(st, codeGeneration) == Commit(HookState(st, p, codeGeneration), t, bound)
  {
    FilledEnds(st, p, codeGeneration);
  }

  /** What came with errors, or in a tree with errors, goes again. */
  lemma ErringHook(st: State, p: TId, codeGeneration: bool)
    requires Linked(st.txs, st.nextId) && IsCurrent(st, p) && Batch(st).decls > 0 && HasFailed(Taken(st), p)
    ensures Hook(st, codeGeneration) == Passed(st, p)
  {
    var t, m := st.nextId, Marked(Taken(st), p);
    FilledHook(st, p, codeGeneration, t, t + 1);
    var tx := Filled(p, codeGeneration, Batch(st).decls).(phase := Completed);
    MarkedErrors(st, p);
    BegunErrors(m, p, tx);
    NextIsNew(st);
    FailsAtOnce(m, p, tx);
  }

  lemma MarkedErrors(st: State, p: TId)
    requires Linked(st.txs, st.nextId) && p in st.txs && HasFailed(Taken(st), p)
    ensures Linked(Marked(Taken(st), p).txs, st.nextId) && HasErrors(Marked(Taken(st), p).txs, p)
  {
    var root := Root(st.txs, p);
    RootStays(st.txs, MarkErrors(st.txs, p), st.nextId, p);
    UpdateLinked(st.txs, st.nextId, root, st.txs[root].(hasErrors := true));
  }

  /** A new transaction with errors is rolled back without a trace. */
  lemma FailsAtOnce(m: State, p: TId, tx: Tx)
    requires Linked(m.txs, m.nextId) && p in m.txs && tx.parent == Some(p) && tx.nested == [] && HasErrors(m.txs, p)
    ensures Commit(Opened(m, p, tx), m.nextId, m.nextId + 1) ==
            m.(nextId := m.nextId + 1, current := Some(p), hasErrorOccurred := false)
  {
    var t := m.nextId;
    var c := Opened(m, p, tx);
    NextIsNew(m);
    BegunErrors(m, p, tx);
    var a := ToParent(c, t).(hasErrorOccurred := false);
    assert Commit(c, t, t + 1) == Unload(a, t);
    assert Unload(a, t) == Deregister(a, t);
    ReleasedNew(m.txs, p, t, tx);
  }

  /** As long as a transaction is open, so is its topmost parent. */
  lemma {:induction false} RootOpen(txs: Txs, nextId: TId, clock: nat, p: TId)
    requires Linked(txs, nextId) && Settled(txs, clock) && p in txs && txs[p].phase != Committed
    ensures Root(txs, p) in txs && txs[Root(txs, p)].phase != Committed
    decreases p
  {
    assert IsLinked(txs, nextId, p);
    if txs[p].parent.Some? {
      assert IsSettled(txs, clock, txs[p].parent.value);
      RootOpen(txs, nextId, clock, txs[p].parent.value);
    }
  }

  lemma SkippedNumber(st: State)
    requires Valid(st)
    ensures Valid(st.(nextId := st.nextId + 1))
  {
    forall u | u in st.txs
      ensures IsLinked(st.txs, st.nextId + 1, u)
    {
      assert IsLinked(st.txs, st.nextId, u);
    }
  }

  lemma PassedGrows(st: State, p: TId)
    requires Valid(st) && IsCurrent(st, p)
    ensures Valid(Passed(st, p)) && Grown(st, Passed(st, p), p, Root(st.txs, p)) && Passed(st, p).current == Some(p)
    ensures p in Passed(st, p).txs && Passed(st, p).txs[p].phase == st.txs[p].phase
    ensures Root(Passed(st, p).txs, p) == Root(st.txs, p) && HasErrors(Passed(st, p).txs, p) == HasFailed(Taken(st), p)
  {
    RootOpen(st.txs, st.nextId, st.clock, p);
    PassedValid(st, p);
    PassedIs(st, p, Marked(Taken(st), p).txs);
    PassedMarks(st, p, Marked(Taken(st), p).txs, Root(st.txs, p));
    MarkingGrows(st, Passed(st, p), p, Root(st.txs, p));
  }

  lemma PassedIs(st: State, p: TId, txs: Txs)
    requires IsCurrent(st, p) && txs == Marked(Taken(st), p).txs
    ensures Passed(st, p) == st.(txs := txs, nextId := st.nextId + 1, work := Later(st))
    ensures txs == if HasFailed(Taken(st), p) then MarkErrors(st.txs, p) else st.txs
  {
  }

  /** What is noted is noted at the topmost parent, and only when there are errors. */
  lemma PassedMarks(st: State, p: TId, txs: Txs, root: TId)
    requires Linked(st.txs, st.nextId) && p in st.txs && !st.hasErrorOccurred && root == Root(st.txs, p)
    requires txs == if HasFailed(Taken(st), p) then MarkErrors(st.txs, p) else st.txs
    ensures root in st.txs && root <= p && (txs == st.txs || txs == st.txs[root := st.txs[root].(hasErrors := true)])
    ensures Clean(st.work) ==> txs == st.txs || st.txs[root].hasErrors
    ensures Root(txs, p) == root && HasErrors(txs, p) == HasFailed(Taken(st), p)
  {
    RootStays(st.txs, txs, st.nextId, p);
  }

  lemma PassedValid(st: State, p: TId)
    requires Valid(st) && IsCurrent(st, p)
    ensures Valid(Passed(st, p))
  {
    MarkErrorsValid(st, p);
    PassedFrom(st, Marked(Taken(st), p).txs, Passed(st, p));
  }

  lemma PassedFrom(st: State, txs: Txs, r: State)
    requires Valid(st.(txs := txs)) && r == st.(txs := txs, nextId := st.nextId + 1, work := Later(st))
    ensures Valid(r)
  {
    SkippedNumber(st.(txs := txs));
  }

  lemma MarkingGrows(st: State, r: State, p: TId, root: TId)
    requires root in st.txs && st.txs[root].phase != Committed && root <= p && p in st.txs
    requires r == st.(txs := r.txs, nextId := st.nextId + 1, work := Later(st))
    requires r.txs == st.txs || r.txs == st.txs[root := st.txs[root].(hasErrors := true)]
    requires Clean(st.work) ==> r.txs == st.txs || st.txs[root].hasErrors
    ensures Grown(st, r, p, root) && r.txs[p].phase == st.txs[p].phase
  {
  }

  lemma NewestEnded(st: State, t: TId)
    requires Linked(st.txs, st.nextId) && st.nextId == t + 1 && t in st.txs && st.txs[t].phase != Collecting
    ensures Ended(st.txs, t, t + 1)
  {
    forall x | x in st.txs
      ensures x <= t
    {
      assert IsLinked(st.txs, st.nextId, x);
    }
  }

  /** From before a hook to after the commit of what came in it. */
  lemma HookComposes(st: State, p: TId, tx: Tx, r: State, root: TId)
    requires p in st.txs && st.txs[p].phase != Committed && Linked(st.txs, st.nextId) && !Batch(st).error &&
               !st.hasErrorOccurred
    requires tx.parent == Some(p) && tx.next.None? && tx.mod.None? && tx.runs == 0 && root in st.txs && root <= p
    requires Grown(Opened(Taken(st), p, tx), r, st.nextId, root) && r.txs[st.nextId].phase == Committed
    ensures Grown(st, r, p, root) && r.txs[p].phase == st.txs[p].phase
  {
    var c := Opened(Taken(st), p, tx);
    NextIsNew(st);
    assert GrownTx(c.txs[st.nextId], r.txs[st.nextId], c.nextId);
    forall x | x in st.txs
      ensures OldGrown(st, r, x, p, root)
    {
      OldComposes(st, c, p, tx, r, root, x);
    }
    assert OldGrown(st, r, p, p, root);
    NewCame(st, c, r, st.nextId);
    assert SameFrame(c, r) && SameFrame(st, r);
  }

  lemma NewCame(st: State, c: State, r: State, t: TId)
    requires t == st.nextId && c.nextId == t + 1 && c.txs.Keys == st.txs.Keys + {t}
    requires forall x | x in r.txs && x !in c.txs :: x >= c.nextId && CameAndCommitted(r.txs[x])
    requires t in r.txs && CameAndCommitted(r.txs[t])
    ensures forall x | x in r.txs && x !in st.txs :: x >= st.nextId && CameAndCommitted(r.txs[x])
  {
  }

  ghost predicate OldGrown(st: State, r: State, x: TId, p: TId, root: TId)
    requires x in st.txs
  {
    x in r.txs && GrownTx(st.txs[x], r.txs[x], st.nextId) && r.txs[x].phase == st.txs[x].phase &&
    (x != p ==> r.txs[x] == st.txs[x].(hasErrors := r.txs[x].hasErrors)) &&
    (x != root || Clean(st.work) ==> r.txs[x].hasErrors == st.txs[x].hasErrors)
  }

  lemma OldComposes(st: State, c: State, p: TId, tx: Tx, r: State, root: TId, x: TId)
    requires p in st.txs && st.txs[p].phase != Committed && Linked(st.txs, st.nextId) && !Batch(st).error
    requires c == Opened(Taken(st), p, tx) && Grown(c, r, st.nextId, root) && x in st.txs
    ensures OldGrown(st, r, x, p, root)
  {
    NextIsNew(st);
    assert IsLinked(st.txs, st.nextId, x);
    assert x in c.txs && x < st.nextId;
    assert c.txs[x] == if x == p then st.txs[x].(nested := st.txs[x].nested + [st.nextId]) else st.txs[x];
  }

  // ---------- the commit of a nested transaction ----------

  predicate AllCommitted(txs: Txs, list: seq<TId>) {
    forall c | c in list :: c in txs && txs[c].phase == Committed
  }

  /** What a commit asks for: the transaction and all that came after it have ended, without errors. */
  ghost predicate MayCommit(st: State, t: TId, bound: nat) {
    Valid(st) && !st.hasErrorOccurred && t in st.txs && st.txs[t].phase == Completed && !HasErrors(st.txs, t) &&
    Ended(st.txs, t, bound)
  }

  /** Nested transactions are committed, or no errors come while they are. */
  predicate Quiet(st: State, list: seq<TId>) {
    Clean(st.work) || AllCommitted(st.txs, list)
  }

  /** Nested transactions are committed, or those that are open have nothing open in them, and errors come
      only with the last of them. */
  predicate ErrsAtLast(txs: Txs, work: seq<Arrival>, hasCodeGenerator: bool, list: seq<TId>)
    decreases |list|
  {
    list == [] ||
    (list[0] in txs &&
     if txs[list[0]].phase == Committed then ErrsAtLast(txs, work, hasCodeGenerator, list[1..])
     else
       AllCommitted(txs, txs[list[0]].nested) &&
       match CommitGoes(work, txs[list[0]].codeGeneration && hasCodeGenerator)
       case Erring => AllCommitted(txs, list[1..])
       case Going(rest) => ErrsAtLast(txs, rest, hasCodeGenerator, list[1..]))
  }

  /** Whether errors come with one of the nested transactions, and the work that is left otherwise. */
  function ListGoes(txs: Txs, work: seq<Arrival>, hasCodeGenerator: bool, list: seq<TId>): Progress
    decreases |list|
  {
    if list == [] then Going(work)
    else if list[0] !in txs || txs[list[0]].phase == Committed then ListGoes(txs, work, hasCodeGenerator, list[1..])
    else match CommitGoes(work, txs[list[0]].codeGeneration && hasCodeGenerator)
      case Erring => Erring
      case Going(rest) => ListGoes(txs, rest, hasCodeGenerator, list[1..])
  }

  predicate Orderly(st: State, list: seq<TId>) {
    Clean(st.work) || ErrsAtLast(st.txs, st.work, st.hasCodeGenerator, list)
  }

  predicate NestedErrs(st: State, list: seq<TId>) {
    ListGoes(st.txs, st.work, st.hasCodeGenerator, list).Erring?
  }

  lemma {:induction false} CleanListGoes(txs: Txs, work: seq<Arrival>, hasCodeGenerator: bool, list: seq<TId>)
    requires Clean(work)
    ensures ListGoes(txs, work, hasCodeGenerator, list).Going?
    decreases |list|
  {
    if list != [] {
      if list[0] !in txs || txs[list[0]].phase == Committed {
        CleanListGoes(txs, work, hasCodeGenerator, list[1..]);
      } else {
        var generates := txs[list[0]].codeGeneration && hasCodeGenerator;
        CleanCommitGoes(work, generates);
        CleanListGoes(txs, CommitGoes(work, generates).rest, hasCodeGenerator, list[1..]);
      }
    }
  }

  predicate GoesWell(st: State, list: seq<TId>) {
    Orderly(st, list) && !NestedErrs(st, list)
  }

  lemma QuietGoesWell(st: State, list: seq<TId>)
    requires Quiet(st, list)
    ensures GoesWell(st, list)
  {
    if Clean(st.work) {
      CleanListGoes(st.txs, st.work, st.hasCodeGenerator, list);
    } else {
      CommittedIsOrderly(st.txs, st.work, st.hasCodeGenerator, list);
    }
  }

  lemma {:induction false} CommittedIsOrderly(txs: Txs, work: seq<Arrival>, hasCodeGenerator: bool, list: seq<TId>)
    requires AllCommitted(txs, list)
    ensures ErrsAtLast(txs, work, hasCodeGenerator, list) && ListGoes(txs, work, hasCodeGenerator, list) == Going(work)
    decreases |list|
  {
    if list != [] {
      CommittedIsOrderly(txs, work, hasCodeGenerator, list[1..]);
    }
  }

  /** Transactions that one commit has left as they were go on as told. */
  lemma {:induction false} ErrsAtLastStays(a: Txs, b: Txs, t: TId, work: seq<Arrival>, hasCodeGenerator: bool,
                                           list: seq<TId>)
    requires OnlyChanges(a, b, t) && t in b && b[t].phase == Committed && t !in list
    requires ErrsAtLast(a, work, hasCodeGenerator, list)
    ensures ErrsAtLast(b, work, hasCodeGenerator, list)
    ensures ListGoes(b, work, hasCodeGenerator, list) == ListGoes(a, work, hasCodeGenerator, list)
    decreases |list|
  {
    if list != [] {
      if a[list[0]].phase == Committed {
        ErrsAtLastStays(a, b, t, work, hasCodeGenerator, list[1..]);
      } else {
        var p := CommitGoes(work, a[list[0]].codeGeneration && hasCodeGenerator);
        if p.Going? {
          ErrsAtLastStays(a, b, t, p.rest, hasCodeGenerator, list[1..]);
        }
      }
    }
  }

  predicate GeneratesCode(st: State, t: TId)
    requires t in st.txs
  {
    st.txs[t].codeGeneration && st.hasCodeGenerator
  }

  /** Errors are noted, and work is left, as told by the list of batches. */
  ghost predicate Noted(r: State, t: TId, progress: Progress) {
    match progress
    case Erring => HasErrors(r.txs, t)
    case Going(rest) => !HasErrors(r.txs, t) && r.work == rest
  }

  /** Of the transactions that there were, only `t` is different, but for errors noted. */
  ghost predicate OnlyChanges(a: Txs, b: Txs, t: TId) {
    forall x | x in a && x != t :: x in b && b[x] == a[x].(hasErrors := b[x].hasErrors)
  }

  /** Things went as told for `t`, and when they went well, the other transactions are as before. */
  ghost predicate Told(st: State, r: State, t: TId, progress: Progress) {
    Noted(r, t, progress) && (progress.Going? ==> OnlyChanges(st.txs, r.txs, t))
  }

  /** What a hook in `p` achieves. */
  ghost predicate Hooked(st: State, p: TId, generates: bool, r: State) {
    p in st.txs && Valid(r) && Grown(st, r, p, Root(st.txs, p)) && r.current == Some(p) &&
    r.txs[p].phase == st.txs[p].phase &&
    (!HasErrors(st.txs, p) ==> Told(st, r, p, HookGoes(st.work, generates)))
  }

  /** What the commit of a nested transaction achieves. */
  ghost predicate CommittedNested(st: State, t: TId, r: State) {
    t in st.txs && Valid(r) && Grown(st, r, t, Root(st.txs, t)) && r.txs[t].phase == Committed &&
    (AllCommitted(st.txs, st.txs[t].nested) ==>
      r.current == st.txs[t].parent && Told(st, r, t, CommitGoes(st.work, GeneratesCode(st, t))))
  }

  /** What a hook has filled may be committed. */
  lemma FilledReady(st: State, p: TId, tx: Tx)
    requires Valid(st) && IsCurrent(st, p) && !HasErrors(st.txs, p)
    requires tx.parent == Some(p) && tx.nested == [] && tx.phase == Completed && tx.next.None? && tx.mod.None?
    ensures MayCommit(Opened(st, p, tx), st.nextId, st.nextId + 1)
  {
    OpenedValid(st, p, tx);
    BegunErrors(st, p, tx);
    NewestEnded(Opened(st, p, tx), st.nextId);
  }

  lemma EndedBefore(txs: Txs, t: TId, c: TId, bound: nat)
    requires Ended(txs, t, bound) && t <= c
    ensures Ended(txs, c, bound)
  {
  }

  lemma ErrorsBelow(st: State, t: TId, c: TId)
    requires Linked(st.txs, st.nextId) && c in st.txs && st.txs[c].parent == Some(t)
    ensures Root(st.txs, c) == Root(st.txs, t) && HasErrors(st.txs, c) == HasErrors(st.txs, t)
  {
    assert IsLinked(st.txs, st.nextId, c);
  }

  /** The rest of the nested transactions is as before after one of them. */
  lemma ReadyForRest(st: State, a: State, t: TId, c: TId, root: TId, rest: seq<TId>, bound: nat)
    requires Linked(st.txs, st.nextId) && t in st.txs && Ended(st.txs, t, bound) && Grown(st, a, c, root) && t < c
    requires forall d | d in rest :: d in st.txs && st.txs[d].parent == Some(t)
    ensures Root(a.txs, t) == Root(st.txs, t) && Ended(a.txs, t, bound)
    ensures HasErrors(st.txs, t) ==> HasErrors(a.txs, t)
    ensures Clean(st.work) ==> Clean(a.work) && HasErrors(a.txs, t) == HasErrors(st.txs, t)
    ensures forall d | d in rest :: d in a.txs && a.txs[d].parent == Some(t)
    ensures AllCommitted(st.txs, rest) ==> AllCommitted(a.txs, rest)
  {
    ErrorsGrow(st, a, c, root, t);
    EndedStays(st, a, c, root, t, t, bound);
    forall d | d in rest
      ensures d in a.txs && a.txs[d].parent == Some(t) && (st.txs[d].phase == Committed ==> a.txs[d].phase == Committed)
    {
      assert GrownTx(st.txs[d], a.txs[d], st.nextId);
    }
  }

  lemma RestCommitted(st: State, a: State, r: State, t: TId, c: TId, root: TId, list: seq<TId>)
    requires list != [] && list[0] == c && t < c && Grown(st, a, c, root) && Grown(a, r, t + 1, root)
    requires c in a.txs && a.txs[c].phase == Committed && AllCommitted(r.txs, list[1..])
    ensures Grown(st, r, t + 1, root) && AllCommitted(r.txs, list)
  {
    GrownTwice(st, a, r, t + 1, c, root);
    assert GrownTx(a.txs[c], r.txs[c], a.nextId);
    assert forall d | d in list :: d == c || d in list[1..];
  }

  lemma CommittingGrows(st: State, t: TId)
    requires Valid(st) && t in st.txs && AllCommitted(st.txs, st.txs[t].nested)
    ensures Valid(SetCommitted(st, t)) && SetCommitted(st, t).txs[t].phase == Committed
    ensures Grown(st, SetCommitted(st, t), t, Root(st.txs, t)) && OnlyChanges(st.txs, SetCommitted(st, t).txs, t)
    ensures HasErrors(SetCommitted(st, t).txs, t) == HasErrors(st.txs, t) && SetCommitted(st, t).work == st.work
  {
    SetCommittedValid(st, t);
    SetCommittedGrows(st, t, Root(st.txs, t));
    SetCommittedOnly(st, t);
    SetCommittedErrors(st, t);
  }

  lemma SetCommittedErrors(st: State, t: TId)
    requires Linked(st.txs, st.nextId) && t in st.txs
    ensures HasErrors(SetCommitted(st, t).txs, t) == HasErrors(st.txs, t)
  {
    RootStays(st.txs, SetCommitted(st, t).txs, st.nextId, t);
  }

  lemma SetCommittedGrows(st: State, t: TId, root: TId)
    requires t in st.txs
    ensures Grown(st, SetCommitted(st, t), t, root)
  {
  }

  lemma SetCommittedOnly(st: State, t: TId)
    requires t in st.txs
    ensures OnlyChanges(st.txs, SetCommitted(st, t).txs, t) && SetCommitted(st, t).work == st.work
  {
  }

  lemma StillAllCommitted(a: State, b: State, t: TId, root: TId)
    requires Linked(a.txs, a.nextId) && t in a.txs && Grown(a, b, t, root) && AllCommitted(a.txs, a.txs[t].nested)
    requires Linked(b.txs, b.nextId)
    ensures t in b.txs && AllCommitted(b.txs, b.txs[t].nested)
  {
    assert GrownTx(a.txs[t], b.txs[t], a.nextId);
    assert IsLinked(b.txs, b.nextId, t);
    forall c | c in b.txs[t].nested
      ensures c in b.txs && b.txs[c].phase == Committed
    {
      if c in a.txs[t].nested {
        assert GrownTx(a.txs[c], b.txs[c], a.nextId);
      } else {
        assert c in a.txs ==> IsLinked(a.txs, a.nextId, c);
      }
    }
  }

  /** What committing a transaction, in which everything is committed, achieves. */
  ghost predicate Finished(st: State, t: TId, progress: Progress, r: State) {
    t in st.txs && Valid(r) && Grown(st, r, t, Root(st.txs, t)) && r.txs[t].phase == Committed &&
    r.current == st.current &&
    (!HasErrors(st.txs, t) ==> Told(st, r, t, progress))
  }

  lemma NestedGenerates(st: State, a: State, t: TId)
    requires t in st.txs && a == Hook(st.(current := Some(t)), true) && t in a.txs && a.txs[t].parent.Some?
    ensures Generate(st, t) == SetCommitted(a, t).(current := st.current)
  {
  }

  lemma HookedFinishes(st: State, a: State, t: TId)
    requires Valid(st) && t in st.txs && AllCommitted(st.txs, st.txs[t].nested)
    requires Hooked(st.(current := Some(t)), t, true, a)
    ensures Finished(st, t, HookGoes(st.work, true), SetCommitted(a, t).(current := st.current))
  {
    var root, b := Root(st.txs, t), SetCommitted(a, t);
    HookedKeeps(st, a, t, true);
    CommittingGrows(a, t);
    GrownTwice(st, a, b, t, t, root);
    BackToCurrent(st, b, b.(current := st.current), t, root, st.current);
    ToldFinished(st, a, b, t, HookGoes(st.work, true));
    IsFinished(st, t, HookGoes(st.work, true), b.(current := st.current));
  }

  lemma IsFinished(st: State, t: TId, progress: Progress, r: State)
    requires t in st.txs && Valid(r) && Grown(st, r, t, Root(st.txs, t)) && t in r.txs && r.txs[t].phase == Committed
    requires r.current == st.current && (!HasErrors(st.txs, t) ==> Told(st, r, t, progress))
    ensures Finished(st, t, progress, r)
  {
  }

  lemma ToldFinished(st: State, a: State, b: State, t: TId, progress: Progress)
    requires b.work == a.work && HasErrors(b.txs, t) == HasErrors(a.txs, t) && OnlyChanges(a.txs, b.txs, t)
    ensures Told(st, a, t, progress) ==> Told(st, b.(current := st.current), t, progress)
  {
  }

  /** A hook leaves the tree ready for what comes next. */
  lemma HookedKeeps(st: State, a: State, t: TId, generates: bool)
    requires Linked(st.txs, st.nextId) && t in st.txs && AllCommitted(st.txs, st.txs[t].nested)
    requires Hooked(st.(current := Some(t)), t, generates, a)
    ensures Grown(st, a, t, Root(st.txs, t)) && Root(a.txs, t) == Root(st.txs, t) &&
              AllCommitted(a.txs, a.txs[t].nested)
    ensures a.txs[t].parent == st.txs[t].parent && (HasErrors(st.txs, t) ==> HasErrors(a.txs, t))
  {
    var root := Root(st.txs, t);
    GrownFrom(st, st.(current := Some(t)), a, t, root);
    assert GrownTx(st.txs[t], a.txs[t], st.nextId);
    ErrorsGrow(st, a, t, root, t);
    StillAllCommitted(st, a, t, root);
  }

  lemma {:induction false} GenerateGrows(st: State, t: TId)
    requires Valid(st) && !st.hasErrorOccurred && t in st.txs && st.txs[t].phase == Completed && st.txs[t].parent.Some?
    requires AllCommitted(st.txs, st.txs[t].nested) && st.hasCodeGenerator
    ensures Finished(st, t, HookGoes(st.work, true), Generate(st, t))
    decreases |st.work|, 0, 2, 0
  {
    var a := Hook(st.(current := Some(t)), true);
    HookGrows(st.(current := Some(t)), t, true);
    HookedKeeps(st, a, t, true);
    NestedGenerates(st, a, t);
    HookedFinishes(st, a, t);
  }

  lemma {:induction false} HookGrows(st: State, p: TId, codeGeneration: bool)
    requires Valid(st) && IsCurrent(st, p)
    ensures Hooked(st, p, codeGeneration && st.hasCodeGenerator, Hook(st, codeGeneration))
    decreases |st.work|, 0, 1, 0
  {
    if Batch(st).decls == 0 || HasFailed(Taken(st), p) {
      PassingHook(st, p, codeGeneration);
    } else {
      var c, t, bound := FilledIs(st, p, codeGeneration);
      ByCommit(c, t, bound, |st.work|, Hooked(st, p, codeGeneration && st.hasCodeGenerator, Hook(st, codeGeneration)));
    }
  }

  lemma PassingHook(st: State, p: TId, codeGeneration: bool)
    requires Valid(st) && IsCurrent(st, p) && (Batch(st).decls == 0 || HasFailed(Taken(st), p))
    ensures Hook(st, codeGeneration) == Passed(st, p)
    ensures Hooked(st, p, codeGeneration && st.hasCodeGenerator, Hook(st, codeGeneration))
  {
    if Batch(st).decls == 0 {
      EmptyHook(st, p, codeGeneration);
    } else {
      ErringHook(st, p, codeGeneration);
    }
    PassedHooked(st, p, codeGeneration && st.hasCodeGenerator);
  }

  lemma PassedHooked(st: State, p: TId, generates: bool)
    requires Valid(st) && IsCurrent(st, p) && (Batch(st).decls == 0 || HasFailed(Taken(st), p))
    ensures Hooked(st, p, generates, Passed(st, p))
  {
    PassedGrows(st, p);
    PassedNoted(st, p, generates);
    IsHooked(st, p, generates, Passed(st, p));
  }

  lemma IsHooked(st: State, p: TId, generates: bool, r: State)
    requires p in st.txs && Valid(r) && Grown(st, r, p, Root(st.txs, p)) && r.current == Some(p)
    requires p in r.txs && r.txs[p].phase == st.txs[p].phase
    requires !HasErrors(st.txs, p) ==> Told(st, r, p, HookGoes(st.work, generates))
    ensures Hooked(st, p, generates, r)
  {
  }

  lemma PassedNoted(st: State, p: TId, generates: bool)
    requires HasErrors(Passed(st, p).txs, p) == HasFailed(Taken(st), p) && !st.hasErrorOccurred
    requires Batch(st).decls == 0 || HasFailed(Taken(st), p)
    ensures !HasErrors(st.txs, p) ==> Told(st, Passed(st, p), p, HookGoes(st.work, generates))
  {
  }

  /** `c` is `st` with a new transaction `t` in `p` that has ended and is about to be committed. */
  ghost predicate IsNext(st: State, p: TId, c: State, t: TId, bound: nat) {
    MayCommit(c, t, bound) && c.txs[t].parent == Some(p) && c.txs[t].nested == [] && |c.work| < |st.work|
  }

  lemma HookStateReady(st: State, p: TId, codeGeneration: bool, t: TId, bound: nat)
    requires Valid(st) && IsCurrent(st, p) && Batch(st).decls > 0 && !HasFailed(Taken(st), p) && t == st.nextId &&
               bound == t + 1
    ensures IsNext(st, p, HookState(st, p, codeGeneration), t, bound)
  {
    FilledReady(Taken(st), p, Filled(p, codeGeneration, Batch(st).decls).(phase := Completed));
  }

  lemma HookStatePrecedes(st: State, p: TId, codeGeneration: bool, t: TId, r: State)
    requires p in st.txs && st.txs[p].phase != Committed && Linked(st.txs, st.nextId) && Batch(st).decls > 0
    requires !HasFailed(Taken(st), p) && t == st.nextId && CommittedNested(HookState(st, p, codeGeneration), t, r)
    ensures Hooked(st, p, codeGeneration && st.hasCodeGenerator, r)
  {
    var c, tx := HookState(st, p, codeGeneration), Filled(p, codeGeneration, Batch(st).decls).(phase := Completed);
    NextIsNew(st);
    BegunErrors(st, p, tx);
    RootStays(st.txs, st.txs, st.nextId, p);
    HookComposes(st, p, tx, r, Root(st.txs, p));
    assert GrownTx(c.txs[t], r.txs[t], c.nextId);
    ErrorsBelow(r, p, t);
    OpenedOnly(st, p, tx);
    NotedAbove(st, c, p, t, r, codeGeneration && st.hasCodeGenerator);
    IsHooked(st, p, codeGeneration && st.hasCodeGenerator, r);
  }

  lemma OpenedOnly(st: State, p: TId, tx: Tx)
    requires p in st.txs && st.nextId !in st.txs
    ensures OnlyChanges(st.txs, Opened(Taken(st), p, tx).txs, p)
  {
  }

  lemma NotedAbove(st: State, c: State, p: TId, t: TId, r: State, generates: bool)
    requires t in c.txs && GeneratesCode(c, t) == generates && c.work == Later(st)
    requires Batch(st).decls > 0 && !Batch(st).error && t !in st.txs && OnlyChanges(st.txs, c.txs, p)
    requires HasErrors(r.txs, t) == HasErrors(r.txs, p) && Told(c, r, t, CommitGoes(c.work, GeneratesCode(c, t)))
    ensures Told(st, r, p, HookGoes(st.work, generates))
  {
  }

  /** A hook with something in it is the commit of a newer state with less work left. */
  lemma FilledIs(st: State, p: TId, codeGeneration: bool) returns (c: State, t: TId, bound: nat)
    requires Valid(st) && IsCurrent(st, p) && Batch(st).decls > 0 && !HasFailed(Taken(st), p)
    ensures IsNext(st, p, c, t, bound) && Hook(st, codeGeneration) == Commit(c, t, bound)
    ensures CommittedNested(c, t, Hook(st, codeGeneration)) ==>
              Hooked(st, p, codeGeneration && st.hasCodeGenerator, Hook(st, codeGeneration))
  {
    c, t, bound := HookState(st, p, codeGeneration), st.nextId, st.nextId + 1;
    HookStateReady(st, p, codeGeneration, t, bound);
    FilledHook(st, p, codeGeneration, t, bound);
    if CommittedNested(c, t, Hook(st, codeGeneration)) {
      HookStatePrecedes(st, p, codeGeneration, t, Hook(st, codeGeneration));
    }
  }

  /** What follows from the commit of a transaction that came with less work left holds. */
  lemma {:induction false} ByCommit(c: State, t: TId, bound: nat, work: nat, goal: bool)
    requires MayCommit(c, t, bound) && c.txs[t].parent.Some? && c.txs[t].nested == [] && |c.work| < work
    requires CommittedNested(c, t, Commit(c, t, bound)) ==> goal
    ensures goal
    decreases work, 0, 0, 0
  {
    CommitGrows(c, t, bound);
  }

  /** What the commit proper achieves. */
  ghost predicate CommittedGood(st: State, t: TId, r: State) {
    t in st.txs && Valid(r) && Grown(st, r, t, Root(st.txs, t)) && r.txs[t].phase == Committed &&
    (AllCommitted(st.txs, st.txs[t].nested) ==>
      r.current == st.current && Told(st, r, t, CommitGoes(st.work, GeneratesCode(st, t))))
  }

  lemma ToParentReady(st: State, t: TId, bound: nat)
    requires MayCommit(st, t, bound)
    ensures MayCommit(ToParent(st, t), t, bound) && ToParent(st, t) == st.(current := ToParent(st, t).current)
  {
    assert IsLinked(st.txs, st.nextId, t);
  }

  lemma FromParent(st: State, a: State, t: TId, r: State)
    requires t in st.txs && st.txs[t].parent.Some? && a == ToParent(st, t) && CommittedGood(a, t, r)
    ensures CommittedNested(st, t, r)
  {
    GrownFrom(st, a, r, t, Root(st.txs, t));
  }

  lemma {:induction false} CommitGrows(st: State, t: TId, bound: nat)
    requires MayCommit(st, t, bound) && st.txs[t].parent.Some? && Quiet(st, st.txs[t].nested)
    ensures CommittedNested(st, t, Commit(st, t, bound))
    decreases |st.work|, Above(bound, t), 5, 0
  {
    ToParentReady(st, t, bound);
    CommitGoodGrows(ToParent(st, t), t, bound);
    FromParent(st, ToParent(st, t), t, CommitGood(ToParent(st, t), t, bound));
  }

  /** After the nested transactions and the hook of a commit, everything nested is committed. */
  lemma NestedAllCommitted(st: State, a: State, b: State, t: TId, root: TId)
    requires Linked(a.txs, a.nextId) && Linked(b.txs, b.nextId) && t in st.txs
    requires Grown(st, a, t + 1, root) && Grown(a, b, t, root) && AllCommitted(a.txs, st.txs[t].nested)
    ensures AllCommitted(b.txs, b.txs[t].nested)
  {
    assert a.txs[t].nested == st.txs[t].nested;
    StillAllCommitted(a, b, t, root);
  }

  /** What the nested transactions and the hook of a commit leave. */
  ghost predicate Prepared(st: State, b: State, t: TId) {
    t in st.txs && Valid(b) && Grown(st, b, t, Root(st.txs, t)) && b.txs[t].phase == Completed && !b.hasErrorOccurred &&
    AllCommitted(b.txs, b.txs[t].nested) &&
    (AllCommitted(st.txs, st.txs[t].nested) ==>
      b.current == st.current && Told(st, b, t, HookGoes(st.work, GeneratesCode(st, t))))
  }

  /** What the commits of nested transactions achieve. */
  ghost predicate AllNestedCommitted(st: State, t: TId, list: seq<TId>, r: State) {
    t in st.txs && Valid(r) && Grown(st, r, t + 1, Root(st.txs, t)) && AllCommitted(r.txs, list) && t in r.txs &&
    Root(r.txs, t) == Root(st.txs, t) && (AllCommitted(st.txs, list) ==> r == st) &&
    (!HasErrors(st.txs, t) ==>
      (HasErrors(r.txs, t) <==> NestedErrs(st, list)) && (HasErrors(r.txs, t) ==> r.current == Some(t)))
  }

  /** From before the commits of the nested transactions to after the hook. */
  lemma PreparedBy(st: State, a: State, b: State, t: TId)
    requires t in st.txs && st.txs[t].phase == Completed && AllNestedCommitted(st, t, st.txs[t].nested, a)
    requires t in a.txs && !HasErrors(a.txs, t) && Hooked(a.(current := Some(t)), t, GeneratesCode(a, t), b) &&
               !st.hasErrorOccurred
    ensures Prepared(st, b.(current := a.current), t)
  {
    var root, r := Root(st.txs, t), b.(current := a.current);
    assert GrownTx(st.txs[t], a.txs[t], st.nextId);
    GrownFrom(a, a.(current := Some(t)), b, t, root);
    BackToCurrent(a, b, r, t, root, a.current);
    NestedAllCommitted(st, a, r, t, root);
    GrownTwice(st, a, r, t, t + 1, root);
  }

  lemma NestedReadies(st: State, a: State, t: TId)
    requires t in st.txs && st.txs[t].phase == Completed && AllNestedCommitted(st, t, st.txs[t].nested, a) &&
               !st.hasErrorOccurred
    ensures Valid(a.(current := Some(t))) && IsCurrent(a.(current := Some(t)), t)
    ensures a.txs[t].codeGeneration == st.txs[t].codeGeneration && a.hasCodeGenerator == st.hasCodeGenerator
  {
    assert GrownTx(st.txs[t], a.txs[t], st.nextId);
  }

  lemma {:induction false} PrepareGrows(st: State, t: TId, bound: nat)
    requires MayCommit(st, t, bound) && GoesWell(st, st.txs[t].nested)
    ensures var a := CommitNested(st, t, st.txs[t].nested, bound);
            t in a.txs && !HasErrors(a.txs, t) &&
            Prepared(st, Hook(a.(current := Some(t)), a.txs[t].codeGeneration).(current := a.current), t)
    decreases |st.work|, Above(bound, t), 4, 0
  {
    var a := CommitNested(st, t, st.txs[t].nested, bound);
    NestedReadyAtFirst(st, t, bound);
    CommitNestedGrows(st, t, st.txs[t].nested, bound);
    NestedReadies(st, a, t);
    HookGrows(a.(current := Some(t)), t, a.txs[t].codeGeneration);
    PreparedBy(st, a, Hook(a.(current := Some(t)), a.txs[t].codeGeneration), t);
  }

  lemma {:induction false} CommitNestedGrows(st: State, t: TId, list: seq<TId>, bound: nat)
    requires NestedReady(st, t, list, bound)
    ensures AllNestedCommitted(st, t, list, CommitNested(st, t, list, bound))
    decreases |st.work|, Above(bound, t), 2, |list|
  {
    if list == [] {
      RootStays(st.txs, st.txs, st.nextId, t);
    } else {
      var c := list[0];
      var a := if c in st.txs && st.txs[c].phase != Committed && t < c < bound then Commit(st, c, bound) else st;
      FirstReady(st, t, list, bound);
      if st.txs[c].phase != Committed {
        CommitGrows(st, c, bound);
      }
      FirstDone(st, a, t, list, bound);
      CommitNestedGrows(a, t, list[1..], bound);
      ErrorsGrow(a, CommitNested(a, t, list[1..], bound), t + 1, Root(a.txs, t), t);
      FirstAndRest(st, a, CommitNested(a, t, list[1..], bound), t, list);
    }
  }

  /** The nested transactions that are still to be committed can be. */
  ghost predicate NestedReady(st: State, t: TId, list: seq<TId>, bound: nat) {
    Valid(st) && !st.hasErrorOccurred && t in st.txs && Ended(st.txs, t, bound) && Sorted(list) &&
    (if HasErrors(st.txs, t) then AllCommitted(st.txs, list) else Orderly(st, list)) &&
    forall c | c in list :: c in st.txs && st.txs[c].parent == Some(t)
  }

  lemma NestedReadyAtFirst(st: State, t: TId, bound: nat)
    requires MayCommit(st, t, bound) && Orderly(st, st.txs[t].nested)
    ensures NestedReady(st, t, st.txs[t].nested, bound)
  {
    assert IsLinked(st.txs, st.nextId, t);
  }

  lemma FirstReady(st: State, t: TId, list: seq<TId>, bound: nat)
    requires NestedReady(st, t, list, bound) && list != []
    ensures list[0] in st.txs && t < list[0] && st.txs[list[0]].parent == Some(t)
    ensures Root(st.txs, list[0]) == Root(st.txs, t)
    ensures st.txs[list[0]].phase != Committed ==>
              list[0] < bound && MayCommit(st, list[0], bound) && Quiet(st, st.txs[list[0]].nested)
  {
    var c := list[0];
    assert IsLinked(st.txs, st.nextId, c);
    EndedBefore(st.txs, t, c, bound);
    ErrorsBelow(st, t, c);
  }

  lemma FirstDone(st: State, a: State, t: TId, list: seq<TId>, bound: nat)
    requires NestedReady(st, t, list, bound) && list != [] && t < list[0] && Root(st.txs, list[0]) == Root(st.txs, t)
    requires if st.txs[list[0]].phase == Committed then a == st
             else !HasErrors(st.txs, t) && CommittedNested(st, list[0], a)
    ensures NestedReady(a, t, list[1..], bound) && Grown(st, a, list[0], Root(st.txs, t)) &&
              Root(a.txs, t) == Root(st.txs, t)
    ensures list[0] in a.txs && a.txs[list[0]].phase == Committed
    ensures HasErrors(st.txs, t) ==> HasErrors(a.txs, t)
    ensures !HasErrors(st.txs, t) ==>
              (NestedErrs(st, list) <==> if HasErrors(a.txs, t) then true else NestedErrs(a, list[1..]))
    ensures !HasErrors(st.txs, t) && HasErrors(a.txs, t) ==> a.current == Some(t) && AllCommitted(a.txs, list[1..])
  {
    var rest := list[1..];
    ReadyForRest(st, a, t, list[0], Root(st.txs, t), rest, bound);
    assert GrownTx(st.txs[t], a.txs[t], st.nextId);
    if st.txs[list[0]].phase != Committed {
      assert GrownTx(st.txs[list[0]], a.txs[list[0]], st.nextId);
      ErrorsBelow(a, t, list[0]);
      if Clean(st.work) {
        CleanListGoes(st.txs, st.work, st.hasCodeGenerator, list);
        CleanListGoes(a.txs, a.work, a.hasCodeGenerator, rest);
      } else {
        FirstTold(st, a, list);
      }
    }
  }

  /** The open transaction at the head of an orderly list is committed, and the rest goes on as told. */
  lemma FirstTold(st: State, a: State, list: seq<TId>)
    requires list != [] && Sorted(list) && ErrsAtLast(st.txs, st.work, st.hasCodeGenerator, list)
    requires st.txs[list[0]].phase != Committed && CommittedNested(st, list[0], a)
    ensures if HasErrors(a.txs, list[0]) then
              AllCommitted(st.txs, list[1..]) && NestedErrs(st, list) && a.current == st.txs[list[0]].parent
            else Orderly(a, list[1..]) && NestedErrs(a, list[1..]) == NestedErrs(st, list)
  {
    var c, rest := list[0], list[1..];
    if CommitGoes(st.work, GeneratesCode(st, c)).Going? {
      assert Told(st, a, c, Going(a.work));
      ErrsAtLastStays(st.txs, a.txs, c, a.work, st.hasCodeGenerator, rest);
    }
  }

  lemma FirstAndRest(st: State, a: State, r: State, t: TId, list: seq<TId>)
    requires t in st.txs && list != [] && t < list[0] && Grown(st, a, list[0], Root(st.txs, t)) &&
               Root(a.txs, t) == Root(st.txs, t)
    requires list[0] in a.txs && a.txs[list[0]].phase == Committed && AllNestedCommitted(a, t, list[1..], r)
    requires AllCommitted(st.txs, [list[0]]) ==> a == st
    requires HasErrors(st.txs, t) ==> HasErrors(a.txs, t)
    requires HasErrors(a.txs, t) ==> HasErrors(r.txs, t)
    requires !HasErrors(st.txs, t) ==>
               (NestedErrs(st, list) <==> if HasErrors(a.txs, t) then true else NestedErrs(a, list[1..]))
    requires !HasErrors(st.txs, t) && HasErrors(a.txs, t) ==> a.current == Some(t) && AllCommitted(a.txs, list[1..])
    ensures AllNestedCommitted(st, t, list, r)
  {
    RestCommitted(st, a, r, t, list[0], Root(st.txs, t), list);
    CommittedParts(st.txs, list);
  }

  lemma CommittedParts(txs: Txs, list: seq<TId>)
    requires list != []
    ensures AllCommitted(txs, list) ==> AllCommitted(txs, [list[0]]) && AllCommitted(txs, list[1..])
  {
  }

  lemma CommitGoodIs(st: State, t: TId, bound: nat, a: State, b: State)
    requires t in st.txs && a == CommitNested(st, t, st.txs[t].nested, bound) && t in a.txs && !HasErrors(a.txs, t)
    requires b == Hook(a.(current := Some(t)), a.txs[t].codeGeneration).(current := a.current)
    ensures CommitGood(st, t, bound) == Finish(b, t)
  {
  }

  lemma PreparedFinishes(st: State, b: State, r: State, t: TId)
    requires Linked(st.txs, st.nextId) && Prepared(st, b, t) &&
               Finished(b, t, Generates(Going(b.work), GeneratesCode(b, t)), r)
    ensures CommittedGood(st, t, r)
  {
    var root := Root(st.txs, t);
    ErrorsGrow(st, b, t, root, t);
    assert GrownTx(st.txs[t], b.txs[t], st.nextId);
    GrownTwice(st, b, r, t, t, root);
    ErrorsGrow(b, r, t, root, t);
    ToldTwice(st, b, r, t, HookGoes(st.work, GeneratesCode(st, t)), GeneratesCode(st, t));
  }

  lemma ToldTwice(st: State, b: State, r: State, t: TId, progress: Progress, generates: bool)
    requires HasErrors(b.txs, t) ==> HasErrors(r.txs, t)
    requires !HasErrors(b.txs, t) ==> Told(b, r, t, Generates(Going(b.work), generates))
    ensures Told(st, b, t, progress) ==> Told(st, r, t, Generates(progress, generates))
  {
  }

  lemma {:induction false} CommitGoodGrows(st: State, t: TId, bound: nat)
    requires MayCommit(st, t, bound) && st.txs[t].parent.Some? && Quiet(st, st.txs[t].nested)
    ensures CommittedGood(st, t, CommitGood(st, t, bound))
    decreases |st.work|, Above(bound, t), 4, 1
  {
    QuietGoesWell(st, st.txs[t].nested);
    PrepareGrows(st, t, bound);
    var a := CommitNested(st, t, st.txs[t].nested, bound);
    var b := Hook(a.(current := Some(t)), a.txs[t].codeGeneration).(current := a.current);
    CommitGoodIs(st, t, bound, a, b);
    assert GrownTx(st.txs[t], b.txs[t], st.nextId);
    FinishGrows(b, t);
    PreparedFinishes(st, b, Finish(b, t), t);
  }

  lemma {:induction false} FinishGrows(st: State, t: TId)
    requires Valid(st) && !st.hasErrorOccurred && t in st.txs && st.txs[t].phase == Completed && st.txs[t].parent.Some?
    requires AllCommitted(st.txs, st.txs[t].nested)
    ensures Finished(st, t, Generates(Going(st.work), GeneratesCode(st, t)), Finish(st, t))
    decreases |st.work|, 0, 3, 0
  {
    if GeneratesCode(st, t) {
      GenerateGrows(st, t);
    } else {
      CommittingGrows(st, t);
    }
  }
}
