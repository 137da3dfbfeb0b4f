/** What holds of the transactions whenever the parser is between two steps, and why every step keeps it. */
module TransactionInvariants {

  import opened TransactionState

  // ---------- the invariant ----------

  predicate Sorted(s: seq<TId>) {
    forall i, j | 0 <= i < j < |s| :: s[i] < s[j]
  }

  /** A transaction and its parent know of each other. */
  ghost predicate IsLinked(txs: Txs, nextId: TId, t: TId)
    requires t in txs
  {
    var tx := txs[t];
    t < nextId && Sorted(tx.nested) &&
    (tx.parent.Some? ==> tx.parent.value < t && tx.parent.value in txs && t in txs[tx.parent.value].nested) &&
    forall c | c in tx.nested :: c in txs && txs[c].parent == Some(t)
  }

  ghost predicate Linked(txs: Txs, nextId: TId) {
    forall t | t in txs :: IsLinked(txs, nextId, t)
  }

  /** What is nested in a committed transaction was committed before it. */
  ghost predicate IsSettled(txs: Txs, clock: nat, t: TId)
    requires t in txs
  {
    var tx := txs[t];
    tx.phase == Committed ==>
      tx.committedAt < clock &&
      forall c | c in tx.nested && c in txs :: txs[c].phase == Committed && txs[c].committedAt < tx.committedAt
  }

  ghost predicate Settled(txs: Txs, clock: nat) {
    forall t | t in txs :: IsSettled(txs, clock, t)
  }

  /** Following `next` from the front lists the deque. */
  ghost predicate Chained(txs: Txs, deque: seq<TId>) {
    (forall i, j | 0 <= i < j < |deque| :: deque[i] != deque[j]) &&
    (forall i | 0 <= i < |deque| ::
      deque[i] in txs && txs[deque[i]].parent.None? && txs[deque[i]].phase != Collecting &&
      txs[deque[i]].next == if i + 1 < |deque| then Some(deque[i + 1]) else None) &&
    (forall t | t in txs && t !in deque :: txs[t].next.None?)
  }

  /** Only top-level transactions have modules, and no two have the same. */
  ghost predicate ModulesApart(txs: Txs, open: nat) {
    (forall t | t in txs && txs[t].mod.Some? :: txs[t].parent.None? && txs[t].mod.value < open) &&
    (forall t, u | t in txs && u in txs && t != u && txs[t].mod.Some? :: txs[t].mod != txs[u].mod)
  }

  /** Exactly one module is open, and it is the newest. */
  ghost predicate ModuleOpen(st: State) {
    st.openModule == if st.hasCodeGenerator then Some(st.moduleNo - 1) else None
  }

  ghost predicate Modules(st: State) {
    (st.hasCodeGenerator ==> st.moduleNo > 0) && ModuleOpen(st) &&
    ModulesApart(st.txs, if st.hasCodeGenerator then st.moduleNo - 1 else st.moduleNo)
  }

  predicate CurrentExists(st: State) {
    st.current.Some? ==> st.current.value in st.txs
  }

  ghost predicate Valid(st: State) {
    Linked(st.txs, st.nextId) && Settled(st.txs, st.clock) && Chained(st.txs, st.deque) && Modules(st) &&
    CurrentExists(st)
  }

  // ---------- steps that touch one transaction ----------

  /** Changes of one transaction that leave its place in the tree and in the deque. */
  predicate SamePlace(a: Tx, b: Tx) {
    a.parent == b.parent && a.nested == b.nested && a.next == b.next
  }

  lemma UpdateLinked(txs: Txs, nextId: TId, t: TId, tx: Tx)
    requires Linked(txs, nextId) && t in txs && SamePlace(txs[t], tx)
    ensures Linked(txs[t := tx], nextId)
  {
    var after := txs[t := tx];
    forall u | u in after
      ensures IsLinked(after, nextId, u)
    {
      assert IsLinked(txs, nextId, u);
    }
  }

  lemma UpdateChained(txs: Txs, deque: seq<TId>, t: TId, tx: Tx)
    requires Chained(txs, deque) && t in txs && SamePlace(txs[t], tx)
    requires tx.phase == Collecting ==> txs[t].phase == Collecting
    ensures Chained(txs[t := tx], deque)
  {
  }

  lemma UpdateSettled(txs: Txs, clock: nat, later: nat, t: TId, tx: Tx)
    requires Settled(txs, clock) && t in txs && txs[t].nested == tx.nested && clock <= later
    requires tx.phase == Committed ==> txs[t].phase == Committed && tx.committedAt == txs[t].committedAt
    requires txs[t].phase == Committed ==> tx.phase == Committed
    ensures Settled(txs[t := tx], later)
  {
    var after := txs[t := tx];
    forall u | u in after
      ensures IsSettled(after, later, u)
    {
      assert IsSettled(txs, clock, u);
    }
  }

  lemma UpdateModules(st: State, t: TId, tx: Tx)
    requires Modules(st) && t in st.txs && st.txs[t].parent == tx.parent && st.txs[t].mod == tx.mod
    ensures Modules(st.(txs := st.txs[t := tx]))
  {
  }

  /** A change of one transaction that leaves its place, its module, and whether and when it was
      committed. */
  lemma UpdateValid(st: State, later: nat, t: TId, tx: Tx)
    requires Valid(st) && t in st.txs && SamePlace(st.txs[t], tx) && st.txs[t].mod == tx.mod && st.clock <= later
    requires tx.committedAt == st.txs[t].committedAt && (tx.phase == Committed <==> st.txs[t].phase == Committed)
    requires tx.phase == Collecting ==> st.txs[t].phase == Collecting
    ensures Valid(st.(txs := st.txs[t := tx], clock := later))
  {
    UpdateLinked(st.txs, st.nextId, t, tx);
    UpdateChained(st.txs, st.deque, t, tx);
    UpdateSettled(st.txs, st.clock, later, t, tx);
    UpdateModules(st, t, tx);
  }

  lemma DeclareValid(st: State, t: TId, decls: nat, error: bool, initialisersFail: bool)
    requires Valid(st) && t in st.txs
    ensures Valid(Declare(st, t, decls, error, initialisersFail))
  {
    UpdateValid(st, st.clock, t, Declare(st, t, decls, error, initialisersFail).txs[t]);
  }

  lemma MarkErrorsValid(st: State, t: TId)
    requires Valid(st)
    ensures Valid(st.(txs := MarkErrors(st.txs, t)))
  {
    var r := Root(st.txs, t);
    if r in st.txs {
      UpdateValid(st, st.clock, r, st.txs[r].(hasErrors := true));
    }
  }

  lemma CompletingValid(st: State, t: TId)
    requires Valid(st) && t in st.txs && st.txs[t].phase == Collecting
    ensures Valid(st.(txs := Completing(st, t)))
  {
    var tx := st.txs[t].(phase := Completed);
    UpdateValid(st, st.clock, t, tx);
    MarkErrorsValid(st.(txs := st.txs[t := tx]), t);
  }

  lemma ExecuteValid(st: State, t: TId)
    requires Valid(st) && t in st.txs
    ensures Valid(Execute(st, t))
  {
    UpdateValid(st, st.clock + 1, t, Execute(st, t).txs[t]);
  }

  lemma CommittedSettled(txs: Txs, nextId: TId, clock: nat, t: TId)
    requires Linked(txs, nextId) && Settled(txs, clock) && t in txs && txs[t].phase != Committed
    requires forall c | c in txs[t].nested :: c in txs && txs[c].phase == Committed
    ensures Settled(txs[t := txs[t].(phase := Committed, committedAt := clock)], clock + 1)
  {
    var after := txs[t := txs[t].(phase := Committed, committedAt := clock)];
    assert IsLinked(txs, nextId, t);
    forall u | u in after
      ensures IsSettled(after, clock + 1, u)
    {
      assert IsSettled(txs, clock, u);
      if u == t {
        forall c | c in txs[t].nested
          ensures after[c].committedAt < clock
        {
          assert IsSettled(txs, clock, c);
        }
      }
    }
  }

  /** Committing a transaction in which everything is committed. */
  lemma SetCommittedValid(st: State, t: TId)
    requires Valid(st) && t in st.txs
    requires forall c | c in st.txs[t].nested :: c in st.txs && st.txs[c].phase == Committed
    ensures Valid(SetCommitted(st, t)) && SetCommitted(st, t).txs[t].phase == Committed
  {
    if st.txs[t].phase != Committed {
      var tx := st.txs[t].(phase := Committed, committedAt := st.clock);
      CommittedSettled(st.txs, st.nextId, st.clock, t);
      UpdateLinked(st.txs, st.nextId, t, tx);
      UpdateChained(st.txs, st.deque, t, tx);
      UpdateModules(st, t, tx);
    }
  }

  // ---------- begin ----------

  lemma BeginLinked(st: State, codeGeneration: bool)
    requires Linked(st.txs, st.nextId)
    ensures Linked(Begin(st, codeGeneration).txs, st.nextId + 1)
  {
    var after := Begin(st, codeGeneration).txs;
    forall u | u in after
      ensures IsLinked(after, st.nextId + 1, u)
    {
      if u in st.txs {
        assert IsLinked(st.txs, st.nextId, u);
        OldLinked(st, after, u);
      } else {
        NewLinked(st, codeGeneration);
      }
    }
  }

  lemma NewLinked(st: State, codeGeneration: bool)
    requires Linked(st.txs, st.nextId)
    ensures var after := Begin(st, codeGeneration).txs;
            st.nextId in after && IsLinked(after, st.nextId + 1, st.nextId)
  {
    if IsOpen(st) {
      assert IsLinked(st.txs, st.nextId, st.current.value);
    }
  }

  lemma SortedAppend(s: seq<TId>, x: TId)
    requires Sorted(s) && forall c | c in s :: c < x
    ensures Sorted(s + [x])
  {
    assert forall i | 0 <= i < |s| :: s[i] in s;
  }

  lemma OldLinked(st: State, after: Txs, u: TId)
    requires Linked(st.txs, st.nextId) && u in st.txs && u in after && st.nextId in after
    requires forall x | x in st.txs :: x in after && after[x].parent == st.txs[x].parent &&
               after[x].nested == st.txs[x].nested + if after[st.nextId].parent == Some(x) then [st.nextId] else []
    ensures IsLinked(after, st.nextId + 1, u)
  {
    assert IsLinked(st.txs, st.nextId, u);
    forall c | c in st.txs[u].nested
      ensures c < st.nextId
    {
      assert IsLinked(st.txs, st.nextId, c);
    }
    SortedAppend(st.txs[u].nested, st.nextId);
    assert st.txs[u].nested + [] == st.txs[u].nested;
    if st.txs[u].parent.Some? {
      var p := st.txs[u].parent.value;
      assert u in st.txs[p].nested && u in after[p].nested;
    }
  }

  lemma NextIsNew(st: State)
    requires Linked(st.txs, st.nextId)
    ensures st.nextId !in st.txs
  {
    assert st.nextId in st.txs ==> IsLinked(st.txs, st.nextId, st.nextId);
  }

  lemma BeginSettled(st: State, codeGeneration: bool)
    requires Linked(st.txs, st.nextId) && Settled(st.txs, st.clock) && st.nextId !in st.txs
    ensures Settled(Begin(st, codeGeneration).txs, st.clock)
  {
    var after := Begin(st, codeGeneration).txs;
    forall u | u in after
      ensures IsSettled(after, st.clock, u)
    {
      if u in st.txs {
        assert IsSettled(st.txs, st.clock, u) && IsLinked(st.txs, st.nextId, u);
      }
    }
  }

  lemma BeginChained(st: State, codeGeneration: bool)
    requires Chained(st.txs, st.deque) && st.nextId !in st.txs
    ensures Chained(Begin(st, codeGeneration).txs, st.deque)
  {
  }

  lemma BeginModules(st: State, codeGeneration: bool)
    requires Modules(st) && st.nextId !in st.txs
    ensures Modules(Begin(st, codeGeneration))
  {
  }

  lemma BeginValid(st: State, codeGeneration: bool)
    requires Valid(st)
    ensures Valid(Begin(st, codeGeneration))
  {
    NextIsNew(st);
    BeginLinked(st, codeGeneration);
    BeginSettled(st, codeGeneration);
    BeginChained(st, codeGeneration);
    BeginModules(st, codeGeneration);
  }

  // ---------- release ----------

  lemma {:induction false} WithoutMeans(s: seq<TId>, t: TId)
    requires Sorted(s)
    ensures Sorted(Without(s, t)) && forall c: TId :: c in Without(s, t) <==> c in s && c != t
  {
    if s != [] {
      WithoutMeans(Init(s), t);
      assert s == Init(s) + [Last(s)];
      forall c | c in Init(s)
        ensures c < Last(s)
      {
      }
      if Last(s) != t {
        SortedAppend(Without(Init(s), t), Last(s));
      }
    }
  }

  lemma ReleasedLinked(txs: Txs, nextId: TId, t: TId)
    requires Linked(txs, nextId) && t in txs && txs[t].nested == []
    ensures Linked(Released(txs, t), nextId)
  {
    var after := Released(txs, t);
    assert IsLinked(txs, nextId, t);
    forall u | u in after
      ensures IsLinked(after, nextId, u)
    {
      assert IsLinked(txs, nextId, u);
      WithoutMeans(txs[u].nested, t);
      if txs[u].parent.Some? {
        var p := txs[u].parent.value;
        WithoutMeans(txs[p].nested, t);
        assert p != t by {
          assert u in txs[p].nested;
        }
      }
    }
  }

  lemma ReleasedSettled(txs: Txs, nextId: TId, clock: nat, t: TId)
    requires Linked(txs, nextId) && Settled(txs, clock) && t in txs
    ensures Settled(Released(txs, t), clock)
  {
    var after := Released(txs, t);
    forall u | u in after
      ensures IsSettled(after, clock, u)
    {
      assert IsSettled(txs, clock, u) && IsLinked(txs, nextId, u);
      WithoutMeans(txs[u].nested, t);
    }
  }

  lemma ReleasedChained(txs: Txs, deque: seq<TId>, t: TId)
    requires Chained(txs, deque) && t in txs && t !in deque
    ensures Chained(Released(txs, t), deque)
  {
  }

  lemma ReleasedModules(st: State, t: TId)
    requires Modules(st) && t in st.txs
    ensures Modules(st.(txs := Released(st.txs, t)))
  {
  }

  lemma ReleasedValid(st: State, t: TId)
    requires Valid(st) && t in st.txs && st.txs[t].nested == [] && t !in st.deque && st.current != Some(t)
    ensures Valid(st.(txs := Released(st.txs, t)))
  {
    ReleasedLinked(st.txs, st.nextId, t);
    ReleasedSettled(st.txs, st.nextId, st.clock, t);
    ReleasedChained(st.txs, st.deque, t);
    ReleasedModules(st, t);
  }

  // ---------- end ----------

  lemma AppendedChained(txs: Txs, deque: seq<TId>, t: TId)
    requires Chained(txs, deque) && t in txs && t !in deque && txs[t].parent.None? && txs[t].phase != Collecting
    ensures Chained(SetNext(txs, deque, Some(t)), deque + [t])
  {
    var after := SetNext(txs, deque, Some(t));
    forall i | 0 <= i < |deque + [t]|
      ensures after[(deque + [t])[i]].next == if i + 1 < |deque| + 1 then Some((deque + [t])[i + 1]) else None
    {
    }
  }

  lemma SetNextLinked(txs: Txs, deque: seq<TId>, next: Option<TId>, nextId: TId)
    requires Linked(txs, nextId)
    ensures Linked(SetNext(txs, deque, next), nextId)
  {
    var after := SetNext(txs, deque, next);
    forall u | u in after
      ensures IsLinked(after, nextId, u)
    {
      assert IsLinked(txs, nextId, u);
    }
  }

  lemma SetNextSettled(txs: Txs, deque: seq<TId>, next: Option<TId>, clock: nat)
    requires Settled(txs, clock)
    ensures Settled(SetNext(txs, deque, next), clock)
  {
    var after := SetNext(txs, deque, next);
    forall u | u in after
      ensures IsSettled(after, clock, u)
    {
      assert IsSettled(txs, clock, u);
    }
  }

  lemma SetNextModules(st: State, deque: seq<TId>, next: Option<TId>)
    requires Modules(st)
    ensures Modules(st.(txs := SetNext(st.txs, deque, next)))
  {
  }

  lemma AddTransactionValid(st: State, t: TId)
    requires Valid(st) && t in st.txs && t !in st.deque && st.txs[t].phase != Collecting
    ensures Valid(AddTransaction(st, t))
  {
    if st.txs[t].parent.None? {
      AppendedChained(st.txs, st.deque, t);
      SetNextLinked(st.txs, st.deque, Some(t), st.nextId);
      SetNextSettled(st.txs, st.deque, Some(t), st.clock);
      SetNextModules(st, st.deque, Some(t));
    }
  }

  /** Ending a transaction, which must be the current one if any when it is empty. */
  lemma EndValid(st: State, t: TId)
    requires Valid(st) && t in st.txs && st.txs[t].phase == Collecting
    requires IsEmpty(st.txs[t]) ==> st.current.None? || st.current == Some(t)
    ensures Valid(End(st, t))
  {
    CompletingValid(st, t);
    var a := st.(txs := Completing(st, t));
    assert IsLinked(a.txs, a.nextId, t);
    if IsEmpty(a.txs[t]) {
      ReleasedValid(a.(current := a.txs[t].parent), t);
    } else {
      AddTransactionValid(a, t);
    }
  }
}
