/** Unloading takes a transaction with everything nested in it, and nothing else. */
module TransactionUnload {

  import opened TransactionState
  import opened TransactionInvariants

  /** The part of the invariant that does not speak of modules. */
  ghost predicate Sound(st: State) {
    Linked(st.txs, st.nextId) && Settled(st.txs, st.clock) && Chained(st.txs, st.deque) && CurrentExists(st)
  }

  /** Some transactions went; the others are as before, except for who is next and who is nested. */
  ghost predicate Pruned(a: State, b: State) {
    b == a.(txs := b.txs, deque := b.deque, current := b.current) &&
    forall x | x in b.txs :: x in a.txs && b.txs[x] == a.txs[x].(nested := b.txs[x].nested, next := b.txs[x].next)
  }

  /** What is older than `t` stays; only its parent forgets it. */
  ghost predicate OlderStay(a: State, b: State, t: TId)
    requires t in a.txs
  {
    (forall x | x in a.txs && x < t :: x in b.txs &&
      b.txs[x].nested == if a.txs[t].parent == Some(x) then Without(a.txs[x].nested, t) else a.txs[x].nested) &&
    (a.current.Some? && a.current.value < t ==> b.current == a.current)
  }

  /** What is older than `t` stays as it is. */
  ghost predicate OlderSame(a: State, b: State, t: TId) {
    (forall x | x in a.txs && x < t :: x in b.txs && b.txs[x].nested == a.txs[x].nested) &&
    (a.current.Some? && a.current.value <= t ==> b.current == a.current)
  }

  lemma OlderSameAfterNested(st: State, a: State, b: State, t: TId, c: TId)
    requires c in st.txs && t < c && st.txs[c].parent == Some(t)
    requires OlderStay(st, a, c) && OlderSame(a, b, t)
    ensures OlderSame(st, b, t)
  {
  }

  lemma PrunedTwice(a: State, b: State, c: State)
    requires Pruned(a, b) && Pruned(b, c)
    ensures Pruned(a, c)
  {
  }

  /** The condition under which `unload` may be called: `t` is nested, or the newest of the deque, or
      not in it yet. */
  predicate MayUnload(st: State, t: TId)
    requires t in st.txs
  {
    st.txs[t].parent.None? && t in st.deque ==> t == Last(st.deque)
  }

  lemma PoppedChained(txs: Txs, deque: seq<TId>)
    requires Chained(txs, deque) && deque != []
    ensures Last(deque) in txs && Chained(Released(SetNext(txs, Init(deque), None), Last(deque)), Init(deque))
  {
  }

  /** A transaction without nested ones goes. */
  lemma DeregisterSound(st: State, t: TId)
    requires Sound(st) && t in st.txs && st.txs[t].nested == [] && MayUnload(st, t)
    ensures Sound(Deregister(st, t)) && t !in Deregister(st, t).txs
  {
    var a := if st.current == Some(t) then st.(current := st.txs[t].parent) else st;
    assert IsLinked(st.txs, st.nextId, t);
    if st.txs[t].parent.None? && st.deque != [] && Last(st.deque) == t {
      var txs := SetNext(st.txs, Init(st.deque), None);
      SetNextLinked(st.txs, Init(st.deque), None, st.nextId);
      SetNextSettled(st.txs, Init(st.deque), None, st.clock);
      PoppedChained(st.txs, st.deque);
      ReleasedLinked(txs, st.nextId, t);
      ReleasedSettled(txs, st.nextId, st.clock, t);
    } else {
      ReleasedLinked(st.txs, st.nextId, t);
      ReleasedSettled(st.txs, st.nextId, st.clock, t);
      ReleasedChained(st.txs, st.deque, t);
    }
  }

  /** Releasing changes nothing else about the remaining transactions. */
  lemma ReleasedAt(txs: Txs, t: TId, x: TId)
    requires t in txs && x in txs && x != t
    ensures x in Released(txs, t)
    ensures Released(txs, t)[x] ==
            txs[x].(nested := if txs[t].parent == Some(x) then Without(txs[x].nested, t) else txs[x].nested)
  {
  }

  lemma ReleasedKeys(txs: Txs, t: TId, x: TId)
    requires t in txs && x in Released(txs, t)
    ensures x in txs && x != t
  {
  }

  lemma SetNextAt(txs: Txs, deque: seq<TId>, next: Option<TId>, x: TId)
    ensures x in SetNext(txs, deque, next) <==> x in txs
    ensures x in txs ==> SetNext(txs, deque, next)[x] == txs[x].(next := SetNext(txs, deque, next)[x].next)
  {
  }

  /** A transaction after `t` has gone. */
  function Forgetting(txs: Txs, t: TId, x: TId): Tx
    requires t in txs && x in txs
  {
    txs[x].(nested := if txs[t].parent == Some(x) then Without(txs[x].nested, t) else txs[x].nested)
  }

  /** The transactions before the release of `t`: the last one that is left in the deque has no next. */
  function Unhooked(st: State, t: TId): Txs
    requires t in st.txs
  {
    if st.txs[t].parent.None? && st.deque != [] && Last(st.deque) == t then SetNext(st.txs, Init(st.deque), None)
    else st.txs
  }

  lemma UnhookedAt(st: State, t: TId, x: TId)
    requires t in st.txs
    ensures x in Unhooked(st, t) <==> x in st.txs
    ensures x in st.txs ==> Unhooked(st, t)[x] == st.txs[x].(next := Unhooked(st, t)[x].next)
  {
    if st.deque != [] {
      SetNextAt(st.txs, Init(st.deque), None, x);
    }
  }

  lemma DeregisteredIs(st: State, t: TId, txs: Txs)
    requires t in st.txs && txs == Unhooked(st, t)
    ensures t in txs && Deregister(st, t).txs == Released(txs, t)
  {
    UnhookedAt(st, t, t);
  }

  lemma ReleasedForgets(before: Txs, txs: Txs, t: TId, x: TId)
    requires t in before && x in before && t in txs && x in txs && x != t
    requires txs[t] == before[t].(next := txs[t].next) && txs[x] == before[x].(next := txs[x].next)
    ensures x in Released(txs, t) && Released(txs, t)[x] == Forgetting(before, t, x).(next := Released(txs, t)[x].next)
  {
    ReleasedAt(txs, t, x);
  }

  lemma DeregisteredAt(st: State, t: TId, x: TId)
    requires t in st.txs && x in st.txs && x != t
    ensures var r := Deregister(st, t);
            x in r.txs && r.txs[x] == Forgetting(st.txs, t, x).(next := r.txs[x].next)
  {
    var txs := Unhooked(st, t);
    UnhookedAt(st, t, x);
    UnhookedAt(st, t, t);
    DeregisteredIs(st, t, txs);
    ReleasedForgets(st.txs, txs, t, x);
  }

  lemma DeregisteredKeys(st: State, t: TId, x: TId)
    requires t in st.txs && x in Deregister(st, t).txs
    ensures x in st.txs && x != t
  {
    var txs := Unhooked(st, t);
    UnhookedAt(st, t, x);
    DeregisteredIs(st, t, txs);
    ReleasedKeys(txs, t, x);
  }

  lemma DeregisteredFrame(st: State, t: TId)
    requires t in st.txs
    ensures var r := Deregister(st, t);
            r == st.(txs := r.txs, deque := r.deque, current := r.current) &&
            r.current == (if st.current == Some(t) then st.txs[t].parent else st.current) &&
            r.deque == if st.txs[t].parent.None? && st.deque != [] && Last(st.deque) == t then Init(st.deque)
              else st.deque
  {
  }

  lemma DeregisterPrunes(st: State, t: TId)
    requires t in st.txs
    ensures Pruned(st, Deregister(st, t)) && OlderStay(st, Deregister(st, t), t)
    ensures Deregister(st, t).deque ==
            if st.txs[t].parent.None? && st.deque != [] && Last(st.deque) == t then Init(st.deque) else st.deque
  {
    DeregisteredFrame(st, t);
    forall x | x in st.txs && x != t
      ensures x in Deregister(st, t).txs
      ensures Deregister(st, t).txs[x] == Forgetting(st.txs, t, x).(next := Deregister(st, t).txs[x].next)
    {
      DeregisteredAt(st, t, x);
    }
    forall x | x in Deregister(st, t).txs
      ensures x in st.txs && x != t
    {
      DeregisteredKeys(st, t, x);
    }
    PrunesBy(st, Deregister(st, t), t);
  }

  lemma PrunesBy(st: State, r: State, t: TId)
    requires t in st.txs && r == st.(txs := r.txs, deque := r.deque, current := r.current)
    requires r.current == if st.current == Some(t) then st.txs[t].parent else st.current
    requires forall x | x in r.txs :: x in st.txs && x != t
    requires forall x | x in st.txs && x != t ::
               x in r.txs && r.txs[x] == Forgetting(st.txs, t, x).(next := r.txs[x].next)
    ensures Pruned(st, r) && OlderStay(st, r, t)
  {
  }

  lemma {:induction false} UnloadSound(st: State, t: TId)
    requires Sound(st) && t in st.txs && MayUnload(st, t)
    ensures Sound(Unload(st, t)) && Pruned(st, Unload(st, t)) && OlderStay(st, Unload(st, t), t) &&
              t !in Unload(st, t).txs
    ensures Unload(st, t).deque == if st.txs[t].parent.None? && t in st.deque then Init(st.deque) else st.deque
    ensures st.current == Some(t) ==> Unload(st, t).current == st.txs[t].parent
    decreases Above(st.nextId, t), 1, 0
  {
    var a := UnloadNested(st, t, st.txs[t].nested);
    UnloadNestedSound(st, t, st.txs[t].nested);
    DeregisterSound(a, t);
    DeregisterPrunes(a, t);
  }

  lemma {:induction false} UnloadNestedSound(st: State, t: TId, list: seq<TId>)
    requires Sound(st) && t in st.txs && st.txs[t].nested == list
    ensures Sound(UnloadNested(st, t, list)) && Pruned(st, UnloadNested(st, t, list))
    ensures UnloadNested(st, t, list).deque == st.deque
    ensures t in UnloadNested(st, t, list).txs && UnloadNested(st, t, list).txs[t].nested == []
    ensures OlderSame(st, UnloadNested(st, t, list), t)
    decreases Above(st.nextId, t), 0, |list|
  {
    if list != [] {
      var c := Last(list);
      assert IsLinked(st.txs, st.nextId, t);
      assert c in list && IsLinked(st.txs, st.nextId, c);
      UnloadSound(st, c);
      var a := Unload(st, c);
      UnloadNestedSound(a, t, Init(list));
      var b := UnloadNested(a, t, Init(list));
      PrunedTwice(st, a, b);
      OlderSameAfterNested(st, a, b, t, c);
    }
  }
}
