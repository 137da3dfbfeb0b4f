/** Unloading and draining the newest transactions. */
module TransactionLists {

  import opened TransactionState
  import opened TransactionInvariants
  import opened TransactionUnload
  import opened TransactionProtocol
  import opened TransactionBrackets

  // ---------- the assertion in `deregisterTransaction` ----------

  /** What `unload` asserts: the topmost parent has no next transaction. */
  predicate IsLatest(st: State, t: TId) {
    var r := Root(st.txs, t);
    r in st.txs && st.txs[r].next.None?
  }

  /** Then what `deregisterTransaction` asserts holds: a top-level transaction in the deque is its last,
      so nothing is removed out of order. */
  lemma NothingOutOfOrder(st: State, t: TId)
    requires Valid(st) && t in st.txs && IsLatest(st, t)
    ensures MayUnload(st, t)
  {
    if st.txs[t].parent.None? && t in st.deque {
      var i :| 0 <= i < |st.deque| && st.deque[i] == t;
      NextAt(st.txs, st.deque, i);
    }
  }

  // ---------- unloading several ----------

  /** `unload(n)`: the newest goes, up to `n` times, but never the first. */
  function UnloadMany(st: State, n: nat): State
    decreases n
  {
    if n == 0 || |st.deque| <= 1 || Last(st.deque) !in st.txs then st else UnloadMany(Unload(st, Last(st.deque)), n - 1)
  }

  lemma UnloadManyUnfolds(st: State, n: nat)
    requires n > 0 && |st.deque| > 1 && Last(st.deque) in st.txs
    ensures UnloadMany(st, n) == UnloadMany(Unload(st, Last(st.deque)), n - 1)
  {
  }

  /** How many stay of `count` transactions. */
  function Staying(count: nat, n: nat): nat {
    if n < count then count - n else if count == 0 then 0 else 1
  }

  /** `b` has lost some transactions of `a`, and these from position `n` of the deque on. */
  ghost predicate Lost(a: State, b: State, n: nat)
    requires n <= |a.deque|
  {
    b.deque == a.deque[..n] && (forall x | x in b.txs :: x in a.txs) && forall i | n <= i < |a.deque| ::
      a.deque[i] !in b.txs
  }

  lemma NewestGoes(st: State)
    requires Valid(st) && st.deque != [] && Last(st.deque) in st.txs
    ensures Valid(Unload(st, Last(st.deque))) && Lost(st, Unload(st, Last(st.deque)), |st.deque| - 1)
  {
    UnloadValid(st, Last(st.deque));
    UnloadSound(st, Last(st.deque));
  }

  lemma LostTwice(a: State, b: State, c: State, n: nat)
    requires a.deque != [] && Lost(a, b, |a.deque| - 1) && n <= |b.deque| && Lost(b, c, n)
    ensures Lost(a, c, n)
  {
    forall i | n <= i < |a.deque|
      ensures a.deque[i] !in c.txs
    {
      assert i < |a.deque| - 1 ==> b.deque[i] == a.deque[i];
    }
  }

  /** Exactly the newest `min(n, count - 1)` of `a` went, and the others stay in their order. */
  ghost predicate LostNewest(a: State, n: nat, b: State) {
    Valid(b) && Lost(a, b, Staying(|a.deque|, n))
  }

  lemma LostNewestTwice(a: State, b: State, c: State, n: nat)
    requires n > 0 && |a.deque| > 1 && Lost(a, b, |a.deque| - 1) && LostNewest(b, n - 1, c)
    ensures LostNewest(a, n, c)
  {
    LostTwice(a, b, c, Staying(|a.deque|, n));
  }

  lemma {:induction false} UnloadManyTakesNewest(st: State, n: nat)
    requires Valid(st) && st.deque != []
    ensures LostNewest(st, n, UnloadMany(st, n))
    decreases n, 1
  {
    if n > 0 && |st.deque| > 1 {
      LastThere(st.txs, st.deque);
      NewestGoes(st);
      UnloadManyStep(st, Unload(st, Last(st.deque)), n);
    } else {
      NothingLost(st);
    }
  }

  lemma {:induction false} UnloadManyStep(st: State, a: State, n: nat)
    requires n > 0 && |st.deque| > 1 && Lost(st, a, |st.deque| - 1) && Valid(a)
    ensures LostNewest(st, n, UnloadMany(a, n - 1))
    decreases n, 0
  {
    UnloadManyTakesNewest(a, n - 1);
    LostNewestTwice(st, a, UnloadMany(a, n - 1), n);
  }

  lemma LastThere(txs: Txs, deque: seq<TId>)
    requires Chained(txs, deque) && deque != []
    ensures Last(deque) in txs
  {
    assert Last(deque) == deque[|deque| - 1];
  }

  lemma NothingLost(st: State)
    ensures Lost(st, st, |st.deque|)
  {
    assert st.deque[..|st.deque|] == st.deque;
  }

  // ---------- running destructors ----------

  /** The list of all transactions as it is built: as many empty places as there are transactions come
      first. */
  function AllTransactions(deque: seq<TId>): (r: seq<Option<TId>>)
    ensures |r| == |deque| + |deque|
  {
    Places(|deque|) + Given(deque)
  }

  function Places(n: nat): (r: seq<Option<TId>>)
    ensures |r| == n
  {
    seq(n, _ => None)
  }

  function Given(deque: seq<TId>): (r: seq<Option<TId>>)
    ensures |r| == |deque|
  {
    seq(|deque|, i requires 0 <= i < |deque| => Some(deque[i]))
  }

  /** What is drained between two positions, from the higher one down; empty places are skipped. */
  function Drained(list: seq<Option<TId>>, begin: nat, end: nat): seq<TId>
    requires end <= begin <= |list|
    decreases begin
  {
    if begin == end then []
    else (if list[begin - 1].Some? then [list[begin - 1].value] else []) + Drained(list, begin - 1, end)
  }

  function Reversed(s: seq<TId>): seq<TId> {
    if s == [] then [] else [Last(s)] + Reversed(Init(s))
  }

  lemma {:induction false} DrainsNothing(deque: seq<TId>, begin: nat, end: nat)
    requires end <= begin <= |deque|
    ensures Drained(AllTransactions(deque), begin, end) == []
    decreases begin
  {
    if begin > end {
      assert AllTransactions(deque)[begin - 1] == Places(|deque|)[begin - 1];
      DrainsNothing(deque, begin - 1, end);
    }
  }

  lemma {:induction false} DrainsDown(deque: seq<TId>, upper: nat, lower: nat)
    requires lower <= upper <= |deque|
    ensures Drained(AllTransactions(deque), |deque| + upper, |deque| + lower) == Reversed(deque[lower..upper])
    decreases upper
  {
    if upper > lower {
      assert AllTransactions(deque)[|deque| + upper - 1] == Given(deque)[upper - 1];
      assert Init(deque[lower..upper]) == deque[lower..upper - 1];
      DrainsDown(deque, upper - 1, lower);
    }
  }

  lemma {:induction false} DrainedSplit(list: seq<Option<TId>>, begin: nat, middle: nat, end: nat)
    requires end <= middle <= begin <= |list|
    ensures Drained(list, begin, end) == Drained(list, begin, middle) + Drained(list, middle, end)
    decreases begin
  {
    if begin > middle {
      DrainedSplit(list, begin - 1, middle, end);
    }
  }

  /** The position down to which `runAndRemoveStaticDestructors(n)` goes. */
  function LowestPosition(size: nat, n: nat): (r: nat)
    ensures r <= size
  {
    if size > n then size - n else 0
  }

  lemma DrainsFew(deque: seq<TId>, n: nat)
    requires n < |deque|
    ensures Drained(AllTransactions(deque), |deque| + |deque|, |deque| + (|deque| - n)) ==
              Reversed(deque[|deque| - n..])
  {
    DrainsDown(deque, |deque|, |deque| - n);
    assert deque[|deque| - n..|deque|] == deque[|deque| - n..];
  }

  lemma DrainsAll(deque: seq<TId>, lowest: nat)
    requires lowest <= |deque|
    ensures Drained(AllTransactions(deque), |deque| + |deque|, lowest) == Reversed(deque)
  {
    DrainsDown(deque, |deque|, 0);
    assert deque[0..|deque|] == deque;
    DrainsNothing(deque, |deque|, lowest);
    DrainedSplit(AllTransactions(deque), |deque| + |deque|, |deque|, lowest);
    assert Reversed(deque) + [] == Reversed(deque);
  }

  function Newest(deque: seq<TId>, n: nat): seq<TId> {
    if n < |deque| then deque[|deque| - n..] else deque
  }

  /** In spite of the empty places, exactly the newest `min(n, count)` are drained, newest first. */
  lemma DrainsNewest(deque: seq<TId>, list: seq<Option<TId>>, n: nat)
    requires list == AllTransactions(deque)
    ensures Drained(list, |list|, LowestPosition(|list|, n)) == Reversed(Newest(deque, n))
  {
    if n < |deque| {
      DrainsFew(deque, n);
    } else {
      var lowest := LowestPosition(|deque| + |deque|, n);
      assert lowest <= |deque|;
      DrainsAll(deque, lowest);
    }
  }
}
