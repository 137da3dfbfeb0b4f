/** Brackets of begin, end and commit, closed in the order in which they nest: they restore the
    current transaction on every path. */
module TransactionBrackets {

  import opened TransactionState
  import opened TransactionInvariants
  import opened TransactionUnload
  import opened TransactionCommit
  import opened TransactionProtocol

  // ---------- what happens between begin and commit ----------

  /** Declarations arrive, perhaps with errors, or a whole bracket opens and closes. */
  datatype Action =
    | Declares(decls: nat, error: bool, initialisersFail: bool)
    | Bracket(codeGeneration: bool, body: seq<Action>)

  /** The end of a bracket: an empty transaction is gone, any other one is committed. */
  function Pop(st: State, t: TId): State {
    if t !in st.txs then st
    else
      var a := End(st, t);
      if t in a.txs then Commit(a, t, a.nextId) else a
  }

  function Act(st: State, t: TId, action: Action): State
    decreases action
  {
    match action
    case Declares(decls, error, initialisersFail) =>
      if t in st.txs then Declare(st, t, decls, error, initialisersFail) else st
    case Bracket(codeGeneration, body) => Pop(ActAll(Begin(st, codeGeneration), st.nextId, body), st.nextId)
  }

  function ActAll(st: State, t: TId, actions: seq<Action>): State
    decreases actions
  {
    if actions == [] then st else ActAll(Act(st, t, actions[0]), t, actions[1..])
  }

  // ---------- what a bracket keeps ----------

  /** A transaction outside a bracket: errors may be noted, and what is nested may come and go. */
  ghost predicate KeptTx(a: Tx, b: Tx, nextId: TId) {
    b == a.(nested := b.nested, hasErrors := b.hasErrors, decls := b.decls, initialisersFail := b.initialisersFail) &&
    forall c | c in b.nested :: c in a.nested || c >= nextId
  }

  /** Everything but `t` and what came since is as it was; what came since is committed. */
  ghost predicate KeptBut(a: State, b: State, t: TId) {
    a.nextId <= b.nextId && b.deque == a.deque && b.moduleNo == a.moduleNo && b.openModule == a.openModule &&
    b.hasCodeGenerator == a.hasCodeGenerator &&
    (forall x | x in a.txs :: x in b.txs && KeptTx(a.txs[x], b.txs[x], a.nextId)) &&
    (forall x | x in a.txs && x != t ::
     b.txs[x].decls == a.txs[x].decls && b.txs[x].initialisersFail == a.txs[x].initialisersFail) &&
    (forall x | x in b.txs && x !in a.txs && x != t :: x >= a.nextId && CameAndCommitted(b.txs[x]))
  }

  lemma KeptTwice(a: State, b: State, c: State, t: TId)
    requires KeptBut(a, b, t) && KeptBut(b, c, t)
    ensures KeptBut(a, c, t)
  {
    forall x | x in a.txs
      ensures x in c.txs && KeptTx(a.txs[x], c.txs[x], a.nextId) &&
                (x != t ==> c.txs[x].decls == a.txs[x].decls && c.txs[x].initialisersFail == a.txs[x].initialisersFail)
    {
      assert KeptTx(a.txs[x], b.txs[x], a.nextId) && KeptTx(b.txs[x], c.txs[x], b.nextId);
    }
    forall x | x in c.txs && x !in a.txs && x != t
      ensures x >= a.nextId && CameAndCommitted(c.txs[x])
    {
      if x in b.txs {
        assert KeptTx(b.txs[x], c.txs[x], b.nextId);
      }
    }
  }

  /** A closed bracket is one more thing that came and was committed, if anything. */
  lemma KeptClosed(a: State, b: State, u: TId, t: TId)
    requires KeptBut(a, b, u) && u !in a.txs && (u in b.txs ==> u >= a.nextId && CameAndCommitted(b.txs[u]))
    ensures KeptBut(a, b, t)
  {
  }

  lemma DeclareKeeps(st: State, t: TId, decls: nat, error: bool, initialisersFail: bool)
    requires t in st.txs
    ensures KeptBut(st, Declare(st, t, decls, error, initialisersFail), t)
  {
  }

  /** Begin adds one transaction and, when it is nested, tells its parent. */
  lemma BeginKeeps(st: State, codeGeneration: bool)
    requires Linked(st.txs, st.nextId)
    ensures KeptBut(st, Begin(st, codeGeneration), st.nextId)
  {
    NextIsNew(st);
  }

  /** Changes of single transactions that a bracket may make outside. */
  ghost predicate OnlyOutside(txs: Txs, after: Txs, t: TId) {
    (forall x | x in txs && x != t :: x in after) &&
    (forall x | x in after && x != t :: x in txs &&
      after[x] == txs[x].(nested := after[x].nested, hasErrors := after[x].hasErrors) &&
      forall c | c in after[x].nested :: c in txs[x].nested)
  }

  lemma OutsideKeeps(st: State, a: State, b: State, t: TId)
    requires KeptBut(st, a, t) && t !in st.txs && OnlyOutside(a.txs, b.txs, t)
    requires b == a.(txs := b.txs, current := b.current, hasErrorOccurred := b.hasErrorOccurred)
    ensures KeptBut(st, b, t)
  {
    forall x | x in st.txs
      ensures x in b.txs && KeptTx(st.txs[x], b.txs[x], st.nextId)
    {
      assert KeptTx(st.txs[x], a.txs[x], st.nextId);
    }
  }

  lemma CompletingOutside(a: State, t: TId)
    requires t in a.txs
    ensures OnlyOutside(a.txs, Completing(a, t), t) && t in Completing(a, t)
    ensures Completing(a, t)[t] == a.txs[t].(phase := Completed, hasErrors := Completing(a, t)[t].hasErrors)
  {
  }

  lemma ReleasedOutside(txs: Txs, nextId: TId, t: TId)
    requires Linked(txs, nextId) && t in txs
    ensures OnlyOutside(txs, Released(txs, t), t)
  {
    var after := Released(txs, t);
    forall x | x in txs && x != t
      ensures x in after
    {
      ReleasedAt(txs, t, x);
    }
    forall x | x in after && x != t
      ensures x in txs && after[x] == txs[x].(nested := after[x].nested) && forall c | c in after[x].nested ::
                c in txs[x].nested
    {
      ReleasedKeys(txs, t, x);
      ReleasedAt(txs, t, x);
      assert IsLinked(txs, nextId, x);
      WithoutMeans(txs[x].nested, t);
    }
  }

  lemma NextAt(txs: Txs, deque: seq<TId>, i: nat)
    requires Chained(txs, deque) && i < |deque|
    ensures deque[i] in txs && txs[deque[i]].next == if i + 1 < |deque| then Some(deque[i + 1]) else None
  {
  }

  /** The deque determines who is next. */
  lemma NextSame(a: Txs, b: Txs, deque: seq<TId>, x: TId)
    requires Chained(a, deque) && Chained(b, deque) && x in a && x in b
    ensures a[x].next == b[x].next
  {
    if x in deque {
      var i :| 0 <= i < |deque| && deque[i] == x;
      NextAt(a, deque, i);
      NextAt(b, deque, i);
    }
  }

  /** What is older than an unloaded transaction stays outside it. */
  lemma PrunedKeeps(st: State, a: State, b: State, t: TId)
    requires KeptBut(st, a, t) && t == st.nextId && Linked(st.txs, st.nextId) && Linked(a.txs, a.nextId)
    requires t in a.txs && t !in b.txs && b.deque == a.deque && Pruned(a, b) && OlderStay(a, b, t)
    requires forall x | x in b.txs && x in a.txs :: b.txs[x].next == a.txs[x].next
    ensures KeptBut(st, b, t)
  {
    forall x | x in st.txs
      ensures x in b.txs && KeptTx(st.txs[x], b.txs[x], st.nextId) && b.txs[x].decls == st.txs[x].decls &&
              b.txs[x].initialisersFail == st.txs[x].initialisersFail
    {
      assert IsLinked(st.txs, st.nextId, x) && KeptTx(st.txs[x], a.txs[x], st.nextId);
      OlderKept(a, b, t, x);
    }
    forall x | x in b.txs && x !in st.txs && x != t
      ensures x >= st.nextId && CameAndCommitted(b.txs[x])
    {
    }
  }

  lemma OlderKept(a: State, b: State, t: TId, x: TId)
    requires Linked(a.txs, a.nextId) && t in a.txs && x in a.txs && x < t && Pruned(a, b) && OlderStay(a, b, t)
    ensures x in b.txs && forall c | c in b.txs[x].nested :: c in a.txs[x].nested
  {
    assert IsLinked(a.txs, a.nextId, x);
    WithoutMeans(a.txs[x].nested, t);
  }

  lemma UnloadKeeps(st: State, a: State, t: TId)
    requires KeptBut(st, a, t) && Linked(st.txs, st.nextId) && t == st.nextId && Sound(a) && t in a.txs &&
               a.txs[t].parent.Some?
    ensures KeptBut(st, Unload(a, t), t)
  {
    UnloadSound(a, t);
    var b := Unload(a, t);
    forall x | x in b.txs && x in a.txs
      ensures b.txs[x].next == a.txs[x].next
    {
      NextSame(a.txs, b.txs, a.deque, x);
    }
    PrunedKeeps(st, a, b, t);
  }

  /** A commit of the newest open transaction changes nothing older. */
  lemma GrownKeeps(st: State, a: State, b: State, t: TId, root: TId)
    requires KeptBut(st, a, t) && Linked(st.txs, st.nextId) && t == st.nextId && Grown(a, b, t, root)
    ensures KeptBut(st, b, t)
  {
    forall x | x in st.txs
      ensures x in b.txs && b.txs[x] == a.txs[x].(hasErrors := b.txs[x].hasErrors)
    {
      assert IsLinked(st.txs, st.nextId, x) && KeptTx(st.txs[x], a.txs[x], st.nextId);
    }
    forall x | x in b.txs && x !in st.txs && x != t
      ensures x >= st.nextId && CameAndCommitted(b.txs[x])
    {
      if x in a.txs {
        assert GrownTx(a.txs[x], b.txs[x], a.nextId);
      }
    }
  }

  // ---------- the end of a bracket ----------

  /** The innermost open bracket: `t` was begun in `p` when the state was `st`, and all that came
      since is committed. */
  ghost predicate InBracket(st: State, a: State, t: TId, p: TId) {
    Linked(st.txs, st.nextId) && t == st.nextId && KeptBut(st, a, t) && Valid(a) && t in a.txs &&
    a.current == Some(t) &&
    p in st.txs && a.txs[t].phase == Collecting && a.txs[t].parent == Some(p) && a.txs[t].next.None? &&
    a.txs[t].mod.None? && a.txs[t].runs == 0
  }

  /** What a closed bracket leaves: the transaction in which it was opened is current again. */
  ghost predicate Closed(st: State, r: State, t: TId, p: TId) {
    Valid(r) && KeptBut(st, r, t) && r.current == Some(p) && (t in r.txs ==> CameAndCommitted(r.txs[t]))
  }

  /** After the end of the innermost bracket. */
  ghost predicate Ending(st: State, c: State, t: TId, p: TId) {
    Linked(st.txs, st.nextId) && t == st.nextId && KeptBut(st, c, t) && Valid(c) && t in c.txs &&
    c.current == Some(t) &&
    p in st.txs && c.txs[t].phase == Completed && c.txs[t].parent == Some(p) && c.txs[t].next.None? &&
    c.txs[t].mod.None? && c.txs[t].runs == 0
  }

  lemma EndsEmpty(st: State, a: State, t: TId, p: TId)
    requires InBracket(st, a, t, p) && IsEmpty(Completing(a, t)[t])
    ensures Closed(st, End(a, t), t, p) && t !in End(a, t).txs
  {
    EndValid(a, t);
    CompletingValid(a, t);
    CompletingOutside(a, t);
    var m := a.(txs := Completing(a, t));
    OutsideKeeps(st, a, m, t);
    ReleasedOutside(m.txs, m.nextId, t);
    OutsideKeeps(st, m, End(a, t), t);
  }

  lemma EndsFilled(st: State, a: State, t: TId, p: TId)
    requires InBracket(st, a, t, p) && !IsEmpty(Completing(a, t)[t])
    ensures Ending(st, End(a, t), t, p)
    ensures End(a, t).hasErrorOccurred ==> HasErrors(End(a, t).txs, t)
  {
    EndValid(a, t);
    CompletingOutside(a, t);
    OutsideKeeps(st, a, a.(txs := Completing(a, t)), t);
    EndsNested(a, t);
    if a.hasErrorOccurred {
      ErrorsMarked(a, t);
    }
  }

  lemma EndsNested(a: State, t: TId)
    requires t in a.txs && a.txs[t].parent.Some? && !IsEmpty(Completing(a, t)[t])
    ensures End(a, t) == a.(txs := Completing(a, t))
  {
    CompletingOutside(a, t);
  }

  /** Errors that occurred are noted at the end. */
  lemma ErrorsMarked(a: State, t: TId)
    requires Linked(a.txs, a.nextId) && t in a.txs && a.hasErrorOccurred
    ensures HasErrors(Completing(a, t), t)
  {
    var txs := a.txs[t := a.txs[t].(phase := Completed)];
    RootStays(a.txs, txs, a.nextId, t);
    RootStays(a.txs, MarkErrors(txs, t), a.nextId, t);
  }

  lemma EndingEnded(st: State, c: State, t: TId, p: TId)
    requires Ending(st, c, t, p)
    ensures Ended(c.txs, t, c.nextId) && AllCommitted(c.txs, c.txs[t].nested)
  {
    forall x | x in c.txs
      ensures x < c.nextId && (x >= t && x != t ==> c.txs[x].phase == Committed)
    {
      assert IsLinked(c.txs, c.nextId, x);
      assert x in st.txs ==> IsLinked(st.txs, st.nextId, x);
    }
    assert IsLinked(c.txs, c.nextId, t);
    forall x | x in c.txs[t].nested
      ensures x in c.txs && c.txs[x].phase == Committed
    {
      assert IsLinked(c.txs, c.nextId, x);
    }
  }

  lemma RollsBack(st: State, c: State, t: TId, p: TId)
    requires Ending(st, c, t, p) && HasErrors(c.txs, t)
    ensures Closed(st, Commit(c, t, c.nextId), t, p) && t !in Commit(c, t, c.nextId).txs
  {
    var a := c.(current := Some(p), hasErrorOccurred := false);
    assert IsLinked(c.txs, c.nextId, t);
    assert KeptBut(st, a, t);
    UnloadSound(a, t);
    UnloadValid(a, t);
    UnloadKeeps(st, a, t);
  }

  lemma Succeeds(st: State, c: State, t: TId, p: TId)
    requires Ending(st, c, t, p) && !HasErrors(c.txs, t) && !c.hasErrorOccurred
    ensures Closed(st, Commit(c, t, c.nextId), t, p)
  {
    EndingEnded(st, c, t, p);
    CommitGrows(c, t, c.nextId);
    var r := Commit(c, t, c.nextId);
    GrownKeeps(st, c, r, t, Root(c.txs, t));
    assert GrownTx(c.txs[t], r.txs[t], c.nextId);
  }

  lemma PopCloses(st: State, a: State, t: TId, p: TId)
    requires InBracket(st, a, t, p)
    ensures Closed(st, Pop(a, t), t, p)
  {
    if IsEmpty(Completing(a, t)[t]) {
      EndsEmpty(st, a, t, p);
    } else {
      EndsFilled(st, a, t, p);
      if HasErrors(End(a, t).txs, t) {
        RollsBack(st, End(a, t), t, p);
      } else {
        Succeeds(st, End(a, t), t, p);
      }
    }
  }

  // ---------- whole brackets ----------

  lemma OpensBracket(st: State, codeGeneration: bool)
    requires Valid(st) && IsOpen(st)
    ensures InBracket(st, Begin(st, codeGeneration), st.nextId, st.current.value)
  {
    BeginValid(st, codeGeneration);
    BeginKeeps(st, codeGeneration);
    NextIsNew(st);
  }

  /** What is done inside the innermost bracket keeps it the innermost. */
  lemma StaysInBracket(st: State, a: State, b: State, t: TId, p: TId)
    requires InBracket(st, a, t, p) && KeptBut(a, b, t) && Valid(b) && b.current == a.current
    ensures InBracket(st, b, t, p)
  {
    KeptTwice(st, a, b, t);
    assert KeptTx(a.txs[t], b.txs[t], a.nextId);
  }

  /** Brackets inside the transaction `t` leave it the current one, and collecting. */
  lemma {:induction false} ActAllKeeps(st: State, t: TId, actions: seq<Action>)
    requires Valid(st) && st.current == Some(t) && t in st.txs && st.txs[t].phase == Collecting
    ensures var r := ActAll(st, t, actions);
            Valid(r) && KeptBut(st, r, t) && r.current == st.current
    decreases actions, 0
  {
    if actions != [] {
      ActKeeps(st, t, actions[0]);
      var a := Act(st, t, actions[0]);
      assert KeptTx(st.txs[t], a.txs[t], st.nextId);
      ActAllKeeps(a, t, actions[1..]);
      KeptTwice(st, a, ActAll(a, t, actions[1..]), t);
    }
  }

  lemma {:induction false} ActKeeps(st: State, t: TId, action: Action)
    requires Valid(st) && st.current == Some(t) && t in st.txs && st.txs[t].phase == Collecting
    ensures var r := Act(st, t, action);
            Valid(r) && KeptBut(st, r, t) && r.current == st.current
    decreases action, 3
  {
    match action
    case Declares(decls, error, initialisersFail) =>
      DeclareValid(st, t, decls, error, initialisersFail);
      DeclareKeeps(st, t, decls, error, initialisersFail);
    case Bracket(codeGeneration, body) =>
      BracketCloses(st, codeGeneration, body);
      NextIsNew(st);
      KeptClosed(st, Act(st, t, action), st.nextId, t);
  }

  /** A bracket that is opened while another transaction is open leaves that the current one, and as it
      was, whether the bracket turns out empty, is committed, or is rolled back. */
  lemma {:induction false} BracketCloses(st: State, codeGeneration: bool, body: seq<Action>)
    requires Valid(st) && IsOpen(st)
    ensures Closed(st, Pop(ActAll(Begin(st, codeGeneration), st.nextId, body), st.nextId), st.nextId, st.current.value)
    decreases body, 2
  {
    OpensBracket(st, codeGeneration);
    BodyCloses(st, Begin(st, codeGeneration), st.nextId, st.current.value, body);
  }

  lemma {:induction false} BodyCloses(st: State, a: State, t: TId, p: TId, body: seq<Action>)
    requires InBracket(st, a, t, p)
    ensures Closed(st, Pop(ActAll(a, t, body), t), t, p)
    decreases body, 1
  {
    ActAllKeeps(a, t, body);
    StaysInBracket(st, a, ActAll(a, t, body), t, p);
    PopCloses(st, ActAll(a, t, body), t, p);
  }
}
