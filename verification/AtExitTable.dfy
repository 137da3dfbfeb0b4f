/** The table of at-exit handlers: an ordered map from transactions to the handlers registered for
    them, and what is still to run when a table is given. */
module AtExitTable {

  type TransactionId = nat

  /** A registered handler: the transaction whose unloading triggers it, an identity for the function
      and its argument, and the handlers it registers while it runs. */
  datatype Handler = Handler(transaction: TransactionId, id: nat, registers: seq<Handler>)

  // ---------- the ordered map ----------

  /** A map that remembers in which order its keys were first inserted. */
  datatype Table = Table(funcs: map<TransactionId, seq<Handler>>, order: seq<TransactionId>) {

    /** The order lists the keys once each, and a key comes with at least one handler. */
    ghost predicate Valid() {
      (forall k :: k in order <==> k in funcs) &&
      (forall k :: k in funcs ==> funcs[k] != []) &&
      (forall i, j | 0 <= i < j < |order| :: order[i] != order[j])
    }

    /** Handlers are kept under the transaction they are registered for. */
    ghost predicate Tagged() {
      forall k, h | k in funcs && h in funcs[k] :: h.transaction == k
    }

    function Register(r: Handler): Table {
      Table(Extend(funcs, r), if r.transaction in funcs then order else order + [r.transaction])
    }

    function RegisterAll(rs: seq<Handler>): Table
      decreases |rs|
    {
      if rs == [] then this else Register(rs[0]).RegisterAll(rs[1..])
    }

    function Erase(transaction: TransactionId): Table
    {
      Table(funcs - {transaction}, Remove(order, transaction))
    }

    function HandlersOf(transaction: TransactionId): seq<Handler> {
      if transaction in funcs then funcs[transaction] else []
    }
  }

  function Extend(funcs: map<TransactionId, seq<Handler>>, r: Handler): map<TransactionId, seq<Handler>> {
    funcs[r.transaction := (if r.transaction in funcs then funcs[r.transaction] else []) + [r]]
  }

  const EMPTY := Table(map[], [])

  /** The index of a key in the order, or the length of the order. */
  function Position(order: seq<TransactionId>, transaction: TransactionId): (n: nat)
    ensures n <= |order| && (n < |order| ==> order[n] == transaction)
    ensures forall i | 0 <= i < n :: order[i] != transaction
  {
    if order == [] then 0
    else
      var n := Position(order[..|order| - 1], transaction);
      if n < |order| - 1 || order[n] == transaction then n else |order|
  }

  function Remove(order: seq<TransactionId>, transaction: TransactionId): seq<TransactionId> {
    var n := Position(order, transaction);
    if n < |order| then order[..n] + order[n + 1..] else order
  }

  lemma RemoveAppend(order: seq<TransactionId>, transaction: TransactionId, last: TransactionId)
    requires last != transaction
    ensures Remove(order + [last], transaction) == Remove(order, transaction) + [last]
  {
    assert (order + [last])[..|order|] == order;
    var n := Position(order, transaction);
    if n < |order| {
      assert (order + [last])[..n] == order[..n] && (order + [last])[n + 1..] == order[n + 1..] + [last];
    }
  }

  lemma RemoveAppended(order: seq<TransactionId>, transaction: TransactionId)
    requires transaction !in order
    ensures Remove(order + [transaction], transaction) == order
    ensures Remove(order, transaction) == order
  {
    assert (order + [transaction])[..|order|] == order;
  }

  lemma RegisterValid(t: Table, r: Handler)
    requires t.Valid()
    ensures t.Register(r).Valid()
  {
  }

  lemma {:induction false} RegisterAllValid(t: Table, rs: seq<Handler>)
    requires t.Valid()
    ensures t.RegisterAll(rs).Valid()
    decreases |rs|
  {
    if rs != [] {
      RegisterValid(t, rs[0]);
      RegisterAllValid(t.Register(rs[0]), rs[1..]);
    }
  }

  lemma EraseValid(t: Table, transaction: TransactionId)
    requires t.Valid()
    ensures t.Erase(transaction).Valid() && transaction !in t.Erase(transaction).funcs
  {
    var n, order := Position(t.order, transaction), t.Erase(transaction).order;
    forall k ensures k in order <==> k in t.order && k != transaction {
      if k in t.order && k != transaction {
        var i :| 0 <= i < |t.order| && t.order[i] == k;
        assert order[if i < n then i else i - 1] == k;
      }
    }
  }

  // ---------- the handlers that are due ----------

  /** Everything that will have run once this handler and all it leads to have run. */
  function Due(h: Handler): multiset<Handler>
    decreases h
  {
    multiset{h} + DueAll(h.registers)
  }

  function DueAll(rs: seq<Handler>): multiset<Handler>
    decreases rs
  {
    if rs == [] then multiset{} else Due(rs[0]) + DueAll(rs[1..])
  }

  lemma {:induction false} DueConcat(a: seq<Handler>, b: seq<Handler>)
    ensures DueAll(a + b) == DueAll(a) + DueAll(b)
    decreases |a|
  {
    if a == [] {
      assert a + b == b;
    } else {
      assert (a + b)[1..] == a[1..] + b;
      DueConcat(a[1..], b);
    }
  }

  lemma DueSingle(h: Handler)
    ensures DueAll([h]) == Due(h)
  {
    assert [h][1..] == [];
  }

  lemma DueLast(below: seq<Handler>, newest: Handler)
    ensures DueAll(below + [newest]) == DueAll(below) + Due(newest)
  {
    DueConcat(below, [newest]);
    DueSingle(newest);
  }

  lemma SplitLast<T>(s: seq<T>)
    requires s != []
    ensures s == s[..|s| - 1] + [s[|s| - 1]]
  {
  }

  lemma SplitTake<T>(s: seq<T>, i: nat)
    requires 0 < i <= |s|
    ensures s[..i] == s[..i - 1] + [s[i - 1]]
  {
  }

  function OrderDue(funcs: map<TransactionId, seq<Handler>>, order: seq<TransactionId>): multiset<Handler> {
    if order == [] then multiset{}
    else (if order[0] in funcs then DueAll(funcs[order[0]]) else multiset{}) + OrderDue(funcs, order[1..])
  }

  function TableDue(t: Table): multiset<Handler> {
    OrderDue(t.funcs, t.order)
  }

  lemma {:induction false} OrderDueConcat(funcs: map<TransactionId, seq<Handler>>, a: seq<TransactionId>,
                                          b: seq<TransactionId>)
    ensures OrderDue(funcs, a + b) == OrderDue(funcs, a) + OrderDue(funcs, b)
    decreases |a|
  {
    if a == [] {
      assert a + b == b;
    } else {
      assert (a + b)[1..] == a[1..] + b;
      OrderDueConcat(funcs, a[1..], b);
    }
  }

  lemma {:induction false} OrderDueFrame(f: map<TransactionId, seq<Handler>>, g: map<TransactionId, seq<Handler>>,
                                         order: seq<TransactionId>)
    requires forall k | k in order :: k in f && k in g && f[k] == g[k]
    ensures OrderDue(f, order) == OrderDue(g, order)
    decreases |order|
  {
    if order != [] {
      OrderDueFrame(f, g, order[1..]);
    }
  }

  lemma SplitAt<T>(s: seq<T>, n: nat)
    requires n < |s|
    ensures s == s[..n] + ([s[n]] + s[n + 1..])
  {
  }

  /** Taking one key out of the table takes its handlers out of what is due. */
  lemma OrderDueRemove(f: map<TransactionId, seq<Handler>>, order: seq<TransactionId>, n: nat)
    requires n < |order| && order[n] in f
    ensures OrderDue(f, order) == OrderDue(f, order[..n] + order[n + 1..]) + DueAll(f[order[n]])
  {
    var before, k, after := order[..n], order[n], order[n + 1..];
    SplitAt(order, n);
    OrderDueConcat(f, before, [k] + after);
    OrderDueConcat(f, before, after);
    assert ([k] + after)[1..] == after;
  }

  lemma EraseDue(t: Table, k: TransactionId)
    requires t.Valid() && k in t.funcs
    ensures TableDue(t) == TableDue(t.Erase(k)) + DueAll(t.funcs[k])
  {
    OrderDueRemove(t.funcs, t.order, Position(t.order, k));
    EraseValid(t, k);
    OrderDueFrame(t.funcs, t.funcs - {k}, t.Erase(k).order);
  }

  lemma RegisterDue(t: Table, r: Handler)
    requires t.Valid()
    ensures TableDue(t.Register(r)) == TableDue(t) + Due(r)
  {
    var k, after := r.transaction, t.Register(r);
    RegisterValid(t, r);
    EraseRegister(t, r, k);
    TableDueSplit(after, k);
    TableDueSplit(t, k);
    DueLast(t.HandlersOf(k), r);
  }

  lemma TableDueSplit(t: Table, k: TransactionId)
    requires t.Valid()
    ensures TableDue(t) == TableDue(t.Erase(k)) + DueAll(t.HandlersOf(k))
  {
    if k in t.funcs {
      EraseDue(t, k);
    } else {
      EraseAbsent(t, k);
    }
  }

  lemma {:induction false} RegisterAllDue(t: Table, rs: seq<Handler>)
    requires t.Valid()
    ensures TableDue(t.RegisterAll(rs)) == TableDue(t) + DueAll(rs)
    decreases |rs|
  {
    if rs != [] {
      RegisterDue(t, rs[0]);
      RegisterValid(t, rs[0]);
      RegisterAllDue(t.Register(rs[0]), rs[1..]);
    }
  }

  // ---------- laws of registration ----------

  /** The handlers registered for one transaction, oldest first. */
  function For(rs: seq<Handler>, transaction: TransactionId): seq<Handler> {
    if rs == [] then []
    else if rs[0].transaction == transaction then [rs[0]] + For(rs[1..], transaction)
    else For(rs[1..], transaction)
  }

  lemma {:induction false} ForIsDue(rs: seq<Handler>, transaction: TransactionId)
    ensures DueAll(For(rs, transaction)) <= DueAll(rs)
    decreases |rs|
  {
    if rs != [] {
      ForIsDue(rs[1..], transaction);
      assert ([rs[0]] + For(rs[1..], transaction))[1..] == For(rs[1..], transaction);
    }
  }

  /** The registrations that are not for the transaction. */
  function NotFor(rs: seq<Handler>, transaction: TransactionId): seq<Handler> {
    if rs == [] then []
    else if rs[0].transaction == transaction then NotFor(rs[1..], transaction)
    else [rs[0]] + NotFor(rs[1..], transaction)
  }

  lemma {:induction false} RegisterAllConcat(t: Table, a: seq<Handler>, b: seq<Handler>)
    ensures t.RegisterAll(a + b) == t.RegisterAll(a).RegisterAll(b)
    decreases |a|
  {
    if a == [] {
      assert a + b == b;
    } else {
      assert (a + b)[1..] == a[1..] + b;
      RegisterAllConcat(t.Register(a[0]), a[1..], b);
    }
  }

  lemma {:induction false} NotForConcat(a: seq<Handler>, b: seq<Handler>, transaction: TransactionId)
    ensures NotFor(a + b, transaction) == NotFor(a, transaction) + NotFor(b, transaction)
    decreases |a|
  {
    if a == [] {
      assert a + b == b;
    } else {
      assert (a + b)[1..] == a[1..] + b;
      NotForConcat(a[1..], b, transaction);
    }
  }

  lemma {:induction false} ForTagged(rs: seq<Handler>, transaction: TransactionId)
    ensures forall h | h in For(rs, transaction) :: h.transaction == transaction
    decreases |rs|
  {
    if rs != [] {
      ForTagged(rs[1..], transaction);
    }
  }

  lemma {:induction false} ForNotFor(rs: seq<Handler>, transaction: TransactionId, other: TransactionId)
    requires other != transaction
    ensures For(NotFor(rs, transaction), other) == For(rs, other)
    decreases |rs|
  {
    if rs != [] {
      ForNotFor(rs[1..], transaction, other);
      assert ([rs[0]] + NotFor(rs[1..], transaction))[1..] == NotFor(rs[1..], transaction);
    }
  }

  lemma {:induction false} RegisterAllTagged(t: Table, rs: seq<Handler>)
    requires t.Tagged()
    ensures t.RegisterAll(rs).Tagged()
    decreases |rs|
  {
    if rs != [] {
      RegisterAllTagged(t.Register(rs[0]), rs[1..]);
    }
  }

  lemma RegisterAllCons(t: Table, r: Handler, rs: seq<Handler>)
    ensures t.RegisterAll([r] + rs) == t.Register(r).RegisterAll(rs)
  {
    assert ([r] + rs)[1..] == rs;
  }

  /** Registrations for other transactions do not care whether this one is in the table. */
  lemma {:induction false} EraseRegisterAll(t: Table, rs: seq<Handler>, transaction: TransactionId)
    requires t.Valid()
    ensures t.RegisterAll(rs).Erase(transaction) == t.Erase(transaction).RegisterAll(NotFor(rs, transaction))
    decreases |rs|
  {
    if rs != [] {
      var next := t.Register(rs[0]);
      EraseRegister(t, rs[0], transaction);
      RegisterValid(t, rs[0]);
      EraseRegisterAll(next, rs[1..], transaction);
      if rs[0].transaction != transaction {
        RegisterAllCons(t.Erase(transaction), rs[0], NotFor(rs[1..], transaction));
      }
    }
  }

  lemma {:induction false} HandlersAfterRegisterAll(t: Table, rs: seq<Handler>, transaction: TransactionId)
    requires t.Valid()
    ensures t.RegisterAll(rs).HandlersOf(transaction) == t.HandlersOf(transaction) + For(rs, transaction)
    decreases |rs|
  {
    if rs != [] {
      var next := t.Register(rs[0]);
      EraseRegister(t, rs[0], transaction);
      RegisterValid(t, rs[0]);
      HandlersAfterRegisterAll(next, rs[1..], transaction);
      if rs[0].transaction == transaction {
        Associate(t.HandlersOf(transaction), [rs[0]], For(rs[1..], transaction));
      }
    }
  }

  lemma PushedHandlers(t: Table, rs: seq<Handler>, transaction: TransactionId)
    requires t.Valid() && transaction !in t.funcs
    ensures t.RegisterAll(rs).HandlersOf(transaction) == For(rs, transaction)
  {
    HandlersAfterRegisterAll(t, rs, transaction);
    assert [] + For(rs, transaction) == For(rs, transaction);
  }

  lemma EraseRegister(t: Table, r: Handler, transaction: TransactionId)
    requires t.Valid()
    ensures t.Register(r).Erase(transaction) ==
            if r.transaction == transaction then t.Erase(transaction) else t.Erase(transaction).Register(r)
    ensures t.Register(r).HandlersOf(transaction) ==
            t.HandlersOf(transaction) + if r.transaction == transaction then [r] else []
  {
    EraseExtend(t.funcs, r, transaction);
    if r.transaction == transaction && transaction !in t.funcs {
      RemoveAppended(t.order, transaction);
    }
    if r.transaction != transaction && r.transaction !in t.funcs {
      RemoveAppend(t.order, transaction, r.transaction);
    }
  }

  lemma EraseExtend(funcs: map<TransactionId, seq<Handler>>, r: Handler, transaction: TransactionId)
    ensures Extend(funcs, r) - {transaction} ==
            if r.transaction == transaction then funcs - {transaction} else Extend(funcs - {transaction}, r)
  {
  }

  lemma EraseAbsent(t: Table, transaction: TransactionId)
    requires t.Valid() && transaction !in t.funcs
    ensures t.Erase(transaction) == t
  {
    RemoveAppended(t.order, transaction);
    assert t.funcs - {transaction} == t.funcs;
  }

  lemma Associate<T>(a: seq<T>, b: seq<T>, c: seq<T>)
    ensures (a + b) + c == a + (b + c)
  {
  }

  /** Everything registered while the handlers of a trace ran. */
  function RegisteredBy(trace: seq<Handler>): seq<Handler> {
    if trace == [] then [] else trace[0].registers + RegisteredBy(trace[1..])
  }

  lemma RegisteredByCons(h: Handler, trace: seq<Handler>)
    ensures RegisteredBy([h] + trace) == h.registers + RegisteredBy(trace)
  {
    assert ([h] + trace)[1..] == trace;
  }

  lemma {:induction false} RegisteredByConcat(a: seq<Handler>, b: seq<Handler>)
    ensures RegisteredBy(a + b) == RegisteredBy(a) + RegisteredBy(b)
    decreases |a|
  {
    if a == [] {
      assert a + b == b;
    } else {
      assert (a + b)[1..] == a[1..] + b;
      RegisteredByConcat(a[1..], b);
      Associate(a[0].registers, RegisteredBy(a[1..]), RegisteredBy(b));
    }
  }
}
