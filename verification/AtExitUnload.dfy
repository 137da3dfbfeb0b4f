/** What running and removing the handlers of one transaction does. */
module AtExitUnload {
  import opened AtExitTable
  import opened AtExitShutdown

  // ---------- unloading one transaction: a single stack ----------

  /** The handlers that ran, in order, and the table they left. */
  datatype Run = Run(trace: seq<Handler>, table: Table)

  /** One LIFO stack beside a table: pop the newest handler and run it; what it registers for the
      transaction is pushed, what it registers for others goes to the table. */
  function Machine(stack: seq<Handler>, t: Table, transaction: TransactionId): (r: Run)
    requires t.Valid() && transaction !in t.funcs
    ensures r.table.Valid() && transaction !in r.table.funcs
    decreases |DueAll(stack) + TableDue(t)|
  {
    if stack == [] then Run([], t)
    else
      var below, newest := stack[..|stack| - 1], stack[|stack| - 1];
      SplitLast(stack);
      CalledIsDue(below, newest, t, transaction);
      var called := t.RegisterAll(newest.registers);
      Then([newest], Machine(below + called.HandlersOf(transaction), called.Erase(transaction), transaction))
  }

  function Then(trace: seq<Handler>, r: Run): Run {
    Run(trace + r.trace, r.table)
  }

  lemma CalledIsDue(below: seq<Handler>, newest: Handler, t: Table, transaction: TransactionId)
    requires t.Valid()
    ensures var called := t.RegisterAll(newest.registers);
            called.Valid() && called.Erase(transaction).Valid() && transaction !in called.Erase(transaction).funcs &&
            |DueAll(below + called.HandlersOf(transaction)) + TableDue(called.Erase(transaction))|
            < |DueAll(below + [newest]) + TableDue(t)|
  {
    var called := t.RegisterAll(newest.registers);
    RegisterAllValid(t, newest.registers);
    EraseValid(called, transaction);
    RegisterAllDue(t, newest.registers);
    TableDueSplit(called, transaction);
    DueLast(below, newest);
    DueConcat(below, called.HandlersOf(transaction));
  }

  lemma MachinePush(below: seq<Handler>, newest: Handler, t: Table, transaction: TransactionId)
    requires t.Valid() && transaction !in t.funcs
    ensures var called := t.RegisterAll(newest.registers);
            called.Valid() && called.Erase(transaction).Valid() && transaction !in called.Erase(transaction).funcs &&
            Machine(below + [newest], t, transaction) ==
            Then([newest], Machine(below + called.HandlersOf(transaction), called.Erase(transaction), transaction))
  {
    CalledIsDue(below, newest, t, transaction);
    assert (below + [newest])[..|below|] == below;
  }

  lemma ThenThen(a: seq<Handler>, b: seq<Handler>, r: Run)
    ensures Then(a, Then(b, r)) == Then(a + b, r)
  {
    Associate(a, b, r.trace);
  }

  /** The upper part of a stack runs to its end before the lower part starts. */
  lemma {:induction false} MachineConcat(a: seq<Handler>, b: seq<Handler>, t: Table, transaction: TransactionId)
    requires t.Valid() && transaction !in t.funcs
    ensures var upper := Machine(b, t, transaction);
            Machine(a + b, t, transaction) == Then(upper.trace, Machine(a, upper.table, transaction))
    decreases |DueAll(b) + TableDue(t)|
  {
    if b == [] {
      assert a + b == a;
    } else {
      var below, newest := b[..|b| - 1], b[|b| - 1];
      var called := t.RegisterAll(newest.registers);
      var pushed, erased := called.HandlersOf(transaction), called.Erase(transaction);
      SplitLast(b);
      CalledIsDue(below, newest, t, transaction);
      MachineConcat(a, below + pushed, erased, transaction);
      MachinePush(below, newest, t, transaction);
      MachinePush(a + below, newest, t, transaction);
      Associate(a, below, [newest]);
      Associate(a, below, pushed);
      var upper := Machine(below + pushed, erased, transaction);
      ThenThen([newest], upper.trace, Machine(a, upper.table, transaction));
    }
  }

  /** A handler, everything it leads to for the transaction, and then the handlers below it. */
  lemma MachineStep(below: seq<Handler>, newest: Handler, t: Table, transaction: TransactionId)
    requires t.Valid() && transaction !in t.funcs
    ensures var called := t.RegisterAll(newest.registers);
            called.Valid() && called.Erase(transaction).Valid() && transaction !in called.Erase(transaction).funcs &&
            var inner := Machine(called.HandlersOf(transaction), called.Erase(transaction), transaction);
            Machine(below + [newest], t, transaction) ==
            Then([newest] + inner.trace, Machine(below, inner.table, transaction))
  {
    MachinePush(below, newest, t, transaction);
    var called := t.RegisterAll(newest.registers);
    var pushed, erased := called.HandlersOf(transaction), called.Erase(transaction);
    MachineConcat(below, pushed, erased, transaction);
    var inner := Machine(pushed, erased, transaction);
    ThenThen([newest], inner.trace, Machine(below, inner.table, transaction));
  }

  /** Every handler that was due either has run, once, or is still due. */
  lemma {:induction false} MachineConserves(stack: seq<Handler>, t: Table, transaction: TransactionId)
    requires t.Valid() && transaction !in t.funcs
    ensures var r := Machine(stack, t, transaction);
            multiset(r.trace) + TableDue(r.table) == DueAll(stack) + TableDue(t)
    decreases |DueAll(stack) + TableDue(t)|
  {
    if stack != [] {
      var below, newest := stack[..|stack| - 1], stack[|stack| - 1];
      var called := t.RegisterAll(newest.registers);
      var pushed, erased := called.HandlersOf(transaction), called.Erase(transaction);
      SplitLast(stack);
      CalledIsDue(below, newest, t, transaction);
      MachineConserves(below + pushed, erased, transaction);
      RegisterAllDue(t, newest.registers);
      TableDueSplit(called, transaction);
      DueLast(below, newest);
      DueConcat(below, pushed);
      var r := Machine(below + pushed, erased, transaction);
      RunOne(newest, r.trace, TableDue(r.table), DueAll(below), DueAll(pushed), TableDue(erased), TableDue(t),
             DueAll(newest.registers));
    }
  }

  lemma RunOne<T>(newest: T, trace: seq<T>, after: multiset<T>, below: multiset<T>, pushed: multiset<T>,
                  erased: multiset<T>,
                  before: multiset<T>, registered: multiset<T>)
    requires multiset(trace) + after == (below + pushed) + erased && erased + pushed == before + registered
    ensures multiset([newest] + trace) + after == (below + (multiset{newest} + registered)) + before
  {
    assert multiset([newest] + trace) == multiset{newest} + multiset(trace);
    forall x ensures (multiset([newest] + trace) + after)[x] ==
      ((below + (multiset{newest} + registered)) + before)[x] {
      assert (multiset(trace) + after)[x] == ((below + pushed) + erased)[x];
      assert (erased + pushed)[x] == (before + registered)[x];
    }
  }

  /** The run of what a handler registers for its own transaction. */
  ghost function After(t: Table, func: Handler, transaction: TransactionId): (inner: Run)
    requires t.Valid()
    ensures inner.table.Valid() && transaction !in inner.table.funcs
  {
    var called := t.RegisterAll(func.registers);
    RegisterAllValid(t, func.registers);
    EraseValid(called, transaction);
    Machine(called.HandlersOf(transaction), called.Erase(transaction), transaction)
  }

  /** One turn of the loop: what is left is smaller, and the run goes on below the handler. */
  lemma LeftIsDue(local: seq<Handler>, erased: Table, trace: seq<Handler>, i: nat, t: Table, transaction: TransactionId)
    requires erased.Valid() && transaction !in erased.funcs && t.Valid() && transaction !in t.funcs && 0 < i <= |local|
    requires Machine(local, erased, transaction) == Then(trace, Machine(local[..i], t, transaction))
    ensures |TableDue(t.RegisterAll(local[i - 1].registers))| < |DueAll(local) + TableDue(erased)|
    ensures var inner := After(t, local[i - 1], transaction);
            Machine(local, erased, transaction) ==
            Then(trace + ([local[i - 1]] + inner.trace), Machine(local[..i - 1], inner.table, transaction))
  {
    var below, func := local[..i - 1], local[i - 1];
    SplitTake(local, i);
    RegisteredIsDue(local, erased, trace, below, func, t, transaction);
    MachineStep(below, func, t, transaction);
    var inner := After(t, func, transaction);
    ThenThen(trace, [func] + inner.trace, Machine(below, inner.table, transaction));
  }

  lemma RegisteredIsDue(local: seq<Handler>, erased: Table, trace: seq<Handler>, below: seq<Handler>, func: Handler,
                  t: Table, transaction: TransactionId)
    requires erased.Valid() && transaction !in erased.funcs && t.Valid() && transaction !in t.funcs
    requires Machine(local, erased, transaction) == Then(trace, Machine(below + [func], t, transaction))
    ensures |TableDue(t.RegisterAll(func.registers))| < |DueAll(local) + TableDue(erased)|
  {
    MachineConserves(local, erased, transaction);
    MachineConserves(below + [func], t, transaction);
    RegisterAllDue(t, func.registers);
    DueLast(below, func);
    var r := Machine(below + [func], t, transaction);
    Smaller(trace, r.trace, TableDue(r.table), DueAll(local) + TableDue(erased), DueAll(below), func, TableDue(t),
            DueAll(func.registers));
  }

  lemma Smaller<T>(done: seq<T>, trace: seq<T>, after: multiset<T>, all: multiset<T>,
                   below: multiset<T>, func: T, before: multiset<T>, registered: multiset<T>)
    requires multiset(done + trace) + after == all
    requires multiset(trace) + after == (below + (multiset{func} + registered)) + before
    ensures |before + registered| < |all|
  {
    assert multiset(done + trace) == multiset(done) + multiset(trace);
    forall x ensures all[x] == (multiset(done) + below + multiset{func} + (before + registered))[x] {
      assert (multiset(trace) + after)[x] == ((below + (multiset{func} + registered)) + before)[x];
      assert (multiset(done + trace) + after)[x] == all[x];
    }
    assert all == multiset(done) + below + multiset{func} + (before + registered);
  }

  // ---------- the same run without the table ----------

  /** Replacing the newest handler by what it registers for the transaction leaves fewer to run. */
  lemma PushedIsDue(below: seq<Handler>, newest: Handler, transaction: TransactionId)
    ensures var pushed := For(newest.registers, transaction);
            |DueAll(below + pushed)| < |DueAll(below + [newest])| && |DueAll(pushed)| < |DueAll(below + [newest])|
  {
    var pushed := For(newest.registers, transaction);
    ForIsDue(newest.registers, transaction);
    DueLast(below, newest);
    DueConcat(below, pushed);
    SubMultisetSize(DueAll(pushed), DueAll(newest.registers));
  }

  lemma SubMultisetSize<T>(a: multiset<T>, b: multiset<T>)
    requires a <= b
    ensures |a| <= |b|
  {
    assert b == a + (b - a);
  }

  /** The run of one stack of handlers: pop the newest, run it, push what it registers for the same
      transaction. */
  function StackRun(stack: seq<Handler>, transaction: TransactionId): (trace: seq<Handler>)
    decreases |DueAll(stack)|
  {
    if stack == [] then []
    else
      var below, newest := stack[..|stack| - 1], stack[|stack| - 1];
      SplitLast(stack);
      PushedIsDue(below, newest, transaction);
      [newest] + StackRun(below + For(newest.registers, transaction), transaction)
  }

  lemma StackRunPush(below: seq<Handler>, newest: Handler, transaction: TransactionId)
    ensures StackRun(below + [newest], transaction) ==
            [newest] + StackRun(below + For(newest.registers, transaction), transaction)
  {
    assert (below + [newest])[..|below|] == below;
  }

  /** What the machine runs is the run of the bare stack, */
  lemma {:induction false} MachineIsStackRun(stack: seq<Handler>, t: Table, transaction: TransactionId)
    requires t.Valid() && transaction !in t.funcs
    ensures Machine(stack, t, transaction).trace == StackRun(stack, transaction)
    decreases |DueAll(stack) + TableDue(t)|
  {
    if stack != [] {
      var below, newest := stack[..|stack| - 1], stack[|stack| - 1];
      var called := t.RegisterAll(newest.registers);
      SplitLast(stack);
      MachinePush(below, newest, t, transaction);
      CalledIsDue(below, newest, t, transaction);
      MachineIsStackRun(below + called.HandlersOf(transaction), called.Erase(transaction), transaction);
      StackRunPush(below, newest, transaction);
      PushedHandlers(t, newest.registers, transaction);
    }
  }

  /** and the table it leaves has exactly what the handlers that ran registered for other
      transactions, in that order. */
  lemma {:induction false} MachineLeavesOthers(stack: seq<Handler>, t: Table, transaction: TransactionId)
    requires t.Valid() && transaction !in t.funcs
    ensures var r := Machine(stack, t, transaction);
            r.table == t.RegisterAll(NotFor(RegisteredBy(r.trace), transaction))
    decreases |DueAll(stack) + TableDue(t)|
  {
    if stack != [] {
      var below, newest := stack[..|stack| - 1], stack[|stack| - 1];
      var called := t.RegisterAll(newest.registers);
      var next := below + called.HandlersOf(transaction);
      SplitLast(stack);
      MachinePush(below, newest, t, transaction);
      CalledIsDue(below, newest, t, transaction);
      MachineLeavesOthers(next, called.Erase(transaction), transaction);
      EraseRegisterAll(t, newest.registers, transaction);
      EraseAbsent(t, transaction);
      RegisteredFirst(t, newest, Machine(next, called.Erase(transaction), transaction).trace, transaction);
    }
  }

  lemma RegisteredFirst(t: Table, newest: Handler, trace: seq<Handler>, transaction: TransactionId)
    ensures t.RegisterAll(NotFor(RegisteredBy([newest] + trace), transaction)) ==
            t.RegisterAll(NotFor(newest.registers, transaction)).RegisterAll(NotFor(RegisteredBy(trace), transaction))
  {
    assert ([newest] + trace)[1..] == trace;
    NotForConcat(newest.registers, RegisteredBy(trace), transaction);
    RegisterAllConcat(t, NotFor(newest.registers, transaction), NotFor(RegisteredBy(trace), transaction));
  }

  /** Unloading a transaction runs its handlers as one stack, including whatever they register for it,
      and only those; it is gone from the table afterwards. */
  lemma UnloadRunsOwnStack(t: Table, transaction: TransactionId)
    requires t.Valid() && t.Tagged()
    ensures t.Erase(transaction).Valid() && transaction !in t.Erase(transaction).funcs
    ensures var r := Machine(t.HandlersOf(transaction), t.Erase(transaction), transaction);
            r.trace == StackRun(t.HandlersOf(transaction), transaction) &&
            (forall h | h in r.trace :: h.transaction == transaction) &&
            transaction !in r.table.funcs
  {
    var stack, erased := t.HandlersOf(transaction), t.Erase(transaction);
    EraseValid(t, transaction);
    MachineIsStackRun(stack, erased, transaction);
    StackRunTagged(stack, transaction);
  }

  /** The handlers of other transactions are all still there, followed by what was registered for them
      meanwhile. */
  lemma UnloadKeepsOthers(t: Table, transaction: TransactionId, other: TransactionId)
    requires t.Valid() && other != transaction
    ensures t.Erase(transaction).Valid() && transaction !in t.Erase(transaction).funcs
    ensures var r := Machine(t.HandlersOf(transaction), t.Erase(transaction), transaction);
            r.table.HandlersOf(other) == t.HandlersOf(other) + For(RegisteredBy(r.trace), other)
  {
    var stack, erased := t.HandlersOf(transaction), t.Erase(transaction);
    EraseValid(t, transaction);
    MachineLeavesOthers(stack, erased, transaction);
    var registered := RegisteredBy(Machine(stack, erased, transaction).trace);
    HandlersAfterRegisterAll(erased, NotFor(registered, transaction), other);
    ForNotFor(registered, transaction, other);
  }

  /** Nothing is lost and nothing runs twice. */
  lemma UnloadConserves(t: Table, transaction: TransactionId)
    requires t.Valid()
    ensures t.Erase(transaction).Valid() && transaction !in t.Erase(transaction).funcs
    ensures var r := Machine(t.HandlersOf(transaction), t.Erase(transaction), transaction);
            multiset(r.trace) + TableDue(r.table) == TableDue(t)
  {
    EraseValid(t, transaction);
    TableDueSplit(t, transaction);
    MachineConserves(t.HandlersOf(transaction), t.Erase(transaction), transaction);
  }

  lemma {:induction false} StackRunTagged(stack: seq<Handler>, transaction: TransactionId)
    requires forall h | h in stack :: h.transaction == transaction
    ensures forall h | h in StackRun(stack, transaction) :: h.transaction == transaction
    decreases |DueAll(stack)|
  {
    if stack != [] {
      var below, newest := stack[..|stack| - 1], stack[|stack| - 1];
      SplitLast(stack);
      PushedIsDue(below, newest, transaction);
      ForTagged(newest.registers, transaction);
      StackRunTagged(below + For(newest.registers, transaction), transaction);
    }
  }

  // ---------- when that is the order the language asks for ----------

  /** The handlers and all that they lead to are for one transaction. */
  predicate OnlyFor(rs: seq<Handler>, transaction: TransactionId)
    decreases rs
  {
    rs == [] || (rs[0].transaction == transaction && OnlyFor(rs[0].registers, transaction) &&
                 OnlyFor(rs[1..], transaction))
  }

  lemma {:induction false} OnlyForConcat(a: seq<Handler>, b: seq<Handler>, transaction: TransactionId)
    ensures OnlyFor(a + b, transaction) <==> OnlyFor(a, transaction) && OnlyFor(b, transaction)
    decreases |a|
  {
    if a == [] {
      assert a + b == b;
    } else {
      assert (a + b)[1..] == a[1..] + b;
      OnlyForConcat(a[1..], b, transaction);
    }
  }

  lemma {:induction false} ForOnly(rs: seq<Handler>, transaction: TransactionId)
    requires OnlyFor(rs, transaction)
    ensures For(rs, transaction) == rs
    decreases |rs|
  {
    if rs != [] {
      ForOnly(rs[1..], transaction);
      assert rs == [rs[0]] + rs[1..];
    }
  }

  /** When no handler registers any for another transaction, unloading runs them in the order that the
      language asks for. */
  lemma {:induction false} StackRunIsLifo(stack: seq<Handler>, transaction: TransactionId)
    requires OnlyFor(stack, transaction)
    ensures StackRun(stack, transaction) == Lifo(stack)
    decreases |DueAll(stack)|
  {
    if stack != [] {
      var below, newest := stack[..|stack| - 1], stack[|stack| - 1];
      SplitLast(stack);
      OnlyForConcat(below, [newest], transaction);
      assert [newest][1..] == [];
      ForOnly(newest.registers, transaction);
      RegistersAreDue(below, newest);
      OnlyForConcat(below, newest.registers, transaction);
      StackRunIsLifo(below + newest.registers, transaction);
      StackRunPush(below, newest, transaction);
      LifoPush(below, newest);
    }
  }
}
