/** Registering and draining the at-exit handlers of the incremental executor. */
module AtExit {
  import opened AtExitTable
  import opened AtExitUnload
  import opened AtExitShutdown

  class IncrementalExecutor {
    var atExitFuncs: Table

    /** The handlers that have run. */
    ghost var ran: seq<Handler>

    constructor ()
      ensures atExitFuncs == EMPTY && ran == []
    {
      atExitFuncs, ran := EMPTY, [];
    }

    method AddAtExitFunc(func: Handler)
      requires atExitFuncs.Valid()
      modifies this`atExitFuncs
      ensures atExitFuncs == old(atExitFuncs).Register(func) && atExitFuncs.Valid()
    {
      var transaction := func.transaction;
      RegisterValid(atExitFuncs, func);
      if transaction !in atExitFuncs.funcs {
        atExitFuncs := Table(atExitFuncs.funcs[transaction := []], atExitFuncs.order + [transaction]);
      }
      atExitFuncs := Table(atExitFuncs.funcs[transaction := atExitFuncs.funcs[transaction] + [func]],
                           atExitFuncs.order);
      assert [] + [func] == [func];
    }

    /** Running a handler is running the registrations it makes. */
    method Call(func: Handler)
      requires atExitFuncs.Valid()
      modifies this
      ensures atExitFuncs == old(atExitFuncs).RegisterAll(func.registers) && atExitFuncs.Valid()
      ensures ran == old(ran) + [func]
    {
      ran := ran + [func];
      var i := 0;
      while i < |func.registers|
        invariant 0 <= i <= |func.registers|
        invariant atExitFuncs.Valid() && atExitFuncs.RegisterAll(func.registers[i..]) ==
                    old(atExitFuncs).RegisterAll(func.registers)
        invariant ran == old(ran) + [func]
      {
        AddAtExitFunc(func.registers[i]);
        i := i + 1;
      }
    }

    /** Runs a handler and anything that it registers for the same transaction. */
    method RunWithRegistered(func: Handler, transaction: TransactionId)
      requires atExitFuncs.Valid() && transaction !in atExitFuncs.funcs
      modifies this
      ensures var inner := After(old(atExitFuncs), func, transaction);
              ran == old(ran) + ([func] + inner.trace) && atExitFuncs == inner.table
      decreases |TableDue(atExitFuncs.RegisterAll(func.registers))|, 2
    {
      Call(func);
      ghost var inner := After(old(atExitFuncs), func, transaction);
      RunAndRemoveStaticDestructors(transaction);
      Associate(old(ran), [func], inner.trace);
    }

    method RunAndRemoveStaticDestructors(transaction: TransactionId)
      requires atExitFuncs.Valid()
      modifies this
      ensures old(atExitFuncs).Erase(transaction).Valid() && transaction !in old(atExitFuncs).Erase(transaction).funcs
      ensures var r := Machine(old(atExitFuncs).HandlersOf(transaction), old(atExitFuncs).Erase(transaction),
                               transaction);
              ran == old(ran) + r.trace && atExitFuncs == r.table
      decreases |TableDue(atExitFuncs)|, 1
    {
      EraseValid(atExitFuncs, transaction);
      if transaction !in atExitFuncs.funcs {
        EraseAbsent(atExitFuncs, transaction);
        return;
      }
      var local := atExitFuncs.funcs[transaction];
      EraseDue(atExitFuncs, transaction);
      atExitFuncs := atExitFuncs.Erase(transaction);
      RunGroup(local, transaction);
    }

    /** Runs a group that has been taken out of the table, newest handler first. */
    method RunGroup(local: seq<Handler>, transaction: TransactionId)
      requires atExitFuncs.Valid() && transaction !in atExitFuncs.funcs
      modifies this
      ensures var r := Machine(local, old(atExitFuncs), transaction);
              ran == old(ran) + r.trace && atExitFuncs == r.table
      decreases |DueAll(local) + TableDue(atExitFuncs)|, 0
    {
      ghost var trace: seq<Handler> := [];
      var i := |local|;
      assert local[..i] == local;
      while i > 0
        invariant 0 <= i <= |local| && atExitFuncs.Valid() && transaction !in atExitFuncs.funcs
        invariant ran == old(ran) + trace
        invariant Machine(local, old(atExitFuncs), transaction) ==
                    Then(trace, Machine(local[..i], atExitFuncs, transaction))
      {
        var func := local[i - 1];
        ghost var inner := After(atExitFuncs, func, transaction);
        LeftIsDue(local, old(atExitFuncs), trace, i, atExitFuncs, transaction);
        RunWithRegistered(func, transaction);
        Associate(old(ran), trace, [func] + inner.trace);
        trace := trace + ([func] + inner.trace);
        i := i - 1;
      }
      assert local[..0] == [];
    }

    method RunAtExitFuncs()
      requires atExitFuncs.Valid()
      modifies this
      ensures atExitFuncs == EMPTY
      ensures ran == old(ran) + Drain(GroupsOf(old(atExitFuncs)))
      decreases |TableDue(atExitFuncs)|, 2
    {
      if atExitFuncs.order == [] {
        assert atExitFuncs.funcs == map[];
        return;
      }
      var local := atExitFuncs;
      atExitFuncs := EMPTY;
      GroupsOfDue(local);
      GroupsNotEmpty(local);
      RunSwappedOut(GroupsOf(local));
    }

    /** Runs the groups of a table that has been swapped out, newest group first. */
    method RunSwappedOut(groups: Groups)
      requires atExitFuncs == EMPTY && NoneEmpty(groups)
      modifies this
      ensures atExitFuncs == EMPTY && ran == old(ran) + Drain(groups)
      decreases |GroupsDue(groups)|, 1
    {
      ghost var trace: seq<Handler> := [];
      var i := |groups|;
      assert groups[..i] == groups;
      while i > 0
        invariant 0 <= i <= |groups| && atExitFuncs == EMPTY
        invariant ran == old(ran) + trace
        invariant Drain(groups) == trace + Drain(groups[..i])
      {
        var group := groups[i - 1];
        NewestGroup(groups, i, trace);
        GroupIsDue(groups, i - 1);
        RunWholeGroup(group);
        Associate(old(ran), trace, GroupRun(group));
        trace := trace + GroupRun(group);
        i := i - 1;
      }
      assert groups[..0] == [];
    }

    /** Runs the handlers of a group that has been swapped out, and then everything they registered. */
    method RunWholeGroup(group: seq<Handler>)
      requires atExitFuncs == EMPTY && group != []
      modifies this
      ensures atExitFuncs == EMPTY
      ensures ran == old(ran) + GroupRun(group)
      decreases |DueAll(group)|, 0
    {
      RunNewestFirst(group);
      LaterIsDue(group);
      GroupsOfDue(atExitFuncs);
      RunAtExitFuncs();
      Associate(old(ran), Reverse(group), Drain(Later(group)));
    }

    /** Runs the handlers of a group; what they register is all that is in the table afterwards. */
    method RunNewestFirst(group: seq<Handler>)
      requires atExitFuncs == EMPTY
      modifies this
      ensures ran == old(ran) + Reverse(group)
      ensures atExitFuncs.Valid() && atExitFuncs == Registered(RegisteredBy(Reverse(group)))
    {
      var j := |group|;
      EmptyValid();
      assert group[..j] == group;
      ghost var done: seq<Handler> := [];
      while j > 0
        invariant 0 <= j <= |group| && atExitFuncs.Valid()
        invariant ran == old(ran) + done && Reverse(group) == done + Reverse(group[..j])
        invariant atExitFuncs == Registered(RegisteredBy(done))
      {
        ghost var func := group[j - 1];
        SplitTake(group, j);
        ReversePush(group[..j - 1], func);
        Associate(done, [func], Reverse(group[..j - 1]));
        Associate(old(ran), done, [func]);
        RegisteredNext(done, func);
        Call(group[j - 1]);
        done := done + [func];
        j := j - 1;
      }
      assert group[..0] == [] && done + [] == done;
    }
  }

  ghost predicate NoneEmpty(groups: Groups) {
    forall i | 0 <= i < |groups| :: groups[i] != []
  }

  lemma GroupsNotEmpty(t: Table)
    requires t.Valid()
    ensures NoneEmpty(GroupsOf(t))
  {
    forall i | 0 <= i < |t.order| ensures GroupsOf(t)[i] != [] {
      assert t.order[i] in t.order;
    }
  }

  lemma NewestGroup(groups: Groups, i: nat, trace: seq<Handler>)
    requires 0 < i <= |groups|
    ensures trace + Drain(groups[..i]) == trace + GroupRun(groups[i - 1]) + Drain(groups[..i - 1])
  {
    SplitTake(groups, i);
    DrainPush(groups[..i - 1], groups[i - 1]);
    Associate(trace, GroupRun(groups[i - 1]), Drain(groups[..i - 1]));
  }

  lemma {:induction false} GroupIsDue(groups: Groups, i: nat)
    requires i < |groups|
    ensures |DueAll(groups[i])| <= |GroupsDue(groups)|
  {
    if i < |groups| - 1 {
      GroupIsDue(groups[..|groups| - 1], i);
    }
  }

  lemma RegisteredNext(done: seq<Handler>, func: Handler)
    ensures Registered(RegisteredBy(done)).RegisterAll(func.registers) == Registered(RegisteredBy(done + [func]))
  {
    RegisteredByConcat(done, [func]);
    RegisteredByCons(func, []);
    assert func.registers + [] == func.registers && [func] + [] == [func];
    RegisterAllConcat(EMPTY, RegisteredBy(done), func.registers);
  }
}
