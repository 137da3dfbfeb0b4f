/** What running all at-exit handlers does, and how it compares with the order the language asks for. */
module AtExitShutdown {
  import opened AtExitTable

  type Groups = seq<seq<Handler>>

  /** The handlers of the table, group by group in the order of the table. */
  function GroupsOf(t: Table): (groups: Groups)
    ensures |groups| == |t.order|
    ensures forall i | 0 <= i < |groups| :: groups[i] == t.HandlersOf(t.order[i])
  {
    seq(|t.order|, i requires 0 <= i < |t.order| => t.HandlersOf(t.order[i]))
  }

  function Registered(rs: seq<Handler>): Table {
    EMPTY.RegisterAll(rs)
  }

  function Reverse(hs: seq<Handler>): seq<Handler> {
    if hs == [] then [] else [hs[|hs| - 1]] + Reverse(hs[..|hs| - 1])
  }

  function GroupsDue(groups: Groups): multiset<Handler> {
    if groups == [] then multiset{} else GroupsDue(groups[..|groups| - 1]) + DueAll(groups[|groups| - 1])
  }

  /** The newest group runs newest handler first; then everything registered meanwhile runs; then the
      older groups do. */
  function Drain(groups: Groups): seq<Handler>
    decreases |GroupsDue(groups)|, |groups|
  {
    if groups == [] then []
    else
      var older, newest := groups[..|groups| - 1], groups[|groups| - 1];
      LaterIsDue(newest);
      Reverse(newest) + Drain(Later(newest)) + Drain(older)
  }

  /** The run of one group: newest handler first, and then everything that was registered meanwhile. */
  function GroupRun(group: seq<Handler>): seq<Handler> {
    Reverse(group) + Drain(Later(group))
  }

  /** What the handlers of a group have registered when all of them have run. */
  function Later(group: seq<Handler>): Groups {
    GroupsOf(Registered(RegisteredBy(Reverse(group))))
  }

  // ---------- everything runs, once ----------

  lemma EmptyValid()
    ensures EMPTY.Valid() && TableDue(EMPTY) == multiset{}
  {
  }

  lemma {:induction false} GroupsDueIsOrderDue(t: Table, groups: Groups, n: nat)
    requires n <= |t.order| && groups == GroupsOf(t)[..n]
    ensures GroupsDue(groups) == OrderDue(t.funcs, t.order[..n])
  {
    if n == 0 {
      assert t.order[..n] == [];
    } else {
      assert groups[..n - 1] == GroupsOf(t)[..n - 1];
      GroupsDueIsOrderDue(t, groups[..n - 1], n - 1);
      OrderDueLast(t, n);
    }
  }

  lemma OrderDueLast(t: Table, n: nat)
    requires 0 < n <= |t.order|
    ensures OrderDue(t.funcs, t.order[..n]) ==
              OrderDue(t.funcs, t.order[..n - 1]) + DueAll(t.HandlersOf(t.order[n - 1]))
  {
    var k := t.order[n - 1];
    assert t.order[..n] == t.order[..n - 1] + [k];
    OrderDueConcat(t.funcs, t.order[..n - 1], [k]);
    assert [k][1..] == [];
  }

  lemma GroupsOfDue(t: Table)
    ensures GroupsDue(GroupsOf(t)) == TableDue(t)
  {
    assert GroupsOf(t)[..|t.order|] == GroupsOf(t) && t.order[..|t.order|] == t.order;
    GroupsDueIsOrderDue(t, GroupsOf(t), |t.order|);
  }

  lemma RegisteredDue(rs: seq<Handler>)
    ensures Registered(rs).Valid() && GroupsDue(GroupsOf(Registered(rs))) == DueAll(rs)
  {
    EmptyValid();
    RegisterAllValid(EMPTY, rs);
    RegisterAllDue(EMPTY, rs);
    GroupsOfDue(Registered(rs));
  }

  lemma {:induction false} ReverseDue(hs: seq<Handler>)
    ensures multiset(Reverse(hs)) == multiset(hs)
    ensures multiset(Reverse(hs)) + DueAll(RegisteredBy(Reverse(hs))) == DueAll(hs)
  {
    if hs != [] {
      var below, newest := hs[..|hs| - 1], hs[|hs| - 1];
      SplitLast(hs);
      ReverseDue(below);
      DueLast(below, newest);
      RegisteredByCons(newest, Reverse(below));
      DueConcat(newest.registers, RegisteredBy(Reverse(below)));
      Rearrange(below, newest, Reverse(below), DueAll(newest.registers), DueAll(RegisteredBy(Reverse(below))),
                DueAll(below));
    }
  }

  lemma Rearrange<T>(below: seq<T>, newest: T, reversed: seq<T>, registered: multiset<T>, later: multiset<T>,
                     due: multiset<T>)
    requires multiset(reversed) == multiset(below) && multiset(reversed) + later == due
    ensures multiset([newest] + reversed) == multiset(below + [newest])
    ensures multiset([newest] + reversed) + (registered + later) == due + (multiset{newest} + registered)
  {
    assert multiset([newest] + reversed) == multiset{newest} + multiset(reversed);
    assert multiset(below + [newest]) == multiset(below) + multiset{newest};
    forall x ensures (multiset([newest] + reversed) + (registered + later))[x] ==
      (due + (multiset{newest} + registered))[x] {
      assert (multiset(reversed) + later)[x] == due[x];
    }
  }

  lemma LaterIsDue(group: seq<Handler>)
    ensures multiset(Reverse(group)) + GroupsDue(Later(group)) == DueAll(group)
    ensures |GroupsDue(Later(group))| <= |DueAll(group)|
    ensures group == [] ==> Later(group) == []
    ensures group != [] ==> |GroupsDue(Later(group))| < |DueAll(group)|
  {
    ReverseDue(group);
    RegisteredDue(RegisteredBy(Reverse(group)));
    assert |multiset(Reverse(group))| == |multiset(group)| == |group|;
  }

  /** Every handler in the groups, and every handler registered meanwhile, runs exactly once. */
  lemma {:induction false} DrainRunsAll(groups: Groups)
    ensures multiset(Drain(groups)) == GroupsDue(groups)
    decreases |GroupsDue(groups)|, |groups|
  {
    if groups != [] {
      var older, newest := groups[..|groups| - 1], groups[|groups| - 1];
      LaterIsDue(newest);
      DrainRunsAll(Later(newest));
      DrainRunsAll(older);
      ThreeParts(Reverse(newest), Drain(Later(newest)), Drain(older));
    }
  }

  lemma ThreeParts<T>(a: seq<T>, b: seq<T>, c: seq<T>)
    ensures multiset(a + b + c) == multiset(c) + (multiset(a) + multiset(b))
  {
    assert multiset(a + b + c) == multiset(a + b) + multiset(c);
  }

  // ---------- the order the language asks for ----------

  /** Handlers run newest first, and one registered meanwhile runs before all older ones, as section 6.6.4
      of ISO/IEC 14882:2017 has it. */
  function Lifo(stack: seq<Handler>): seq<Handler>
    decreases |DueAll(stack)|
  {
    if stack == [] then []
    else
      var below, newest := stack[..|stack| - 1], stack[|stack| - 1];
      SplitLast(stack);
      RegistersAreDue(below, newest);
      [newest] + Lifo(below + newest.registers)
  }

  lemma RegistersAreDue(below: seq<Handler>, newest: Handler)
    ensures |DueAll(below + newest.registers)| < |DueAll(below + [newest])|
    ensures |DueAll(newest.registers)| < |DueAll(below + [newest])|
    ensures |DueAll(below)| < |DueAll(below + [newest])|
  {
    DueLast(below, newest);
    DueConcat(below, newest.registers);
  }

  lemma LifoPush(below: seq<Handler>, newest: Handler)
    ensures Lifo(below + [newest]) == [newest] + Lifo(below + newest.registers)
  {
    assert (below + [newest])[..|below|] == below;
  }

  lemma {:induction false} LifoConcat(a: seq<Handler>, b: seq<Handler>)
    ensures Lifo(a + b) == Lifo(b) + Lifo(a)
    decreases |DueAll(b)|
  {
    if b == [] {
      assert a + b == a;
    } else {
      var below, newest := b[..|b| - 1], b[|b| - 1];
      SplitLast(b);
      RegistersAreDue(below, newest);
      LifoConcat(a, below + newest.registers);
      LifoPush(below, newest);
      LifoPush(a + below, newest);
      Associate(a, below, [newest]);
      Associate(a, below, newest.registers);
      Associate([newest], Lifo(below + newest.registers), Lifo(a));
    }
  }

  lemma LifoStep(below: seq<Handler>, newest: Handler)
    ensures Lifo(below + [newest]) == [newest] + Lifo(newest.registers) + Lifo(below)
  {
    LifoPush(below, newest);
    LifoConcat(below, newest.registers);
    Associate([newest], Lifo(newest.registers), Lifo(below));
  }

  lemma {:induction false} LifoRunsAll(stack: seq<Handler>)
    ensures multiset(Lifo(stack)) == DueAll(stack)
    decreases |DueAll(stack)|
  {
    if stack != [] {
      var below, newest := stack[..|stack| - 1], stack[|stack| - 1];
      SplitLast(stack);
      RegistersAreDue(below, newest);
      LifoStep(below, newest);
      LifoRunsAll(newest.registers);
      LifoRunsAll(below);
      DueLast(below, newest);
      ThreeParts([newest], Lifo(newest.registers), Lifo(below));
    }
  }

  /** The registrations that `Drain` runs in the order the language asks for: the handlers of one
      transaction follow each other, and only the oldest of them registers anything, in such an order. */
  predicate InOrder(rs: seq<Handler>)
    decreases |DueAll(rs)|
  {
    if rs == [] then true
    else
      var below, newest := rs[..|rs| - 1], rs[|rs| - 1];
      SplitLast(rs);
      RegistersAreDue(below, newest);
      InOrder(below) &&
      if Mentions(below, newest.transaction) then
        below[|below| - 1].transaction == newest.transaction && newest.registers == []
      else InOrder(newest.registers)
  }

  predicate Mentions(rs: seq<Handler>, transaction: TransactionId) {
    exists i | 0 <= i < |rs| :: rs[i].transaction == transaction
  }

  /** No two handlers that are going to run are the same. */
  ghost predicate AllDifferent(due: multiset<Handler>) {
    forall h :: due[h] <= 1
  }

  /** What `runAtExitFuncs` runs when the table has come about by these registrations. */
  function AtExitRun(rs: seq<Handler>): seq<Handler> {
    Drain(GroupsOf(Registered(rs)))
  }

  lemma RegisteredLast(below: seq<Handler>, newest: Handler)
    ensures Registered(below).Valid() && Registered(below).Tagged()
    ensures Registered(below + [newest]) == Registered(below).Register(newest)
  {
    EmptyValid();
    RegisterAllValid(EMPTY, below);
    RegisterAllTagged(EMPTY, below);
    RegisterAllConcat(EMPTY, below, [newest]);
    assert [newest][1..] == [];
  }

  lemma {:induction false} RegisteredMentions(rs: seq<Handler>, transaction: TransactionId)
    ensures transaction in Registered(rs).funcs <==> Mentions(rs, transaction)
    decreases |rs|
  {
    if rs != [] {
      var below, newest := rs[..|rs| - 1], rs[|rs| - 1];
      SplitLast(rs);
      RegisteredLast(below, newest);
      RegisteredMentions(below, transaction);
      if Mentions(rs, transaction) && newest.transaction != transaction {
        var i :| 0 <= i < |rs| && rs[i].transaction == transaction;
        assert below[i].transaction == transaction;
      }
      if Mentions(below, transaction) {
        var i :| 0 <= i < |below| && below[i].transaction == transaction;
        assert rs[i].transaction == transaction;
      }
    }
  }

  lemma GroupsOfNewKey(t: Table, h: Handler)
    requires t.Valid() && h.transaction !in t.funcs
    ensures GroupsOf(t.Register(h)) == GroupsOf(t) + [[h]]
  {
    assert [] + [h] == [h];
    var groups := GroupsOf(t.Register(h));
    forall i | 0 <= i < |t.order| ensures groups[i] == GroupsOf(t)[i] {
      assert t.order[i] in t.funcs;
    }
  }

  lemma GroupsOfLastKey(t: Table, h: Handler)
    requires t.Valid() && t.order != [] && t.order[|t.order| - 1] == h.transaction
    ensures var groups := GroupsOf(t);
            GroupsOf(t.Register(h)) == groups[..|groups| - 1] + [groups[|groups| - 1] + [h]]
  {
    assert h.transaction in t.order;
  }

  lemma DrainPush(older: Groups, newest: seq<Handler>)
    ensures Drain(older + [newest]) == Reverse(newest) + Drain(Later(newest)) + Drain(older)
  {
    assert (older + [newest])[..|older|] == older;
  }

  lemma ReversePush(below: seq<Handler>, newest: Handler)
    ensures Reverse(below + [newest]) == [newest] + Reverse(below)
  {
    assert (below + [newest])[..|below|] == below;
  }

  lemma SingleGroup(h: Handler)
    ensures Reverse([h]) == [h] && Later([h]) == GroupsOf(Registered(h.registers))
  {
    ReversePush([], h);
    assert [] + [h] == [h];
    RegisteredByCons(h, []);
    assert h.registers + [] == h.registers;
  }

  /** The newest handler is alone in the newest group. */
  lemma RunNewKey(below: seq<Handler>, newest: Handler)
    requires !Mentions(below, newest.transaction)
    ensures AtExitRun(below + [newest]) == [newest] + AtExitRun(newest.registers) + AtExitRun(below)
  {
    RegisteredLast(below, newest);
    RegisteredMentions(below, newest.transaction);
    GroupsOfNewKey(Registered(below), newest);
    DrainPush(GroupsOf(Registered(below)), [newest]);
    SingleGroup(newest);
  }

  /** The newest handler is in the newest group with others and registers nothing. */
  lemma RunLastKey(below: seq<Handler>, newest: Handler)
    requires Registered(below).order != [] && newest.registers == []
    requires Registered(below).order[|Registered(below).order| - 1] == newest.transaction
    ensures AtExitRun(below + [newest]) == [newest] + AtExitRun(below)
  {
    RegisteredLast(below, newest);
    var groups := GroupsOf(Registered(below));
    var older, group := groups[..|groups| - 1], groups[|groups| - 1];
    GroupsOfLastKey(Registered(below), newest);
    DrainPush(older, group + [newest]);
    SplitLast(groups);
    DrainPush(older, group);
    ReversePush(group, newest);
    RegisteredByCons(newest, Reverse(group));
    assert [] + RegisteredBy(Reverse(group)) == RegisteredBy(Reverse(group));
    Associate([newest], Reverse(group), Drain(Later(group)));
    Associate([newest], Reverse(group) + Drain(Later(group)), Drain(older));
  }

  /** The newest handler and the one next to it in the newest group run first. */
  lemma RunStartsWithGroup(below: seq<Handler>, newest: Handler)
    requires Registered(below).order != []
    requires Registered(below).order[|Registered(below).order| - 1] == newest.transaction
    ensures var run := AtExitRun(below + [newest]);
            |run| >= 2 && run[0] == newest && run[1] in below
  {
    RegisteredLast(below, newest);
    var t := Registered(below);
    var groups := GroupsOf(t);
    var older, group := groups[..|groups| - 1], groups[|groups| - 1];
    GroupsOfLastKey(t, newest);
    DrainPush(older, group + [newest]);
    ReversePush(group, newest);
    assert newest.transaction in t.order && group != [];
    SplitLast(group);
    ReversePush(group[..|group| - 1], group[|group| - 1]);
    HandlersWereRegistered(below, newest.transaction, group[|group| - 1]);
  }

  lemma HandlersWereRegistered(rs: seq<Handler>, transaction: TransactionId, h: Handler)
    requires h in Registered(rs).HandlersOf(transaction)
    ensures h in rs
  {
    EmptyValid();
    HandlersAfterRegisterAll(EMPTY, rs, transaction);
    ForIsIn(rs, transaction, h);
  }

  lemma {:induction false} ForIsIn(rs: seq<Handler>, transaction: TransactionId, h: Handler)
    requires h in For(rs, transaction)
    ensures h in rs
    decreases |rs|
  {
    if rs[0].transaction == transaction && h == rs[0] {
    } else {
      ForIsIn(rs[1..], transaction, h);
    }
  }

  /** The newest handler is in an older group, so that one of another transaction runs first. */
  lemma RunStartsElsewhere(below: seq<Handler>, newest: Handler)
    requires Mentions(below, newest.transaction) && Registered(below).order != []
    requires Registered(below).order[|Registered(below).order| - 1] != newest.transaction
    ensures var run := AtExitRun(below + [newest]); run != [] && run[0] != newest
  {
    RegisteredLast(below, newest);
    RegisteredMentions(below, newest.transaction);
    LastKeyRunsFirst(Registered(below), newest);
  }

  lemma LastKeyRunsFirst(t: Table, newest: Handler)
    requires t.Valid() && t.Tagged() && newest.transaction in t.funcs
    requires t.order != [] && t.order[|t.order| - 1] != newest.transaction
    ensures var run := Drain(GroupsOf(t.Register(newest))); run != [] && run[0] != newest
  {
    var k := t.order[|t.order| - 1];
    RegisterValid(t, newest);
    RunStartsWithLast(t.Register(newest));
    assert k in t.order && t.Register(newest).funcs[k] == t.funcs[k];
    assert t.funcs[k][|t.funcs[k]| - 1] in t.funcs[k];
  }

  /** The newest handler of the newest group runs first. */
  lemma RunStartsWithLast(t: Table)
    requires t.Valid() && t.order != []
    ensures var k := t.order[|t.order| - 1];
            k in t.funcs && t.funcs[k] != [] && Drain(GroupsOf(t)) != [] &&
            Drain(GroupsOf(t))[0] == t.funcs[k][|t.funcs[k]| - 1]
  {
    var groups, k := GroupsOf(t), t.order[|t.order| - 1];
    assert k in t.order;
    var group := t.funcs[k];
    assert group == groups[|groups| - 1];
    SplitLast(groups);
    DrainPush(groups[..|groups| - 1], group);
    SplitLast(group);
    ReversePush(group[..|group| - 1], group[|group| - 1]);
  }

  lemma {:induction false} InOrderEndsInLastKey(rs: seq<Handler>)
    requires InOrder(rs) && rs != []
    ensures var t := Registered(rs); t.order != [] && t.order[|t.order| - 1] == rs[|rs| - 1].transaction
    decreases |rs|
  {
    var below, newest := rs[..|rs| - 1], rs[|rs| - 1];
    SplitLast(rs);
    RegisteredLast(below, newest);
    RegisteredMentions(below, newest.transaction);
    if Mentions(below, newest.transaction) {
      InOrderEndsInLastKey(below);
    }
  }

  lemma SameLength(rs: seq<Handler>)
    ensures |AtExitRun(rs)| == |Lifo(rs)| == |DueAll(rs)|
  {
    DrainRunsAll(GroupsOf(Registered(rs)));
    RegisteredDue(rs);
    LifoRunsAll(rs);
    assert |multiset(AtExitRun(rs))| == |AtExitRun(rs)| && |multiset(Lifo(rs))| == |Lifo(rs)|;
  }

  lemma SplitEqual<T>(h: T, a: seq<T>, b: seq<T>, c: seq<T>, d: seq<T>)
    requires |a| == |c|
    ensures [h] + a + b == [h] + c + d <==> a == c && b == d
  {
    if [h] + a + b == [h] + c + d {
      assert a == ([h] + a + b)[1..|a| + 1] && c == ([h] + c + d)[1..|c| + 1];
      assert b == ([h] + a + b)[|a| + 1..] && d == ([h] + c + d)[|c| + 1..];
    }
  }

  lemma DifferentParts(below: seq<Handler>, newest: Handler)
    requires AllDifferent(DueAll(below + [newest]))
    ensures AllDifferent(DueAll(below)) && AllDifferent(DueAll(newest.registers))
    ensures forall h | h in below :: DueAll(newest.registers)[h] == 0
  {
    DueLast(below, newest);
    var due := DueAll(below + [newest]);
    forall h ensures DueAll(below)[h] <= 1 && DueAll(newest.registers)[h] <= 1 {
      assert due[h] <= 1;
    }
    forall h | h in below ensures DueAll(newest.registers)[h] == 0 {
      InIsDue(below, h);
      assert due[h] <= 1;
    }
  }

  lemma {:induction false} InIsDue(rs: seq<Handler>, h: Handler)
    requires h in rs
    ensures DueAll(rs)[h] >= 1
    decreases |rs|
  {
    if h != rs[0] {
      InIsDue(rs[1..], h);
    }
  }

  /** `runAtExitFuncs` keeps to the order the language asks for if the registrations were made in order
      in the first place, and only then unless two of the handlers cannot be told apart. */
  lemma {:induction false} AtExitOrder(rs: seq<Handler>)
    ensures InOrder(rs) ==> AtExitRun(rs) == Lifo(rs)
    ensures AllDifferent(DueAll(rs)) && AtExitRun(rs) == Lifo(rs) ==> InOrder(rs)
    decreases |DueAll(rs)|
  {
    if rs == [] {
      assert GroupsOf(Registered(rs)) == [];
    } else {
      var below, newest := rs[..|rs| - 1], rs[|rs| - 1];
      SplitLast(rs);
      RegistersAreDue(below, newest);
      if AllDifferent(DueAll(rs)) {
        DifferentParts(below, newest);
      }
      AtExitOrder(below);
      if !Mentions(below, newest.transaction) {
        AtExitOrder(newest.registers);
        AtExitOrderNewKey(below, newest);
      } else {
        AtExitOrderSameKey(below, newest);
      }
    }
  }

  lemma AtExitOrderNewKey(below: seq<Handler>, newest: Handler)
    requires !Mentions(below, newest.transaction)
    ensures AtExitRun(below + [newest]) == Lifo(below + [newest]) <==>
              AtExitRun(newest.registers) == Lifo(newest.registers) && AtExitRun(below) == Lifo(below)
  {
    RunNewKey(below, newest);
    LifoStep(below, newest);
    SameLength(newest.registers);
    SplitEqual(newest, AtExitRun(newest.registers), AtExitRun(below), Lifo(newest.registers), Lifo(below));
  }

  lemma AtExitOrderSameKey(below: seq<Handler>, newest: Handler)
    requires Mentions(below, newest.transaction)
    requires InOrder(below) ==> AtExitRun(below) == Lifo(below)
    requires AllDifferent(DueAll(below + [newest])) && AtExitRun(below) == Lifo(below) ==> InOrder(below)
    ensures InOrder(below + [newest]) ==> AtExitRun(below + [newest]) == Lifo(below + [newest])
    ensures AllDifferent(DueAll(below + [newest])) && AtExitRun(below + [newest]) == Lifo(below + [newest]) ==>
              InOrder(below + [newest])
  {
    var order := Registered(below).order;
    RegisteredLast(below, newest);
    RegisteredMentions(below, newest.transaction);
    assert newest.transaction in order;
    InOrderPush(below, newest);
    if InOrder(below) {
      InOrderEndsInLastKey(below);
    }
    if order[|order| - 1] != newest.transaction {
      LifoPush(below, newest);
      RunStartsElsewhere(below, newest);
    } else if newest.registers == [] {
      RunsWithoutRegistering(below, newest);
    } else if AllDifferent(DueAll(below + [newest])) {
      RegisteredRunsTooLate(below, newest);
    }
  }

  lemma RunsWithoutRegistering(below: seq<Handler>, newest: Handler)
    requires Registered(below).order != [] && newest.registers == []
    requires Registered(below).order[|Registered(below).order| - 1] == newest.transaction
    ensures AtExitRun(below + [newest]) == Lifo(below + [newest]) <==> AtExitRun(below) == Lifo(below)
  {
    LifoPush(below, newest);
    assert below + [] == below;
    RunLastKey(below, newest);
    assert [newest] + [] == [newest];
    SplitEqual(newest, [], AtExitRun(below), [], Lifo(below));
  }

  /** What a handler registers should run next, but the rest of its group does. */
  lemma RegisteredRunsTooLate(below: seq<Handler>, newest: Handler)
    requires AllDifferent(DueAll(below + [newest]))
    requires Registered(below).order != [] && newest.registers != []
    requires Registered(below).order[|Registered(below).order| - 1] == newest.transaction
    ensures AtExitRun(below + [newest]) != Lifo(below + [newest])
  {
    DifferentParts(below, newest);
    RunStartsWithGroup(below, newest);
    LifoContinuesWithRegistered(below, newest);
    InIsDue(newest.registers, Lifo(below + [newest])[1]);
  }

  lemma InOrderPush(below: seq<Handler>, newest: Handler)
    ensures InOrder(below + [newest]) <==>
              InOrder(below) &&
              if Mentions(below, newest.transaction) then
                below[|below| - 1].transaction == newest.transaction && newest.registers == []
              else InOrder(newest.registers)
  {
    assert (below + [newest])[..|below|] == below;
  }

  lemma LifoContinuesWithRegistered(below: seq<Handler>, newest: Handler)
    requires newest.registers != []
    ensures var run := Lifo(below + [newest]); |run| >= 2 && run[1] in newest.registers
  {
    var inner, last := newest.registers[..|newest.registers| - 1], newest.registers[|newest.registers| - 1];
    LifoPush(below, newest);
    SplitLast(newest.registers);
    Associate(below, inner, [last]);
    LifoPush(below + inner, last);
  }

  /** When nothing is registered meanwhile, the order asked for is the reverse of registration. */
  lemma {:induction false} LifoOfPlainHandlers(rs: seq<Handler>)
    requires forall h | h in rs :: h.registers == []
    ensures Lifo(rs) == Reverse(rs)
  {
    if rs != [] {
      var below, newest := rs[..|rs| - 1], rs[|rs| - 1];
      SplitLast(rs);
      LifoPush(below, newest);
      assert below + [] == below;
      LifoOfPlainHandlers(below);
    }
  }

  /** Handlers of two transactions that take turns do not run in the reverse order of registration. */
  lemma TakingTurnsIsOutOfOrder()
    ensures var a, b, c := Handler(0, 1, []), Handler(7, 2, []), Handler(0, 3, []);
            AtExitRun([a, b, c]) != Lifo([a, b, c])
  {
    var a, b, c := Handler(0, 1, []), Handler(7, 2, []), Handler(0, 3, []);
    assert [a, b, c] == [a, b] + [c];
    assert [a, b][0].transaction == 0;
    EmptyValid();
    RegisteredLast([a], b);
    RegisteredLast([], a);
    assert [] + [a] == [a] && [a] + [b] == [a, b];
    RunStartsElsewhere([a, b], c);
    LifoPush([a, b], c);
  }
}
