/** What erasing a global value does to a module: exactly what is no longer needed goes, and no
    reference is left dangling. */
module GlobalEraserTheory {

  import opened GlobalEraser

  // ---------- collecting finds everything ----------

  /** The operands of a constant have been marked, or the global value it is has been collected. */
  predicate Done(globals: Globals, v: Value, m: Marks) {
    match v
    case Reference(g) => g in globals ==> g in m.visited
    case Cast(operand) => operand == NotConstant || operand in m.seen
    case Aggregate(operands) => forall op | op in operands :: op == NotConstant || op in m.seen
    case NotConstant => true
  }

  ghost predicate AllDone(globals: Globals, vs: seq<Value>, m: Marks) {
    forall v | v in vs :: Done(globals, v, m)
  }

  ghost predicate PayloadDone(globals: Globals, g: Global, m: Marks) {
    g in globals ==> AllDone(globals, Payload(globals[g]), m)
  }

  /** Everything marked between `a` and `b` has been followed to the end. What was being followed
      already in `a` is still being followed. */
  ghost predicate Followed(globals: Globals, a: Marks, b: Marks) {
    a.visited <= b.visited && a.seen <= b.seen &&
    (forall g | g in b.visited && g !in a.visited :: PayloadDone(globals, g, b)) &&
    (forall c | c in b.seen && c !in a.seen :: Done(globals, c, b))
  }

  lemma DoneStays(globals: Globals, vs: seq<Value>, a: Marks, b: Marks)
    requires AllDone(globals, vs, a) && a.visited <= b.visited && a.seen <= b.seen
    ensures AllDone(globals, vs, b)
  {
    forall v | v in vs
      ensures Done(globals, v, b)
    {
      assert Done(globals, v, a);
    }
  }

  lemma FollowedTwice(globals: Globals, a: Marks, b: Marks, c: Marks)
    requires Followed(globals, a, b) && Followed(globals, b, c)
    ensures Followed(globals, a, c)
  {
    forall g | g in c.visited && g !in a.visited
      ensures PayloadDone(globals, g, c)
    {
      if g in b.visited && g in globals {
        assert PayloadDone(globals, g, b);
        DoneStays(globals, Payload(globals[g]), b, c);
      }
    }
    forall v | v in c.seen && v !in a.seen
      ensures Done(globals, v, c)
    {
      if v in b.seen {
        DoneStays(globals, [v], b, c);
        assert v in [v];
      }
    }
  }

  lemma {:induction false} CollectFollows(globals: Globals, g: Global, m: Marks)
    ensures Followed(globals, m, Collect(globals, g, m))
    ensures g in globals ==> g in Collect(globals, g, m).visited
    decreases |Unvisited(globals, m.visited)|, 0
  {
    if g !in m.visited && g in globals {
      var entered := m.(visited := m.visited + {g});
      FewerUnvisited(globals, m.visited, entered.visited);
      MarkAllFollows(globals, Payload(globals[g]), entered);
    }
  }

  lemma {:induction false} MarkAllFollows(globals: Globals, vs: seq<Value>, m: Marks)
    ensures Followed(globals, m, MarkAll(globals, vs, m)) && AllDone(globals, vs, MarkAll(globals, vs, m))
    decreases |Unvisited(globals, m.visited)|, 1, vs
  {
    if vs != [] {
      var next := Mark(globals, vs[0], m);
      MarkFollows(globals, vs[0], m);
      FewerUnvisited(globals, m.visited, next.visited);
      MarkAllFollows(globals, vs[1..], next);
      var last := MarkAll(globals, vs[1..], next);
      FollowedTwice(globals, m, next, last);
      DoneStays(globals, [vs[0]], next, last);
      AllDoneCons(globals, vs, last);
    }
  }

  lemma AllDoneCons(globals: Globals, vs: seq<Value>, m: Marks)
    requires vs != [] && AllDone(globals, [vs[0]], m) && AllDone(globals, vs[1..], m)
    ensures AllDone(globals, vs, m)
  {
    assert vs == [vs[0]] + vs[1..];
    assert vs[0] in [vs[0]];
  }

  lemma {:induction false} MarkFollows(globals: Globals, v: Value, m: Marks)
    ensures Followed(globals, m, Mark(globals, v, m)) && Done(globals, v, Mark(globals, v, m))
    decreases |Unvisited(globals, m.visited)|, 1, v, 0
  {
    match v
    case Reference(g) => CollectFollows(globals, g, m);
    case Cast(operand) => MarkOperandFollows(globals, operand, m);
    case Aggregate(operands) => MarkOperandsFollows(globals, operands, m);
    case NotConstant =>
  }

  lemma {:induction false} MarkOperandsFollows(globals: Globals, vs: seq<Value>, m: Marks)
    ensures Followed(globals, m, MarkOperands(globals, vs, m))
    ensures forall v | v in vs :: v == NotConstant || v in MarkOperands(globals, vs, m).seen
    decreases |Unvisited(globals, m.visited)|, 1, vs
  {
    if vs != [] {
      var next := MarkOperand(globals, vs[0], m);
      MarkOperandFollows(globals, vs[0], m);
      FewerUnvisited(globals, m.visited, next.visited);
      MarkOperandsFollows(globals, vs[1..], next);
      FollowedTwice(globals, m, next, MarkOperands(globals, vs[1..], next));
      assert forall v | v in vs :: v == vs[0] || v in vs[1..];
    }
  }

  lemma {:induction false} MarkOperandFollows(globals: Globals, v: Value, m: Marks)
    ensures Followed(globals, m, MarkOperand(globals, v, m))
    ensures v == NotConstant || v in MarkOperand(globals, v, m).seen
    decreases |Unvisited(globals, m.visited)|, 1, v, 1
  {
    if v != NotConstant && v !in m.seen {
      MarkFollows(globals, v, m.(seen := m.seen + {v}));
    }
  }

  /** When everything that was marked is done, whatever a marked value refers to is collected. */
  lemma {:induction false} DoneIsWithin(globals: Globals, v: Value, m: Marks)
    requires Done(globals, v, m) && forall c | c in m.seen :: Done(globals, c, m)
    ensures forall g | g in globals && Mentions(v, g) :: g in m.visited
    decreases v
  {
    match v
    case Reference(g) =>
    case Cast(operand) =>
      if operand != NotConstant {
        DoneIsWithin(globals, operand, m);
      }
    case Aggregate(operands) =>
      AllDoneIsWithin(globals, operands, m);
    case NotConstant =>
  }

  lemma {:induction false} AllDoneIsWithin(globals: Globals, vs: seq<Value>, m: Marks)
    requires AllDone(globals, vs, m) || forall v | v in vs :: v == NotConstant || v in m.seen
    requires forall c | c in m.seen :: Done(globals, c, m)
    ensures Within(globals, vs, m.visited)
    decreases vs
  {
    if vs != [] {
      DoneIsWithin(globals, vs[0], m);
      AllDoneIsWithin(globals, vs[1..], m);
    }
  }

  /** The collected values are those reached from the start: they include it and everything that they
      refer to, and every other such set includes them. */
  lemma CollectedAreReached(globals: Globals, g: Global, s: set<Global>)
    requires g in globals
    ensures g in Collect(globals, g, Marks({}, {})).visited
    ensures ClosedUnderReferences(globals, Collect(globals, g, Marks({}, {})).visited)
    ensures g in s && ClosedUnderReferences(globals, s) ==> Collect(globals, g, Marks({}, {})).visited <= s
  {
    var m := Collect(globals, g, Marks({}, {}));
    CollectFollows(globals, g, Marks({}, {}));
    forall h, r | h in m.visited && r in globals && RefersTo(globals, h, r)
      ensures r in m.visited
    {
      assert PayloadDone(globals, h, m);
      AllDoneIsWithin(globals, Payload(globals[h]), m);
      PayloadNames(globals[h], r);
    }
    if g in s && ClosedUnderReferences(globals, s) {
      CollectWithin(globals, g, Marks({}, {}), s);
    }
  }

  // ---------- what is kept ----------

  /** The value is a pointer to `g`, possibly cast. */
  predicate PointsTo(v: Value, g: Global)
    decreases v
  {
    v == Reference(g) || (v.Cast? && PointsTo(v.operand, g))
  }

  /** Kept are exactly the values that a variable whose name begins with "llvm.used" lists. */
  lemma KeptExactly(globals: Globals, g: Global)
    requires UsedListsAreArrays(globals)
    ensures IsKept(globals, g) <==>
            exists h | h in globals :: globals[h].Variable? && "llvm.used" <= globals[h].name &&
              globals[h].initializer.Some? && globals[h].initializer.value.Aggregate? &&
              exists v | v in globals[h].initializer.value.operands :: PointsTo(v, g)
  {
    forall h | h in globals && globals[h].Variable? && globals[h].initializer.Some? &&
               globals[h].initializer.value.Aggregate?
      ensures KeptBy(globals[h], g) <==>
              "llvm.used" <= globals[h].name && exists v | v in globals[h].initializer.value.operands :: PointsTo(v, g)
    {
      forall v ensures PointsTo(v, g) <==> StripsToGlobal(v) && Stripped(v) == g {
        StripsExactly(v, g);
      }
    }
  }

  lemma {:induction false} StripsExactly(v: Value, g: Global)
    ensures PointsTo(v, g) <==> StripsToGlobal(v) && Stripped(v) == g
    decreases v
  {
    if v.Cast? {
      StripsExactly(v.operand, g);
    }
  }

  // ---------- what is erased ----------

  /** The unwinder does not need the value, and nothing outside the dead ones refers to it. */
  ghost predicate CanGo(globals: Globals, dead: set<Global>, g: Global) {
    g in globals && globals[g].name != "_Unwind_Resume" && forall h | h in globals && h !in dead ::
      !RefersTo(globals, h, g)
  }

  lemma EmptiedHasNothing(g: GlobalValue)
    ensures Payload(Emptied(g)) == [] && Emptied(g).name == g.name
  {
  }

  /** Erased are exactly the dead values, except what the unwinder needs, that no value outside refers
      to. */
  lemma ErasedExactly(globals: Globals, dead: set<Global>, g: Global)
    requires dead <= globals.Keys
    ensures g in globals && g !in Erased(globals, dead) <==>
            g in dead && CanGo(globals, dead, g)
  {
    var dropped := Dropped(globals, dead);
    if g in dead {
      EmptiedHasNothing(globals[g]);
    }
    if IsReferredTo(dropped, g) {
      var h :| h in dropped && AnyMentions(Payload(dropped[h]), g);
      if h in dead {
        EmptiedHasNothing(globals[h]);
      } else {
        PayloadNames(globals[h], g);
      }
    } else {
      forall h | h in globals && h !in dead
        ensures !RefersTo(globals, h, g)
      {
        assert h in dropped && dropped[h] == globals[h];
        PayloadNames(globals[h], g);
      }
    }
  }

  /** No survivor refers to an erased value; what is not dead is as it was; what is dead but not erased
      has lost what it referred to. */
  lemma NothingDangles(globals: Globals, dead: set<Global>)
    requires dead <= globals.Keys
    ensures forall h, g | RefersTo(Erased(globals, dead), h, g) && g in globals :: g in Erased(globals, dead)
    ensures forall h | h in globals && h !in dead ::
              h in Erased(globals, dead) && Erased(globals, dead)[h] == globals[h]
    ensures forall h | h in Erased(globals, dead) && h in dead :: Payload(Erased(globals, dead)[h]) == []
  {
    var after := Erased(globals, dead);
    forall h, g | RefersTo(after, h, g) && g in globals
      ensures g in after
    {
      ErasedExactly(globals, dead, g);
      if h in dead {
        EmptiedHasNothing(globals[h]);
      } else {
        assert RefersTo(globals, h, g);
      }
    }
    forall h | h in after && h in dead
      ensures Payload(after[h]) == []
    {
      EmptiedHasNothing(globals[h]);
    }
  }

  /** The value to erase goes itself unless it is kept as used, needed by the unwinder, or something
      that is not dead refers to it. */
  lemma StartIsErased(globals: Globals, g: Global)
    requires g in globals
    ensures g !in Erased(globals, Dead(globals, g)) <==>
            !IsKept(globals, g) && CanGo(globals, Dead(globals, g), g)
  {
    CollectedAreReached(globals, g, {});
    CollectStaysInside(globals, g);
    ErasedExactly(globals, Dead(globals, g), g);
  }

  /** `EraseGlobalValue` returns true exactly if something was erased, when one of the dead values can
      go, or when there is none and `start` had no uses by dead constants only; otherwise it does not. */
  lemma TruthfulExactly(globals: Globals, start: Global, hasDeadUsesOnly: bool)
    ensures var dead := Dead(globals, start);
            ((dead != {} || hasDeadUsesOnly) <==> Erased(globals, dead).Keys != globals.Keys) <==>
            if dead == {} then !hasDeadUsesOnly
            else exists g | g in dead :: CanGo(globals, dead, g)
  {
    var dead := Dead(globals, start);
    CollectStaysInside(globals, start);
    forall g | g in globals
      ensures g !in Erased(globals, dead) <==> g in dead && CanGo(globals, dead, g)
    {
      ErasedExactly(globals, dead, g);
    }
    assert Erased(globals, dead).Keys <= globals.Keys;
  }

  /** `EraseGlobalValue` promises to return true if something was erased. It also returns true when
      nothing was: here the second variable needs the first, which therefore stays. */
  lemma TrueThoughNothingIsErased()
    ensures var globals := map[0 := Variable("a", None), 1 := Variable("b", Some(Reference(0)))];
            Dead(globals, 0) != {} && Erased(globals, Dead(globals, 0)).Keys == globals.Keys
  {
    var globals: Globals := map[0 := Variable("a", None), 1 := Variable("b", Some(Reference(0)))];
    CollectWithin(globals, 0, Marks({}, {}), {0});
    CollectedAreReached(globals, 0, {});
    assert !IsKept(globals, 0);
    assert Dead(globals, 0) == {0};
    AnyOfOne(Reference(0), 0);
    assert RefersTo(globals, 1, 0);
    forall g | g in globals
      ensures g in Erased(globals, {0})
    {
      ErasedExactly(globals, {0}, g);
    }
  }
}
