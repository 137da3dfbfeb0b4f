/** Erasing a global value of a module together with everything that only it needed. */
module GlobalEraser {

  datatype Option<T> = None | Some(value: T)

  type Global = nat

  /** Constants are unique: equal ones are the same constant. */
  datatype Value =
    | Reference(global: Global)
    | Cast(operand: Value)
    | Aggregate(operands: seq<Value>)
    | NotConstant

  datatype GlobalValue =
    | Variable(name: string, initializer: Option<Value>)
    | Alias(name: string, aliasee: Option<Value>)
    | Function(name: string, prefixData: Option<Value>, body: seq<Value>)
    | Declaration(name: string)

  type Globals = map<Global, GlobalValue>

  function Optional(v: Option<Value>): seq<Value> {
    if v.Some? then [v.value] else []
  }

  /** The values that a global value refers to directly. */
  function Payload(g: GlobalValue): seq<Value> {
    match g
    case Variable(_, initializer) => Optional(initializer)
    case Alias(_, aliasee) => Optional(aliasee)
    case Function(_, prefixData, body) => Optional(prefixData) + body
    case Declaration(_) => []
  }

  function Operands(v: Value): seq<Value> {
    match v
    case Cast(operand) => [operand]
    case Aggregate(operands) => operands
    case _ => []
  }

  // ---------- who refers to whom ----------

  /** A value refers to a global value, possibly through other constants. */
  predicate Mentions(v: Value, g: Global)
    decreases v
  {
    match v
    case Reference(h) => h == g
    case Cast(operand) => Mentions(operand, g)
    case Aggregate(operands) => AnyMentions(operands, g)
    case NotConstant => false
  }

  predicate AnyMentions(vs: seq<Value>, g: Global)
    decreases vs
  {
    vs != [] && (Mentions(vs[0], g) || AnyMentions(vs[1..], g))
  }

  lemma AnyOfOne(v: Value, g: Global)
    ensures AnyMentions([v], g) == Mentions(v, g)
  {
    assert [v][1..] == [];
  }

  /** A variable refers to what its initialiser mentions, an alias to what its aliasee mentions, and a
      function to what its prefix data or an operand in its body mentions. */
  predicate Names(value: GlobalValue, g: Global) {
    match value
    case Variable(_, initializer) => initializer.Some? && Mentions(initializer.value, g)
    case Alias(_, aliasee) => aliasee.Some? && Mentions(aliasee.value, g)
    case Function(_, prefixData, body) =>
      (prefixData.Some? && Mentions(prefixData.value, g)) || exists v | v in body :: Mentions(v, g)
    case Declaration(_) => false
  }

  predicate RefersTo(globals: Globals, h: Global, g: Global) {
    h in globals && Names(globals[h], g)
  }

  lemma {:induction false} AnyIsExists(vs: seq<Value>, g: Global)
    ensures AnyMentions(vs, g) <==> exists v | v in vs :: Mentions(v, g)
  {
    if vs == [] {
    } else {
      var rest := vs[1..];
      AnyIsExists(rest, g);
      if Mentions(vs[0], g) {
        assert vs[0] in vs;
      } else if AnyMentions(rest, g) {
        var v :| v in rest && Mentions(v, g);
        assert v in vs;
      } else {
        assert forall v | v in vs :: v == vs[0] || v in rest;
      }
    }
  }

  lemma PayloadNames(value: GlobalValue, g: Global)
    ensures AnyMentions(Payload(value), g) <==> Names(value, g)
  {
    AnyIsExists(Payload(value), g);
    match value
    case Function(_, prefixData, body) =>
      assert forall v :: v in Payload(value) <==> (prefixData.Some? && v == prefixData.value) || v in body;
    case _ =>
  }

  /** All that a list of values refers to in the module is in the set. */
  ghost predicate Within(globals: Globals, vs: seq<Value>, s: set<Global>) {
    forall g | g in globals && AnyMentions(vs, g) :: g in s
  }

  /** A set that has everything that its members refer to. */
  ghost predicate ClosedUnderReferences(globals: Globals, s: set<Global>) {
    forall h, g | h in s && g in globals && RefersTo(globals, h, g) :: g in s
  }

  lemma ClosedWithin(globals: Globals, s: set<Global>, h: Global)
    requires ClosedUnderReferences(globals, s) && h in s && h in globals
    ensures Within(globals, Payload(globals[h]), s)
  {
    forall g | g in globals && AnyMentions(Payload(globals[h]), g)
      ensures g in s
    {
      PayloadNames(globals[h], g);
    }
  }

  // ---------- collecting ----------

  datatype Marks = Marks(visited: set<Global>, seen: set<Value>)

  function Unvisited(globals: Globals, visited: set<Global>): set<Global> {
    globals.Keys - visited
  }

  lemma FewerUnvisited(globals: Globals, visited: set<Global>, more: set<Global>)
    requires visited <= more
    ensures |Unvisited(globals, more)| <= |Unvisited(globals, visited)|
    ensures forall g | g in globals && g !in visited && g in more ::
              |Unvisited(globals, more)| < |Unvisited(globals, visited)|
  {
    assert Unvisited(globals, visited) ==
      Unvisited(globals, more) + (Unvisited(globals, visited) - Unvisited(globals, more));
    forall g | g in globals && g !in visited && g in more
      ensures |Unvisited(globals, more)| < |Unvisited(globals, visited)|
    {
      assert g in Unvisited(globals, visited) - Unvisited(globals, more);
    }
  }

  function Collect(globals: Globals, g: Global, m: Marks): (r: Marks)
    ensures m.visited <= r.visited && m.seen <= r.seen
    decreases |Unvisited(globals, m.visited)|, 0
  {
    if g in m.visited || g !in globals then m
    else
      FewerUnvisited(globals, m.visited, m.visited + {g});
      MarkAll(globals, Payload(globals[g]), m.(visited := m.visited + {g}))
  }

  /** Marking a list of operands one after the other. */
  function MarkAll(globals: Globals, vs: seq<Value>, m: Marks): (r: Marks)
    ensures m.visited <= r.visited && m.seen <= r.seen
    decreases |Unvisited(globals, m.visited)|, 1, vs
  {
    if vs == [] then m
    else
      var next := Mark(globals, vs[0], m);
      FewerUnvisited(globals, m.visited, next.visited);
      MarkAll(globals, vs[1..], next)
  }

  function Mark(globals: Globals, v: Value, m: Marks): (r: Marks)
    ensures m.visited <= r.visited && m.seen <= r.seen
    decreases |Unvisited(globals, m.visited)|, 1, v, 0
  {
    match v
    case Reference(g) => Collect(globals, g, m)
    case Cast(operand) => MarkOperand(globals, operand, m)
    case Aggregate(operands) => MarkOperands(globals, operands, m)
    case NotConstant => m
  }

  function MarkOperands(globals: Globals, vs: seq<Value>, m: Marks): (r: Marks)
    ensures m.visited <= r.visited && m.seen <= r.seen
    decreases |Unvisited(globals, m.visited)|, 1, vs
  {
    if vs == [] then m
    else
      var next := MarkOperand(globals, vs[0], m);
      FewerUnvisited(globals, m.visited, next.visited);
      MarkOperands(globals, vs[1..], next)
  }

  /** An operand of a constant is marked once only. */
  function MarkOperand(globals: Globals, v: Value, m: Marks): (r: Marks)
    ensures m.visited <= r.visited && m.seen <= r.seen
    decreases |Unvisited(globals, m.visited)|, 1, v, 1
  {
    if v == NotConstant || v in m.seen then m else Mark(globals, v, m.(seen := m.seen + {v}))
  }

  /** Nothing is collected that need not be: every set that has the start and is closed has it all. */
  lemma {:induction false} CollectWithin(globals: Globals, g: Global, m: Marks, s: set<Global>)
    requires ClosedUnderReferences(globals, s) && m.visited <= s && (g in globals ==> g in s)
    ensures Collect(globals, g, m).visited <= s
    decreases |Unvisited(globals, m.visited)|, 0
  {
    if g !in m.visited && g in globals {
      FewerUnvisited(globals, m.visited, m.visited + {g});
      ClosedWithin(globals, s, g);
      MarkAllWithin(globals, Payload(globals[g]), m.(visited := m.visited + {g}), s);
    }
  }

  lemma {:induction false} MarkAllWithin(globals: Globals, vs: seq<Value>, m: Marks, s: set<Global>)
    requires ClosedUnderReferences(globals, s) && m.visited <= s && Within(globals, vs, s)
    ensures MarkAll(globals, vs, m).visited <= s
    decreases |Unvisited(globals, m.visited)|, 1, vs
  {
    if vs != [] {
      SplitWithin(globals, vs, s);
      MarkWithin(globals, vs[0], m, s);
      var next := Mark(globals, vs[0], m);
      FewerUnvisited(globals, m.visited, next.visited);
      MarkAllWithin(globals, vs[1..], next, s);
    }
  }

  lemma {:induction false} MarkWithin(globals: Globals, v: Value, m: Marks, s: set<Global>)
    requires ClosedUnderReferences(globals, s) && m.visited <= s && Within(globals, [v], s)
    ensures Mark(globals, v, m).visited <= s
    decreases |Unvisited(globals, m.visited)|, 1, v, 0
  {
    OneWithin(globals, v, s);
    match v
    case Reference(g) => CollectWithin(globals, g, m, s);
    case Cast(operand) => MarkOperandWithin(globals, operand, m, s);
    case Aggregate(operands) => MarkOperandsWithin(globals, operands, m, s);
    case NotConstant =>
  }

  lemma {:induction false} MarkOperandsWithin(globals: Globals, vs: seq<Value>, m: Marks, s: set<Global>)
    requires ClosedUnderReferences(globals, s) && m.visited <= s && Within(globals, vs, s)
    ensures MarkOperands(globals, vs, m).visited <= s
    decreases |Unvisited(globals, m.visited)|, 1, vs
  {
    if vs != [] {
      SplitWithin(globals, vs, s);
      MarkOperandWithin(globals, vs[0], m, s);
      var next := MarkOperand(globals, vs[0], m);
      FewerUnvisited(globals, m.visited, next.visited);
      MarkOperandsWithin(globals, vs[1..], next, s);
    }
  }

  lemma {:induction false} MarkOperandWithin(globals: Globals, v: Value, m: Marks, s: set<Global>)
    requires ClosedUnderReferences(globals, s) && m.visited <= s && Within(globals, [v], s)
    ensures MarkOperand(globals, v, m).visited <= s
    decreases |Unvisited(globals, m.visited)|, 1, v, 1
  {
    if v != NotConstant && v !in m.seen {
      MarkWithin(globals, v, m.(seen := m.seen + {v}), s);
    }
  }

  lemma SplitWithin(globals: Globals, vs: seq<Value>, s: set<Global>)
    requires vs != [] && Within(globals, vs, s)
    ensures Within(globals, [vs[0]], s) && Within(globals, vs[1..], s)
  {
    forall g | g in globals && AnyMentions([vs[0]], g)
      ensures g in s
    {
      AnyOfOne(vs[0], g);
    }
  }

  lemma OneWithin(globals: Globals, v: Value, s: set<Global>)
    requires Within(globals, [v], s)
    ensures Within(globals, Operands(v), s)
    ensures v.Reference? && v.global in globals ==> v.global in s
  {
    forall g | g in globals && (AnyMentions(Operands(v), g) || v == Reference(g))
      ensures g in s
    {
      AnyOfOne(v, g);
      if v.Cast? {
        AnyOfOne(v.operand, g);
      }
    }
  }

  /** What has been marked before is marked still; only values of the module are collected. */
  lemma CollectStaysInside(globals: Globals, g: Global)
    ensures Collect(globals, g, Marks({}, {})).visited <= globals.Keys
  {
    CollectWithin(globals, g, Marks({}, {}), globals.Keys);
  }

  // ---------- the module ----------

  /** Dropping what the members of `dead` refer to. A function without body is a declaration. */
  function Emptied(g: GlobalValue): GlobalValue {
    match g
    case Variable(name, _) => Variable(name, None)
    case Alias(name, _) => Alias(name, None)
    case Function(name, _, _) => Declaration(name)
    case Declaration(name) => g
  }

  function Dropped(globals: Globals, dead: set<Global>): Globals {
    map g | g in globals :: if g in dead then Emptied(globals[g]) else globals[g]
  }

  predicate IsReferredTo(globals: Globals, g: Global) {
    exists h | h in globals :: AnyMentions(Payload(globals[h]), g)
  }

  /** The strip of pointer casts around a global value; anything else is a failing cast. */
  predicate StripsToGlobal(v: Value) {
    match v
    case Reference(_) => true
    case Cast(operand) => StripsToGlobal(operand)
    case _ => false
  }

  function Stripped(v: Value): Global
    requires StripsToGlobal(v)
  {
    match v
    case Reference(g) => g
    case Cast(operand) => Stripped(operand)
  }

  predicate IsUsedList(g: GlobalValue) {
    g.Variable? && |g.name| >= 9 && g.name[..9] == "llvm.used"
  }

  /** The lists of used values are arrays of global values, as `FindUsedValues` takes for granted. */
  ghost predicate UsedListsAreArrays(globals: Globals) {
    forall g | g in globals && IsUsedList(globals[g]) ::
      globals[g].initializer.Some? && globals[g].initializer.value.Aggregate? &&
      forall v | v in globals[g].initializer.value.operands :: StripsToGlobal(v)
  }

  /** A list of used values names `g`. */
  predicate KeptBy(list: GlobalValue, g: Global) {
    IsUsedList(list) && list.initializer.Some? && list.initializer.value.Aggregate? &&
    NamedIn(list.initializer.value.operands, g)
  }

  predicate NamedIn(operands: seq<Value>, g: Global) {
    exists v | v in operands :: StripsToGlobal(v) && Stripped(v) == g
  }

  predicate IsKept(globals: Globals, g: Global) {
    exists h | h in globals :: KeptBy(globals[h], g)
  }

  /** The collected global values that no list of used values keeps. */
  function Dead(globals: Globals, start: Global): set<Global> {
    set g | g in Collect(globals, start, Marks({}, {})).visited && !IsKept(globals, g)
  }

  /** Required by the unwinder, whether it is used or not. */
  predicate MayGo(g: GlobalValue) {
    g.name != "_Unwind_Resume"
  }

  /** Of the dead global values, whose payloads have been dropped, those that can go. */
  function Erasable(globals: Globals, dead: set<Global>): set<Global> {
    set g | g in dead && g in globals && MayGo(globals[g]) && !IsReferredTo(globals, g)
  }

  function Erased(globals: Globals, dead: set<Global>): Globals {
    Dropped(globals, dead) - Erasable(Dropped(globals, dead), dead)
  }

  function Restricted(globals: Globals, without: set<Global>): Globals {
    globals - without
  }

  lemma OneMoreList(globals: Globals, todo: set<Global>, h: Global)
    requires h in todo && h in globals
    ensures forall g: Global :: IsKept(Restricted(globals, todo - {h}), g) <==>
              IsKept(Restricted(globals, todo), g) || KeptBy(globals[h], g)
  {
    var more, fewer := Restricted(globals, todo - {h}), Restricted(globals, todo);
    assert more == fewer[h := globals[h]];
    forall g: Global
      ensures IsKept(more, g) <==> IsKept(fewer, g) || KeptBy(globals[h], g)
    {
      if IsKept(more, g) {
        var k :| k in more && KeptBy(more[k], g);
        assert k == h || k in fewer;
      }
      if IsKept(fewer, g) {
        var k :| k in fewer && KeptBy(fewer[k], g);
        assert k in more;
      }
      if KeptBy(globals[h], g) {
        assert h in more;
      }
    }
  }

  lemma DroppedOneMore(globals: Globals, done: set<Global>, g: Global)
    requires g in globals && g !in done
    ensures Dropped(globals, done + {g}) == Dropped(globals, done)[g := Emptied(Dropped(globals, done)[g])]
  {
  }

  lemma EmptyOnesDoNotMatter(globals: Globals, gone: set<Global>, g: Global)
    requires forall h | h in gone && h in globals :: Payload(globals[h]) == []
    ensures IsReferredTo(globals - gone, g) == IsReferredTo(globals, g)
  {
    if IsReferredTo(globals, g) {
      var h :| h in globals && AnyMentions(Payload(globals[h]), g);
      assert h in globals - gone;
    }
  }

  /** What the members of `dead` refer to. */
  function Payloads(globals: Globals, dead: set<Global>): set<Value> {
    set g, v | g in dead && g in globals && v in Payload(globals[g]) :: v
  }

  /** The values that mention none of the members. */
  function Unrelated(values: set<Value>, dead: set<Global>): set<Value> {
    set v | v in values && forall g | g in dead :: !Mentions(v, g)
  }

  lemma OneMorePayload(globals: Globals, done: set<Global>, g: Global)
    requires g in globals
    ensures Payloads(globals, done + {g}) == Payloads(globals, done) + set v | v in Payload(globals[g])
  {
  }

  lemma OneMoreUnrelated(values: set<Value>, done: set<Global>, g: Global)
    ensures Unrelated(values, done + {g}) == set v | v in Unrelated(values, done) && !Mentions(v, g)
  {
  }

  class Module {
    var globals: Globals
    /** Constants that are in memory though no global value refers to them any more. */
    var leftover: set<Value>

    /** Only constants that nothing uses refer to `g`. */
    predicate HasDeadUsesOnly(g: Global)
      reads this
    {
      !IsReferredTo(globals, g) && exists v | v in leftover :: Mentions(v, g)
    }

    /** Something in memory refers to `g`, be it a global value or a constant that nothing uses. */
    predicate HasUses(g: Global)
      reads this
    {
      IsReferredTo(globals, g) || exists v | v in leftover :: Mentions(v, g)
    }

    method DropPayload(g: Global)
      requires g in globals
      modifies this
      ensures globals == old(globals)[g := Emptied(old(globals)[g])]
      ensures leftover == old(leftover) + set v | v in Payload(old(globals)[g])
    {
      leftover := leftover + set v | v in Payload(globals[g]);
      globals := globals[g := Emptied(globals[g])];
    }

    method EraseFromParent(g: Global)
      requires !HasUses(g)
      modifies this`globals
      ensures globals == old(globals) - {g}
    {
      globals := globals - {g};
    }

    method RemoveUnusedGlobalValue(g: Global) returns (changed: bool)
      modifies this`leftover
      ensures changed == old(HasDeadUsesOnly(g)) && !HasDeadUsesOnly(g)
      ensures leftover == set v | v in old(leftover) && !Mentions(v, g)
    {
      var isUsed := exists v | v in leftover :: Mentions(v, g);
      leftover := set v | v in leftover && !Mentions(v, g);
      changed := isUsed && !IsReferredTo(globals, g);
    }
  }

  class GlobalValueEraser {
    const theModule: Module
    var visitedGlobals: set<Global>
    var seenConstants: set<Value>

    constructor (theModule: Module)
      ensures this.theModule == theModule && Abs() == Marks({}, {})
    {
      this.theModule := theModule;
      visitedGlobals, seenConstants := {}, {};
    }

    /** Erases the given global value and everything that only it needed, as far as it can go. */
    method EraseGlobalValue(g: Global) returns (changed: bool)
      requires Abs() == Marks({}, {}) && g in theModule.globals && UsedListsAreArrays(theModule.globals)
      modifies this, theModule
      ensures Abs() == Marks({}, {})
      ensures theModule.globals == Erased(old(theModule.globals), Dead(old(theModule.globals), g))
      ensures changed == (Dead(old(theModule.globals), g) != {} || old(theModule.HasDeadUsesOnly(g)))
      ensures var dead := Dead(old(theModule.globals), g);
              theModule.leftover ==
              Unrelated(Unrelated(old(theModule.leftover), {g}) + Payloads(old(theModule.globals), dead), dead)
    {
      changed := theModule.RemoveUnusedGlobalValue(g);
      assert theModule.leftover == Unrelated(old(theModule.leftover), {g});
      CollectAllUsesOfGlobals(g);
      FindUsedValues();
      CollectStaysInside(theModule.globals, g);
      DropPayloads();
      if visitedGlobals != {} {
        EraseUnused();
        changed := true;
      }
      visitedGlobals := {};
      seenConstants := {};
    }

    method FindUsedValues()
      requires UsedListsAreArrays(theModule.globals)
      modifies this`visitedGlobals
      ensures visitedGlobals == set g | g in old(visitedGlobals) && !IsKept(theModule.globals, g)
    {
      var todo := theModule.globals.Keys;
      while todo != {}
        invariant todo <= theModule.globals.Keys
        invariant visitedGlobals == set g | g in old(visitedGlobals) && !IsKept(Restricted(theModule.globals, todo), g)
      {
        var h :| h in todo;
        OneMoreList(theModule.globals, todo, h);
        if IsUsedList(theModule.globals[h]) {
          KeepListed(theModule.globals[h].initializer.value.operands);
        }
        todo := todo - {h};
      }
      assert Restricted(theModule.globals, {}) == theModule.globals;
    }

    method KeepListed(operands: seq<Value>)
      requires forall v | v in operands :: StripsToGlobal(v)
      modifies this`visitedGlobals
      ensures visitedGlobals == set g | g in old(visitedGlobals) && !NamedIn(operands, g)
    {
      var i := 0;
      while i < |operands|
        invariant i <= |operands|
        invariant visitedGlobals == set g | g in old(visitedGlobals) && !NamedIn(operands[..i], g)
      {
        assert operands[..i + 1] == operands[..i] + [operands[i]];
        visitedGlobals := visitedGlobals - {Stripped(operands[i])};
        i := i + 1;
      }
      assert operands[..i] == operands;
    }

    /** The first pass; the set is gone through in no particular order. */
    method DropPayloads()
      requires visitedGlobals <= theModule.globals.Keys
      modifies theModule
      ensures theModule.globals == Dropped(old(theModule.globals), visitedGlobals)
      ensures theModule.leftover == old(theModule.leftover) + Payloads(old(theModule.globals), visitedGlobals)
    {
      ghost var globals, leftover := theModule.globals, theModule.leftover;
      var todo := visitedGlobals;
      assert Dropped(globals, {}) == globals;
      while todo != {}
        invariant todo <= visitedGlobals
        invariant theModule.globals == Dropped(globals, visitedGlobals - todo)
        invariant theModule.leftover == leftover + Payloads(globals, visitedGlobals - todo)
      {
        var g :| g in todo;
        DroppedOneMore(globals, visitedGlobals - todo, g);
        OneMorePayload(globals, visitedGlobals - todo, g);
        assert visitedGlobals - (todo - {g}) == visitedGlobals - todo + {g};
        theModule.DropPayload(g);
        todo := todo - {g};
      }
    }

    /** The second pass; again in no particular order, which makes no difference. */
    method EraseUnused()
      requires visitedGlobals <= theModule.globals.Keys
      requires forall g | g in visitedGlobals :: Payload(theModule.globals[g]) == []
      modifies theModule
      ensures theModule.globals == old(theModule.globals) - Erasable(old(theModule.globals), visitedGlobals)
      ensures theModule.leftover == Unrelated(old(theModule.leftover), visitedGlobals)
    {
      ghost var globals, leftover := theModule.globals, theModule.leftover;
      ghost var erasable := Erasable(globals, visitedGlobals);
      var todo := visitedGlobals;
      assert globals - (erasable - todo) == globals;
      while todo != {}
        invariant todo <= visitedGlobals
        invariant theModule.globals == globals - (erasable - todo)
        invariant theModule.leftover == Unrelated(leftover, visitedGlobals - todo)
      {
        var g :| g in todo;
        OneMoreUnrelated(leftover, visitedGlobals - todo, g);
        assert visitedGlobals - (todo - {g}) == visitedGlobals - todo + {g};
        EraseOne(g, globals, erasable - todo);
        assert erasable - (todo - {g}) == if g in erasable then erasable - todo + {g} else erasable - todo;
        todo := todo - {g};
      }
      assert erasable - todo == erasable;
    }

    method EraseOne(g: Global, ghost globals: Globals, ghost gone: set<Global>)
      requires theModule.globals == globals - gone && g in theModule.globals
      requires forall h | h in gone && h in globals :: Payload(globals[h]) == []
      modifies theModule
      ensures theModule.globals ==
              if MayGo(globals[g]) && !IsReferredTo(globals, g) then globals - (gone + {g}) else globals - gone
      ensures theModule.leftover == set v | v in old(theModule.leftover) && !Mentions(v, g)
    {
      EmptyOnesDoNotMatter(globals, gone, g);
      var changed := theModule.RemoveUnusedGlobalValue(g);
      if theModule.HasUses(g) {
        return;
      }
      if !MayGo(theModule.globals[g]) {
        return;
      }
      theModule.EraseFromParent(g);
    }

    ghost function Abs(): Marks
      reads this
    {
      Marks(visitedGlobals, seenConstants)
    }

    method CollectAllUsesOfGlobals(g: Global)
      modifies this
      ensures Abs() == Collect(theModule.globals, g, old(Abs()))
      decreases |Unvisited(theModule.globals, visitedGlobals)|, 0
    {
      if g in visitedGlobals || g !in theModule.globals {
        return;
      }
      FewerUnvisited(theModule.globals, visitedGlobals, visitedGlobals + {g});
      visitedGlobals := visitedGlobals + {g};
      match theModule.globals[g]
      case Variable(_, initializer) =>
        MarkOptional(initializer);
      case Alias(_, aliasee) =>
        MarkOptional(aliasee);
      case Function(_, prefixData, body) =>
        PrefixFirst(theModule.globals, prefixData, body, Abs());
        MarkOptional(prefixData);
        FewerUnvisited(theModule.globals, old(visitedGlobals) + {g}, visitedGlobals);
        ScanBody(body);
      case Declaration(_) =>
    }

    method MarkOptional(v: Option<Value>)
      modifies this
      ensures Abs() == MarkAll(theModule.globals, Optional(v), old(Abs()))
      decreases |Unvisited(theModule.globals, visitedGlobals)|, 1, v
    {
      if v.Some? {
        MarkConstant(v.value);
      }
    }

    /** The operands of the instructions of a function, in order. */
    method ScanBody(operands: seq<Value>)
      modifies this
      ensures Abs() == MarkAll(theModule.globals, operands, old(Abs()))
      decreases |Unvisited(theModule.globals, visitedGlobals)|, 1, operands
    {
      ghost var start := visitedGlobals;
      ghost var goal := MarkAll(theModule.globals, operands, Abs());
      var i := 0;
      while i < |operands|
        invariant i <= |operands| && start <= visitedGlobals
        invariant MarkAll(theModule.globals, operands[i..], Abs()) == goal
      {
        FewerUnvisited(theModule.globals, start, visitedGlobals);
        assert operands[i..][1..] == operands[i + 1..];
        MarkConstant(operands[i]);
        i := i + 1;
      }
    }

    method MarkConstant(c: Value)
      modifies this
      ensures Abs() == Mark(theModule.globals, c, old(Abs()))
      decreases |Unvisited(theModule.globals, visitedGlobals)|, 1, c, 0
    {
      match c
      case Reference(g) =>
        CollectAllUsesOfGlobals(g);
      case Cast(operand) =>
        MarkOne(operand);
      case Aggregate(operands) =>
        MarkOperandsOf(operands);
      case NotConstant =>
    }

    method MarkOperandsOf(operands: seq<Value>)
      modifies this
      ensures Abs() == MarkOperands(theModule.globals, operands, old(Abs()))
      decreases |Unvisited(theModule.globals, visitedGlobals)|, 1, operands
    {
      ghost var start := visitedGlobals;
      ghost var goal := MarkOperands(theModule.globals, operands, Abs());
      var i := 0;
      while i < |operands|
        invariant i <= |operands| && start <= visitedGlobals
        invariant MarkOperands(theModule.globals, operands[i..], Abs()) == goal
      {
        FewerUnvisited(theModule.globals, start, visitedGlobals);
        assert operands[i..][1..] == operands[i + 1..];
        MarkOne(operands[i]);
        i := i + 1;
      }
    }

    method MarkOne(operand: Value)
      modifies this
      ensures Abs() == MarkOperand(theModule.globals, operand, old(Abs()))
      decreases |Unvisited(theModule.globals, visitedGlobals)|, 1, operand, 1
    {
      if operand != NotConstant && operand !in seenConstants {
        seenConstants := seenConstants + {operand};
        MarkConstant(operand);
      }
    }
  }

  lemma PrefixFirst(globals: Globals, prefixData: Option<Value>, body: seq<Value>, m: Marks)
    ensures MarkAll(globals, Optional(prefixData) + body, m) ==
            MarkAll(globals, body, MarkAll(globals, Optional(prefixData), m))
  {
    if prefixData.Some? {
      assert (Optional(prefixData) + body)[1..] == body;
    } else {
      assert Optional(prefixData) + body == body;
    }
  }
}
