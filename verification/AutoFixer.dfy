/** Declaring the variables of "auto auto" statements: a declaration is inserted in front of the
    statement while the list of statements is being walked. */
module AutoFixer {

  type DeclId = nat

  datatype Option<+T> = None | Some(value: T)

  /** A reference to a declaration, which may carry the "__Auto" annotation. */
  datatype Reference = Reference(decl: DeclId, isAuto: bool)

  /** A statement with the references in it, in the order of the traversal; or an inserted declaration. */
  datatype Stmt = Code(id: nat, references: seq<Reference>) | Declaration(decl: DeclId)

  function ReferencesOf(s: Stmt): seq<Reference> {
    if s.Code? then s.references else []
  }

  /** The first automatic variable in a list of references. */
  function FirstAuto(rs: seq<Reference>): Option<DeclId> {
    if rs == [] then None else if rs[0].isAuto then Some(rs[0].decl) else FirstAuto(rs[1..])
  }

  function AutoOf(s: Stmt): Option<DeclId> {
    FirstAuto(ReferencesOf(s))
  }

  /** The statement refers to the variable, which is automatic, and to no other automatic one before. */
  predicate IsFirstIn(s: Stmt, d: DeclId) {
    s.Code? && exists i | 0 <= i < |s.references| ::
      s.references[i] == Reference(d, true) && forall j | 0 <= j < i :: !s.references[j].isAuto
  }

  lemma {:induction false} FirstAutoExactly(rs: seq<Reference>, d: DeclId)
    ensures FirstAuto(rs) == Some(d) <==>
            exists i | 0 <= i < |rs| :: rs[i] == Reference(d, true) && forall j | 0 <= j < i :: !rs[j].isAuto
  {
    if rs == [] {
    } else if rs[0].isAuto {
      assert rs[0] == Reference(rs[0].decl, true);
    } else {
      var rest := rs[1..];
      FirstAutoExactly(rest, d);
      if FirstAuto(rest) == Some(d) {
        var i :| 0 <= i < |rest| && rest[i] == Reference(d, true) && forall j | 0 <= j < i :: !rest[j].isAuto;
        assert rs[i + 1] == rest[i] && forall j | 0 < j < i + 1 :: rs[j] == rest[j - 1];
      }
      if i :| 0 <= i < |rs| && rs[i] == Reference(d, true) && forall j | 0 <= j < i :: !rs[j].isAuto {
        assert rest[i - 1] == rs[i] && forall j | 0 <= j < i - 1 :: rest[j] == rs[j + 1];
      }
    }
  }

  /** The traversal of a statement finds its first automatic variable, or none if it has none. */
  lemma AutoOfExactly(s: Stmt, d: DeclId)
    ensures AutoOf(s) == Some(d) <==> IsFirstIn(s, d)
  {
    FirstAutoExactly(ReferencesOf(s), d);
  }

  // ---------- what is inserted where ----------

  /** For each statement the declaration to be put in front of it. */
  function Insertions(body: seq<Stmt>, handled: set<DeclId>): (ins: seq<Option<DeclId>>)
    ensures |ins| == |body|
  {
    if body == [] then []
    else
      var auto := AutoOf(body[0]);
      if auto.Some? && auto.value !in handled then [auto] + Insertions(body[1..], handled + {auto.value})
      else [None] + Insertions(body[1..], handled)
  }

  /** The statements with the declarations in front of them. */
  function Weave(body: seq<Stmt>, ins: seq<Option<DeclId>>): seq<Stmt>
    requires |ins| == |body|
  {
    if body == [] then []
    else (if ins[0].Some? then [Declaration(ins[0].value), body[0]] else [body[0]]) + Weave(body[1..], ins[1..])
  }

  function Autos(body: seq<Stmt>): set<DeclId> {
    set i | 0 <= i < |body| && AutoOf(body[i]).Some? :: AutoOf(body[i]).value
  }

  lemma AutosCons(body: seq<Stmt>)
    requires body != []
    ensures Autos(body) == (if AutoOf(body[0]).Some? then {AutoOf(body[0]).value} else {}) + Autos(body[1..])
  {
    forall d | d in Autos(body)
      ensures d in (if AutoOf(body[0]).Some? then {AutoOf(body[0]).value} else {}) + Autos(body[1..])
    {
      var i :| 0 <= i < |body| && AutoOf(body[i]) == Some(d);
      if i > 0 {
        assert body[1..][i - 1] == body[i];
      }
    }
    forall d | d in Autos(body[1..]) ensures d in Autos(body) {
      var i :| 0 <= i < |body[1..]| && AutoOf(body[1..][i]) == Some(d);
      assert body[i + 1] == body[1..][i];
    }
  }

  /** A declaration goes in front of exactly the statements whose first automatic variable has not been
      handled before the body and is not the first one of an earlier statement. */
  lemma {:induction false} InsertedExactlyOnce(body: seq<Stmt>, handled: set<DeclId>, i: nat)
    requires i < |body|
    ensures var auto := AutoOf(body[i]);
            Insertions(body, handled)[i] ==
            if auto.Some? && auto.value !in handled && auto.value !in Autos(body[..i]) then auto else None
    decreases i
  {
    var first := AutoOf(body[0]);
    if i == 0 {
      assert body[..0] == [];
    } else {
      var next := if first.Some? then handled + {first.value} else handled;
      assert next == handled || (first.Some? && next == handled + {first.value});
      InsertedExactlyOnce(body[1..], if first.Some? && first.value !in handled then next else handled, i - 1);
      assert body[..i][1..] == body[1..][..i - 1];
      AutosCons(body[..i]);
    }
  }

  /** Every statement's first automatic variable is declared before it or had been handled already. */
  lemma DeclaredBefore(body: seq<Stmt>, handled: set<DeclId>, i: nat)
    requires i < |body| && AutoOf(body[i]).Some? && AutoOf(body[i]).value !in handled
    ensures exists j | 0 <= j <= i :: Insertions(body, handled)[j] == AutoOf(body[i])
    decreases i
  {
    InsertedExactlyOnce(body, handled, i);
    if AutoOf(body[i]).value in Autos(body[..i]) {
      var j :| 0 <= j < i && AutoOf(body[..i][j]) == AutoOf(body[i]);
      assert body[..i][j] == body[j];
      DeclaredBefore(body, handled, j);
    }
  }

  /** Deleting the declarations that were inserted gives the original statements in order. */
  function Unweave(stmts: seq<Stmt>, ins: seq<Option<DeclId>>): seq<Stmt> {
    if ins == [] || |stmts| < 2 then stmts
    else if ins[0].Some? then [stmts[1]] + Unweave(stmts[2..], ins[1..])
    else [stmts[0]] + Unweave(stmts[1..], ins[1..])
  }

  lemma {:induction false} WeaveKeepsOriginals(body: seq<Stmt>, ins: seq<Option<DeclId>>)
    requires |ins| == |body|
    ensures Unweave(Weave(body, ins), ins) == body
    decreases |body|
  {
    if body != [] {
      var rest := Weave(body[1..], ins[1..]);
      WeaveKeepsOriginals(body[1..], ins[1..]);
      if ins[0].Some? {
        assert Weave(body, ins)[2..] == rest;
      } else {
        assert Weave(body, ins)[1..] == rest;
        WeaveLength(body[1..], ins[1..]);
      }
    }
  }

  function InsertionCount(ins: seq<Option<DeclId>>): nat {
    if ins == [] then 0 else (if ins[0].Some? then 1 else 0) + InsertionCount(ins[1..])
  }

  /** Where each statement comes to be, and that its declaration is directly in front of it. */
  lemma {:induction false} WeaveAt(body: seq<Stmt>, ins: seq<Option<DeclId>>, i: nat)
    requires |ins| == |body| && i < |body|
    ensures var at := i + InsertionCount(ins[..i + 1]);
            at < |Weave(body, ins)| && Weave(body, ins)[at] == body[i] &&
            (ins[i].Some? ==> at > 0 && Weave(body, ins)[at - 1] == Declaration(ins[i].value))
    decreases i
  {
    assert ins[..i + 1][1..] == ins[1..][..i];
    if i > 0 {
      WeaveAt(body[1..], ins[1..], i - 1);
    } else {
      assert ins[1..][..0] == [];
    }
  }

  lemma {:induction false} WeaveLength(body: seq<Stmt>, ins: seq<Option<DeclId>>)
    requires |ins| == |body|
    ensures |Weave(body, ins)| >= |body|
    ensures |Weave(body, ins)| == |body| <==> forall i | 0 <= i < |ins| :: ins[i].None?
    decreases |body|
  {
    if body != [] {
      WeaveLength(body[1..], ins[1..]);
      if |Weave(body, ins)| == |body| {
        forall i | 0 <= i < |ins| ensures ins[i].None? {
          if i > 0 {
            assert ins[i] == ins[1..][i - 1];
          }
        }
      }
    }
  }

  // ---------- the fixer ----------

  class AutoFixer {
    var foundDRE: Option<DeclId>
    var handledDecls: set<DeclId>

    constructor ()
      ensures handledDecls == {}
    {
      foundDRE, handledDecls := None, {};
    }

    /** Notes an annotated variable and then stops the traversal. */
    method VisitDeclRefExpr(r: Reference) returns (goOn: bool)
      modifies this`foundDRE
      ensures goOn == !r.isAuto
      ensures foundDRE == if r.isAuto then Some(r.decl) else old(foundDRE)
    {
      if r.isAuto {
        foundDRE := Some(r.decl);
        return false;
      }
      return true;
    }

    method TraverseStmt(s: Stmt) returns (finished: bool)
      modifies this`foundDRE
      ensures finished == AutoOf(s).None?
      ensures foundDRE == if finished then old(foundDRE) else AutoOf(s)
    {
      var rs := ReferencesOf(s);
      var i := 0;
      while i < |rs|
        invariant 0 <= i <= |rs| && foundDRE == old(foundDRE)
        invariant FirstAuto(rs) == FirstAuto(rs[i..])
      {
        var goOn := VisitDeclRefExpr(rs[i]);
        if !goOn {
          return false;
        }
        i := i + 1;
      }
      return true;
    }

    /** The new body, or none if nothing had to be inserted. */
    method Fix(body: seq<Stmt>) returns (r: Option<seq<Stmt>>)
      modifies this
      ensures var ins := Insertions(body, old(handledDecls));
              r == if forall i | 0 <= i < |ins| :: ins[i].None? then None else Some(Weave(body, ins))
      ensures handledDecls == old(handledDecls) + Autos(body)
    {
      if |body| == 0 {
        return None;
      }
      WeaveLength(body, Insertions(body, handledDecls));
      var stmts := WalkStatements(body);
      assert stmts == Weave(body, Insertions(body, old(handledDecls)));
      if |body| != |stmts| {
        return Some(stmts);
      }
      return None;
    }

    /** The list of statements grows while it is walked: an insertion is followed by a second look at the
        same statement. */
    method WalkStatements(body: seq<Stmt>) returns (stmts: seq<Stmt>)
      modifies this
      ensures stmts == Woven([], body, old(handledDecls))
      ensures handledDecls == old(handledDecls) + Autos(body)
    {
      stmts := body;
      var i := 0;
      ghost var rest, fixed := body, false;
      ghost var goal, all := Woven([], body, handledDecls), handledDecls + Autos(body);
      while i != |stmts|
        invariant 0 <= i <= |stmts| && stmts[i..] == rest
        invariant fixed ==> rest != [] && Unhandled(rest, handledDecls) == {}
        invariant Woven(stmts[..i], rest, handledDecls) == goal && handledDecls + Autos(rest) == all
        decreases |stmts| - i, if fixed then 0 else 1
      {
        var finished := TraverseStmt(stmts[i]);
        ghost var before := stmts[..i];
        if !finished && foundDRE.value !in handledDecls {
          InsertStep(before, rest, handledDecls);
          InsertAt(stmts, i, Declaration(foundDRE.value));
          stmts := stmts[..i] + [Declaration(foundDRE.value)] + stmts[i..];
          handledDecls := handledDecls + {foundDRE.value};
          fixed := true;
        } else {
          WalkStep(before, rest, handledDecls);
          MoveOn(stmts, i);
          rest, fixed := rest[1..], false;
        }
        i := i + 1;
      }
      WalkEnd(stmts, i, rest, handledDecls);
    }
  }

  /** The first automatic variable of the first statement, unless it has been handled. */
  function Unhandled(rest: seq<Stmt>, handled: set<DeclId>): set<DeclId>
    requires rest != []
  {
    if AutoOf(rest[0]).Some? && AutoOf(rest[0]).value !in handled then {AutoOf(rest[0]).value} else {}
  }

  lemma WalkEnd(stmts: seq<Stmt>, i: nat, rest: seq<Stmt>, handled: set<DeclId>)
    requires i == |stmts| && rest == []
    ensures Woven(stmts[..i], rest, handled) == stmts && handled + Autos(rest) == handled
  {
    assert stmts[..i] == stmts;
  }

  /** The statements that come out when the rest of the body has been walked. */
  function Woven(before: seq<Stmt>, rest: seq<Stmt>, handled: set<DeclId>): seq<Stmt> {
    before + Weave(rest, Insertions(rest, handled))
  }

  lemma InsertStep(before: seq<Stmt>, rest: seq<Stmt>, handled: set<DeclId>)
    requires rest != [] && AutoOf(rest[0]).Some? && AutoOf(rest[0]).value !in handled
    ensures var d := AutoOf(rest[0]).value;
            Woven(before + [Declaration(d)], rest, handled + {d}) == Woven(before, rest, handled) &&
            Unhandled(rest, handled + {d}) == {} &&
            handled + {d} + Autos(rest) == handled + Autos(rest)
  {
    var d := AutoOf(rest[0]).value;
    var more := Insertions(rest[1..], handled + {d});
    var behind := Weave(rest[1..], more);
    WeaveCons(rest, Some(d), more);
    WeaveCons(rest, None, more);
    assert Insertions(rest, handled) == [Some(d)] + more;
    assert Insertions(rest, handled + {d}) == [None] + more;
    assert before + ([Declaration(d), rest[0]] + behind) == before + [Declaration(d)] + ([rest[0]] + behind);
    AutosCons(rest);
  }

  lemma WeaveCons(rest: seq<Stmt>, first: Option<DeclId>, more: seq<Option<DeclId>>)
    requires rest != [] && |more| == |rest| - 1
    ensures Weave(rest, [first] + more) ==
            (if first.Some? then [Declaration(first.value), rest[0]] else [rest[0]]) + Weave(rest[1..], more)
  {
    assert ([first] + more)[1..] == more;
  }

  lemma WalkStep(before: seq<Stmt>, rest: seq<Stmt>, handled: set<DeclId>)
    requires rest != [] && (AutoOf(rest[0]).Some? ==> AutoOf(rest[0]).value in handled)
    ensures Woven(before + [rest[0]], rest[1..], handled) == Woven(before, rest, handled)
    ensures handled + Autos(rest[1..]) == handled + Autos(rest)
  {
    var more := Insertions(rest[1..], handled);
    WeaveCons(rest, None, more);
    assert Insertions(rest, handled) == [None] + more;
    assert before + ([rest[0]] + Weave(rest[1..], more)) == before + [rest[0]] + Weave(rest[1..], more);
    AutosCons(rest);
  }

  lemma InsertAt<T>(s: seq<T>, i: nat, x: T)
    requires i <= |s|
    ensures var t := s[..i] + [x] + s[i..]; t[..i + 1] == s[..i] + [x] && t[i + 1..] == s[i..]
  {
  }

  lemma MoveOn<T>(s: seq<T>, i: nat)
    requires i < |s|
    ensures s[..i + 1] == s[..i] + [s[i]] && s[i + 1..] == s[i..][1..]
  {
  }

  // ---------- the lifetime of a fixer ----------

  /** The declarations inserted by fixing one body after the other. */
  function InsertedOver(bodies: seq<seq<Stmt>>, handled: set<DeclId>): seq<DeclId> {
    if bodies == [] then []
    else Inserted(Insertions(bodies[0], handled)) + InsertedOver(bodies[1..], handled + Autos(bodies[0]))
  }

  function Inserted(ins: seq<Option<DeclId>>): seq<DeclId> {
    if ins == [] then [] else (if ins[0].Some? then [ins[0].value] else []) + Inserted(ins[1..])
  }

  ghost predicate Distinct(ds: seq<DeclId>) {
    forall i, j | 0 <= i < j < |ds| :: ds[i] != ds[j]
  }

  lemma DistinctConcat(a: seq<DeclId>, b: seq<DeclId>)
    requires Distinct(a) && Distinct(b) && forall d | d in a :: d !in b
    ensures Distinct(a + b) && forall d :: d in a + b <==> d in a || d in b
  {
    forall i, j | 0 <= i < j < |a + b| ensures (a + b)[i] != (a + b)[j] {
      if i < |a| <= j {
        assert a[i] in a && b[j - |a|] in b;
      }
    }
  }

  lemma {:induction false} InsertedOnce(body: seq<Stmt>, handled: set<DeclId>)
    ensures var ds := Inserted(Insertions(body, handled));
            Distinct(ds) && forall d :: d in ds <==> d in Autos(body) && d !in handled
    decreases |body|
  {
    if body != [] {
      var auto := AutoOf(body[0]);
      AutosCons(body);
      if auto.Some? && auto.value !in handled {
        InsertedOnce(body[1..], handled + {auto.value});
        var more := Insertions(body[1..], handled + {auto.value});
        assert ([auto] + more)[1..] == more;
      } else {
        InsertedOnce(body[1..], handled);
        var more := Insertions(body[1..], handled);
        assert ([None] + more)[1..] == more;
      }
    }
  }

  /** No variable is declared twice while the fixer lives. */
  lemma {:induction false} NeverDeclaredTwice(bodies: seq<seq<Stmt>>, handled: set<DeclId>)
    ensures Distinct(InsertedOver(bodies, handled))
    ensures forall d | d in InsertedOver(bodies, handled) :: d !in handled
    decreases |bodies|
  {
    if bodies != [] {
      InsertedOnce(bodies[0], handled);
      NeverDeclaredTwice(bodies[1..], handled + Autos(bodies[0]));
      var now, later := Inserted(Insertions(bodies[0], handled)), InsertedOver(bodies[1..], handled + Autos(bodies[0]));
      forall d | d in now ensures d !in later {
        assert d in Autos(bodies[0]);
      }
      DistinctConcat(now, later);
    }
  }

  ghost predicate AllAutosIn(body: seq<Stmt>, decls: set<DeclId>) {
    forall i, r | 0 <= i < |body| && r in ReferencesOf(body[i]) && r.isAuto :: r.decl in decls
  }

  ghost predicate IsFirstAuto(body: seq<Stmt>, d: DeclId) {
    exists j | 0 <= j < |body| :: IsFirstIn(body[j], d)
  }

  /** After fixing a body all automatic variables in it are handled exactly when, for each of them, it was
      handled before or it is the first one of some statement. */
  lemma AllHandled(body: seq<Stmt>, handled: set<DeclId>)
    ensures AllAutosIn(body, handled + Autos(body)) <==> AllFirstOrHandled(body, handled)
  {
    forall d ensures d in Autos(body) <==> IsFirstAuto(body, d) {
      forall j | 0 <= j < |body| ensures AutoOf(body[j]) == Some(d) <==> IsFirstIn(body[j], d) {
        AutoOfExactly(body[j], d);
      }
      if j :| 0 <= j < |body| && AutoOf(body[j]) == Some(d) {
        assert AutoOf(body[j]).value in Autos(body);
      }
    }
  }

  ghost predicate AllFirstOrHandled(body: seq<Stmt>, handled: set<DeclId>) {
    forall i, r | 0 <= i < |body| && r in ReferencesOf(body[i]) && r.isAuto ::
      r.decl in handled || IsFirstAuto(body, r.decl)
  }

  /** A second variable behind one that is handled already is never declared. */
  lemma SecondVariableIsMissed()
    ensures var s := Code(0, [Reference(1, true), Reference(2, true)]);
            Insertions([s], {1}) == [None] && 2 !in {1} + Autos([s])
  {
    var s := Code(0, [Reference(1, true), Reference(2, true)]);
    assert AutoOf(s) == Some(1);
  }
}
