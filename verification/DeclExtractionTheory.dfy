/** What extraction does to the meaning of a wrapper, and that the names it makes up are all different. */
module DeclExtractionTheory {

  import opened Decimals
  import opened DeclExtraction

  // ---------- the meaning of the extracted program ----------

  /** The final store of the extracted program: the emitted declarations are initialised in order, then
      what is left in the wrapper runs. */
  function ExtractedRun(body: seq<Stmt>, counter: nat, g: Globals): Store {
    var x := AfterBody(Extraction([], [], counter), body);
    RunBody(x.pending, RunGlobals(x.emitted, g).store).store
  }

  ghost predicate HasNamed(stmt: Stmt) {
    stmt.DeclStmt? && exists d | d in stmt.decls :: d.Variable? || d.OtherNamed?
  }

  /** The body from the next declaration on. */
  ghost function FromNextDecl(body: seq<Stmt>): (r: seq<Stmt>)
    ensures |r| <= |body|
    decreases |body|
  {
    if body == [] || HasNamed(body[0]) then body else FromNextDecl(body[1..])
  }

  /** The body run so that a return only skips to the next declaration. */
  ghost function SkippingRun(body: seq<Stmt>, s: Store): Store
    decreases |body|
  {
    if body == [] then s
    else
      var o := RunStmt(body[0], s);
      SkippingRun(if o.Continues? then body[1..] else FromNextDecl(body[1..]), o.store)
  }

  // ---------- extraction preserves the skipping run ----------

  /** Where the extracted program will be after initialising what has been emitted and running what is
      waiting. */
  function Reached(x: Extraction, g: Globals): Outcome {
    RunBody(x.pending, RunGlobals(x.emitted, g).store)
  }

  lemma {:induction false} RunBodyConcat(a: seq<Stmt>, b: seq<Stmt>, s: Store)
    ensures RunBody(a + b, s) == var o := RunBody(a, s); if o.Returns? then o else RunBody(b, o.store)
    decreases |a|
  {
    if a == [] {
      assert a + b == b;
    } else {
      assert (a + b)[1..] == a[1..] + b;
      var o := RunStmt(a[0], s);
      if o.Continues? {
        RunBodyConcat(a[1..], b, o.store);
      }
    }
  }

  /** A function completed by a return does to the store what its statements do. */
  lemma CompletedRuns(stmts: seq<Stmt>, s: Store)
    requires stmts != []
    ensures RunBody(Completed(stmts), s).store == RunBody(stmts, s).store
  {
    if !stmts[|stmts| - 1].Return? {
      RunBodyConcat(stmts, [Return(s => s)], s);
    }
  }

  lemma RunGlobalsAppend(ds: seq<Global>, d: Global, g: Globals)
    ensures RunGlobals(ds + [d], g) == RunGlobal(d, RunGlobals(ds, g))
  {
    assert (ds + [d])[..|ds|] == ds;
  }

  /** Flushing runs what was waiting, and whether it returned is forgotten. */
  lemma FlushRuns(x: Extraction, g: Globals)
    ensures RunGlobals(Flushed(x).emitted, g).store == Reached(x, g).store
  {
    if x.pending != [] {
      var f := Function(FunctionName(x.counter), Completed(x.pending));
      var v := InitVariable(VariableName(x.counter + 1), FunctionName(x.counter));
      assert x.emitted + [f, v] == x.emitted + [f] + [v];
      RunGlobalsAppend(x.emitted, f, g);
      RunGlobalsAppend(x.emitted + [f], v, g);
      CompletedRuns(x.pending, RunGlobals(x.emitted, g).store);
    }
  }

  /** A declaration takes effect where the extracted program has got to, return or not. */
  lemma DeclRuns(x: Extraction, d: Decl, g: Globals)
    requires IsNamed(d)
    ensures Reached(AfterDecl(x, d), g) == Continues(RunLocal(d, Reached(x, g).store))
  {
    FlushRuns(x, g);
    RunGlobalsAppend(Flushed(x).emitted, Moved(d), g);
  }

  lemma {:induction false} DeclsRun(x: Extraction, ds: seq<Decl>, g: Globals)
    requires Reached(x, g).Continues? || exists d | d in ds :: IsNamed(d)
    ensures Reached(AfterDecls(x, ds), g) == Continues(RunLocals(ds, Reached(x, g).store))
    decreases |ds|
  {
    if ds != [] {
      if IsNamed(ds[0]) {
        DeclRuns(x, ds[0], g);
      }
      DeclsRun(AfterDecl(x, ds[0]), ds[1..], g);
    }
  }

  lemma {:induction false} UnnamedDeclsDoNothing(x: Extraction, ds: seq<Decl>, s: Store)
    requires forall d | d in ds :: !IsNamed(d)
    ensures AfterDecls(x, ds) == x && RunLocals(ds, s) == s
    decreases |ds|
  {
    if ds != [] {
      UnnamedDeclsDoNothing(x, ds[1..], s);
    }
  }

  /** While the extracted program goes on, a statement does to it what it does to the original. */
  lemma StmtRuns(x: Extraction, stmt: Stmt, g: Globals)
    requires Reached(x, g).Continues? || HasNamed(stmt)
    ensures Reached(AfterStmt(x, stmt), g) == RunStmt(stmt, Reached(x, g).store)
  {
    if stmt.DeclStmt? {
      DeclsRun(x, stmt.decls, g);
    } else {
      RunBodyConcat(x.pending, [stmt], RunGlobals(x.emitted, g).store);
    }
  }

  /** Once it has returned, nothing happens until a declaration comes. */
  lemma StmtSkipped(x: Extraction, stmt: Stmt, g: Globals)
    requires Reached(x, g).Returns? && !HasNamed(stmt)
    ensures Reached(AfterStmt(x, stmt), g) == Reached(x, g)
  {
    if stmt.DeclStmt? {
      UnnamedDeclsDoNothing(x, stmt.decls, map[]);
    } else {
      RunBodyConcat(x.pending, [stmt], RunGlobals(x.emitted, g).store);
    }
  }

  lemma {:induction false} BodyRuns(x: Extraction, body: seq<Stmt>, g: Globals)
    ensures Reached(AfterBody(x, body), g).store ==
            SkippingRun(if Reached(x, g).Continues? then body else FromNextDecl(body), Reached(x, g).store)
    decreases |body|
  {
    if body != [] {
      if Reached(x, g).Continues? || HasNamed(body[0]) {
        StmtRuns(x, body[0], g);
      } else {
        StmtSkipped(x, body[0], g);
      }
      BodyRuns(AfterStmt(x, body[0]), body[1..], g);
    }
  }

  /** The meaning of extraction, for every body and every store: the extracted program does what the
      body does when a return only skips to the next declaration. */
  lemma ExtractionMeans(body: seq<Stmt>, counter: nat, g: Globals)
    ensures ExtractedRun(body, counter, g) == SkippingRun(body, g.store)
  {
    BodyRuns(Extraction([], [], counter), body, g);
  }

  // ---------- when that is the original meaning ----------

  /** Nothing that runs before the last declaration returns. */
  ghost predicate ReturnsLate(body: seq<Stmt>, s: Store)
    decreases |body|
  {
    FromNextDecl(body) == [] ||
    (RunStmt(body[0], s).Continues? && ReturnsLate(body[1..], RunStmt(body[0], s).store))
  }

  /** The body from the next declaration after the first return on, and the store at that return. */
  ghost function AfterReturn(body: seq<Stmt>, s: Store): (r: (seq<Stmt>, Store))
    decreases |body|
  {
    if body == [] then ([], s)
    else
      var o := RunStmt(body[0], s);
      if o.Continues? then AfterReturn(body[1..], o.store) else (FromNextDecl(body[1..]), o.store)
  }

  lemma {:induction false} SkippingAfterReturn(body: seq<Stmt>, s: Store)
    ensures SkippingRun(body, s) == SkippingRun(AfterReturn(body, s).0, AfterReturn(body, s).1)
    ensures RunBody(body, s).store == AfterReturn(body, s).1
    decreases |body|
  {
    if body != [] {
      var o := RunStmt(body[0], s);
      if o.Continues? {
        SkippingAfterReturn(body[1..], o.store);
      }
    }
  }

  lemma {:induction false} LateReturnLeavesNothing(body: seq<Stmt>, s: Store)
    requires ReturnsLate(body, s)
    ensures AfterReturn(body, s).0 == []
    decreases |body|
  {
    if body != [] {
      var o := RunStmt(body[0], s);
      if FromNextDecl(body) == [] {
        NoDeclLater(body, s);
      } else if o.Continues? {
        LateReturnLeavesNothing(body[1..], o.store);
      }
    }
  }

  lemma {:induction false} NoDeclLater(body: seq<Stmt>, s: Store)
    requires FromNextDecl(body) == []
    ensures AfterReturn(body, s).0 == []
    decreases |body|
  {
    if body != [] {
      assert FromNextDecl(body[1..]) == [];
      var o := RunStmt(body[0], s);
      if o.Continues? {
        NoDeclLater(body[1..], o.store);
      }
    }
  }

  /** When nothing before the last declaration returns, the extracted program ends with the store that
      the original body ends with. */
  lemma ExtractionPreservesMeaning(body: seq<Stmt>, counter: nat, g: Globals)
    requires ReturnsLate(body, g.store)
    ensures ExtractedRun(body, counter, g) == RunBody(body, g.store).store
  {
    ExtractionMeans(body, counter, g);
    SkippingAfterReturn(body, g.store);
    LateReturnLeavesNothing(body, g.store);
  }

  /** Exactly: it does so if and only if what comes from the next declaration after the first return on
      has no effect. */
  lemma ExtractionPreservesMeaningExactly(body: seq<Stmt>, counter: nat, g: Globals)
    ensures var (rest, s) := AfterReturn(body, g.store);
            ExtractedRun(body, counter, g) == RunBody(body, g.store).store <==> SkippingRun(rest, s) == s
  {
    ExtractionMeans(body, counter, g);
    SkippingAfterReturn(body, g.store);
  }

  lemma {:induction false} NextDeclBefore(front: seq<Stmt>, decl: Stmt)
    requires HasNamed(decl)
    ensures FromNextDecl(front + [decl]) == FromNextDecl(front) + [decl]
    decreases |front|
  {
    if front != [] && !HasNamed(front[0]) {
      assert (front + [decl])[1..] == front[1..] + [decl];
      NextDeclBefore(front[1..], decl);
    } else {
      assert [] + [decl] == [decl];
    }
  }

  /** A declaration at the end is reached whatever returns before it. */
  lemma {:induction false} SkippingReachesDecl(front: seq<Stmt>, decl: Stmt, s: Store)
    requires HasNamed(decl)
    ensures SkippingRun(front + [decl], s) == RunLocals(decl.decls, SkippingRun(front, s))
    decreases |front|
  {
    if front == [] {
      assert [] + [decl] == [decl] && [decl][1..] == [];
    } else {
      var o, rest := RunStmt(front[0], s), front[1..];
      assert (front + [decl])[0] == front[0] && (front + [decl])[1..] == rest + [decl];
      NextDeclBefore(rest, decl);
      SkippingReachesDecl(if o.Continues? then rest else FromNextDecl(rest), decl, o.store);
    }
  }

  /** No early return is harmless: whatever returns, a variable declared behind it gets a value that makes
      a difference, for some initialiser. */
  lemma EarlyReturnMatters(front: seq<Stmt>, name: string, counter: nat, g: Globals) returns (init: Store -> int)
    requires RunBody(front, g.store).Returns?
    ensures var body := front + [DeclStmt([Variable(name, init)])];
            ExtractedRun(body, counter, g) != RunBody(body, g.store).store
  {
    var s := RunBody(front, g.store).store;
    var value := if name in s then s[name] + 1 else 0;
    init := _ => value;
    var x := Variable(name, init);
    var decl := DeclStmt([x]);
    assert x in [x] && HasNamed(decl) && [x][1..] == [];
    ExtractionMeans(front + [decl], counter, g);
    SkippingReachesDecl(front, decl, g.store);
    RunBodyConcat(front, [decl], g.store);
    assert RunLocals([x], SkippingRun(front, g.store)) == RunLocal(x, SkippingRun(front, g.store));
  }

  /** A body that returns early: the variable after the return gets a value all the same. */
  lemma EarlyReturnIsIgnored(counter: nat)
    ensures var body := [Return(s => s), DeclStmt([Variable("x", s => 1)])];
            var g := Globals(map[], map[]);
            RunBody(body, g.store).store == map[] && ExtractedRun(body, counter, g) == map["x" := 1]
  {
    var x := Variable("x", s => 1);
    var body := [Return(s => s), DeclStmt([x])];
    var g := Globals(map[], map[]);
    ExtractionMeans(body, counter, g);
    var s := RunStmt(body[0], g.store).store;
    assert body[1..] == [DeclStmt([x])];
    assert x in [x] && HasNamed(body[1]);
    assert FromNextDecl(body[1..]) == body[1..];
    assert [x][1..] == [] && RunLocals([x], s) == s["x" := 1];
    assert body[1..][1..] == [];
  }

  // ---------- nothing is lost ----------

  /** The declarations among what was emitted. */
  function MovedDecls(ds: seq<Global>): seq<Decl> {
    if ds == [] then []
    else
      var last := ds[|ds| - 1];
      MovedDecls(ds[..|ds| - 1]) + if last.Moved? then [last.decl] else []
  }

  function FunctionBodies(ds: seq<Global>): seq<seq<Stmt>> {
    if ds == [] then []
    else
      var last := ds[|ds| - 1];
      FunctionBodies(ds[..|ds| - 1]) + if last.Function? then [last.body] else []
  }

  lemma EmitsOne(ds: seq<Global>, d: Global)
    ensures MovedDecls(ds + [d]) == MovedDecls(ds) + if d.Moved? then [d.decl] else []
    ensures FunctionBodies(ds + [d]) == FunctionBodies(ds) + if d.Function? then [d.body] else []
  {
    assert (ds + [d])[..|ds|] == ds;
  }

  /** The statements that declare nothing. */
  function Statements(body: seq<Stmt>): seq<Stmt> {
    if body == [] then []
    else
      var last := body[|body| - 1];
      Statements(body[..|body| - 1]) + if last.DeclStmt? then [] else [last]
  }

  function Flat(parts: seq<seq<Stmt>>): seq<Stmt> {
    if parts == [] then [] else Flat(parts[..|parts| - 1]) + parts[|parts| - 1]
  }

  /** The function has the statements as its body, with a return behind them if they do not end in one. */
  ghost predicate IsBodyOf(f: seq<Stmt>, part: seq<Stmt>) {
    part != [] &&
    if part[|part| - 1].Return? then f == part
    else |f| == |part| + 1 && f[..|part|] == part && f[|part|].Return? && forall s :: f[|part|].value(s) == s
  }

  /** The statements are, in order, in the emitted functions, part by part, and then among those that wait. */
  ghost predicate Gathered(x: Extraction, parts: seq<seq<Stmt>>, stmts: seq<Stmt>) {
    var bodies := FunctionBodies(x.emitted);
    |bodies| == |parts| && (forall i | 0 <= i < |parts| :: IsBodyOf(bodies[i], parts[i])) &&
    Flat(parts) + x.pending == stmts
  }

  lemma FlushKeeps(x: Extraction, parts: seq<seq<Stmt>>, stmts: seq<Stmt>) returns (more: seq<seq<Stmt>>)
    requires Gathered(x, parts, stmts)
    ensures Gathered(Flushed(x), more, stmts) && MovedDecls(Flushed(x).emitted) == MovedDecls(x.emitted)
    ensures Flushed(x).pending == []
  {
    more := parts;
    if x.pending != [] {
      more := parts + [x.pending];
      PairKeeps(x, Function(FunctionName(x.counter), Completed(x.pending)),
                InitVariable(VariableName(x.counter + 1), FunctionName(x.counter)), x.counter + 2, parts, stmts);
    }
  }

  /** A function with the waiting statements and the variable behind it. */
  lemma PairKeeps(x: Extraction, f: Global, v: Global, counter: nat, parts: seq<seq<Stmt>>, stmts: seq<Stmt>)
    requires Gathered(x, parts, stmts) && x.pending != []
    requires f.Function? && f.body == Completed(x.pending) && v.InitVariable?
    ensures Gathered(Extraction(x.emitted + [f, v], [], counter), parts + [x.pending], stmts)
    ensures MovedDecls(x.emitted + [f, v]) == MovedDecls(x.emitted)
  {
    var more := parts + [x.pending];
    assert x.emitted + [f, v] == x.emitted + [f] + [v];
    EmitsOne(x.emitted, f);
    EmitsOne(x.emitted + [f], v);
    assert more[..|parts|] == parts;
  }

  lemma DeclKept(x: Extraction, d: Decl, parts: seq<seq<Stmt>>, stmts: seq<Stmt>) returns (more: seq<seq<Stmt>>)
    requires Gathered(x, parts, stmts)
    ensures Gathered(AfterDecl(x, d), more, stmts)
    ensures MovedDecls(AfterDecl(x, d).emitted) == MovedDecls(x.emitted) + DeclaredBy([d])
  {
    more := parts;
    assert [d][..0] == [];
    if IsNamed(d) {
      more := FlushKeeps(x, parts, stmts);
      EmitsOne(Flushed(x).emitted, Moved(d));
    }
  }

  lemma {:induction false} DeclaredByConcat(a: seq<Decl>, b: seq<Decl>)
    ensures DeclaredBy(a + b) == DeclaredBy(a) + DeclaredBy(b)
    decreases |b|
  {
    if b == [] {
      assert a + b == a;
    } else {
      assert (a + b)[..|a + b| - 1] == a + b[..|b| - 1];
      DeclaredByConcat(a, b[..|b| - 1]);
    }
  }

  lemma {:induction false} BodyConcat(a: seq<Stmt>, b: seq<Stmt>)
    ensures Declared(a + b) == Declared(a) + Declared(b) && Statements(a + b) == Statements(a) + Statements(b)
    decreases |b|
  {
    if b == [] {
      assert a + b == a;
    } else {
      assert (a + b)[..|a + b| - 1] == a + b[..|b| - 1];
      BodyConcat(a, b[..|b| - 1]);
    }
  }

  lemma {:induction false} DeclsKept(x: Extraction, ds: seq<Decl>, parts: seq<seq<Stmt>>, stmts: seq<Stmt>)
    returns (more: seq<seq<Stmt>>)
    requires Gathered(x, parts, stmts)
    ensures Gathered(AfterDecls(x, ds), more, stmts)
    ensures MovedDecls(AfterDecls(x, ds).emitted) == MovedDecls(x.emitted) + DeclaredBy(ds)
    decreases |ds|
  {
    more := parts;
    if ds != [] {
      assert [ds[0]] + ds[1..] == ds;
      DeclaredByConcat([ds[0]], ds[1..]);
      more := DeclKept(x, ds[0], parts, stmts);
      more := DeclsKept(AfterDecl(x, ds[0]), ds[1..], more, stmts);
    }
  }

  lemma StmtKept(x: Extraction, stmt: Stmt, parts: seq<seq<Stmt>>, stmts: seq<Stmt>) returns (more: seq<seq<Stmt>>)
    requires Gathered(x, parts, stmts)
    ensures Gathered(AfterStmt(x, stmt), more, stmts + Statements([stmt]))
    ensures MovedDecls(AfterStmt(x, stmt).emitted) == MovedDecls(x.emitted) + Declared([stmt])
  {
    OneStatement(stmt);
    if stmt.DeclStmt? {
      more := DeclsKept(x, stmt.decls, parts, stmts);
      assert stmts + [] == stmts;
    } else {
      more := parts;
      Associated(Flat(parts), x.pending, [stmt]);
      assert MovedDecls(x.emitted) + [] == MovedDecls(x.emitted);
    }
  }

  lemma OneStatement(stmt: Stmt)
    ensures Statements([stmt]) == if stmt.DeclStmt? then [] else [stmt]
    ensures Declared([stmt]) == if stmt.DeclStmt? then DeclaredBy(stmt.decls) else []
  {
    assert [stmt][..0] == [];
  }

  lemma Associated<T>(a: seq<T>, b: seq<T>, c: seq<T>)
    ensures (a + b) + c == a + (b + c)
  {
  }

  lemma {:induction false} BodyKept(x: Extraction, body: seq<Stmt>, parts: seq<seq<Stmt>>, stmts: seq<Stmt>)
    returns (more: seq<seq<Stmt>>)
    requires Gathered(x, parts, stmts)
    ensures Gathered(AfterBody(x, body), more, stmts + Statements(body))
    ensures MovedDecls(AfterBody(x, body).emitted) == MovedDecls(x.emitted) + Declared(body)
    decreases |body|
  {
    more := parts;
    if body != [] {
      var first, rest := [body[0]], body[1..];
      FirstApart(body);
      more := StmtKept(x, body[0], parts, stmts);
      more := BodyKept(AfterStmt(x, body[0]), rest, more, stmts + Statements(first));
      Associated(stmts, Statements(first), Statements(rest));
      Associated(MovedDecls(x.emitted), Declared(first), Declared(rest));
    } else {
      assert stmts + [] == stmts && MovedDecls(x.emitted) + [] == MovedDecls(x.emitted);
    }
  }

  lemma FirstApart(body: seq<Stmt>)
    requires body != []
    ensures Statements(body) == Statements([body[0]]) + Statements(body[1..])
    ensures Declared(body) == Declared([body[0]]) + Declared(body[1..])
  {
    assert [body[0]] + body[1..] == body;
    BodyConcat([body[0]], body[1..]);
  }

  /** Extraction loses nothing and adds nothing: the declarations that are moved are those of the body, in
      order, and every other statement is, in order, in one of the emitted functions or in what is left of
      the body. */
  lemma ExtractionKeepsAll(body: seq<Stmt>, counter: nat) returns (parts: seq<seq<Stmt>>)
    ensures var x := AfterBody(Extraction([], [], counter), body);
            MovedDecls(x.emitted) == Declared(body) && Gathered(x, parts, Statements(body))
  {
    parts := BodyKept(Extraction([], [], counter), body, [], []);
  }

  // ---------- the names ----------

  lemma NamesDiffer(p: string, m: nat, q: string, n: nat)
    requires |p| == |q| > 0 && UniqueName(p, m) == UniqueName(q, n)
    ensures p == q && m == n
  {
    var s := UniqueName(p, m);
    assert s[..|p|] == p && s[..|p|] == q;
    var l := |p| + |ORDER_SUFFIX|;
    assert s[l..] == Decimal(m);
    assert s[l..] == Decimal(n);
    DecimalInjective(m, n);
  }

  /** The names that were made up. */
  function Synthesized(ds: seq<Global>): seq<string> {
    if ds == [] then []
    else
      var init, last := Synthesized(ds[..|ds| - 1]), ds[|ds| - 1];
      if last.Function? || last.InitVariable? then init + [last.name] else init
  }

  lemma {:induction false} SynthesizedConcat(a: seq<Global>, b: seq<Global>)
    ensures Synthesized(a + b) == Synthesized(a) + Synthesized(b)
    decreases |b|
  {
    if b == [] {
      assert a + b == a;
    } else {
      assert (a + b)[..|a + b| - 1] == a + b[..|b| - 1];
      SynthesizedConcat(a, b[..|b| - 1]);
    }
  }

  /** The `i`-th name of a run of names that starts with the number `first`. */
  function NumberedName(first: nat, i: nat): string {
    if i % 2 == 0 then FunctionName(first + i) else VariableName(first + i)
  }

  /** The made-up names are numbered on from `first`. */
  predicate AreNumbered(names: seq<string>, first: nat, next: nat) {
    |names| == next - first && |names| % 2 == 0 && forall i | 0 <= i < |names| :: names[i] == NumberedName(first, i)
  }

  lemma NumberedConcat(a: seq<string>, b: seq<string>, first: nat, middle: nat, next: nat)
    requires AreNumbered(a, first, middle) && AreNumbered(b, middle, next)
    ensures AreNumbered(a + b, first, next)
  {
    forall i | 0 <= i < |a + b|
      ensures (a + b)[i] == NumberedName(first, i)
    {
      if i >= |a| {
        SameNumber(first, middle, i);
        NumberedAt(b, middle, next, i - |a|);
      } else {
        NumberedAt(a, first, middle, i);
      }
    }
  }

  lemma NumberedAt(names: seq<string>, first: nat, next: nat, i: nat)
    requires AreNumbered(names, first, next) && i < |names|
    ensures names[i] == NumberedName(first, i)
  {
  }

  lemma SameNumber(first: nat, middle: nat, i: nat)
    requires first <= middle && (middle - first) % 2 == 0 && i >= middle - first
    ensures NumberedName(first, i) == NumberedName(middle, i - (middle - first))
  {
  }

  lemma FlushedPair(x: Extraction)
    requires x.pending != []
    ensures Synthesized(Flushed(x).emitted) ==
              Synthesized(x.emitted) + [FunctionName(x.counter), VariableName(x.counter + 1)]
  {
    var f := Function(FunctionName(x.counter), Completed(x.pending));
    var v := InitVariable(VariableName(x.counter + 1), FunctionName(x.counter));
    SynthesizedConcat(x.emitted, [f, v]);
    assert [f, v][..1] == [f] && [f][..0] == [];
    assert Synthesized([f]) == [f.name];
  }

  lemma FlushedNames(x: Extraction, first: nat)
    requires first <= x.counter && AreNumbered(Synthesized(x.emitted), first, x.counter)
    ensures AreNumbered(Synthesized(Flushed(x).emitted), first, Flushed(x).counter)
  {
    if x.pending != [] {
      FlushedPair(x);
      var pair := [NumberedName(x.counter, 0), NumberedName(x.counter, 1)];
      assert AreNumbered(pair, x.counter, x.counter + 2);
      NumberedConcat(Synthesized(x.emitted), pair, first, x.counter, x.counter + 2);
    }
  }

  lemma {:induction false} DeclsNames(x: Extraction, ds: seq<Decl>, first: nat)
    requires first <= x.counter && AreNumbered(Synthesized(x.emitted), first, x.counter)
    ensures AreNumbered(Synthesized(AfterDecls(x, ds).emitted), first, AfterDecls(x, ds).counter)
    decreases |ds|
  {
    if ds != [] {
      if IsNamed(ds[0]) {
        FlushedNames(x, first);
        SynthesizedConcat(Flushed(x).emitted, [Moved(ds[0])]);
        assert Synthesized([Moved(ds[0])]) == [];
      }
      DeclsNames(AfterDecl(x, ds[0]), ds[1..], first);
    }
  }

  /** However many bodies are extracted, the names made up are numbered on, so they are all different. */
  lemma {:induction false} BodyNames(x: Extraction, body: seq<Stmt>, first: nat)
    requires first <= x.counter && AreNumbered(Synthesized(x.emitted), first, x.counter)
    ensures AreNumbered(Synthesized(AfterBody(x, body).emitted), first, AfterBody(x, body).counter)
    decreases |body|
  {
    if body != [] {
      if body[0].DeclStmt? {
        DeclsNames(x, body[0].decls, first);
      }
      BodyNames(AfterStmt(x, body[0]), body[1..], first);
    }
  }

  /** All that is emitted for a list of wrappers extracted one after the other. */
  function EmittedBy(bodies: seq<seq<Stmt>>, counter: nat): seq<Global>
    decreases |bodies|
  {
    if bodies == [] then []
    else
      var x := AfterBody(Extraction([], [], counter), bodies[0]);
      x.emitted + EmittedBy(bodies[1..], x.counter)
  }

  lemma {:induction false} RunNames(bodies: seq<seq<Stmt>>, counter: nat) returns (next: nat)
    ensures counter <= next && AreNumbered(Synthesized(EmittedBy(bodies, counter)), counter, next)
    decreases |bodies|
  {
    if bodies == [] {
      next := counter;
    } else {
      var x := AfterBody(Extraction([], [], counter), bodies[0]);
      BodyNames(Extraction([], [], counter), bodies[0], counter);
      next := RunNames(bodies[1..], x.counter);
      SynthesizedConcat(x.emitted, EmittedBy(bodies[1..], x.counter));
      NumberedConcat(Synthesized(x.emitted), Synthesized(EmittedBy(bodies[1..], x.counter)), counter, x.counter, next);
    }
  }

  /** Over any run of the extractor, no made-up name occurs twice. */
  lemma NamesNeverRepeat(bodies: seq<seq<Stmt>>, counter: nat, i: nat, j: nat)
    requires i < j < |Synthesized(EmittedBy(bodies, counter))|
    ensures Synthesized(EmittedBy(bodies, counter))[i] != Synthesized(EmittedBy(bodies, counter))[j]
  {
    var next := RunNames(bodies, counter);
    NumberedNamesDiffer(counter, i, j);
  }

  lemma NumberedNamesDiffer(first: nat, i: nat, j: nat)
    requires i != j
    ensures NumberedName(first, i) != NumberedName(first, j)
  {
    if NumberedName(first, i) == NumberedName(first, j) {
      NamesDiffer(if i % 2 == 0 then "__fd" else "__vd", first + i, if j % 2 == 0 then "__fd" else "__vd", first + j);
    }
  }
}
