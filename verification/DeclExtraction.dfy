/** Moving the declarations of a wrapper function to global scope, with the statements between them
    turned into initialisers. */
module DeclExtraction {

  import opened Decimals

  // ---------- programs and what they do ----------

  type Store = map<string, int>

  datatype Outcome = Continues(store: Store) | Returns(store: Store)

  /** A declaration in a function body. */
  datatype Decl =
    | Variable(name: string, init: Store -> int)
    | OtherNamed(name: string)
    | UsingDirective
    | Unnamed

  /** A statement is known by what it does to the store, and whether it then goes on. */
  datatype Stmt =
    | Plain(run: Store -> Outcome)
    | Return(value: Store -> Store)
    | DeclStmt(decls: seq<Decl>)

  /** A declaration at global scope. */
  datatype Global =
    | Moved(decl: Decl)
    | Function(name: string, body: seq<Stmt>)
    | InitVariable(name: string, callee: string)
    | Wrapper(wrapper: WrapperFunction)
    | Import
    | OtherGlobal

  class WrapperFunction {
    var body: seq<Stmt>

    constructor (body: seq<Stmt>)
      ensures this.body == body
    {
      this.body := body;
    }
  }

  /** The declarations that are extracted. */
  predicate IsNamed(d: Decl) {
    !d.UsingDirective? && !d.Unnamed?
  }

  /** A declared variable gets its value; nothing else that is declared does anything at run time. */
  function RunLocal(d: Decl, s: Store): Store {
    if d.Variable? then s[d.name := d.init(s)] else s
  }

  function RunLocals(ds: seq<Decl>, s: Store): Store {
    if ds == [] then s else RunLocals(ds[1..], RunLocal(ds[0], s))
  }

  function RunStmt(stmt: Stmt, s: Store): Outcome {
    match stmt
    case Plain(run) => run(s)
    case Return(value) => Returns(value(s))
    case DeclStmt(decls) => Continues(RunLocals(decls, s))
  }

  /** The meaning of a function body: statement by statement until one returns. */
  function RunBody(body: seq<Stmt>, s: Store): Outcome
    decreases |body|
  {
    if body == [] then Continues(s)
    else
      var o := RunStmt(body[0], s);
      if o.Returns? then o else RunBody(body[1..], o.store)
  }

  /** What global declarations work on: the store and the functions defined so far. */
  datatype Globals = Globals(store: Store, functions: map<string, seq<Stmt>>)

  /** The initialisation of one global declaration. */
  function RunGlobal(d: Global, g: Globals): Globals {
    match d
    case Moved(decl) => g.(store := RunLocal(decl, g.store))
    case Function(name, body) => g.(functions := g.functions[name := body])
    case InitVariable(_, callee) =>
      if callee in g.functions then g.(store := RunBody(g.functions[callee], g.store).store) else g
    case _ => g
  }

  function RunGlobals(ds: seq<Global>, g: Globals): Globals {
    if ds == [] then g else RunGlobal(ds[|ds| - 1], RunGlobals(ds[..|ds| - 1], g))
  }

  // ---------- the transformation ----------

  const ORDER_SUFFIX := "_init_order__cling_Un1Qu3"

  function UniqueName(prefix: string, counter: nat): string {
    (if prefix == "" then "_" else prefix) + ORDER_SUFFIX + Decimal(counter)
  }

  function FunctionName(counter: nat): string {
    UniqueName("__fd", counter)
  }

  function VariableName(counter: nat): string {
    UniqueName("__vd", counter)
  }

  /** What has been emitted, the statements waiting for the next declaration, the next unique number. */
  datatype Extraction = Extraction(emitted: seq<Global>, pending: seq<Stmt>, counter: nat)

  /** The body of a function that returns an `int`. */
  function Completed(stmts: seq<Stmt>): seq<Stmt>
    requires stmts != []
  {
    if stmts[|stmts| - 1].Return? then stmts else stmts + [Return(s => s)]
  }

  /** The waiting statements become the initialiser of a variable. */
  function Flushed(x: Extraction): Extraction {
    if x.pending == [] then x
    else Extraction(x.emitted + [Function(FunctionName(x.counter), Completed(x.pending)),
                                 InitVariable(VariableName(x.counter + 1), FunctionName(x.counter))],
                    [], x.counter + 2)
  }

  function AfterDecl(x: Extraction, d: Decl): Extraction {
    if !IsNamed(d) then x else var y := Flushed(x); y.(emitted := y.emitted + [Moved(d)])
  }

  function AfterDecls(x: Extraction, ds: seq<Decl>): Extraction
    decreases |ds|
  {
    if ds == [] then x else AfterDecls(AfterDecl(x, ds[0]), ds[1..])
  }

  function AfterStmt(x: Extraction, stmt: Stmt): Extraction {
    if stmt.DeclStmt? then AfterDecls(x, stmt.decls) else x.(pending := x.pending + [stmt])
  }

  function AfterBody(x: Extraction, body: seq<Stmt>): Extraction
    decreases |body|
  {
    if body == [] then x else AfterBody(AfterStmt(x, body[0]), body[1..])
  }

  /** What a statement declares under a name: all but using directives and declarations without names. */
  function DeclaredBy(ds: seq<Decl>): seq<Decl> {
    if ds == [] then []
    else
      var last := ds[|ds| - 1];
      DeclaredBy(ds[..|ds| - 1]) + match last
                                   case Variable(_, _) => [last]
                                   case OtherNamed(_) => [last]
                                   case UsingDirective => []
                                   case Unnamed => []
  }

  function Declared(body: seq<Stmt>): seq<Decl> {
    if body == [] then []
    else
      var last := body[|body| - 1];
      Declared(body[..|body| - 1]) + if last.DeclStmt? then DeclaredBy(last.decls) else []
  }

  // ---------- the extractor and the collector ----------

  class DeclExtractor {
    var uniqueNameCounter: nat
    /** Whether a declaration clashes with what is declared in the scope that it is moved to. */
    const clashes: Decl -> bool

    constructor (clashes: Decl -> bool)
      ensures this.clashes == clashes && uniqueNameCounter == 0
    {
      this.clashes := clashes;
      uniqueNameCounter := 0;
    }

    method CheckForClashingNames(ds: seq<Decl>) returns (r: bool)
      ensures r <==> exists d | d in ds :: clashes(d)
    {
      r := false;
      for i := 0 to |ds|
        invariant !r && forall d | d in ds[..i] :: !clashes(d)
      {
        if clashes(ds[i]) {
          return true;
        }
      }
    }

    method CreateUniqueName(prefix: string) returns (name: string)
      modifies this
      ensures name == UniqueName(prefix, old(uniqueNameCounter)) && uniqueNameCounter == old(uniqueNameCounter) + 1
      ensures name == (if prefix == "" then "_" else prefix) + "_init_order__cling_Un1Qu3" +
                      Decimal(old(uniqueNameCounter))
    {
      name := prefix;
      if name == "" {
        name := name + "_";
      }
      name := name + ORDER_SUFFIX + Decimal(uniqueNameCounter);
      uniqueNameCounter := uniqueNameCounter + 1;
    }

    /** The collector gets a new declaration; it is busy with a transformation and starts no other. */
    method Emit(d: Global, collector: DeclCollector, ghost a: seq<Global>, ghost g: seq<Global>,
                ghost emitted: seq<Global>)
      requires collector.extractor == this && collector.transforming && d != Import && !d.Wrapper?
      requires collector.Got(a, g, emitted)
      modifies this, collector
      ensures collector.transforming && collector.hasErrors == old(collector.hasErrors)
      ensures collector.Got(a, g, emitted + [d]) && uniqueNameCounter == old(uniqueNameCounter)
      decreases false, 2
    {
      var ok := collector.HandleTopLevelDecl([d]);
      assert a + emitted + [d] == a + (emitted + [d]);
      assert g + emitted + [d] == g + (emitted + [d]);
      assert g + [] + [] == g + [];
    }

    /** The waiting statements become the body of a function, and its call the initialiser of a
        variable. */
    method EnforceInitOrder(stmts: seq<Stmt>, collector: DeclCollector, ghost a: seq<Global>, ghost g: seq<Global>,
                            ghost emitted: seq<Global>)
      requires collector.extractor == this && collector.transforming && stmts != []
      requires collector.Got(a, g, emitted)
      modifies this, collector
      ensures collector.transforming && collector.hasErrors == old(collector.hasErrors)
      ensures var x := Flushed(Extraction(emitted, stmts, old(uniqueNameCounter)));
              collector.Got(a, g, x.emitted) && uniqueNameCounter == x.counter
      decreases false, 3
    {
      var functionName := CreateUniqueName("__fd");
      var body := stmts;
      if !body[|body| - 1].Return? {
        body := body + [Return(s => s)];
      }
      Emit(Function(functionName, body), collector, a, g, emitted);
      var variableName := CreateUniqueName("__vd");
      Emit(InitVariable(variableName, functionName), collector, a, g, emitted + [Function(functionName, body)]);
      assert emitted + [Function(functionName, body)] + [InitVariable(variableName, functionName)] ==
             emitted + [Function(functionName, body), InitVariable(variableName, functionName)];
    }

    method ExtractNamed(d: Decl, stmts: seq<Stmt>, collector: DeclCollector, ghost a: seq<Global>,
                        ghost g: seq<Global>, ghost emitted: seq<Global>)
      returns (pending: seq<Stmt>)
      requires collector.extractor == this && collector.transforming && IsNamed(d)
      requires collector.Got(a, g, emitted)
      modifies this, collector
      ensures collector.transforming && collector.hasErrors == old(collector.hasErrors)
      ensures var x := AfterDecl(Extraction(emitted, stmts, old(uniqueNameCounter)), d);
              collector.Got(a, g, x.emitted) && pending == x.pending && uniqueNameCounter == x.counter
      decreases false, 4
    {
      ghost var x := Flushed(Extraction(emitted, stmts, uniqueNameCounter));
      pending := stmts;
      if pending != [] {
        EnforceInitOrder(pending, collector, a, g, emitted);
        pending := [];
      }
      Emit(Moved(d), collector, a, g, x.emitted);
    }

    method ExtractDecls(decls: seq<Decl>, stmts: seq<Stmt>, collector: DeclCollector, ghost a: seq<Global>,
                        ghost g: seq<Global>, ghost before: seq<Global>)
      returns (pending: seq<Stmt>, touched: seq<Decl>, ghost emitted: seq<Global>)
      requires collector.extractor == this && collector.transforming
      requires collector.Got(a, g, before)
      modifies this, collector
      ensures collector.transforming && collector.hasErrors == old(collector.hasErrors)
      ensures collector.Got(a, g, emitted) && touched == DeclaredBy(decls)
      ensures Extraction(emitted, pending, uniqueNameCounter) ==
                AfterDecls(Extraction(before, stmts, old(uniqueNameCounter)), decls)
      decreases false, 5
    {
      ghost var goal := AfterDecls(Extraction(before, stmts, uniqueNameCounter), decls);
      pending, touched, emitted := stmts, [], before;
      var j := 0;
      assert decls[j..] == decls;
      while j < |decls|
        invariant j <= |decls| && collector.transforming && collector.hasErrors == old(collector.hasErrors)
        invariant collector.Got(a, g, emitted)
        invariant AfterDecls(Extraction(emitted, pending, uniqueNameCounter), decls[j..]) == goal
        invariant touched == DeclaredBy(decls[..j])
      {
        assert decls[j..][1..] == decls[j + 1..];
        assert decls[..j + 1][..j] == decls[..j];
        if IsNamed(decls[j]) {
          ghost var x := AfterDecl(Extraction(emitted, pending, uniqueNameCounter), decls[j]);
          pending := ExtractNamed(decls[j], pending, collector, a, g, emitted);
          emitted := x.emitted;
          touched := touched + [decls[j]];
        }
        j := j + 1;
      }
      assert decls[..j] == decls;
    }

    /** The statements that stay become the body of the wrapper; everything else has been emitted. */
    method ExtractDecl(w: WrapperFunction, collector: DeclCollector) returns (ok: bool)
      requires collector.extractor == this && collector.transforming
      modifies this, collector, w
      ensures collector.transforming && collector.hasErrors == old(collector.hasErrors)
      ensures var x := AfterBody(Extraction([], [], old(uniqueNameCounter)), old(w.body));
              collector.Got(old(collector.appended), old(collector.generated), x.emitted) &&
              w.body == x.pending && uniqueNameCounter == x.counter
      ensures ok <==> forall d | d in Declared(old(w.body)) :: !clashes(d)
      decreases false, 7
    {
      var body := w.body;
      if body == [] {
        return true;
      }
      var pending, touched := ExtractBody(body, collector);
      var clashing := CheckForClashingNames(touched);
      ok := !clashing;
      w.body := pending;
    }

    method ExtractBody(body: seq<Stmt>, collector: DeclCollector) returns (pending: seq<Stmt>, touched: seq<Decl>)
      requires collector.extractor == this && collector.transforming
      modifies this, collector
      ensures collector.transforming && collector.hasErrors == old(collector.hasErrors)
      ensures var x := AfterBody(Extraction([], [], old(uniqueNameCounter)), body);
              collector.Got(old(collector.appended), old(collector.generated), x.emitted) &&
              pending == x.pending && uniqueNameCounter == x.counter
      ensures touched == Declared(body)
      decreases false, 6
    {
      ghost var a, g := collector.appended, collector.generated;
      ghost var goal := AfterBody(Extraction([], [], uniqueNameCounter), body);
      ghost var emitted: seq<Global> := [];
      pending, touched := [], [];
      var i := 0;
      assert body[i..] == body;
      while i < |body|
        invariant i <= |body| && collector.transforming && collector.hasErrors == old(collector.hasErrors)
        invariant collector.Got(a, g, emitted)
        invariant AfterBody(Extraction(emitted, pending, uniqueNameCounter), body[i..]) == goal
        invariant touched == Declared(body[..i])
      {
        assert body[i..][1..] == body[i + 1..];
        assert body[..i + 1][..i] == body[..i];
        if !body[i].DeclStmt? {
          pending := pending + [body[i]];
        } else {
          var moved;
          pending, moved, emitted := ExtractDecls(body[i].decls, pending, collector, a, g, emitted);
          touched := touched + moved;
        }
        i := i + 1;
      }
      assert body[..i] == body;
    }
  }

  class DeclCollector {
    const extractor: DeclExtractor
    var transforming: bool
    /** The current transaction has had errors. */
    var hasErrors: bool
    /** The declarations of the current transaction, and those given to the code generator. */
    var appended: seq<Global>
    var generated: seq<Global>

    constructor (extractor: DeclExtractor)
      ensures this.extractor == extractor && !transforming && !hasErrors && appended == [] && generated == []
    {
      this.extractor := extractor;
      transforming, hasErrors, appended, generated := false, false, [], [];
    }

    /** Exactly `ds` was added, and given to the code generator unless there are errors. */
    ghost predicate Got(appendedBefore: seq<Global>, generatedBefore: seq<Global>, ds: seq<Global>)
      reads this
    {
      appended == appendedBefore + ds && generated == generatedBefore + if hasErrors then [] else ds
    }

    /** What handling a wrapper does: the extracted declarations come first, in order, and the wrapper
        with what is left of its body last; on an error the wrapper is not taken. */
    ghost predicate TookWrapper(w: WrapperFunction, body: seq<Stmt>, counter: nat, appendedBefore: seq<Global>,
                                generatedBefore: seq<Global>, errorsBefore: bool, ok: bool)
      reads this, extractor, w
    {
      var x := AfterBody(Extraction([], [], counter), body);
      var taken := x.emitted + if ok then [Wrapper(w)] else [];
      w.body == x.pending && extractor.uniqueNameCounter == x.counter &&
      (ok <==> forall d | d in Declared(body) :: !extractor.clashes(d)) &&
      hasErrors == (errorsBefore || !ok) && appended == appendedBefore + taken &&
      generated == generatedBefore + if errorsBefore then [] else taken
    }

    /** A group of declarations at global scope; a wrapper comes alone. While a transformation is going
        on, what comes is taken as it is. */
    method HandleTopLevelDecl(group: seq<Global>) returns (ok: bool)
      requires forall d | d in group && d.Wrapper? :: group == [d] && !transforming
      modifies this, extractor, set d | d in group && d.Wrapper? :: d.wrapper
      ensures transforming == old(transforming)
      ensures (forall d | d in group :: !d.Wrapper?) ==>
                ok && hasErrors == old(hasErrors) && extractor.uniqueNameCounter == old(extractor.uniqueNameCounter) &&
                appended == old(appended) + group &&
                generated == old(generated) + if hasErrors || group == [Import] then [] else group
      ensures |group| == 1 && group[0].Wrapper? ==>
                TookWrapper(group[0].wrapper, old(group[0].wrapper.body), old(extractor.uniqueNameCounter),
                            old(appended), old(generated), old(hasErrors), ok)
      decreases !transforming, 1
    {
      ok := Transform(group);
      if !ok {
        return;
      }
      if group == [] {
        return true;
      }
      appended := appended + group;
      if hasErrors {
        return true;
      }
      if |group| == 1 && group[0] == Import {
        return true;
      }
      generated := generated + group;
      return true;
    }

    method Transform(group: seq<Global>) returns (ok: bool)
      requires forall d | d in group && d.Wrapper? :: group == [d] && !transforming
      modifies this, extractor, set d | d in group && d.Wrapper? :: d.wrapper
      ensures transforming == old(transforming)
      ensures (forall d | d in group :: !d.Wrapper?) ==>
                ok && hasErrors == old(hasErrors) && extractor.uniqueNameCounter == old(extractor.uniqueNameCounter) &&
                appended == old(appended) && generated == old(generated)
      ensures |group| == 1 && group[0].Wrapper? ==>
                var w := group[0].wrapper;
                var x := AfterBody(Extraction([], [], old(extractor.uniqueNameCounter)), old(group[0].wrapper.body));
                w.body == x.pending && extractor.uniqueNameCounter == x.counter &&
                (ok <==> forall d | d in Declared(old(group[0].wrapper.body)) :: !extractor.clashes(d)) &&
                hasErrors == (old(hasErrors) || !ok) && appended == old(appended) + x.emitted &&
                generated == old(generated) + if old(hasErrors) then [] else x.emitted
      decreases !transforming, 0
    {
      if transforming {
        return true;
      }
      transforming := true;
      ok := true;
      if |group| == 1 && group[0].Wrapper? {
        ok := extractor.ExtractDecl(group[0].wrapper, this);
        if !ok {
          hasErrors := true;
        }
      }
      transforming := false;
    }
  }
}
