/** Pathname resolution as section 4.13 of POSIX.1-2017 describes it, and exactly where `cached_realpath`
    differs from it. */
module PosixResolution {
  import opened Paths
  import opened RealPath

  // ---------- the reference: one component at a time ----------

  datatype PosixResult = Running | Resolved(stack: seq<string>) | Missing | NotADirectory

  predicate IsDirectory(fs: FileSystem, stack: seq<string>) {
    stack == [] || (Canonical(stack) in fs && fs[Canonical(stack)].Directory?)
  }

  predicate IsDot(item: string) {
    item == "." || item == ".."
  }

  /** A separator at the end asks for a directory, as one more component "." does. */
  function Trailing(path: string): (items: seq<string>)
    ensures AllNames(items)
  {
    if path != "" && path[|path| - 1] == SEPARATOR then ["."] else []
  }

  function Components(path: string): (items: seq<string>)
    ensures AllNames(items)
  {
    Split(path) + Trailing(path)
  }

  /** The text of a link is put in front of the components still to be resolved, and every component is
      looked up in a directory. It gives up, still running, after `steps` components. */
  function Posix(fs: FileSystem, steps: nat, stack: seq<string>, todo: seq<string>): PosixResult
    decreases steps
  {
    if todo == [] then Resolved(stack)
    else if steps == 0 then Running
    else if !IsDirectory(fs, stack) then NotADirectory
    else
      var item, rest := todo[0], todo[1..];
      if item == "." then Posix(fs, steps - 1, stack, rest)
      else if item == ".." then Posix(fs, steps - 1, if stack == [] then [] else stack[..|stack| - 1], rest)
      else
        var here := Canonical(stack + [item]);
        if here !in fs then Missing
        else match fs[here]
          case Link(text) =>
            Posix(fs, steps - 1, if text[0] == SEPARATOR then [] else stack, Components(text) + rest)
          case _ => Posix(fs, steps - 1, stack + [item], rest)
  }

  /** The absolute path that a path stands for, given together with a base. A leading "~" stands for the
      home directory, but is looked up there once more. */
  function AbsolutePath(w: World, path: string, base: string): string
    requires path != ""
  {
    if path[0] == '/' then path
    else if path == "~" || (|path| > 1 && path[..2] == "~/") then "/" + w.home + "/" + path
    else if base == "" then "/" + w.workingDirectory + "/" + path
    else "/" + base + "/" + path
  }

  /** The components to resolve, from the root on. */
  function PosixStart(w: World, path: string, base: string): (items: seq<string>)
    requires path != ""
    ensures AllNames(items)
  {
    Components(AbsolutePath(w, path, base))
  }

  /** What a file system is like: an entry is in a directory. */
  ghost predicate EntriesAreInDirectories(fs: FileSystem) {
    forall stack, item | RealStack(fs, stack) && IsEntry(item) && Canonical(stack + [item]) in fs ::
      IsDirectory(fs, stack)
  }

  // ---------- where the code goes on and the reference does not ----------

  /** The resolution of `items`, or of the text of a link on the way, comes to a ".", a ".." or a
      separator at the end while it is at something that is not a directory. */
  predicate DotAtFile(fs: FileSystem, stack: seq<string>, items: seq<string>, level: nat)
    decreases level, |items|
  {
    level > 0 && items != [] &&
    ((IsDot(items[0]) && !IsDirectory(fs, stack)) ||
     match Look(fs, stack, items[0])
     case Gone => false
     case To(next) => DotAtFile(fs, next, items[1..], level)
     case Via(target) =>
       DotAtFile(fs, Origin(stack, target), Components(target), level - 1) ||
       var r := Follow(fs, stack, target, level - 1);
       r.Found? && DotAtFile(fs, r.stack, items[1..], level))
  }

  // ---------- where a path starts ----------

  lemma SplitBelow(directory: string, path: string)
    requires path != ""
    ensures Split("/" + directory + "/" + path) == Split(directory) + Split(path)
    ensures Trailing("/" + directory + "/" + path) == Trailing(path)
  {
    var absolute := "/" + directory + "/" + path;
    assert absolute[1..] == directory + ("/" + path) && ("/" + path)[1..] == path;
    SplitConcat(directory, "/" + path);
  }

  lemma TildeStarts(path: string)
    requires path != ""
    ensures StartsWithTilde(path) <==> path == "~" || (|path| > 1 && path[..2] == "~/")
  {
    if |path| > 1 {
      assert path[..2] == [path[0], path[1]];
    } else {
      assert path == [path[0]];
    }
  }

  /** The directory that a relative path is resolved below. */
  function DirectoryOf(w: World, path: string, base: string): string {
    if path == "~" || (|path| > 1 && path[..2] == "~/") then w.home
    else if base == "" then w.workingDirectory
    else base
  }

  lemma StartBelow(w: World, path: string, base: string)
    requires path != "" && path[0] != '/'
    ensures AbsolutePath(w, path, base) == "/" + DirectoryOf(w, path, base) + "/" + path
    ensures Start(w, path, base, false) == ([], Split(DirectoryOf(w, path, base)) + Split(path))
  {
    TildeStarts(path);
  }

  lemma StartIsAbsolute(w: World, path: string, base: string)
    requires path != ""
    ensures Start(w, path, base, false) == ([], Split(AbsolutePath(w, path, base)))
    ensures Trailing(AbsolutePath(w, path, base)) == Trailing(path)
  {
    if path[0] != '/' {
      StartBelow(w, path, base);
      SplitBelow(DirectoryOf(w, path, base), path);
    }
  }

  /** A relative path is answered like the absolute one that leads through the working directory, or the
      base if there is one; after a leading "~" through the home directory. */
  lemma RelativeAnswer(w: World, path: string, base: string, other: string, level: nat)
    requires path != "" && path[0] != '/'
    ensures var directory := if path == "~" || (|path| > 1 && path[..2] == "~/") then w.home
                             else if base == "" then w.workingDirectory
                             else base;
            Answer(w, path, base, false, level) == Answer(w, "/" + directory + "/" + path, other, false, level)
  {
    StartIsAbsolute(w, path, base);
    StartIsAbsolute(w, AbsolutePath(w, path, base), other);
  }

  /** A separator at the end makes no difference to the code. */
  lemma TrailingIgnored(fs: FileSystem, stack: seq<string>, items: seq<string>, path: string, level: nat)
    ensures Walk(fs, stack, items + Trailing(path), level) == Walk(fs, stack, items, level)
  {
    WalkConcat(fs, stack, items, Trailing(path), level);
    var r := Walk(fs, stack, items, level);
    if r.Found? && Trailing(path) != [] {
      assert Look(fs, r.stack, ".") == To(r.stack);
      assert Walk(fs, r.stack, ["."], level) == Walk(fs, r.stack, ["."][1..], level);
    }
  }

  /** What the reference makes of `items` and then `rest`, told by the nested resolution of `items`. */
  ghost predicate Continues(fs: FileSystem, steps: nat, outcome: Outcome, dotAtFile: bool, rest: seq<string>,
                            r: PosixResult)
  {
    match outcome
    case Found(at) => r == if dotAtFile then NotADirectory else Posix(fs, steps, at, rest)
    case NoEntry => r == Missing || r == NotADirectory
    case TooManyLinks => true
  }

  lemma PosixUnfolds(fs: FileSystem, steps: nat, stack: seq<string>, todo: seq<string>)
    requires todo != []
    ensures Posix(fs, steps + 1, stack, todo) ==
            if IsDirectory(fs, stack) then PosixTurn(fs, steps, stack, Look(fs, stack, todo[0]), todo[1..])
            else NotADirectory
  {
  }

  lemma PosixStep(fs: FileSystem, steps: nat, stack: seq<string>, items: seq<string>, rest: seq<string>)
    requires items != []
    ensures Posix(fs, steps + 1, stack, items + rest) ==
            if IsDirectory(fs, stack) then PosixTurn(fs, steps, stack, Look(fs, stack, items[0]), items[1..] + rest)
            else NotADirectory
  {
    assert (items + rest)[0] == items[0] && (items + rest)[1..] == items[1..] + rest;
    PosixUnfolds(fs, steps, stack, items + rest);
  }

  /** The reference goes on as the code does after it has looked at a component. */
  function PosixTurn(fs: FileSystem, steps: nat, stack: seq<string>, turn: Turn, rest: seq<string>): PosixResult {
    match turn
    case Gone => Missing
    case To(next) => Posix(fs, steps, next, rest)
    case Via(target) => Posix(fs, steps, Origin(stack, target), Components(target) + rest)
  }

  /** The nested resolution and the reference agree, unless the former passes a dot at a file. */
  lemma {:induction false} NestedRefinesPosix(fs: FileSystem, stack: seq<string>, items: seq<string>, level: nat,
                                              rest: seq<string>, steps: nat) returns (total: nat)
    requires EntriesAreInDirectories(fs) && RealStack(fs, stack) && AllNames(items)
    ensures Continues(fs, steps, Walk(fs, stack, items, level), DotAtFile(fs, stack, items, level), rest,
                      Posix(fs, total, stack, items + rest))
    decreases level, |items|, 2
  {
    if level == 0 {
      return 0;
    }
    if items == [] {
      assert items + rest == rest;
      return steps;
    }
    total := TurnRefinesPosix(fs, stack, items[0], items[1..], level, rest, steps);
    PosixStep(fs, total, stack, items, rest);
    WalkUnfolds(fs, stack, items, level);
    StepContinues(fs, stack, items, level, steps, rest,
                  PosixTurn(fs, total, stack, Look(fs, stack, items[0]), items[1..] + rest));
    total := total + 1;
  }

  predicate DotAfter(fs: FileSystem, stack: seq<string>, turn: Turn, tail: seq<string>, level: nat)
    requires level > 0
  {
    match turn
    case Gone => false
    case To(next) => DotAtFile(fs, next, tail, level)
    case Via(target) =>
      DotAtFile(fs, Origin(stack, target), Components(target), level - 1) ||
      DotBehind(fs, Follow(fs, stack, target, level - 1), tail, level)
  }

  predicate DotBehind(fs: FileSystem, r: Outcome, tail: seq<string>, level: nat) {
    r.Found? && DotAtFile(fs, r.stack, tail, level)
  }

  lemma WalkUnfolds(fs: FileSystem, stack: seq<string>, items: seq<string>, level: nat)
    requires level > 0 && items != []
    ensures var turn := Look(fs, stack, items[0]);
            Walk(fs, stack, items, level) == After(fs, stack, turn, items[1..], level) &&
            (DotAtFile(fs, stack, items, level) <==>
             (IsDot(items[0]) && !IsDirectory(fs, stack)) || DotAfter(fs, stack, turn, items[1..], level))
  {
  }

  /** From after the next component to before it. */
  lemma StepContinues(fs: FileSystem, stack: seq<string>, items: seq<string>, level: nat, steps: nat, rest: seq<string>,
                      verdict: PosixResult)
    requires EntriesAreInDirectories(fs) && RealStack(fs, stack) && level > 0 && items != [] && IsName(items[0])
    requires var turn := Look(fs, stack, items[0]);
             Continues(fs, steps, After(fs, stack, turn, items[1..], level),
                       DotAfter(fs, stack, turn, items[1..], level),
                       rest, verdict)
    ensures var turn := Look(fs, stack, items[0]);
            Continues(fs, steps, After(fs, stack, turn, items[1..], level),
                      (IsDot(items[0]) && !IsDirectory(fs, stack)) || DotAfter(fs, stack, turn, items[1..], level),
                      rest, if IsDirectory(fs, stack) then verdict else NotADirectory)
  {
    if !IsDot(items[0]) && !Look(fs, stack, items[0]).Gone? {
      assert Canonical(stack + [items[0]]) in fs;
    }
  }

  lemma {:induction false} TurnRefinesPosix(fs: FileSystem, stack: seq<string>, item: string, tail: seq<string>,
                                            level: nat, rest: seq<string>, steps: nat) returns (total: nat)
    requires EntriesAreInDirectories(fs) && RealStack(fs, stack) && IsName(item) && AllNames(tail) && level > 0
    ensures var turn := Look(fs, stack, item);
            Continues(fs, steps, After(fs, stack, turn, tail, level), DotAfter(fs, stack, turn, tail, level), rest,
                      PosixTurn(fs, total, stack, turn, tail + rest))
    decreases level, |tail| + 1, 1
  {
    total := 0;
    match Look(fs, stack, item) {
      case Gone =>
      case To(next) =>
        LookStaysReal(fs, stack, item);
        total := NestedRefinesPosix(fs, next, tail, level, rest, steps);
      case Via(target) => total := LinkRefinesPosix(fs, stack, target, tail, level, rest, steps);
    }
  }

  lemma {:induction false} LinkRefinesPosix(fs: FileSystem, stack: seq<string>, target: string, tail: seq<string>,
                                            level: nat, rest: seq<string>, steps: nat) returns (total: nat)
    requires EntriesAreInDirectories(fs) && RealStack(fs, stack) && AllNames(tail) && level > 0
    ensures Continues(fs, steps, Behind(fs, Follow(fs, stack, target, level - 1), tail, level),
                      DotAtFile(fs, Origin(stack, target), Components(target), level - 1) ||
                      DotBehind(fs, Follow(fs, stack, target, level - 1), tail, level),
                      rest, Posix(fs, total, Origin(stack, target), Components(target) + (tail + rest)))
    decreases level, |tail| + 1, 0
  {
    FollowsComponents(fs, stack, target, level - 1);
    total := TextRefinesPosix(fs, Origin(stack, target), Components(target), tail, level, rest, steps);
  }

  /** Two lists of components, one after the other, the first one level further down. */
  lemma {:induction false} TextRefinesPosix(fs: FileSystem, origin: seq<string>, text: seq<string>, tail: seq<string>,
                                            level: nat, rest: seq<string>, steps: nat) returns (total: nat)
    requires EntriesAreInDirectories(fs) && RealStack(fs, origin) && AllNames(text) && AllNames(tail) && level > 0
    requires var r := Walk(fs, origin, text, level - 1); r.Found? ==> RealStack(fs, r.stack)
    ensures var r := Walk(fs, origin, text, level - 1);
            Continues(fs, steps, Behind(fs, r, tail, level),
                      DotAtFile(fs, origin, text, level - 1) || DotBehind(fs, r, tail, level),
                      rest, Posix(fs, total, origin, text + (tail + rest)))
    decreases level, |tail|, 4
  {
    var r := Walk(fs, origin, text, level - 1);
    var between := BehindRefinesPosix(fs, r, tail, level, rest, steps);
    total := NestedRefinesPosix(fs, origin, text, level - 1, tail + rest, between);
    ContinuesOn(fs, steps, between, r, DotAtFile(fs, origin, text, level - 1), tail, level, rest,
                Posix(fs, total, origin, text + (tail + rest)));
  }

  lemma {:induction false} BehindRefinesPosix(fs: FileSystem, r: Outcome, tail: seq<string>, level: nat,
                                              rest: seq<string>, steps: nat) returns (total: nat)
    requires EntriesAreInDirectories(fs) && AllNames(tail) && (r.Found? ==> RealStack(fs, r.stack))
    ensures r.Found? ==> Continues(fs, steps, Walk(fs, r.stack, tail, level), DotAtFile(fs, r.stack, tail, level), rest,
                                   Posix(fs, total, r.stack, tail + rest))
    decreases level, |tail|, 3
  {
    total := 0;
    if r.Found? {
      total := NestedRefinesPosix(fs, r.stack, tail, level, rest, steps);
    }
  }

  /** Following a link is resolving all components of its text, and leads to a real path. */
  lemma FollowsComponents(fs: FileSystem, stack: seq<string>, target: string, level: nat)
    requires RealStack(fs, stack)
    ensures RealStack(fs, Origin(stack, target))
    ensures Walk(fs, Origin(stack, target), Components(target), level) == Follow(fs, stack, target, level)
    ensures Follow(fs, stack, target, level).Found? ==> RealStack(fs, Follow(fs, stack, target, level).stack)
  {
    TrailingIgnored(fs, Origin(stack, target), Split(target), target, level);
    WalkStaysReal(fs, Origin(stack, target), Split(target), level);
  }

  /** From the text of a link to what is behind it. */
  lemma ContinuesOn(fs: FileSystem, steps: nat, between: nat, r: Outcome, dot: bool, tail: seq<string>, level: nat,
                    rest: seq<string>, verdict: PosixResult)
    requires Continues(fs, between, r, dot, tail + rest, verdict)
    requires r.Found? ==> Continues(fs, steps, Walk(fs, r.stack, tail, level), DotAtFile(fs, r.stack, tail, level),
                                    rest,
                                    Posix(fs, between, r.stack, tail + rest))
    ensures Continues(fs, steps, Behind(fs, r, tail, level), dot || DotBehind(fs, r, tail, level), rest, verdict)
  {
  }

  // ---------- the whole call ----------

  /** With resolvable links the reference reaches a verdict. It resolves the path, to what the code
      answers, exactly when the code answers and has not passed a dot at a file; else it fails. */
  lemma PosixReachesAnswer(w: World, path: string, base: string) returns (steps: nat)
    requires LinksResolve(w.fs) && EntriesAreInDirectories(w.fs) && path != ""
    ensures var r := Posix(w.fs, steps, [], PosixStart(w, path, base));
            var answer := Answer(w, path, base, false, SYMLOOP_LEVEL);
            !r.Running? &&
            (r.Resolved? <==> answer.Found? && !DotAtFile(w.fs, [], PosixStart(w, path, base), SYMLOOP_LEVEL)) &&
            (r.Resolved? ==> answer == Found(r.stack))
  {
    var items := PosixStart(w, path, base);
    steps := NestedRefinesPosix(w.fs, [], items, SYMLOOP_LEVEL, [], 0);
    assert items + [] == items;
    StartIsAbsolute(w, path, base);
    TrailingIgnored(w.fs, [], Start(w, path, base, false).1, path, SYMLOOP_LEVEL);
    NoOverrun(w.fs, [], items);
  }

  function PosixShown(r: PosixResult): string {
    if r.Resolved? then Canonical(r.stack) else ""
  }

  /** What the caller gets is what the reference gives, with failures shown as "", unless the code
      passes a dot at a file and then finds everything all the same; in that case it is not. */
  lemma AnswerIsPosix(w: World, path: string, base: string, steps: nat)
    requires LinksResolve(w.fs) && EntriesAreInDirectories(w.fs) && path != ""
    requires !Posix(w.fs, steps, [], PosixStart(w, path, base)).Running?
    ensures var answer := Answer(w, path, base, false, SYMLOOP_LEVEL);
            Shown(answer) == PosixShown(Posix(w.fs, steps, [], PosixStart(w, path, base))) <==>
            !(answer.Found? && DotAtFile(w.fs, [], PosixStart(w, path, base), SYMLOOP_LEVEL))
  {
    var items := PosixStart(w, path, base);
    var total := PosixReachesAnswer(w, path, base);
    if steps <= total {
      PosixMoreSteps(w.fs, steps, total, [], items);
    } else {
      PosixMoreSteps(w.fs, total, steps, [], items);
    }
  }

  lemma {:induction false} PosixMoreSteps(fs: FileSystem, few: nat, many: nat, stack: seq<string>, todo: seq<string>)
    requires few <= many && !Posix(fs, few, stack, todo).Running?
    ensures Posix(fs, many, stack, todo) == Posix(fs, few, stack, todo)
    decreases few, 0
  {
    if todo != [] {
      PosixUnfolds(fs, few - 1, stack, todo);
      PosixUnfolds(fs, many - 1, stack, todo);
      if IsDirectory(fs, stack) {
        MoreStepsAfter(fs, few - 1, many - 1, stack, Look(fs, stack, todo[0]), todo[1..]);
      }
    }
  }

  lemma {:induction false} MoreStepsAfter(fs: FileSystem, few: nat, many: nat, stack: seq<string>, turn: Turn,
                                          rest: seq<string>)
    requires few <= many && !PosixTurn(fs, few, stack, turn, rest).Running?
    ensures PosixTurn(fs, many, stack, turn, rest) == PosixTurn(fs, few, stack, turn, rest)
    decreases few, 1
  {
    match turn
    case Gone =>
    case To(next) => PosixMoreSteps(fs, few, many, next, rest);
    case Via(target) => PosixMoreSteps(fs, few, many, Origin(stack, target), Components(target) + rest);
  }

  // ---------- what a caller can check ----------

  predicate NoDots(items: seq<string>) {
    forall i | 0 <= i < |items| :: !IsDot(items[i])
  }

  predicate LinksHaveNoDots(fs: FileSystem) {
    forall k | k in fs && fs[k].Link? :: NoDots(Components(fs[k].target))
  }

  lemma {:induction false} NoDotAtFile(fs: FileSystem, stack: seq<string>, items: seq<string>, level: nat)
    requires LinksHaveNoDots(fs) && NoDots(items)
    ensures !DotAtFile(fs, stack, items, level)
    decreases level, |items|
  {
    if level > 0 && items != [] {
      match Look(fs, stack, items[0])
      case Gone =>
      case To(next) => NoDotAtFile(fs, next, items[1..], level);
      case Via(target) =>
        NoDotAtFile(fs, Origin(stack, target), Components(target), level - 1);
        var r := Follow(fs, stack, target, level - 1);
        if r.Found? {
          NoDotAtFile(fs, r.stack, items[1..], level);
        }
    }
  }

  /** Without ".", ".." and separators at the end, in the path as in the texts of links, the code keeps
      to the reference. */
  lemma PosixWithoutDots(w: World, path: string, base: string, steps: nat)
    requires LinksResolve(w.fs) && EntriesAreInDirectories(w.fs) && path != ""
    requires LinksHaveNoDots(w.fs) && NoDots(PosixStart(w, path, base))
    requires !Posix(w.fs, steps, [], PosixStart(w, path, base)).Running?
    ensures Shown(Answer(w, path, base, false, SYMLOOP_LEVEL)) ==
              PosixShown(Posix(w.fs, steps, [], PosixStart(w, path, base)))
  {
    NoDotAtFile(w.fs, [], PosixStart(w, path, base), SYMLOOP_LEVEL);
    AnswerIsPosix(w, path, base, steps);
  }

  /** With a single file "/f", the code answers "/f" for "/f/" as well as for "/f/."; POSIX refuses both. */
  lemma FileTakenForDirectory(w: World, path: string)
    requires w.fs == map["/f" := File] && (path == "/f/" || path == "/f/.")
    ensures LinksResolve(w.fs) && EntriesAreInDirectories(w.fs)
    ensures Answer(w, path, "", false, SYMLOOP_LEVEL) == Found(["f"])
    ensures Posix(w.fs, 2, [], PosixStart(w, path, "")) == NotADirectory
  {
    FilePathItems(path);
    AtFile(w.fs, Split(path));
    PosixAtFile(w.fs, Split(path) + Trailing(path));
    NothingInFile(w.fs);
  }

  lemma NothingInFile(fs: FileSystem)
    requires fs == map["/f" := File]
    ensures LinksResolve(fs) && EntriesAreInDirectories(fs)
  {
    forall stack, item | RealStack(fs, stack) && IsEntry(item) && Canonical(stack + [item]) in fs
      ensures IsDirectory(fs, stack)
    {
      RealStackIsPlain(fs, stack);
      SplitCanonical(stack + [item]);
      SplitCanonical(["f"]);
      assert Canonical(["f"]) == "/f" && |stack + [item]| == |["f"]|;
    }
  }

  lemma AtFile(fs: FileSystem, items: seq<string>)
    requires fs == map["/f" := File] && (items == ["f"] || items == ["f", "."])
    ensures Walk(fs, [], items, SYMLOOP_LEVEL) == Found(["f"])
  {
    assert Canonical(["f"]) == "/f" && Look(fs, [], "f") == To(["f"]);
    assert Walk(fs, [], items, SYMLOOP_LEVEL) == Walk(fs, ["f"], items[1..], SYMLOOP_LEVEL);
  }

  lemma PosixAtFile(fs: FileSystem, items: seq<string>)
    requires fs == map["/f" := File] && items == ["f", "."]
    ensures Posix(fs, 2, [], items) == NotADirectory
  {
    assert Canonical(["f"]) == "/f" && Look(fs, [], "f") == To(["f"]);
  }

  lemma FilePathItems(path: string)
    requires path == "/f/" || path == "/f/."
    ensures Split(path) == if path == "/f/" then ["f"] else ["f", "."]
  {
    SplitCanonical(["f"]);
    assert Canonical(["f"]) == "/f";
    if path == "/f/" {
      SplitConcat("/f", "/");
      assert "/f" + "/" == path && "/"[1..] == "";
    } else {
      SplitAppendName("/f", ".");
      assert "/f" + [SEPARATOR] + "." == path;
    }
  }
}
