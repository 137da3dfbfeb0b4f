/** Resolution of path names through symbolic links, with the memo tables that speed it up. */
module RealPath {
  import opened Paths

  /** The text of a symbolic link; symlink() does not make empty ones. */
  type LinkText = s: string | s != "" witness "."

  datatype Node = File | Directory | Link(target: LinkText)

  /** What lstat and readlink see under a path; a missing key is a failing lstat. */
  type FileSystem = map<string, Node>

  /** The file system together with the two directories that relative paths start from. */
  datatype World = World(fs: FileSystem, home: string, workingDirectory: string)

  datatype Outcome = Found(stack: seq<string>) | NoEntry | TooManyLinks

  datatype Mode = NoFile | LinkMode | OtherMode

  datatype Errno = Unset | ENOENT | ELOOP

  const SYMLOOP_LEVEL: nat := 40

  // ---------- what a path resolves to ----------

  datatype Turn = To(stack: seq<string>) | Via(target: string) | Gone

  /** What the next component does to a resolution that has come to directory `stack`. */
  function Look(fs: FileSystem, stack: seq<string>, item: string): Turn {
    if item == "." then To(stack)
    else if item == ".." then To(Parent(stack))
    else
      var here := Canonical(stack + [item]);
      if here !in fs then Gone
      else if fs[here].Link? then Via(fs[here].target)
      else To(stack + [item])
  }

  /** Nested resolution: a symbolic link is resolved on its own, one level further down, before the
      components behind it are looked at. */
  function Walk(fs: FileSystem, stack: seq<string>, items: seq<string>, level: nat): Outcome
    decreases level, |items|
  {
    if level == 0 then TooManyLinks
    else if items == [] then Found(stack)
    else match Look(fs, stack, items[0])
      case Gone => NoEntry
      case To(next) => Walk(fs, next, items[1..], level)
      case Via(target) =>
        var r := Walk(fs, Origin(stack, target), Split(target), level - 1);
        if r.Found? then Walk(fs, r.stack, items[1..], level) else r
  }

  /** The resolution after the next component has been looked up. */
  function After(fs: FileSystem, stack: seq<string>, turn: Turn, tail: seq<string>, level: nat): Outcome
    requires level > 0
  {
    match turn
    case Gone => NoEntry
    case To(next) => Walk(fs, next, tail, level)
    case Via(target) => Behind(fs, Follow(fs, stack, target, level - 1), tail, level)
  }

  /** The resolution behind a link. */
  function Behind(fs: FileSystem, r: Outcome, tail: seq<string>, level: nat): Outcome {
    if r.Found? then Walk(fs, r.stack, tail, level) else r
  }

  lemma WalkTurns(fs: FileSystem, stack: seq<string>, items: seq<string>, level: nat)
    requires level > 0 && items != []
    ensures Walk(fs, stack, items, level) == After(fs, stack, Look(fs, stack, items[0]), items[1..], level)
  {
  }

  /** Where the resolution of a link's text starts for a link found in directory `stack`. */
  function Origin(stack: seq<string>, target: string): seq<string> {
    if IsRelative(target) then stack else []
  }

  function Follow(fs: FileSystem, stack: seq<string>, target: string, level: nat): Outcome {
    Walk(fs, Origin(stack, target), Split(target), level)
  }

  /** A path without links, "." and "..", all of whose prefixes exist. */
  ghost predicate RealStack(fs: FileSystem, stack: seq<string>)
  {
    stack == [] || (RealStack(fs, Parent(stack)) && IsEntry(stack[|stack| - 1]) && Exists(fs, stack))
  }

  /** Something other than a link is found under the path. */
  predicate Exists(fs: FileSystem, stack: seq<string>) {
    Canonical(stack) in fs && !fs[Canonical(stack)].Link?
  }

  /** A link in a real directory resolves with a nesting rank below the level limit. */
  ghost predicate LinkResolves(fs: FileSystem, stack: seq<string>, item: string)
  {
    RealStack(fs, stack) && IsName(item) && Look(fs, stack, item).Via? ==>
      Follow(fs, stack, Look(fs, stack, item).target, SYMLOOP_LEVEL - 1).Found?
  }

  ghost predicate LinksResolve(fs: FileSystem) {
    forall stack, item :: LinkResolves(fs, stack, item)
  }

  // ---------- laws of the resolution ----------

  lemma {:induction false} RealStackIsPlain(fs: FileSystem, stack: seq<string>)
    requires RealStack(fs, stack)
    ensures AllEntries(stack)
  {
    if stack != [] {
      RealStackIsPlain(fs, Parent(stack));
      assert forall i | 0 <= i < |stack| - 1 :: stack[i] == Parent(stack)[i];
    }
  }

  lemma {:induction false} RealPrefixExists(fs: FileSystem, stack: seq<string>, k: nat)
    requires RealStack(fs, stack) && 0 < k <= |stack|
    ensures Exists(fs, stack[..k])
  {
    if k == |stack| {
      assert stack[..k] == stack;
    } else {
      RealPrefixExists(fs, Parent(stack), k);
      assert Parent(stack)[..k] == stack[..k];
    }
  }

  /** Going on from a real directory without following a link leads to a real path. */
  lemma LookStaysReal(fs: FileSystem, stack: seq<string>, item: string)
    requires RealStack(fs, stack) && IsName(item) && Look(fs, stack, item).To?
    ensures RealStack(fs, Look(fs, stack, item).stack)
  {
    if IsEntry(item) {
      assert Parent(stack + [item]) == stack;
    }
  }

  /** Resolving further components from a real directory gives a real path again. */
  lemma {:induction false} WalkStaysReal(fs: FileSystem, stack: seq<string>, items: seq<string>, level: nat)
    requires RealStack(fs, stack) && AllNames(items)
    ensures var r := Walk(fs, stack, items, level); r.Found? ==> RealStack(fs, r.stack)
    decreases level, |items|, 0
  {
    if level > 0 && items != [] {
      var turn := Look(fs, stack, items[0]);
      WalkTurns(fs, stack, items, level);
      if turn.To? {
        LookStaysReal(fs, stack, items[0]);
      }
      TurnStaysReal(fs, stack, turn, items[1..], level);
    }
  }

  lemma {:induction false} TurnStaysReal(fs: FileSystem, stack: seq<string>, turn: Turn, tail: seq<string>, level: nat)
    requires RealStack(fs, stack) && AllNames(tail) && level > 0 && (turn.To? ==> RealStack(fs, turn.stack))
    ensures var r := After(fs, stack, turn, tail, level); r.Found? ==> RealStack(fs, r.stack)
    decreases level, |tail|, 1
  {
    match turn
    case Gone =>
    case To(next) => WalkStaysReal(fs, next, tail, level);
    case Via(target) =>
      var r := Follow(fs, stack, target, level - 1);
      WalkStaysReal(fs, Origin(stack, target), Split(target), level - 1);
      if r.Found? {
        WalkStaysReal(fs, r.stack, tail, level);
      }
  }

  /** An outcome other than a level overrun does not depend on the level. */
  lemma {:induction false} WalkLevelIndependent(fs: FileSystem, stack: seq<string>, items: seq<string>, low: nat,
                                                high: nat)
    requires low <= high && !Walk(fs, stack, items, low).TooManyLinks?
    ensures Walk(fs, stack, items, high) == Walk(fs, stack, items, low)
    decreases low, |items|, 0
  {
    if items != [] {
      WalkTurns(fs, stack, items, low);
      WalkTurns(fs, stack, items, high);
      TurnLevelIndependent(fs, stack, Look(fs, stack, items[0]), items[1..], low, high);
    }
  }

  lemma {:induction false} TurnLevelIndependent(fs: FileSystem, stack: seq<string>, turn: Turn, tail: seq<string>,
                                                low: nat, high: nat)
    requires 0 < low <= high && !After(fs, stack, turn, tail, low).TooManyLinks?
    ensures After(fs, stack, turn, tail, high) == After(fs, stack, turn, tail, low)
    decreases low, |tail|, 1
  {
    match turn
    case Gone =>
    case To(next) => WalkLevelIndependent(fs, next, tail, low, high);
    case Via(target) =>
      var r := Follow(fs, stack, target, low - 1);
      WalkLevelIndependent(fs, Origin(stack, target), Split(target), low - 1, high - 1);
      if r.Found? {
        WalkLevelIndependent(fs, r.stack, tail, low, high);
      }
  }

  /** When every link resolves, no resolution from a real directory overruns the level limit. */
  lemma {:induction false} NoOverrun(fs: FileSystem, stack: seq<string>, items: seq<string>)
    requires LinksResolve(fs) && RealStack(fs, stack) && AllNames(items)
    ensures !Walk(fs, stack, items, SYMLOOP_LEVEL).TooManyLinks?
    decreases |items|
  {
    if items != [] {
      match Look(fs, stack, items[0])
      case Gone =>
      case To(next) =>
        LookStaysReal(fs, stack, items[0]);
        NoOverrun(fs, next, items[1..]);
      case Via(target) =>
        assert LinkResolves(fs, stack, items[0]);
        WalkStaysReal(fs, Origin(stack, target), Split(target), SYMLOOP_LEVEL - 1);
        NoOverrun(fs, Follow(fs, stack, target, SYMLOOP_LEVEL - 1).stack, items[1..]);
    }
  }

  lemma {:induction false} WalkConcat(fs: FileSystem, stack: seq<string>, items: seq<string>, more: seq<string>,
                                      level: nat)
    ensures var r := Walk(fs, stack, items, level);
            Walk(fs, stack, items + more, level) == if r.Found? then Walk(fs, r.stack, more, level) else r
    decreases |items|
  {
    if level == 0 {
    } else if items == [] {
      assert items + more == more;
    } else {
      assert (items + more)[0] == items[0] && (items + more)[1..] == items[1..] + more;
      match Look(fs, stack, items[0])
      case Gone =>
      case To(next) => WalkConcat(fs, next, items[1..], more, level);
      case Via(target) =>
        var r := Walk(fs, Origin(stack, target), Split(target), level - 1);
        if r.Found? {
          WalkConcat(fs, r.stack, items[1..], more, level);
        }
    }
  }

  /** A real path resolves to itself. */
  lemma {:induction false} RealResolvesToItself(fs: FileSystem, stack: seq<string>, level: nat)
    requires RealStack(fs, stack) && level > 0
    ensures Walk(fs, [], stack, level) == Found(stack)
  {
    if stack != [] {
      var init, last := Parent(stack), stack[|stack| - 1];
      assert stack == init + [last];
      RealResolvesToItself(fs, init, level);
      WalkConcat(fs, [], init, [last], level);
      assert Look(fs, init, last) == To(stack);
    }
  }

  // ---------- the whole call ----------

  /** Where resolution starts and which components it goes through. A leading "~" selects the home
      directory as the start but stays in the list of components. */
  function Start(w: World, path: string, base: string, baseIsReal: bool): (start: (seq<string>, seq<string>))
    ensures AllNames(start.1)
  {
    if !IsRelative(path) then ([], Split(path))
    else if baseIsReal then (Split(base), Split(path))
    else if StartsWithTilde(path) then ([], Split(w.home) + Split(path))
    else if base == "" then ([], Split(w.workingDirectory) + Split(path))
    else ([], Split(base) + Split(path))
  }

  predicate StartsWithTilde(path: string) {
    path != "" && path[0] == '~' && (|path| == 1 || path[1] == SEPARATOR)
  }

  function Answer(w: World, path: string, base: string, baseIsReal: bool, level: nat): Outcome {
    if path == "" then NoEntry
    else
      var (stack, items) := Start(w, path, base, baseIsReal);
      Walk(w.fs, stack, items, level)
  }

  /** A call from outside does not overrun the level limit when every link resolves. */
  lemma OutsideAnswer(w: World, path: string, base: string)
    requires LinksResolve(w.fs)
    ensures !Answer(w, path, base, false, SYMLOOP_LEVEL).TooManyLinks?
  {
    if path != "" {
      NoOverrun(w.fs, [], Start(w, path, base, false).1);
    }
  }

  lemma FullLevelAnswer(w: World, path: string, base: string, baseIsReal: bool, level: nat)
    requires level <= SYMLOOP_LEVEL && !Answer(w, path, base, baseIsReal, level).TooManyLinks?
    ensures Answer(w, path, base, baseIsReal, SYMLOOP_LEVEL) == Answer(w, path, base, baseIsReal, level)
  {
    var (stack, items) := Start(w, path, base, baseIsReal);
    if path != "" {
      WalkLevelIndependent(w.fs, stack, items, level, SYMLOOP_LEVEL);
    }
  }

  /** Files in the root directory, each but the last one a link to the next. */
  ghost predicate IsChain(fs: FileSystem, names: seq<string>) {
    names != [] && AllEntries(names) &&
    (forall i | 0 <= i < |names| :: Canonical([names[i]]) in fs) &&
    !fs[Canonical([names[|names| - 1]])].Link? &&
    forall i | 0 <= i < |names| - 1 :: fs[Canonical([names[i]])] == Link(names[i + 1])
  }

  lemma {:induction false} ChainWalk(fs: FileSystem, names: seq<string>, level: nat)
    requires IsChain(fs, names)
    ensures Walk(fs, [], [names[0]], level) ==
            if |names| <= level then Found([names[|names| - 1]]) else TooManyLinks
    decreases |names|
  {
    var item := names[0];
    assert [] + [item] == [item] && [item][1..] == [];
    if level > 0 && |names| > 1 {
      assert Look(fs, [], item) == Via(names[1]);
      SplitName(names[1]);
      ChainWalk(fs, names[1..], level - 1);
    }
  }

  /** A chain of 39 links is followed to its end, and no longer one. */
  lemma ChainLimit(w: World, names: seq<string>, base: string)
    requires IsChain(w.fs, names)
    ensures Answer(w, "/" + names[0], base, false, SYMLOOP_LEVEL) ==
            if |names| - 1 <= 39 then Found([names[|names| - 1]]) else TooManyLinks
  {
    SplitName(names[0]);
    assert ("/" + names[0])[1..] == names[0];
    ChainWalk(w.fs, names, SYMLOOP_LEVEL);
  }

  /** The string handed to the caller; every failure shows as the empty string. */
  function Shown(o: Outcome): string {
    match o
    case Found(stack) => Canonical(stack)
    case _ => ""
  }

  /** The result has no link, "." or ".." in it, all its prefixes exist, and it resolves to itself. */
  lemma AnswerIsReal(w: World, path: string, base: string)
    requires path != ""
    ensures var r := Answer(w, path, base, false, SYMLOOP_LEVEL);
            r.Found? ==>
              RealStack(w.fs, r.stack) && AllEntries(r.stack) &&
              (forall k | 0 < k <= |r.stack| :: Exists(w.fs, r.stack[..k])) &&
              Answer(w, Canonical(r.stack), base, false, SYMLOOP_LEVEL) == r
  {
    var (stack, items) := Start(w, path, base, false);
    WalkStaysReal(w.fs, stack, items, SYMLOOP_LEVEL);
    match Walk(w.fs, stack, items, SYMLOOP_LEVEL)
    case Found(at) =>
      CanonicalIsAbsolute(at);
      RealStackIsPlain(w.fs, at);
      SplitCanonical(at);
      RealResolvesToItself(w.fs, at, SYMLOOP_LEVEL);
      forall k | 0 < k <= |at| ensures Exists(w.fs, at[..k]) {
        RealPrefixExists(w.fs, at, k);
      }
    case _ =>
  }

  // ---------- the memoised resolution ----------

  // How far a call has come.
  datatype Progress = Lost | Heading(outcome: Outcome)

  /** What a call is heading for when `result` is the real path `stack` and the components `rest` are
      still to be handled. */
  ghost function Ahead(fs: FileSystem, result: string, stack: seq<string>, rest: seq<string>, level: nat): Progress {
    if AllNames(rest) && RealStack(fs, stack) && result == Canonical(stack) then
      Heading(Walk(fs, stack, rest, level))
    else Lost
  }

  lemma UpStep(fs: FileSystem, result: string, stack: seq<string>, rest: seq<string>, level: nat, goal: Outcome)
    requires Ahead(fs, result, stack, rest, level) == Heading(goal) && rest != [] && rest[0] == ".."
    ensures var n := LastSeparator(result);
            n >= 0 && Ahead(fs, if n == 0 then [SEPARATOR] else result[..n], Parent(stack), rest[1..], level) ==
              Heading(goal)
  {
    RealStackIsPlain(fs, stack);
    CutCanonical(stack);
    UpAhead(fs, result, stack, rest, level);
  }

  lemma UpAhead(fs: FileSystem, result: string, stack: seq<string>, rest: seq<string>, level: nat)
    requires Ahead(fs, result, stack, rest, level).Heading? && rest != [] && rest[0] == ".."
    ensures Ahead(fs, Canonical(Parent(stack)), Parent(stack), rest[1..], level) ==
              Ahead(fs, result, stack, rest, level)
  {
    LookStaysReal(fs, stack, rest[0]);
  }

  /** lstat and readlink on the extended string tell what the next component does. */
  lemma ModeIsLook(fs: FileSystem, stack: seq<string>, item: string)
    requires AllNames(stack) && IsEntry(item)
    ensures var path := Append(Canonical(stack), item);
            match Look(fs, stack, item)
            case Gone => ModeOf(fs, path) == NoFile
            case Via(target) => ModeOf(fs, path) == LinkMode && TextOf(fs, path) == target
            case To(next) => ModeOf(fs, path) == OtherMode && next == stack + [item] && path == Canonical(next)
  {
    AppendCanonical(stack, item);
  }

  /** A nested call is a resolution of the link's text from the directory of the link. */
  lemma NestedAnswer(w: World, target: string, stack: seq<string>, level: nat)
    requires AllNames(stack) && target != ""
    ensures Split(Canonical(stack)) == stack
    ensures Answer(w, target, if IsRelative(target) then Canonical(stack) else "", true, level) ==
            Follow(w.fs, stack, target, level)
  {
    SplitCanonical(stack);
  }

  /** The nested call for a link may be made, and its answer is where the resolution goes on. */
  lemma LinkCall(w: World, symlink: string, directory: string, level: nat, stack: seq<string>, rest: seq<string>,
                 goal: Outcome) returns (next: seq<string>)
    requires LinksResolve(w.fs) && 0 < level <= SYMLOOP_LEVEL && !goal.TooManyLinks?
    requires Ahead(w.fs, directory, stack, rest, level) == Heading(goal) && rest != [] && symlink != ""
    requires Look(w.fs, stack, rest[0]) == Via(symlink)
    ensures directory == Canonical(Split(directory)) && RealStack(w.fs, Split(directory))
    ensures Answer(w, symlink, if IsRelative(symlink) then directory else "", true, level - 1) == Found(next)
    ensures Ahead(w.fs, Canonical(next), next, rest[1..], level) == Heading(goal)
  {
    AheadIsPlain(w.fs, directory, stack, rest, level);
    LinkStep(w.fs, directory, stack, rest, level, goal);
    NestedAnswer(w, symlink, stack, level - 1);
    next := Follow(w.fs, stack, symlink, level - 1).stack;
  }

  lemma AheadIsPlain(fs: FileSystem, result: string, stack: seq<string>, rest: seq<string>, level: nat)
    requires Ahead(fs, result, stack, rest, level).Heading?
    ensures AllNames(stack) && RealStack(fs, stack) && result == Canonical(stack) && AllNames(rest)
  {
    RealStackIsPlain(fs, stack);
  }

  lemma EntryStep(fs: FileSystem, result: string, stack: seq<string>, rest: seq<string>, level: nat, goal: Outcome)
    requires level > 0 && Ahead(fs, result, stack, rest, level) == Heading(goal) && rest != []
    ensures match Look(fs, stack, rest[0])
            case Gone => goal == NoEntry
            case Via(target) => true
            case To(next) => Ahead(fs, Canonical(next), next, rest[1..], level) == Heading(goal)
  {
    if Look(fs, stack, rest[0]).To? {
      LookStaysReal(fs, stack, rest[0]);
    }
  }

  lemma LinkStep(fs: FileSystem, result: string, stack: seq<string>, rest: seq<string>, level: nat, goal: Outcome)
    requires LinksResolve(fs) && 0 < level <= SYMLOOP_LEVEL && !goal.TooManyLinks?
    requires Ahead(fs, result, stack, rest, level) == Heading(goal) && rest != [] && Look(fs, stack, rest[0]).Via?
    ensures var r := Follow(fs, stack, Look(fs, stack, rest[0]).target, level - 1);
            r.Found? && Ahead(fs, Canonical(r.stack), r.stack, rest[1..], level) == Heading(goal)
  {
    var target := Look(fs, stack, rest[0]).target;
    WalkTurns(fs, stack, rest, level);
    assert LinkResolves(fs, stack, rest[0]);
    BehindLink(fs, stack, target, rest[1..], level, goal);
  }

  lemma BehindLink(fs: FileSystem, stack: seq<string>, target: string, tail: seq<string>, level: nat, goal: Outcome)
    requires RealStack(fs, stack) && AllNames(tail) && 0 < level <= SYMLOOP_LEVEL && !goal.TooManyLinks?
    requires Follow(fs, stack, target, SYMLOOP_LEVEL - 1).Found?
    requires goal == Behind(fs, Follow(fs, stack, target, level - 1), tail, level)
    ensures var r := Follow(fs, stack, target, level - 1);
            r.Found? && Ahead(fs, Canonical(r.stack), r.stack, tail, level) == Heading(goal)
  {
    LinkFound(fs, stack, target, level - 1);
  }

  /** A link that resolves does so at every level that it does not overrun. */
  lemma LinkFound(fs: FileSystem, stack: seq<string>, target: string, level: nat)
    requires RealStack(fs, stack) && level < SYMLOOP_LEVEL && !Follow(fs, stack, target, level).TooManyLinks?
    requires Follow(fs, stack, target, SYMLOOP_LEVEL - 1).Found?
    ensures Follow(fs, stack, target, level).Found? && RealStack(fs, Follow(fs, stack, target, level).stack)
  {
    WalkLevelIndependent(fs, Origin(stack, target), Split(target), level, SYMLOOP_LEVEL - 1);
    WalkStaysReal(fs, Origin(stack, target), Split(target), level);
  }

  lemma StartAhead(w: World, path: string, base: string, baseIsReal: bool, level: nat)
    requires path != ""
    requires baseIsReal && IsRelative(path) ==> base == Canonical(Split(base)) && RealStack(w.fs, Split(base))
    ensures var (stack, items) := Start(w, path, base, baseIsReal);
            Ahead(w.fs, if baseIsReal && IsRelative(path) then base else [SEPARATOR], stack, items, level) ==
            Heading(Answer(w, path, base, baseIsReal, level))
  {
  }

  class RealPathCache {
    const world: World
    ghost const linksResolve: bool := LinksResolve(world.fs)
    var lstatCache: map<string, Mode>
    var readlinkCache: map<string, string>
    var cache: map<string, (string, Errno)>
    var errno: Errno

    constructor (w: World)
      ensures world == w && Valid()
      ensures lstatCache == map[] && readlinkCache == map[] && cache == map[]
    {
      world := w;
      lstatCache, readlinkCache, cache, errno := map[], map[], map[], Unset;
    }

    /** The tables only repeat what the file system says, and every entry for an absolute path is the
        uncached resolution of its key. */
    ghost predicate Valid()
      reads this`lstatCache, this`readlinkCache, this`cache
    {
      (forall k :: k in lstatCache ==> lstatCache[k] == ModeOf(world.fs, k)) &&
      (forall k :: k in readlinkCache ==> readlinkCache[k] == TextOf(world.fs, k)) &&
      (linksResolve ==> CacheRight())
    }

    ghost predicate CacheRight()
      reads this`cache
    {
      forall k :: k in cache && !IsRelative(k) ==> EntryRight(k, cache[k])
    }

    ghost predicate EntryRight(key: string, entry: (string, Errno)) {
      entry.0 == Shown(Answer(world, key, "", false, SYMLOOP_LEVEL)) &&
      (entry.0 == "" ==> entry.1 == ENOENT)
    }

    method CachedLstat(path: string) returns (mode: Mode)
      requires Valid()
      modifies this`lstatCache
      ensures Valid() && mode == ModeOf(world.fs, path)
    {
      if path in lstatCache {
        return lstatCache[path];
      }
      mode := ModeOf(world.fs, path);
      lstatCache := lstatCache[path := mode];
    }

    method CachedReadlink(path: string) returns (text: string)
      requires Valid()
      modifies this`readlinkCache
      ensures Valid() && text == TextOf(world.fs, path)
    {
      if path in readlinkCache {
        return readlinkCache[path];
      }
      text := TextOf(world.fs, path);
      if path in world.fs && world.fs[path].Link? {
        readlinkCache := readlinkCache[path := text];
      }
    }

    /** An entry that is already there is kept. */
    method Remember(path: string, result: string)
      requires Valid()
      requires linksResolve && !IsRelative(path) ==> EntryRight(path, (result, errno))
      modifies this`cache
      ensures Valid()
      ensures cache == if path in old(cache) then old(cache) else old(cache)[path := (result, errno)]
    {
      if path !in cache {
        cache := cache[path := (result, errno)];
      }
    }

    /** Goes on from a link that was found in `directory`, at `level` inside the current call. */
    method ResolveLink(symlink: string, directory: string, level: nat,
                       ghost stack: seq<string>, ghost rest: seq<string>, ghost goal: Outcome)
        returns (r: string, ghost next: seq<string>)
      requires Valid() && 0 < level <= SYMLOOP_LEVEL
      requires linksResolve ==>
                 Ahead(world.fs, directory, stack, rest, level) == Heading(goal) && !goal.TooManyLinks? &&
                 rest != [] && symlink != "" && Look(world.fs, stack, rest[0]) == Via(symlink)
      modifies this
      ensures Valid()
      ensures linksResolve ==> Ahead(world.fs, r, next, rest[1..], level) == Heading(goal)
      decreases level, 0
    {
      next := stack;
      if linksResolve {
        next := LinkCall(world, symlink, directory, level, stack, rest, goal);
      }
      if IsRelative(symlink) {
        r := CachedRealpath(symlink, directory, true, level - 1);
      } else {
        r := CachedRealpath(symlink, "", true, level - 1);
      }
    }

    /** Handles one path list item. */
    method HandleItem(directory: string, item: string, level: nat,
                      ghost stack: seq<string>, ghost rest: seq<string>, ghost goal: Outcome)
        returns (result: string, missing: bool, ghost next: seq<string>)
      requires Valid() && 0 < level <= SYMLOOP_LEVEL && rest != [] && IsName(item) && item == rest[0]
      requires linksResolve ==>
                 Ahead(world.fs, directory, stack, rest, level) == Heading(goal) && !goal.TooManyLinks?
      modifies this
      ensures Valid()
      ensures linksResolve && missing ==> goal == NoEntry
      ensures linksResolve && !missing ==> Ahead(world.fs, result, next, rest[1..], level) == Heading(goal)
      decreases level, 1
    {
      result, missing, next := directory, false, stack;
      if item == "." {
        return;
      }
      if item == ".." {
        if linksResolve {
          UpStep(world.fs, result, stack, rest, level, goal);
          next := Parent(stack);
        }
        var s := LastSeparator(result);
        if s != -1 {
          result := result[..s];
        }
        if result == "" {
          result := [SEPARATOR];
        }
        return;
      }
      if linksResolve {
        AheadIsPlain(world.fs, directory, stack, rest, level);
        ModeIsLook(world.fs, stack, item);
        EntryStep(world.fs, directory, stack, rest, level, goal);
      }
      result := Append(result, item);
      var mode := CachedLstat(result);
      if mode == LinkMode {
        var symlink := CachedReadlink(result);
        result, next := ResolveLink(symlink, directory, level, stack, rest, goal);
      } else if mode == NoFile {
        missing := true;
      } else {
        next := stack + [item];
      }
    }

    /** The directory a resolution starts in and the path list items it goes through. */
    method PathList(path: string, base: string, baseIsReal: bool) returns (result: string, p: seq<string>)
      requires path != ""
      ensures p == Start(world, path, base, baseIsReal).1
      ensures result == if baseIsReal && IsRelative(path) then base else [SEPARATOR]
    {
      result, p := [SEPARATOR], [];
      if IsRelative(path) {
        if baseIsReal {
          result := base;
        } else if path[0] == '~' && (|path| == 1 || path[1] == SEPARATOR) {
          p := Split(world.home);
        } else if base == "" {
          p := Split(world.workingDirectory);
        } else {
          p := Split(base);
        }
      }
      p := p + Split(path);
    }

    /** A call from outside: nothing is asked of the path or of the base. */
    method ResolvePath(path: string, base: string := "") returns (r: string)
      requires Valid()
      modifies this
      ensures Valid()
      ensures linksResolve ==> r == Shown(Answer(world, path, base, false, SYMLOOP_LEVEL))
      ensures linksResolve && r == "" ==> errno == ENOENT
    {
      if linksResolve {
        OutsideAnswer(world, path, base);
      }
      r := CachedRealpath(path, base);
    }

    /** Calls from outside leave `baseIsReal` false and `level` at its default; a nested call passes a
        real directory and never overruns its level when all links resolve. */
    method CachedRealpath(path: string, base: string := "", baseIsReal: bool := false, level: nat := SYMLOOP_LEVEL)
        returns (r: string)
      requires Valid() && level <= SYMLOOP_LEVEL
      requires linksResolve && baseIsReal && IsRelative(path) ==>
                 base == Canonical(Split(base)) && RealStack(world.fs, Split(base))
      requires linksResolve ==> !Answer(world, path, base, baseIsReal, level).TooManyLinks?
      modifies this
      ensures Valid()
      ensures linksResolve ==> r == Shown(Answer(world, path, base, baseIsReal, level))
      ensures linksResolve && r == "" ==> errno == ENOENT
      decreases level, 3
    {
      if path == "" {
        errno := ENOENT;
        return "";
      }
      if level == 0 {
        errno := ELOOP;
        return "";
      }
      ghost var goal := Answer(world, path, base, baseIsReal, level);
      ghost var stack := Start(world, path, base, baseIsReal).0;
      if linksResolve {
        StartAhead(world, path, base, baseIsReal, level);
        FullLevelAnswer(world, path, base, baseIsReal, level);
      }
      if !IsRelative(path) && path in cache {
        errno := cache[path].1;
        return cache[path].0;
      }

      var result, p := PathList(path, base, baseIsReal);
      var missing;
      result, missing, stack := HandleItems(result, p, level, stack, goal);
      if missing {
        errno := ENOENT;
        Remember(path, "");
        return "";
      }
      Remember(path, result);
      r := result;
    }

    /** Handles the path list items one after the other. */
    method HandleItems(directory: string, p: seq<string>, level: nat, ghost stack: seq<string>, ghost goal: Outcome)
        returns (result: string, missing: bool, ghost at: seq<string>)
      requires Valid() && 0 < level <= SYMLOOP_LEVEL && AllNames(p)
      requires linksResolve ==>
                 Ahead(world.fs, directory, stack, p, level) == Heading(goal) && !goal.TooManyLinks?
      modifies this
      ensures Valid()
      ensures linksResolve ==> if missing then goal == NoEntry else goal == Found(at) && result == Canonical(at)
      decreases level, 2
    {
      result, missing, at := directory, false, stack;
      ghost var rest := p;
      var i := 0;
      while i < |p|
        invariant 0 <= i <= |p| && rest == p[i..] && Valid()
        invariant linksResolve ==> Ahead(world.fs, result, at, rest, level) == Heading(goal)
      {
        result, missing, at := HandleItem(result, p[i], level, at, rest, goal);
        if missing {
          return;
        }
        rest := rest[1..];
        i := i + 1;
      }
    }
  }

  function ModeOf(fs: FileSystem, path: string): Mode {
    if path !in fs then NoFile else if fs[path].Link? then LinkMode else OtherMode
  }

  function TextOf(fs: FileSystem, path: string): string {
    if path in fs && fs[path].Link? then fs[path].target else ""
  }
}
