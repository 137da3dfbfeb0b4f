/** Registering the libraries found in a directory, together with what they depend on. */
module LibraryScan {

  import opened LibraryNames
  import opened LibrarySymbols
  import opened LibraryRegistry
  import Paths

  // ---------- what the scan is given ----------

  datatype SearchPath = SearchPath(path: string, isUser: bool)

  /** An entry of a directory; links are shown with what they lead to in the end. */
  datatype Entry = File(name: string) | LinkToFile(target: Key) | LinkToDirectory(path: string) | OtherEntry

  /** The parts of the host that the scan asks and that do not change while it runs. */
  datatype Host = Host(
    files: Files,
    directories: map<string, seq<Entry>>,
    searchPaths: seq<SearchPath>,
    format: string,
    realPath: string -> string,
    isShared: Key -> bool,
    isIgnored: Key -> bool,
    lookUp: (string, seq<string>, seq<string>, Key) -> Key)

  /** The first ".text" section tells whether there is code, or only what debuggers read. */
  predicate TextIsLoaded(sections: seq<Section>) {
    sections != [] &&
    if sections[0].name == ".text" then !sections[0].noBits && sections[0].isAllocated
    else TextIsLoaded(sections[1..])
  }

  predicate ShouldPermanentlyIgnore(host: Host, loaded: set<Key>, f: Key) {
    if !host.isShared(f) || f in loaded || f !in host.files || host.files[f].format != host.format then true
    else if host.files[f].isElf then !TextIsLoaded(host.files[f].sections)
    else host.isIgnored(f)
  }

  predicate AreSearchPaths(host: Host, paths: seq<string>) {
    forall p | p in paths :: exists q | q in host.searchPaths :: q.path == p
  }

  /** Heuristics H1 and H2: when nothing but the search paths is named, dependencies are left alone. */
  predicate SkipsDependencies(host: Host, file: ObjectFile) {
    (file.rpath == [] && file.runpath == []) ||
    (AreSearchPaths(host, file.rpath) && AreSearchPaths(host, file.runpath))
  }

  /** The scan goes on from `f` to what it needs. */
  predicate IsFollowed(host: Host, f: Key) {
    f in host.files && host.files[f].isElf && !SkipsDependencies(host, host.files[f])
  }

  function Dependency(host: Host, f: Key, i: nat): Key
    requires f in host.files && i < |host.files[f].needed|
  {
    host.lookUp(host.files[f].needed[i], host.files[f].rpath, host.files[f].runpath, f)
  }

  predicate IsPie(host: Host, f: Key) {
    f in host.files && host.files[f].isElf && host.files[f].isPie
  }

  // ---------- the order in which libraries are registered ----------

  /** The files that are not registered yet. */
  function Unregistered(host: Host, list: seq<Key>, other: set<Key>): set<Key> {
    set f | f in host.files && f !in list && f !in other
  }

  lemma Cardinality<T>(small: set<T>, big: set<T>)
    requires small <= big
    ensures |small| <= |big| && (small != big ==> |small| < |big|)
  {
    assert big == small + (big - small);
  }

  lemma FewerUnregistered(host: Host, list: seq<Key>, longer: seq<Key>, other: set<Key>)
    requires list <= longer
    ensures |Unregistered(host, longer, other)| <= |Unregistered(host, list, other)|
  {
    Cardinality(Unregistered(host, longer, other), Unregistered(host, list, other));
  }

  lemma OneFewer(host: Host, f: Key, list: seq<Key>, other: set<Key>)
    requires f in host.files && f !in list && f !in other
    ensures |Unregistered(host, list + [f], other)| < |Unregistered(host, list, other)|
  {
    Cardinality(Unregistered(host, list + [f], other), Unregistered(host, list, other));
    assert f in Unregistered(host, list, other);
  }

  /** The keys of the scanned registry after handling file `f`; the other registry has the keys
      `other`. An executable is registered only as a dependency. */
  function Visit(host: Host, loaded: set<Key>, f: Key, isRoot: bool, list: seq<Key>, other: set<Key>): (r: seq<Key>)
    ensures list <= r
    decreases |Unregistered(host, list, other)|, 0, 0
  {
    if f in list || f in other || ShouldPermanentlyIgnore(host, loaded, f) then list
    else if isRoot && IsPie(host, f) then list
    else if IsFollowed(host, f) then
      OneFewer(host, f, list, other);
      VisitFrom(host, loaded, f, 0, list + [f], other)
    else list + [f]
  }

  /** The same, after handling the dependencies of `f` from the `i`-th on. */
  function VisitFrom(host: Host, loaded: set<Key>, f: Key, i: nat, list: seq<Key>, other: set<Key>): (r: seq<Key>)
    requires f in host.files && i <= |host.files[f].needed|
    ensures list <= r
    decreases |Unregistered(host, list, other)|, 1, |host.files[f].needed| - i
  {
    if i == |host.files[f].needed| then list
    else
      var next := Visit(host, loaded, Dependency(host, f, i), false, list, other);
      FewerUnregistered(host, list, next, other);
      VisitFrom(host, loaded, f, i + 1, next, other)
  }

  function EntryRoot(dir: string, entry: Entry): seq<Key> {
    match entry
    case File(name) => [Key(dir, name)]
    case LinkToFile(target) => [target]
    case _ => []
  }

  /** The libraries to begin with that a directory has. */
  function EntryRoots(dir: string, entries: seq<Entry>): seq<Key> {
    if entries == [] then [] else EntryRoot(dir, entries[0]) + EntryRoots(dir, entries[1..])
  }

  /** The libraries to begin with, in the order in which the search paths are gone through, when the
      directories `scanned` are done; no directory is scanned twice. */
  function Roots(host: Host, paths: seq<SearchPath>, system: bool, scanned: set<string>): seq<Key> {
    if paths == [] then []
    else
      var dir := host.realPath(paths[0].path);
      if paths[0].isUser == system || dir !in host.directories || dir == "" || dir in scanned then
        Roots(host, paths[1..], system, scanned)
      else
        EntryRoots(dir, host.directories[dir]) + Roots(host, paths[1..], system, scanned + {dir})
  }

  function VisitRoots(host: Host, loaded: set<Key>, roots: seq<Key>, list: seq<Key>, other: set<Key>): (r: seq<Key>)
    ensures list <= r
    decreases |roots|
  {
    if roots == [] then list
    else VisitRoots(host, loaded, roots[1..], Visit(host, loaded, roots[0], true, list, other), other)
  }

  lemma {:induction false} VisitRootsConcat(host: Host, loaded: set<Key>, a: seq<Key>, b: seq<Key>, list: seq<Key>,
                                            other: set<Key>)
    ensures VisitRoots(host, loaded, a + b, list, other) ==
            VisitRoots(host, loaded, b, VisitRoots(host, loaded, a, list, other), other)
    decreases |a|
  {
    if a == [] {
      assert a + b == b;
    } else {
      assert (a + b)[1..] == a[1..] + b;
      VisitRootsConcat(host, loaded, a[1..], b, Visit(host, loaded, a[0], true, list, other), other);
    }
  }

  // ---------- the scan ----------

  method HandleLib(host: Host, loaded: set<Key>, f: Key, level: nat, target: LibraryPaths, other: LibraryPaths)
    requires target != other && target.Valid() && other.Valid() && target.Faithful()
    modifies target
    ensures target.Valid() && target.Faithful() && target.OwnsMore()
    ensures Keys(target.libs) == Visit(host, loaded, f, level == 0, Keys(old(target.libs)), other.index.Keys)
    decreases |Unregistered(host, Keys(target.libs), other.index.Keys)|, 0, 1
  {
    IndexIsList(target.libs, f);
    if target.HasRegisteredLib(f) || other.HasRegisteredLib(f) {
      return;
    }
    if ShouldPermanentlyIgnore(host, loaded, f) {
      return;
    }
    HandleNew(host, loaded, f, level, target, other);
  }

  method RegisterNew(f: Key, target: LibraryPaths)
    requires target.Valid() && target.Faithful() && f !in target.index
    modifies target
    ensures target.Valid() && target.Faithful() && target.OwnsMore()
    ensures Keys(target.libs) == Keys(old(target.libs)) + [f]
    ensures Without(target.libs, f) == old(target.libs)
  {
    var lib := new LibraryPath(f);
    target.RegisterLib(lib);
    RegisteringUndone(old(target.libs), lib);
  }

  /** The part of `HandleLib` for a file that is neither registered nor to be ignored. */
  method HandleNew(host: Host, loaded: set<Key>, f: Key, level: nat, target: LibraryPaths, other: LibraryPaths)
    requires target != other && target.Valid() && other.Valid() && target.Faithful()
    requires f !in target.index && f !in Keys(target.libs) && f !in other.index
    requires !ShouldPermanentlyIgnore(host, loaded, f)
    modifies target
    ensures target.Valid() && target.Faithful() && target.OwnsMore()
    ensures Keys(target.libs) == Visit(host, loaded, f, level == 0, Keys(old(target.libs)), other.index.Keys)
    decreases |Unregistered(host, Keys(target.libs), other.index.Keys)|, 0, 0
  {
    OneFewer(host, f, Keys(target.libs), other.index.Keys);
    RegisterNew(f, target);
    var file := host.files[f];
    if file.isElf && level == 0 && file.isPie {
      target.UnregisterLib(f);
      return;
    }
    // What is not ELF names neither dependencies nor paths, so the first heuristic applies.
    if !file.isElf || SkipsDependencies(host, file) {
      return;
    }
    HandleDependencies(host, loaded, f, level, target, other);
  }

  method HandleDependencies(host: Host, loaded: set<Key>, f: Key, level: nat, target: LibraryPaths, other: LibraryPaths)
    requires target != other && target.Valid() && other.Valid() && target.Faithful()
    requires f in host.files
    modifies target
    ensures target.Valid() && target.Faithful() && target.OwnsMore()
    ensures Keys(target.libs) == VisitFrom(host, loaded, f, 0, Keys(old(target.libs)), other.index.Keys)
    decreases |Unregistered(host, Keys(target.libs), other.index.Keys)|, 1, 1
  {
    ghost var start := Keys(target.libs);
    ghost var goal := VisitFrom(host, loaded, f, 0, start, other.index.Keys);
    var file := host.files[f];
    var i := 0;
    while i < |file.needed|
      invariant i <= |file.needed| && target.Valid() && target.Faithful()
      invariant target.OwnsMore()
      invariant start <= Keys(target.libs)
      invariant VisitFrom(host, loaded, f, i, Keys(target.libs), other.index.Keys) == goal
    {
      HandleDependency(host, loaded, f, i, level, target, other, start);
      i := i + 1;
    }
  }

  method HandleDependency(host: Host, loaded: set<Key>, f: Key, i: nat, level: nat, target: LibraryPaths,
                          other: LibraryPaths,
                          ghost start: seq<Key>)
    requires target != other && target.Valid() && other.Valid() && target.Faithful()
    requires f in host.files && i < |host.files[f].needed| && start <= Keys(target.libs)
    modifies target
    ensures target.Valid() && target.Faithful() && target.OwnsMore()
    ensures start <= Keys(target.libs)
    ensures VisitFrom(host, loaded, f, i + 1, Keys(target.libs), other.index.Keys) ==
            VisitFrom(host, loaded, f, i, Keys(old(target.libs)), other.index.Keys)
    decreases |Unregistered(host, start, other.index.Keys)|, 1, 0
  {
    FewerUnregistered(host, start, Keys(target.libs), other.index.Keys);
    var file := host.files[f];
    var dependency := host.lookUp(file.needed[i], file.rpath, file.runpath, f);
    HandleLib(host, loaded, dependency, level + 1, target, other);
  }

  lemma RegisteringUndone(libs: seq<LibraryPath>, lib: LibraryPath)
    requires lib.key !in Index(libs)
    ensures Without(libs + [lib], lib.key) == libs
  {
    assert (libs + [lib])[..|libs|] == libs;
    WithoutAbsent(libs, lib.key);
  }

  method HandleEntry(host: Host, loaded: set<Key>, dir: string, entry: Entry, target: LibraryPaths, other: LibraryPaths)
    requires target != other && target.Valid() && other.Valid() && target.Faithful()
    modifies target
    ensures target.Valid() && target.Faithful() && target.OwnsMore()
    ensures Keys(target.libs) == VisitRoots(host, loaded, EntryRoot(dir, entry), Keys(old(target.libs)),
                                            other.index.Keys)
  {
    match entry
    case File(name) => HandleLib(host, loaded, Key(dir, name), 0, target, other);
    case LinkToFile(file) => HandleLib(host, loaded, file, 0, target, other);
    case _ =>
  }

  method ScanDirectory(host: Host, loaded: set<Key>, dir: string, entries: seq<Entry>, target: LibraryPaths,
                       other: LibraryPaths)
    requires target != other && target.Valid() && other.Valid() && target.Faithful()
    modifies target
    ensures target.Valid() && target.Faithful() && target.OwnsMore()
    ensures Keys(target.libs) == VisitRoots(host, loaded, EntryRoots(dir, entries), Keys(old(target.libs)),
                                            other.index.Keys)
  {
    ghost var goal := VisitRoots(host, loaded, EntryRoots(dir, entries), Keys(target.libs), other.index.Keys);
    var i := 0;
    while i < |entries|
      invariant i <= |entries| && target.Valid() && target.Faithful()
      invariant target.OwnsMore()
      invariant VisitRoots(host, loaded, EntryRoots(dir, entries[i..]), Keys(target.libs), other.index.Keys) == goal
    {
      EntryRootsStep(host, loaded, dir, entries, i, Keys(target.libs), other.index.Keys);
      HandleEntry(host, loaded, dir, entries[i], target, other);
      i := i + 1;
    }
  }

  lemma EntryRootsStep(host: Host, loaded: set<Key>, dir: string, entries: seq<Entry>, i: nat, list: seq<Key>,
                       other: set<Key>)
    requires i < |entries|
    ensures VisitRoots(host, loaded, EntryRoots(dir, entries[i..]), list, other) ==
            VisitRoots(host, loaded, EntryRoots(dir, entries[i + 1..]),
                       VisitRoots(host, loaded, EntryRoot(dir, entries[i]), list, other), other)
  {
    assert entries[i..][1..] == entries[i + 1..];
    VisitRootsConcat(host, loaded, EntryRoot(dir, entries[i]), EntryRoots(dir, entries[i + 1..]), list, other);
  }

  method ScanForLibraries(host: Host, loaded: set<Key>, searchSystemLibraries: bool, target: LibraryPaths,
                          other: LibraryPaths)
    requires target != other && target.Valid() && other.Valid() && target.Faithful()
    modifies target
    ensures target.Valid() && target.Faithful() && target.OwnsMore()
    ensures Keys(target.libs) == VisitRoots(host, loaded, Roots(host, host.searchPaths, searchSystemLibraries, {}),
                                            Keys(old(target.libs)), other.index.Keys)
  {
    var paths := host.searchPaths;
    var scanned: set<string> := {};
    ghost var goal := VisitRoots(host, loaded, Roots(host, paths, searchSystemLibraries, {}), Keys(target.libs),
                                 other.index.Keys);
    ghost var rest := paths;
    var i := 0;
    while i < |paths|
      invariant i <= |paths| && rest == paths[i..] && target.Valid() && target.Faithful()
      invariant target.OwnsMore()
      invariant VisitRoots(host, loaded, Roots(host, rest, searchSystemLibraries, scanned), Keys(target.libs),
                           other.index.Keys) == goal
    {
      RootsStep(host, loaded, rest, searchSystemLibraries, scanned, Keys(target.libs), other.index.Keys);
      scanned := ScanPath(host, loaded, paths[i], searchSystemLibraries, scanned, target, other);
      rest := rest[1..];
      i := i + 1;
    }
  }

  predicate IsScanned(host: Host, path: SearchPath, system: bool, scanned: set<string>) {
    var dir := host.realPath(path.path);
    path.isUser != system && dir in host.directories && dir != "" && dir !in scanned
  }

  method ScanPath(host: Host, loaded: set<Key>, path: SearchPath, searchSystemLibraries: bool, scanned: set<string>,
                  target: LibraryPaths, other: LibraryPaths) returns (now: set<string>)
    requires target != other && target.Valid() && other.Valid() && target.Faithful()
    modifies target
    ensures target.Valid() && target.Faithful() && target.OwnsMore()
    ensures var dir, before := host.realPath(path.path), Keys(old(target.libs));
            if IsScanned(host, path, searchSystemLibraries, scanned) then
              now == scanned + {dir} &&
              Keys(target.libs) == VisitRoots(host, loaded, EntryRoots(dir, host.directories[dir]), before,
                                              other.index.Keys)
            else now == scanned && Keys(target.libs) == before
  {
    now := scanned;
    if path.isUser != searchSystemLibraries {
      var dir := host.realPath(path.path);
      if dir in host.directories && dir != "" && dir !in scanned {
        ScanDirectory(host, loaded, dir, host.directories[dir], target, other);
        now := scanned + {dir};
      }
    }
  }

  /** The next search path is skipped, or its directory is scanned. */
  lemma RootsStep(host: Host, loaded: set<Key>, paths: seq<SearchPath>, system: bool, scanned: set<string>,
                  list: seq<Key>, other: set<Key>)
    requires paths != []
    ensures var dir := host.realPath(paths[0].path);
            VisitRoots(host, loaded, Roots(host, paths, system, scanned), list, other) ==
            if IsScanned(host, paths[0], system, scanned) then
              VisitRoots(host, loaded, Roots(host, paths[1..], system, scanned + {dir}),
                         VisitRoots(host, loaded, EntryRoots(dir, host.directories[dir]), list, other), other)
            else VisitRoots(host, loaded, Roots(host, paths[1..], system, scanned), list, other)
  {
    var dir := host.realPath(paths[0].path);
    if dir in host.directories {
      VisitRootsConcat(host, loaded, EntryRoots(dir, host.directories[dir]),
                       Roots(host, paths[1..], system, scanned + {dir}), list, other);
    }
  }
}
