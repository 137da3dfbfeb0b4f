/** The search for a library that has a symbol, over runs in which libraries get loaded. */
module LibrarySearch {

  import opened BloomFilters
  import opened LibraryNames
  import opened LibrarySymbols
  import opened LibraryRegistry
  import opened LibraryScan

  datatype Option<T> = None | Some(value: T)

  // ---------- what is searched for ----------

  /** The first library in the list that contains the symbol. */
  function FirstWith(files: Files, list: seq<Key>, s: Symbol, ignore: set<Flag>): Option<Key> {
    if list == [] then None
    else if Contains(files, list[0], s, ignore) then Some(list[0])
    else FirstWith(files, list[1..], s, ignore)
  }

  predicate NoneHas(files: Files, list: seq<Key>, s: Symbol, ignore: set<Flag>) {
    forall k | k in list :: !Contains(files, k, s, ignore)
  }

  predicate IsFirst(files: Files, list: seq<Key>, key: Key, s: Symbol, ignore: set<Flag>) {
    Contains(files, key, s, ignore) &&
    exists i | 0 <= i < |list| :: list[i] == key && forall j | 0 <= j < i :: !Contains(files, list[j], s, ignore)
  }

  lemma {:induction false} FirstWithIsFirst(files: Files, list: seq<Key>, s: Symbol, ignore: set<Flag>)
    ensures match FirstWith(files, list, s, ignore)
      case None => NoneHas(files, list, s, ignore)
      case Some(key) => IsFirst(files, list, key, s, ignore)
  {
    if list != [] && !Contains(files, list[0], s, ignore) {
      var rest := list[1..];
      FirstWithIsFirst(files, rest, s, ignore);
      var found := FirstWith(files, rest, s, ignore);
      if found.Some? {
        var i :| 0 <= i < |rest| && rest[i] == found.value && Contains(files, rest[i], s, ignore) &&
                 forall j | 0 <= j < i :: !Contains(files, rest[j], s, ignore);
        assert list[i + 1] == found.value;
        forall j | 0 <= j < i + 1
          ensures !Contains(files, list[j], s, ignore)
        {
          if j > 0 {
            assert list[j] == rest[j - 1];
          }
        }
      }
    }
  }

  /** The list without the libraries in `gone`. */
  function Prune(list: seq<Key>, gone: set<Key>): seq<Key> {
    if list == [] then []
    else
      var init := Prune(list[..|list| - 1], gone);
      if list[|list| - 1] in gone then init else init + [list[|list| - 1]]
  }

  lemma {:induction false} PruneMembers(list: seq<Key>, gone: set<Key>, k: Key)
    ensures k in Prune(list, gone) <==> k in list && k !in gone
  {
    if list != [] {
      PruneMembers(list[..|list| - 1], gone, k);
    }
  }

  lemma {:induction false} PruneTwice(list: seq<Key>, gone: set<Key>, k: Key)
    ensures Prune(Prune(list, gone), {k}) == Prune(list, gone + {k})
  {
    if list != [] {
      var last := list[|list| - 1];
      PruneTwice(list[..|list| - 1], gone, k);
      if last !in gone {
        var init := Prune(list[..|list| - 1], gone);
        assert (init + [last])[..|init|] == init;
      }
    }
  }

  lemma {:induction false} PruneNothing(list: seq<Key>)
    ensures Prune(list, {}) == list
  {
    if list != [] {
      PruneNothing(list[..|list| - 1]);
    }
  }

  lemma {:induction false} WithoutIsPrune(libs: seq<LibraryPath>, key: Key)
    ensures Keys(Without(libs, key)) == Prune(Keys(libs), {key})
  {
    if libs != [] {
      var init, last := libs[..|libs| - 1], libs[|libs| - 1];
      WithoutIsPrune(init, key);
      assert (Keys(init) + [last.key])[..|Keys(init)|] == Keys(init);
      if last.key != key {
        AppendedLast(Without(init, key), last);
      }
    }
  }

  // ---------- what a query does ----------

  /** The registered user and system libraries and those that were the answer to a query. */
  datatype State = State(user: seq<Key>, system: seq<Key>, queried: seq<Key>, firstRun: bool, firstRunSystem: bool)

  function KeySet(list: seq<Key>): set<Key> {
    set k | k in list
  }

  function UserScanned(host: Host, loaded: set<Key>, st: State): State {
    if !st.firstRun then st
    else st.(user := VisitRoots(host, loaded, Roots(host, host.searchPaths, false, {}), st.user, KeySet(st.system)),
             firstRun := false)
  }

  function SystemScanned(host: Host, loaded: set<Key>, st: State): State {
    if !st.firstRunSystem then st
    else st.(system := VisitRoots(host, loaded, Roots(host, host.searchPaths, true, {}), st.system, KeySet(st.user)),
             firstRunSystem := false)
  }

  /** What was the answer to a query and has been loaded since is no longer looked at. */
  function LoadedDropped(loaded: set<Key>, st: State): State {
    var gone := KeySet(st.queried) * loaded;
    st.(user := Prune(st.user, gone), system := Prune(st.system, gone))
  }

  function Answered(st: State, key: Key): State {
    if key in st.queried then st else st.(queried := st.queried + [key])
  }

  const USER_IGNORES: set<Flag> := {Undefined}
  const SYSTEM_IGNORES: set<Flag> := {Undefined, Weak}

  /** One query: the libraries that were loaded are dropped, then the user libraries are searched,
      then, when asked for, the system libraries. */
  function Search(host: Host, loaded: set<Key>, st: State, s: Symbol, searchSystem: bool): (State, Option<Key>) {
    var st := LoadedDropped(loaded, UserScanned(host, loaded, st));
    var found := FirstWith(host.files, st.user, s, USER_IGNORES);
    if found.Some? then (Answered(st, found.value), found)
    else if !searchSystem then (st, None)
    else SearchSystem(host, SystemScanned(host, loaded, st), s)
  }

  function SearchSystem(host: Host, st: State, s: Symbol): (State, Option<Key>) {
    var found := FirstWith(host.files, st.system, s, SYSTEM_IGNORES);
    if found.Some? then (Answered(st, found.value), found) else (st, None)
  }

  // ---------- looking through one registry ----------

  /** Two listed libraries do not share a filter. */
  lemma FiltersApart(libs: seq<LibraryPath>, a: LibraryPath, b: LibraryPath)
    requires NoRepeats(libs) && a in libs && b in libs && a.key == b.key
    ensures a == b
  {
    var i :| 0 <= i < |libs| && libs[i] == a;
    var j :| 0 <= j < |libs| && libs[j] == b;
    IndexComplete(libs, i);
    IndexComplete(libs, j);
  }

  /** Asking one listed library keeps the whole registry faithful. */
  method AskLibrary(registry: LibraryPaths, lib: LibraryPath, files: Files, s: Symbol, ignore: set<Flag>)
    returns (r: bool)
    requires registry.Valid() && registry.Faithful() && lib in registry.libs
    requires files == registry.files && ignore == registry.ignore
    modifies registry.owned, registry.filters
    ensures registry.Valid() && registry.Faithful()
    ensures r == Contains(files, lib.key, s, ignore)
  {
    forall other | other in registry.libs && other.filter == lib.filter
      ensures other == lib
    {
      FiltersApart(registry.libs, other, lib);
    }
    r := lib.ContainsSymbol(files, s, ignore);
  }

  method FindLibrary(registry: LibraryPaths, files: Files, s: Symbol, ignore: set<Flag>)
    returns (r: Option<LibraryPath>)
    requires registry.Valid() && registry.Faithful()
    requires files == registry.files && ignore == registry.ignore
    modifies registry.owned, registry.filters
    ensures registry.Valid() && registry.Faithful() && (r.Some? ==> r.value in registry.libs)
    ensures FirstWith(files, Keys(registry.libs), s, ignore) == if r.Some? then Some(r.value.key) else None
  {
    var libs := registry.libs;
    ghost var goal := FirstWith(files, Keys(libs), s, ignore);
    var i := 0;
    while i < |libs|
      invariant i <= |libs| && registry.Valid() && registry.Faithful()
      invariant FirstWith(files, Keys(libs)[i..], s, ignore) == goal
    {
      KeysAt(libs, i);
      var has := AskLibrary(registry, libs[i], files, s, ignore);
      if has {
        return Some(libs[i]);
      }
      assert Keys(libs)[i..][1..] == Keys(libs)[i + 1..];
      i := i + 1;
    }
    r := None;
  }

  // ---------- the search ----------

  class Dyld {
    const host: Host
    const libraries: LibraryPaths
    const sysLibraries: LibraryPaths
    const queriedLibraries: LibraryPaths
    var firstRun: bool
    var firstRunSysLib: bool

    constructor (host: Host)
      ensures this.host == host && Valid() && Abs() == State([], [], [], true, true)
      ensures fresh(libraries) && fresh(sysLibraries) && fresh(queriedLibraries)
      ensures libraries.owned == {} && sysLibraries.owned == {} && libraries.filters == {} && sysLibraries.filters == {}
    {
      this.host := host;
      libraries := new LibraryPaths(host.files, USER_IGNORES);
      sysLibraries := new LibraryPaths(host.files, SYSTEM_IGNORES);
      queriedLibraries := new LibraryPaths(host.files, {});
      firstRun, firstRunSysLib := true, true;
    }

    /** The three registries are different, and the first two are asked about the files of the host. */
    ghost predicate Wired() {
      && libraries != sysLibraries && libraries != queriedLibraries && sysLibraries != queriedLibraries
      && libraries.files == host.files && libraries.ignore == USER_IGNORES
      && sysLibraries.files == host.files && sysLibraries.ignore == SYSTEM_IGNORES
    }

    ghost predicate Valid()
      reads this, libraries, sysLibraries, queriedLibraries
      reads libraries.owned, libraries.filters, sysLibraries.owned, sysLibraries.filters
    {
      Wired() && queriedLibraries.Valid() && Sound(libraries) && Sound(sysLibraries) &&
      Disjoint(libraries, sysLibraries)
    }

    static ghost predicate Sound(registry: LibraryPaths)
      reads registry, registry.owned, registry.filters
    {
      registry.Valid() && registry.Faithful()
    }

    /** The registries have no library or filter in common. */
    static ghost predicate Disjoint(a: LibraryPaths, b: LibraryPaths)
      reads a, b
    {
      a.owned !! b.owned && a.filters !! b.filters
    }

    ghost function Abs(): State
      reads this, libraries, sysLibraries, queriedLibraries
    {
      State(Keys(libraries.libs), Keys(sysLibraries.libs), Keys(queriedLibraries.libs), firstRun, firstRunSysLib)
    }

    method ScanUserLibraries(loaded: set<Key>)
      requires Valid() && firstRun
      modifies this`firstRun, libraries
      ensures Valid() && libraries.OwnsMore()
      ensures Abs() == UserScanned(host, loaded, old(Abs()))
    {
      ScanInto(loaded, false, libraries, sysLibraries);
      firstRun := false;
    }

    method ScanSystemLibraries(loaded: set<Key>)
      requires Valid() && firstRunSysLib
      modifies this`firstRunSysLib, sysLibraries
      ensures Valid() && sysLibraries.OwnsMore()
      ensures Abs() == SystemScanned(host, loaded, old(Abs()))
    {
      ScanInto(loaded, true, sysLibraries, libraries);
      firstRunSysLib := false;
    }

    /** The scan proper: what comes into one registry is in no other. */
    method ScanInto(loaded: set<Key>, system: bool, target: LibraryPaths, other: LibraryPaths)
      requires target != other && Sound(target) && Sound(other) && Disjoint(target, other)
      modifies target
      ensures Sound(target) && Sound(other) && Disjoint(target, other) && Disjoint(other, target) && target.OwnsMore()
      ensures Keys(target.libs) == VisitRoots(host, loaded, Roots(host, host.searchPaths, system, {}),
                                              Keys(old(target.libs)), KeySet(Keys(other.libs)))
    {
      ListedKeys(other.libs);
      ScanForLibraries(host, loaded, system, target, other);
    }

    method DropOne(key: Key)
      requires Valid()
      modifies libraries, sysLibraries
      ensures Valid() && SameOwned(libraries) && SameOwned(sysLibraries)
      ensures Keys(libraries.libs) == Prune(Keys(old(libraries.libs)), {key})
      ensures Keys(sysLibraries.libs) == Prune(Keys(old(sysLibraries.libs)), {key})
    {
      DropFrom(libraries, key);
      DropFrom(sysLibraries, key);
    }

    static method DropFrom(registry: LibraryPaths, key: Key)
      requires Sound(registry)
      modifies registry
      ensures Sound(registry) && SameOwned(registry) && Keys(registry.libs) == Prune(Keys(old(registry.libs)), {key})
    {
      WithoutIsPrune(registry.libs, key);
      registry.UnregisterLib(key);
    }

    method DropLoaded(loaded: set<Key>)
      requires Valid()
      modifies libraries, sysLibraries
      ensures Valid() && SameOwned(libraries) && SameOwned(sysLibraries)
      ensures Abs() == LoadedDropped(loaded, old(Abs()))
    {
      ghost var user, system := Keys(libraries.libs), Keys(sysLibraries.libs);
      var libs := queriedLibraries.libs;
      ghost var gone: set<Key> := {};
      PruneNothing(user);
      PruneNothing(system);
      var i := 0;
      while i < |libs|
        invariant i <= |libs| && Valid()
        invariant SameOwned(libraries) && SameOwned(sysLibraries)
        invariant gone == KeySet(Keys(libs)[..i]) * loaded
        invariant Keys(libraries.libs) == Prune(user, gone) && Keys(sysLibraries.libs) == Prune(system, gone)
      {
        var key := libs[i].key;
        OneMoreGone(Keys(libs), i, loaded);
        KeysAt(libs, i);
        if key in loaded {
          DropOne(key);
          PruneTwice(user, gone, key);
          PruneTwice(system, gone, key);
          gone := gone + {key};
        }
        i := i + 1;
      }
      assert Keys(libs)[..i] == Keys(libs);
    }

    method SearchUserLibraries(s: Symbol) returns (r: Option<Key>)
      requires Valid()
      modifies queriedLibraries, libraries.owned, libraries.filters
      ensures Valid() && r == FirstWith(host.files, old(Abs()).user, s, USER_IGNORES)
      ensures Abs() == if r.Some? then Answered(old(Abs()), r.value) else old(Abs())
    {
      var lib := FindLibrary(libraries, host.files, s, USER_IGNORES);
      if lib.None? {
        return None;
      }
      RecordAnswer(lib.value);
      r := Some(lib.value.key);
    }

    method SearchSystemLibraries(s: Symbol) returns (r: Option<Key>)
      requires Valid()
      modifies queriedLibraries, sysLibraries.owned, sysLibraries.filters
      ensures Valid() && (Abs(), r) == SearchSystem(host, old(Abs()), s)
    {
      var lib := FindLibrary(sysLibraries, host.files, s, SYSTEM_IGNORES);
      if lib.None? {
        return None;
      }
      RecordAnswer(lib.value);
      r := Some(lib.value.key);
    }

    method RecordAnswer(lib: LibraryPath)
      requires Valid()
      modifies queriedLibraries
      ensures Valid() && Abs() == Answered(old(Abs()), lib.key)
    {
      IndexIsList(queriedLibraries.libs, lib.key);
      if !queriedLibraries.HasRegisteredLib(lib.key) {
        queriedLibraries.RegisterLib(lib);
      }
    }

    /** The library to load for a symbol that is not loaded; its full name is `FullName` of the key,
        and the empty string stands for `None`. */
    method SearchLibrariesForSymbol(s: Symbol, searchSystem: bool, loaded: set<Key>) returns (r: Option<Key>)
      requires Valid()
      modifies this, libraries, sysLibraries, queriedLibraries
      modifies libraries.owned, libraries.filters, sysLibraries.owned, sysLibraries.filters
      ensures Valid() && libraries.OwnsMore() && sysLibraries.OwnsMore()
      ensures (Abs(), r) == Search(host, loaded, old(Abs()), s, searchSystem)
    {
      r := AskUserLibraries(s, loaded);
      if r.Some? || !searchSystem {
        return;
      }
      r := AskSystemLibraries(s, loaded);
    }

    method AskUserLibraries(s: Symbol, loaded: set<Key>) returns (r: Option<Key>)
      requires Valid()
      modifies this`firstRun, libraries, sysLibraries, queriedLibraries, libraries.owned, libraries.filters
      ensures Valid() && libraries.OwnsMore() && SameOwned(sysLibraries)
      ensures var st := LoadedDropped(loaded, UserScanned(host, loaded, old(Abs())));
              r == FirstWith(host.files, st.user, s, USER_IGNORES) &&
              Abs() == if r.Some? then Answered(st, r.value) else st
    {
      if firstRun {
        ScanUserLibraries(loaded);
      }
      DropLoaded(loaded);
      r := SearchUserLibraries(s);
    }

    method AskSystemLibraries(s: Symbol, loaded: set<Key>) returns (r: Option<Key>)
      requires Valid()
      modifies this`firstRunSysLib, sysLibraries, queriedLibraries, sysLibraries.owned, sysLibraries.filters
      ensures Valid() && sysLibraries.OwnsMore()
      ensures (Abs(), r) == SearchSystem(host, SystemScanned(host, loaded, old(Abs())), s)
    {
      if firstRunSysLib {
        ScanSystemLibraries(loaded);
      }
      r := SearchSystemLibraries(s);
    }

    static twostate predicate SameOwned(registry: LibraryPaths)
      reads registry
    {
      registry.owned == old(registry.owned) && registry.filters == old(registry.filters)
    }
  }

  lemma OneMoreGone(keys: seq<Key>, i: nat, loaded: set<Key>)
    requires i < |keys|
    ensures KeySet(keys[..i + 1]) * loaded ==
            if keys[i] in loaded then KeySet(keys[..i]) * loaded + {keys[i]} else KeySet(keys[..i]) * loaded
  {
    assert keys[..i + 1] == keys[..i] + [keys[i]];
  }

  lemma ListedKeys(libs: seq<LibraryPath>)
    ensures Index(libs).Keys == KeySet(Keys(libs))
  {
    forall k: Key
      ensures k in Index(libs).Keys <==> k in KeySet(Keys(libs))
    {
      IndexIsList(libs, k);
    }
  }
}
