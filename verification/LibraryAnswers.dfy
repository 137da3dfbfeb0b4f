/** Which libraries get listed, and that a library which may be loaded and defines the symbol is found: by the
    first query, and by every later one until it is loaded. */
module LibraryAnswers {

  import opened BloomFilters
  import opened LibraryNames
  import opened LibrarySymbols
  import opened LibraryScan
  import opened LibraryScanTheory
  import opened LibrarySearch
  import opened LibrarySearchTheory

  // ---------- what may be listed ----------

  /** The directory of a search path has a file, or a link that leads to one. */
  ghost predicate Offers(host: Host, p: SearchPath, entry: Entry, f: Key) {
    var dir := host.realPath(p.path);
    p in host.searchPaths && dir != "" && dir in host.directories && entry in host.directories[dir] &&
    (entry == LinkToFile(f) || (entry.File? && f == Key(dir, entry.name)))
  }

  /** There is a section ".text", and the first one is allocated and in the file. */
  predicate HasCode(sections: seq<Section>) {
    exists i | 0 <= i < |sections| ::
      sections[i].name == ".text" && sections[i].isAllocated && !sections[i].noBits &&
      forall j | 0 <= j < i :: sections[j].name != ".text"
  }

  /** A shared library of the format of the process, with code if that can be told, and else not ignored
      by the callback. */
  predicate IsCandidate(host: Host, f: Key) {
    f in host.files && host.isShared(f) && host.files[f].format == host.format &&
    if host.files[f].isElf then HasCode(host.files[f].sections) else !host.isIgnored(f)
  }

  predicate IsExecutable(host: Host, f: Key) {
    f in host.files && host.files[f].isElf && host.files[f].isPie
  }

  lemma {:induction false} CodeIsLoaded(sections: seq<Section>)
    ensures TextIsLoaded(sections) <==> HasCode(sections)
  {
    if sections != [] {
      var rest := sections[1..];
      CodeIsLoaded(rest);
      if sections[0].name != ".text" && HasCode(rest) {
        var i :| 0 <= i < |rest| && rest[i].name == ".text" && rest[i].isAllocated && !rest[i].noBits &&
                 forall j | 0 <= j < i :: rest[j].name != ".text";
        CodeBehind(sections, i);
      }
      if sections[0].name != ".text" && HasCode(sections) {
        var i :| 0 <= i < |sections| && sections[i].name == ".text" && sections[i].isAllocated &&
                 !sections[i].noBits && forall j | 0 <= j < i :: sections[j].name != ".text";
        assert rest[i - 1] == sections[i];
      }
    }
  }

  lemma CodeBehind(sections: seq<Section>, i: nat)
    requires i + 1 < |sections| && sections[0].name != ".text"
    requires sections[1..][i].name == ".text" && sections[1..][i].isAllocated && !sections[1..][i].noBits
    requires forall j | 0 <= j < i :: sections[1..][j].name != ".text"
    ensures HasCode(sections)
  {
    assert forall j | 0 < j < i + 1 :: sections[j] == sections[1..][j - 1];
    assert sections[i + 1] == sections[1..][i];
  }

  lemma IgnoredExactly(host: Host, loaded: set<Key>, f: Key)
    ensures ShouldPermanentlyIgnore(host, loaded, f) <==> f in loaded || !IsCandidate(host, f)
  {
    if f in host.files {
      CodeIsLoaded(host.files[f].sections);
    }
  }

  // ---------- what a scan lists ----------

  lemma OfferedIsMet(host: Host, loaded: set<Key>, system: bool, list: seq<Key>, other: set<Key>, p: SearchPath,
                     entry: Entry, f: Key)
    requires Offers(host, p, entry, f) && p.isUser != system && !IsExecutable(host, f)
    requires IsCandidate(host, f) && f !in loaded && f !in other
    ensures f in VisitRoots(host, loaded, Roots(host, host.searchPaths, system, {}), list, other)
  {
    ScannedLibraryIsRegistered(host, loaded, system, list, other, p, entry, f);
    IgnoredExactly(host, loaded, f);
  }

  /** What a scan adds is not in the other registry, not loaded, and a candidate. */
  lemma AddedIsCandidate(host: Host, loaded: set<Key>, roots: seq<Key>, list: seq<Key>, other: set<Key>, k: Key)
    requires k in VisitRoots(host, loaded, roots, list, other) && k !in list
    ensures k !in other && k !in loaded && IsCandidate(host, k)
  {
    ScanAddsFine(host, loaded, roots, list, other, k);
    IgnoredExactly(host, loaded, k);
  }

  // ---------- what a query lists ----------

  predicate SystemIsAsked(host: Host, loaded: set<Key>, st: State, s: Symbol, searchSystem: bool) {
    searchSystem && FirstWith(host.files, LoadedDropped(loaded, UserScanned(host, loaded, st)).user, s,
                              {Undefined}).None?
  }

  lemma QueryLists(host: Host, loaded: set<Key>, st: State, s: Symbol, searchSystem: bool)
    ensures var after := Search(host, loaded, st, s, searchSystem).0;
            var dropped := LoadedDropped(loaded, UserScanned(host, loaded, st));
            after.user == dropped.user &&
            after.system == if SystemIsAsked(host, loaded, st, s, searchSystem) then
                              SystemScanned(host, loaded, dropped).system
                            else dropped.system
    ensures !SystemIsAsked(host, loaded, st, s, searchSystem) ==>
              Search(host, loaded, st, s, searchSystem).0.firstRunSystem == st.firstRunSystem &&
              (searchSystem ==> Search(host, loaded, st, s, searchSystem).1.Some?)
  {
  }

  /** What is listed goes exactly when it was an answer and is loaded. */
  lemma ListedStays(host: Host, loaded: set<Key>, st: State, s: Symbol, searchSystem: bool, k: Key)
    ensures var after := Search(host, loaded, st, s, searchSystem).0;
            (k in st.user ==> (k in after.user <==> !(k in st.queried && k in loaded))) &&
            (k in st.system ==> (k in after.system <==> !(k in st.queried && k in loaded)))
  {
    var gone := KeySet(st.queried) * loaded;
    var scanned := UserScanned(host, loaded, st);
    var dropped := LoadedDropped(loaded, scanned);
    QueryLists(host, loaded, st, s, searchSystem);
    PruneMembers(scanned.user, gone, k);
    PruneMembers(scanned.system, gone, k);
    var after := SystemScanned(host, loaded, dropped);
    if k in after.system && k !in dropped.system && st.firstRunSystem {
      AddedIsCandidate(host, loaded, Roots(host, host.searchPaths, true, {}), dropped.system, KeySet(dropped.user), k);
    }
  }

  /** The first query lists exactly the candidates among the libraries that the user directories offer;
      executables apart, which are listed only when something depends on them. */
  lemma UserLibraryListedExactly(host: Host, loaded: set<Key>, st: State, s: Symbol, searchSystem: bool, p: SearchPath,
                                 entry: Entry, f: Key)
    requires st.firstRun && p.isUser && Offers(host, p, entry, f) && !IsExecutable(host, f)
    requires f !in st.user && f !in st.system
    ensures var after := Search(host, loaded, st, s, searchSystem).0;
            !after.firstRun && (f in after.user <==> IsCandidate(host, f) && f !in loaded)
  {
    var roots := Roots(host, host.searchPaths, false, {});
    var scanned := UserScanned(host, loaded, st);
    QueryLists(host, loaded, st, s, searchSystem);
    PruneMembers(scanned.user, KeySet(st.queried) * loaded, f);
    if f in scanned.user {
      AddedIsCandidate(host, loaded, roots, st.user, KeySet(st.system), f);
    } else if IsCandidate(host, f) && f !in loaded {
      OfferedIsMet(host, loaded, false, st.user, KeySet(st.system), p, entry, f);
    }
  }

  /** The same for system libraries, when they are asked for the first time. */
  lemma SystemLibraryListedExactly(host: Host, loaded: set<Key>, st: State, s: Symbol, searchSystem: bool,
                                   p: SearchPath, entry: Entry, f: Key)
    requires st.firstRunSystem && !p.isUser && Offers(host, p, entry, f) && !IsExecutable(host, f)
    requires SystemIsAsked(host, loaded, st, s, searchSystem) && f !in st.system
    ensures var after := Search(host, loaded, st, s, searchSystem).0;
            !after.firstRunSystem &&
            (f in after.system <==> IsCandidate(host, f) && f !in loaded && f !in after.user)
  {
    var roots := Roots(host, host.searchPaths, true, {});
    var dropped := LoadedDropped(loaded, UserScanned(host, loaded, st));
    QueryLists(host, loaded, st, s, searchSystem);
    PruneMembers(st.system, KeySet(st.queried) * loaded, f);
    if f in SystemScanned(host, loaded, dropped).system {
      AddedIsCandidate(host, loaded, roots, dropped.system, KeySet(dropped.user), f);
    } else if IsCandidate(host, f) && f !in loaded && f !in dropped.user {
      OfferedIsMet(host, loaded, true, dropped.system, KeySet(dropped.user), p, entry, f);
    }
  }

  /** Later queries list nothing new. */
  lemma NothingNewLater(host: Host, loaded: set<Key>, st: State, s: Symbol, searchSystem: bool, k: Key)
    ensures var after := Search(host, loaded, st, s, searchSystem).0;
            (!st.firstRun && k in after.user ==> k in st.user) &&
            ((!st.firstRunSystem || !searchSystem) && k in after.system ==> k in st.system)
  {
    var scanned := UserScanned(host, loaded, st);
    QueryLists(host, loaded, st, s, searchSystem);
    PruneMembers(scanned.user, KeySet(st.queried) * loaded, k);
    PruneMembers(scanned.system, KeySet(st.queried) * loaded, k);
  }

  // ---------- what a query finds ----------

  /** A symbol table of the file has a defined symbol of this name; in the static table of a system library
      it must not be a weak one. For ELF the test in its .gnu.hash section must not rule the name out. */
  ghost predicate Defines(file: ObjectFile, s: Symbol, system: bool) {
    s != [] && (file.isElf ==> file.mayExist(GnuHash(s))) &&
    ((exists e | e in file.symbols ::
       e.name == s && Undefined !in e.flags && (system ==> Weak !in e.flags)) ||
     (file.isElf && exists e | e in file.dynamicSymbols :: e.name == s && Undefined !in e.flags))
  }

  lemma UserContains(files: Files, f: Key, s: Symbol)
    requires s != []
    ensures Contains(files, f, s, USER_IGNORES) <==> f in files && Defines(files[f], s, false)
  {
    ContainsMeans(files, f, s, USER_IGNORES);
    if f in files {
      KeptByUser(files[f].symbols, s);
      KeptByUser(files[f].dynamicSymbols, s);
    }
  }

  lemma KeptByUser(symbols: seq<ObjectSymbol>, s: Symbol)
    requires s != []
    ensures (exists e | e in symbols :: Keeps(e, {Undefined}) && e.name == s) <==>
            exists e | e in symbols :: e.name == s && Undefined !in e.flags
  {
  }

  lemma KeptBySystem(symbols: seq<ObjectSymbol>, s: Symbol)
    requires s != []
    ensures (exists e | e in symbols :: Keeps(e, {Undefined, Weak}) && e.name == s) <==>
            exists e | e in symbols :: e.name == s && Undefined !in e.flags && Weak !in e.flags
  {
  }

  lemma SystemContains(files: Files, f: Key, s: Symbol)
    requires s != []
    ensures Contains(files, f, s, SYSTEM_IGNORES) <==> f in files && Defines(files[f], s, true)
  {
    ContainsMeans(files, f, s, SYSTEM_IGNORES);
    if f in files {
      KeptBySystem(files[f].symbols, s);
      KeptByUser(files[f].dynamicSymbols, s);
    }
  }

  /** A query answers exactly when a listed library defines the symbol, and with one that does. */
  lemma AnsweredExactly(host: Host, loaded: set<Key>, st: State, s: Symbol, searchSystem: bool)
    requires s != []
    ensures var (after, r) := Search(host, loaded, st, s, searchSystem);
            (r.Some? <==>
             (exists f | f in after.user :: f in host.files && Defines(host.files[f], s, false)) ||
             (searchSystem && exists f | f in after.system :: f in host.files && Defines(host.files[f], s, true))) &&
            (r.Some? ==> r.value in host.files && Defines(host.files[r.value], s, false))
  {
    var (after, r) := Search(host, loaded, st, s, searchSystem);
    SearchAnswersFirst(host, loaded, st, s, searchSystem);
    forall f
      ensures Contains(host.files, f, s, USER_IGNORES) <==> f in host.files && Defines(host.files[f], s, false)
      ensures Contains(host.files, f, s, SYSTEM_IGNORES) <==> f in host.files && Defines(host.files[f], s, true)
    {
      UserContains(host.files, f, s);
      SystemContains(host.files, f, s);
    }
  }

  // ---------- over runs ----------

  /** The library is listed, or will be when the directories of its kind are scanned. */
  predicate WithinReach(st: State, isUser: bool, f: Key) {
    f in st.user ||
    if isUser then st.firstRun && f !in st.system else f in st.system || st.firstRunSystem
  }

  lemma StaysWithinReach(host: Host, loaded: set<Key>, st: State, s: Symbol, searchSystem: bool, p: SearchPath,
                         entry: Entry, f: Key)
    requires Offers(host, p, entry, f) && IsCandidate(host, f) && !IsExecutable(host, f)
    requires f !in loaded && WithinReach(st, p.isUser, f)
    ensures var (after, r) := Search(host, loaded, st, s, searchSystem);
            WithinReach(after, p.isUser, f) && (p.isUser ==> f in after.user) &&
            (!p.isUser && searchSystem ==> f in after.user || f in after.system || r.Some?)
  {
    ListedStays(host, loaded, st, s, searchSystem, f);
    if f !in st.user && p.isUser {
      UserLibraryListedExactly(host, loaded, st, s, searchSystem, p, entry, f);
    } else if f !in st.user && f !in st.system {
      QueryLists(host, loaded, st, s, searchSystem);
      if SystemIsAsked(host, loaded, st, s, searchSystem) {
        SystemLibraryListedExactly(host, loaded, st, s, searchSystem, p, entry, f);
      }
    }
  }

  /** A query finds an answer when a library within reach defines the symbol. */
  lemma ReachedIsFound(host: Host, loaded: set<Key>, st: State, s: Symbol, searchSystem: bool, p: SearchPath,
                       entry: Entry, f: Key)
    requires Offers(host, p, entry, f) && IsCandidate(host, f) && !IsExecutable(host, f)
    requires f !in loaded && WithinReach(st, p.isUser, f) && (p.isUser || searchSystem)
    requires Defines(host.files[f], s, !p.isUser)
    ensures Search(host, loaded, st, s, searchSystem).1.Some?
  {
    StaysWithinReach(host, loaded, st, s, searchSystem, p, entry, f);
    AnsweredExactly(host, loaded, st, s, searchSystem);
  }

  lemma {:induction false} ReachedLater(host: Host, st: State, queries: seq<Query>, j: nat, p: SearchPath, entry: Entry,
                                        f: Key)
    requires Offers(host, p, entry, f) && IsCandidate(host, f) && !IsExecutable(host, f)
    requires j < |queries| && WithinReach(st, p.isUser, f) && forall i | 0 <= i <= j :: f !in queries[i].loaded
    requires (p.isUser || queries[j].searchSystem) && Defines(host.files[f], queries[j].symbol, !p.isUser)
    ensures Answers(host, st, queries)[j].Some?
    decreases j
  {
    var q := queries[0];
    if j == 0 {
      ReachedIsFound(host, q.loaded, st, q.symbol, q.searchSystem, p, entry, f);
    } else {
      StaysWithinReach(host, q.loaded, st, q.symbol, q.searchSystem, p, entry, f);
      assert queries[1..][j - 1] == queries[j];
      ReachedLater(host, Search(host, q.loaded, st, q.symbol, q.searchSystem).0, queries[1..], j - 1, p, entry, f);
    }
  }

  /** Over any run from the start: as long as a candidate that a search directory offers is not loaded, every
      query for a symbol that it defines finds an answer, if it is a user library or system libraries are
      searched. */
  lemma UnloadedLibraryIsFound(host: Host, queries: seq<Query>, j: nat, p: SearchPath, entry: Entry, f: Key)
    requires Offers(host, p, entry, f) && IsCandidate(host, f) && !IsExecutable(host, f)
    requires j < |queries| && forall i | 0 <= i <= j :: f !in queries[i].loaded
    requires (p.isUser || queries[j].searchSystem) && Defines(host.files[f], queries[j].symbol, !p.isUser)
    ensures Answers(host, State([], [], [], true, true), queries)[j].Some?
  {
    ReachedLater(host, State([], [], [], true, true), queries, j, p, entry, f);
  }

  // ---------- what is offered and what is depended on, and nothing else ----------

  lemma {:induction false} EntryIsRoot(dir: string, entries: seq<Entry>, f: Key)
    requires f in EntryRoots(dir, entries)
    ensures exists entry | entry in entries ::
              entry == LinkToFile(f) || (entry.File? && f == Key(dir, entry.name))
    decreases |entries|
  {
    if f in EntryRoot(dir, entries[0]) {
      assert entries[0] in entries;
    } else {
      EntryIsRoot(dir, entries[1..], f);
      var entry :| entry in entries[1..] && (entry == LinkToFile(f) || (entry.File? && f == Key(dir, entry.name)));
      assert entry in entries;
    }
  }

  /** The scan begins with what the directories of its kind offer. */
  lemma {:induction false} RootIsOffered(host: Host, paths: seq<SearchPath>, system: bool, scanned: set<string>, f: Key)
    requires (forall p | p in paths :: p in host.searchPaths) && f in Roots(host, paths, system, scanned)
    ensures exists p: SearchPath, entry :: p.isUser != system && Offers(host, p, entry, f)
    decreases |paths|
  {
    var dir := host.realPath(paths[0].path);
    if paths[0].isUser == system || dir !in host.directories || dir == "" || dir in scanned {
      RootIsOffered(host, paths[1..], system, scanned, f);
    } else if f in EntryRoots(dir, host.directories[dir]) {
      EntryIsRoot(dir, host.directories[dir], f);
      var entry :| entry in host.directories[dir] &&
                   (entry == LinkToFile(f) || (entry.File? && f == Key(dir, entry.name)));
      assert Offers(host, paths[0], entry, f);
    } else {
      RootIsOffered(host, paths[1..], system, scanned + {dir}, f);
    }
  }

  /** The file names a directory of its own for its dependencies, one that is not a search path. */
  ghost predicate NamesOwnPath(host: Host, file: ObjectFile) {
    exists path :: (path in file.rpath || path in file.runpath) && forall p | p in host.searchPaths :: p.path != path
  }

  lemma FollowedExactly(host: Host, f: Key)
    ensures IsFollowed(host, f) <==> f in host.files && host.files[f].isElf && NamesOwnPath(host, host.files[f])
  {
  }

  /** The dependencies of a listed library are found by the lookup with its own paths. */
  predicate DependsOn(host: Host, f: Key, d: Key) {
    f in host.files && host.files[f].isElf &&
    var file := host.files[f];
    exists i | 0 <= i < |file.needed| :: d == host.lookUp(file.needed[i], file.rpath, file.runpath, f)
  }

  /** What a library that names paths of its own depends on is listed with it. */
  lemma DependencyIsListed(host: Host, loaded: set<Key>, roots: seq<Key>, list: seq<Key>, other: set<Key>, f: Key,
                           d: Key)
    requires f in VisitRoots(host, loaded, roots, list, other) && f !in list
    requires DependsOn(host, f, d) && NamesOwnPath(host, host.files[f])
    requires IsCandidate(host, d) && d !in loaded && d !in other
    ensures d in VisitRoots(host, loaded, roots, list, other)
  {
    var r := VisitRoots(host, loaded, roots, list, other);
    ScanCloses(host, loaded, roots, list, other);
    var n :| 0 <= n < |r| && r[n] == f;
    assert n >= |list|;
    FollowedExactly(host, f);
    var file := host.files[f];
    var i :| 0 <= i < |file.needed| && d == host.lookUp(file.needed[i], file.rpath, file.runpath, f);
    DependencyMet(host, loaded, f, |file.needed|, i, r, other);
    IgnoredExactly(host, loaded, d);
  }

  lemma {:induction false} MetWithout(host: Host, loaded: set<Key>, f: Key, n: nat, list: seq<Key>, other: set<Key>,
                                      k: Key)
    requires f in host.files && n <= |host.files[f].needed| && MetUpTo(host, loaded, f, n, list, other)
    requires forall i | 0 <= i < n :: Dependency(host, f, i) != k
    ensures MetUpTo(host, loaded, f, n, [], KeySet(list) + other - {k})
    decreases n
  {
    if n > 0 {
      MetWithout(host, loaded, f, n - 1, list, other, k);
    }
  }

  lemma {:induction false} RootsMetWithout(host: Host, loaded: set<Key>, roots: seq<Key>, list: seq<Key>,
                                           other: set<Key>, k: Key)
    requires RootsMet(host, loaded, roots, list, other) && (k in roots ==> IsPie(host, k))
    ensures RootsMet(host, loaded, roots, [], KeySet(list) + other - {k})
    decreases |roots|
  {
    if roots != [] {
      RootsMetWithout(host, loaded, roots[1..], list, other, k);
    }
  }

  /** Everything that a scan lists is offered by a directory of its kind, or a library listed by the same scan
      that names paths of its own depends on it. */
  lemma ListedForAReason(host: Host, loaded: set<Key>, system: bool, list: seq<Key>, other: set<Key>, k: Key)
    requires var r := VisitRoots(host, loaded, Roots(host, host.searchPaths, system, {}), list, other);
             k in r && k !in list
    ensures var r := VisitRoots(host, loaded, Roots(host, host.searchPaths, system, {}), list, other);
            (!IsExecutable(host, k) && exists p: SearchPath, entry ::
             p.isUser != system && Offers(host, p, entry, k)) ||
            exists f | f in r :: f !in list && DependsOn(host, f, k) && NamesOwnPath(host, host.files[f])
  {
    var roots := Roots(host, host.searchPaths, system, {});
    var r := VisitRoots(host, loaded, roots, list, other);
    if k in roots && !IsPie(host, k) {
      RootIsOffered(host, host.searchPaths, system, {}, k);
    } else if forall f | f in r && f !in list && IsFollowed(host, f) :: !DependsOn(host, f, k) {
      ScanCloses(host, loaded, roots, list, other);
      NotListedWithout(host, loaded, roots, list, other, k);
    } else {
      var f :| f in r && f !in list && IsFollowed(host, f) && DependsOn(host, f, k);
      FollowedExactly(host, f);
    }
  }

  lemma NotListedWithout(host: Host, loaded: set<Key>, roots: seq<Key>, list: seq<Key>, other: set<Key>, k: Key)
    requires var r := VisitRoots(host, loaded, roots, list, other);
             RootsMet(host, loaded, roots, r, other) && ClosedFrom(host, loaded, |list|, r, other) && list <= r &&
             forall f | f in r && f !in list && IsFollowed(host, f) :: !DependsOn(host, f, k)
    requires k in roots ==> IsPie(host, k)
    ensures k in VisitRoots(host, loaded, roots, list, other) ==> k in list
  {
    var r := VisitRoots(host, loaded, roots, list, other);
    var wanted := KeySet(r) + other - {k};
    RootsMetWithout(host, loaded, roots, r, other, k);
    forall f | f in wanted && f !in KeySet(list) + other
      ensures DependenciesMet(host, loaded, f, [], wanted)
    {
      if IsFollowed(host, f) {
        var n :| 0 <= n < |r| && r[n] == f;
        assert n >= |list|;
        MetWithout(host, loaded, f, |host.files[f].needed|, r, other, k);
      }
    }
    ScanMinimal(host, loaded, roots, list, other, KeySet(list) + other, wanted);
    assert forall n | 0 <= n < |r| :: r[n] in list || n >= |list|;
  }
}
