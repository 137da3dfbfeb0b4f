/** What the scan for libraries achieves: everything that it should find is registered, nothing
    else is, and no library is in both registries. */
module LibraryScanTheory {

  import opened LibraryNames
  import opened LibraryScan

  /** A file is either registered or to be ignored. */
  predicate Met(host: Host, loaded: set<Key>, f: Key, list: seq<Key>, other: set<Key>) {
    ShouldPermanentlyIgnore(host, loaded, f) || f in list || f in other
  }

  /** The first `n` dependencies of `f` are met. */
  predicate MetUpTo(host: Host, loaded: set<Key>, f: Key, n: nat, list: seq<Key>, other: set<Key>)
    requires f in host.files && n <= |host.files[f].needed|
    decreases n
  {
    n == 0 || (MetUpTo(host, loaded, f, n - 1, list, other) &&
               Met(host, loaded, Dependency(host, f, n - 1), list, other))
  }

  predicate DependenciesMet(host: Host, loaded: set<Key>, f: Key, list: seq<Key>, other: set<Key>) {
    IsFollowed(host, f) ==> MetUpTo(host, loaded, f, |host.files[f].needed|, list, other)
  }

  /** Read out: every single dependency is met. */
  lemma {:induction false} DependencyMet(host: Host, loaded: set<Key>, f: Key, n: nat, i: nat, list: seq<Key>,
                                         other: set<Key>)
    requires f in host.files && i < n <= |host.files[f].needed| && MetUpTo(host, loaded, f, n, list, other)
    ensures Met(host, loaded, Dependency(host, f, i), list, other)
    decreases n
  {
    if i == n - 1 {
    } else {
      DependencyMet(host, loaded, f, n - 1, i, list, other);
    }
  }

  lemma {:induction false} MetGrows(host: Host, loaded: set<Key>, f: Key, n: nat, list: seq<Key>, longer: seq<Key>,
                                    other: set<Key>)
    requires f in host.files && n <= |host.files[f].needed| && list <= longer &&
               MetUpTo(host, loaded, f, n, list, other)
    ensures MetUpTo(host, loaded, f, n, longer, other)
    decreases n
  {
    if n > 0 {
      MetGrows(host, loaded, f, n - 1, list, longer, other);
    }
  }

  /** The libraries from the `n`-th on have their dependencies met. */
  ghost predicate ClosedFrom(host: Host, loaded: set<Key>, n: nat, list: seq<Key>, other: set<Key>) {
    forall i | n <= i < |list| :: DependenciesMet(host, loaded, list[i], list, other)
  }

  lemma ClosedFurther(host: Host, loaded: set<Key>, n: nat, list: seq<Key>, longer: seq<Key>, other: set<Key>)
    requires n <= |list| && list <= longer
    requires ClosedFrom(host, loaded, n, list, other) && ClosedFrom(host, loaded, |list|, longer, other)
    ensures ClosedFrom(host, loaded, n, longer, other)
  {
    forall i | n <= i < |longer|
      ensures DependenciesMet(host, loaded, longer[i], longer, other)
    {
      if i < |list| {
        var f := list[i];
        assert DependenciesMet(host, loaded, f, list, other);
        if IsFollowed(host, f) {
          MetGrows(host, loaded, f, |host.files[f].needed|, list, longer, other);
        }
      }
    }
  }

  /** Handling a file meets it, unless it is an executable in a directory, and closes what it adds. */
  lemma {:induction false} VisitCloses(host: Host, loaded: set<Key>, f: Key, isRoot: bool, list: seq<Key>,
                                       other: set<Key>)
    ensures ClosedFrom(host, loaded, |list|, Visit(host, loaded, f, isRoot, list, other), other)
    ensures (isRoot && IsPie(host, f)) || Met(host, loaded, f, Visit(host, loaded, f, isRoot, list, other), other)
    decreases |Unregistered(host, list, other)|, 0, 0
  {
    if f in list || f in other || ShouldPermanentlyIgnore(host, loaded, f) || (isRoot && IsPie(host, f)) {
    } else if IsFollowed(host, f) {
      OneFewer(host, f, list, other);
      VisitFromCloses(host, loaded, f, 0, list + [f], other);
      var r := VisitFrom(host, loaded, f, 0, list + [f], other);
      assert r[|list|] == f;
    }
  }

  lemma {:induction false} VisitFromCloses(host: Host, loaded: set<Key>, f: Key, i: nat, list: seq<Key>,
                                           other: set<Key>)
    requires f in host.files && i <= |host.files[f].needed| && MetUpTo(host, loaded, f, i, list, other)
    ensures ClosedFrom(host, loaded, |list|, VisitFrom(host, loaded, f, i, list, other), other)
    ensures MetUpTo(host, loaded, f, |host.files[f].needed|, VisitFrom(host, loaded, f, i, list, other), other)
    decreases |Unregistered(host, list, other)|, 1, |host.files[f].needed| - i
  {
    if i < |host.files[f].needed| {
      var next := Visit(host, loaded, Dependency(host, f, i), false, list, other);
      FewerUnregistered(host, list, next, other);
      VisitCloses(host, loaded, Dependency(host, f, i), false, list, other);
      MetGrows(host, loaded, f, i, list, next, other);
      VisitFromCloses(host, loaded, f, i + 1, next, other);
      ClosedFurther(host, loaded, |list|, next, VisitFrom(host, loaded, f, i + 1, next, other), other);
    }
  }

  /** Every file to begin with is met, apart from executables. */
  predicate RootsMet(host: Host, loaded: set<Key>, roots: seq<Key>, list: seq<Key>, other: set<Key>)
    decreases |roots|
  {
    roots == [] ||
    ((IsPie(host, roots[0]) || Met(host, loaded, roots[0], list, other)) &&
     RootsMet(host, loaded, roots[1..], list, other))
  }

  /** The whole scan: it keeps what was registered in its order, meets every file to begin with, and
      meets every dependency of every library that it adds. */
  lemma {:induction false} ScanCloses(host: Host, loaded: set<Key>, roots: seq<Key>, list: seq<Key>, other: set<Key>)
    ensures list <= VisitRoots(host, loaded, roots, list, other)
    ensures RootsMet(host, loaded, roots, VisitRoots(host, loaded, roots, list, other), other)
    ensures ClosedFrom(host, loaded, |list|, VisitRoots(host, loaded, roots, list, other), other)
    decreases |roots|
  {
    if roots != [] {
      var next := Visit(host, loaded, roots[0], true, list, other);
      VisitCloses(host, loaded, roots[0], true, list, other);
      ScanCloses(host, loaded, roots[1..], next, other);
      ClosedFurther(host, loaded, |list|, next, VisitRoots(host, loaded, roots[1..], next, other), other);
    }
  }

  lemma {:induction false} EntryAmongRoots(dir: string, entries: seq<Entry>, entry: Entry, f: Key)
    requires entry in entries && f in EntryRoot(dir, entry)
    ensures f in EntryRoots(dir, entries)
    decreases |entries|
  {
    if entry != entries[0] {
      EntryAmongRoots(dir, entries[1..], entry, f);
    }
  }

  lemma {:induction false} DirectoryAmongRoots(host: Host, paths: seq<SearchPath>, system: bool, scanned: set<string>,
                                               p: SearchPath, f: Key)
    requires p in paths && p.isUser != system && host.realPath(p.path) != ""
    requires host.realPath(p.path) in host.directories && host.realPath(p.path) !in scanned
    requires f in EntryRoots(host.realPath(p.path), host.directories[host.realPath(p.path)])
    ensures f in Roots(host, paths, system, scanned)
    decreases |paths|
  {
    var dir := host.realPath(paths[0].path);
    if paths[0].isUser == system || dir !in host.directories || dir == "" || dir in scanned {
      DirectoryAmongRoots(host, paths[1..], system, scanned, p, f);
    } else if dir != host.realPath(p.path) {
      DirectoryAmongRoots(host, paths[1..], system, scanned + {dir}, p, f);
    }
  }

  lemma {:induction false} RootMet(host: Host, loaded: set<Key>, roots: seq<Key>, f: Key, list: seq<Key>,
                                   other: set<Key>)
    requires f in roots && RootsMet(host, loaded, roots, list, other)
    ensures IsPie(host, f) || Met(host, loaded, f, list, other)
    decreases |roots|
  {
    if f != roots[0] {
      RootMet(host, loaded, roots[1..], f, list, other);
    }
  }

  /** After the scan, every library in every directory of the search path of its kind is in one of the
      two registries, unless it is to be ignored or is an executable. */
  lemma ScannedLibraryIsRegistered(host: Host, loaded: set<Key>, system: bool, list: seq<Key>, other: set<Key>,
                                   p: SearchPath, entry: Entry, f: Key)
    requires p in host.searchPaths && p.isUser != system && host.realPath(p.path) in host.directories
    requires host.realPath(p.path) != "" && entry in host.directories[host.realPath(p.path)]
    requires f in EntryRoot(host.realPath(p.path), entry)
    ensures IsPie(host, f) || Met(host, loaded, f,
                                  VisitRoots(host, loaded, Roots(host, host.searchPaths, system, {}), list, other),
                                    other)
  {
    var dir := host.realPath(p.path);
    EntryAmongRoots(dir, host.directories[dir], entry, f);
    DirectoryAmongRoots(host, host.searchPaths, system, {}, p, f);
    var roots := Roots(host, host.searchPaths, system, {});
    ScanCloses(host, loaded, roots, list, other);
    RootMet(host, loaded, roots, f, VisitRoots(host, loaded, roots, list, other), other);
  }

  // ---------- nothing else is registered ----------

  /** `wanted` has the files to begin with, unless they are executables, and everything that the
      members of `wanted` that are not registered in `base` depend on. */
  ghost predicate Suffices(host: Host, loaded: set<Key>, wanted: set<Key>, base: set<Key>) {
    forall f | f in wanted && f !in base :: DependenciesMet(host, loaded, f, [], wanted)
  }

  /** The list beyond its first `n` members has only libraries that are wanted, are in no other
      registry and are not to be ignored. */
  predicate Fine(host: Host, loaded: set<Key>, n: nat, list: seq<Key>, other: set<Key>, wanted: set<Key>) {
    forall i | n <= i < |list| :: list[i] in wanted && list[i] !in other &&
      !ShouldPermanentlyIgnore(host, loaded, list[i])
  }

  lemma FineFurther(host: Host, loaded: set<Key>, n: nat, list: seq<Key>, longer: seq<Key>, other: set<Key>,
                    wanted: set<Key>)
    requires n <= |list| && list <= longer
    requires Fine(host, loaded, n, list, other, wanted) && Fine(host, loaded, |list|, longer, other, wanted)
    ensures Fine(host, loaded, n, longer, other, wanted)
  {
    forall i | n <= i < |longer|
      ensures longer[i] in wanted && longer[i] !in other && !ShouldPermanentlyIgnore(host, loaded, longer[i])
    {
      if i < |list| {
        assert list[i] == longer[i];
      }
    }
  }

  lemma {:induction false} VisitFine(host: Host, loaded: set<Key>, f: Key, isRoot: bool, list: seq<Key>,
                                     other: set<Key>,
                                     base: set<Key>, wanted: set<Key>)
    requires Suffices(host, loaded, wanted, base) && forall k | k in base :: k in list || k in other
    requires (isRoot && IsPie(host, f)) || Met(host, loaded, f, [], wanted)
    ensures Fine(host, loaded, |list|, Visit(host, loaded, f, isRoot, list, other), other, wanted)
    decreases |Unregistered(host, list, other)|, 0, 0
  {
    if f in list || f in other || ShouldPermanentlyIgnore(host, loaded, f) || (isRoot && IsPie(host, f)) {
    } else if IsFollowed(host, f) {
      OneFewer(host, f, list, other);
      assert DependenciesMet(host, loaded, f, [], wanted);
      var longer := list + [f];
      VisitFromFine(host, loaded, f, 0, longer, other, base, wanted);
      FineFurther(host, loaded, |list|, longer, VisitFrom(host, loaded, f, 0, longer, other), other, wanted);
    }
  }

  lemma {:induction false} VisitFromFine(host: Host, loaded: set<Key>, f: Key, i: nat, list: seq<Key>, other: set<Key>,
                                         base: set<Key>, wanted: set<Key>)
    requires Suffices(host, loaded, wanted, base) && forall k | k in base :: k in list || k in other
    requires f in host.files && i <= |host.files[f].needed|
    requires MetUpTo(host, loaded, f, |host.files[f].needed|, [], wanted)
    ensures Fine(host, loaded, |list|, VisitFrom(host, loaded, f, i, list, other), other, wanted)
    decreases |Unregistered(host, list, other)|, 1, |host.files[f].needed| - i
  {
    if i < |host.files[f].needed| {
      var next := Visit(host, loaded, Dependency(host, f, i), false, list, other);
      FewerUnregistered(host, list, next, other);
      DependencyMet(host, loaded, f, |host.files[f].needed|, i, [], wanted);
      VisitFine(host, loaded, Dependency(host, f, i), false, list, other, base, wanted);
      VisitFromFine(host, loaded, f, i + 1, next, other, base, wanted);
      FineFurther(host, loaded, |list|, next, VisitFrom(host, loaded, f, i + 1, next, other), other, wanted);
    }
  }

  /** The whole scan adds nothing that it need not add: whatever set has the files to begin with and
      is closed under following dependencies has all that is added. Nothing is added that is in the
      other registry or to be ignored. */
  lemma {:induction false} ScanMinimal(host: Host, loaded: set<Key>, roots: seq<Key>, list: seq<Key>, other: set<Key>,
                                       base: set<Key>, wanted: set<Key>)
    requires Suffices(host, loaded, wanted, base) && forall k | k in base :: k in list || k in other
    requires RootsMet(host, loaded, roots, [], wanted)
    ensures Fine(host, loaded, |list|, VisitRoots(host, loaded, roots, list, other), other, wanted)
    decreases |roots|
  {
    if roots != [] {
      var next := Visit(host, loaded, roots[0], true, list, other);
      VisitFine(host, loaded, roots[0], true, list, other, base, wanted);
      ScanMinimal(host, loaded, roots[1..], next, other, base, wanted);
      FineFurther(host, loaded, |list|, next, VisitRoots(host, loaded, roots[1..], next, other), other, wanted);
    }
  }
}
