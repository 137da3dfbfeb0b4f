/** What holds of the answers to queries, over every run of queries with libraries being loaded in
    between. */
module LibrarySearchTheory {

  import opened BloomFilters
  import opened LibraryNames
  import opened LibrarySymbols
  import opened LibraryScan
  import opened LibraryScanTheory
  import opened LibrarySearch

  // ---------- the two registries stay apart ----------

  predicate Apart(st: State) {
    forall k | k in st.user :: k !in st.system
  }

  lemma FilesSuffice(host: Host, loaded: set<Key>, f: Key, n: nat)
    requires f in host.files && n <= |host.files[f].needed|
    ensures MetUpTo(host, loaded, f, n, [], host.files.Keys)
    decreases n
  {
    if n > 0 {
      FilesSuffice(host, loaded, f, n - 1);
    }
  }

  lemma {:induction false} RootsInFiles(host: Host, loaded: set<Key>, roots: seq<Key>)
    ensures RootsMet(host, loaded, roots, [], host.files.Keys)
    decreases |roots|
  {
    if roots != [] {
      RootsInFiles(host, loaded, roots[1..]);
    }
  }

  /** What a scan adds is in no other registry, not loaded, and not to be ignored. */
  lemma ScanAddsFine(host: Host, loaded: set<Key>, roots: seq<Key>, list: seq<Key>, other: set<Key>, k: Key)
    requires k in VisitRoots(host, loaded, roots, list, other) && k !in list
    ensures k !in other && k !in loaded && !ShouldPermanentlyIgnore(host, loaded, k)
  {
    forall f | f in host.files.Keys
      ensures DependenciesMet(host, loaded, f, [], host.files.Keys)
    {
      FilesSuffice(host, loaded, f, |host.files[f].needed|);
    }
    RootsInFiles(host, loaded, roots);
    ScanMinimal(host, loaded, roots, list, other, {}, host.files.Keys);
    var r := VisitRoots(host, loaded, roots, list, other);
    var i :| 0 <= i < |r| && r[i] == k;
    assert i >= |list|;
  }

  lemma ScanApart(host: Host, loaded: set<Key>, roots: seq<Key>, list: seq<Key>, other: seq<Key>)
    requires forall k | k in list :: k !in other
    ensures forall k | k in VisitRoots(host, loaded, roots, list, KeySet(other)) :: k !in other
  {
    forall k | k in VisitRoots(host, loaded, roots, list, KeySet(other))
      ensures k !in other
    {
      if k !in list {
        ScanAddsFine(host, loaded, roots, list, KeySet(other), k);
      }
    }
  }

  lemma DroppingKeepsApart(loaded: set<Key>, st: State)
    requires Apart(st)
    ensures Apart(LoadedDropped(loaded, st))
  {
    var gone := KeySet(st.queried) * loaded;
    forall k | k in Prune(st.user, gone)
      ensures k !in Prune(st.system, gone)
    {
      PruneMembers(st.user, gone, k);
      PruneMembers(st.system, gone, k);
    }
  }

  lemma SearchKeepsApart(host: Host, loaded: set<Key>, st: State, s: Symbol, searchSystem: bool)
    requires Apart(st)
    ensures Apart(Search(host, loaded, st, s, searchSystem).0)
  {
    ScanApart(host, loaded, Roots(host, host.searchPaths, false, {}), st.user, st.system);
    var scanned := UserScanned(host, loaded, st);
    DroppingKeepsApart(loaded, scanned);
    var dropped := LoadedDropped(loaded, scanned);
    ScanApart(host, loaded, Roots(host, host.searchPaths, true, {}), dropped.system, dropped.user);
    assert Apart(SystemScanned(host, loaded, dropped));
  }

  // ---------- answers ----------

  lemma FoundIsListed(host: Host, list: seq<Key>, s: Symbol, ignore: set<Flag>)
    ensures var found := FirstWith(host.files, list, s, ignore);
            found.Some? ==> found.value in list && Contains(host.files, found.value, s, ignore)
  {
    FirstWithIsFirst(host.files, list, s, ignore);
  }

  /** The answer is the first user library with the symbol; else, when system libraries are searched,
      the first system library with it; and there is no answer only when there is no such library. */
  lemma SearchAnswersFirst(host: Host, loaded: set<Key>, st: State, s: Symbol, searchSystem: bool)
    ensures var (after, r) := Search(host, loaded, st, s, searchSystem);
      match r
      case None => NoneHas(host.files, after.user, s, USER_IGNORES) &&
                   (searchSystem ==> NoneHas(host.files, after.system, s, SYSTEM_IGNORES))
      case Some(key) => IsFirst(host.files, after.user, key, s, USER_IGNORES) ||
                        (NoneHas(host.files, after.user, s, USER_IGNORES) && searchSystem &&
                         IsFirst(host.files, after.system, key, s, SYSTEM_IGNORES))
  {
    var dropped := LoadedDropped(loaded, UserScanned(host, loaded, st));
    FirstWithIsFirst(host.files, dropped.user, s, USER_IGNORES);
    FirstWithIsFirst(host.files, SystemScanned(host, loaded, dropped).system, s, SYSTEM_IGNORES);
  }

  /** An answer is a library that contains the symbol, and never one that was an answer before and is
      loaded. The answers are kept. */
  lemma SearchNeverRepeats(host: Host, loaded: set<Key>, st: State, s: Symbol, searchSystem: bool)
    ensures var (after, r) := Search(host, loaded, st, s, searchSystem);
            r.Some? ==>
              Contains(host.files, r.value, s, USER_IGNORES) || Contains(host.files, r.value, s, SYSTEM_IGNORES)
    ensures var (after, r) := Search(host, loaded, st, s, searchSystem);
            r.Some? ==> !(r.value in st.queried && r.value in loaded) && r.value in after.queried
    ensures forall k | k in st.queried :: k in Search(host, loaded, st, s, searchSystem).0.queried
  {
    var scanned := UserScanned(host, loaded, st);
    var dropped := LoadedDropped(loaded, scanned);
    FoundIsListed(host, dropped.user, s, USER_IGNORES);
    var found := FirstWith(host.files, dropped.user, s, USER_IGNORES);
    var gone := KeySet(st.queried) * loaded;
    if found.Some? {
      PruneMembers(scanned.user, gone, found.value);
    } else if searchSystem {
      SystemAnswer(host, loaded, dropped, s);
      var r := SearchSystem(host, SystemScanned(host, loaded, dropped), s).1;
      if r.Some? {
        PruneMembers(scanned.system, gone, r.value);
      }
    }
  }

  lemma SystemAnswer(host: Host, loaded: set<Key>, st: State, s: Symbol)
    ensures var r := SearchSystem(host, SystemScanned(host, loaded, st), s).1;
            r.Some? ==> Contains(host.files, r.value, s, SYSTEM_IGNORES) && (r.value in st.system || r.value !in loaded)
  {
    var after := SystemScanned(host, loaded, st);
    FoundIsListed(host, after.system, s, SYSTEM_IGNORES);
    var found := FirstWith(host.files, after.system, s, SYSTEM_IGNORES);
    if found.Some? && found.value !in st.system {
      ScanAddsFine(host, loaded, Roots(host, host.searchPaths, true, {}), st.system, KeySet(st.user), found.value);
    }
  }

  // ---------- runs ----------

  /** A query, and the libraries that are loaded when it is made. */
  datatype Query = Query(symbol: Symbol, searchSystem: bool, loaded: set<Key>)

  function Answers(host: Host, st: State, queries: seq<Query>): (answers: seq<Option<Key>>)
    ensures |answers| == |queries|
    decreases |queries|
  {
    if queries == [] then []
    else
      var (after, r) := Search(host, queries[0].loaded, st, queries[0].symbol, queries[0].searchSystem);
      [r] + Answers(host, after, queries[1..])
  }

  lemma {:induction false} AnswerNotStale(host: Host, st: State, queries: seq<Query>, j: nat, k: Key)
    requires k in st.queried && j < |queries| && Answers(host, st, queries)[j] == Some(k)
    ensures k !in queries[j].loaded
    decreases j
  {
    SearchNeverRepeats(host, queries[0].loaded, st, queries[0].symbol, queries[0].searchSystem);
    if j > 0 {
      var after := Search(host, queries[0].loaded, st, queries[0].symbol, queries[0].searchSystem).0;
      assert queries[1..][j - 1] == queries[j];
      AnswerNotStale(host, after, queries[1..], j - 1, k);
    }
  }

  /** Over any run: a library that was an earlier answer is an answer again only while it is not
      loaded. */
  lemma {:induction false} NoLoadedLibraryTwice(host: Host, st: State, queries: seq<Query>, i: nat, j: nat)
    requires i < j < |queries| && Answers(host, st, queries)[i].Some?
    requires Answers(host, st, queries)[j] == Answers(host, st, queries)[i]
    ensures Answers(host, st, queries)[j].value !in queries[j].loaded
    decreases i
  {
    var (after, r) := Search(host, queries[0].loaded, st, queries[0].symbol, queries[0].searchSystem);
    assert queries[1..][j - 1] == queries[j];
    if i > 0 {
      NoLoadedLibraryTwice(host, after, queries[1..], i - 1, j - 1);
    } else {
      SearchNeverRepeats(host, queries[0].loaded, st, queries[0].symbol, queries[0].searchSystem);
      AnswerNotStale(host, after, queries[1..], j - 1, r.value);
    }
  }
}
