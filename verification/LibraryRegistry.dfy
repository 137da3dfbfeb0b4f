/** The registries of libraries: a list that keeps the order and an index that answers fast. */
module LibraryRegistry {

  import opened LibraryNames
  import opened LibrarySymbols

  // ---------- lists of libraries ----------

  function Index(libs: seq<LibraryPath>): map<Key, LibraryPath> {
    if libs == [] then map[]
    else var last := libs[|libs| - 1]; Index(libs[..|libs| - 1])[last.key := last]
  }

  predicate NoRepeats(libs: seq<LibraryPath>) {
    libs == [] || (NoRepeats(libs[..|libs| - 1]) && libs[|libs| - 1].key !in Index(libs[..|libs| - 1]))
  }

  function Without(libs: seq<LibraryPath>, key: Key): seq<LibraryPath> {
    if libs == [] then []
    else
      var init := Without(libs[..|libs| - 1], key);
      if libs[|libs| - 1].key == key then init else init + [libs[|libs| - 1]]
  }

  function Keys(libs: seq<LibraryPath>): (keys: seq<Key>)
    ensures |keys| == |libs|
  {
    if libs == [] then [] else Keys(libs[..|libs| - 1]) + [libs[|libs| - 1].key]
  }

  lemma {:induction false} KeysAt(libs: seq<LibraryPath>, i: nat)
    requires i < |libs|
    ensures Keys(libs)[i] == libs[i].key
  {
    if i < |libs| - 1 {
      KeysAt(libs[..|libs| - 1], i);
    }
  }

  /** Asking the index is asking the list. */
  lemma {:induction false} IndexIsList(libs: seq<LibraryPath>, key: Key)
    ensures key in Index(libs) <==> key in Keys(libs)
  {
    if libs != [] {
      IndexIsList(libs[..|libs| - 1], key);
    }
  }

  /** What is found under a key is a listed library with that key. */
  lemma {:induction false} IndexFinds(libs: seq<LibraryPath>, key: Key)
    requires key in Index(libs)
    ensures Index(libs)[key].key == key && Index(libs)[key] in libs
  {
    if libs[|libs| - 1].key != key {
      IndexFinds(libs[..|libs| - 1], key);
    }
  }

  /** Every listed library is found under its key: the index and the list agree. */
  lemma {:induction false} IndexComplete(libs: seq<LibraryPath>, i: nat)
    requires NoRepeats(libs) && i < |libs|
    ensures libs[i].key in Index(libs) && Index(libs)[libs[i].key] == libs[i]
  {
    if i < |libs| - 1 {
      IndexComplete(libs[..|libs| - 1], i);
    }
  }

  lemma {:induction false} WithoutAbsent(libs: seq<LibraryPath>, key: Key)
    requires key !in Index(libs)
    ensures Without(libs, key) == libs
  {
    if libs != [] {
      WithoutAbsent(libs[..|libs| - 1], key);
    }
  }

  lemma {:induction false} WithoutIndex(libs: seq<LibraryPath>, key: Key)
    requires NoRepeats(libs)
    ensures NoRepeats(Without(libs, key)) && Index(Without(libs, key)) == Index(libs) - {key}
  {
    if libs != [] {
      var init, last := libs[..|libs| - 1], libs[|libs| - 1];
      WithoutIndex(init, key);
      UpdateMinus(Index(init), last.key, last, key);
      if last.key != key {
        AppendedLast(Without(init, key), last);
      }
    }
  }

  lemma AppendedLast(libs: seq<LibraryPath>, last: LibraryPath)
    ensures Keys(libs + [last]) == Keys(libs) + [last.key]
    ensures Index(libs + [last]) == Index(libs)[last.key := last]
    ensures NoRepeats(libs + [last]) == (NoRepeats(libs) && last.key !in Index(libs))
  {
    assert (libs + [last])[..|libs|] == libs;
  }

  lemma UpdateMinus<K, V>(m: map<K, V>, k: K, v: V, gone: K)
    ensures m[k := v] - {gone} == if k == gone then m - {gone} else (m - {gone})[k := v]
  {
  }

  lemma {:induction false} WithoutAt(libs: seq<LibraryPath>, i: nat)
    requires NoRepeats(libs) && i < |libs|
    ensures Without(libs, libs[i].key) == libs[..i] + libs[i + 1..]
  {
    var init, last := libs[..|libs| - 1], libs[|libs| - 1];
    if i == |libs| - 1 {
      WithoutAbsent(init, last.key);
    } else {
      IndexComplete(init, i);
      WithoutAt(init, i);
      assert libs[i + 1..] == init[i + 1..] + [last];
    }
  }

  // ---------- registries ----------

  class LibraryPaths {
    var libs: seq<LibraryPath>
    var index: map<Key, LibraryPath>
    /** The libraries are asked about these files, and these symbols are ignored. */
    ghost const files: Files
    ghost const ignore: set<Flag>
    /** The libraries that have ever been registered here, and their filters. */
    ghost var owned: set<LibraryPath>
    ghost var filters: set<BloomFilters.BloomFilter>

    constructor (ghost files: Files, ghost ignore: set<Flag>)
      ensures Valid() && libs == [] && owned == {} && filters == {} && this.files == files && this.ignore == ignore
    {
      libs, index, owned, filters := [], map[], {}, {};
      this.files, this.ignore := files, ignore;
    }

    /** The index holds exactly the listed libraries, and none is listed twice. */
    ghost predicate Valid()
      reads this
    {
      NoRepeats(libs) && index == Index(libs)
    }

    /** The filters that have been built stand for what the files contain. */
    ghost predicate Faithful()
      reads this, owned, filters
    {
      forall l | l in libs :: l in owned && l.filter in filters && l.Holds(NamesIn(files, l.key, ignore))
    }

    /** Only new libraries have come in. */
    twostate predicate OwnsMore()
      reads this
    {
      (forall l | l in owned :: l in old(owned) || fresh(l)) &&
      (forall f | f in filters :: f in old(filters) || fresh(f))
    }

    predicate HasRegisteredLib(key: Key)
      reads this
    {
      key in index
    }

    method RegisterLib(lib: LibraryPath)
      requires Valid() && lib.key !in index
      modifies this
      ensures Valid() && libs == old(libs) + [lib] && index == old(index)[lib.key := lib]
      ensures Keys(libs) == Keys(old(libs)) + [lib.key]
      ensures owned == old(owned) + {lib} && filters == old(filters) + {lib.filter}
      ensures old(Faithful()) && lib.Unbuilt() ==> Faithful()
    {
      index := index[lib.key := lib];
      libs := libs + [lib];
      owned := owned + {lib};
      filters := filters + {lib.filter};
      AppendedLast(old(libs), lib);
    }

    method UnregisterLib(key: Key)
      requires Valid()
      modifies this
      ensures Valid() && libs == Without(old(libs), key) && index == old(index) - {key}
      ensures owned == old(owned) && filters == old(filters) && (old(Faithful()) ==> Faithful())
    {
      WithoutIndex(libs, key);
      if key !in index {
        WithoutAbsent(libs, key);
        return;
      }
      IndexFinds(libs, key);
      var i := Find(index[key]);
      WithoutAt(libs, i);
      libs := libs[..i] + libs[i + 1..];
      index := index - {key};
    }

    method Find(lib: LibraryPath) returns (i: nat)
      requires lib in libs
      ensures i < |libs| && libs[i] == lib
    {
      i := 0;
      while libs[i] != lib
        invariant i < |libs| && lib !in libs[..i]
        decreases |libs| - i
      {
        i := i + 1;
      }
    }
  }
}
