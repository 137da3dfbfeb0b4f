/** One library that may be loaded: its Bloom filter, its symbol set, and the question whether it
    contains a symbol. */
module LibrarySymbols {

  import opened BloomFilters
  import opened LibraryNames

  // ---------- object files ----------

  datatype Flag = Undefined | Weak | Other(bit: nat)

  datatype ObjectSymbol = ObjectSymbol(name: Symbol, flags: set<Flag>)

  datatype Section = Section(name: string, noBits: bool, isAllocated: bool)

  /** What is read from a library: its symbol tables, its sections, and for ELF the test in its .gnu.hash
      section. */
  datatype ObjectFile = ObjectFile(
    isElf: bool,
    symbols: seq<ObjectSymbol>,
    dynamicSymbols: seq<ObjectSymbol>,
    mayExist: Hash -> bool,
    format: string,
    sections: seq<Section>,
    isPie: bool,
    rpath: seq<string>,
    runpath: seq<string>,
    needed: seq<string>)

  /** The readable object files. A file is known by its directory and its name there, which for a
      canonical full name is the same thing (`LibraryNames.NameOfKey`). */
  type Files = map<Key, ObjectFile>

  predicate Keeps(s: ObjectSymbol, ignore: set<Flag>) {
    s.flags !! ignore && s.name != []
  }

  /** The names in a symbol table, without the ignored and the nameless entries. */
  function Kept(symbols: seq<ObjectSymbol>, ignore: set<Flag>): seq<Symbol> {
    if symbols == [] then []
    else
      var init := Kept(symbols[..|symbols| - 1], ignore);
      var last := symbols[|symbols| - 1];
      if Keeps(last, ignore) then init + [last.name] else init
  }

  /** All names a library answers for: in its dynamic table, which only ELF has, only undefined
      symbols are ignored. */
  function Collected(file: ObjectFile, ignore: set<Flag>): seq<Symbol> {
    Kept(file.symbols, ignore) + if file.isElf then Kept(file.dynamicSymbols, {Undefined}) else []
  }

  /** The names that the library with a given key answers for. */
  function NamesIn(files: Files, key: Key, ignore: set<Flag>): seq<Symbol> {
    if key in files then Collected(files[key], ignore) else []
  }

  /** `Kept` has exactly the names of the entries that are kept. */
  lemma {:induction false} KeptNames(symbols: seq<ObjectSymbol>, ignore: set<Flag>, name: Symbol)
    ensures name in Kept(symbols, ignore) <==> exists s | s in symbols :: Keeps(s, ignore) && s.name == name
  {
    if symbols != [] {
      var init, last := symbols[..|symbols| - 1], symbols[|symbols| - 1];
      KeptNames(init, ignore, name);
      assert symbols == init + [last];
      assert forall s :: s in symbols <==> s in init || s == last;
    }
  }

  /** A library contains a symbol: the simple answer that the filters must not change. */
  predicate Contains(files: Files, key: Key, s: Symbol, ignore: set<Flag>) {
    key in files && (files[key].isElf ==> files[key].mayExist(GnuHash(s))) && s in Collected(files[key], ignore)
  }

  /** Spelled out: the file is readable, its own .gnu.hash test does not rule the name out, and an
      entry of a symbol table has the name. */
  lemma ContainsMeans(files: Files, key: Key, s: Symbol, ignore: set<Flag>)
    requires s != []
    ensures Contains(files, key, s, ignore) <==>
      key in files && var file := files[key];
      (!file.isElf || file.mayExist(GnuHash(s))) &&
      ((exists e | e in file.symbols :: Keeps(e, ignore) && e.name == s) ||
       (file.isElf && exists e | e in file.dynamicSymbols :: Keeps(e, {Undefined}) && e.name == s))
  {
    if key in files {
      KeptNames(files[key].symbols, ignore, s);
      KeptNames(files[key].dynamicSymbols, {Undefined}, s);
    }
  }

  // ---------- libraries ----------

  function Hashed(symbols: seq<Symbol>): (table: seq<bv64>)
    ensures |table| == BloomSize(|symbols|)
  {
    if symbols == [] then EmptyTable(0) else
      BloomSizePositive(|symbols|);
      Filled(EmptyTable(|symbols|), BloomShift(|symbols|), symbols)
  }

  class LibraryPath {
    const key: Key
    const filter: BloomFilter
    var symbols: set<Symbol>

    constructor (key: Key)
      ensures this.key == key && fresh(filter)
      ensures Unbuilt()
    {
      this.key := key;
      filter := new BloomFilter(key);
      symbols := {};
    }

    ghost predicate Unbuilt()
      reads this, filter
    {
      filter.Valid() && filter.owner == key && !filter.isInitialized &&
      symbols == {} && filter.symbolsCount == 0 && filter.bloomTable == []
    }

    /** The filter and the symbol set are either still to be built or stand for exactly `names`. */
    ghost predicate Holds(names: seq<Symbol>)
      reads this, filter
    {
      Unbuilt() ||
      (filter.Valid() && filter.owner == key && filter.isInitialized &&
       symbols == (set s | s in names) && filter.symbolsCount == |names| &&
       filter.bloomShift == BloomShift(|names|) && filter.bloomTable == Hashed(names))
    }

    method AddSymbols(names: seq<Symbol>)
      requires filter.Valid() && filter.isInitialized && filter.symbolsCount > 0
      modifies this, filter`bloomTable
      ensures filter.Valid() && symbols == old(symbols) + (set s | s in names)
      ensures filter.bloomTable == Filled(old(filter.bloomTable), filter.bloomShift, names)
    {
      ghost var goal := Filled(filter.bloomTable, filter.bloomShift, names);
      var i := 0;
      while i < |names|
        invariant 0 <= i <= |names| && filter.Valid()
        invariant Filled(filter.bloomTable, filter.bloomShift, names[i..]) == goal
        invariant symbols == old(symbols) + (set s | s in names[..i])
      {
        assert names[i..][1..] == names[i + 1..];
        symbols := symbols + {names[i]};
        filter.AddHash(GnuHash(names[i]));
        assert names[..i + 1] == names[..i] + [names[i]];
        i := i + 1;
      }
      assert names[..i] == names;
    }

    method BuildBloomFilter(file: ObjectFile, ignore: set<Flag>)
      requires Holds(Collected(file, ignore)) && !filter.isInitialized
      modifies this, filter
      ensures Holds(Collected(file, ignore)) && filter.isInitialized
    {
      var names := CollectSymbols(file, ignore);
      filter.isInitialized := true;
      filter.ResizeTable(|names|);
      if names != [] {
        AddSymbols(names);
      }
    }

    method ContainsSymbol(files: Files, s: Symbol, ignore: set<Flag>) returns (r: bool)
      requires Holds(NamesIn(files, key, ignore))
      modifies this, filter
      ensures Holds(NamesIn(files, key, ignore))
      ensures r == Contains(files, key, s, ignore)
    {
      if key !in files {
        return false;
      }
      var file := files[key];
      var hash := GnuHash(s);
      if file.isElf && !file.mayExist(hash) {
        return false;
      }
      if !filter.isInitialized {
        BuildBloomFilter(file, ignore);
      }
      var may := MayExistSymbol(hash);
      if !may {
        RuledOut(Collected(file, ignore), s);
        return false;
      }
      r := s in symbols;
    }

    method MayExistSymbol(hash: Hash) returns (r: bool)
      requires filter.Valid() && filter.isInitialized
      ensures r == (filter.symbolsCount > 0 &&
                    Tests(filter.bloomTable, SlotOf(hash, filter.bloomShift, filter.bloomSize)))
    {
      if filter.symbolsCount == 0 {
        return false;
      }
      r := filter.TestHash(hash);
    }
  }

  /** A name that does not pass the filter is not in the list. */
  lemma RuledOut(names: seq<Symbol>, s: Symbol)
    requires names != [] ==>
               BloomSize(|names|) > 0 && !Tests(Hashed(names),
                                                SlotOf(GnuHash(s), BloomShift(|names|), BloomSize(|names|)))
    ensures s !in names
  {
    if s in names {
      NeverMissed(names, s);
    }
  }

  /** Every name passes the filter made of the list it is in. */
  lemma NeverMissed(names: seq<Symbol>, s: Symbol)
    requires s in names
    ensures BloomSize(|names|) > 0
    ensures Tests(Hashed(names), SlotOf(GnuHash(s), BloomShift(|names|), BloomSize(|names|)))
  {
    BloomSizePositive(|names|);
    NoFalseNegatives(EmptyTable(|names|), BloomShift(|names|), names, s);
  }

  method CollectKept(symbols: seq<ObjectSymbol>, ignore: set<Flag>) returns (names: seq<Symbol>)
    ensures names == Kept(symbols, ignore)
  {
    names := [];
    for i := 0 to |symbols|
      invariant names == Kept(symbols[..i], ignore)
    {
      assert symbols[..i + 1][..i] == symbols[..i];
      if symbols[i].flags !! ignore {
        if symbols[i].name != [] {
          names := names + [symbols[i].name];
        }
      }
    }
    assert symbols[..|symbols|] == symbols;
  }

  method CollectSymbols(file: ObjectFile, ignore: set<Flag>) returns (names: seq<Symbol>)
    ensures names == Collected(file, ignore)
  {
    names := CollectKept(file.symbols, ignore);
    if file.isElf {
      var more := CollectKept(file.dynamicSymbols, {Undefined});
      names := names + more;
    }
  }
}
