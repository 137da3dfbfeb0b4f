/** The Bloom filter in front of the symbol set of a library. */
module BloomFilters {

  import LibraryNames

  type Symbol = seq<bv8>
  type Hash = bv32

  // ---------- hashes and sizes ----------

  /** Shifting and adding multiplies by 33, modulo 2^32. */
  function Times33(h: Hash): (r: Hash)
    ensures r == 33 * h
  {
    (h << 5) + h
  }

  function HashStep(h: Hash, c: bv8): Hash {
    Times33(h) + c as bv32
  }

  /** The hash of the .gnu.hash section, continued from `h`. */
  function GnuHashFrom(h: Hash, s: Symbol): Hash
    decreases |s|
  {
    if s == [] then h else GnuHashFrom(HashStep(h, s[0]), s[1..])
  }

  function GnuHash(s: Symbol): Hash {
    GnuHashFrom(5381, s)
  }

  lemma {:induction false} GnuHashFromAppend(h: Hash, s: Symbol, c: bv8)
    ensures GnuHashFrom(h, s + [c]) == HashStep(GnuHashFrom(h, s), c)
    decreases |s|
  {
    if s == [] {
      assert [] + [c] == [c] && [c][1..] == [];
    } else {
      assert (s + [c])[1..] == s[1..] + [c];
      GnuHashFromAppend(HashStep(h, s[0]), s[1..], c);
    }
  }

  /** The hash starts with 5381, and every character, in order, is added to 33 times the hash before it. */
  lemma GnuHashAppend(s: Symbol, c: bv8)
    ensures GnuHash([]) == 5381 && GnuHash(s + [c]) == Times33(GnuHash(s)) + c as bv32
  {
    GnuHashFromAppend(5381, s, c);
  }

  function Log2(n: nat): nat {
    if n > 1 then 1 + Log2(n / 2) else 0
  }

  function Pow2(n: nat): (p: nat)
    ensures p > 0
  {
    if n == 0 then 1 else 2 * Pow2(n - 1)
  }

  /** `log2u` is the floor of the binary logarithm. */
  lemma {:induction false} Log2IsFloor(n: nat)
    requires n > 0
    ensures Pow2(Log2(n)) <= n < Pow2(Log2(n) + 1)
  {
    if n > 1 {
      Log2IsFloor(n / 2);
    }
  }

  const BITS: nat := 64

  /** 1.44 times the negative binary logarithm of the false positive rate 0.02. */
  const BITS_PER_SYMBOL: real := 8.127

  function Ceiling(x: real): int {
    -((-x).Floor)
  }

  function BloomSize(symbolsCount: nat): nat {
    Ceiling(BITS_PER_SYMBOL * symbolsCount as real / BITS as real)
  }

  function BloomShift(symbolsCount: nat): (shift: nat)
    ensures shift <= 6
  {
    if Log2(symbolsCount) < 6 then Log2(symbolsCount) else 6
  }

  /** A filter for at least one symbol has a table to look into. */
  lemma BloomSizePositive(symbolsCount: nat)
    requires symbolsCount > 0
    ensures BloomSize(symbolsCount) > 0
  {
    var x := BITS_PER_SYMBOL * symbolsCount as real;
    assert x >= 8.127;
    assert x / 64.0 > 0.0;
  }

  /** The table has room for 8.127 bits a symbol, and no word too many; the shift is the binary logarithm of
      the number of symbols, rounded down, up to 6. */
  lemma BloomSizeIsLeast(symbolsCount: nat)
    ensures 64.0 * BloomSize(symbolsCount) as real >= 8.127 * symbolsCount as real
    ensures 64.0 * (BloomSize(symbolsCount) as real - 1.0) < 8.127 * symbolsCount as real
    ensures BloomShift(symbolsCount) == 6 <==> symbolsCount >= 64
    ensures 0 < symbolsCount < 64 ==>
              Pow2(BloomShift(symbolsCount)) <= symbolsCount < Pow2(BloomShift(symbolsCount) + 1)
  {
    if symbolsCount > 0 {
      Log2IsFloor(symbolsCount);
    }
    Pow2OfSix();
  }

  lemma Pow2OfSix()
    ensures Pow2(6) == 64
  {
    assert Pow2(1) == 2 && Pow2(2) == 4 && Pow2(3) == 8 && Pow2(4) == 16 && Pow2(5) == 32;
  }

  // ---------- what adding and testing do ----------

  /** The word of the table and the two bits in it that stand for a hash. */
  datatype Slot = Slot(index: nat, mask: bv64)

  function SlotOf(hash: Hash, shift: nat, size: nat): (slot: Slot)
    requires size > 0 && shift <= 6
    ensures slot.index < size
  {
    Slot((hash >> Log2(BITS)) as int % size,
         ((1 as bv64) << (hash % 64)) | ((1 as bv64) << ((hash >> shift) % 64)))
  }

  function Added(table: seq<bv64>, slot: Slot): (t: seq<bv64>)
    requires slot.index < |table|
    ensures |t| == |table|
  {
    table[slot.index := table[slot.index] | slot.mask]
  }

  predicate Tests(table: seq<bv64>, slot: Slot)
    requires slot.index < |table|
  {
    slot.mask & table[slot.index] == slot.mask
  }

  lemma MaskStays(mask: bv64, word: bv64, more: bv64)
    ensures mask & word == mask ==> mask & (word | more) == mask
    ensures mask & (word | mask) == mask
  {
  }

  /** A hash that has been added tests true, and goes on to do so whatever is added later. */
  lemma AddedTests(table: seq<bv64>, slot: Slot, other: Slot)
    requires slot.index < |table| && other.index < |table|
    ensures Tests(Added(table, slot), slot)
    ensures Tests(table, other) ==> Tests(Added(table, slot), other)
  {
    MaskStays(slot.mask, table[slot.index], slot.mask);
    MaskStays(other.mask, table[slot.index], slot.mask);
  }

  /** The table after adding the hashes of a list of symbols. */
  function Filled(table: seq<bv64>, shift: nat, symbols: seq<Symbol>): (t: seq<bv64>)
    requires table != [] && shift <= 6
    ensures |t| == |table|
    decreases |symbols|
  {
    if symbols == [] then table else Filled(Added(table, SlotOf(GnuHash(symbols[0]), shift, |table|)), shift,
                                            symbols[1..])
  }

  lemma {:induction false} FilledKeeps(table: seq<bv64>, shift: nat, symbols: seq<Symbol>, slot: Slot)
    requires table != [] && shift <= 6 && slot.index < |table| && Tests(table, slot)
    ensures Tests(Filled(table, shift, symbols), slot)
    decreases |symbols|
  {
    if symbols != [] {
      var first := SlotOf(GnuHash(symbols[0]), shift, |table|);
      AddedTests(table, first, slot);
      FilledKeeps(Added(table, first), shift, symbols[1..], slot);
    }
  }

  /** There are no false negatives: every symbol in the list tests true. */
  lemma {:induction false} NoFalseNegatives(table: seq<bv64>, shift: nat, symbols: seq<Symbol>, s: Symbol)
    requires table != [] && shift <= 6 && s in symbols
    ensures Tests(Filled(table, shift, symbols), SlotOf(GnuHash(s), shift, |table|))
    decreases |symbols|
  {
    var first := SlotOf(GnuHash(symbols[0]), shift, |table|);
    if s == symbols[0] {
      AddedTests(table, first, first);
      FilledKeeps(Added(table, first), shift, symbols[1..], first);
    } else {
      NoFalseNegatives(Added(table, first), shift, symbols[1..], s);
    }
  }

  // ---------- the filter ----------

  class BloomFilter {
    /** The library that the filter is a part of. */
    ghost const owner: LibraryNames.Key
    var isInitialized: bool
    var symbolsCount: nat
    var bloomSize: nat
    var bloomShift: nat
    var bloomTable: seq<bv64>

    constructor (ghost owner: LibraryNames.Key)
      ensures !isInitialized && Valid() && this.owner == owner
      ensures symbolsCount == 0 && bloomTable == []
    {
      this.owner := owner;
      isInitialized, symbolsCount, bloomSize, bloomShift, bloomTable := false, 0, 0, 0, [];
    }

    ghost predicate Valid()
      reads this
    {
      |bloomTable| == bloomSize && bloomShift <= 6 &&
      (isInitialized && symbolsCount > 0 ==> bloomSize > 0)
    }

    method TestHash(hash: Hash) returns (r: bool)
      requires Valid() && isInitialized && symbolsCount > 0
      ensures r == Tests(bloomTable, SlotOf(hash, bloomShift, bloomSize))
    {
      r := Tests(bloomTable, SlotOf(hash, bloomShift, bloomSize));
    }

    method AddHash(hash: Hash)
      requires Valid() && isInitialized && symbolsCount > 0
      modifies this`bloomTable
      ensures Valid() && bloomTable == Added(old(bloomTable), SlotOf(hash, bloomShift, bloomSize))
    {
      var slot := SlotOf(hash, bloomShift, bloomSize);
      bloomTable := bloomTable[slot.index := bloomTable[slot.index] | slot.mask];
    }

    method ResizeTable(newSymbolsCount: nat)
      requires symbolsCount == 0 && bloomTable == []
      modifies this
      ensures isInitialized == old(isInitialized) && Valid() && symbolsCount == newSymbolsCount
      ensures bloomSize == BloomSize(newSymbolsCount) && bloomShift == BloomShift(newSymbolsCount)
      ensures bloomTable == EmptyTable(newSymbolsCount)
    {
      symbolsCount := newSymbolsCount;
      if symbolsCount > 0 {
        BloomSizePositive(symbolsCount);
      }
      bloomSize := BloomSize(symbolsCount);
      bloomShift := if Log2(symbolsCount) < 6 then Log2(symbolsCount) else 6;
      bloomTable := EmptyTable(symbolsCount);
    }
  }

  function EmptyTable(symbolsCount: nat): (t: seq<bv64>)
    ensures |t| == BloomSize(symbolsCount)
  {
    seq(BloomSize(symbolsCount), _ => 0)
  }
}
