/** Redeclaration chains and lookup tables, and taking a declaration out of both again. */
module Redeclarations {

  class Decl {
    const name: string
    const isDefinition: bool

    /** The link to the declaration before this one; the first one of a chain has none. */
    var previous: Decl?
    var first: Decl?
    /** Kept up to date in the first declaration of a chain only. */
    var latest: Decl?
    /** The definition that all declarations of an entity share. */
    var definitionData: Decl?

    constructor (name: string, isDefinition: bool)
      ensures this.name == name && this.isDefinition == isDefinition
      ensures previous == null && first == this && latest == this
    {
      this.name, this.isDefinition := name, isDefinition;
      previous, first, latest := null, this, this;
      definitionData := if isDefinition then this else null;
    }
  }

  // ---------- chains ----------

  ghost predicate Distinct(c: seq<Decl>) {
    forall i, j | 0 <= i < j < |c| :: c[i] != c[j]
  }

  /** The links of the declarations of one entity, oldest first. */
  ghost predicate Chain(c: seq<Decl>)
    reads c
  {
    c != [] && Distinct(c) && c[0].previous == null && c[0].latest == c[|c| - 1] &&
    (forall i | 0 <= i < |c| :: c[i].first == c[0] && c[i].name == c[0].name) &&
    (forall i | 0 < i < |c| :: c[i].previous == c[i - 1])
  }

  function Without<T>(c: seq<T>, k: nat): seq<T>
    requires k < |c|
  {
    c[..k] + c[k + 1..]
  }

  /** The declarations of a sequence have kept their links. */
  twostate predicate SameLinks(c: seq<Decl>)
    reads c
  {
    forall d | d in c :: d.previous == old(d.previous) && d.first == old(d.first) && d.latest == old(d.latest)
  }

  /** Every declaration of the chain forgets the definition. */
  method ResetDefinitionData(d: Decl, ghost c: seq<Decl>)
    requires Chain(c) && d in c
    modifies c
    ensures Chain(c) && SameLinks(c)
    ensures forall x | x in c :: x.definitionData == null
  {
    var iter := d.first.latest;
    ghost var i := |c| - 1;
    while iter != null
      invariant -1 <= i < |c| && iter == if i < 0 then null else c[i]
      invariant Chain(c) && SameLinks(c)
      invariant forall j | i < j < |c| :: c[j].definitionData == null
      decreases i
    {
      iter.definitionData := null;
      iter := iter.previous;
      i := i - 1;
    }
  }

  /** The declaration is the k-th of the chain, but not the first; or, for k past the end, it points to
      the chain without being wired up in it. */
  ghost predicate Wired(r: Decl, c: seq<Decl>, k: nat)
    reads c, r
  {
    Chain(c) && 0 < k <= |c| && r.first == c[0] && if k < |c| then c[k] == r else r !in c
  }

  /** Takes a declaration out of the links of the others; one that is not wired up changes nothing. */
  method RemoveRedeclFromChain(r: Decl, ghost c: seq<Decl>, ghost k: nat)
    requires Wired(r, c, k)
    modifies c
    ensures k == |c| ==> Chain(c) && SameLinks(c) && forall d | d in c :: d.definitionData == old(d.definitionData)
    ensures k < |c| ==> Chain(Without(c, k)) && r.previous == c[k - 1] && r.first == c[0]
    ensures k < |c| ==> forall d | d in Without(c, k) ::
                          d.definitionData == if r.isDefinition then null else old(d.definitionData)
  {
    var prev := r.previous;
    var mostRecent := r.first.latest;
    if r == mostRecent {
      assert prev == Without(c, k)[k - 1];
      r.first.latest := prev;
    } else {
      var next := FindNext(r, c, k);
      if next == null {
        return;
      }
      assert prev == Without(c, k)[k - 1];
      if r.previous != null {
        next.previous := next.previous.previous;
      }
    }
    assert Chain(Without(c, k));
    if r.isDefinition {
      ResetDefinitionData(prev, Without(c, k));
    }
  }

  /** The declaration whose link leads to the given one, looked for from the most recent one back. */
  method FindNext(r: Decl, ghost c: seq<Decl>, ghost k: nat) returns (next: Decl?)
    requires Wired(r, c, k) && r != c[|c| - 1]
    ensures next == if k < |c| then c[k + 1] else null
  {
    next := r.first.latest;
    ghost var i := |c| - 1;
    while next != null && next.previous != r
      invariant -1 <= i < |c| && next == if i < 0 then null else c[i]
      invariant k < |c| ==> k < i
      decreases i
    {
      next := next.previous;
      i := i - 1;
    }
    assert next != null && i > 0 ==> next.previous == c[i - 1];
  }

  // ---------- lookup tables ----------

  type StoredDeclsMap = map<string, set<Decl>>

  /** The lookup table of a declaration context; some contexts have none. */
  class DeclContext {
    const hasLookup: bool
    var lookup: StoredDeclsMap

    constructor (hasLookup: bool)
      ensures this.hasLookup == hasLookup && lookup == map[]
    {
      this.hasLookup, lookup := hasLookup, map[];
    }

    /** A declaration replaces the one of the same entity, if that is listed. */
    method AddOrReplaceDecl(d: Decl)
      modifies this`lookup
      ensures lookup == old(lookup)[d.name := Replaced(Listed(old(lookup), d.name), d)]
    {
      var decls := if d.name in lookup then lookup[d.name] else {};
      lookup := lookup[d.name := (set x | x in decls && x.first != d.first) + {d}];
    }

    /** The declaration is no longer found under its name; a name with nothing left has no entry. All
        other names and declarations are found as before. */
    method EraseDeclFromMap(nd: Decl)
      modifies this`lookup
      ensures nd.name in lookup ==> lookup[nd.name] != {} && nd !in lookup[nd.name]
      ensures Listed(lookup, nd.name) == Listed(old(lookup), nd.name) - {nd}
      ensures OtherNamesSame(old(lookup), lookup, nd.name)
    {
      if nd.name in lookup {
        var list := lookup[nd.name];
        if list == {} {
          lookup := lookup - {nd.name};
          return;
        }
        list := list - {nd};
        lookup := lookup[nd.name := list];
        if list == {} {
          lookup := lookup - {nd.name};
        }
      }
    }
  }

  function Listed(lookup: StoredDeclsMap, name: string): set<Decl> {
    if name in lookup then lookup[name] else {}
  }

  ghost function Replaced(decls: set<Decl>, d: Decl): set<Decl>
    reads decls, d
  {
    (set x | x in decls && x.first != d.first) + {d}
  }

  predicate OtherNamesSame(before: StoredDeclsMap, after: StoredDeclsMap, name: string) {
    (forall n | n in after && n != name :: n in before && after[n] == before[n]) &&
    forall n | n in before && n != name :: n in after
  }

  /** Among the declarations of the entity, exactly the most recent one is listed. */
  ghost predicate Shows(lookup: StoredDeclsMap, c: seq<Decl>)
    requires c != []
    reads Listed(lookup, c[0].name), c
  {
    var decls := Listed(lookup, c[0].name);
    c[|c| - 1] in decls && forall x | x in decls && x.first == c[0] :: x == c[|c| - 1]
  }

  // ---------- unloading ----------

  /** Lists the declaration that becomes the most recent one in place of the one to be removed. */
  method HandleRedeclaration(nd: Decl, dc: DeclContext, ghost c: seq<Decl>, ghost k: nat)
    returns (mostRecentNotThis: Decl?)
    requires Chain(c) && 0 < k < |c| && c[k] == nd
    modifies dc`lookup
    ensures var decls := Listed(old(dc.lookup), nd.name);
            var other := if k == |c| - 1 then c[k - 1] else c[|c| - 1];
            dc.lookup ==
              if nd.name != "" && dc.hasLookup && nd in decls && other !in decls
              then old(dc.lookup)[nd.name := Replaced(decls, other)] else old(dc.lookup)
  {
    if nd.name == "" {
      return null;
    }
    var mostRecent := nd.first.latest;
    mostRecentNotThis := mostRecent;
    if mostRecentNotThis == nd {
      mostRecentNotThis := nd.previous;
      if mostRecentNotThis == null || mostRecentNotThis == nd {
        return;
      }
    }
    if dc.hasLookup && nd.name in dc.lookup && dc.lookup[nd.name] != {} {
      var decls := dc.lookup[nd.name];
      if mostRecentNotThis !in decls && nd in decls {
        dc.AddOrReplaceDecl(mostRecentNotThis);
      }
    }
  }

  method VisitRedeclarable(r: Decl, dc: DeclContext, ghost c: seq<Decl>, ghost k: nat) returns (ok: bool)
    requires Chain(c) && k < |c| && c[k] == r
    requires dc.hasLookup && r.name != "" ==> Shows(dc.lookup, c)
    modifies c, dc`lookup
    ensures ok
    ensures k == 0 ==> Chain(c) && SameLinks(c) && dc.lookup == old(dc.lookup)
    ensures k > 0 ==> Chain(Without(c, k)) && r.first == c[0]
    ensures k > 0 ==> dc.lookup == Moved(old(dc.lookup), dc.hasLookup, r, c, k)
    ensures forall d | d in Without(c, k) ::
              d.definitionData == if k > 0 && r.isDefinition then null else old(d.definitionData)
  {
    if r.first == r {
      return true;
    }
    if r.name != "" && dc.hasLookup {
      ListedInTurn(Listed(dc.lookup, r.name), c, k);
    }
    var mostRecentNotThis := HandleRedeclaration(r, dc, c, k);
    RemoveRedeclFromChain(r, c, k);
    ok := true;
  }

  lemma ListedInTurn(decls: set<Decl>, c: seq<Decl>, k: nat)
    requires Chain(c) && 0 < k < |c| && c[|c| - 1] in decls
    requires forall x | x in decls && x.first == c[0] :: x == c[|c| - 1]
    ensures k < |c| - 1 ==> c[k] !in decls
    ensures k == |c| - 1 ==> c[k - 1] !in decls && Replaced(decls, c[k - 1]) == decls - {c[k]} + {c[k - 1]}
  {
  }

  /** The table when the removed declaration gives up its place to the one before it. */
  ghost function Moved(lookup: StoredDeclsMap, hasLookup: bool, r: Decl, c: seq<Decl>, k: nat): StoredDeclsMap
    requires 0 < k < |c|
  {
    if r.name != "" && hasLookup && k == |c| - 1 then lookup[r.name := Listed(lookup, r.name) - {r} + {c[k - 1]}]
    else lookup
  }

  /** Takes a declaration out of its chain and of the lookup table. */
  method Unload(r: Decl, dc: DeclContext, ghost c: seq<Decl>, ghost k: nat)
    requires Chain(c) && k < |c| && c[k] == r
    requires dc.hasLookup && r.name != "" ==> Shows(dc.lookup, c)
    modifies c, dc`lookup
    ensures k == 0 ==> Chain(c) && SameLinks(c)
    ensures k > 0 ==> Chain(Without(c, k))
    ensures forall d | d in Without(c, k) ::
              d.definitionData == if k > 0 && r.isDefinition then null else old(d.definitionData)
    ensures dc.hasLookup && r.name != "" && k > 0 ==> Shows(dc.lookup, Without(c, k))
    ensures k > 0 ==> dc.lookup == Moved(old(dc.lookup), dc.hasLookup, r, c, k)
    ensures dc.hasLookup && r.name != "" ==>
              Listed(dc.lookup, r.name) ==
              Listed(old(dc.lookup), r.name) - {r} + (if 0 < k == |c| - 1 then {c[k - 1]} else {}) &&
              (r.name in dc.lookup ==> dc.lookup[r.name] != {} && r !in dc.lookup[r.name]) &&
              OtherNamesSame(old(dc.lookup), dc.lookup, r.name)
    ensures !dc.hasLookup || r.name == "" ==> dc.lookup == old(dc.lookup)
    ensures RefersTo(Without(c, k), r) <==> k == 0 && |c| > 1
  {
    if k > 0 && r.name != "" && dc.hasLookup {
      ListedInTurn(Listed(dc.lookup, r.name), c, k);
    }
    var ok := VisitRedeclarable(r, dc, c, k);
    // The part of VisitNamedDecl that cleans up the lookup table.
    if r.name != "" && dc.hasLookup {
      ghost var table := dc.lookup;
      dc.EraseDeclFromMap(r);
      if k > 0 {
        ErasedUnlisted(table, dc.lookup, r);
      }
    }
    LeftLinks(r, c, k);
  }

  /** Only the first declaration of a longer chain is still linked to when it has gone. */
  lemma LeftLinks(r: Decl, c: seq<Decl>, k: nat)
    requires Distinct(c) && k < |c| && c[k] == r
    requires if k > 0 then Chain(Without(c, k)) else Chain(c)
    ensures RefersTo(Without(c, k), r) <==> k == 0 && |c| > 1
  {
    if k > 0 {
      UnlinkedInChain(Without(c, k), r);
    } else if |c| > 1 {
      assert Without(c, k)[0] == c[1] && c[1].previous == r;
    }
  }

  lemma UnlinkedInChain(c: seq<Decl>, r: Decl)
    requires Chain(c) && r !in c
    ensures !RefersTo(c, r)
  {
    forall i | 0 <= i < |c| ensures c[i].previous != r && c[i].first != r && (c[i] == c[i].first ==> c[i].latest != r) {
      if i > 0 {
        assert c[i].previous == c[i - 1];
      }
    }
  }

  lemma ErasedUnlisted(before: StoredDeclsMap, after: StoredDeclsMap, r: Decl)
    requires r !in Listed(before, r.name) && Listed(before, r.name) != {}
    requires Listed(after, r.name) == Listed(before, r.name) - {r} && OtherNamesSame(before, after, r.name)
    ensures after == before
  {
    assert Listed(before, r.name) - {r} == Listed(before, r.name);
    assert after.Keys == before.Keys;
  }

  /** Some declaration of the sequence still has a link to the given one. */
  ghost predicate RefersTo(c: seq<Decl>, r: Decl)
    reads c
  {
    exists d | d in c :: d.previous == r || d.first == r || (d == d.first && d.latest == r)
  }

  // ---------- declaring and unloading again ----------

  /** How semantic analysis wires up one more declaration of an entity. */
  method Redeclare(d: Decl, dc: DeclContext, ghost c: seq<Decl>, first: Decl)
    requires Chain(c) && c[0] == first && d !in c && d.name == first.name
    requires dc.hasLookup && d.name != "" ==> Shows(dc.lookup, c) && d !in Listed(dc.lookup, d.name)
    modifies d, first`latest, dc`lookup
    ensures Chain(c + [d])
    ensures dc.hasLookup && d.name != "" ==>
              Shows(dc.lookup, c + [d]) &&
              dc.lookup == old(dc.lookup)[d.name := Listed(old(dc.lookup), d.name) - {c[|c| - 1]} + {d}]
    ensures !(dc.hasLookup && d.name != "") ==> dc.lookup == old(dc.lookup)
  {
    d.previous := first.latest;
    d.first := first;
    first.latest := d;
    if dc.hasLookup && d.name != "" {
      dc.AddOrReplaceDecl(d);
      assert Replaced(Listed(old(dc.lookup), d.name), d) == Listed(old(dc.lookup), d.name) - {c[|c| - 1]} + {d};
    }
  }

  lemma PutBack(lookup: StoredDeclsMap, name: string, last: Decl, d: Decl)
    requires last in Listed(lookup, name) && d !in Listed(lookup, name)
    ensures var moved := lookup[name := Listed(lookup, name) - {last} + {d}];
            moved[name := Listed(moved, name) - {d} + {last}] == lookup
  {
    assert lookup[name] - {last} + {d} - {d} + {last} == lookup[name];
  }

  /** Unloads the most recent declaration of a longer chain. */
  method UnloadLast(d: Decl, dc: DeclContext, ghost c: seq<Decl>)
    requires c != [] && Chain(c + [d]) && (dc.hasLookup && d.name != "" ==> Shows(dc.lookup, c + [d]))
    modifies c, d, dc`lookup
    ensures Chain(c) && (dc.hasLookup && d.name != "" ==> Shows(dc.lookup, c))
    ensures dc.lookup == if dc.hasLookup && d.name != ""
                         then old(dc.lookup)[d.name := Listed(old(dc.lookup), d.name) - {d} + {c[|c| - 1]}]
                           else old(dc.lookup)
    ensures forall x | x in c :: x.definitionData == if d.isDefinition then null else old(x.definitionData)
  {
    assert Without(c + [d], |c|) == c;
    Unload(d, dc, c + [d], |c|);
  }

  /** Whether one of the declarations is the definition. */
  predicate AnyDefinition(ds: seq<Decl>) {
    ds != [] && (ds[0].isDefinition || AnyDefinition(ds[1..]))
  }

  /** What may be declared once more. */
  ghost predicate MayFollow(ds: seq<Decl>, c: seq<Decl>, dc: DeclContext)
    reads c, dc, Listed(dc.lookup, c[0].name)
    requires c != []
  {
    Chain(c) && Distinct(ds) && (forall d | d in ds :: d !in c && d.name == c[0].name) &&
    (dc.hasLookup && c[0].name != "" ==> Shows(dc.lookup, c) && forall d | d in ds :: d !in Listed(dc.lookup, d.name))
  }

  /** Declaring an entity any number of times more and unloading these declarations, newest first, gives
      back the chain and the lookup table; a definition among them is forgotten. */
  method RedeclareAndUnload(ds: seq<Decl>, dc: DeclContext, ghost c: seq<Decl>, first: Decl)
    requires c != [] && c[0] == first && MayFollow(ds, c, dc)
    modifies ds, c, dc`lookup
    ensures Chain(c) && dc.lookup == old(dc.lookup) && (dc.hasLookup && first.name != "" ==> Shows(dc.lookup, c))
    ensures forall x | x in c :: x.definitionData == if AnyDefinition(ds) then null else old(x.definitionData)
    decreases |ds|
  {
    if ds != [] {
      var d := ds[0];
      Redeclare(d, dc, c, first);
      RestMayFollow(ds, c, d);
      RedeclareAndUnload(ds[1..], dc, c + [d], first);
      UnloadLast(d, dc, c);
      if dc.hasLookup && first.name != "" {
        PutBack(old(dc.lookup), first.name, c[|c| - 1], d);
      }
    }
  }

  lemma RestMayFollow(ds: seq<Decl>, c: seq<Decl>, d: Decl)
    requires ds != [] && Distinct(ds) && d == ds[0] && forall x | x in ds :: x !in c
    ensures Distinct(ds[1..]) && forall x | x in ds[1..] :: x in ds && x != d && x !in c + [d]
  {
    forall x | x in ds[1..] ensures x in ds && x != d && x !in c + [d] {
      var i :| 0 <= i < |ds[1..]| && ds[1..][i] == x;
      assert x == ds[i + 1];
    }
  }
}
