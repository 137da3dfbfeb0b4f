/** A library is kept as the path of its directory and its name there. */
module LibraryNames {

  import Paths

  datatype Key = Key(path: string, libName: string)

  function FullName(key: Key): string {
    Paths.Append(key.path, key.libName)
  }

  function KeyOf(name: string): Key {
    var n := Paths.LastSeparator(name);
    if n < 0 then Key("", name) else Key(if n == 0 then [Paths.SEPARATOR] else name[..n], name[n + 1..])
  }

  /** The canonical name of a file. */
  ghost predicate IsFileName(name: string) {
    exists stack: seq<string> :: stack != [] && Paths.AllNames(stack) && name == Paths.Canonical(stack)
  }

  lemma KeyOfCanonical(parent: seq<string>, last: string)
    requires Paths.AllNames(parent) && Paths.IsName(last)
    ensures KeyOf(Paths.Append(Paths.Canonical(parent), last)) == Key(Paths.Canonical(parent), last)
  {
    AppendToCanonical(parent, last);
    KeyOfJoined(if parent == [] then "" else Paths.Canonical(parent), last);
  }

  lemma KeyOfJoined(init: string, last: string)
    requires Paths.IsName(last)
    ensures KeyOf(init + [Paths.SEPARATOR] + last) == Key(if init == "" then [Paths.SEPARATOR] else init, last)
  {
    var name := init + [Paths.SEPARATOR] + last;
    Paths.LastSeparatorBeforeName(init, last);
    assert name[|init| + 1..] == last && name[..|init|] == init;
  }

  lemma AppendToCanonical(parent: seq<string>, last: string)
    requires Paths.AllNames(parent) && Paths.IsName(last)
    ensures parent != [] ==> Paths.Canonical(parent) != ""
    ensures Paths.Append(Paths.Canonical(parent), last) ==
            (if parent == [] then "" else Paths.Canonical(parent)) + [Paths.SEPARATOR] + last
  {
    if parent != [] {
      assert Paths.IsName(parent[|parent| - 1]);
    }
  }

  /** Splitting the canonical name of a file into its two parts loses nothing. */
  lemma NameOfKey(name: string)
    requires IsFileName(name)
    ensures FullName(KeyOf(name)) == name
  {
    var stack: seq<string> :| stack != [] && Paths.AllNames(stack) && name == Paths.Canonical(stack);
    var parent, last := stack[..|stack| - 1], stack[|stack| - 1];
    assert stack == parent + [last];
    NameOfSplit(parent, last, name);
  }

  lemma NameOfSplit(parent: seq<string>, last: string, name: string)
    requires Paths.AllNames(parent) && Paths.IsName(last) && name == Paths.Canonical(parent + [last])
    ensures FullName(KeyOf(name)) == name
  {
    Paths.AppendCanonical(parent, last);
    KeyOfCanonical(parent, last);
  }

  lemma KeyOfInjective(f: string, g: string)
    requires IsFileName(f) && IsFileName(g) && KeyOf(f) == KeyOf(g)
    ensures f == g
  {
    NameOfKey(f);
    NameOfKey(g);
  }

  /** A name without a directory is kept as it is. */
  lemma PlainName(name: string)
    requires Paths.IsName(name)
    ensures KeyOf(name).libName == name && FullName(KeyOf(name)) == name
  {
  }
}
