/** Paths that start with "~". The code starts them in the home directory but keeps "~" as a component,
    so that "~/x" stands for "~/x" below the home directory. */
module HomePaths {
  import opened Paths
  import opened RealPath

  /** What the path is meant for: the home directory in the place of "~". */
  function Untilded(w: World, path: string): string
    requires StartsWithTilde(path)
  {
    "/" + w.home + path[1..]
  }

  function Called(w: World, path: string, base: string): Outcome {
    Answer(w, path, base, false, SYMLOOP_LEVEL)
  }

  function Home(w: World): Outcome {
    Walk(w.fs, [], Split(w.home), SYMLOOP_LEVEL)
  }

  /** What an entry "~" of the home directory leads to. */
  function TildeEntry(w: World): Outcome {
    Walk(w.fs, [], Split(w.home) + ["~"], SYMLOOP_LEVEL)
  }

  /** The components behind "~", resolved from where `start` has led to. */
  function From(w: World, start: Outcome, path: string): Outcome
    requires StartsWithTilde(path)
  {
    if start.Found? then Walk(w.fs, start.stack, Split(path[1..]), SYMLOOP_LEVEL) else start
  }

  lemma SplitTilde(path: string)
    requires StartsWithTilde(path)
    ensures Split(path) == ["~"] + Split(path[1..])
  {
    SplitName("~");
    assert path == "~" + path[1..];
    if |path| > 1 {
      SplitConcat("~", path[1..]);
    }
  }

  lemma SplitUntilded(w: World, path: string)
    requires StartsWithTilde(path)
    ensures Split(Untilded(w, path)) == Split(w.home) + Split(path[1..])
  {
    var rest := path[1..];
    assert Untilded(w, path)[1..] == w.home + rest;
    if rest == "" {
      assert w.home + rest == w.home;
    } else {
      SplitConcat(w.home, rest);
    }
  }

  /** The answer goes on from the entry "~" of the home directory, the answer to the path meant from the
      home directory itself. */
  lemma TildeIsKept(w: World, path: string, base: string)
    requires StartsWithTilde(path)
    ensures Called(w, path, base) == From(w, TildeEntry(w), path)
    ensures Called(w, Untilded(w, path), base) == From(w, Home(w), path)
  {
    var rest := Split(path[1..]);
    SplitTilde(path);
    assert Split(w.home) + Split(path) == Split(w.home) + ["~"] + rest;
    WalkConcat(w.fs, [], Split(w.home) + ["~"], rest, SYMLOOP_LEVEL);
    SplitUntilded(w, path);
    WalkConcat(w.fs, [], Split(w.home), rest, SYMLOOP_LEVEL);
  }

  lemma TildeOverruns(w: World)
    requires LinksResolve(w.fs)
    ensures !Home(w).TooManyLinks? && !TildeEntry(w).TooManyLinks?
    ensures TildeEntry(w).Found? ==> Home(w).Found?
  {
    NoOverrun(w.fs, [], Split(w.home));
    NoOverrun(w.fs, [], Split(w.home) + ["~"]);
    WalkConcat(w.fs, [], Split(w.home), ["~"], SYMLOOP_LEVEL);
  }

  /** When there is no entry "~" in the home directory, the call always fails; so it does what is meant
      exactly when the rest of the path does not resolve below the home directory either. When there is
      one, the two are the same exactly when the rest resolves alike from both. */
  lemma TildeMeansHomeExactly(w: World, path: string, base: string)
    requires LinksResolve(w.fs) && StartsWithTilde(path)
    ensures !TildeEntry(w).Found? ==> Called(w, path, base) == NoEntry
    ensures Called(w, path, base) == Called(w, Untilded(w, path), base) <==>
            if TildeEntry(w).Found? then From(w, TildeEntry(w), path) == From(w, Home(w), path)
            else !From(w, Home(w), path).Found?
  {
    TildeIsKept(w, path, base);
    TildeOverruns(w);
    OutsideAnswer(w, Untilded(w, path), base);
  }

  /** Every path with "~" means what it is meant for exactly when the home directory does not resolve, or
      has an entry "~" that leads back to it. */
  lemma TildeAlwaysMeansHome(w: World)
    requires LinksResolve(w.fs)
    ensures (forall path, base | StartsWithTilde(path) ::
             Called(w, path, base) == Called(w, Untilded(w, path), base)) <==>
            (Home(w).Found? ==> TildeEntry(w) == Home(w))
  {
    TildeOverruns(w);
    if Home(w).Found? ==> TildeEntry(w) == Home(w) {
      forall path, base | StartsWithTilde(path) ensures Called(w, path, base) == Called(w, Untilded(w, path), base) {
        TildeIsKept(w, path, base);
      }
    } else {
      TildeIsKept(w, "~", "");
      assert StartsWithTilde("~") && "~"[1..] == "";
    }
  }

  /** In a home directory without an entry "~", everything that is there is missed. */
  lemma TildeMisses(w: World, home: seq<string>, x: string)
    requires w.home == Canonical(home) && RealStack(w.fs, home + [x]) && Canonical(home + ["~"]) !in w.fs
    ensures Called(w, "~/" + x, "") == NoEntry
    ensures Called(w, Untilded(w, "~/" + x), "") == Found(home + [x])
  {
    var path := "~/" + x;
    assert Parent(home + [x]) == home;
    RealStackIsPlain(w.fs, home + [x]);
    RealStackIsPlain(w.fs, home);
    SplitCanonical(home);
    assert (home + [x])[|home|] == x;
    SplitBehindTilde(x);
    TildeIsKept(w, path, "");
    RealResolvesToItself(w.fs, home, SYMLOOP_LEVEL);
    RealResolvesToItself(w.fs, home + [x], SYMLOOP_LEVEL);
    WalkConcat(w.fs, [], home, [x], SYMLOOP_LEVEL);
    WalkConcat(w.fs, [], home, ["~"], SYMLOOP_LEVEL);
    assert Look(w.fs, home, "~") == Gone;
  }

  lemma SplitBehindTilde(x: string)
    requires IsName(x)
    ensures Split(("~/" + x)[1..]) == [x]
  {
    SplitAppendName("", x);
    assert ("~/" + x)[1..] == "" + [SEPARATOR] + x;
  }

  /** With a file "x" in the home directory "/h", "~/x" is not found, though "/h/x" is. */
  lemma TildeFails(w: World)
    requires w.fs == map["/h" := Directory, "/h/x" := File] && w.home == "/h"
    ensures Called(w, "~/x", "") == NoEntry
    ensures Called(w, Untilded(w, "~/x"), "") == Found(["h", "x"])
  {
    var home := ["h"];
    HomeStacks(w.fs);
    assert "~/" + "x" == "~/x" && home + ["x"] == ["h", "x"];
    TildeMisses(w, home, "x");
  }

  lemma HomeStacks(fs: FileSystem)
    requires fs == map["/h" := Directory, "/h/x" := File]
    ensures Canonical(["h"]) == "/h" && RealStack(fs, ["h"] + ["x"]) && Canonical(["h"] + ["~"]) !in fs
  {
    var home := ["h"];
    assert Canonical(home) == "/h" && Parent(home) == [] && Parent(home + ["x"]) == home;
    BelowHome("x");
    BelowHome("~");
    assert "/h/~"[3] != "/h/x"[3] && "/h/" + "~" == "/h/~" && "/h/" + "x" == "/h/x";
    assert RealStack(fs, []) && IsEntry("h") && Exists(fs, home);
    assert RealStack(fs, home) && IsEntry("x") && Exists(fs, home + ["x"]);
  }

  lemma BelowHome(item: string)
    ensures Canonical(["h"] + [item]) == "/h/" + item
  {
    assert (["h"] + [item])[..1] == ["h"] && Joined(["h"]) == "/h";
  }
}
