/** POSIX path strings and the component stacks they stand for: splitting at separators, dropping
    the last component, appending one, and the canonical string of a stack. */
module Paths {

  const SEPARATOR: char := '/'

  /** A component as it comes out of splitting a path: not empty and without a separator. */
  predicate IsName(item: string) {
    item != "" && SEPARATOR !in item
  }

  /** A component that names a directory entry, that is, neither "." nor "..". */
  predicate IsEntry(item: string) {
    IsName(item) && item != "." && item != ".."
  }

  predicate AllNames(items: seq<string>) {
    forall i | 0 <= i < |items| :: IsName(items[i])
  }

  predicate AllEntries(items: seq<string>) {
    forall i | 0 <= i < |items| :: IsEntry(items[i])
  }

  predicate IsRelative(path: string) {
    path == "" || path[0] != SEPARATOR
  }

  /** The length of the text before the first separator. */
  function WordLength(s: string): (n: nat)
    ensures n <= |s| && SEPARATOR !in s[..n]
    ensures n < |s| ==> s[n] == SEPARATOR
  {
    if s == "" || s[0] == SEPARATOR then 0
    else
      assert forall k | 0 <= k <= |s| - 1 :: s[..k + 1] == [s[0]] + s[1..][..k];
      1 + WordLength(s[1..])
  }

  /** The components between separators; empty ones are not kept. */
  function Split(s: string): (items: seq<string>)
    ensures AllNames(items)
    decreases |s|
  {
    if s == "" then []
    else if s[0] == SEPARATOR then Split(s[1..])
    else var n := WordLength(s); [s[..n]] + Split(s[n..])
  }

  /** Every component preceded by a separator. */
  function Joined(stack: seq<string>): string {
    if stack == [] then "" else Joined(stack[..|stack| - 1]) + [SEPARATOR] + stack[|stack| - 1]
  }

  /** The one string that stands for the absolute path with these components. */
  function Canonical(stack: seq<string>): (s: string)
    ensures s != ""
  {
    if stack == [] then [SEPARATOR] else Joined(stack)
  }

  function Parent(stack: seq<string>): seq<string> {
    if stack == [] then [] else stack[..|stack| - 1]
  }

  /** Appending one component to a path; a separator is put in between unless it is already there
      or the path is empty. */
  function Append(path: string, item: string): string {
    if path == "" || path[|path| - 1] == SEPARATOR then path + item else path + [SEPARATOR] + item
  }

  /** The position of the last separator, or -1. */
  function LastSeparator(s: string): (n: int)
    ensures -1 <= n < |s|
    ensures n >= 0 ==> s[n] == SEPARATOR
    ensures SEPARATOR !in s[n + 1..]
  {
    if s == "" then -1
    else if s[|s| - 1] == SEPARATOR then |s| - 1
    else
      assert s == s[..|s| - 1] + [s[|s| - 1]];
      LastSeparator(s[..|s| - 1])
  }

  // ---------- strings and stacks agree ----------

  /** A separator ends a component, so splitting distributes over it. */
  lemma {:induction false} SplitConcat(s: string, t: string)
    requires t != "" && t[0] == SEPARATOR
    ensures Split(s + t) == Split(s) + Split(t)
    decreases |s|
  {
    if s == "" {
      SplitNothing(s, t);
    } else {
      var n := if s[0] == SEPARATOR then 1 else WordLength(s);
      SplitConcat(s[n..], t);
      SplitStep(s, t, n);
    }
  }

  lemma SplitNothing(s: string, t: string)
    requires s == ""
    ensures Split(s + t) == Split(s) + Split(t)
  {
    assert s + t == t;
  }

  lemma SplitStep(s: string, t: string, n: nat)
    requires t != "" && t[0] == SEPARATOR && s != "" && n == if s[0] == SEPARATOR then 1 else WordLength(s)
    requires Split(s[n..] + t) == Split(s[n..]) + Split(t)
    ensures Split(s + t) == Split(s) + Split(t)
  {
    if s[0] == SEPARATOR {
      SplitSkips(s, t);
    } else {
      SplitTakesWord(s, t, n);
    }
  }

  lemma SplitSkips(s: string, t: string)
    requires s != "" && s[0] == SEPARATOR && Split(s[1..] + t) == Split(s[1..]) + Split(t)
    ensures Split(s + t) == Split(s) + Split(t)
  {
    ConcatSlices(s, t, 1);
  }

  lemma SplitTakesWord(s: string, t: string, n: nat)
    requires t != "" && t[0] == SEPARATOR && s != "" && s[0] != SEPARATOR && n == WordLength(s)
    requires Split(s[n..] + t) == Split(s[n..]) + Split(t)
    ensures Split(s + t) == Split(s) + Split(t)
  {
    WordLengthOfExtension(s, t);
    ConcatSlices(s, t, n);
    InFront(s[..n], Split(s[n..]), Split(t));
  }

  lemma ConcatSlices<T>(s: seq<T>, t: seq<T>, n: nat)
    requires n <= |s|
    ensures (s + t)[..n] == s[..n] && (s + t)[n..] == s[n..] + t
  {
  }

  lemma InFront<T>(first: T, a: seq<T>, b: seq<T>)
    ensures [first] + (a + b) == [first] + a + b
  {
  }

  lemma SplitAppendName(prefix: string, item: string)
    requires IsName(item)
    ensures Split(prefix + [SEPARATOR] + item) == Split(prefix) + [item]
  {
    var tail := [SEPARATOR] + item;
    assert prefix + [SEPARATOR] + item == prefix + tail;
    SplitConcat(prefix, tail);
    SplitName(item);
    assert tail[1..] == item;
  }

  lemma SplitName(item: string)
    requires IsName(item)
    ensures Split(item) == [item]
  {
    var n := WordLength(item);
    assert n == |item|;
    assert item[..n] == item && item[n..] == "";
  }

  lemma {:induction false} WordLengthOfExtension(s: string, t: string)
    requires t == "" || t[0] == SEPARATOR
    ensures WordLength(s + t) == WordLength(s)
  {
    if s != "" && s[0] != SEPARATOR {
      assert (s + t)[1..] == s[1..] + t;
      WordLengthOfExtension(s[1..], t);
    } else if s == "" {
      assert s + t == t;
    }
  }

  /** Splitting the canonical string gives the stack back. */
  lemma {:induction false} SplitCanonical(stack: seq<string>)
    requires AllNames(stack)
    ensures Split(Canonical(stack)) == stack
  {
    if stack == [] {
      assert Canonical(stack)[1..] == "";
    } else {
      SplitJoined(stack);
    }
  }

  lemma {:induction false} SplitJoined(stack: seq<string>)
    requires AllNames(stack)
    ensures Split(Joined(stack)) == stack
  {
    if stack != [] {
      var init := stack[..|stack| - 1];
      SplitJoined(init);
      SplitAppendName(Joined(init), stack[|stack| - 1]);
      assert stack == init + [stack[|stack| - 1]];
    }
  }

  /** Appending a component to the string pushes it on the stack. */
  lemma AppendCanonical(stack: seq<string>, item: string)
    requires AllNames(stack) && IsName(item)
    ensures Append(Canonical(stack), item) == Canonical(stack + [item])
  {
    JoinedPush(stack, item);
    if stack != [] {
      var last := stack[|stack| - 1];
      assert Joined(stack)[|Joined(stack)| - 1] == last[|last| - 1];
    } else {
      assert Joined(stack) == "" && Canonical(stack) == [SEPARATOR];
      assert Joined(stack) + [SEPARATOR] + item == [SEPARATOR] + item;
    }
  }

  lemma JoinedPush(stack: seq<string>, item: string)
    ensures Joined(stack + [item]) == Joined(stack) + [SEPARATOR] + item
  {
    assert (stack + [item])[..|stack|] == stack;
  }

  /** Cutting the string at its last separator, or resetting it to the root when nothing is left,
      pops the stack. */
  lemma CutCanonical(stack: seq<string>)
    requires AllNames(stack)
    ensures var s := Canonical(stack);
            var n := LastSeparator(s);
            n >= 0 && (if n == 0 then [SEPARATOR] else s[..n]) == Canonical(Parent(stack))
  {
    if stack != [] {
      var init, last := Joined(Parent(stack)), stack[|stack| - 1];
      LastSeparatorBeforeName(init, last);
      assert Joined(stack)[..|init|] == init;
    }
  }

  lemma {:induction false} LastSeparatorBeforeName(prefix: string, item: string)
    requires SEPARATOR !in item
    ensures LastSeparator(prefix + [SEPARATOR] + item) == |prefix|
  {
    var s := prefix + [SEPARATOR] + item;
    if item == "" {
      assert s[|s| - 1] == SEPARATOR;
    } else {
      var init := item[..|item| - 1];
      assert s[|s| - 1] == item[|item| - 1];
      assert s[..|s| - 1] == prefix + [SEPARATOR] + init;
      LastSeparatorBeforeName(prefix, init);
    }
  }

  lemma CanonicalIsAbsolute(stack: seq<string>)
    ensures !IsRelative(Canonical(stack))
  {
    if stack != [] {
      JoinedStarts(stack);
    }
  }

  lemma {:induction false} JoinedStarts(stack: seq<string>)
    requires stack != []
    ensures Joined(stack) != "" && Joined(stack)[0] == SEPARATOR
  {
    if |stack| > 1 {
      JoinedStarts(stack[..|stack| - 1]);
    }
  }
}
