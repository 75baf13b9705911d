/**
 * The few operations of Python's `str` that the manifest parsers use:
 * `strip()`, `sub in s`, `s.find(sub)`, `s.split(sep)`, `s.startswith(p)`
 * and `sep.join(parts)`. The functions carry only the facts needed to be
 * well defined; what they mean is stated by the lemmas after each of them.
 */
module Strings {
  import opened Wrappers

  /** Python's `str.isspace()` on one character. */
  predicate IsSpace(c: char) {
    var n := c as int;
    (9 <= n <= 13) || (28 <= n <= 32) || n == 0x85 || n == 0xA0 || n == 0x1680
    || (0x2000 <= n <= 0x200A) || n == 0x2028 || n == 0x2029 || n == 0x202F
    || n == 0x205F || n == 0x3000
  }

  /** `s.lstrip()`. */
  function TrimLeft(s: string): string
    decreases |s|
  {
    if s != [] && IsSpace(s[0]) then TrimLeft(s[1..]) else s
  }

  /** `s.rstrip()`. */
  function TrimRight(s: string): string
    decreases |s|
  {
    if s != [] && IsSpace(s[|s| - 1]) then TrimRight(s[..|s| - 1]) else s
  }

  /** `s.strip()`. */
  function Strip(s: string): string {
    TrimRight(TrimLeft(s))
  }

  /** `lstrip()` removes a prefix made of whitespace, and all of it. */
  lemma {:induction false} TrimLeftSpec(s: string)
    ensures var r := TrimLeft(s);
      && |r| <= |s| && r == s[|s| - |r|..]
      && (r == [] || !IsSpace(r[0]))
      && forall i :: 0 <= i < |s| - |r| ==> IsSpace(s[i])
    decreases |s|
  {
    if s != [] && IsSpace(s[0]) {
      TrimLeftSpec(s[1..]);
    }
  }

  /** `rstrip()` removes a suffix made of whitespace, and all of it. */
  lemma {:induction false} TrimRightSpec(s: string)
    ensures var r := TrimRight(s);
      && |r| <= |s| && r == s[..|r|]
      && (r == [] || !IsSpace(r[|r| - 1]))
      && forall i :: |r| <= i < |s| ==> IsSpace(s[i])
    decreases |s|
  {
    if s != [] && IsSpace(s[|s| - 1]) {
      TrimRightSpec(s[..|s| - 1]);
    }
  }

  /**
   * `strip()` keeps a slice of `s` that neither starts nor ends with
   * whitespace: `s` is that slice with whitespace on either side.
   */
  lemma StripSpec(s: string)
    ensures |Strip(s)| <= |TrimLeft(s)| <= |s|
    ensures var r := Strip(s);
      && (r == [] || (!IsSpace(r[0]) && !IsSpace(r[|r| - 1])))
      && r == s[|s| - |TrimLeft(s)|..][..|r|]
  {
    TrimLeftSpec(s);
    TrimRightSpec(TrimLeft(s));
  }

  /** A string that neither starts nor ends with whitespace is left as it is by `strip()`. */
  lemma StripKeeps(s: string)
    requires s != [] && !IsSpace(s[0]) && !IsSpace(s[|s| - 1])
    ensures Strip(s) == s
  {
    assert TrimLeft(s) == s;
  }

  /** `strip()` is idempotent. */
  lemma StripIdempotent(s: string)
    ensures Strip(Strip(s)) == Strip(s)
  {
    StripSpec(s);
    if Strip(s) != [] {
      StripKeeps(Strip(s));
    }
  }

  /** `t` occurs in `s` starting at position `j`. */
  predicate OccursAt(s: string, t: string, j: nat) {
    j + |t| <= |s| && s[j..j + |t|] == t
  }

  /** `s.find(t)`: the first position where `t` occurs in `s`, or None (`""` is found at 0). */
  function IndexOf(s: string, t: string): (r: Option<nat>)
    ensures r.Some? ==> r.value + |t| <= |s|
    decreases |s|
  {
    if |s| < |t| then None
    else if s[..|t|] == t then Some(0)
    else
      match IndexOf(s[1..], t)
      case None => None
      case Some(k) => Some(k + 1)
  }

  /** `find` reports the first occurrence, and None only when there is none. */
  lemma {:induction false} IndexOfSpec(s: string, t: string)
    ensures var r := IndexOf(s, t);
      && (r.Some? ==> OccursAt(s, t, r.value))
      && (r.Some? ==> forall j: nat :: j < r.value ==> !OccursAt(s, t, j))
      && (r.None? ==> forall j: nat :: !OccursAt(s, t, j))
    decreases |s|
  {
    if |s| >= |t| && s[..|t|] != t {
      IndexOfSpec(s[1..], t);
      forall j: nat | 1 <= j
        ensures OccursAt(s, t, j) <==> OccursAt(s[1..], t, j - 1)
      {
        if j + |t| <= |s| {
          assert s[1..][j - 1..j - 1 + |t|] == s[j..j + |t|];
        }
      }
    }
  }

  /** Python's `t in s` on strings. */
  predicate Contains(s: string, t: string) {
    IndexOf(s, t).Some?
  }

  /** An occurrence anywhere makes `t in s` true. */
  lemma ContainsAt(s: string, t: string, j: nat)
    requires OccursAt(s, t, j)
    ensures Contains(s, t)
  {
    IndexOfSpec(s, t);
  }

  /** A string whose first character never occurs in `s` is not a substring of `s`. */
  lemma NotContainsFirstChar(s: string, t: string)
    requires t != [] && t[0] !in s
    ensures !Contains(s, t)
  {
    IndexOfSpec(s, t);
    forall j: nat | j + |t| <= |s|
      ensures !OccursAt(s, t, j)
    {
      assert s[j..j + |t|][0] == s[j];
    }
  }

  /** `t` is found exactly where it is written when its first character does not occur before it. */
  lemma IndexOfAfterFree(x: string, t: string, y: string)
    requires t != [] && t[0] !in x
    ensures IndexOf(x + t + y, t) == Some(|x|)
  {
    var s := x + t + y;
    IndexOfSpec(s, t);
    assert OccursAt(s, t, |x|) by {
      assert s[|x|..|x| + |t|] == t;
    }
    forall j: nat | j < |x| && j + |t| <= |s|
      ensures !OccursAt(s, t, j)
    {
      assert s[j..j + |t|][0] == s[j] == x[j];
    }
  }

  /** `s.split(t)[0]` for a non-empty separator: the text before the first `t`, or all of `s`. */
  function Before(s: string, t: string): string {
    match IndexOf(s, t)
    case None => s
    case Some(i) => s[..i]
  }

  /** What precedes the first separator is a prefix of `s` free of the separator. */
  lemma BeforeSpec(s: string, t: string)
    requires t != []
    ensures var r := Before(s, t); |r| <= |s| && r == s[..|r|] && !Contains(r, t)
  {
    IndexOfSpec(s, t);
    var r := Before(s, t);
    IndexOfSpec(r, t);
    if IndexOf(s, t).Some? {
      forall j: nat | OccursAt(r, t, j)
        ensures OccursAt(s, t, j) && j + |t| <= |r|
      {
        assert r[j..j + |t|] == s[j..j + |t|];
      }
    }
  }

  /** `s.split(t, 1)[1]` when `t` occurs in `s`: the text after the first `t`. */
  function After(s: string, t: string): string {
    match IndexOf(s, t)
    case None => ""
    case Some(i) => s[i + |t|..]
  }

  /** Splitting once at `t` and gluing the halves back with `t` gives `s`. */
  lemma BeforeAfter(s: string, t: string)
    requires Contains(s, t)
    ensures Before(s, t) + t + After(s, t) == s
  {
    IndexOfSpec(s, t);
    var i := IndexOf(s, t).value;
    assert s == s[..i] + s[i..i + |t|] + s[i + |t|..];
  }

  /** Where `t` is found right after a prefix free of its first character, the halves are that prefix and what follows `t`. */
  lemma SplitOnceAfterFree(x: string, t: string, y: string)
    requires t != [] && t[0] !in x
    ensures Before(x + t + y, t) == x && After(x + t + y, t) == y
  {
    IndexOfAfterFree(x, t, y);
    var s := x + t + y;
    assert s[..|x|] == x;
    assert s[|x| + |t|..] == y;
  }

  /** `s.startswith(p)`. */
  predicate StartsWith(s: string, p: string) {
    |p| <= |s| && s[..|p|] == p
  }

  /** The position of the first `c` in `s`. */
  function CharIndex(s: string, c: char): (i: nat)
    requires c in s
    ensures i < |s| && s[i] == c
  {
    if s[0] == c then 0 else CharIndex(s[1..], c) + 1
  }

  /** No `c` comes before the first `c`. */
  lemma {:induction false} CharIndexFirst(s: string, c: char)
    requires c in s
    ensures c !in s[..CharIndex(s, c)]
  {
    if s[0] != c {
      CharIndexFirst(s[1..], c);
      assert s[..CharIndex(s, c)] == [s[0]] + s[1..][..CharIndex(s[1..], c)];
    }
  }

  /** `s.split(c)` for a one-character separator. */
  function Split(s: string, c: char): (parts: seq<string>)
    ensures |parts| >= 1
    decreases |s|
  {
    if c !in s then [s]
    else
      var i := CharIndex(s, c);
      [s[..i]] + Split(s[i + 1..], c)
  }

  /** `s.split(c)` has a second part exactly when `c` occurs in `s`. */
  lemma SplitTwo(s: string, c: char)
    ensures c in s <==> |Split(s, c)| >= 2
  {
    if c in s {
      var i := CharIndex(s, c);
      assert |Split(s[i + 1..], c)| >= 1;
    }
  }

  /** No part of `s.split(c)` contains `c`. */
  lemma {:induction false} SplitParts(s: string, c: char)
    ensures forall i :: 0 <= i < |Split(s, c)| ==> c !in Split(s, c)[i]
    decreases |s|
  {
    if c in s {
      var i := CharIndex(s, c);
      CharIndexFirst(s, c);
      SplitParts(s[i + 1..], c);
    }
  }

  /** `c.join(parts)`. */
  function Join(parts: seq<string>, c: char): string {
    if |parts| <= 1 then (if parts == [] then "" else parts[0])
    else parts[0] + [c] + Join(parts[1..], c)
  }

  /** The first `c` in `x + [c] + y` is the one written after `x`. */
  lemma {:induction false} CharIndexAfterFree(x: string, c: char, y: string)
    requires c !in x
    ensures CharIndex(x + [c] + y, c) == |x|
  {
    var s := x + [c] + y;
    if x != [] {
      assert s[0] == x[0];
      assert s[1..] == x[1..] + [c] + y;
      CharIndexAfterFree(x[1..], c, y);
    }
  }

  /** Splitting at the first separator: what precedes it is the first part. */
  lemma SplitAt(x: string, c: char, y: string)
    requires c !in x
    ensures Split(x + [c] + y, c) == [x] + Split(y, c)
  {
    var s := x + [c] + y;
    assert s[|x|] == c;
    CharIndexAfterFree(x, c, y);
    assert s[..|x|] == x;
    assert s[|x| + 1..] == y;
  }

  /** `c.join(s.split(c)) == s`: splitting loses nothing. */
  lemma {:induction false} SplitJoin(s: string, c: char)
    ensures Join(Split(s, c), c) == s
    decreases |s|
  {
    if c in s {
      var i := CharIndex(s, c);
      SplitJoin(s[i + 1..], c);
      assert s == s[..i] + [c] + s[i + 1..];
    }
  }
}
