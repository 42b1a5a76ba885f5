/** Path and template text: .NET's `Path.Combine` and `Path.GetFileName` on a
    Unix file system, and `string.Format` with a single argument `{0}`. */
module Paths {

  const SEPARATOR: char := '/'

  predicate IsRooted(p: string) {
    |p| > 0 && p[0] == SEPARATOR
  }

  predicate HasSeparator(s: string) {
    exists i :: 0 <= i < |s| && s[i] == SEPARATOR
  }

  /** A name that `Path.Combine` puts below a directory: non-empty, no separator. */
  predicate IsPlainName(s: string) {
    |s| > 0 && !HasSeparator(s)
  }

  /** `Path.Combine(dir, name)`: a rooted second part wins, an empty part
      gives the other, and a separator is inserted only when `dir` lacks one. */
  function Combine(dir: string, name: string): (p: string)
    ensures IsPlainName(name) && |dir| > 0 ==> |p| > |name| && p[|p| - |name|..] == name
  {
    if IsRooted(name) || dir == "" then name
    else if name == "" then dir
    else if dir[|dir| - 1] == SEPARATOR then dir + name
    else dir + [SEPARATOR] + name
  }

  /** Below one directory, distinct plain names give distinct paths. */
  lemma CombineInjective(dir: string, a: string, b: string)
    requires IsPlainName(a) && IsPlainName(b)
    ensures Combine(dir, a) == Combine(dir, b) <==> a == b
  {
    if Combine(dir, a) == Combine(dir, b) && dir != "" {
      var prefix := if dir[|dir| - 1] == SEPARATOR then dir else dir + [SEPARATOR];
      assert Combine(dir, a) == prefix + a && Combine(dir, b) == prefix + b;
      assert a == (prefix + a)[|prefix|..];
    }
  }

  /** A directory path as configured: non-empty and without a trailing separator. */
  predicate IsDirectoryPath(d: string) {
    |d| > 0 && d[|d| - 1] != SEPARATOR
  }

  /** Below directories without a trailing separator, a combined path
      determines both the directory and the name. */
  lemma CombineUnique(d1: string, n1: string, d2: string, n2: string)
    requires IsDirectoryPath(d1) && IsDirectoryPath(d2) && IsPlainName(n1) && IsPlainName(n2)
    ensures Combine(d1, n1) == Combine(d2, n2) <==> d1 == d2 && n1 == n2
  {
    if Combine(d1, n1) == Combine(d2, n2) {
      FileNameOfCombine(d1, n1);
      FileNameOfCombine(d2, n2);
      var p := Combine(d1, n1);
      assert d1 == p[..|d1|] && d2 == p[..|d2|];
    }
  }

  /** `Path.GetFileName`: what follows the last separator. */
  function FileName(p: string): (n: string)
    ensures |n| <= |p| && !HasSeparator(n)
    ensures n == p[|p| - |n|..]
  {
    if p == [] then []
    else if p[|p| - 1] == SEPARATOR then []
    else FileName(p[..|p| - 1]) + [p[|p| - 1]]
  }

  /** The name of a directory entry is the plain name it was combined from. */
  lemma {:induction false} FileNameOfCombine(dir: string, name: string)
    requires IsPlainName(name) && dir != ""
    ensures FileName(Combine(dir, name)) == name
  {
    var p := Combine(dir, name);
    assert p[|p| - |name|..] == name;
    FileNameOfSuffix(p, |name|);
  }

  lemma {:induction false} FileNameOfSuffix(p: string, k: nat)
    requires k < |p| && p[|p| - k - 1] == SEPARATOR && !HasSeparator(p[|p| - k..])
    ensures FileName(p) == p[|p| - k..]
  {
    if k > 0 {
      var q := p[..|p| - 1];
      assert q[|q| - (k - 1) - 1] == SEPARATOR;
      assert q[|q| - (k - 1)..] == p[|p| - k..|p| - 1];
      assert q[|q| - (k - 1)..] == p[|p| - k..][..k - 1];
      NoSeparatorPrefix(p[|p| - k..], k - 1);
      FileNameOfSuffix(q, k - 1);
      assert p[|p| - 1] == p[|p| - k..][k - 1];
      assert p[|p| - k..] == q[|q| - (k - 1)..] + [p[|p| - 1]];
    }
  }

  lemma NoSeparatorPrefix(s: string, n: nat)
    requires n <= |s| && !HasSeparator(s)
    ensures !HasSeparator(s[..n])
  {
    assert forall i | 0 <= i < n :: s[..n][i] == s[i];
  }

  /** `string.Format(template, arg)` for a template whose only format item is
      `{0}`: every `{0}` is replaced by `arg`, everything else is kept. */
  function Format(template: string, arg: string): string
    decreases |template|
  {
    if |template| < 3 then template
    else if template[..3] == "{0}" then arg + Format(template[3..], arg)
    else [template[0]] + Format(template[1..], arg)
  }

  /** How many `{0}` items `Format` replaces. */
  function Placeholders(template: string): nat
    decreases |template|
  {
    if |template| < 3 then 0
    else if template[..3] == "{0}" then 1 + Placeholders(template[3..])
    else Placeholders(template[1..])
  }

  lemma {:induction false} FormatLength(template: string, arg: string)
    ensures |Format(template, arg)| == |template| + Placeholders(template) * (|arg| - 3)
    decreases |template|
  {
    var k := |arg| - 3;
    if |template| >= 3 {
      if template[..3] == "{0}" {
        FormatLength(template[3..], arg);
        var n := Placeholders(template[3..]);
        assert Placeholders(template) == 1 + n;
        assert |Format(template, arg)| == |arg| + |Format(template[3..], arg)|;
        MulSucc(n, k);
      } else {
        FormatLength(template[1..], arg);
        assert Placeholders(template) == Placeholders(template[1..]);
        assert |Format(template, arg)| == 1 + |Format(template[1..], arg)|;
      }
    }
  }

  lemma MulSucc(n: int, k: int)
    ensures (1 + n) * k == k + n * k
  {
  }

  /** A template holding `{0}` maps distinct arguments to distinct texts, so
      distinct ruleset names get distinct directories. */
  lemma FormatInjective(template: string, x: string, y: string)
    requires Placeholders(template) >= 1
    ensures Format(template, x) == Format(template, y) <==> x == y
  {
    if Format(template, x) == Format(template, y) {
      FormatLength(template, x);
      FormatLength(template, y);
      var c := Placeholders(template);
      MulCancel(c, |x| - 3, |y| - 3);
      FormatSameLength(template, x, y);
    }
  }

  lemma MulCancel(c: int, a: int, b: int)
    requires c >= 1 && c * a == c * b
    ensures a == b
  {
    assert c * (a - b) == 0;
  }

  lemma {:induction false} FormatSameLength(template: string, x: string, y: string)
    requires Placeholders(template) >= 1 && |x| == |y|
    requires Format(template, x) == Format(template, y)
    ensures x == y
    decreases |template|
  {
    if template[..3] == "{0}" {
      var fx, fy := Format(template, x), Format(template, y);
      assert x == fx[..|x|] && y == fy[..|y|];
    } else {
      var fx, fy := Format(template, x), Format(template, y);
      assert Format(template[1..], x) == fx[1..];
      assert Format(template[1..], y) == fy[1..];
      FormatSameLength(template[1..], x, y);
    }
  }
}
