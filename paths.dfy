/**
 * The System.IO.Path operations the engine uses to name folders, for Unix paths
 * (the only separator is '/').
 */
module Paths {
  import opened Wrappers

  const Separator: char := '/'

  /** Path.GetFileName: the part of `p` after its last separator. */
  function FileName(p: string): string {
    match LastSeparator(p)
    case None => p
    case Some(k) => p[k + 1..]
  }

  /** The position of the last separator in `p`, if there is one. */
  function LastSeparator(p: string): (r: Option<nat>)
    ensures r.Some? ==> r.value < |p|
  {
    LastSeparatorBefore(p, |p|)
  }

  /** The position of the last separator among the first `n` characters of `p`. */
  function LastSeparatorBefore(p: string, n: nat): (r: Option<nat>)
    requires n <= |p|
    ensures r.Some? ==> r.value < n
  {
    if n == 0 then None
    else if p[n - 1] == Separator then Some(n - 1)
    else LastSeparatorBefore(p, n - 1)
  }

  /** string.TrimEnd(separator): drops every trailing separator. */
  function TrimTrailingSeparators(p: string): string {
    p[..TrimmedLength(p, |p|)]
  }

  /** The length of the first `n` characters of `p` once their trailing separators are dropped. */
  function TrimmedLength(p: string, n: nat): (r: nat)
    requires n <= |p|
    ensures r <= n
  {
    if n > 0 && p[n - 1] == Separator then TrimmedLength(p, n - 1) else n
  }

  /** No separator among the first `n` characters, or a separator after which none follows. */
  lemma {:induction false} LastSeparatorBeforeExact(p: string, n: nat)
    requires n <= |p|
    ensures LastSeparatorBefore(p, n).None? ==> forall i :: 0 <= i < n ==> p[i] != Separator
    ensures LastSeparatorBefore(p, n).Some? ==>
      && p[LastSeparatorBefore(p, n).value] == Separator
      && forall i :: LastSeparatorBefore(p, n).value < i < n ==> p[i] != Separator
  {
    if n > 0 && p[n - 1] != Separator {
      LastSeparatorBeforeExact(p, n - 1);
    }
  }

  /** The file name is the separator-free suffix of the path, preceded by a separator when it is shorter. */
  lemma FileNameExact(p: string)
    ensures var r := FileName(p);
      && Separator !in r
      && |r| <= |p| && r == p[|p| - |r|..]
      && (|r| < |p| ==> p[|p| - |r| - 1] == Separator)
  {
    LastSeparatorBeforeExact(p, |p|);
  }

  /** Only separators are trimmed, and what is left does not end in one. */
  lemma {:induction false} TrimmedLengthExact(p: string, n: nat)
    requires n <= |p|
    ensures var r := TrimmedLength(p, n);
      && (r == 0 || p[r - 1] != Separator)
      && forall i :: r <= i < n ==> p[i] == Separator
  {
    if n > 0 && p[n - 1] == Separator {
      TrimmedLengthExact(p, n - 1);
    }
  }

  /** Trimming leaves a prefix that does not end in a separator, and removes only separators. */
  lemma TrimTrailingSeparatorsExact(p: string)
    ensures var r := TrimTrailingSeparators(p);
      && |r| <= |p| && r == p[..|r|]
      && (r == [] || r[|r| - 1] != Separator)
      && forall i :: |r| <= i < |p| ==> p[i] == Separator
  {
    TrimmedLengthExact(p, |p|);
  }

  /** Path.TrimEndingDirectorySeparator: drops one trailing separator, unless `p` is the root. */
  function TrimEndingSeparator(p: string): string {
    if |p| > 1 && p[|p| - 1] == Separator then p[..|p| - 1] else p
  }

  /** Path.GetDirectoryName: `None` for the empty path and the root. */
  function DirectoryName(p: string): Option<string> {
    if p == [] || p == [Separator] then None
    else match LastSeparator(p)
      case None => Some([])
      case Some(k) =>
        var d := TrimTrailingSeparators(p[..k]);
        if d == [] && p[0] == Separator then Some([Separator]) else Some(d)
  }

  /** Path.Combine(a, b): a rooted or empty side wins, otherwise one separator joins them. */
  function Combine(a: string, b: string): string {
    if b == [] then a
    else if a == [] || b[0] == Separator then b
    else if a[|a| - 1] == Separator then a + b
    else a + [Separator] + b
  }

  /** The end of the run of separators in `p` that starts at `n`. */
  function SeparatorRunEnd(p: string, n: nat): (r: nat)
    requires n <= |p|
    ensures n <= r <= |p|
    decreases |p| - n
  {
    if n < |p| && p[n] == Separator then SeparatorRunEnd(p, n + 1) else n
  }

  /** The run from `n` holds only separators, and is followed by a non-separator or the end. */
  lemma {:induction false} SeparatorRunEndExact(p: string, n: nat)
    requires n <= |p|
    ensures var r := SeparatorRunEnd(p, n);
      && (r == |p| || p[r] != Separator)
      && forall i :: n <= i < r ==> p[i] == Separator
    decreases |p| - n
  {
    if n < |p| && p[n] == Separator {
      SeparatorRunEndExact(p, n + 1);
    }
  }

  /**
   * Path.GetRelativePath(root, path) for a path inside `root`. Both sides are
   * normalised first, so the run of separators between `root` and the rest
   * counts as one. A path outside `root`, whose relative form would climb
   * with "..", is reduced to its file name.
   */
  function RelativePath(root: string, path: string): string {
    if root != [] && |root| < |path| && path[..|root|] == root
       && (root[|root| - 1] == Separator || path[|root|] == Separator)
    then path[SeparatorRunEnd(path, |root|)..]
    else FileName(path)
  }

  /** A name below `root`, after any run of separators, is found again relative to `root`. */
  lemma RelativePathAfterSeparators(root: string, seps: string, name: string)
    requires root != [] && name != [] && name[0] != Separator
    requires forall i :: 0 <= i < |seps| ==> seps[i] == Separator
    requires seps != [] || root[|root| - 1] == Separator
    ensures RelativePath(root, root + seps + name) == name
  {
    var path := root + seps + name;
    var m := |root| + |seps|;
    assert path[..|root|] == root;
    assert path[m] == name[0];
    SeparatorRunEndExact(path, |root|);
    assert path[m..] == name;
  }

  /** A name joined under a folder is found again relative to that folder. */
  lemma RelativePathOfCombine(root: string, name: string)
    requires root != [] && name != [] && name[0] != Separator
    ensures RelativePath(root, Combine(root, name)) == name
  {
    if root[|root| - 1] == Separator {
      assert Combine(root, name) == root + [] + name;
      RelativePathAfterSeparators(root, [], name);
    } else {
      RelativePathAfterSeparators(root, [Separator], name);
    }
  }
}
