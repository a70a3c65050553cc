/**
  File paths as the script runner uses them: the ordinal order in which
  the discovered script paths are sorted (FirebirdHelper.cs:33), and the
  file name that an execution error reports (FirebirdHelper.cs:39).
 */
module Paths {

  /** Path separators on the Windows file system the tool targets. */
  predicate IsDirectorySeparator(c: char)
  {
    c == '\\' || c == '/'
  }

  /**
    `Path.GetFileName`: the part of `path` after its last separator, or the
    whole path when it has none.
   */
  function FileName(path: string): (name: string)
    ensures |name| <= |path| && name == path[|path| - |name|..]
    ensures forall i :: 0 <= i < |name| ==> !IsDirectorySeparator(name[i])
    ensures |name| < |path| ==> IsDirectorySeparator(path[|path| - |name| - 1])
  {
    if |path| == 0 || IsDirectorySeparator(path[|path| - 1]) then []
    else FileName(path[..|path| - 1]) + [path[|path| - 1]]
  }

  /** The file name is the whole last component: a separator comes right before it, unless it is the whole path. */
  lemma FileNameAfterSeparator(path: string, name: string)
    requires name == FileName(path)
    ensures |name| < |path| ==> IsDirectorySeparator(path[|path| - |name| - 1])
  {
  }

  /**
    Ordinal order on strings: `a` is a prefix of `b`, or at the first
    position where they differ `a` has the smaller character code.
   */
  predicate OrdinalLe(a: string, b: string)
  {
    |a| == 0 || (|b| > 0 && (a[0] < b[0] || (a[0] == b[0] && OrdinalLe(a[1..], b[1..]))))
  }

  lemma {:induction false} OrdinalLeTotal(a: string, b: string)
    ensures OrdinalLe(a, b) || OrdinalLe(b, a)
  {
    if |a| > 0 && |b| > 0 && a[0] == b[0] {
      OrdinalLeTotal(a[1..], b[1..]);
    }
  }

  lemma {:induction false} OrdinalLeTransitive(a: string, b: string, c: string)
    requires OrdinalLe(a, b) && OrdinalLe(b, c)
    ensures OrdinalLe(a, c)
  {
    if |a| > 0 && a[0] == b[0] && b[0] == c[0] {
      OrdinalLeTransitive(a[1..], b[1..], c[1..]);
    }
  }

  lemma {:induction false} OrdinalLeAntisymmetric(a: string, b: string)
    requires OrdinalLe(a, b) && OrdinalLe(b, a)
    ensures a == b
  {
    if |a| > 0 {
      OrdinalLeAntisymmetric(a[1..], b[1..]);
      assert a == [a[0]] + a[1..] && b == [b[0]] + b[1..];
    }
  }
}
