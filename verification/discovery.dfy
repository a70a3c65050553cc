/**
  The script files a run works on (FirebirdHelper.cs:29-33): the `*.sql`
  files found in the scripts directory, sorted by path.
 */
module Discovery {
  import opened Paths

  /** A script file: its full path and the text read from it. */
  datatype ScriptFile = ScriptFile(path: string, text: string)

  /**
    The scripts directory as the runner sees it: whether it exists and, if
    it does, the `*.sql` files listed in it, in the order the file system
    returned them.
   */
  datatype ScriptsDirectory = ScriptsDirectory(path: string, present: bool, scripts: seq<ScriptFile>)

  /** Paths ascend in ordinal order. */
  predicate SortedByPath(files: seq<ScriptFile>)
  {
    forall i, j :: 0 <= i < j < |files| ==> OrdinalLe(files[i].path, files[j].path)
  }

  /** No two files share a path, as in any directory listing. */
  predicate DistinctPaths(files: seq<ScriptFile>)
  {
    forall i, j :: 0 <= i < j < |files| ==> files[i].path != files[j].path
  }

  /** A file no later than every file of a sorted sequence can go in front of it. */
  lemma SortedCons(f: ScriptFile, sorted: seq<ScriptFile>)
    requires SortedByPath(sorted)
    requires forall j :: 0 <= j < |sorted| ==> OrdinalLe(f.path, sorted[j].path)
    ensures SortedByPath([f] + sorted)
  {
    var r := [f] + sorted;
    forall i, j | 0 <= i < j < |r|
      ensures OrdinalLe(r[i].path, r[j].path)
    {
      if i > 0 {
        assert r[i] == sorted[i - 1] && r[j] == sorted[j - 1];
      } else {
        assert r[j] == sorted[j - 1];
      }
    }
  }

  /** A bound on every file of `files` and on `f` bounds every file of any arrangement of them. */
  lemma BoundOfArrangement(h: string, f: ScriptFile, files: seq<ScriptFile>, r: seq<ScriptFile>)
    requires OrdinalLe(h, f.path)
    requires forall j :: 0 <= j < |files| ==> OrdinalLe(h, files[j].path)
    requires multiset(r) == multiset(files) + multiset{f}
    ensures forall j :: 0 <= j < |r| ==> OrdinalLe(h, r[j].path)
  {
    forall j | 0 <= j < |r|
      ensures OrdinalLe(h, r[j].path)
    {
      assert r[j] in multiset(r);
      if r[j] != f {
        assert r[j] in multiset(files);
        var k :| 0 <= k < |files| && files[k] == r[j];
      }
    }
  }

  /** `f` inserted into a sorted sequence of files at its place by path. */
  function InsertByPath(f: ScriptFile, sorted: seq<ScriptFile>): (r: seq<ScriptFile>)
    requires SortedByPath(sorted)
    ensures SortedByPath(r)
    ensures multiset(r) == multiset(sorted) + multiset{f}
  {
    if |sorted| == 0 then [f]
    else if OrdinalLe(f.path, sorted[0].path) then
      assert forall j :: 0 <= j < |sorted| ==> OrdinalLe(f.path, sorted[j].path) by {
        forall j | 0 < j < |sorted| {
          OrdinalLeTransitive(f.path, sorted[0].path, sorted[j].path);
        }
      }
      SortedCons(f, sorted);
      [f] + sorted
    else
      var tail := sorted[1..];
      var rest := InsertByPath(f, tail);
      OrdinalLeTotal(f.path, sorted[0].path);
      BoundOfArrangement(sorted[0].path, f, tail, rest);
      SortedCons(sorted[0], rest);
      assert sorted == [sorted[0]] + tail;
      [sorted[0]] + rest
  }

  /** `Array.Sort` on the listed paths: the same files, ascending by path. */
  function SortByPath(files: seq<ScriptFile>): (r: seq<ScriptFile>)
    ensures SortedByPath(r)
    ensures multiset(r) == multiset(files)
  {
    if |files| == 0 then []
    else
      assert files == [files[0]] + files[1..];
      InsertByPath(files[0], SortByPath(files[1..]))
  }

  /** Removing equal first elements from two arrangements of the same files leaves arrangements of the same files. */
  lemma SameTailsOfSameHeads(a: seq<ScriptFile>, b: seq<ScriptFile>)
    requires |a| > 0 && |b| > 0 && a[0] == b[0]
    requires multiset(a) == multiset(b)
    ensures multiset(a[1..]) == multiset(b[1..])
  {
    assert a == [a[0]] + a[1..] && b == [b[0]] + b[1..];
    assert multiset(a) == multiset{a[0]} + multiset(a[1..]);
    assert multiset(b) == multiset{b[0]} + multiset(b[1..]);
    assert multiset(a[1..]) == multiset(a) - multiset{a[0]};
    assert multiset(b[1..]) == multiset(b) - multiset{b[0]};
  }

  /**
    There is only one order in which the files of a listing ascend by path:
    any sorted arrangement of the same files is the one `SortByPath` makes.
   */
  lemma {:induction false} SortedArrangementUnique(a: seq<ScriptFile>, b: seq<ScriptFile>)
    requires SortedByPath(a) && SortedByPath(b) && DistinctPaths(a)
    requires multiset(a) == multiset(b)
    ensures a == b
    decreases |a|
  {
    assert |a| == |multiset(a)| == |multiset(b)| == |b|;
    if |a| > 0 {
      assert a[0] in multiset(b) && b[0] in multiset(a);
      var j :| 0 <= j < |b| && b[j] == a[0];
      var i :| 0 <= i < |a| && a[i] == b[0];
      OrdinalLeTotal(a[0].path, a[0].path);
      assert OrdinalLe(b[0].path, a[0].path);
      assert OrdinalLe(a[0].path, b[0].path);
      OrdinalLeAntisymmetric(a[0].path, b[0].path);
      assert i == 0 && a[0] == b[0];
      SameTailsOfSameHeads(a, b);
      SortedArrangementUnique(a[1..], b[1..]);
    }
  }
}
