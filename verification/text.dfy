/**
  Whitespace and trimming as the script runner uses them. The runner relies
  on one notion of whitespace twice: in the separator pattern (`\s`) and in
  `String.Trim`. Both accept exactly the Unicode White_Space characters,
  which `IsSpace` lists.
 */
module Text {

  /** The Unicode White_Space characters. */
  predicate IsSpace(c: char)
  {
    || c == ' ' || c == '\t' || c == '\n' || c == '\r'
    || c == '\U{0B}' || c == '\U{0C}' || c == '\U{85}' || c == '\U{A0}'
    || c == '\U{1680}' || ('\U{2000}' <= c <= '\U{200A}')
    || c == '\U{2028}' || c == '\U{2029}' || c == '\U{202F}'
    || c == '\U{205F}' || c == '\U{3000}'
  }

  /** Every character of `s` is whitespace (vacuously true of ""). */
  predicate AllSpace(s: string)
  {
    forall i :: 0 <= i < |s| ==> IsSpace(s[i])
  }

  /** `s` neither starts nor ends with whitespace. */
  predicate IsTrimmed(s: string)
  {
    s == [] || (!IsSpace(s[0]) && !IsSpace(s[|s| - 1]))
  }

  /** The number of whitespace characters at the start of `s`. */
  function LeadingSpace(s: string): (n: nat)
    ensures n <= |s|
    ensures forall k :: 0 <= k < n ==> IsSpace(s[k])
    ensures n == |s| || !IsSpace(s[n])
  {
    if |s| > 0 && IsSpace(s[0]) then 1 + LeadingSpace(s[1..]) else 0
  }

  /** The number of whitespace characters at the end of `s`. */
  function TrailingSpace(s: string): (n: nat)
    ensures n <= |s|
    ensures forall k :: |s| - n <= k < |s| ==> IsSpace(s[k])
    ensures n == |s| || !IsSpace(s[|s| - n - 1])
  {
    if |s| > 0 && IsSpace(s[|s| - 1]) then 1 + TrailingSpace(s[..|s| - 1]) else 0
  }

  /**
    `String.Trim`: the slice of `s` that starts after its leading whitespace
    and has no whitespace at either end. Everything after it is whitespace.
   */
  function Trim(s: string): (r: string)
    ensures IsTrimmed(r)
    ensures LeadingSpace(s) + |r| <= |s| && r == s[LeadingSpace(s)..LeadingSpace(s) + |r|]
    ensures forall k :: LeadingSpace(s) + |r| <= k < |s| ==> IsSpace(s[k])
  {
    var i := LeadingSpace(s);
    var e := |s| - TrailingSpace(s);
    if e <= i then [] else s[i..e]
  }

  /**
    Trimming is determined by its contract: whatever lies between a
    whitespace prefix and a whitespace suffix and is itself trimmed is the
    result of `Trim`.
   */
  lemma TrimDecomposition(a: string, m: string, b: string)
    requires AllSpace(a) && AllSpace(b) && IsTrimmed(m)
    ensures Trim(a + m + b) == m
  {
    var s := a + m + b;
    var r := Trim(s);
    var n := LeadingSpace(s);
    assert forall k :: 0 <= k < |a| ==> s[k] == a[k];
    assert forall k :: |a| + |m| <= k < |s| ==> s[k] == b[k - |a| - |m|];
    if m == [] {
      assert forall k :: 0 <= k < |s| ==> IsSpace(s[k]);
      assert n == |s|;
    } else {
      assert s[|a|] == m[0] && s[|a| + |m| - 1] == m[|m| - 1];
      assert n == |a|;
      assert r != [] ==> r[|r| - 1] == s[n + |r| - 1];
      assert |r| == |m|;
      assert r == s[|a|..|a| + |m|];
    }
  }

  /** Trimming leaves an already trimmed string alone. */
  lemma TrimOfTrimmed(s: string)
    requires IsTrimmed(s)
    ensures Trim(s) == s
  {
    TrimDecomposition([], s, []);
    assert [] + s + [] == s;
  }

  /** A string of whitespace only trims to the empty string. */
  lemma TrimOfBlank(s: string)
    requires AllSpace(s)
    ensures Trim(s) == []
  {
    TrimDecomposition(s, [], []);
    assert s + [] + [] == s;
  }
}
