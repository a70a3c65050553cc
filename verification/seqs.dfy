/**
  Splitting a sequence at delimiter elements and joining the parts back.
  The statement splitter uses these twice: once to cut a script into lines
  at newline characters, and once to cut the lines into statements at
  separator lines.
 */
module Seqs {

  /** Number of elements of `xs` that satisfy `p`. */
  function CountWhere<T>(xs: seq<T>, p: T -> bool): nat
  {
    if |xs| == 0 then 0
    else (if p(xs[0]) then 1 else 0) + CountWhere(xs[1..], p)
  }

  /**
    The maximal runs of non-delimiter elements of `xs`, in order. Every
    delimiter ends one part and starts the next, so two adjacent delimiters
    (or a delimiter at either end) produce an empty part.
   */
  function SplitWhere<T>(xs: seq<T>, isDelim: T -> bool): (parts: seq<seq<T>>)
    ensures |parts| >= 1
    ensures forall i, j :: 0 <= i < |parts| && 0 <= j < |parts[i]| ==> !isDelim(parts[i][j])
    decreases |xs|
  {
    if |xs| == 0 then [[]]
    else
      var rest := SplitWhere(xs[1..], isDelim);
      if isDelim(xs[0]) then [[]] + rest
      else [[xs[0]] + rest[0]] + rest[1..]
  }

  /** There is one part more than there are delimiters. */
  lemma {:induction false} SplitWhereCount<T>(xs: seq<T>, isDelim: T -> bool)
    ensures |SplitWhere(xs, isDelim)| == CountWhere(xs, isDelim) + 1
    decreases |xs|
  {
    if |xs| > 0 {
      SplitWhereCount(xs[1..], isDelim);
    }
  }

  /** Every element of every part is an element of the split sequence. */
  lemma {:induction false} SplitWhereElements<T>(xs: seq<T>, isDelim: T -> bool)
    ensures forall i, j :: 0 <= i < |SplitWhere(xs, isDelim)| && 0 <= j < |SplitWhere(xs, isDelim)[i]| ==> SplitWhere(xs, isDelim)[i][j] in xs
    decreases |xs|
  {
    if |xs| > 0 {
      SplitWhereElements(xs[1..], isDelim);
      var rest := SplitWhere(xs[1..], isDelim);
      assert forall i, j :: 0 <= i < |rest| && 0 <= j < |rest[i]| ==> rest[i][j] in xs;
    }
  }

  /** A sequence is what comes before index `k`, the element at `k`, and what comes after. */
  lemma AroundIndex<T>(xs: seq<T>, k: nat)
    requires k < |xs|
    ensures xs == xs[..k] + [xs[k]] + xs[k + 1..]
  {
    assert xs[k..] == [xs[k]] + xs[k + 1..];
    assert xs == xs[..k] + xs[k..];
  }

  /** The parts laid end to end with one `d` between neighbours. */
  function JoinWith<T>(parts: seq<seq<T>>, d: T): seq<T>
  {
    if |parts| == 0 then []
    else if |parts| == 1 then parts[0]
    else parts[0] + [d] + JoinWith(parts[1..], d)
  }

  /** Splitting distributes over a delimiter: the parts on each side are kept apart. */
  lemma {:induction false} SplitAtDelimiter<T>(xs: seq<T>, d: T, ys: seq<T>, isDelim: T -> bool)
    requires isDelim(d)
    ensures SplitWhere(xs + [d] + ys, isDelim) == SplitWhere(xs, isDelim) + SplitWhere(ys, isDelim)
    decreases |xs|
  {
    var whole := xs + [d] + ys;
    if |xs| == 0 {
      assert whole[1..] == ys;
    } else {
      assert whole[1..] == xs[1..] + [d] + ys;
      SplitAtDelimiter(xs[1..], d, ys, isDelim);
    }
  }

  /** A sequence without delimiters is a single part. */
  lemma {:induction false} SplitWithoutDelimiter<T>(xs: seq<T>, isDelim: T -> bool)
    requires forall i :: 0 <= i < |xs| ==> !isDelim(xs[i])
    ensures SplitWhere(xs, isDelim) == [xs]
    decreases |xs|
  {
    if |xs| > 0 {
      SplitWithoutDelimiter(xs[1..], isDelim);
      assert [xs[0]] + xs[1..] == xs;
    }
  }

  /** Joining the parts with the one delimiter the sequence uses gives the sequence back. */
  lemma {:induction false} JoinAfterSplit<T>(xs: seq<T>, d: T, isDelim: T -> bool)
    requires forall i :: 0 <= i < |xs| && isDelim(xs[i]) ==> xs[i] == d
    ensures JoinWith(SplitWhere(xs, isDelim), d) == xs
    decreases |xs|
  {
    if |xs| > 0 {
      var rest := SplitWhere(xs[1..], isDelim);
      JoinAfterSplit(xs[1..], d, isDelim);
      if isDelim(xs[0]) {
        assert ([[]] + rest)[1..] == rest;
      } else {
        var parts := [[xs[0]] + rest[0]] + rest[1..];
        if |rest| == 1 {
          assert JoinWith(parts, d) == [xs[0]] + rest[0];
        } else {
          assert parts[1..] == rest[1..];
          assert JoinWith(rest, d) == rest[0] + [d] + JoinWith(rest[1..], d);
        }
        assert [xs[0]] + xs[1..] == xs;
      }
    }
  }

  /** Splitting after joining delimiter-free parts gives the parts back. */
  lemma {:induction false} SplitAfterJoin<T>(parts: seq<seq<T>>, d: T, isDelim: T -> bool)
    requires isDelim(d)
    requires |parts| > 0
    requires forall i, j :: 0 <= i < |parts| && 0 <= j < |parts[i]| ==> !isDelim(parts[i][j])
    ensures SplitWhere(JoinWith(parts, d), isDelim) == parts
    decreases |parts|
  {
    SplitWithoutDelimiter(parts[0], isDelim);
    if |parts| > 1 {
      SplitAfterJoin(parts[1..], d, isDelim);
      SplitAtDelimiter(parts[0], d, JoinWith(parts[1..], d), isDelim);
      assert [parts[0]] + parts[1..] == parts;
    }
  }

  /** The results of `f` on the elements of `xs`, laid end to end. */
  function FlatMap<T, U>(xs: seq<T>, f: T -> seq<U>): seq<U>
  {
    if |xs| == 0 then [] else f(xs[0]) + FlatMap(xs[1..], f)
  }

  /** Mapping distributes over concatenation. */
  lemma {:induction false} FlatMapAppend<T, U>(xs: seq<T>, ys: seq<T>, f: T -> seq<U>)
    ensures FlatMap(xs + ys, f) == FlatMap(xs, f) + FlatMap(ys, f)
    decreases |xs|
  {
    if |xs| > 0 {
      assert (xs + ys)[0] == xs[0] && (xs + ys)[1..] == xs[1..] + ys;
      FlatMapAppend(xs[1..], ys, f);
      assert f(xs[0]) + (FlatMap(xs[1..], f) + FlatMap(ys, f)) == (f(xs[0]) + FlatMap(xs[1..], f)) + FlatMap(ys, f);
    } else {
      assert xs + ys == ys;
    }
  }
}
