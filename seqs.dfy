/** Order-preserving filtering of sequences: Python's `[x for x in xs if p(x)]` and the
    append-in-a-loop pattern `for x in xs: if p(x): out.append(x)`. */
module Seqs {

  /** `ys` is obtained from `xs` by deleting elements, without reordering. */
  predicate IsSubsequence<T(==)>(ys: seq<T>, xs: seq<T>)
    decreases |xs|
  {
    ys == [] ||
    (xs != [] && ((ys[0] == xs[0] && IsSubsequence(ys[1..], xs[1..])) || IsSubsequence(ys, xs[1..])))
  }

  function Filter<T>(p: T -> bool, xs: seq<T>): (r: seq<T>)
    ensures |r| <= |xs|
    ensures forall i :: 0 <= i < |r| ==> r[i] in xs && p(r[i])
    ensures forall i :: 0 <= i < |xs| && p(xs[i]) ==> xs[i] in r
  {
    if xs == [] then [] else (if p(xs[0]) then [xs[0]] else []) + Filter(p, xs[1..])
  }

  /** Filtering distributes over concatenation; in particular one more loop step
      appends the new element exactly when it passes the test. */
  lemma {:induction false} FilterAppend<T>(p: T -> bool, a: seq<T>, b: seq<T>)
    ensures Filter(p, a + b) == Filter(p, a) + Filter(p, b)
    decreases |a|
  {
    if a == [] {
      assert a + b == b;
    } else {
      FilterAppend(p, a[1..], b);
      assert (a + b)[0] == a[0];
      assert (a + b)[1..] == a[1..] + b;
    }
  }

  /** The loop form: the filter of a prefix one element longer. */
  lemma FilterSnoc<T>(p: T -> bool, xs: seq<T>, i: int)
    requires 0 <= i < |xs|
    ensures Filter(p, xs[..i + 1]) == Filter(p, xs[..i]) + (if p(xs[i]) then [xs[i]] else [])
  {
    assert xs[..i + 1] == xs[..i] + [xs[i]];
    FilterAppend(p, xs[..i], [xs[i]]);
  }

  lemma {:induction false} FilterIsSubsequence<T>(p: T -> bool, xs: seq<T>)
    ensures IsSubsequence(Filter(p, xs), xs)
    decreases |xs|
  {
    if xs != [] {
      FilterIsSubsequence(p, xs[1..]);
      var ys := Filter(p, xs);
      if p(xs[0]) {
        assert ys[0] == xs[0] && ys[1..] == Filter(p, xs[1..]);
      } else {
        assert ys == Filter(p, xs[1..]);
      }
    }
  }

  /** Multiplicities: an element passing the test is kept as often as it occurs;
      one failing it is dropped entirely. */
  lemma {:induction false} FilterCount<T>(p: T -> bool, xs: seq<T>, x: T)
    ensures multiset(Filter(p, xs))[x] == if p(x) then multiset(xs)[x] else 0
    decreases |xs|
  {
    if xs != [] {
      FilterCount(p, xs[1..], x);
      assert xs == [xs[0]] + xs[1..];
    }
  }

  /** A filter keeps everything exactly when every element passes. */
  lemma {:induction false} FilterKeepsAll<T>(p: T -> bool, xs: seq<T>)
    ensures Filter(p, xs) == xs <==> forall i :: 0 <= i < |xs| ==> p(xs[i])
    decreases |xs|
  {
    if xs != [] {
      FilterKeepsAll(p, xs[1..]);
      if !p(xs[0]) {
        assert |Filter(p, xs)| <= |xs[1..]| < |xs|;
      } else {
        assert forall i :: 1 <= i < |xs| ==> xs[1..][i - 1] == xs[i];
      }
    }
  }
}
