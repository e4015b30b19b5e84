/** Python's ordering of `str` values (lexicographic by code point) and `list.sort()`
    on a list of strings. */
module Ordering {

  /** `a <= b` on Python strings. */
  predicate LexLeq(a: string, b: string) {
    a == [] || (b != [] && (a[0] < b[0] || (a[0] == b[0] && LexLeq(a[1..], b[1..]))))
  }

  lemma {:induction false} LexLeqRefl(a: string)
    ensures LexLeq(a, a)
  {
    if a != [] {
      LexLeqRefl(a[1..]);
    }
  }

  lemma {:induction false} LexLeqTotal(a: string, b: string)
    ensures LexLeq(a, b) || LexLeq(b, a)
  {
    if a != [] && b != [] && a[0] == b[0] {
      LexLeqTotal(a[1..], b[1..]);
    }
  }

  lemma {:induction false} LexLeqAntisym(a: string, b: string)
    requires LexLeq(a, b) && LexLeq(b, a)
    ensures a == b
  {
    if a != [] && b != [] {
      LexLeqAntisym(a[1..], b[1..]);
      assert a == [a[0]] + a[1..] && b == [b[0]] + b[1..];
    }
  }

  lemma {:induction false} LexLeqTrans(a: string, b: string, c: string)
    requires LexLeq(a, b) && LexLeq(b, c)
    ensures LexLeq(a, c)
  {
    if a != [] && b != [] && c != [] && a[0] == b[0] == c[0] {
      LexLeqTrans(a[1..], b[1..], c[1..]);
    }
  }

  /** Behind a common prefix of equal length, the order is decided by the prefixes when
      they differ and by the rest when they agree. */
  lemma {:induction false} LexLeqConcat(a: string, s: string, b: string, t: string)
    requires |a| == |b|
    ensures LexLeq(a + s, b + t) <==> (if a == b then LexLeq(s, t) else LexLeq(a, b))
  {
    if a == [] {
      assert a + s == s && b + t == t;
    } else {
      assert (a + s)[0] == a[0] && (b + t)[0] == b[0];
      assert (a + s)[1..] == a[1..] + s && (b + t)[1..] == b[1..] + t;
      LexLeqConcat(a[1..], s, b[1..], t);
      if a[0] == b[0] && a[1..] == b[1..] {
        assert a == [a[0]] + a[1..] && b == [b[0]] + b[1..];
      }
      if a == b {
        assert a[1..] == b[1..];
      }
    }
  }

  ghost predicate Sorted(xs: seq<string>) {
    forall i, j :: 0 <= i < j < |xs| ==> LexLeq(xs[i], xs[j])
  }

  /** Inserts `x` before the first element it does not exceed. */
  function Insert(x: string, xs: seq<string>): (r: seq<string>)
    requires Sorted(xs)
    ensures Sorted(r)
    ensures multiset(r) == multiset(xs) + multiset{x}
  {
    if xs == [] then [x]
    else if LexLeq(x, xs[0]) then
      assert forall j :: 0 < j < |xs| ==> LexLeq(x, xs[j]) by {
        forall j | 0 < j < |xs| ensures LexLeq(x, xs[j]) { LexLeqTrans(x, xs[0], xs[j]); }
      }
      [x] + xs
    else
      var rest := Insert(x, xs[1..]);
      assert LexLeq(xs[0], x) by { LexLeqTotal(x, xs[0]); }
      assert xs == [xs[0]] + xs[1..];
      assert forall e :: e in multiset(rest) ==> e == x || e in multiset(xs[1..]);
      assert forall j :: 0 <= j < |rest| ==> LexLeq(xs[0], rest[j]) by {
        forall j | 0 <= j < |rest| ensures LexLeq(xs[0], rest[j]) {
          assert rest[j] in multiset(rest);
          if rest[j] != x {
            assert rest[j] in xs[1..];
          }
        }
      }
      [xs[0]] + rest
  }

  /** `sorted(xs)`: an ascending permutation of `xs`. */
  function Sort(xs: seq<string>): (r: seq<string>)
    ensures Sorted(r)
    ensures multiset(r) == multiset(xs)
  {
    if xs == [] then []
    else
      assert xs == [xs[0]] + xs[1..];
      Insert(xs[0], Sort(xs[1..]))
  }

  /** The head of an ascending sequence is below each of its elements. */
  lemma SortedHeadLeq(xs: seq<string>, e: string)
    requires Sorted(xs) && e in multiset(xs)
    ensures LexLeq(xs[0], e)
  {
    var i :| 0 <= i < |xs| && xs[i] == e;
    if i == 0 {
      LexLeqRefl(e);
    }
  }

  lemma SortedTail(xs: seq<string>)
    requires Sorted(xs) && xs != []
    ensures Sorted(xs[1..])
  {
    forall i, j | 0 <= i < j < |xs[1..]|
      ensures LexLeq(xs[1..][i], xs[1..][j])
    {
      assert xs[1..][i] == xs[i + 1] && xs[1..][j] == xs[j + 1];
    }
  }

  lemma MultisetTail(xs: seq<string>)
    requires xs != []
    ensures multiset(xs[1..]) == multiset(xs) - multiset{xs[0]}
  {
    assert xs == [xs[0]] + xs[1..];
  }

  /** An ascending arrangement of a multiset of strings is unique: the sorted listing
      does not depend on the order the elements came in. */
  lemma {:induction false} SortedUnique(xs: seq<string>, ys: seq<string>)
    requires Sorted(xs) && Sorted(ys) && multiset(xs) == multiset(ys)
    ensures xs == ys
    decreases |xs|
  {
    assert |ys| == |xs| by { assert |multiset(ys)| == |multiset(xs)|; }
    if xs != [] {
      assert xs[0] in multiset(ys) && ys[0] in multiset(xs);
      SortedHeadLeq(ys, xs[0]);
      SortedHeadLeq(xs, ys[0]);
      LexLeqAntisym(xs[0], ys[0]);
      MultisetTail(xs);
      MultisetTail(ys);
      SortedTail(xs);
      SortedTail(ys);
      SortedUnique(xs[1..], ys[1..]);
      assert xs == [xs[0]] + xs[1..] && ys == [ys[0]] + ys[1..];
    }
  }
}
