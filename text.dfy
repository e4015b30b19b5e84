/** Python string operations the pipeline relies on: `in`, `endswith`, `lower`,
    `sep.join` and `str(int)`. Strings are sequences of Unicode scalar values. */
module Text {

  /** Python's `needle in hay`: `needle` is a contiguous, case-sensitive substring of `hay`. */
  predicate Contains(hay: string, needle: string)
    decreases |hay|
  {
    needle <= hay || (hay != [] && Contains(hay[1..], needle))
  }

  /** `needle` occurs in `hay` starting at offset `k`: the reference meaning of `Contains`. */
  ghost predicate OccursAt(hay: string, needle: string, k: int) {
    0 <= k && k + |needle| <= |hay| && hay[k..k + |needle|] == needle
  }

  /** An occurrence at a known offset makes `Contains` true. */
  lemma {:induction false} OccursContains(hay: string, needle: string, k: int)
    requires OccursAt(hay, needle, k)
    ensures Contains(hay, needle)
    decreases k
  {
    if k > 0 {
      assert hay[1..][k - 1..k - 1 + |needle|] == hay[k..k + |needle|];
      OccursContains(hay[1..], needle, k - 1);
    }
  }

  /** `Contains` is witnessed by an offset. */
  lemma {:induction false} ContainsWitness(hay: string, needle: string) returns (k: int)
    requires Contains(hay, needle)
    ensures OccursAt(hay, needle, k)
    decreases |hay|
  {
    if needle <= hay {
      k := 0;
    } else {
      var j := ContainsWitness(hay[1..], needle);
      assert hay[j + 1..j + 1 + |needle|] == hay[1..][j..j + |needle|];
      k := j + 1;
    }
  }

  lemma ContainsIffOccurs(hay: string, needle: string)
    ensures Contains(hay, needle) <==> exists k :: OccursAt(hay, needle, k)
  {
    if Contains(hay, needle) {
      var k := ContainsWitness(hay, needle);
    }
    if k :| OccursAt(hay, needle, k) {
      OccursContains(hay, needle, k);
    }
  }

  /** An occurrence inside `b` is an occurrence inside `a + b + c`. */
  lemma ContainsWithin(a: string, b: string, c: string, needle: string)
    requires Contains(b, needle)
    ensures Contains(a + b + c, needle)
  {
    var k := ContainsWitness(b, needle);
    var s := a + b + c;
    assert s[|a| + k..|a| + k + |needle|] == b[k..k + |needle|];
    OccursContains(s, needle, |a| + k);
  }

  /** Every string contains itself; a convenient instance of `ContainsWithin`. */
  lemma ContainsSelf(s: string)
    ensures Contains(s, s)
  {
    assert s <= s;
  }

  lemma ContainsTrans(a: string, b: string, c: string)
    requires Contains(a, b) && Contains(b, c)
    ensures Contains(a, c)
  {
    var i := ContainsWitness(a, b);
    var j := ContainsWitness(b, c);
    var inner, outer := b[j..j + |c|], a[i + j..i + j + |c|];
    forall t | 0 <= t < |c|
      ensures inner[t] == outer[t]
    {
      assert inner[t] == b[j + t] == a[i..i + |b|][j + t] == a[i + j + t];
    }
    assert inner == outer;
    OccursContains(a, c, i + j);
  }

  /** Python's `s.endswith(suffix)`. */
  predicate EndsWith(s: string, suffix: string) {
    |suffix| <= |s| && s[|s| - |suffix|..] == suffix
  }

  lemma EndsWithConcat(s: string, suffix: string)
    ensures EndsWith(s + suffix, suffix)
  {
    assert (s + suffix)[|s|..] == suffix;
  }

  /** Lower-casing of one character for the ASCII letters; every other character is kept. */
  function LowerChar(c: char): (r: char)
    ensures 'A' <= c <= 'Z' ==> 'a' <= r <= 'z'
    ensures !('A' <= c <= 'Z') ==> r == c
  {
    if 'A' <= c <= 'Z' then (c as int + 32) as char else c
  }

  /** `s.lower()` restricted to ASCII case folding (see README). */
  function Lower(s: string): (r: string)
    ensures |r| == |s|
    ensures forall i :: 0 <= i < |s| ==> r[i] == LowerChar(s[i])
  {
    if s == [] then [] else [LowerChar(s[0])] + Lower(s[1..])
  }

  /** Python's `sep.join(xs)`. */
  function Join(sep: string, xs: seq<string>): string {
    if |xs| == 0 then "" else if |xs| == 1 then xs[0] else xs[0] + sep + Join(sep, xs[1..])
  }

  /** Each joined element appears verbatim in the joined string. */
  lemma {:induction false} JoinContainsEach(sep: string, xs: seq<string>, i: int)
    requires 0 <= i < |xs|
    ensures Contains(Join(sep, xs), xs[i])
    decreases |xs|
  {
    if |xs| == 1 {
      ContainsSelf(xs[0]);
    } else if i == 0 {
      ContainsSelf(xs[0]);
      ContainsWithin("", xs[0], sep + Join(sep, xs[1..]), xs[0]);
      assert "" + xs[0] + (sep + Join(sep, xs[1..])) == Join(sep, xs);
    } else {
      JoinContainsEach(sep, xs[1..], i - 1);
      ContainsWithin(xs[0] + sep, Join(sep, xs[1..]), "", xs[i]);
      assert xs[0] + sep + Join(sep, xs[1..]) + "" == Join(sep, xs);
    }
  }

  /** `"".join(xs)`: the strings one after another. */
  function Concat(xs: seq<string>): string {
    if xs == [] then "" else Concat(xs[..|xs| - 1]) + xs[|xs| - 1]
  }

  lemma {:induction false} ConcatAppend(a: seq<string>, b: seq<string>)
    ensures Concat(a + b) == Concat(a) + Concat(b)
    decreases |b|
  {
    if b == [] {
      assert a + b == a;
    } else {
      var b' := b[..|b| - 1];
      ConcatAppend(a, b');
      assert (a + b)[..|a + b| - 1] == a + b';
      var x, y, e := Concat(a), Concat(b'), b[|b| - 1];
      assert Concat(a + b) == x + y + e;
      assert x + y + e == x + (y + e);
    }
  }

  /** Each concatenated string appears verbatim in the result. */
  lemma ConcatContainsEach(xs: seq<string>, i: int)
    requires 0 <= i < |xs|
    ensures Contains(Concat(xs), xs[i])
  {
    var pre, post := xs[..i], xs[i + 1..];
    assert xs == pre + [xs[i]] + post;
    ConcatAppend(pre + [xs[i]], post);
    ConcatAppend(pre, [xs[i]]);
    assert [xs[i]][..0] == [];
    assert Concat([xs[i]]) == "" + xs[i];
    ContainsSelf(xs[i]);
    ContainsWithin(Concat(pre), xs[i], Concat(post), xs[i]);
  }

  function DigitChar(d: nat): (c: char)
    requires d < 10
    ensures '0' <= c <= '9'
  {
    ('0' as int + d) as char
  }

  function DigitValue(c: char): nat
    requires '0' <= c <= '9'
  {
    c as int - '0' as int
  }

  /** Python's `str(n)` for a non-negative integer. */
  function Decimal(n: nat): (s: string)
    ensures |s| > 0
    ensures forall i :: 0 <= i < |s| ==> '0' <= s[i] <= '9'
  {
    if n < 10 then [DigitChar(n)] else Decimal(n / 10) + [DigitChar(n % 10)]
  }

  /** Python's `int(s)` on a string of decimal digits. */
  function ParseDecimal(s: string): nat
    requires forall i :: 0 <= i < |s| ==> '0' <= s[i] <= '9'
  {
    if s == [] then 0 else ParseDecimal(s[..|s| - 1]) * 10 + DigitValue(s[|s| - 1])
  }

  /** The written count reads back as the same number. */
  lemma {:induction false} DecimalRoundTrip(n: nat)
    ensures ParseDecimal(Decimal(n)) == n
  {
    if n >= 10 {
      DecimalRoundTrip(n / 10);
      var s := Decimal(n);
      assert s[..|s| - 1] == Decimal(n / 10);
    }
  }
}
