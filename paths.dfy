/** POSIX `os.path.join(a, b)` for two components. */
module Paths {

  predicate IsAbsolute(p: string) {
    |p| > 0 && p[0] == '/'
  }

  /** An absolute `b` replaces `a`; otherwise one `/` separates them unless `a` is empty
      or already ends with one. */
  function PathJoin(a: string, b: string): string {
    if IsAbsolute(b) then b
    else if a == [] || a[|a| - 1] == '/' then a + b
    else a + "/" + b
  }

  /** Under one folder, relative names give distinct paths: the join can be undone. */
  lemma PathJoinInjective(a: string, b1: string, b2: string)
    requires !IsAbsolute(b1) && !IsAbsolute(b2)
    ensures PathJoin(a, b1) == PathJoin(a, b2) ==> b1 == b2
  {
    var pre := if a == [] || a[|a| - 1] == '/' then a else a + "/";
    assert PathJoin(a, b1) == pre + b1 && PathJoin(a, b2) == pre + b2;
    if pre + b1 == pre + b2 {
      assert b1 == (pre + b1)[|pre|..];
      assert b2 == (pre + b2)[|pre|..];
    }
  }

  /** A joined relative name ends the path, and the path is longer than the folder. */
  lemma PathJoinEndsWithName(a: string, b: string)
    requires !IsAbsolute(b) && b != []
    ensures |PathJoin(a, b)| > |a|
    ensures PathJoin(a, b)[|PathJoin(a, b)| - |b|..] == b
  {
    var pre := if a == [] || a[|a| - 1] == '/' then a else a + "/";
    assert PathJoin(a, b) == pre + b;
    assert (pre + b)[|pre|..] == b;
  }
}
