/** Pathname strings as inotify_dtree.c compares, joins and rewrites them. */
module PathStrings {

  /** A directory entry name: not empty and without a slash. */
  predicate IsName(n: string) {
    n != "" && '/' !in n
  }

  function Join(dir: string, name: string): string {
    dir + "/" + name
  }

  /** q is p itself or lies below p: the prefix test with its check of the following character. */
  predicate Under(p: string, q: string) {
    && |p| <= |q| && q[..|p|] == p
    && (|q| == |p| || q[|p|] == '/')
  }

  /** What a rename of `from` to `to` makes of the cached path q. */
  function Moved(from: string, to: string, q: string): string {
    if Under(from, q) then to + q[|from|..] else q
  }

  /** Below q/n there is only q/n itself and what is below q: a name cannot hide a boundary. */
  lemma UnderJoin(p: string, q: string, n: string)
    requires IsName(n)
    ensures Under(p, Join(q, n)) <==> p == Join(q, n) || Under(p, q)
  {
    var j := Join(q, n);
    assert j[..|q|] == q && j[|q|] == '/';
    assert forall i :: |q| < i < |j| ==> j[i] == n[i - |q| - 1];
    if Under(p, j) && p != j {
      assert j[..|p|] == p && j[|p|] == '/';
      assert |p| <= |q|;
      assert q[..|p|] == j[..|p|];
    }
    if Under(p, q) {
      assert j[..|p|] == q[..|p|];
    }
  }

  lemma JoinInjective(p: string, m: string, q: string, n: string)
    requires IsName(m) && IsName(n) && Join(p, m) == Join(q, n)
    ensures p == q && m == n
  {
    var j := Join(p, m);
    assert j[..|p|] == p && j[|p|] == '/' && j[|p| + 1..] == m;
    assert j[..|q|] == q && j[|q|] == '/' && j[|q| + 1..] == n;
    assert forall i :: |p| < i < |j| ==> j[i] == m[i - |p| - 1];
    assert forall i :: |q| < i < |j| ==> j[i] == n[i - |q| - 1];
    assert |p| == |q|;
  }

  lemma UnderTransitive(p: string, q: string, r: string)
    requires Under(p, q) && Under(q, r)
    ensures Under(p, r)
  {
    assert r[..|p|] == r[..|q|][..|p|];
    assert |p| < |q| ==> r[|p|] == r[..|q|][|p|];
  }

  /** Renaming commutes with going down to a child. */
  lemma MovedJoin(from: string, to: string, q: string, n: string)
    requires Under(from, q)
    ensures to + Join(q, n)[|from|..] == Join(to + q[|from|..], n)
  {
    assert Join(q, n)[|from|..] == q[|from|..] + "/" + n;
  }
}
