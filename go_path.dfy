/**
 * The parts of Go's `path/filepath` the volume code relies on: `Join` of
 * two elements and `Dir`, for slash-separated paths that are already clean.
 */
module GoPath {

  /** Position of the last '/' in `p`, or -1. */
  function LastSlash(p: string): (i: int)
    ensures -1 <= i < |p|
    ensures i >= 0 ==> p[i] == '/'
    ensures forall j :: i < j < |p| ==> p[j] != '/'
  {
    if |p| == 0 then -1
    else if p[|p| - 1] == '/' then |p| - 1
    else LastSlash(p[..|p| - 1])
  }

  /** A clean directory path: non-empty, and ending in '/' only when it is the root. */
  predicate CleanDir(a: string) {
    a != "" && (a == "/" || a[|a| - 1] != '/')
  }

  /** A single path element: non-empty, without a separator. */
  predicate Element(b: string) {
    b != "" && '/' !in b
  }

  /** `filepath.Join(a, b)` for a clean `a`: one separator between them. */
  function Join(a: string, b: string): string {
    if a == "" then b
    else if a[|a| - 1] == '/' then a + b
    else a + "/" + b
  }

  /** `filepath.Dir(p)`: everything before the last separator; "/" for a top-level entry, "." without one. */
  function Dir(p: string): string {
    var i := LastSlash(p);
    if i < 0 then "."
    else if i == 0 then "/"
    else p[..i]
  }

  /** The last separator of `p + q` is the one that ends `p` when `q` has none. */
  lemma {:induction false} LastSlashBeforeElement(p: string, q: string)
    requires |p| > 0 && p[|p| - 1] == '/' && '/' !in q
    ensures LastSlash(p + q) == |p| - 1
    decreases |q|
  {
    if |q| == 0 {
      assert p + q == p;
    } else {
      assert (p + q)[..|p + q| - 1] == p + q[..|q| - 1];
      assert q[|q| - 1] in q;
      LastSlashBeforeElement(p, q[..|q| - 1]);
    }
  }

  /** `Dir` takes off exactly the element that `Join` put on, and joining keeps the result clean. */
  lemma DirOfJoin(a: string, b: string)
    requires CleanDir(a) && Element(b)
    ensures Dir(Join(a, b)) == a
    ensures CleanDir(Join(a, b))
  {
    var p := if a == "/" then a else a + "/";
    assert Join(a, b) == p + b;
    LastSlashBeforeElement(p, b);
    assert b[|b| - 1] in b;
  }

  /** Different elements joined to the same directory give different paths, and neither lies inside the other. */
  lemma JoinDistinct(a: string, b: string, c: string)
    requires CleanDir(a) && Element(b) && Element(c) && b != c
    ensures Join(a, b) != Join(a, c)
    ensures !(|Join(a, b)| < |Join(a, c)| && Join(a, c)[..|Join(a, b)| + 1] == Join(a, b) + "/")
  {
    var k := if a == "/" then 1 else |a| + 1;
    assert Join(a, b) == Join(a, b)[..k] + b;
    assert Join(a, c) == Join(a, c)[..k] + c;
    var n := |Join(a, b)|;
    if n < |Join(a, c)| {
      assert Join(a, c)[n] == c[n - k];
      assert c[n - k] in c;
      assert (Join(a, b) + "/")[n] == '/';
    }
  }
}
