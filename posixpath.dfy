/** The two functions of Python's `posixpath` module that the service uses on its
    results path: `dirname` and two-argument `join`. Paths are plain strings with `/`
    as the only separator. */
module PosixPath {
  import opened PyStr

  /** Every character of `s` is `/` (vacuously true of the empty string). */
  predicate AllSlashes(s: string) {
    forall i | 0 <= i < |s| :: s[i] == '/'
  }

  /** `p.rfind('/') + 1`: the position just after the last `/` of `p`, 0 when `p` has
      no `/`. */
  function AfterLastSlash(p: string): (k: nat)
    ensures k <= |p|
    ensures k == 0 || p[k - 1] == '/'
    ensures '/' !in p[k..]
  {
    if |p| == 0 then 0
    else if p[|p| - 1] == '/' then |p|
    else
      var k := AfterLastSlash(p[..|p| - 1]);
      assert p[k..] == p[..|p| - 1][k..] + [p[|p| - 1]];
      k
  }

  /** The two facts in `AfterLastSlash`'s contract pin the position down. */
  lemma AfterLastSlashUnique(p: string, k: nat)
    requires k <= |p|
    requires k == 0 || p[k - 1] == '/'
    requires '/' !in p[k..]
    ensures AfterLastSlash(p) == k
  {
  }

  /** `posixpath.dirname(p)`: the part of `p` up to and including its last `/`, with
      the trailing run of `/` removed unless that part is all `/` (so `/x` gives `/`
      and `//x` gives `//`). The result is a prefix of `p` followed in `p` only by `/`
      characters up to the last one; an all-`/` head is kept whole; the result is
      empty exactly when `p` has no `/`, and it ends with `/` only when it consists of
      nothing else. */
  function Dirname(p: string): (d: string)
    ensures |d| <= AfterLastSlash(p) && d == p[..|d|]
    ensures forall i | |d| <= i < AfterLastSlash(p) :: p[i] == '/'
    ensures AllSlashes(p[..AfterLastSlash(p)]) ==> d == p[..AfterLastSlash(p)]
    ensures d == [] <==> '/' !in p
    ensures d == [] || AllSlashes(d) || d[|d| - 1] != '/'
  {
    var k := AfterLastSlash(p);
    var head := p[..k];
    assert '/' in p ==> k > 0 by {
      if k == 0 { assert p[k..] == p; }
    }
    assert k > 0 ==> '/' in p by {
      if k > 0 { assert p[k - 1] == '/'; }
    }
    if head != [] && !AllSlashes(head) then
      var d := RStripChar(head, '/');
      assert d == [] ==> AllSlashes(head);
      d
    else
      head
  }

  /** `posixpath.join(a, b)`: `b` when it is absolute, otherwise `b` appended to `a`
      with one `/` between them unless `a` is empty or already ends with `/`. The
      result always ends with `b`, starts with `a` unless `b` is absolute, and adds at
      most one `/` of its own. */
  function Join(a: string, b: string): (r: string)
    ensures |b| <= |r| && r[|r| - |b|..] == b
    ensures (b == [] || b[0] != '/') ==> |a| <= |r| && r[..|a|] == a
    ensures |r| <= |a| + 1 + |b|
    ensures r == b || r == a + b || r == a + "/" + b
    ensures |b| > 0 && b[0] == '/' ==> r == b
    ensures (b == [] || b[0] != '/') ==>
      r == a + (if a == [] || a[|a| - 1] == '/' then "" else "/") + b
  {
    if |b| > 0 && b[0] == '/' then b
    else if a == [] || a[|a| - 1] == '/' then a + b
    else a + "/" + b
  }

  /** A file name without `/` joined onto a directory as `dirname` returns it (not
      empty, and ending with `/` only if it is all `/`) lands in that directory:
      `dirname` of the joined path is the directory again. */
  lemma DirnameJoin(dir: string, name: string)
    requires dir != [] && (AllSlashes(dir) || dir[|dir| - 1] != '/')
    requires '/' !in name
    ensures Dirname(Join(dir, name)) == dir
  {
    var p := Join(dir, name);
    if dir[|dir| - 1] == '/' {
      assert p == dir + name;
      assert p[|dir|..] == name;
      AfterLastSlashUnique(p, |dir|);
      assert p[..|dir|] == dir;
    } else {
      assert p == dir + "/" + name;
      assert p[|dir| + 1..] == name;
      AfterLastSlashUnique(p, |dir| + 1);
      var head := p[..|dir| + 1];
      assert head == dir + "/";
      assert !AllSlashes(head) by {
        assert head[|dir| - 1] != '/';
      }
      assert head[..|head| - 1] == dir;
    }
  }
}
