/** The `os.path` functions the staging code relies on: `basename`,
    `dirname`, `join` and `abspath`, for POSIX paths. */
module Paths {
  import opened Strings

  /** The index of the last '/' in s, or -1 when there is none. */
  function LastSlash(s: string): (i: int)
    ensures -1 <= i < |s|
    ensures i >= 0 ==> s[i] == '/'
    ensures forall k :: i < k < |s| ==> s[k] != '/'
    decreases |s|
  {
    if s == [] then -1
    else if s[|s| - 1] == '/' then |s| - 1
    else LastSlash(s[..|s| - 1])
  }

  /** `os.path.basename(p)`: everything after the last '/'. */
  function Basename(p: string): (b: string)
    ensures '/' !in b
  {
    p[LastSlash(p) + 1..]
  }

  /** `os.path.dirname(p)`: everything before the last '/', keeping the
      root "/" itself. */
  function Dirname(p: string): string {
    var i := LastSlash(p);
    if i < 0 then "" else if i == 0 then "/" else p[..i]
  }

  predicate EndsWithSlash(p: string) {
    p != [] && p[|p| - 1] == '/'
  }

  predicate IsAbsolute(p: string) {
    StartsWith(p, "/")
  }

  /** A directory path without a trailing '/', except the root. */
  predicate Normal(p: string) {
    p == "/" || !EndsWithSlash(p)
  }

  /** `os.path.join(a, b)`. */
  function Join(a: string, b: string): string {
    if IsAbsolute(b) then b
    else if a == "" || EndsWithSlash(a) then a + b
    else a + "/" + b
  }

  /** p without its trailing '/'s; a path made only of '/' keeps one. */
  function TrimSlashes(p: string): (r: string)
    ensures Normal(r) && r <= p && (p != "" ==> r != "")
    ensures forall k :: |r| <= k < |p| ==> p[k] == '/'
    decreases |p|
  {
    if |p| > 1 && p[|p| - 1] == '/' then TrimSlashes(p[..|p| - 1]) else p
  }

  /** `os.path.abspath(p)` in a process whose working directory is cwd:
      p is joined onto cwd when relative, and a trailing '/' is dropped
      (the rest of `normpath`, for `.`, `..` and repeated '/', is not
      applied); "" stands for cwd itself. */
  function AbsPath(cwd: string, p: string): string {
    if p == "" then cwd else TrimSlashes(if IsAbsolute(p) then p else Join(cwd, p))
  }

  // ---------------------------------------------------------------------

  /** The properties that define LastSlash determine it. */
  lemma LastSlashUnique(s: string, i: int)
    requires -1 <= i < |s| && (i >= 0 ==> s[i] == '/')
    requires forall k :: i < k < |s| ==> s[k] != '/'
    ensures LastSlash(s) == i
  {
  }

  /** The last '/' of `a + "/" + b` is the one added, when b has none. */
  lemma LastSlashOfJoined(a: string, b: string)
    requires '/' !in b
    ensures LastSlash(a + "/" + b) == |a|
  {
    NoSlashAfter(a + "/", b);
    LastSlashUnique(a + "/" + b, |a|);
  }

  /** Past a prefix, a + b holds only the characters of b. */
  lemma NoSlashAfter(a: string, b: string)
    requires '/' !in b
    ensures forall k :: |a| <= k < |a + b| ==> (a + b)[k] != '/'
  {
    forall k | |a| <= k < |a + b|
      ensures (a + b)[k] != '/'
    {
      assert (a + b)[k] == b[k - |a|];
    }
  }

  /** A name without '/' is not absolute. */
  lemma NameIsRelative(n: string)
    requires '/' !in n
    ensures !IsAbsolute(n)
  {
    if n != [] {
      assert n[..1][0] == n[0];
    }
  }

  /** A name without '/' is its own basename. */
  lemma BasenameOfName(n: string)
    requires '/' !in n
    ensures Basename(n) == n
  {
    LastSlashUnique(n, -1);
  }

  /** Basename and dirname of `a + "/" + b`, when b has no '/'. */
  lemma SplitJoined(a: string, b: string)
    requires '/' !in b
    ensures Basename(a + "/" + b) == b
    ensures Dirname(a + "/" + b) == if a == "" then "/" else a
  {
    LastSlashOfJoined(a, b);
    assert (a + "/" + b)[|a| + 1..] == b;
    assert (a + "/" + b)[..|a|] == a;
  }

  /** Joining a name onto a directory and splitting the result again gives
      back the directory and the name. */
  lemma {:induction false} JoinThenSplit(d: string, n: string)
    requires Normal(d) && '/' !in n
    ensures Basename(Join(d, n)) == n
    ensures Dirname(Join(d, n)) == d
  {
    NameIsRelative(n);
    if d == "" {
      BasenameOfName(n);
      LastSlashUnique(n, -1);
    } else if d == "/" {
      assert Join(d, n) == "" + "/" + n;
      SplitJoined("", n);
    } else {
      assert Join(d, n) == d + "/" + n;
      SplitJoined(d, n);
    }
  }

  /** Trimming keeps the leading '/' of an absolute path. */
  lemma TrimKeepsAbsolute(p: string)
    requires IsAbsolute(p)
    ensures IsAbsolute(TrimSlashes(p))
  {
    var r := TrimSlashes(p);
    assert r[..1] == p[..1];
  }

  /** A path that already ends in something other than '/' is not
      trimmed. */
  lemma TrimOfNormal(p: string)
    requires Normal(p)
    ensures TrimSlashes(p) == p
  {
  }

  /** One trailing '/' more names the same directory:
      `abspath(d + '/') == abspath(d)`. */
  lemma {:induction false} AbsPathDropsTrailingSlash(cwd: string, d: string)
    requires IsAbsolute(cwd) && Normal(cwd)
    requires d != "" && d != "/" && Normal(d)
    ensures AbsPath(cwd, d + "/") == AbsPath(cwd, d)
  {
    assert d[0] == (d + "/")[0];
    assert (d + "/")[..1] == d[..1];
    assert IsAbsolute(d + "/") == IsAbsolute(d);
    var x := if IsAbsolute(d) then d else Join(cwd, d);
    var y := if IsAbsolute(d) then d + "/" else Join(cwd, d + "/");
    if !IsAbsolute(d) {
      if EndsWithSlash(cwd) {
        assert y == (cwd + d) + "/";
      } else {
        assert y == (cwd + "/" + d) + "/";
      }
    }
    assert y == x + "/" && x != "";
    assert TrimSlashes(y) == TrimSlashes(y[..|y| - 1]);
    assert y[..|y| - 1] == x;
  }

  /** abspath always gives an absolute path, and applying it twice is the
      same as applying it once. */
  lemma AbsPathIdempotent(cwd: string, p: string)
    requires IsAbsolute(cwd) && Normal(cwd)
    ensures IsAbsolute(AbsPath(cwd, p))
    ensures AbsPath(cwd, AbsPath(cwd, p)) == AbsPath(cwd, p)
  {
    if p != "" {
      var x := if IsAbsolute(p) then p else Join(cwd, p);
      if !IsAbsolute(p) {
        assert p[0] != '/';
        if cwd == "" || EndsWithSlash(cwd) {
          assert (cwd + p)[..1] == cwd[..1];
        } else {
          assert (cwd + "/" + p)[..1] == cwd[..1];
        }
      }
      TrimKeepsAbsolute(x);
    }
  }

  /** abspath gives a path without a trailing '/'. */
  lemma AbsPathNormal(cwd: string, d: string)
    requires Normal(cwd)
    ensures Normal(AbsPath(cwd, d))
  {
  }

  /** A concatenation starts as its non-empty first part does. */
  lemma ConcatStart(x: string, y: string)
    requires x != ""
    ensures IsAbsolute(x + y) == IsAbsolute(x)
  {
    assert (x + y)[..1] == x[..1];
  }

  /** A concatenation ends as its non-empty last part does. */
  lemma ConcatEnd(x: string, y: string)
    requires y != ""
    ensures EndsWithSlash(x + y) == EndsWithSlash(y)
  {
    assert (x + y)[|x + y| - 1] == y[|y| - 1];
  }

  /** `abspath(join(d, n)) == join(abspath(d), n)` for a name n. */
  lemma AbsPathOfJoin(cwd: string, d: string, n: string)
    requires IsAbsolute(cwd) && Normal(cwd) && Normal(d)
    requires '/' !in n && n != ""
    ensures AbsPath(cwd, Join(d, n)) == Join(AbsPath(cwd, d), n)
  {
    NameIsRelative(n);
    assert n[|n| - 1] in n;
    if d == "" {
      JoinEndsInName(cwd, n);
      assert Join(d, n) == n;
    } else if IsAbsolute(d) {
      AbsPathOfAbsoluteJoin(d, n);
    } else {
      AbsPathOfRelativeJoin(cwd, d, n);
    }
  }

  /** The case of AbsPathOfJoin where d is absolute. */
  lemma AbsPathOfAbsoluteJoin(d: string, n: string)
    requires Normal(d) && IsAbsolute(d) && !IsAbsolute(n) && n != "" && !EndsWithSlash(n)
    ensures forall cwd :: AbsPath(cwd, Join(d, n)) == Join(AbsPath(cwd, d), n)
  {
    TrimOfNormal(d);
    JoinEndsInName(d, n);
    if EndsWithSlash(d) {
      ConcatStart(d, n);
    } else {
      ConcatStart(d, "/" + n);
      assert d + "/" + n == d + ("/" + n);
    }
  }

  /** The case of AbsPathOfJoin where d is relative and not empty. */
  lemma AbsPathOfRelativeJoin(cwd: string, d: string, n: string)
    requires IsAbsolute(cwd) && Normal(cwd) && Normal(d) && d != "" && !IsAbsolute(d)
    requires !IsAbsolute(n) && n != "" && !EndsWithSlash(n)
    ensures AbsPath(cwd, Join(d, n)) == Join(AbsPath(cwd, d), n)
  {
    assert d != "/";
    JoinOfRelative(d, n);
    JoinAssociates(cwd, d, n);
    JoinEndsInName(cwd, d);
    JoinEndsInName(d, n);
    JoinEndsInName(cwd, Join(d, n));
  }

  /** A path joined onto something ends as the path does, so abspath
      trims nothing from it. */
  lemma JoinEndsInName(a: string, n: string)
    requires n != "" && !EndsWithSlash(n)
    ensures Normal(Join(a, n)) && TrimSlashes(Join(a, n)) == Join(a, n)
  {
    if !IsAbsolute(n) {
      if a == "" || EndsWithSlash(a) {
        ConcatEnd(a, n);
      } else {
        ConcatEnd(a + "/", n);
      }
    }
  }

  /** Joining a name onto a relative directory gives a relative path. */
  lemma JoinOfRelative(d: string, n: string)
    requires d != "" && !IsAbsolute(d) && !EndsWithSlash(d) && !IsAbsolute(n)
    ensures Join(d, n) == d + "/" + n
    ensures Join(d, n) != "" && !IsAbsolute(Join(d, n))
  {
    assert d + "/" + n == d + ("/" + n);
    ConcatStart(d, "/" + n);
  }

  /** `join(c, join(d, n)) == join(join(c, d), n)` for relative d and n. */
  lemma JoinAssociates(c: string, d: string, n: string)
    requires c != "" && d != "" && !IsAbsolute(d) && !EndsWithSlash(d) && !IsAbsolute(n)
    ensures Join(c, d + "/" + n) == Join(Join(c, d), n)
  {
    JoinOfRelative(d, n);
    if EndsWithSlash(c) {
      ConcatEnd(c, d);
      assert c + (d + "/" + n) == (c + d) + "/" + n;
    } else {
      ConcatEnd(c + "/", d);
      assert c + "/" + (d + "/" + n) == (c + "/" + d) + "/" + n;
    }
  }

  /** A replacement whose pattern and text hold no '/' never adds one. */
  lemma ReplaceInName(n: string, pat: string, rep: string)
    requires pat != [] && '/' !in n && '/' !in rep
    ensures Basename(ReplaceAll(n, pat, rep)) == ReplaceAll(n, pat, rep)
    ensures Dirname(ReplaceAll(n, pat, rep)) == ""
  {
    ReplaceAvoids(n, '/', pat, rep);
    var r := ReplaceAll(n, pat, rep);
    BasenameOfName(r);
    LastSlashUnique(r, -1);
  }

  /** The replacement leaves the '/' of `a + "/" + b` where it is. */
  lemma ReplaceInJoined(a: string, b: string, pat: string, rep: string)
    requires pat != [] && rep != [] && '/' !in pat && '/' !in rep && '/' !in b
    ensures var r := ReplaceAll(a + "/" + b, pat, rep);
      && Basename(r) == ReplaceAll(b, pat, rep)
      && Dirname(r) == ReplaceAll(Dirname(a + "/" + b), pat, rep)
  {
    ReplaceAround(a, '/', b, pat, rep);
    ReplaceAvoids(b, '/', pat, rep);
    var ra, rb := ReplaceAll(a, pat, rep), ReplaceAll(b, pat, rep);
    SplitJoined(a, b);
    SplitJoined(ra, rb);
    if a == "" {
      ReplaceNoMatch("/", pat, rep);
    } else {
      assert ra != "";
    }
  }

  /** A replacement whose pattern and text hold no '/' acts on the
      directory part and on the name separately. */
  lemma ReplaceSplitsAtSlash(p: string, pat: string, rep: string)
    requires pat != [] && rep != [] && '/' !in pat && '/' !in rep
    ensures Basename(ReplaceAll(p, pat, rep)) == ReplaceAll(Basename(p), pat, rep)
    ensures Dirname(ReplaceAll(p, pat, rep)) == ReplaceAll(Dirname(p), pat, rep)
  {
    var i := LastSlash(p);
    if i < 0 {
      assert '/' !in p;
      BasenameOfName(p);
      ReplaceInName(p, pat, rep);
    } else {
      var a, b := p[..i], p[i + 1..];
      assert p == a + "/" + b;
      ReplaceInJoined(a, b, pat, rep);
      SplitJoined(a, b);
    }
  }
}
