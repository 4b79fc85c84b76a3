/** The Python `str` operations the pipeline relies on: `in`, `startswith`,
    `isdigit`, slicing with `[:n]`, `split` and `replace`. */
module Strings {

  predicate IsDigitChar(c: char) {
    '0' <= c <= '9'
  }

  /** `s.isdigit()`: non-empty and made of decimal digits only. */
  predicate IsDigit(s: string) {
    |s| > 0 && forall i :: 0 <= i < |s| ==> IsDigitChar(s[i])
  }

  /** `s.startswith(p)`. */
  predicate StartsWith(s: string, p: string) {
    |p| <= |s| && s[..|p|] == p
  }

  /** `t in s`: t occurs in s at some position. */
  predicate Contains(s: string, t: string)
    decreases |s|
  {
    StartsWith(s, t) || (s != [] && Contains(s[1..], t))
  }

  /** `s[:n]`. */
  function Take(s: string, n: nat): (r: string)
    ensures |r| <= n && StartsWith(s, r)
    ensures |s| <= n ==> r == s
    ensures |s| >= n ==> |r| == n
  {
    if |s| <= n then s else s[..n]
  }

  /** `s.split(sep)` for a non-empty separator: the pieces between the
      non-overlapping occurrences of sep, found from the left. */
  function Split(s: string, sep: string): (r: seq<string>)
    requires sep != []
    ensures |r| >= 1
    decreases |s|
  {
    if s == [] then [""]
    else if StartsWith(s, sep) then [""] + Split(s[|sep|..], sep)
    else
      var rest := Split(s[1..], sep);
      [[s[0]] + rest[0]] + rest[1..]
  }

  /** `s.replace(pat, rep)` for a non-empty pattern: every non-overlapping
      occurrence of pat, found from the left, becomes rep. */
  function ReplaceAll(s: string, pat: string, rep: string): string
    requires pat != []
    decreases |s|
  {
    if s == [] then []
    else if StartsWith(s, pat) then rep + ReplaceAll(s[|pat|..], pat, rep)
    else [s[0]] + ReplaceAll(s[1..], pat, rep)
  }

  /** t occurs in s as a contiguous slice. */
  ghost predicate IsSlice(t: string, s: string) {
    exists i, j :: 0 <= i <= j <= |s| && s[i..j] == t
  }

  // ---------------------------------------------------------------------
  // Contains

  /** `in` holds exactly when t is a slice of s. */
  lemma {:induction false} ContainsIsSlice(s: string, t: string)
    ensures Contains(s, t) <==> IsSlice(t, s)
    decreases |s|
  {
    if StartsWith(s, t) {
      assert s[0..|t|] == t;
    } else if s != [] {
      ContainsIsSlice(s[1..], t);
      SliceOfTail(s, t);
      SliceNotAtStart(s, t);
    }
  }

  /** A slice of s[1..] is a slice of s. */
  lemma SliceOfTail(s: string, t: string)
    requires s != []
    ensures IsSlice(t, s[1..]) ==> IsSlice(t, s)
  {
    if IsSlice(t, s[1..]) {
      var i, j :| 0 <= i <= j <= |s[1..]| && s[1..][i..j] == t;
      assert s[i + 1..j + 1] == t;
    }
  }

  /** A slice of s that s does not start with is a slice of s[1..]. */
  lemma SliceNotAtStart(s: string, t: string)
    requires s != [] && !StartsWith(s, t)
    ensures IsSlice(t, s) ==> IsSlice(t, s[1..])
  {
    if IsSlice(t, s) {
      var i, j :| 0 <= i <= j <= |s| && s[i..j] == t;
      assert i > 0;
      assert s[1..][i - 1..j - 1] == t;
    }
  }

  /** A slice of a slice is a slice. */
  lemma SliceTransitive(u: string, t: string, s: string)
    requires IsSlice(u, t) && IsSlice(t, s)
    ensures IsSlice(u, s)
  {
    var i, j :| 0 <= i <= j <= |s| && s[i..j] == t;
    var k, l :| 0 <= k <= l <= |t| && t[k..l] == u;
    forall m | 0 <= m < l - k
      ensures s[i + k..i + l][m] == u[m]
    {
      assert s[i + k..i + l][m] == s[i + k + m] == t[k + m] == u[m];
    }
    assert s[i + k..i + l] == u;
  }

  // ---------------------------------------------------------------------
  // Split

  /** Splitting a string without the separator's first character yields
      that string alone. */
  lemma {:induction false} SplitNoSep(s: string, sep: string)
    requires sep != [] && sep[0] !in s
    ensures Split(s, sep) == [s]
    decreases |s|
  {
    if s != [] {
      assert s[0] != sep[0];
      SplitNoSep(s[1..], sep);
      assert [s[0]] + s[1..] == s;
    }
  }

  /** The first piece ends at the first occurrence of the separator. */
  lemma {:induction false} SplitAt(a: string, sep: string, r: string)
    requires sep != [] && sep[0] !in a
    ensures Split(a + sep + r, sep) == [a] + Split(r, sep)
    decreases |a|
  {
    if a == [] {
      assert a + sep + r == sep + r;
      assert (sep + r)[|sep|..] == r;
    } else {
      var s := a + sep + r;
      assert s[0] == a[0] != sep[0];
      assert s[1..] == a[1..] + sep + r;
      SplitAt(a[1..], sep, r);
      assert [a[0]] + a[1..] == a;
    }
  }

  /** What the pieces of a split say about the split string: the first
      piece is a prefix holding no occurrence of the separator's first
      character only when (for one-character separators) the separator
      follows it, and the rest is the split of what follows. */
  lemma {:induction false} SplitHead(s: string, c: char)
    ensures var r := Split(s, [c]);
      && c !in r[0]
      && (|r| == 1 ==> s == r[0])
      && (|r| > 1 ==> |r[0]| < |s| && s == r[0] + [c] + s[|r[0]| + 1..]
                      && Split(s[|r[0]| + 1..], [c]) == r[1..])
    decreases |s|
  {
    if s == [] {
    } else if StartsWith(s, [c]) {
      assert s == [] + [c] + s[1..];
    } else {
      SplitHead(s[1..], c);
      SplitHeadStep(s, c);
    }
  }

  /** The step of SplitHead past a first character other than c. */
  lemma SplitHeadStep(s: string, c: char)
    requires s != [] && !StartsWith(s, [c])
    requires var r := Split(s[1..], [c]);
      && c !in r[0]
      && (|r| == 1 ==> s[1..] == r[0])
      && (|r| > 1 ==> |r[0]| < |s[1..]| && s[1..] == r[0] + [c] + s[1..][|r[0]| + 1..]
                      && Split(s[1..][|r[0]| + 1..], [c]) == r[1..])
    ensures var r := Split(s, [c]);
      && c !in r[0]
      && (|r| == 1 ==> s == r[0])
      && (|r| > 1 ==> |r[0]| < |s| && s == r[0] + [c] + s[|r[0]| + 1..]
                      && Split(s[|r[0]| + 1..], [c]) == r[1..])
  {
    var rest := Split(s[1..], [c]);
    assert Split(s, [c]) == [[s[0]] + rest[0]] + rest[1..];
    assert s[0] != c;
    if |rest| > 1 {
      GlueHead(s, c, rest[0]);
    } else {
      assert s == [s[0]] + s[1..];
    }
  }

  /** Putting back the first character of s in front of a piece of s[1..]. */
  lemma GlueHead(s: string, c: char, p: string)
    requires s != [] && |p| < |s[1..]| && s[1..] == p + [c] + s[1..][|p| + 1..]
    ensures s == ([s[0]] + p) + [c] + s[|p| + 2..]
    ensures s[|p| + 2..] == s[1..][|p| + 1..]
  {
    assert s == [s[0]] + s[1..];
    assert s[|p| + 2..] == s[1..][|p| + 1..];
  }

  // ---------------------------------------------------------------------
  // ReplaceAll

  /** A string without the pattern's first character is left unchanged. */
  lemma {:induction false} ReplaceNoMatch(s: string, pat: string, rep: string)
    requires pat != [] && pat[0] !in s
    ensures ReplaceAll(s, pat, rep) == s
    decreases |s|
  {
    if s != [] {
      assert s[0] != pat[0];
      ReplaceNoMatch(s[1..], pat, rep);
      assert [s[0]] + s[1..] == s;
    }
  }

  /** A prefix without the pattern's first character passes through. */
  lemma {:induction false} ReplaceKeepsPrefix(a: string, b: string, pat: string, rep: string)
    requires pat != [] && pat[0] !in a
    ensures ReplaceAll(a + b, pat, rep) == a + ReplaceAll(b, pat, rep)
    decreases |a|
  {
    if a != [] {
      var s := a + b;
      assert s[0] == a[0] != pat[0];
      assert !StartsWith(s, pat);
      assert s[1..] == a[1..] + b;
      ReplaceKeepsPrefix(a[1..], b, pat, rep);
      assert [a[0]] + (a[1..] + ReplaceAll(b, pat, rep)) == a + ReplaceAll(b, pat, rep);
    } else {
      assert a + b == b;
    }
  }

  /** A character that does not occur in the pattern splits the
      replacement: `(a + c + b).replace(pat, rep) ==
      a.replace(pat, rep) + c + b.replace(pat, rep)`. */
  lemma {:induction false} ReplaceAround(a: string, c: char, b: string, pat: string, rep: string)
    requires pat != [] && c !in pat
    ensures ReplaceAll(a + [c] + b, pat, rep) == ReplaceAll(a, pat, rep) + [c] + ReplaceAll(b, pat, rep)
    decreases |a|
  {
    var s := a + [c] + b;
    if a == [] {
      assert s[0] == c != pat[0];
      assert s[1..] == b;
    } else {
      GluedStart(a, c, b, pat);
      if StartsWith(a, pat) {
        ReplaceAround(a[|pat|..], c, b, pat, rep);
      } else {
        ReplaceAround(a[1..], c, b, pat, rep);
      }
    }
  }

  /** Whether a + [c] + b starts with a pattern free of c is decided by a,
      and so is what follows the first step of the replacement. */
  lemma GluedStart(a: string, c: char, b: string, pat: string)
    requires pat != [] && c !in pat && a != []
    ensures StartsWith(a + [c] + b, pat) <==> StartsWith(a, pat)
    ensures StartsWith(a, pat) ==> (a + [c] + b)[|pat|..] == a[|pat|..] + [c] + b
    ensures (a + [c] + b)[1..] == a[1..] + [c] + b
  {
    var s := a + [c] + b;
    assert s[|a|] == c;
    if StartsWith(s, pat) {
      assert pat[..|pat|] == s[..|pat|];
      if |pat| > |a| {
        assert false;
      }
      assert a[..|pat|] == s[..|pat|];
    }
    if StartsWith(a, pat) {
      assert s[..|pat|] == a[..|pat|];
      assert s[|pat|..] == a[|pat|..] + [c] + b;
    }
  }


  /** Replacing with a text that lacks c never introduces c. */
  lemma {:induction false} ReplaceAvoids(s: string, c: char, pat: string, rep: string)
    requires pat != [] && c !in s && c !in rep
    ensures c !in ReplaceAll(s, pat, rep)
    decreases |s|
  {
    if s != [] {
      if StartsWith(s, pat) {
        ReplaceAvoids(s[|pat|..], c, pat, rep);
      } else {
        ReplaceAvoids(s[1..], c, pat, rep);
      }
    }
  }

  /** A replacement text at least as long as the pattern never shortens
      the string, and a longer one lengthens every string the pattern
      occurs in. */
  lemma {:induction false} ReplaceLength(s: string, pat: string, rep: string)
    requires pat != [] && |rep| >= |pat|
    ensures |ReplaceAll(s, pat, rep)| >= |s|
    ensures |rep| > |pat| && Contains(s, pat) ==> |ReplaceAll(s, pat, rep)| > |s|
    decreases |s|
  {
    if s != [] {
      if StartsWith(s, pat) {
        ReplaceLength(s[|pat|..], pat, rep);
      } else {
        ReplaceLength(s[1..], pat, rep);
      }
    }
  }

  /** `s.find(m)`: the first position where m occurs, or -1. */
  function FirstIndex(s: string, m: string): (k: int)
    requires m != []
    ensures -1 <= k <= |s|
    ensures k >= 0 ==> StartsWith(s[k..], m)
    ensures forall j :: 0 <= j <= |s| && (k < 0 || j < k) ==> !StartsWith(s[j..], m)
    decreases |s|
  {
    if StartsWith(s, m) then 0
    else if s == [] then -1
    else
      var k := FirstIndex(s[1..], m);
      assert forall j :: 1 <= j <= |s| ==> s[j..] == s[1..][j - 1..];
      if k < 0 then -1 else k + 1
  }

  /** The first piece of a split is what precedes the first occurrence of
      the separator, or the whole string when there is none. */
  lemma {:induction false} SplitFirstPiece(s: string, m: string)
    requires m != []
    ensures FirstIndex(s, m) < 0 <==> |Split(s, m)| == 1
    ensures FirstIndex(s, m) < 0 ==> Split(s, m)[0] == s
    ensures FirstIndex(s, m) >= 0 ==> Split(s, m)[0] == s[..FirstIndex(s, m)]
    decreases |s|
  {
    var r := Split(s, m);
    if s == [] {
      assert FirstIndex(s, m) == -1;
    } else if StartsWith(s, m) {
      assert FirstIndex(s, m) == 0;
      assert r[0] == "" == s[..0];
    } else {
      SplitFirstPiece(s[1..], m);
      var k := FirstIndex(s[1..], m);
      var rest := Split(s[1..], m);
      assert r == [[s[0]] + rest[0]] + rest[1..];
      if k >= 0 {
        assert FirstIndex(s, m) == k + 1;
        assert [s[0]] + s[1..][..k] == s[..k + 1];
      } else {
        assert FirstIndex(s, m) == -1;
        assert [s[0]] + s[1..] == s;
      }
    }
  }

  /** The pieces after the first are the split of what follows the first
      occurrence of the separator. */
  lemma {:induction false} SplitAfterFirst(s: string, m: string)
    requires m != [] && FirstIndex(s, m) >= 0
    ensures Split(s, m)[1..] == Split(s[FirstIndex(s, m) + |m|..], m)
    decreases |s|
  {
    var r := Split(s, m);
    if StartsWith(s, m) {
      assert FirstIndex(s, m) == 0;
      assert r == [""] + Split(s[|m|..], m);
      assert s[0 + |m|..] == s[|m|..];
    } else {
      var k := FirstIndex(s[1..], m);
      assert FirstIndex(s, m) == k + 1;
      SplitAfterFirst(s[1..], m);
      var rest := Split(s[1..], m);
      assert r == [[s[0]] + rest[0]] + rest[1..];
      assert r[1..] == rest[1..];
      assert s[1..][k + |m|..] == s[k + 1 + |m|..];
    }
  }

  /** A slice of a suffix is a slice. */
  lemma SliceOfSuffix(t: string, s: string, d: nat)
    requires d <= |s| && IsSlice(t, s[d..])
    ensures IsSlice(t, s)
  {
    assert s[d..|s|] == s[d..];
    SliceTransitive(t, s[d..], s);
  }

  /** Every piece of a split is a slice of the split string. */
  lemma SplitPiecesAreSlices(s: string, m: string)
    requires m != []
    ensures forall k :: 0 <= k < |Split(s, m)| ==> IsSlice(Split(s, m)[k], s)
  {
    forall k | 0 <= k < |Split(s, m)|
      ensures IsSlice(Split(s, m)[k], s)
    {
      SplitPieceIsSlice(s, m, k);
    }
  }

  /** The k-th piece of a split is a slice of the split string. */
  lemma {:induction false} SplitPieceIsSlice(s: string, m: string, k: nat)
    requires m != [] && k < |Split(s, m)|
    ensures IsSlice(Split(s, m)[k], s)
    decreases |s|
  {
    if k == 0 {
      FirstPieceIsSlice(s, m);
    } else if StartsWith(s, m) {
      var tail := s[|m|..];
      assert Split(s, m)[k] == Split(tail, m)[k - 1];
      SplitPieceIsSlice(tail, m, k - 1);
      SliceOfSuffix(Split(s, m)[k], s, |m|);
    } else {
      assert Split(s, m)[k] == Split(s[1..], m)[k];
      SplitPieceIsSlice(s[1..], m, k);
      SliceOfSuffix(Split(s, m)[k], s, 1);
    }
  }

  /** The first piece of a split is a prefix, hence a slice. */
  lemma FirstPieceIsSlice(s: string, m: string)
    requires m != []
    ensures IsSlice(Split(s, m)[0], s)
  {
    SplitFirstPiece(s, m);
    var p := Split(s, m)[0];
    assert p == s[0..|p|];
  }
}
