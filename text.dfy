/**
 * String helpers shared by both feed variants: the white space that
 * `String.prototype.trim` removes, `trim` itself, and prefix/suffix tests.
 */
module Text {

  /** The WhiteSpace and LineTerminator code points of ECMAScript (sections 12.2 and 12.3
      of ECMA-262), which is exactly what `String.prototype.trim` strips. */
  predicate IsSpace(c: char)
  {
    || c == '\t' || c == '\n' || c == '\U{B}' || c == '\U{C}' || c == '\r' || c == ' '
    || c == '\U{A0}' || c == '\U{1680}' || ('\U{2000}' <= c <= '\U{200A}')
    || c == '\U{2028}' || c == '\U{2029}' || c == '\U{202F}' || c == '\U{205F}'
    || c == '\U{3000}' || c == '\U{FEFF}'
  }

  predicate HasPrefix(s: string, p: string)
  {
    |p| <= |s| && s[..|p|] == p
  }

  predicate HasSuffix(s: string, p: string)
  {
    |p| <= |s| && s[|s| - |p|..] == p
  }

  /** Neither end of `s` is white space. */
  predicate Trimmed(s: string)
  {
    s == [] || (!IsSpace(s[0]) && !IsSpace(s[|s| - 1]))
  }

  /** Every character of `w` is white space. */
  predicate AllSpace(w: string)
  {
    forall i :: 0 <= i < |w| ==> IsSpace(w[i])
  }

  /** Drops the leading white space: the result is a suffix of `s`, everything dropped
      is white space, and the result does not start with white space. */
  function TrimStart(s: string): (r: string)
    ensures |r| <= |s| && r == s[|s| - |r|..]
    ensures forall k :: 0 <= k < |s| - |r| ==> IsSpace(s[k])
    ensures r == [] || !IsSpace(r[0])
  {
    if s != [] && IsSpace(s[0]) then TrimStart(s[1..]) else s
  }

  /** Drops the trailing white space: the result is a prefix of `s`, everything dropped
      is white space, and the result does not end with white space. */
  function TrimEnd(s: string): (r: string)
    ensures |r| <= |s| && r == s[..|r|]
    ensures forall k :: |r| <= k < |s| ==> IsSpace(s[k])
    ensures r == [] || !IsSpace(r[|r| - 1])
  {
    if s != [] && IsSpace(s[|s| - 1]) then TrimEnd(s[..|s| - 1]) else s
  }

  /** `String.prototype.trim`. */
  function Trim(s: string): (r: string)
    ensures |r| <= |s|
    ensures Trimmed(r)
    ensures r == [] ==> forall k :: 0 <= k < |s| ==> IsSpace(s[k])
  {
    TrimEnd(TrimStart(s))
  }

  /** The trimmed text is the slice of `s` that starts at `a`; only white space lies
      outside that slice. */
  lemma TrimIsSlice(s: string) returns (a: nat)
    ensures a + |Trim(s)| <= |s| && Trim(s) == s[a..a + |Trim(s)|]
    ensures forall k :: 0 <= k < a ==> IsSpace(s[k])
    ensures forall k :: a + |Trim(s)| <= k < |s| ==> IsSpace(s[k])
  {
    var t := TrimStart(s);
    a := |s| - |t|;
    var r := TrimEnd(t);
    assert r == t[..|r|];
    assert t == s[a..];
    forall k | a + |r| <= k < |s| ensures IsSpace(s[k]) {
      assert s[k] == t[k - a];
    }
  }

  /** Text that neither starts nor ends with white space is left unchanged. */
  lemma TrimKeeps(s: string)
    requires Trimmed(s)
    ensures Trim(s) == s
  {
    assert TrimStart(s) == s;
  }

  /** A run of white space in front of a non-space character is exactly what `TrimStart`
      removes. */
  lemma {:induction false} TrimStartRun(s: string, w: string)
    requires AllSpace(w) && |w| < |s| && s[..|w|] == w && !IsSpace(s[|w|])
    ensures TrimStart(s) == s[|w|..]
    decreases |w|
  {
    if w != [] {
      assert s[0] == w[0] by {
        assert s[..|w|][0] == s[0];
      }
      assert s[1..][..|w| - 1] == w[1..];
      assert s[1..][|w| - 1] == s[|w|];
      TrimStartRun(s[1..], w[1..]);
      assert s[1..][|w| - 1..] == s[|w|..];
    }
  }

  /** A run of white space after a non-space character is exactly what `TrimEnd` removes. */
  lemma {:induction false} TrimEndRun(t: string, w: string)
    requires AllSpace(w) && |w| < |t| && t[|t| - |w|..] == w && !IsSpace(t[|t| - |w| - 1])
    ensures TrimEnd(t) == t[..|t| - |w|]
    decreases |w|
  {
    var n := |t|;
    if w == [] {
      assert t[..n] == t;
    } else {
      assert t[n - 1] == w[|w| - 1] by {
        assert t[n - |w|..][|w| - 1] == t[n - 1];
      }
      var u := t[..n - 1];
      var v := w[..|w| - 1];
      assert u[|u| - |v|..] == v;
      assert u[|u| - |v| - 1] == t[n - |w| - 1];
      TrimEndRun(u, v);
      assert u[..|u| - |v|] == t[..n - |w|];
    }
  }

  /** Leading white space before a run of non-space text goes, and that text stays at the
      front. */
  lemma TrimKeepsFront(s: string, w: string, p: string)
    requires AllSpace(w) && p != [] && forall i :: 0 <= i < |p| ==> !IsSpace(p[i])
    requires HasPrefix(s, w + p)
    ensures HasPrefix(Trim(s), p)
  {
    var n := |w| + |p|;
    assert s[..|w|] == w by {
      assert s[..n][..|w|] == s[..|w|];
    }
    assert s[|w|] == p[0] by {
      assert s[..n][|w|] == s[|w|];
    }
    TrimStartRun(s, w);
    var t := s[|w|..];
    assert t[..|p|] == p by {
      assert s[..n][|w|..] == t[..|p|];
    }
    var r := TrimEnd(t);
    assert t[|p| - 1] == p[|p| - 1];
    assert |r| >= |p|;
    assert r[..|p|] == t[..|p|];
  }

  /** Trailing white space after a run of non-space text goes, and that text stays at the
      end. */
  lemma TrimKeepsBack(s: string, p: string, w: string)
    requires AllSpace(w) && p != [] && forall i :: 0 <= i < |p| ==> !IsSpace(p[i])
    requires HasSuffix(s, p + w)
    ensures HasSuffix(Trim(s), p)
  {
    TrimStartKeepsBack(s, p + w);
    TrimEndDropsRun(TrimStart(s), p, w);
  }

  /** Leading white space never reaches into a suffix that starts with non-space. */
  lemma {:induction false} TrimStartKeepsBack(s: string, q: string)
    requires q != [] && !IsSpace(q[0]) && HasSuffix(s, q)
    ensures HasSuffix(TrimStart(s), q)
    decreases |s|
  {
    if s != [] && IsSpace(s[0]) {
      var n := |s|;
      assert n - |q| != 0 by {
        assert s[n - |q|..][0] == s[n - |q|];
      }
      assert s[1..][n - 1 - |q|..] == s[n - |q|..];
      TrimStartKeepsBack(s[1..], q);
    }
  }

  /** White space after non-space text is all that `TrimEnd` removes. */
  lemma TrimEndDropsRun(t: string, p: string, w: string)
    requires AllSpace(w) && p != [] && !IsSpace(p[|p| - 1])
    requires HasSuffix(t, p + w)
    ensures HasSuffix(TrimEnd(t), p)
  {
    var m := |t|;
    var k := m - |w| - |p|;
    assert t[m - |w|..] == w by {
      assert t[k..][|p|..] == t[m - |w|..];
    }
    assert t[m - |w| - 1] == p[|p| - 1] by {
      assert t[k..][|p| - 1] == t[m - |w| - 1];
    }
    TrimEndRun(t, w);
    var u := t[..m - |w|];
    assert u[|u| - |p|..] == t[k..][..|p|];
  }

  lemma TrimIdempotent(s: string)
    ensures Trim(Trim(s)) == Trim(s)
  {
    TrimKeeps(Trim(s));
  }
}
