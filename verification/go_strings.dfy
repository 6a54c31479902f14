/** Whitespace handling as Go's standard library does it: `unicode.IsSpace`
    and `strings.TrimSpace`, over strings taken as sequences of Unicode
    code points. */
module GoStrings {

  /** Go's `unicode.IsSpace`: the Latin-1 spaces '\t', '\n', '\v', '\f',
      '\r', ' ', U+0085 (NEL) and U+00A0 (NBSP), plus the remaining code
      points with the Unicode White_Space property. */
  predicate IsSpace(c: char) {
    c == '\t' || c == '\n' || c == '\U{0B}' || c == '\U{0C}' || c == '\r' || c == ' '
    || c == '\U{85}' || c == '\U{A0}'
    || c == '\U{1680}' || ('\U{2000}' <= c <= '\U{200A}')
    || c == '\U{2028}' || c == '\U{2029}' || c == '\U{202F}' || c == '\U{205F}'
    || c == '\U{3000}'
  }

  /** Every character of `s` is whitespace (so the empty string is blank). */
  predicate IsBlank(s: string) {
    forall i :: 0 <= i < |s| ==> IsSpace(s[i])
  }

  /** `s` neither begins nor ends with whitespace. */
  predicate EdgeTrimmed(s: string) {
    s == [] || (!IsSpace(s[0]) && !IsSpace(s[|s| - 1]))
  }

  /** The window `s[i..j]` is what remains of `s` once a blank prefix and a
      blank suffix are cut off, and it has no whitespace at either end. */
  predicate IsTrimWindow(s: string, i: int, j: int) {
    0 <= i <= j <= |s| && IsBlank(s[..i]) && IsBlank(s[j..]) && EdgeTrimmed(s[i..j])
  }

  /** Declarative meaning of trimming: `t` is `s` with all leading and all
      trailing whitespace removed. */
  ghost predicate IsTrimOf(s: string, t: string) {
    exists i, j :: IsTrimWindow(s, i, j) && t == s[i..j]
  }

  /** `s` without its leading whitespace. */
  function TrimLeft(s: string): string {
    if s != [] && IsSpace(s[0]) then TrimLeft(s[1..]) else s
  }

  /** `s` without its trailing whitespace. */
  function TrimRight(s: string): string {
    if s != [] && IsSpace(s[|s| - 1]) then TrimRight(s[..|s| - 1]) else s
  }

  /** Go's `strings.TrimSpace`: leading whitespace is cut first, then
      trailing whitespace. */
  function TrimSpace(s: string): string {
    TrimRight(TrimLeft(s))
  }

  /** TrimLeft drops a blank prefix and stops at the first non-space. */
  lemma {:induction false} TrimLeftSpec(s: string)
    ensures |TrimLeft(s)| <= |s| && TrimLeft(s) == s[|s| - |TrimLeft(s)|..]
    ensures IsBlank(s[..|s| - |TrimLeft(s)|])
    ensures TrimLeft(s) == [] || !IsSpace(TrimLeft(s)[0])
  {
    if s != [] && IsSpace(s[0]) {
      var r := TrimLeft(s[1..]);
      TrimLeftSpec(s[1..]);
      assert s[..|s| - |r|] == [s[0]] + s[1..][..|s| - 1 - |r|];
    }
  }

  /** TrimRight drops a blank suffix and stops at the last non-space. */
  lemma {:induction false} TrimRightSpec(s: string)
    ensures |TrimRight(s)| <= |s| && TrimRight(s) == s[..|TrimRight(s)|]
    ensures IsBlank(s[|TrimRight(s)|..])
    ensures TrimRight(s) == [] || !IsSpace(TrimRight(s)[|TrimRight(s)| - 1])
  {
    if s != [] && IsSpace(s[|s| - 1]) {
      var r := TrimRight(s[..|s| - 1]);
      TrimRightSpec(s[..|s| - 1]);
      assert s[|r|..] == s[..|s| - 1][|r|..] + [s[|s| - 1]];
    }
  }

  /** TrimSpace(s) is a trim of `s` in the declarative sense. */
  lemma TrimSpaceIsTrim(s: string)
    ensures IsTrimOf(s, TrimSpace(s))
  {
    var l := TrimLeft(s);
    var r := TrimRight(l);
    TrimLeftSpec(s);
    TrimRightSpec(l);
    var i := |s| - |l|;
    var j := i + |r|;
    assert r == s[i..j];
    assert s[j..] == l[|r|..];
    assert IsTrimWindow(s, i, j);
  }

  /** The characters outside a trim window are all whitespace. */
  lemma OutsideWindowIsSpace(s: string, i: int, j: int)
    requires IsTrimWindow(s, i, j)
    ensures forall k :: 0 <= k < |s| && !(i <= k < j) ==> IsSpace(s[k])
  {
    forall k | 0 <= k < |s| && !(i <= k < j) ensures IsSpace(s[k]) {
      if k < i { assert s[..i][k] == s[k]; } else { assert s[j..][k - j] == s[k]; }
    }
  }

  /** Two trim windows of the same string cut out the same substring. */
  lemma TrimWindowUnique(s: string, i: int, j: int, a: int, b: int)
    requires IsTrimWindow(s, i, j) && IsTrimWindow(s, a, b)
    ensures s[i..j] == s[a..b]
  {
    OutsideWindowIsSpace(s, i, j);
    OutsideWindowIsSpace(s, a, b);
    if i < j {
      // s[i] is the first and s[j - 1] the last non-space character of s.
      assert s[i..j][0] == s[i] && s[i..j][j - i - 1] == s[j - 1];
    }
    if a < b {
      assert s[a..b][0] == s[a] && s[a..b][b - a - 1] == s[b - 1];
    }
  }

  /** TrimSpace(s) is the ONLY trim of `s`: the function agrees with the
      declarative reading of trimming. */
  lemma TrimSpaceUnique(s: string, t: string)
    requires IsTrimOf(s, t)
    ensures t == TrimSpace(s)
  {
    var i, j :| IsTrimWindow(s, i, j) && t == s[i..j];
    TrimSpaceIsTrim(s);
    var a, b :| IsTrimWindow(s, a, b) && TrimSpace(s) == s[a..b];
    TrimWindowUnique(s, i, j, a, b);
  }

  /** Trimming yields the empty string exactly when the input is blank. */
  lemma TrimSpaceEmptyIffBlank(s: string)
    ensures TrimSpace(s) == [] <==> IsBlank(s)
  {
    TrimSpaceIsTrim(s);
    var i, j :| IsTrimWindow(s, i, j) && TrimSpace(s) == s[i..j];
    OutsideWindowIsSpace(s, i, j);
    if !IsBlank(s) {
      assert s[i..j][0] == s[i];
    }
  }

  /** Trimming twice is trimming once. */
  lemma TrimSpaceIdempotent(s: string)
    ensures TrimSpace(TrimSpace(s)) == TrimSpace(s)
  {
    var t := TrimSpace(s);
    TrimSpaceIsTrim(s);
    assert t[..0] == [] && t[|t|..] == [] && t[0..|t|] == t;
    assert IsTrimWindow(t, 0, |t|);
    TrimSpaceUnique(t, t);
  }
}
