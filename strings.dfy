/**
  The text normalisation used for every name comparison: Python's `str.strip()`
  (which removes the characters `str.isspace()` accepts) and `str.lower()`.
 */
module Strings {

  /** The characters Python's `str.isspace()` accepts. */
  predicate IsSpace(ch: char) {
    ('\U{9}' <= ch <= '\U{D}') || ('\U{1C}' <= ch <= '\U{20}')
    || ch == '\U{85}' || ch == '\U{A0}' || ch == '\U{1680}'
    || ('\U{2000}' <= ch <= '\U{200A}') || ch == '\U{2028}' || ch == '\U{2029}'
    || ch == '\U{202F}' || ch == '\U{205F}' || ch == '\U{3000}'
  }

  predicate AllSpace(s: string) {
    forall i :: 0 <= i < |s| ==> IsSpace(s[i])
  }

  /** `s.lstrip()`: drops the longest all-space prefix. */
  function TrimStart(s: string): string {
    if |s| > 0 && IsSpace(s[0]) then TrimStart(s[1..]) else s
  }

  /** lstrip removes an all-space prefix and leaves a string that starts with a non-space. */
  lemma {:induction false} TrimStartShape(s: string)
    ensures var r := TrimStart(s);
      |r| <= |s| && r == s[|s| - |r|..] && AllSpace(s[..|s| - |r|]) && (r != [] ==> !IsSpace(r[0]))
    decreases |s|
  {
    if |s| > 0 && IsSpace(s[0]) {
      TrimStartShape(s[1..]);
      var r := TrimStart(s);
      assert s[..|s| - |r|] == [s[0]] + s[1..][..|s| - 1 - |r|];
    }
  }

  /** `s.rstrip()`: drops the longest all-space suffix. */
  function TrimEnd(s: string): string {
    if |s| > 0 && IsSpace(s[|s| - 1]) then TrimEnd(s[..|s| - 1]) else s
  }

  /** rstrip removes an all-space suffix and leaves a string that ends with a non-space. */
  lemma {:induction false} TrimEndShape(s: string)
    ensures var r := TrimEnd(s);
      |r| <= |s| && r == s[..|r|] && AllSpace(s[|r|..]) && (r != [] ==> !IsSpace(r[|r| - 1]))
    decreases |s|
  {
    if |s| > 0 && IsSpace(s[|s| - 1]) {
      TrimEndShape(s[..|s| - 1]);
      var r := TrimEnd(s);
      assert s[|r|..] == s[..|s| - 1][|r|..] + [s[|s| - 1]];
    }
  }

  /** `s.strip()`. */
  function Strip(s: string): string {
    TrimEnd(TrimStart(s))
  }

  /** `str.lower()` on one character; only ASCII and Latin-1 capitals are modelled. */
  function LowerChar(ch: char): char {
    if 'A' <= ch <= 'Z' || ('\U{C0}' <= ch <= '\U{DE}' && ch != '\U{D7}') then
      (ch as int + 32) as char
    else ch
  }

  function Lower(s: string): string {
    seq(|s|, i requires 0 <= i < |s| => LowerChar(s[i]))
  }

  /** `_normalize_key`: trim, then lower-case. The key is blank exactly when the text is all white space. */
  function NormalizeKey(s: string): (k: string)
    ensures |k| == |Strip(s)| <= |s|
    ensures k == "" <==> AllSpace(s)
  {
    StripBlank(s);
    Lower(Strip(s))
  }

  /** Stripping leaves nothing exactly when the text is all white space. */
  lemma StripBlank(s: string)
    ensures |Strip(s)| <= |s|
    ensures Strip(s) == "" <==> AllSpace(s)
  {
    StripShape(s);
    if AllSpace(s) {
      AllSpaceTrims(s);
    }
    if Strip(s) == "" {
      var i :| 0 <= i <= |s| && AllSpace(s[..i]) && AllSpace(s[i..]);
      assert forall j :: 0 <= j < |s| ==> (j < i ==> s[j] == s[..i][j]) && (i <= j ==> s[j] == s[i..][j - i]);
    }
  }

  /** Strip returns exactly the part of `s` between its leading and trailing spaces. */
  lemma StripShape(s: string)
    ensures exists i ::
              0 <= i <= i + |Strip(s)| <= |s| && Strip(s) == s[i..i + |Strip(s)|]
              && AllSpace(s[..i]) && AllSpace(s[i + |Strip(s)|..])
    ensures Strip(s) != [] ==> !IsSpace(Strip(s)[0]) && !IsSpace(Strip(s)[|Strip(s)| - 1])
  {
    var t := TrimStart(s);
    var r := TrimEnd(t);
    TrimStartShape(s);
    TrimEndShape(t);
    var i := |s| - |t|;
    assert r == s[i..i + |r|];
    assert s[i + |r|..] == t[|r|..];
    assert AllSpace(s[..i]) && AllSpace(s[i + |r|..]);
  }

  lemma {:induction false} TrimStartKeeps(s: string)
    requires s == [] || !IsSpace(s[0])
    ensures TrimStart(s) == s
  {
  }

  lemma {:induction false} TrimEndKeeps(s: string)
    requires s == [] || !IsSpace(s[|s| - 1])
    ensures TrimEnd(s) == s
  {
  }

  /** Stripping twice is stripping once. */
  lemma StripIdempotent(s: string)
    ensures Strip(Strip(s)) == Strip(s)
  {
    var r := Strip(s);
    StripShape(s);
    TrimStartKeeps(r);
    TrimEndKeeps(r);
  }

  lemma {:induction false} TrimStartPrefix(p: string, s: string)
    requires AllSpace(p)
    ensures TrimStart(p + s) == TrimStart(s)
    decreases |p|
  {
    if p != [] {
      assert (p + s)[1..] == p[1..] + s;
      TrimStartPrefix(p[1..], s);
    } else {
      assert p + s == s;
    }
  }

  lemma {:induction false} TrimEndSuffix(s: string, q: string)
    requires AllSpace(q)
    ensures TrimEnd(s + q) == TrimEnd(s)
    decreases |q|
  {
    if q != [] {
      assert (s + q)[..|s + q| - 1] == s + q[..|q| - 1];
      TrimEndSuffix(s, q[..|q| - 1]);
    } else {
      assert s + q == s;
    }
  }

  lemma {:induction false} TrimStartSuffix(s: string, q: string)
    requires AllSpace(q)
    ensures TrimStart(s + q) == TrimStart(s) + q || (TrimStart(s) == [] && TrimStart(s + q) == [])
    decreases |s|
  {
    if s == [] {
      assert s + q == q;
      AllSpaceTrims(q);
    } else if IsSpace(s[0]) {
      assert (s + q)[1..] == s[1..] + q;
      TrimStartSuffix(s[1..], q);
    }
  }

  lemma {:induction false} AllSpaceTrims(q: string)
    requires AllSpace(q)
    ensures TrimStart(q) == []
    decreases |q|
  {
    if q != [] {
      assert AllSpace(q[1..]);
      AllSpaceTrims(q[1..]);
    }
  }

  /** Surrounding whitespace never matters to a normalised key. */
  lemma {:induction false} NormalizeIgnoresPadding(p: string, s: string, q: string)
    requires AllSpace(p) && AllSpace(q)
    ensures NormalizeKey(p + s + q) == NormalizeKey(s)
  {
    assert p + s + q == p + (s + q);
    TrimStartPrefix(p, s + q);
    TrimStartSuffix(s, q);
    if TrimStart(s + q) != [] || TrimStart(s) != [] {
      TrimEndSuffix(TrimStart(s), q);
    }
  }

  /** Letter case never matters to a normalised key (within the modelled letters). */
  lemma {:induction false} NormalizeIgnoresCase(s: string)
    ensures NormalizeKey(Lower(s)) == NormalizeKey(s)
  {
    LowerCommutesTrimStart(s);
    LowerCommutesTrimEnd(TrimStart(s));
    LowerIdempotent(Strip(s));
  }

  lemma {:induction false} LowerCommutesTrimStart(s: string)
    ensures TrimStart(Lower(s)) == Lower(TrimStart(s))
    decreases |s|
  {
    if s != [] {
      assert Lower(s)[1..] == Lower(s[1..]);
      if IsSpace(s[0]) {
        LowerCommutesTrimStart(s[1..]);
      }
    }
  }

  lemma {:induction false} LowerCommutesTrimEnd(s: string)
    ensures TrimEnd(Lower(s)) == Lower(TrimEnd(s))
    decreases |s|
  {
    if s != [] {
      assert Lower(s)[..|s| - 1] == Lower(s[..|s| - 1]);
      if IsSpace(s[|s| - 1]) {
        LowerCommutesTrimEnd(s[..|s| - 1]);
      }
    }
  }

  lemma LowerIdempotent(s: string)
    ensures Lower(Lower(s)) == Lower(s)
  {
  }

  /** Normalising twice is normalising once: a stored key compares equal to itself re-normalised. */
  lemma {:induction false} NormalizeIdempotent(s: string)
    ensures NormalizeKey(NormalizeKey(s)) == NormalizeKey(s)
  {
    LowerCommutesTrimStart(Strip(s));
    LowerCommutesTrimEnd(TrimStart(Strip(s)));
    StripIdempotent(s);
    LowerIdempotent(Strip(s));
  }
}
