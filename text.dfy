/**
 * String primitives of PHP as the theme and plugin use them: `strtolower`
 * (ASCII, as in PHP 8.2 and later), `rtrim($s, '/')`, `str_starts_with`,
 * `strpos(...) !== false`, `str_replace` with one search string, and the
 * case-insensitive matching of the `/.../i` patterns.
 */
module Text {

  import opened Wrappers

  predicate IsUpper(c: char) { 'A' <= c <= 'Z' }

  /** True when no character of `s` is an upper-case ASCII letter. */
  predicate IsLowerCase(s: string) {
    forall i :: 0 <= i < |s| ==> !IsUpper(s[i])
  }

  function LowerChar(c: char): (d: char)
    ensures !IsUpper(d)
    ensures IsUpper(c) || d == c
    ensures d == '/' <==> c == '/'
  {
    if IsUpper(c) then (c as int + 32) as char else c
  }

  /** `strtolower`. */
  function Lower(s: string): (r: string)
    ensures |r| == |s|
    ensures IsLowerCase(r)
    ensures forall i :: 0 <= i < |s| ==> r[i] == LowerChar(s[i])
  {
    seq(|s|, i requires 0 <= i < |s| => LowerChar(s[i]))
  }

  lemma LowerOfLowerCase(s: string)
    requires IsLowerCase(s)
    ensures Lower(s) == s
  {
  }

  /** `rtrim($s, '/')`: drops every trailing slash. */
  function RTrimSlash(s: string): (r: string)
    ensures r <= s
    ensures |r| == 0 || r[|r| - 1] != '/'
    ensures forall i :: |r| <= i < |s| ==> s[i] == '/'
  {
    if |s| > 0 && s[|s| - 1] == '/' then RTrimSlash(s[..|s| - 1]) else s
  }

  lemma RTrimSlashOfTrimmed(s: string)
    requires |s| == 0 || s[|s| - 1] != '/'
    ensures RTrimSlash(s) == s
  {
  }

  /** Trimming `a + b` keeps `a` whole when `a` does not end in a slash. */
  lemma {:induction false} RTrimSlashAppend(a: string, b: string)
    requires |a| > 0 && a[|a| - 1] != '/'
    ensures RTrimSlash(a + b) == a + RTrimSlash(b)
  {
    if |b| > 0 && b[|b| - 1] == '/' {
      assert (a + b)[..|a + b| - 1] == a + b[..|b| - 1];
      RTrimSlashAppend(a, b[..|b| - 1]);
    } else {
      assert (a + b)[|a + b| - 1] != '/';
    }
  }

  /** `str_starts_with($s, $prefix)`. */
  predicate StartsWith(s: string, prefix: string) { prefix <= s }

  /** `strpos($haystack, $needle) !== false` (also `str_contains`). */
  predicate Contains(haystack: string, needle: string)
    decreases |haystack|
  {
    needle <= haystack || (|haystack| > 0 && Contains(haystack[1..], needle))
  }

  /** A case-insensitive search for a needle already written in lower case. */
  predicate ContainsIgnoringCase(haystack: string, needle: string)
    decreases |haystack|
  {
    |needle| <= |haystack|
    && (Lower(haystack[..|needle|]) == needle || ContainsIgnoringCase(haystack[1..], needle))
  }

  /**
   * `str_replace($pat, $rep, $s)`: every non-overlapping occurrence of `pat`,
   * scanning left to right, becomes `rep`; an empty `pat` changes nothing.
   */
  function ReplaceAll(s: string, pat: string, rep: string): (r: string)
    ensures |pat| == 0 ==> r == s
    ensures |rep| == |pat| ==> |r| == |s|
    decreases |s|
  {
    if |pat| == 0 || |s| == 0 then s
    else if pat <= s then rep + ReplaceAll(s[|pat|..], pat, rep)
    else [s[0]] + ReplaceAll(s[1..], pat, rep)
  }

  /** A string that does not contain the pattern passes through `str_replace` unchanged. */
  lemma {:induction false} ReplaceAllAbsent(s: string, pat: string, rep: string)
    requires !Contains(s, pat)
    ensures ReplaceAll(s, pat, rep) == s
  {
    if |pat| == 0 || |s| == 0 {
    } else {
      assert !(pat <= s);
      ReplaceAllAbsent(s[1..], pat, rep);
      assert [s[0]] + s[1..] == s;
    }
  }

  /** Replacing a pattern by itself is the identity. */
  lemma {:induction false} ReplaceAllSelf(s: string, pat: string)
    ensures ReplaceAll(s, pat, pat) == s
  {
    if |pat| == 0 || |s| == 0 {
    } else if pat <= s {
      ReplaceAllSelf(s[|pat|..], pat);
      assert pat + s[|pat|..] == s;
    } else {
      ReplaceAllSelf(s[1..], pat);
      assert [s[0]] + s[1..] == s;
    }
  }

  /** `\s` of PCRE: space, tab, line feed, vertical tab, form feed, carriage return. */
  predicate IsSpace(c: char) {
    c == ' ' || c == '\t' || c == '\n' || c == '\U{0B}' || c == '\U{0C}' || c == '\r'
  }

  /** `\w` of PCRE without the `u` modifier. */
  predicate IsWordChar(c: char) {
    ('a' <= c <= 'z') || ('A' <= c <= 'Z') || ('0' <= c <= '9') || c == '_'
  }

  /** The offset of the first `c` in `s`, if any. */
  function IndexOf(s: string, c: char): (r: Option<nat>)
    ensures r.Some? ==> r.value < |s| && s[r.value] == c && c !in s[..r.value]
    ensures r.None? ==> c !in s
  {
    if |s| == 0 then None
    else if s[0] == c then Some(0)
    else match IndexOf(s[1..], c)
      case None => None
      case Some(i) =>
        assert s[..i + 1] == [s[0]] + s[1..][..i];
        Some(i + 1)
  }

  /** The first `c` of `a + [c] + b` is the one after `a` when `a` has none. */
  lemma IndexOfAfter(a: string, c: char, b: string)
    requires c !in a
    ensures IndexOf(a + [c] + b, c) == Some(|a|)
  {
    var s := a + [c] + b;
    assert s[|a|] == c;
    assert forall j :: 0 <= j < |a| ==> s[j] == a[j];
    var r := IndexOf(s, c);
    assert !(r.Some? && r.value < |a|);
    assert !(r.Some? && r.value > |a|);
  }
}
