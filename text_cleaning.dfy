/**
 * Normalisation of one categorical value (`clean_text`): a missing value
 * becomes the sentinel "unknown"; any other value has its surrounding
 * whitespace stripped and is lower-cased. Whitespace is Python's `str.isspace`
 * set; case folding is ASCII only.
 */
module TextCleaning {
  import opened Wrappers

  /** Python's `str.isspace` for one character. */
  predicate IsSpace(c: char) {
    var n := c as int;
    || 0x09 <= n <= 0x0D
    || 0x1C <= n <= 0x20
    || n == 0x85 || n == 0xA0 || n == 0x1680
    || 0x2000 <= n <= 0x200A
    || n == 0x2028 || n == 0x2029 || n == 0x202F || n == 0x205F || n == 0x3000
  }

  predicate IsAsciiUpper(c: char) {
    'A' <= c <= 'Z'
  }

  /** No whitespace at either end. */
  predicate Bare(s: string) {
    |s| == 0 || (!IsSpace(s[0]) && !IsSpace(s[|s| - 1]))
  }

  predicate AllSpace(s: string) {
    forall i :: 0 <= i < |s| ==> IsSpace(s[i])
  }

  predicate NoAsciiUpper(s: string) {
    forall i :: 0 <= i < |s| ==> !IsAsciiUpper(s[i])
  }

  function LowerChar(c: char): (r: char)
    ensures !IsAsciiUpper(r)
    ensures IsAsciiUpper(c) ==> r as int == c as int + 32
    ensures IsSpace(r) <==> IsSpace(c)
    ensures !IsAsciiUpper(c) ==> r == c
  {
    if IsAsciiUpper(c) then (c as int + 32) as char else c
  }

  /** `str.lower` restricted to ASCII: every character is mapped on its own. */
  function Lower(s: string): (r: string)
    ensures |r| == |s| && forall i :: 0 <= i < |s| ==> r[i] == LowerChar(s[i])
  {
    seq(|s|, i requires 0 <= i < |s| => LowerChar(s[i]))
  }

  /** Scans forward from `i` past whitespace: the index of the first non-space at or after `i`, or `|s|`. */
  function SkipSpaceForward(s: string, i: nat): (n: nat)
    requires i <= |s|
    ensures i <= n <= |s|
    ensures forall k :: i <= k < n ==> IsSpace(s[k])
    ensures n == |s| || !IsSpace(s[n])
    decreases |s| - i
  {
    if i < |s| && IsSpace(s[i]) then SkipSpaceForward(s, i + 1) else i
  }

  /** Scans backward from `j` past whitespace, never below `lo`: the end of the text before the trailing run. */
  function SkipSpaceBackward(s: string, lo: nat, j: nat): (n: nat)
    requires lo <= j <= |s|
    ensures lo <= n <= j
    ensures forall k :: n <= k < j ==> IsSpace(s[k])
    ensures n == lo || !IsSpace(s[n - 1])
  {
    if lo < j && IsSpace(s[j - 1]) then SkipSpaceBackward(s, lo, j - 1) else j
  }

  /** `r` sits at index `i` of `s`, has no whitespace at its ends, and only whitespace surrounds it. */
  predicate Span(s: string, i: int, r: string) {
    0 <= i <= |s| - |r| && r == s[i..i + |r|]
    && AllSpace(s[..i]) && AllSpace(s[i + |r|..]) && Bare(r)
  }

  /** `r` is `s` with a whitespace-only run removed from each end, and nothing more. */
  ghost predicate StrippedFrom(r: string, s: string) {
    exists i :: Span(s, i, r)
  }

  /** `str.strip()`: the text between the leading and the trailing whitespace runs. */
  function Strip(s: string): (r: string)
    ensures StrippedFrom(r, s)
  {
    var i := SkipSpaceForward(s, 0);
    var j := SkipSpaceBackward(s, i, |s|);
    StripSpan(s, i, j);
    s[i..j]
  }

  /** Whitespace up to `i` and from `j` on, with non-space at both ends of `i..j` (or nothing between them), is the span `Strip` promises. */
  lemma StripSpan(s: string, i: nat, j: nat)
    requires i <= j <= |s|
    requires forall k :: 0 <= k < i ==> IsSpace(s[k])
    requires forall k :: j <= k < |s| ==> IsSpace(s[k])
    requires i == j || (!IsSpace(s[i]) && !IsSpace(s[j - 1]))
    ensures Span(s, i, s[i..j])
  {
    var r := s[i..j];
    assert AllSpace(s[..i]) by {
      forall k | 0 <= k < i ensures IsSpace(s[..i][k]) {
        assert s[..i][k] == s[k];
      }
    }
    assert AllSpace(s[j..]) by {
      forall k | 0 <= k < |s| - j ensures IsSpace(s[j..][k]) {
        assert s[j..][k] == s[j + k];
      }
    }
    assert Bare(r) by {
      assert |r| > 0 ==> r[0] == s[i] && r[|r| - 1] == s[j - 1];
    }
    assert i + |r| == j;
  }

  /** `clean_text`: the sentinel for a missing value, otherwise stripped and lower-cased. */
  function CleanText(x: Option<string>): (r: string)
    ensures x.None? ==> r == "unknown"
    ensures x.Some? ==> |r| <= |x.value| && Lower(r) == r
    ensures Bare(r) && NoAsciiUpper(r)
  {
    match x
    case None => "unknown"
    case Some(s) =>
      var t := Strip(s);
      LowerIdempotent(t);
      Lower(t)
  }

  lemma LowerIdempotent(s: string)
    ensures Lower(Lower(s)) == Lower(s)
    ensures Bare(Lower(s)) <==> Bare(s)
  {
  }

  /** A string without surrounding whitespace is left alone by `strip`. */
  lemma StripBare(s: string)
    requires Bare(s)
    ensures Strip(s) == s
  {
  }

  /** Outside a span bordered by whitespace-only runs, every character is whitespace. */
  lemma NonSpaceInsideSpan(s: string, i: nat, n: nat)
    requires i + n <= |s| && AllSpace(s[..i]) && AllSpace(s[i + n..])
    ensures forall k :: 0 <= k < |s| && !IsSpace(s[k]) ==> i <= k < i + n
  {
    forall k | 0 <= k < |s| && !(i <= k < i + n)
      ensures IsSpace(s[k])
    {
      if k < i {
        assert s[..i][k] == s[k];
      } else {
        assert s[i + n..][k - i - n] == s[k];
      }
    }
  }

  /** Two spans of the same string are the same text. */
  lemma {:induction false} SpanUnique(s: string, i1: int, r1: string, i2: int, r2: string)
    requires Span(s, i1, r1) && Span(s, i2, r2)
    ensures r1 == r2
  {
    NonSpaceInsideSpan(s, i1, |r1|);
    NonSpaceInsideSpan(s, i2, |r2|);
    // A non-empty span starts and ends with the first and last non-space characters of s.
    assert |r1| > 0 ==> !IsSpace(s[i1]) && !IsSpace(s[i1 + |r1| - 1]);
    assert |r2| > 0 ==> !IsSpace(s[i2]) && !IsSpace(s[i2 + |r2| - 1]);
    assert |r1| > 0 ==> i2 <= i1 && i1 + |r1| <= i2 + |r2|;
    assert |r2| > 0 ==> i1 <= i2 && i2 + |r2| <= i1 + |r1|;
  }

  /** The characterisation of `strip` has exactly one solution. */
  lemma StrippedFromUnique(r1: string, r2: string, s: string)
    requires StrippedFrom(r1, s) && StrippedFrom(r2, s)
    ensures r1 == r2
  {
    var i1 :| Span(s, i1, r1);
    var i2 :| Span(s, i2, r2);
    SpanUnique(s, i1, r1, i2, r2);
  }

  /** Cleaning an already clean value changes nothing, whether the value was missing or not. */
  lemma CleanTextIdempotent(x: Option<string>)
    ensures CleanText(Some(CleanText(x))) == CleanText(x)
  {
    var r := CleanText(x);
    StripBare(r);
  }

  /** Whatever `strip` may be, it is the text left between two whitespace-only runs. */
  lemma StripBetween(s: string, i: nat, r: string)
    requires i + |r| <= |s| && r == s[i..i + |r|] && Bare(r)
    requires AllSpace(s[..i]) && AllSpace(s[i + |r|..])
    ensures Strip(s) == r
  {
    assert Span(s, i, r);
    StrippedFromUnique(Strip(s), r, s);
  }

  /** Surrounding whitespace never matters: a padded text cleans to its core, lower-cased. */
  lemma CleanTextPadded(before: string, core: string, after: string)
    requires AllSpace(before) && AllSpace(after) && Bare(core)
    ensures CleanText(Some(before + core + after)) == Lower(core)
  {
    var s := before + core + after;
    assert s[..|before|] == before;
    assert s[|before|..|before| + |core|] == core;
    assert s[|before| + |core|..] == after;
    StripBetween(s, |before|, core);
  }

  lemma LowerUnknown()
    ensures Bare("Unknown") && Lower("Unknown") == "unknown"
  {
    var word := "Unknown";
    assert !IsSpace(word[0]) && !IsSpace(word[6]);
  }

  /** A present "Unknown", however padded, cleans to the same text as a missing value. */
  lemma SentinelCollision(before: string, after: string)
    requires AllSpace(before) && AllSpace(after)
    ensures CleanText(Some(before + "Unknown" + after)) == CleanText(None)
  {
    LowerUnknown();
    CleanTextPadded(before, "Unknown", after);
  }
}
