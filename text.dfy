/** The few Python string operations the core relies on, over `string` (= seq<char>). */
module Text {

  /** Python's `str.isspace()` for one character: the characters `str.strip()` removes. */
  predicate IsSpace(c: char) {
    || c == ' '
    || ('\t' <= c <= '\r')
    || ('\U{1C}' <= c <= '\U{1F}')
    || c == '\U{85}' || c == '\U{A0}' || c == '\U{1680}'
    || ('\U{2000}' <= c <= '\U{200A}')
    || c == '\U{2028}' || c == '\U{2029}' || c == '\U{202F}' || c == '\U{205F}' || c == '\U{3000}'
  }

  /** Number of whitespace characters at the start of `s`. */
  function LeadingSpaces(s: string): (n: nat)
    ensures n <= |s|
    ensures forall i | 0 <= i < n :: IsSpace(s[i])
    ensures n < |s| ==> !IsSpace(s[n])
  {
    if |s| == 0 || !IsSpace(s[0]) then 0 else 1 + LeadingSpaces(s[1..])
  }

  /** Number of whitespace characters at the end of `s`. */
  function TrailingSpaces(s: string): (n: nat)
    ensures n <= |s|
    ensures forall i | |s| - n <= i < |s| :: IsSpace(s[i])
    ensures n < |s| ==> !IsSpace(s[|s| - 1 - n])
  {
    if |s| == 0 || !IsSpace(s[|s| - 1]) then 0 else 1 + TrailingSpaces(s[..|s| - 1])
  }

  /** Python's `s.strip()`: `s` without its leading and trailing whitespace. */
  function Strip(s: string): string {
    var t := s[LeadingSpaces(s)..];
    t[..|t| - TrailingSpaces(t)]
  }

  /** Strip removes whitespace only, all of it at both ends, and keeps the middle as it is. */
  lemma StripSpec(s: string)
    ensures var r := Strip(s);
            && LeadingSpaces(s) + |r| <= |s|
            && r == s[LeadingSpaces(s)..LeadingSpaces(s) + |r|]
            && (forall i | 0 <= i < |s| && (i < LeadingSpaces(s) || LeadingSpaces(s) + |r| <= i) :: IsSpace(s[i]))
            && (r != [] ==> !IsSpace(r[0]) && !IsSpace(r[|r| - 1]))
  {
  }

  /** A string with no whitespace at either end. */
  predicate IsStripped(s: string) {
    s == [] || (!IsSpace(s[0]) && !IsSpace(s[|s| - 1]))
  }

  lemma StripOfStripped(s: string)
    requires IsStripped(s)
    ensures Strip(s) == s
  {
    assert LeadingSpaces(s) == 0;
    assert TrailingSpaces(s) == 0;
  }

  /** Strip gives "" exactly for all-whitespace strings. */
  lemma StripEmpty(s: string)
    ensures Strip(s) == [] <==> forall i | 0 <= i < |s| :: IsSpace(s[i])
  {
    StripSpec(s);
    if Strip(s) != [] {
      assert !IsSpace(s[LeadingSpaces(s)]);
    }
  }

  /** Python's `str.lower()` restricted to ASCII letters. */
  function LowerChar(c: char): char {
    if 'A' <= c <= 'Z' then (c as int + 32) as char else c
  }

  function Lower(s: string): (r: string)
    ensures |r| == |s|
    ensures forall i | 0 <= i < |s| :: r[i] == LowerChar(s[i])
  {
    if s == [] then [] else [LowerChar(s[0])] + Lower(s[1..])
  }

  lemma LowerOfLower(s: string)
    requires forall i | 0 <= i < |s| :: !('A' <= s[i] <= 'Z')
    ensures Lower(s) == s
  {
  }

  /** Lowercasing twice is lowercasing once. */
  lemma LowerIdempotent(s: string)
    ensures Lower(Lower(s)) == Lower(s)
  {
    LowerOfLower(Lower(s));
  }

  /** Python's `k in s` for strings: `k` occurs contiguously in `s`. */
  predicate IsSubstring(k: string, s: string)
    decreases |s|
  {
    k <= s || (|s| > 0 && IsSubstring(k, s[1..]))
  }

  /** Every character of a substring occurs in the string. */
  lemma {:induction false} SubstringChars(k: string, s: string, c: char)
    requires IsSubstring(k, s) && c in k
    ensures c in s
    decreases |s|
  {
    if k <= s {
      var i :| 0 <= i < |k| && k[i] == c;
      assert s[i] == c;
    } else {
      SubstringChars(k, s[1..], c);
      var j :| 0 <= j < |s[1..]| && s[1..][j] == c;
      assert s[j + 1] == c;
    }
  }

  /** Python's `s.replace(pat, "")`: every non-overlapping occurrence of `pat`, scanned left
      to right, removed. */
  function RemoveAll(s: string, pat: string): (r: string)
    requires pat != []
    ensures |r| <= |s|
    ensures !IsSubstring(pat, s) ==> r == s
    ensures IsSubstring(pat, s) ==> |r| <= |s| - |pat|
    decreases |s|
  {
    if |s| < |pat| then SubstringLength(pat, s); s
    else if s[..|pat|] == pat then RemoveAll(s[|pat|..], pat)
    else [s[0]] + RemoveAll(s[1..], pat)
  }

  /** A string contains only substrings no longer than itself. */
  lemma {:induction false} SubstringLength(k: string, s: string)
    ensures IsSubstring(k, s) ==> |k| <= |s|
    decreases |s|
  {
    if |s| > 0 {
      SubstringLength(k, s[1..]);
    }
  }

  /** An occurrence of the pattern at the front is removed, and the rest is scanned as if
      the string began after it. */
  lemma RemoveAllLeading(pat: string, s: string)
    requires pat != []
    ensures RemoveAll(pat + s, pat) == RemoveAll(s, pat)
  {
    assert (pat + s)[..|pat|] == pat;
    assert (pat + s)[|pat|..] == s;
  }

  /** `pat` occurs in `s` starting at position `j`. */
  predicate OccursAt(s: string, pat: string, j: nat) {
    j + |pat| <= |s| && s[j..j + |pat|] == pat
  }

  /** Dropping the first character moves every occurrence one position to the left. */
  lemma OccursShift(s: string, pat: string, j: nat)
    requires |s| > 0
    ensures OccursAt(s[1..], pat, j) == OccursAt(s, pat, j + 1)
  {
    if j + 1 + |pat| <= |s| {
      assert s[1..][j..j + |pat|] == s[j + 1..j + 1 + |pat|];
    }
  }

  /** With no occurrence at the front, the first character is kept. */
  lemma RemoveAllSkip(s: string, pat: string)
    requires pat != [] && |s| > 0 && !OccursAt(s, pat, 0)
    ensures RemoveAll(s, pat) == [s[0]] + RemoveAll(s[1..], pat)
  {
  }

  /** The first occurrence of the pattern is removed, everything before it is kept as it is,
      and the scan goes on right after it. */
  lemma {:induction false} RemoveAllFirst(s: string, pat: string, i: nat)
    requires pat != [] && OccursAt(s, pat, i)
    requires forall j | 0 <= j < i :: !OccursAt(s, pat, j)
    ensures RemoveAll(s, pat) == s[..i] + RemoveAll(s[i + |pat|..], pat)
  {
    if i == 0 {
      RemoveAllLeadingAt(s, pat);
    } else {
      NoEarlierOccurrenceShift(s, pat, i);
      RemoveAllFirst(s[1..], pat, i - 1);
      RemoveAllFirstStep(s, pat, i);
    }
  }

  /** The hypotheses of `RemoveAllFirst` carry over to the string without its first character. */
  lemma NoEarlierOccurrenceShift(s: string, pat: string, i: nat)
    requires 0 < i && OccursAt(s, pat, i)
    requires forall j | 0 <= j < i :: !OccursAt(s, pat, j)
    ensures OccursAt(s[1..], pat, i - 1)
    ensures forall j | 0 <= j < i - 1 :: !OccursAt(s[1..], pat, j)
  {
    OccursShift(s, pat, i - 1);
    forall j | 0 <= j < i - 1
      ensures !OccursAt(s[1..], pat, j)
    {
      OccursShift(s, pat, j);
    }
  }

  /** One step of `RemoveAllFirst`: the first character, kept, goes in front of the rest. */
  lemma RemoveAllFirstStep(s: string, pat: string, i: nat)
    requires pat != [] && 0 < i && OccursAt(s, pat, i) && !OccursAt(s, pat, 0)
    requires RemoveAll(s[1..], pat) == s[1..][..i - 1] + RemoveAll(s[1..][i - 1 + |pat|..], pat)
    ensures RemoveAll(s, pat) == s[..i] + RemoveAll(s[i + |pat|..], pat)
  {
    RemoveAllSkip(s, pat);
    ConsPrefix(s, i, i + |pat|, RemoveAll(s[i + |pat|..], pat));
  }

  /** With an occurrence at the front, the scan restarts after it. */
  lemma RemoveAllLeadingAt(s: string, pat: string)
    requires pat != [] && OccursAt(s, pat, 0)
    ensures RemoveAll(s, pat) == s[..0] + RemoveAll(s[|pat|..], pat)
  {
    assert s[..|pat|] == pat;
    assert s[..0] == [];
  }

  lemma ConsPrefix<T>(s: seq<T>, i: nat, k: nat, r: seq<T>)
    requires 0 < i <= k <= |s|
    ensures [s[0]] + (s[1..][..i - 1] + r) == s[..i] + r
    ensures s[1..][k - 1..] == s[k..]
  {
    assert [s[0]] + s[1..][..i - 1] == s[..i];
  }

  /** Python's `sep.join(xs)`. */
  function Join(xs: seq<string>, sep: string): string
  {
    if |xs| == 0 then "" else if |xs| == 1 then xs[0] else xs[0] + sep + Join(xs[1..], sep)
  }

  /** Taking one more element of a sequence appends that element. */
  lemma TakeSnoc<T>(s: seq<T>, i: nat)
    requires i < |s|
    ensures s[..i + 1] == s[..i] + [s[i]]
  {
  }
}
