/** The string operations the pipeline relies on, with Python's meaning:
    `str.strip()`, `str.replace(q, "")`, the `in` substring test, ASCII case
    folding for the product search, and the code-point order `<` that pandas
    uses to sort group keys. */
module Text {
  import Seqs

  /** The characters Python's `str.strip()` removes when given no argument
      (those for which `str.isspace()` holds). */
  predicate IsSpace(c: char)
  {
    || c == ' ' || c == '\t' || c == '\n' || c == '\r' || c == '\U{B}' || c == '\U{C}'
    || ('\U{1C}' <= c <= '\U{1F}')
    || c == '\U{85}' || c == '\U{A0}' || c == '\U{1680}'
    || ('\U{2000}' <= c <= '\U{200A}')
    || c == '\U{2028}' || c == '\U{2029}' || c == '\U{202F}' || c == '\U{205F}'
    || c == '\U{3000}'
  }

  /** The two quote characters that label cleaning deletes. */
  predicate IsQuote(c: char)
  {
    c == '"' || c == '\''
  }

  predicate QuoteFree(s: string)
  {
    forall k :: 0 <= k < |s| ==> !IsQuote(s[k])
  }

  /** Neither end of `s` is whitespace. */
  predicate IsStripped(s: string)
  {
    |s| == 0 || (!IsSpace(s[0]) && !IsSpace(s[|s| - 1]))
  }

  /** Every character of `s` at positions `lo` to `hi - 1` is whitespace. */
  ghost predicate SpaceBetween(s: string, lo: int, hi: int)
  {
    forall k :: lo <= k < hi && 0 <= k < |s| ==> IsSpace(s[k])
  }

  /** Quote removal: every quote character deleted,
      everything else kept in order. */
  function RemoveQuotes(s: string): (r: string)
    ensures QuoteFree(r)
    ensures forall c :: !IsQuote(c) ==> multiset(r)[c] == multiset(s)[c]
    ensures QuoteFree(s) ==> r == s
  {
    var r := Seqs.Filter(s, c => !IsQuote(c));
    Seqs.FilterContents(s, c => !IsQuote(c));
    assert forall k :: 0 <= k < |r| ==> r[k] in r;
    r
  }

  /** Quote removal works piece by piece: the characters kept keep their
      order. */
  lemma RemoveQuotesAppend(a: string, b: string)
    ensures RemoveQuotes(a + b) == RemoveQuotes(a) + RemoveQuotes(b)
  {
    Seqs.FilterAppend(a, b, c => !IsQuote(c));
  }

  /** One character: a quote is deleted, anything else is kept. */
  lemma RemoveQuotesChar(c: char)
    ensures RemoveQuotes([c]) == if IsQuote(c) then [] else [c]
  {
    Seqs.FilterCons([c], c => !IsQuote(c));
    assert [c][1..] == [];
  }

  /** The end of the run of whitespace starting at `lo`. */
  function SpanStart(s: string, lo: nat): (n: nat)
    requires lo <= |s|
    ensures lo <= n <= |s|
    ensures SpaceBetween(s, lo, n)
    ensures n == |s| || !IsSpace(s[n])
    decreases |s| - lo
  {
    if lo < |s| && IsSpace(s[lo]) then SpanStart(s, lo + 1) else lo
  }

  /** The start of the run of whitespace ending at `hi`, not going below `lo`. */
  function SpanEnd(s: string, lo: nat, hi: nat): (m: nat)
    requires lo <= hi <= |s|
    ensures lo <= m <= hi
    ensures SpaceBetween(s, m, hi)
    ensures m == lo || !IsSpace(s[m - 1])
    decreases hi
  {
    if lo < hi && IsSpace(s[hi - 1]) then SpanEnd(s, lo, hi - 1) else hi
  }

  /** Python's strip with no argument: the slice of `s` with no whitespace at either end such
      that everything cut away on both sides is whitespace. */
  function Strip(s: string): (r: string)
    ensures IsStripped(r)
    ensures exists i :: 0 <= i <= |s| - |r| && r == s[i..i + |r|]
                        && SpaceBetween(s, 0, i) && SpaceBetween(s, i + |r|, |s|)
    ensures IsStripped(s) ==> r == s
  {
    var n := SpanStart(s, 0);
    var m := SpanEnd(s, n, |s|);
    var r := s[n..m];
    assert r == s[n..n + |r|];
    assert IsStripped(s) && |s| > 0 ==> n == 0 && m == |s|;
    r
  }

  /** A slice of a quote-free string is quote-free. */
  lemma SliceQuoteFree(s: string, i: int, j: int)
    requires QuoteFree(s)
    requires 0 <= i <= j <= |s|
    ensures QuoteFree(s[i..j])
  {
    forall k | 0 <= k < j - i
      ensures !IsQuote(s[i..j][k])
    {
      assert s[i..j][k] == s[i + k];
    }
  }

  /** Stripping a quote-free string leaves it quote-free. */
  lemma StripQuoteFree(s: string)
    requires QuoteFree(s)
    ensures QuoteFree(Strip(s))
  {
    var n := SpanStart(s, 0);
    SliceQuoteFree(s, n, SpanEnd(s, n, |s|));
  }

  /** `p` is a prefix of `s`. */
  predicate StartsWith(s: string, p: string)
  {
    |p| <= |s| && s[..|p|] == p
  }

  /** Python's `p in s` for strings: `p` occurs in `s` as a contiguous run. */
  predicate Contains(s: string, p: string)
    decreases |s|
  {
    StartsWith(s, p) || (|s| > 0 && Contains(s[1..], p))
  }

  /** `Contains` finds exactly the occurrences at some offset. */
  lemma {:induction false} ContainsAt(s: string, p: string, i: int)
    requires 0 <= i <= |s| - |p|
    requires s[i..i + |p|] == p
    ensures Contains(s, p)
    decreases i
  {
    if i > 0 {
      assert s[1..][i - 1..i - 1 + |p|] == s[i..i + |p|];
      ContainsAt(s[1..], p, i - 1);
    }
  }

  lemma {:induction false} ContainsHasOffset(s: string, p: string) returns (i: int)
    requires Contains(s, p)
    ensures 0 <= i <= |s| - |p| && s[i..i + |p|] == p
    decreases |s|
  {
    if StartsWith(s, p) {
      i := 0;
    } else {
      var j := ContainsHasOffset(s[1..], p);
      i := j + 1;
      assert s[1..][j..j + |p|] == s[i..i + |p|];
    }
  }

  /** ASCII upper-case letters folded to lower case; every other character kept. */
  function LowerChar(c: char): char
  {
    if 'A' <= c <= 'Z' then (c as int + 32) as char else c
  }

  function Lower(s: string): (r: string)
    ensures |r| == |s|
    ensures forall k :: 0 <= k < |s| ==> r[k] == LowerChar(s[k])
  {
    seq(|s|, k requires 0 <= k < |s| => LowerChar(s[k]))
  }

  /** Folding is idempotent, so a folded keyword searches like the original. */
  lemma LowerIdempotent(s: string)
    ensures Lower(Lower(s)) == Lower(s)
  {
  }

  /** Case-insensitive substring test (`str.contains(k, case=False)` with a
      keyword that holds no regular-expression syntax). */
  predicate ContainsIgnoringCase(s: string, keyword: string)
  {
    Contains(Lower(s), Lower(keyword))
  }

  /** Python's `a < b` on `str`: lexicographic by code point, a proper
      prefix sorting first. */
  predicate StrLess(a: string, b: string)
    decreases |a|
  {
    |b| > 0 && (|a| == 0 || a[0] < b[0] || (a[0] == b[0] && StrLess(a[1..], b[1..])))
  }

  lemma {:induction false} StrLessIrreflexive(a: string)
    ensures !StrLess(a, a)
    decreases |a|
  {
    if |a| > 0 {
      StrLessIrreflexive(a[1..]);
    }
  }

  lemma {:induction false} StrLessTransitive(a: string, b: string, c: string)
    requires StrLess(a, b) && StrLess(b, c)
    ensures StrLess(a, c)
    decreases |a|
  {
    if |a| > 0 && a[0] == b[0] && b[0] == c[0] {
      StrLessTransitive(a[1..], b[1..], c[1..]);
    }
  }

  lemma {:induction false} StrLessTotal(a: string, b: string)
    requires a != b
    ensures StrLess(a, b) || StrLess(b, a)
    decreases |a|
  {
    if |a| > 0 && |b| > 0 && a[0] == b[0] {
      assert a == [a[0]] + a[1..] && b == [b[0]] + b[1..];
      StrLessTotal(a[1..], b[1..]);
    }
  }
}
