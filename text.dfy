/**
 * Character and string helpers shared by the decoders and the renderer:
 * fixed-width decimal fields, substring search and Rust's `str::replace`.
 */
module Text {
  import opened Wrappers

  predicate IsDigit(c: char) {
    '0' <= c <= '9'
  }

  predicate IsLetter(c: char) {
    ('A' <= c <= 'Z') || ('a' <= c <= 'z')
  }

  predicate AllDigits(s: string) {
    forall i :: 0 <= i < |s| ==> IsDigit(s[i])
  }

  predicate AllLetters(s: string) {
    forall i :: 0 <= i < |s| ==> IsLetter(s[i])
  }

  function DigitValue(c: char): (n: nat)
    requires IsDigit(c)
    ensures n < 10
  {
    c as int - '0' as int
  }

  function DigitChar(n: nat): (c: char)
    requires n < 10
    ensures IsDigit(c) && DigitValue(c) == n
  {
    ('0' as int + n) as char
  }

  // ---------------------------------------------------------------------------
  // Fixed-width decimal fields (the `%d`, `%m`, `%H`, `%M`, `%S`, `%I` and `%Y`
  // fields of the date and time formats)
  // ---------------------------------------------------------------------------

  /** Value of a two-digit decimal field. */
  function Value2(s: string): (n: nat)
    requires |s| == 2 && AllDigits(s)
    ensures n < 100
  {
    10 * DigitValue(s[0]) + DigitValue(s[1])
  }

  /** Value of a four-digit decimal field. */
  function Value4(s: string): (n: nat)
    requires |s| == 4 && AllDigits(s)
    ensures n < 10000
  {
    100 * Value2(s[..2]) + Value2(s[2..])
  }

  /** `n` written with exactly two digits, zero-padded (`{:02}`). */
  function Pad2(n: nat): (s: string)
    requires n < 100
    ensures |s| == 2 && AllDigits(s)
    ensures Value2(s) == n
  {
    [DigitChar(n / 10), DigitChar(n % 10)]
  }

  /** `n` written with exactly four digits, zero-padded (`{:04}`). */
  function Pad4(n: nat): (s: string)
    requires n < 10000
    ensures |s| == 4 && AllDigits(s)
    ensures Value4(s) == n
  {
    var hi, lo := Pad2(n / 100), Pad2(n % 100);
    assert (hi + lo)[..2] == hi && (hi + lo)[2..] == lo;
    hi + lo
  }

  lemma Pad2OfValue(s: string)
    requires |s| == 2 && AllDigits(s)
    ensures Pad2(Value2(s)) == s
  {
    var n := Value2(s);
    assert n / 10 == DigitValue(s[0]) && n % 10 == DigitValue(s[1]);
  }

  lemma Pad4OfValue(s: string)
    requires |s| == 4 && AllDigits(s)
    ensures Pad4(Value4(s)) == s
  {
    var hi, lo := Value2(s[..2]), Value2(s[2..]);
    assert Value4(s) / 100 == hi && Value4(s) % 100 == lo;
    Pad2OfValue(s[..2]);
    Pad2OfValue(s[2..]);
    assert s[..2] + s[2..] == s;
  }

  /** Decimal digits of `n` without padding (used for years beyond 9999). */
  function Decimal(n: nat): (s: string)
    ensures |s| > 0 && AllDigits(s)
  {
    if n < 10 then [DigitChar(n)] else Decimal(n / 10) + [DigitChar(n % 10)]
  }

  // ---------------------------------------------------------------------------
  // Substring search and replacement
  // ---------------------------------------------------------------------------

  predicate StartsWith(s: string, prefix: string) {
    |prefix| <= |s| && s[..|prefix|] == prefix
  }

  /** `pat` occurs in `s` starting at index `i`. */
  predicate OccursAt(s: string, pat: string, i: int) {
    0 <= i && i + |pat| <= |s| && s[i..i + |pat|] == pat
  }

  /** Rust's `str::contains` with a string pattern. */
  predicate Contains(s: string, pat: string)
    ensures StartsWith(s, pat) ==> Contains(s, pat)
    ensures Contains(s, pat) ==> |pat| <= |s|
    decreases |s|
  {
    StartsWith(s, pat) || (|s| > 0 && Contains(s[1..], pat))
  }

  lemma {:induction false} ContainsHasOccurrence(s: string, pat: string)
    requires Contains(s, pat)
    ensures exists i :: OccursAt(s, pat, i)
    decreases |s|
  {
    if StartsWith(s, pat) {
      assert OccursAt(s, pat, 0);
    } else {
      ContainsHasOccurrence(s[1..], pat);
      var i :| OccursAt(s[1..], pat, i);
      assert s[1..][i..i + |pat|] == s[i + 1..i + 1 + |pat|];
      assert OccursAt(s, pat, i + 1);
    }
  }

  lemma {:induction false} OccurrenceIsContained(s: string, pat: string, i: int)
    requires OccursAt(s, pat, i)
    ensures Contains(s, pat)
    decreases i
  {
    if i == 0 {
      assert StartsWith(s, pat);
    } else {
      assert s[1..][i - 1..i - 1 + |pat|] == s[i..i + |pat|];
      OccurrenceIsContained(s[1..], pat, i - 1);
    }
  }

  /** `Contains` agrees with the index-based reading of "occurs somewhere". */
  lemma ContainsIffOccurs(s: string, pat: string)
    ensures Contains(s, pat) <==> exists i :: OccursAt(s, pat, i)
  {
    if Contains(s, pat) {
      ContainsHasOccurrence(s, pat);
    }
    if exists i :: OccursAt(s, pat, i) {
      var i :| OccursAt(s, pat, i);
      OccurrenceIsContained(s, pat, i);
    }
  }

  /**
   * Position of the first `c` in `s`. The client itself searches nothing;
   * this serves the read-back of the request URL's query parameters.
   */
  function FindChar(s: string, c: char): (r: Option<nat>)
    ensures r.None? <==> c !in s
    ensures r.Some? ==> r.value < |s| && s[r.value] == c && c !in s[..r.value]
  {
    if |s| == 0 then None
    else if s[0] == c then Some(0)
    else
      match FindChar(s[1..], c)
      case None => None
      case Some(i) =>
        assert s[..i + 1] == [s[0]] + s[1..][..i];
        Some(i + 1)
  }

  /** The first occurrence of `c` is the one `FindChar` reports. */
  lemma {:induction false} FindCharIsFirst(s: string, c: char, j: nat)
    requires j < |s| && s[j] == c && c !in s[..j]
    ensures FindChar(s, c) == Some(j)
  {
    if j > 0 {
      assert s[..j][0] == s[0];
      assert s[1..][..j - 1] == s[..j][1..];
      FindCharIsFirst(s[1..], c, j - 1);
    }
  }

  /**
   * Splits `s` as `prefix`, a part free of `key`'s first character, `key`,
   * and the rest; `None` when `s` does not have that shape. Used only to read
   * the query parameters back out of a request URL.
   */
  function SplitAround(s: string, prefix: string, key: string): (r: Option<(string, string)>)
    requires |key| > 0
    ensures r.Some? ==> s == prefix + r.value.0 + key + r.value.1 && key[0] !in r.value.0
  {
    if !StartsWith(s, prefix) then None
    else
      match FindChar(s[|prefix|..], key[0])
      case None => None
      case Some(i) =>
        var b := |prefix| + i;
        if StartsWith(s[b..], key) then
          assert s[b..b + |key|] == s[b..][..|key|];
          assert s[|prefix|..b] == s[|prefix|..][..i];
          Reassemble(s, |prefix|, b, b + |key|);
          Some((s[|prefix|..b], s[b + |key|..]))
        else None
  }

  /** A text is the concatenation of its slices at three cut points. */
  lemma Reassemble(s: string, a: nat, b: nat, c: nat)
    requires a <= b <= c <= |s|
    ensures s == s[..a] + s[a..b] + s[b..c] + s[c..]
  {
    assert s[..b] == s[..a] + s[a..b];
    assert s[..c] == s[..b] + s[b..c];
    assert s == s[..c] + s[c..];
  }

  /** A text built in that shape splits back into its parts. */
  lemma SplitAroundOfParts(prefix: string, before: string, key: string, after: string)
    requires |key| > 0 && key[0] !in before
    ensures SplitAround(prefix + before + key + after, prefix, key) == Some((before, after))
  {
    var s, b := prefix + before + key + after, |prefix| + |before|;
    SlicesOfParts(prefix, before, key, after);
    FindCharIsFirst(before + key + after, key[0], |before|);
    SplitAroundFound(s, prefix, key, |before|);
  }

  /** Where the prefix matches and the key starts at its first character's first occurrence, the split succeeds. */
  lemma SplitAroundFound(s: string, prefix: string, key: string, i: nat)
    requires |key| > 0 && StartsWith(s, prefix)
    requires FindChar(s[|prefix|..], key[0]) == Some(i)
    requires StartsWith(s[|prefix| + i..], key)
    ensures SplitAround(s, prefix, key) == Some((s[|prefix|..|prefix| + i], s[|prefix| + i + |key|..]))
  {
  }

  /** The slices of `prefix + before + key + after` at the part boundaries. */
  lemma SlicesOfParts(prefix: string, before: string, key: string, after: string)
    requires |key| > 0
    ensures
      var s, b := prefix + before + key + after, |prefix| + |before|;
      StartsWith(s, prefix) && s[|prefix|..] == before + key + after
      && (before + key + after)[..|before|] == before && (before + key + after)[|before|] == key[0]
      && StartsWith(s[b..], key) && s[|prefix|..b] == before && s[b + |key|..] == after
  {
    var tail := key + after;
    var rest := before + tail;
    var s, b := prefix + rest, |prefix| + |before|;
    ConcatRegroup(prefix, before, key, after);
    SlicesOfConcat(prefix, rest);
    SlicesOfConcat(before, tail);
    SlicesOfConcat(key, after);
    SlicesOfSuffix(s, |prefix|, |before|);
    SlicesOfSuffix(s, b, |key|);
  }

  /** Concatenation regrouped to the right. */
  lemma ConcatRegroup(w: string, x: string, y: string, z: string)
    ensures w + x + y + z == w + (x + (y + z)) && x + y + z == x + (y + z)
  {
  }

  /** The two halves of a concatenation. */
  lemma SlicesOfConcat(x: string, y: string)
    ensures (x + y)[..|x|] == x && (x + y)[|x|..] == y
  {
  }

  /** Slicing a suffix is slicing the whole text further on. */
  lemma SlicesOfSuffix(s: string, a: nat, n: nat)
    requires a + n <= |s|
    ensures s[a..][..n] == s[a..a + n] && s[a..][n..] == s[a + n..]
  {
  }

  /** A pattern at least as long as the string occurs in it only as the whole string. */
  lemma {:induction false} ContainsNoLonger(s: string, pat: string)
    requires |s| <= |pat|
    ensures Contains(s, pat) <==> s == pat
    decreases |s|
  {
    if |s| > 0 {
      ContainsNoLonger(s[1..], pat);
    }
  }

  /**
   * Rust's `str::replace`: every non-overlapping occurrence of `pat`, found
   * left to right, is replaced by `rep`.
   */
  function ReplaceAll(s: string, pat: string, rep: string): (r: string)
    requires |pat| > 0
    ensures !Contains(s, pat) ==> r == s
    ensures |pat| == |rep| ==> |r| == |s|
    decreases |s|
  {
    if |s| < |pat| then s
    else if StartsWith(s, pat) then rep + ReplaceAll(s[|pat|..], pat, rep)
    else [s[0]] + ReplaceAll(s[1..], pat, rep)
  }

  /** An occurrence of `pat` at the front is replaced and the rest is rewritten. */
  lemma ReplaceAllAtPattern(pat: string, rep: string, t: string)
    requires |pat| > 0
    ensures ReplaceAll(pat + t, pat, rep) == rep + ReplaceAll(t, pat, rep)
  {
    assert (pat + t)[..|pat|] == pat;
    assert (pat + t)[|pat|..] == t;
  }

  /** A prefix in which the pattern's first character never appears is copied unchanged. */
  lemma {:induction false} ReplaceAllSkipsPrefix(a: string, t: string, pat: string, rep: string)
    requires |pat| > 0
    requires forall i :: 0 <= i < |a| ==> a[i] != pat[0]
    ensures ReplaceAll(a + t, pat, rep) == a + ReplaceAll(t, pat, rep)
    decreases |a|
  {
    if |a| > 0 {
      ConcatFirst(a, t);
      ConcatFirst(a, ReplaceAll(t, pat, rep));
      ReplaceAllSkipsChar(a[0], a[1..] + t, pat, rep);
      ReplaceAllSkipsPrefix(a[1..], t, pat, rep);
    } else {
      assert a + t == t;
    }
  }

  /** A non-empty text before `x` is its first character before the rest. */
  lemma ConcatFirst(a: string, x: string)
    requires |a| > 0
    ensures a + x == [a[0]] + (a[1..] + x)
  {
  }

  /** A leading character that does not start the pattern is copied unchanged. */
  lemma ReplaceAllSkipsChar(c: char, u: string, pat: string, rep: string)
    requires |pat| > 0 && c != pat[0]
    ensures ReplaceAll([c] + u, pat, rep) == [c] + ReplaceAll(u, pat, rep)
  {
    var s := [c] + u;
    assert s[1..] == u;
    if |pat| <= |s| {
      assert s[..|pat|][0] == c;
    }
  }

  /**
   * Two non-empty patterns that cannot overlap anywhere: neither is a prefix
   * of the other, and neither's first character reappears later in the other.
   */
  predicate Separate(pat: string, q: string) {
    |pat| > 0 && |q| > 0 && pat[0] !in q[1..] && q[0] !in pat[1..]
    && !StartsWith(pat, q) && !StartsWith(q, pat)
  }

  /** Text in front of a text that contains `q` keeps it contained. */
  lemma {:induction false} ContainsAfter(x: string, t: string, q: string)
    requires Contains(t, q)
    ensures Contains(x + t, q)
    decreases |x|
  {
    if |x| == 0 {
      assert x + t == t;
    } else {
      assert (x + t)[1..] == x[1..] + t;
      ContainsAfter(x[1..], t, q);
    }
  }

  /** Two patterns starting at the same index: one is a prefix of the other. */
  lemma SharedStart(s: string, pat: string, q: string, i: int)
    requires StartsWith(s, pat) && OccursAt(s, q, i)
    ensures i == 0 ==> StartsWith(pat, q) || StartsWith(q, pat)
  {
    if i == 0 {
      assert s[..|q|] == q;
      if |pat| <= |q| {
        assert q[..|pat|] == s[..|pat|];
      } else {
        assert pat[..|q|] == s[..|q|];
      }
    }
  }

  /** A pattern starting inside an occurrence of another shares its first character with it. */
  lemma InnerStart(s: string, outer: string, inner: string, i: int)
    requires StartsWith(s, outer)
    ensures OccursAt(s, inner, i) && 0 < i < |outer| && |inner| > 0 ==> inner[0] in outer[1..]
  {
    if OccursAt(s, inner, i) && 0 < i < |outer| && |inner| > 0 {
      assert inner[0] == s[i] == outer[i];
      assert outer[1..][i - 1] == outer[i];
    }
  }

  /** Where `pat` matches at the front, an occurrence of a separate `q` lies after the match. */
  lemma FrontMatchPrecedes(s: string, pat: string, q: string, i: int)
    requires Separate(pat, q) && StartsWith(s, pat) && OccursAt(s, q, i)
    ensures |pat| <= i
  {
    SharedStart(s, pat, q, i);
    InnerStart(s, pat, q, i);
  }

  /** Where `q` is at the front and `pat` is not, `pat` starts nowhere inside `q`. */
  lemma NoMatchInside(s: string, pat: string, q: string)
    requires Separate(pat, q) && StartsWith(s, q) && !StartsWith(s, pat)
    ensures forall p :: 0 <= p < |q| ==> !OccursAt(s, pat, p)
  {
    forall p | 0 <= p < |q|
      ensures !OccursAt(s, pat, p)
    {
      if p + |pat| <= |s| {
        assert s[0..|pat|] == s[..|pat|];
      }
      InnerStart(s, q, pat, p);
    }
  }

  /** A front that no match of `pat` touches is copied unchanged by `replace`. */
  lemma {:induction false} ReplaceAllCopiesFront(s: string, pat: string, rep: string, q: string)
    requires |pat| > 0 && StartsWith(s, q)
    requires forall p :: 0 <= p < |q| ==> !OccursAt(s, pat, p)
    ensures StartsWith(ReplaceAll(s, pat, rep), q)
    decreases |q|
  {
    if |q| > 0 && |pat| <= |s| {
      assert !OccursAt(s, pat, 0) && s[0..|pat|] == s[..|pat|];
      assert !StartsWith(s, pat);
      var t := s[1..];
      assert t[..|q| - 1] == q[1..];
      forall p | 0 <= p < |q[1..]|
        ensures !OccursAt(t, pat, p)
      {
        assert !OccursAt(s, pat, p + 1);
        if p + |pat| <= |t| {
          assert t[p..p + |pat|] == s[p + 1..p + 1 + |pat|];
        }
      }
      ReplaceAllCopiesFront(t, pat, rep, q[1..]);
      var r := ReplaceAll(t, pat, rep);
      assert ReplaceAll(s, pat, rep) == [s[0]] + r;
      assert ([s[0]] + r)[..|q|] == [s[0]] + r[..|q| - 1];
      assert q == [q[0]] + q[1..];
    }
  }

  /** `replace` keeps every occurrence of a pattern that cannot overlap the one replaced. */
  lemma {:induction false} ReplaceAllKeepsSeparate(s: string, pat: string, rep: string, q: string, i: int)
    requires Separate(pat, q) && OccursAt(s, q, i)
    ensures Contains(ReplaceAll(s, pat, rep), q)
    decreases |s|
  {
    if |s| < |pat| {
      OccurrenceIsContained(s, q, i);
    } else if StartsWith(s, pat) {
      FrontMatchPrecedes(s, pat, q, i);
      var t := s[|pat|..];
      assert t[i - |pat|..i - |pat| + |q|] == s[i..i + |q|];
      ReplaceAllKeepsSeparate(t, pat, rep, q, i - |pat|);
      ContainsAfter(rep, ReplaceAll(t, pat, rep), q);
    } else if i > 0 {
      var t := s[1..];
      assert t[i - 1..i - 1 + |q|] == s[i..i + |q|];
      ReplaceAllKeepsSeparate(t, pat, rep, q, i - 1);
      ContainsAfter([s[0]], ReplaceAll(t, pat, rep), q);
    } else {
      assert s[..|q|] == s[0..|q|];
      NoMatchInside(s, pat, q);
      ReplaceAllCopiesFront(s, pat, rep, q);
    }
  }
}
