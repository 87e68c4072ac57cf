/**
 * Text as the store and the forms see it.
 *
 * SQLite compares TEXT values under the BINARY collation: byte by byte over
 * their UTF-8 encoding, which is the lexicographic order of code points, a
 * proper prefix sorting first. Dates are kept as 'YYYY-MM-DD' text and sale
 * stamps as 'YYYY-MM-DD HH:MM:SS' text, so every date comparison in the store
 * is this order, not a calendar one.
 */
module Text {

  /** `a <= b` between two TEXT values. */
  predicate LexLe(a: string, b: string)
  {
    |a| == 0 || (|b| > 0 && (a[0] < b[0] || (a[0] == b[0] && LexLe(a[1..], b[1..]))))
  }

  /** `lo <= x AND x <= hi`, which is also what `x BETWEEN lo AND hi` means. */
  predicate InClosedRange(lo: string, x: string, hi: string)
  {
    LexLe(lo, x) && LexLe(x, hi)
  }

  lemma {:induction false} LexLeReflexive(a: string)
    ensures LexLe(a, a)
  {
    if |a| > 0 {
      LexLeReflexive(a[1..]);
    }
  }

  lemma {:induction false} LexLeAntisymmetric(a: string, b: string)
    requires LexLe(a, b) && LexLe(b, a)
    ensures a == b
  {
    if |a| > 0 {
      LexLeAntisymmetric(a[1..], b[1..]);
      assert a == [a[0]] + a[1..] && b == [b[0]] + b[1..];
    }
  }

  lemma {:induction false} LexLeTransitive(a: string, b: string, c: string)
    requires LexLe(a, b) && LexLe(b, c)
    ensures LexLe(a, c)
  {
    if |a| > 0 && a[0] == b[0] && b[0] == c[0] {
      LexLeTransitive(a[1..], b[1..], c[1..]);
    }
  }

  /** A string sorts no lower than any of its prefixes. */
  lemma {:induction false} PrefixLexLe(a: string, n: nat)
    requires n <= |a|
    ensures LexLe(a[..n], a)
  {
    if n > 0 {
      PrefixLexLe(a[1..], n - 1);
      assert a[..n][1..] == a[1..][..n - 1];
    }
  }

  /** A bound no longer than n that sorts below d also sorts below d's first n characters. */
  lemma {:induction false} LexLeTruncate(a: string, d: string, n: nat)
    requires LexLe(a, d) && |a| <= n <= |d|
    ensures LexLe(a, d[..n])
  {
    if |a| > 0 && a[0] == d[0] {
      LexLeTruncate(a[1..], d[1..], n - 1);
      assert d[..n][1..] == d[1..][..n - 1];
    }
  }

  /** An empty range holds nothing: if lo sorts above hi, no x lies between them. */
  lemma EmptyRange(lo: string, x: string, hi: string)
    requires !LexLe(lo, hi)
    ensures !InClosedRange(lo, x, hi)
  {
    if InClosedRange(lo, x, hi) {
      LexLeTransitive(lo, x, hi);
    }
  }

  /** Python's `str.isspace` for one character: the characters `str.strip()` removes. */
  predicate IsSpace(c: char)
  {
    || c == ' '
    || '\t' <= c <= '\r'
    || '\U{1C}' <= c <= '\U{1F}'
    || c == '\U{85}' || c == '\U{A0}' || c == '\U{1680}'
    || '\U{2000}' <= c <= '\U{200A}'
    || c == '\U{2028}' || c == '\U{2029}' || c == '\U{202F}' || c == '\U{205F}' || c == '\U{3000}'
  }

  /** `not s.strip()`: nothing but whitespace is left, or nothing at all. */
  predicate IsBlank(s: string)
  {
    forall i :: 0 <= i < |s| ==> IsSpace(s[i])
  }

  predicate IsDigit(c: char)
  {
    '0' <= c <= '9'
  }

  /** `s.isdigit()`: at least one character, and every character a digit. */
  predicate IsDigits(s: string)
  {
    |s| > 0 && forall i :: 0 <= i < |s| ==> IsDigit(s[i])
  }

}
