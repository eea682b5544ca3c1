/**
  The parts of java.lang.String and java.util.Formatter that the services
  rely on: the three different "is this text empty?" tests, decimal
  rendering of counts and zero-padded fields, and the order of
  String.compareTo.
 */
module JavaText {

  /** Character.isWhitespace: the Unicode space, line and paragraph
      separators except the three no-break spaces (U+00A0, U+2007, U+202F),
      and the controls U+0009..U+000D and U+001C..U+001F. */
  predicate IsWhitespace(c: char) {
    ('\t' <= c <= '\r') || ('\U{1C}' <= c <= '\U{1F}') || c == ' '
    || c == '\U{1680}' || ('\U{2000}' <= c <= '\U{2006}') || ('\U{2008}' <= c <= '\U{200A}')
    || c == '\U{2028}' || c == '\U{2029}' || c == '\U{205F}' || c == '\U{3000}'
  }

  /** String.isBlank: every character is whitespace (the empty string too). */
  predicate IsBlank(s: string) {
    forall i | 0 <= i < |s| :: IsWhitespace(s[i])
  }

  /** s.trim().isEmpty(): trim removes every character up to U+0020. */
  predicate TrimsToEmpty(s: string) {
    forall i | 0 <= i < |s| :: s[i] <= ' '
  }

  predicate IsDigit(c: char) {
    '0' <= c <= '9'
  }

  function DigitChar(d: nat): (c: char)
    requires d < 10
    ensures IsDigit(c) && c as int - '0' as int == d
  {
    ('0' as int + d) as char
  }

  function Pow10(n: nat): (p: nat)
    ensures p >= 1
  {
    if n == 0 then 1 else 10 * Pow10(n - 1)
  }

  /** The value of a string of decimal digits, most significant first. */
  function DecimalValue(s: string): nat
    requires forall i | 0 <= i < |s| :: IsDigit(s[i])
  {
    if s == [] then 0
    else
      assert IsDigit(s[|s| - 1]);
      10 * DecimalValue(s[..|s| - 1]) + (s[|s| - 1] as int - '0' as int)
  }

  /** Formatter "%d" of a non-negative int: no sign, no leading zeros. */
  function NatToString(n: nat): (s: string)
    ensures |s| >= 1 && forall i | 0 <= i < |s| :: IsDigit(s[i])
    ensures DecimalValue(s) == n
    ensures |s| > 1 ==> s[0] != '0'
  {
    if n < 10 then [DigitChar(n)]
    else
      var p := NatToString(n / 10);
      var s := p + [DigitChar(n % 10)];
      assert s[..|s| - 1] == p;
      s
  }

  /** The last w decimal digits of n, zero-padded to exactly w characters
      (the fixed-width fields of a DateTimeFormatter pattern). */
  function PaddedDigits(n: nat, w: nat): (s: string)
    ensures |s| == w && forall i | 0 <= i < |s| :: IsDigit(s[i])
  {
    if w == 0 then [] else PaddedDigits(n / 10, w - 1) + [DigitChar(n % 10)]
  }

  lemma {:induction false} PaddedDigitsValue(n: nat, w: nat)
    requires n < Pow10(w)
    ensures DecimalValue(PaddedDigits(n, w)) == n
  {
    if w > 0 {
      PaddedDigitsValue(n / 10, w - 1);
      var s := PaddedDigits(n, w);
      assert s[..|s| - 1] == PaddedDigits(n / 10, w - 1);
    }
  }

  /** String.compareTo(a, b) < 0: the first differing character decides,
      and a proper prefix comes first. */
  predicate LexLess(a: string, b: string) {
    if a == [] then b != []
    else if b == [] then false
    else a[0] < b[0] || (a[0] == b[0] && LexLess(a[1..], b[1..]))
  }

  lemma {:induction false} LexLessIrreflexive(a: string)
    ensures !LexLess(a, a)
  {
    if a != [] {
      LexLessIrreflexive(a[1..]);
    }
  }

  /** Comparing two concatenations whose first parts have the same length
      compares the first parts, then the second parts. */
  lemma {:induction false} LexLessConcat(a: string, c: string, b: string, d: string)
    requires |a| == |b|
    ensures LexLess(a + c, b + d) <==> LexLess(a, b) || (a == b && LexLess(c, d))
  {
    if a != [] {
      assert (a + c)[1..] == a[1..] + c;
      assert (b + d)[1..] == b[1..] + d;
      LexLessConcat(a[1..], c, b[1..], d);
      if a[0] == b[0] && a[1..] == b[1..] {
        assert a == [a[0]] + a[1..] && b == [b[0]] + b[1..];
      }
    } else {
      assert a + c == c && b + d == d;
    }
  }

  /** Zero-padded fields of one width compare as text exactly as their
      values compare as numbers. */
  lemma {:induction false} PaddedDigitsOrder(x: nat, y: nat, w: nat)
    requires x < Pow10(w) && y < Pow10(w)
    ensures LexLess(PaddedDigits(x, w), PaddedDigits(y, w)) <==> x < y
  {
    if w == 0 {
    } else {
      var px, py := PaddedDigits(x / 10, w - 1), PaddedDigits(y / 10, w - 1);
      var cx, cy := [DigitChar(x % 10)], [DigitChar(y % 10)];
      LexLessConcat(px, cx, py, cy);
      PaddedDigitsOrder(x / 10, y / 10, w - 1);
      PaddedDigitsInjective(x / 10, y / 10, w - 1);
      assert LexLess(cx, cy) <==> x % 10 < y % 10 by {
        assert cx[1..] == [] && cy[1..] == [];
      }
    }
  }

  lemma {:induction false} PaddedDigitsInjective(x: nat, y: nat, w: nat)
    requires x < Pow10(w) && y < Pow10(w)
    ensures PaddedDigits(x, w) == PaddedDigits(y, w) <==> x == y
  {
    if PaddedDigits(x, w) == PaddedDigits(y, w) {
      PaddedDigitsValue(x, w);
      PaddedDigitsValue(y, w);
    }
  }
}
