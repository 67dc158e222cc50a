/// Text helpers used by the listing: Python's ordering of `str` values,
/// decimal numerals, and the way a price is printed. Prices are held in
/// whole cents; a price prints as Python prints the float `cents / 100`.
module Text {

  /** Python's `a <= b` on `str`: code point by code point, a proper prefix first. */
  predicate LexLe(a: string, b: string)
  {
    a == [] || (b != [] && (a[0] < b[0] || (a[0] == b[0] && LexLe(a[1..], b[1..]))))
  }

  lemma {:induction false} LexLeReflexive(a: string)
    ensures LexLe(a, a)
  {
    if a != [] {
      LexLeReflexive(a[1..]);
    }
  }

  lemma {:induction false} LexLeTotal(a: string, b: string)
    ensures LexLe(a, b) || LexLe(b, a)
  {
    if a != [] && b != [] && a[0] == b[0] {
      LexLeTotal(a[1..], b[1..]);
    }
  }

  lemma {:induction false} LexLeAntisymmetric(a: string, b: string)
    requires LexLe(a, b) && LexLe(b, a)
    ensures a == b
  {
    if a != [] && b != [] {
      LexLeAntisymmetric(a[1..], b[1..]);
      assert a == [a[0]] + a[1..] && b == [b[0]] + b[1..];
    }
  }

  lemma {:induction false} LexLeTransitive(a: string, b: string, c: string)
    requires LexLe(a, b) && LexLe(b, c)
    ensures LexLe(a, c)
  {
    if a != [] && b != [] && c != [] && a[0] == b[0] && b[0] == c[0] {
      LexLeTransitive(a[1..], b[1..], c[1..]);
    }
  }

  predicate IsDigit(c: char)
  {
    '0' <= c <= '9'
  }

  predicate IsDigits(s: string)
  {
    forall i :: 0 <= i < |s| ==> IsDigit(s[i])
  }

  function DigitChar(d: nat): (c: char)
    requires d < 10
    ensures IsDigit(c)
  {
    ('0' as int + d) as char
  }

  function DigitValue(c: char): (d: nat)
    requires IsDigit(c)
    ensures d < 10 && DigitChar(d) == c
  {
    c as int - '0' as int
  }

  /** `str(n)` for a non-negative integer: its decimal digits, most significant first. */
  function NatToString(n: nat): (s: string)
    ensures |s| > 0 && IsDigits(s)
    ensures |s| == 1 <==> n < 10
  {
    if n < 10 then [DigitChar(n)] else NatToString(n / 10) + [DigitChar(n % 10)]
  }

  /** The value of a string of decimal digits (the empty string reads as 0). */
  function ParseDigits(s: string): nat
    requires IsDigits(s)
  {
    if s == [] then 0 else 10 * ParseDigits(s[..|s| - 1]) + DigitValue(s[|s| - 1])
  }

  /** Printing a number in decimal loses nothing: reading the digits back gives it again. */
  lemma {:induction false} NatToStringRoundTrip(n: nat)
    ensures ParseDigits(NatToString(n)) == n
  {
    if n >= 10 {
      var s := NatToString(n);
      assert s[..|s| - 1] == NatToString(n / 10);
      NatToStringRoundTrip(n / 10);
    }
  }

  /** Python's repr of the float `c / 100` for a price with at most two decimals:
      1250 cents print as "12.5", 1200 as "12.0", 1205 as "12.05". */
  function FormatCents(c: nat): (s: string)
    ensures |s| >= 3
    ensures forall i :: 0 <= i < |s| ==> IsDigit(s[i]) || s[i] == '.'
    ensures '[' !in s && ']' !in s
  {
    var whole, frac := c / 100, c % 100;
    NatToString(whole) + "." +
      (if frac % 10 == 0 then [DigitChar(frac / 10)] else [DigitChar(frac / 10), DigitChar(frac % 10)])
  }

  /** Index of the first `c` in `s`, or `|s|` when there is none. */
  function IndexOf(s: string, c: char): (k: nat)
    ensures k <= |s|
    ensures k < |s| ==> s[k] == c
    ensures forall i :: 0 <= i < k ==> s[i] != c
  {
    if s == [] then 0 else if s[0] == c then 0 else 1 + IndexOf(s[1..], c)
  }

  /** Index of the last `c` in `s`, or `|s|` when there is none. */
  function LastIndexOf(s: string, c: char): (k: nat)
    ensures k <= |s|
    ensures k < |s| ==> s[k] == c && forall i :: k < i < |s| ==> s[i] != c
    ensures k == |s| ==> c !in s
  {
    if s == [] then 0
    else if s[|s| - 1] == c then |s| - 1
    else
      var k := LastIndexOf(s[..|s| - 1], c);
      if k == |s| - 1 then |s| else k
  }

  /** The well-formed price texts: digits, one '.', then one or two digits. */
  predicate IsPriceText(s: string)
  {
    var k := IndexOf(s, '.');
    k < |s| && IsDigits(s[..k]) && IsDigits(s[k + 1..]) && 1 <= |s| - (k + 1) <= 2
  }

  /** Reads a price text back into cents. */
  function ParseCents(s: string): nat
    requires IsPriceText(s)
  {
    var k := IndexOf(s, '.');
    var f := s[k + 1..];
    100 * ParseDigits(s[..k]) + 10 * DigitValue(f[0]) + (if |f| == 2 then DigitValue(f[1]) else 0)
  }

  /** A printed price reads back as the same number of cents, so two different
      prices never print alike. */
  lemma FormatCentsRoundTrip(c: nat)
    ensures IsPriceText(FormatCents(c)) && ParseCents(FormatCents(c)) == c
  {
    var w := NatToString(c / 100);
    var s := FormatCents(c);
    assert s[|w|] == '.';
    assert IndexOf(s, '.') == |w|;
    assert s[..|w|] == w;
    NatToStringRoundTrip(c / 100);
  }

  /** The spelling Scryfall's `prices` use: the whole part, a dot and always
      two decimals, so 1250 cents are "12.50" and 1200 are "12.00". */
  function TwoDecimals(c: nat): (s: string)
    ensures |s| >= 4 && s[|s| - 3] == '.'
    ensures forall i :: 0 <= i < |s| ==> IsDigit(s[i]) || s[i] == '.'
  {
    var whole, frac := c / 100, c % 100;
    NatToString(whole) + "." + [DigitChar(frac / 10), DigitChar(frac % 10)]
  }

  /** The two-decimal spelling reads back as the same number of cents. */
  lemma TwoDecimalsRoundTrip(c: nat)
    ensures IsPriceText(TwoDecimals(c)) && ParseCents(TwoDecimals(c)) == c
  {
    var w, frac := NatToString(c / 100), c % 100;
    var s := TwoDecimals(c);
    assert s == w + "." + [DigitChar(frac / 10), DigitChar(frac % 10)];
    assert s[|w|] == '.';
    assert IndexOf(s, '.') == |w|;
    assert s[..|w|] == w;
    assert s[|w| + 1..] == [DigitChar(frac / 10), DigitChar(frac % 10)];
    NatToStringRoundTrip(c / 100);
    assert c == 100 * (c / 100) + 10 * (frac / 10) + frac % 10;
  }

  predicate StartsWith(s: string, prefix: string)
  {
    |prefix| <= |s| && s[..|prefix|] == prefix
  }

  /** A concatenation starts with its first part, and with its first two parts. */
  lemma StartsWithAppend(a: string, b: string, c: string)
    ensures StartsWith(a + b + c, a) && StartsWith(a + b + c, a + b)
  {
    assert (a + b + c)[..|a|] == a;
    assert (a + b + c)[..|a + b|] == a + b;
  }

  /** `sep.join(parts)`. */
  function Join(parts: seq<string>, sep: string): string
  {
    if parts == [] then ""
    else if |parts| == 1 then parts[0]
    else parts[0] + sep + Join(parts[1..], sep)
  }
}
