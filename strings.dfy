/** String helpers: decimal numerals, two-decimal money text, ordering and case folding. */
module Strings {

  predicate IsDigit(c: char) {
    '0' <= c <= '9'
  }

  predicate AllDigits(s: string) {
    forall i :: 0 <= i < |s| ==> IsDigit(s[i])
  }

  function DigitChar(d: nat): (c: char)
    requires d < 10
    ensures IsDigit(c) && c as int - '0' as int == d
  {
    (d + '0' as int) as char
  }

  /** The decimal numeral of `n`, as `String(n)` writes it for a non-negative integer. */
  function NatToString(n: nat): (s: string)
    ensures |s| >= 1 && AllDigits(s)
    ensures n < 10 <==> |s| == 1
    decreases n
  {
    if n < 10 then [DigitChar(n)] else NatToString(n / 10) + [DigitChar(n % 10)]
  }

  /** The value of a string of decimal digits (the empty string reads as 0). */
  function ParseNat(s: string): nat
    requires AllDigits(s)
  {
    if s == [] then 0 else ParseNat(s[..|s| - 1]) * 10 + (s[|s| - 1] as int - '0' as int)
  }

  lemma {:induction false} ParseNatToString(n: nat)
    ensures ParseNat(NatToString(n)) == n
    decreases n
  {
    var s := NatToString(n);
    if n >= 10 {
      ParseNatToString(n / 10);
      assert s[..|s| - 1] == NatToString(n / 10);
    }
  }

  /** `x.toFixed(2)` for the money value `cents / 100`. */
  function FormatCents(cents: int): string {
    var m := if cents < 0 then -cents else cents;
    (if cents < 0 then "-" else "") + FixedBody(m / 100, m % 100)
  }

  /** The unsigned part `whole.dd` of a two-decimal money text. */
  function FixedBody(q: nat, r: nat): string
    requires r < 100
  {
    NatToString(q) + "." + [DigitChar(r / 10), DigitChar(r % 10)]
  }

  /** The shape `toFixed(2)` produces: an optional minus, digits, a point and two digits. */
  predicate IsFixed2(s: string) {
    var body := if |s| > 0 && s[0] == '-' then s[1..] else s;
    |body| >= 4 && body[|body| - 3] == '.'
    && AllDigits(body[..|body| - 3]) && AllDigits(body[|body| - 2..])
  }

  /** Reads a two-decimal money text back into cents. */
  function ParseCents(s: string): int
    requires IsFixed2(s)
  {
    var neg := |s| > 0 && s[0] == '-';
    var body := if neg then s[1..] else s;
    var v := ParseNat(body[..|body| - 3]) * 100 + ParseNat(body[|body| - 2..]);
    if neg then -v else v
  }

  lemma ParseTwoDigits(r: nat)
    requires r < 100
    ensures ParseNat([DigitChar(r / 10), DigitChar(r % 10)]) == r
  {
    var t := [DigitChar(r / 10), DigitChar(r % 10)];
    assert t[..1] == [t[0]];
    assert [t[0]][..0] == [];
    assert ParseNat([t[0]]) == r / 10;
    assert ParseNat(t) == ParseNat([t[0]]) * 10 + r % 10;
  }

  lemma FixedBodyParts(q: nat, r: nat)
    requires r < 100
    ensures var body := FixedBody(q, r);
      |body| >= 4 && body[0] != '-' && body[|body| - 3] == '.'
      && body[..|body| - 3] == NatToString(q)
      && body[|body| - 2..] == [DigitChar(r / 10), DigitChar(r % 10)]
  {
    var body := FixedBody(q, r);
    assert body[0] == NatToString(q)[0];
  }

  lemma ParseFixedBody(q: nat, r: nat, neg: bool)
    requires r < 100
    ensures var s := (if neg then "-" else "") + FixedBody(q, r);
      IsFixed2(s) && ParseCents(s) == if neg then -(q * 100 + r) else q * 100 + r
  {
    var body := FixedBody(q, r);
    FixedBodyParts(q, r);
    ParseNatToString(q);
    ParseTwoDigits(r);
    assert AllDigits(body[..|body| - 3]) && AllDigits(body[|body| - 2..]);
    assert ParseNat(body[..|body| - 3]) == q && ParseNat(body[|body| - 2..]) == r;
    var s := (if neg then "-" else "") + body;
    if neg {
      assert s[0] == '-' && s[1..] == body;
    } else {
      assert s == body;
    }
  }

  /** Formatting money with two decimals loses nothing: the text reads back to the same cents. */
  lemma FormatCentsRoundTrip(cents: int)
    ensures IsFixed2(FormatCents(cents))
    ensures ParseCents(FormatCents(cents)) == cents
  {
    var m := if cents < 0 then -cents else cents;
    ParseFixedBody(m / 100, m % 100, cents < 0);
  }

  /** Lexicographic order by character code: the order the store sorts ids in. */
  predicate LexLess(a: string, b: string) {
    if a == [] then b != []
    else if b == [] then false
    else a[0] < b[0] || (a[0] == b[0] && LexLess(a[1..], b[1..]))
  }

  lemma {:induction false} LexLessIrreflexive(a: string)
    ensures !LexLess(a, a)
  {
    if a != [] { LexLessIrreflexive(a[1..]); }
  }

  lemma {:induction false} LexLessTransitive(a: string, b: string, c: string)
    requires LexLess(a, b) && LexLess(b, c)
    ensures LexLess(a, c)
  {
    if a != [] && b != [] && c != [] && a[0] == b[0] == c[0] {
      LexLessTransitive(a[1..], b[1..], c[1..]);
    }
  }

  /** Any two distinct strings are ordered one way or the other. */
  lemma {:induction false} LexLessTotal(a: string, b: string)
    ensures a == b || LexLess(a, b) || LexLess(b, a)
  {
    if a != [] && b != [] && a[0] == b[0] {
      LexLessTotal(a[1..], b[1..]);
      if a[1..] == b[1..] {
        assert a == [a[0]] + a[1..] && b == [b[0]] + b[1..];
      }
    }
  }

  function LowerChar(c: char): char {
    if 'A' <= c <= 'Z' then (c as int + 32) as char else c
  }

  function UpperChar(c: char): char {
    if 'a' <= c <= 'z' then (c as int - 32) as char else c
  }

  /** `toLowerCase()` on the ASCII letters. */
  function ToLower(s: string): string {
    seq(|s|, i requires 0 <= i < |s| => LowerChar(s[i]))
  }

  /** `toUpperCase()` on the ASCII letters. */
  function ToUpper(s: string): string {
    seq(|s|, i requires 0 <= i < |s| => UpperChar(s[i]))
  }

  /** `s.includes(t)`: `t` occurs in `s` as a contiguous substring. */
  predicate Contains(s: string, t: string) {
    exists i :: 0 <= i <= |s| - |t| && OccursAt(s, t, i)
  }

  predicate OccursAt(s: string, t: string, i: int)
    requires 0 <= i <= |s| - |t|
  {
    s[i..i + |t|] == t
  }
}
