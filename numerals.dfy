/**
 * Positional numerals in bases 2 to 16 with lowercase digits: the text that
 * Java's Integer.toHexString (base 16) and Integer.toString (base 10) produce
 * for a non-negative int, and the parser that reads such text back.
 */
module Numerals {

  /** An 8-bit colour channel, 0 to 255, the range two hex digits write. */
  type Channel = x: int | 0 <= x < 256

  predicate IsLowerHexDigit(c: char) {
    '0' <= c <= '9' || 'a' <= c <= 'f'
  }

  /** The lowercase character of digit d. */
  function DigitChar(d: nat): (c: char)
    requires d < 16
    ensures IsLowerHexDigit(c)
  {
    if d < 10 then ('0' as int + d) as char else ('a' as int + (d - 10)) as char
  }

  /** The value of a lowercase hexadecimal digit. */
  function DigitValue(c: char): (d: nat)
    requires IsLowerHexDigit(c)
    ensures d < 16 && DigitChar(d) == c
  {
    if c <= '9' then c as int - '0' as int else c as int - 'a' as int + 10
  }

  /** Every character of s is a digit of the given base. */
  predicate IsNumeral(s: string, base: nat) {
    forall i :: 0 <= i < |s| ==> IsLowerHexDigit(s[i]) && DigitValue(s[i]) < base
  }

  /** The shortest digit string of n in the given base (no leading zero, "0" for zero). */
  function Numeral(n: nat, base: nat): (s: string)
    requires 2 <= base <= 16
    ensures 1 <= |s| && IsNumeral(s, base)
    ensures |s| == 1 <==> n < base
    ensures n < base * base ==> |s| <= 2
    ensures s[0] == '0' ==> n == 0
    decreases n
  {
    if n < base then [DigitChar(n)]
    else
      DivModFacts(n, base);
      Numeral(n / base, base) + [DigitChar(n % base)]
  }

  /** What the recursion of Numeral needs of Euclidean division by the base. */
  lemma DivModFacts(n: nat, base: nat)
    requires 2 <= base <= n
    ensures 1 <= n / base < n && n % base < base
    ensures n == n / base * base + n % base
    ensures n < base * base ==> n / base < base
  {
    var q, r := n / base, n % base;
    assert n == q * base + r && 0 <= r < base;
    if q < 1 {
      MulLeft(base, q, 0);
    }
    MulLeft(q, 2, base);
    if n < base * base && q >= base {
      MulLeft(base, base, q);
    }
  }

  lemma MulLeft(a: int, b: int, c: int)
    requires 0 <= a && b <= c
    ensures a * b <= a * c
  {
  }

  /** The value of a digit string, most significant digit first. */
  function ParseNumeral(s: string, base: nat): nat
    requires IsNumeral(s, base)
  {
    if s == [] then 0
    else ParseNumeral(s[..|s| - 1], base) * base + DigitValue(s[|s| - 1])
  }

  /** Reading a numeral back gives the number it was written from. */
  lemma {:induction false} ParseNumeralOfNumeral(n: nat, base: nat)
    requires 2 <= base <= 16
    ensures ParseNumeral(Numeral(n, base), base) == n
    decreases n
  {
    if n >= base {
      DivModFacts(n, base);
      var q, r := n / base, n % base;
      var front := Numeral(q, base);
      var s := Numeral(n, base);
      assert s == front + [DigitChar(r)];
      assert s[..|s| - 1] == front && DigitValue(s[|s| - 1]) == r;
      ParseNumeralOfNumeral(q, base);
      assert ParseNumeral(s, base) == q * base + r;
    }
  }

  /** Java's decimal text of an int, as `width + "px"` concatenates it. */
  function DecimalString(n: int): (s: string)
    ensures 1 <= |s|
    ensures s[0] == '-' <==> n < 0
  {
    if n < 0 then "-" + Numeral(-n, 10) else Numeral(n, 10)
  }

  /** An optional minus sign followed by decimal digits. */
  predicate IsDecimal(s: string) {
    s != [] && (if s[0] == '-' then IsNumeral(s[1..], 10) else IsNumeral(s, 10))
  }

  /** Reads an optionally signed decimal numeral. */
  function ParseDecimal(s: string): int
    requires IsDecimal(s)
  {
    if s[0] == '-' then 0 - ParseNumeral(s[1..], 10) else ParseNumeral(s, 10)
  }

  /** The decimal text of every int reads back as that int. */
  lemma DecimalStringRoundTrip(n: int)
    ensures IsDecimal(DecimalString(n)) && ParseDecimal(DecimalString(n)) == n
  {
    var s := DecimalString(n);
    if n < 0 {
      var digits := Numeral(-n, 10);
      assert s == "-" + digits;
      assert s[1..] == digits;
      ParseNumeralOfNumeral(-n, 10);
    } else {
      var digits := Numeral(n, 10);
      assert digits[0] != '-';
      ParseNumeralOfNumeral(n, 10);
    }
  }
}
