/** The pieces of Java text formatting the core relies on: `Integer.toString`,
    `String.format("%02x", b)` and `String.isBlank`. */
module Text {

  predicate IsDigit(c: char) { '0' <= c <= '9' }

  function DigitChar(d: nat): (c: char)
    requires d < 10
    ensures IsDigit(c) && c as int - '0' as int == d
  {
    (d + '0' as int) as char
  }

  /** Decimal text of a natural number, most significant digit first, no leading zeros. */
  function DecimalText(n: nat): (s: string)
    ensures 1 <= |s|
    ensures forall i :: 0 <= i < |s| ==> IsDigit(s[i])
    ensures n < 10 <==> |s| == 1
    ensures n >= 10 ==> s[0] != '0'
    decreases n
  {
    if n < 10 then [DigitChar(n)] else DecimalText(n / 10) + [DigitChar(n % 10)]
  }

  /** The number a string of decimal digits denotes. */
  function DecimalValue(s: string): (n: nat)
    requires forall i :: 0 <= i < |s| ==> IsDigit(s[i])
  {
    if s == [] then 0
    else
      assert IsDigit(s[|s| - 1]);
      DecimalValue(s[..|s| - 1]) * 10 + (s[|s| - 1] as int - '0' as int)
  }

  /** Reading back the decimal text of `n` gives `n`. */
  lemma {:induction false} DecimalRoundTrip(n: nat)
    ensures DecimalValue(DecimalText(n)) == n
  {
    if n >= 10 {
      var s := DecimalText(n);
      assert s[..|s| - 1] == DecimalText(n / 10);
      DecimalRoundTrip(n / 10);
    }
  }

  /** Decimal texts of octets are at most three digits long. */
  lemma {:induction false} DecimalTextOctetLength(n: nat)
    requires n < 256
    ensures |DecimalText(n)| <= 3
  {
    if n >= 10 {
      DecimalTextOctetLength(n / 10);
      assert n / 10 < 100 ==> |DecimalText(n / 10)| <= 2 by {
        if n / 10 >= 10 {
          assert n / 100 < 10;
          assert DecimalText(n / 10) == DecimalText(n / 100) + [DigitChar(n / 10 % 10)];
        }
      }
    }
  }

  /** `Integer.toString`: a minus sign before the magnitude of a negative number. */
  function IntText(n: int): (s: string)
    ensures n < 0 <==> (|s| > 0 && s[0] == '-')
  {
    if n < 0 then "-" + DecimalText(-n) else DecimalText(n)
  }

  /** A lower-case hexadecimal digit. */
  function HexDigit(d: nat): (c: char)
    requires d < 16
    ensures ('0' <= c <= '9') || ('a' <= c <= 'f')
  {
    if d < 10 then DigitChar(d) else (d - 10 + 'a' as int) as char
  }

  /** The value of a lower-case hexadecimal digit. */
  function HexValue(c: char): (d: nat)
    requires ('0' <= c <= '9') || ('a' <= c <= 'f')
    ensures d < 16
  {
    if c <= '9' then c as int - '0' as int else c as int - 'a' as int + 10
  }

  /** `String.format("%02x", b)` of an octet: two lower-case hex digits
      (Java adds 256 to a negative byte before formatting it). */
  function Hex2(b: nat): (s: string)
    requires b < 256
    ensures |s| == 2
  {
    [HexDigit(b / 16), HexDigit(b % 16)]
  }

  /** The two hex digits of an octet read back as that octet. */
  lemma Hex2RoundTrip(b: nat)
    requires b < 256
    ensures HexValue(Hex2(b)[0]) * 16 + HexValue(Hex2(b)[1]) == b
  {
  }

  /** `Character.isWhitespace`: the Unicode space, line and paragraph separators
      other than the no-break spaces, plus the ASCII controls TAB, LF, VT, FF, CR
      and FS, GS, RS, US. */
  predicate IsWhitespace(c: char) {
    c == ' ' || ('\t' <= c <= '\r') || ('\U{1C}' <= c <= '\U{1F}')
    || c == '\U{1680}' || ('\U{2000}' <= c <= '\U{2006}') || ('\U{2008}' <= c <= '\U{200A}')
    || c == '\U{2028}' || c == '\U{2029}' || c == '\U{205F}' || c == '\U{3000}'
  }

  /** `String.isBlank`: empty or whitespace only. */
  predicate IsBlank(s: string) {
    forall i :: 0 <= i < |s| ==> IsWhitespace(s[i])
  }
}
