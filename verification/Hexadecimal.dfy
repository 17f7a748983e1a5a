/** Four-digit hexadecimal numbers, written in upper case and read in either. */
module Hexadecimal {
  import opened Wrappers

  const HEX := "0123456789ABCDEF"

  function HexDigit(d: nat): char
    requires d < 16
  {
    HEX[d]
  }

  function HexValue(c: char): Option<nat> {
    if '0' <= c <= '9' then Some(c as int - '0' as int)
    else if 'A' <= c <= 'F' then Some(c as int - 'A' as int + 10)
    else if 'a' <= c <= 'f' then Some(c as int - 'a' as int + 10)
    else None
  }

  function ReadHex(s: string, acc: nat): Option<nat> {
    if s == "" then Some(acc)
    else match HexValue(s[0])
      case None => None
      case Some(d) => ReadHex(s[1..], acc * 16 + d)
  }

  function Hex4(n: nat): string
    requires n < 0x1_0000
  {
    [HexDigit(n / 4096), HexDigit(n / 256 % 16), HexDigit(n / 16 % 16), HexDigit(n % 16)]
  }

  lemma DigitReadsBack(d: nat)
    requires d < 16
    ensures HexValue(HexDigit(d)) == Some(d)
  {
  }

  lemma ReadHexStep(d: nat, rest: string, acc: nat)
    requires d < 16
    ensures ReadHex([HexDigit(d)] + rest, acc) == ReadHex(rest, acc * 16 + d)
  {
    DigitReadsBack(d);
    assert ([HexDigit(d)] + rest)[1..] == rest;
    hide HexDigit, HexValue;
  }

  lemma ReadHexEnd(acc: nat)
    ensures ReadHex("", acc) == Some(acc)
  {
  }

  lemma FourDigits(a: nat, b: nat, c: nat, d: nat)
    requires a < 16 && b < 16 && c < 16 && d < 16
    ensures ReadHex([HexDigit(a), HexDigit(b), HexDigit(c), HexDigit(d)], 0) == Some(((a * 16 + b) * 16 + c) * 16 + d)
  {
    hide *;
    Chained(HexDigit(a), HexDigit(b), HexDigit(c), HexDigit(d));
    ReadHexStep(a, [HexDigit(b), HexDigit(c), HexDigit(d)], 0);
    ReadHexStep(b, [HexDigit(c), HexDigit(d)], a);
    ReadHexStep(c, [HexDigit(d)], a * 16 + b);
    ReadHexStep(d, "", (a * 16 + b) * 16 + c);
    ReadHexEnd(((a * 16 + b) * 16 + c) * 16 + d);
  }

  lemma Chained(x: char, y: char, z: char, t: char)
    ensures [x, y, z, t] == [x] + [y, z, t] && [y, z, t] == [y] + [z, t] && [z, t] == [z] + [t] && [t] == [t] + ""
  {
  }

  lemma HexArithmetic(n: nat)
    ensures ((n / 4096 * 16 + n / 256 % 16) * 16 + n / 16 % 16) * 16 + n % 16 == n
  {
    assert n / 16 / 16 == n / 256 && n / 256 / 16 == n / 4096;
  }

  lemma HexReadsBack(n: nat)
    requires n < 0x1_0000
    ensures ReadHex(Hex4(n), 0) == Some(n)
  {
    FourDigits(n / 4096, n / 256 % 16, n / 16 % 16, n % 16);
    HexArithmetic(n);
    hide ReadHex, HexDigit;
  }

  /** Hexadecimal digits are neither quotes nor backslashes. */
  lemma {:induction false} HexIsUnquoted(s: string, acc: nat)
    requires ReadHex(s, acc).Some?
    ensures forall i :: 0 <= i < |s| ==> s[i] != '"' && s[i] != '\\'
    decreases |s|
  {
    if s != "" {
      HexIsUnquoted(s[1..], acc * 16 + HexValue(s[0]).value);
      assert s == [s[0]] + s[1..];
    }
  }
}
