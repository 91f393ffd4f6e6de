/** The printed form of an MD5 digest. The digest itself is a parameter: any function from text to sixteen bytes. */
module Crypto {

  type Byte = b: int | 0 <= b < 256
  type Digest = d: seq<Byte> | |d| == 16 witness seq(16, _ => 0)

  function Digit(v: nat): char
    requires v < 16
  {
    if v < 10 then ('0' as int + v) as char else ('a' as int + v - 10) as char
  }

  /** A number streamed with std::hex: no leading zeros. */
  function HexNumber(n: nat): string {
    if n < 16 then [Digit(n)] else HexNumber(n / 16) + [Digit(n % 16)]
  }

  /** std::setw with std::setfill: padding on the left, never truncation. */
  function PadLeft(text: string, width: nat, fill: char): string
    decreases width - |text|
  {
    if |text| >= width then text else PadLeft([fill] + text, width, fill)
  }

  function Hex(bytes: seq<Byte>): string {
    if |bytes| == 0 then ""
    else Hex(bytes[..|bytes| - 1]) + PadLeft(HexNumber(bytes[|bytes| - 1]), 2, '0')
  }

  function Md5(digestOf: string -> Digest, text: string): string {
    Hex(digestOf(text))
  }

  method HexDigest(digest: Digest) returns (text: string)
    ensures text == Hex(digest)
  {
    text := "";
    for i := 0 to 16
      invariant text == Hex(digest[..i])
    {
      assert digest[..i + 1][..i] == digest[..i];
      text := text + PadLeft(HexNumber(digest[i]), 2, '0');
    }
    assert digest[..16] == digest;
  }

  /** The value of a digit, or 16 for any other character. */
  function DigitValue(c: char): (v: nat)
    ensures v <= 16
  {
    if '0' <= c <= '9' then c as int - '0' as int
    else if 'a' <= c <= 'f' then c as int - 'a' as int + 10
    else 16
  }

  predicate IsHex(text: string) {
    forall i :: 0 <= i < |text| ==> DigitValue(text[i]) < 16
  }

  /** Two digits a byte. */
  function Unhex(text: string): seq<nat> {
    if |text| < 2 then []
    else Unhex(text[..|text| - 2]) + [DigitValue(text[|text| - 2]) * 16 + DigitValue(text[|text| - 1])]
  }

  lemma DigitRoundTrip(v: nat)
    requires v < 16
    ensures DigitValue(Digit(v)) == v
  {}

  /** Any byte prints as exactly two digits, the high one first. */
  lemma HexByte(b: Byte)
    ensures var text := PadLeft(HexNumber(b), 2, '0');
            && |text| == 2 && DigitValue(text[0]) < 16 && DigitValue(text[1]) < 16
            && DigitValue(text[0]) * 16 + DigitValue(text[1]) == b
  {
    if b < 16 {
      DigitRoundTrip(0);
      DigitRoundTrip(b);
      assert PadLeft(['0', Digit(b)], 2, '0') == ['0', Digit(b)];
      assert ['0'] + [Digit(b)] == ['0', Digit(b)];
    } else {
      DigitRoundTrip(b / 16);
      DigitRoundTrip(b % 16);
      assert HexNumber(b) == [Digit(b / 16)] + [Digit(b % 16)];
    }
  }

  /** Printing is invertible, and a digest prints as exactly 32 lowercase digits. */
  lemma {:induction false} HexRoundTrip(bytes: seq<Byte>)
    ensures |Hex(bytes)| == 2 * |bytes| && IsHex(Hex(bytes))
    ensures Unhex(Hex(bytes)) == bytes
  {
    if |bytes| > 0 {
      var init, last := bytes[..|bytes| - 1], bytes[|bytes| - 1];
      HexRoundTrip(init);
      HexByte(last);
      UnhexAppend(Hex(init), PadLeft(HexNumber(last), 2, '0'));
      assert init + [last] == bytes;
    }
  }

  lemma UnhexAppend(text: string, pair: string)
    requires |pair| == 2
    ensures Unhex(text + pair) == Unhex(text) + [DigitValue(pair[0]) * 16 + DigitValue(pair[1])]
    ensures IsHex(text) && DigitValue(pair[0]) < 16 && DigitValue(pair[1]) < 16 ==> IsHex(text + pair)
  {
    assert (text + pair)[..|text|] == text;
  }

  lemma Md5Is32Digits(digestOf: string -> Digest, text: string)
    ensures |Md5(digestOf, text)| == 32 && IsHex(Md5(digestOf, text))
  {
    HexRoundTrip(digestOf(text));
  }
}
