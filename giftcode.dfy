/** Gift codes: `PRESENTE-` followed by four random bytes written as upper-case
    hexadecimal (index.js:1846-1853). The random bytes are a parameter. */
module GiftCodes {
  import opened Text
  import opened JsNumbers

  /** One random byte. */
  newtype Byte = b: int | 0 <= b < 256

  const CodePrefix: string := "PRESENTE-"

  function UpperHexDigit(d: nat): (c: char)
    requires d < 16
    ensures IsHexDigit(c) && HexDigitValue(c) == d && !('a' <= c <= 'z')
  {
    if d < 10 then DigitChar(d) else ('A' as int + d - 10) as char
  }

  /** `buffer.toString('hex').toUpperCase()`: two digits per byte, high nibble first. */
  function HexUpper(bytes: seq<Byte>): (s: string)
    ensures |s| == 2 * |bytes| && NoLower(s)
    ensures forall i :: 0 <= i < |s| ==> IsHexDigit(s[i])
  {
    if bytes == [] then []
    else
      var b := bytes[0] as int;
      [UpperHexDigit(b / 16), UpperHexDigit(b % 16)] + HexUpper(bytes[1..])
  }

  /** The code `/criar-presente` stores for a given draw of random bytes: the draw of
      four bytes gives `PRESENTE-` and eight upper-case hexadecimal digits. */
  function GiftCode(bytes: seq<Byte>): (code: string)
    ensures CodePrefix <= code && |code| == |CodePrefix| + 2 * |bytes|
    ensures forall i :: |CodePrefix| <= i < |code| ==> IsHexDigit(code[i])
    ensures NoLower(code)
    ensures |bytes| == 4 ==> |code| == 17
  {
    CodePrefix + HexUpper(bytes)
  }

  /** Reads pairs of hexadecimal digits back into bytes. */
  function HexBytes(s: string): seq<Byte>
    requires |s| % 2 == 0 && forall i :: 0 <= i < |s| ==> IsHexDigit(s[i])
  {
    if s == [] then [] else [(HexDigitValue(s[0]) * 16 + HexDigitValue(s[1])) as Byte] + HexBytes(s[2..])
  }

  /** The code determines the bytes it was drawn from: no two draws share a code. */
  lemma GiftCodeDecodes(bytes: seq<Byte>)
    ensures GiftCode(bytes)[|CodePrefix|..] == HexUpper(bytes)
    ensures HexBytes(HexUpper(bytes)) == bytes
  {
    assert (CodePrefix + HexUpper(bytes))[|CodePrefix|..] == HexUpper(bytes);
    HexRoundTrip(bytes);
  }

  lemma {:induction false} HexRoundTrip(bytes: seq<Byte>)
    ensures HexBytes(HexUpper(bytes)) == bytes
  {
    if bytes != [] {
      var rest := bytes[1..];
      assert [bytes[0]] + rest == bytes;
      var s := HexUpper(bytes);
      var b := bytes[0] as int;
      assert s[2..] == HexUpper(rest);
      assert HexDigitValue(s[0]) == b / 16 && HexDigitValue(s[1]) == b % 16;
      assert HexBytes(s) == [bytes[0]] + HexBytes(HexUpper(rest));
      HexRoundTrip(rest);
    }
  }

  /** Redeeming upper-cases what the user typed, so a generated code is found however
      its letters were typed. */
  lemma {:induction false} TypedInAnyCase(typed: string, code: string)
    requires NoLower(code) && EqualsIgnoreCase(typed, code)
    ensures Upper(typed) == code
  {
    forall i | 0 <= i < |typed| ensures UpperChar(typed[i]) == code[i] {
      assert LowerChar(typed[i]) == LowerChar(code[i]);
    }
  }
}
