/** JavaScript's `parseInt` as the handlers use it, on unbounded integers.
    `None` is the `NaN` that `parseInt` returns when no digit follows the sign. */
module JsNumbers {
  import opened Wrappers
  import opened Text

  /** After the leading whitespace, an optional sign and at least one decimal digit. */
  predicate HasDigitsAfterSign(t: string) {
    (t != [] && IsDigit(t[0])) || (|t| >= 2 && (t[0] == '+' || t[0] == '-') && IsDigit(t[1]))
  }

  /** The text after an optional leading `+` or `-`. */
  function Unsigned(t: string): (u: string)
    ensures u == t || (t != [] && (t[0] == '+' || t[0] == '-') && u == t[1..])
  {
    if t != [] && (t[0] == '+' || t[0] == '-') then t[1..] else t
  }

  /** `parseInt(s, 10)`: whitespace, an optional sign, then the longest run of decimal
      digits; anything after the digits is ignored. */
  function ParseInt(s: string): (r: Option<int>)
    ensures r.Some? <==> HasDigitsAfterSign(TrimStart(s))
    ensures r.Some? && r.value < 0 ==> TrimStart(s)[0] == '-'
  {
    var t := TrimStart(s);
    var u := Unsigned(t);
    var d := LeadingDigits(u);
    assert d != [] <==> u != [] && IsDigit(u[0]);
    var v: int := DigitsValue(d);
    if d == [] then None
    else if t[0] == '-' then Some(-v)
    else Some(v)
  }

  /** The decimal text of a natural number reads back as that number. */
  lemma ParseIntOfNat(n: nat)
    ensures ParseInt(NatToString(n)) == Some(n)
  {
    var s := NatToString(n);
    assert s + [] == s;
    assert LeadingDigits(s) == s by {
      LeadingDigitsAppend(s, []);
    }
    assert IsDigit(s[0]);
    TrimStartOfDigit(s);
    assert Unsigned(s) == s;
    NatToStringRoundTrip(n);
  }

  /** Digits followed by anything that does not start with a digit read as the digits. */
  lemma ParseIntStopsAtNonDigit(d: string, rest: string)
    requires d != [] && AllDigits(d)
    requires rest == [] || !IsDigit(rest[0])
    ensures ParseInt(d + rest) == Some(DigitsValue(d))
  {
    var s := d + rest;
    assert s[0] == d[0];
    TrimStartOfDigit(s);
    assert Unsigned(s) == s;
    LeadingDigitsAppend(d, rest);
    assert LeadingDigits(rest) == [];
    assert d + [] == d;
    assert LeadingDigits(s) == d;
  }

  // ------------------------------------------------------------ radix 16

  predicate IsHexDigit(c: char) { IsDigit(c) || 'a' <= c <= 'f' || 'A' <= c <= 'F' }

  function HexDigitValue(c: char): (v: nat)
    requires IsHexDigit(c)
    ensures v < 16
  {
    if IsDigit(c) then DigitValue(c)
    else if 'a' <= c <= 'f' then c as int - 'a' as int + 10
    else c as int - 'A' as int + 10
  }

  function LeadingHexDigits(s: string): (p: string)
    ensures p <= s && forall i :: 0 <= i < |p| ==> IsHexDigit(p[i])
  {
    if s == [] || !IsHexDigit(s[0]) then [] else [s[0]] + LeadingHexDigits(s[1..])
  }

  function HexValue(s: string): nat
    requires forall i :: 0 <= i < |s| ==> IsHexDigit(s[i])
  {
    if s == [] then 0 else HexValue(s[..|s| - 1]) * 16 + HexDigitValue(s[|s| - 1])
  }

  predicate HasHexPrefix(u: string) { |u| >= 2 && u[0] == '0' && (u[1] == 'x' || u[1] == 'X') }

  /** `parseInt(s)` with no radix: as `parseInt(s, 10)`, except that a `0x` or `0X`
      after the sign switches to hexadecimal. */
  function ParseIntAutoRadix(s: string): (r: Option<int>)
    ensures !HasHexPrefix(Unsigned(TrimStart(s))) ==> r == ParseInt(s)
  {
    var t := TrimStart(s);
    var u := Unsigned(t);
    if HasHexPrefix(u) then
      var h := LeadingHexDigits(u[2..]);
      var v: int := HexValue(h);
      if h == [] then None
      else if t[0] == '-' then Some(-v)
      else Some(v)
    else ParseInt(s)
  }

  /** The two readings differ: the proof-upload page reads `0x1A` as record 26,
      while the review routes read it as record 0. */
  lemma RadixReadingsDiffer()
    ensures ParseIntAutoRadix("0x1A") == Some(26)
    ensures ParseInt("0x1A") == Some(0)
  {
    HexReading();
    DecimalReading();
  }

  lemma HexReading()
    ensures ParseIntAutoRadix("0x1A") == Some(26)
  {
    var s := "0x1A";
    TrimStartOfDigit(s);
    assert Unsigned(s) == s;
    assert HasHexPrefix(s);
    var h := s[2..];
    assert h == ['1', 'A'];
    assert h[1..] == ['A'];
    assert h[1..][1..] == [];
    assert LeadingHexDigits(h[1..][1..]) == [];
    assert LeadingHexDigits(h[1..]) == ['A'];
    assert LeadingHexDigits(h) == h;
    assert h[..1] == ['1'];
    assert h[..1][..0] == [];
    assert HexValue(h[..1]) == 1;
    assert HexValue(h) == 26;
  }

  lemma DecimalReading()
    ensures ParseInt("0x1A") == Some(0)
  {
    var s := "0x1A";
    TrimStartOfDigit(s);
    assert Unsigned(s) == s;
    assert s[1..] == "x1A";
    assert LeadingDigits(s[1..]) == [];
    assert LeadingDigits(s) == ['0'];
    assert ['0'][..0] == [];
    assert DigitsValue(['0']) == 0;
  }

  /** Without a hex prefix both readings agree, so the decimal text of a natural number
      reads back as that number under either. */
  lemma AutoRadixOfNat(n: nat)
    ensures ParseIntAutoRadix(NatToString(n)) == Some(n)
  {
    var s := NatToString(n);
    assert IsDigit(s[0]);
    TrimStartOfDigit(s);
    assert Unsigned(s) == s;
    if |s| >= 2 { assert IsDigit(s[1]); }
    ParseIntOfNat(n);
  }

  /** The range of a 32-bit signed integer column. */
  predicate IsInt32(n: int) { -0x8000_0000 <= n < 0x8000_0000 }

  /** `Number(x) || d` for a conversion result `n` (`None` for NaN): the default
      replaces NaN and zero. */
  function OrDefault(n: Option<int>, d: int): (v: int)
    ensures n.None? || n == Some(0) ==> v == d
    ensures n.Some? && n.value != 0 ==> v == n.value
  {
    if n.None? || n.value == 0 then d else n.value
  }
}
