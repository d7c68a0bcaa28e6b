/** Percent-encoding of path components, as in sections 2.1 and 2.3 of RFC 3986. */
module PercentCoding {
  import opened Bytes
  import opened Text
  import Utf8
  import opened Wrappers

  predicate IsUnreserved(c: char) {
    IsAlphanumeric(c) || c == '-' || c == '.' || c == '_' || c == '~'
  }

  predicate Kept(b: byte) {
    b < 0x80 && IsUnreserved(b as char)
  }

  function HexDigit(n: nat): char
    requires n < 16
  {
    (if n < 10 then '0' as int + n else 'A' as int + n - 10) as char
  }

  function EncodeByte(b: byte): string {
    if Kept(b) then [b as char] else ['%', HexDigit(b / 16), HexDigit(b % 16)]
  }

  function EncodeBytes(bytes: seq<byte>): string {
    if bytes == [] then "" else EncodeByte(bytes[0]) + EncodeBytes(bytes[1..])
  }

  function Encoded(value: string): string {
    EncodeBytes(Utf8.Encode(value))
  }

  method EncodeComponent(value: string) returns (encoded: string)
    ensures encoded == Encoded(value)
  {
    encoded := "";
    var bytes := Utf8.Encode(value);
    for i := 0 to |bytes|
      invariant encoded + EncodeBytes(bytes[i..]) == EncodeBytes(bytes)
    {
      var b := bytes[i];
      EncodeNext(encoded, bytes, i);
      if Kept(b) {
        encoded := encoded + [b as char];
      } else {
        encoded := encoded + ['%', HexDigit(b / 16), HexDigit(b % 16)];
      }
    }
  }

  lemma EncodeNext(encoded: string, bytes: seq<byte>, i: nat)
    requires i < |bytes|
    ensures encoded + EncodeBytes(bytes[i..]) == (encoded + EncodeByte(bytes[i])) + EncodeBytes(bytes[i + 1..])
  {
    assert bytes[i..][1..] == bytes[i + 1..];
  }

  function HexValue(b: byte): (value: Option<nat>)
    ensures value.Some? ==> value.value < 16
  {
    if '0' as int <= b <= '9' as int then Some(b - '0' as int)
    else if 'a' as int <= b <= 'f' as int then Some(b - 'a' as int + 10)
    else if 'A' as int <= b <= 'F' as int then Some(b - 'A' as int + 10)
    else None
  }

  const PERCENT: byte := 0x25

  function DecodeByte(high: byte, low: byte): (r: Option<byte>) {
    match (HexValue(high), HexValue(low))
    case (Some(h), Some(l)) => Some(h * 16 + l)
    case _ => None
  }

  function DecodeBytes(bytes: seq<byte>): Option<seq<byte>> {
    if bytes == [] then Some([])
    else if bytes[0] != PERCENT then Prepend(bytes[0], DecodeBytes(bytes[1..]))
    else if |bytes| < 3 then None
    else
      match DecodeByte(bytes[1], bytes[2])
      case None => None
      case Some(b) => Prepend(b, DecodeBytes(bytes[3..]))
  }

  function Prepend(b: byte, rest: Option<seq<byte>>): Option<seq<byte>> {
    match rest
    case None => None
    case Some(bytes) => Some([b] + bytes)
  }

  function Decoded(value: string): Option<string> {
    match DecodeBytes(Utf8.Encode(value))
    case None => None
    case Some(bytes) => Utf8.Decode(bytes)
  }

  method DecodeComponent(value: string) returns (r: Option<string>)
    ensures r == Decoded(value)
  {
    var bytes := Utf8.Encode(value);
    var decoded: seq<byte> := [];
    var index := 0;
    AfterPrepends([], PERCENT, DecodeBytes(bytes));
    while index < |bytes|
      invariant index <= |bytes|
      invariant DecodeBytes(bytes) == After(decoded, DecodeBytes(bytes[index..]))
    {
      ghost var rest := bytes[index..];
      if bytes[index] != PERCENT {
        assert rest[1..] == bytes[index + 1..];
        AfterPrepends(decoded, bytes[index], DecodeBytes(rest[1..]));
        decoded := decoded + [bytes[index]];
        index := index + 1;
        continue;
      }
      if |bytes| <= index + 2 {
        return None;
      }
      match DecodeByte(bytes[index + 1], bytes[index + 2])
      case None => return None;
      case Some(b) =>
        assert rest[3..] == bytes[index + 3..];
        AfterPrepends(decoded, b, DecodeBytes(rest[3..]));
        decoded := decoded + [b];
        index := index + 3;
    }
    assert decoded + [] == decoded;
    r := Utf8.Decode(decoded);
  }

  ghost function After(decoded: seq<byte>, rest: Option<seq<byte>>): Option<seq<byte>> {
    match rest
    case None => None
    case Some(bytes) => Some(decoded + bytes)
  }

  lemma AfterPrepends(decoded: seq<byte>, b: byte, rest: Option<seq<byte>>)
    ensures After(decoded, Prepend(b, rest)) == After(decoded + [b], rest)
    ensures After([], rest) == rest
  {
    if rest.Some? {
      assert decoded + ([b] + rest.value) == decoded + [b] + rest.value;
      assert [] + rest.value == rest.value;
    }
  }

  // ----- round trip

  lemma EncodeByteIsAscii(b: byte)
    ensures IsAscii(EncodeByte(b))
    ensures Kept(b) ==> b != PERCENT
    ensures !Kept(b) ==> DecodeByte(Ascii(EncodeByte(b))[1], Ascii(EncodeByte(b))[2]) == Some(b)
  {
  }

  lemma {:induction false} DecodeBytesInvertsEncodeBytes(bytes: seq<byte>)
    ensures IsAscii(EncodeBytes(bytes))
    ensures DecodeBytes(Ascii(EncodeBytes(bytes))) == Some(bytes)
  {
    if bytes != [] {
      EncodeByteIsAscii(bytes[0]);
      DecodeBytesInvertsEncodeBytes(bytes[1..]);
      var first, rest := EncodeByte(bytes[0]), EncodeBytes(bytes[1..]);
      assert Ascii(first + rest)[|first|..] == Ascii(rest);
      assert [bytes[0]] + bytes[1..] == bytes;
    }
  }

  /** Decoding gives back every string that was encoded. */
  lemma DecodedInvertsEncoded(value: string)
    ensures Decoded(Encoded(value)) == Some(value)
  {
    DecodeBytesInvertsEncodeBytes(Utf8.Encode(value));
    Utf8.AsciiEncodesToItself(Encoded(value));
    Utf8.DecodeInvertsEncode(value);
  }

  lemma EncodedIsInjective(a: string, b: string)
    requires Encoded(a) == Encoded(b)
    ensures a == b
  {
    DecodedInvertsEncoded(a);
    DecodedInvertsEncoded(b);
  }

  predicate IsUpperHex(c: char) {
    '0' <= c <= '9' || 'A' <= c <= 'F'
  }

  /** Nothing but unreserved characters and percent triplets with upper-case digits. */
  predicate InEncodedForm(s: string) {
    || s == ""
    || (IsUnreserved(s[0]) && InEncodedForm(s[1..]))
    || (|s| >= 3 && s[0] == '%' && IsUpperHex(s[1]) && IsUpperHex(s[2]) && InEncodedForm(s[3..]))
  }

  lemma {:induction false} EncodeBytesForm(bytes: seq<byte>)
    ensures InEncodedForm(EncodeBytes(bytes))
    ensures '/' !in EncodeBytes(bytes)
    ensures |bytes| <= |EncodeBytes(bytes)| <= 3 * |bytes|
  {
    if bytes != [] {
      EncodeBytesForm(bytes[1..]);
      var first, rest := EncodeByte(bytes[0]), EncodeBytes(bytes[1..]);
      assert (first + rest)[|first|..] == rest;
    }
  }

  lemma EncodedForm(value: string)
    ensures InEncodedForm(Encoded(value))
    ensures '/' !in Encoded(value)
    ensures |Utf8.Encode(value)| <= |Encoded(value)| <= 3 * |Utf8.Encode(value)|
    ensures Encoded(value) == "" <==> value == ""
  {
    EncodeBytesForm(Utf8.Encode(value));
  }

  /** A component that decodes is empty exactly when its text is. */
  lemma DecodedEmptiness(value: string)
    requires Decoded(value).Some?
    ensures Decoded(value).value == "" <==> value == ""
  {
    var bytes := DecodeBytes(Utf8.Encode(value)).value;
    Utf8.EncodeInvertsDecode(bytes);
  }

  // ----- what the texts say, byte by byte

  lemma {:induction false} EncodeBytesAppends(a: seq<byte>, b: seq<byte>)
    ensures EncodeBytes(a + b) == EncodeBytes(a) + EncodeBytes(b)
  {
    if a == [] {
      assert a + b == b;
    } else {
      EncodeBytesAppends(a[1..], b);
      assert (a + b)[1..] == a[1..] + b;
      Regroup(EncodeByte(a[0]), EncodeBytes(a[1..]), EncodeBytes(b));
    }
  }

  lemma Regroup(s: string, t: string, u: string)
    ensures s + (t + u) == (s + t) + u
  {
  }

  lemma EncodedAppends(a: string, b: string)
    ensures Encoded(a + b) == Encoded(a) + Encoded(b)
  {
    Utf8.EncodeAppends(a, b);
    EncodeBytesAppends(Utf8.Encode(a), Utf8.Encode(b));
  }

  lemma {:induction false} HighBytesTakeThree(bytes: seq<byte>)
    requires forall i :: 0 <= i < |bytes| ==> bytes[i] >= 0x80
    ensures |EncodeBytes(bytes)| == 3 * |bytes|
  {
    if bytes != [] {
      HighBytesTakeThree(bytes[1..]);
    }
  }

  lemma CharacterAlone(c: char)
    ensures IsUnreserved(c) ==> Encoded([c]) == [c]
    ensures !IsUnreserved(c) ==> |Encoded([c])| == 3 * |Utf8.EncodeChar(c)|
  {
    var bytes := Utf8.EncodeChar(c);
    assert [c][1..] == "" && Utf8.Encode([c]) == bytes + [] == bytes;
    Utf8.EncodeCharFollowsTable(c);
    if c as int < 0x80 {
      assert bytes[1..] == [] && EncodeBytes(bytes) == EncodeByte(c as int) + "" == EncodeByte(c as int);
    } else {
      HighBytesTakeThree(bytes);
    }
  }

  /** Character by character: an unreserved one stands for itself, any other gives one triplet for each of its bytes. */
  lemma EachCharacterAlone(before: string, c: char, after: string)
    ensures Encoded(before + [c] + after) == Encoded(before) + Encoded([c]) + Encoded(after)
    ensures IsUnreserved(c) ==> Encoded([c]) == [c]
    ensures !IsUnreserved(c) ==> |Encoded([c])| == 3 * |Utf8.EncodeChar(c)|
  {
    EncodedAppends(before + [c], after);
    EncodedAppends(before, [c]);
    CharacterAlone(c);
  }

  const UPPER := "0123456789ABCDEF"
  const LOWER := "0123456789abcdef"

  predicate IsHexDigitOf(b: byte, n: nat)
    requires n < 16
  {
    b == UPPER[n] as int || b == LOWER[n] as int
  }

  lemma HexValueIff(b: byte, n: nat)
    requires n < 16
    ensures HexValue(b) == Some(n) <==> IsHexDigitOf(b, n)
  {
    assert forall k :: 0 <= k < 10 ==> UPPER[k] as int == '0' as int + k && LOWER[k] == UPPER[k];
    assert forall k :: 10 <= k < 16 ==> UPPER[k] as int == 'A' as int + k - 10 && LOWER[k] as int == 'a' as int + k - 10;
  }

  /** The text writes these bytes: each stands for itself unless it is a percent sign, or is a percent sign and two digits of either case. */
  ghost predicate Writes(text: seq<byte>, bytes: seq<byte>)
    decreases |bytes|
  {
    if bytes == [] then text == []
    else
      || (text != [] && text[0] == bytes[0] != PERCENT && Writes(text[1..], bytes[1..]))
      || (|text| >= 3 && text[0] == PERCENT && IsHexDigitOf(text[1], bytes[0] / 16) && IsHexDigitOf(text[2], bytes[0] % 16)
          && Writes(text[3..], bytes[1..]))
  }

  lemma DecodeByteIff(high: byte, low: byte, b: byte)
    ensures DecodeByte(high, low) == Some(b) <==> IsHexDigitOf(high, b / 16) && IsHexDigitOf(low, b % 16)
  {
    HexValueIff(high, b / 16);
    HexValueIff(low, b % 16);
    if HexValue(high).Some? && HexValue(low).Some? {
      HalvesOf(HexValue(high).value, HexValue(low).value, b);
    }
  }

  lemma HalvesOf(h: nat, l: nat, b: byte)
    requires l < 16
    ensures h * 16 + l == b <==> h == b / 16 && l == b % 16
  {
  }

  /** Decoding gives the bytes that the text writes, and refuses every other text. */
  lemma {:induction false} DecodesIffWrites(text: seq<byte>, bytes: seq<byte>)
    ensures DecodeBytes(text) == Some(bytes) <==> Writes(text, bytes)
    decreases |text|
  {
    if text != [] && bytes != [] {
      assert bytes == [bytes[0]] + bytes[1..];
      if text[0] != PERCENT {
        DecodesIffWrites(text[1..], bytes[1..]);
        PrependIff(text[0], DecodeBytes(text[1..]), bytes);
      } else if |text| >= 3 {
        DecodesIffWrites(text[3..], bytes[1..]);
        DecodeByteIff(text[1], text[2], bytes[0]);
        if DecodeByte(text[1], text[2]).Some? {
          PrependIff(DecodeByte(text[1], text[2]).value, DecodeBytes(text[3..]), bytes);
        }
      }
    }
  }

  lemma PrependIff(b: byte, rest: Option<seq<byte>>, bytes: seq<byte>)
    requires bytes != []
    ensures Prepend(b, rest) == Some(bytes) <==> b == bytes[0] && rest == Some(bytes[1..])
  {
    assert bytes == [bytes[0]] + bytes[1..];
    if rest.Some? {
      assert ([b] + rest.value)[0] == b && ([b] + rest.value)[1..] == rest.value;
    }
  }
}
