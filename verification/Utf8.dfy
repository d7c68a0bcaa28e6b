/** UTF-8 as in section 3 of RFC 3629: no overlong forms, no surrogates, nothing above U+10FFFF. */
module Utf8 {
  import opened Bytes
  import opened Wrappers

  function EncodeChar(c: char): (bytes: seq<byte>)
    ensures 1 <= |bytes| <= 4
  {
    var n := c as int;
    if n < 0x80 then [n]
    else if n < 0x800 then [0xC0 + n / 0x40, 0x80 + n % 0x40]
    else if n < 0x1_0000 then [0xE0 + n / 0x1000, 0x80 + n / 0x40 % 0x40, 0x80 + n % 0x40]
    else [0xF0 + n / 0x4_0000, 0x80 + n / 0x1000 % 0x40, 0x80 + n / 0x40 % 0x40, 0x80 + n % 0x40]
  }

  /** The bytes of a Rust string. */
  function Encode(s: string): seq<byte> {
    if s == "" then [] else EncodeChar(s[0]) + Encode(s[1..])
  }

  predicate IsTail(b: int) {
    0x80 <= b <= 0xBF
  }

  function Scalar2(a: int, b: int): int {
    (a - 0xC0) * 0x40 + (b - 0x80)
  }

  function Scalar3(a: int, b: int, c: int): int {
    (a - 0xE0) * 0x1000 + (b - 0x80) * 0x40 + (c - 0x80)
  }

  function Scalar4(a: int, b: int, c: int, d: int): int {
    (a - 0xF0) * 0x4_0000 + (b - 0x80) * 0x1000 + (c - 0x80) * 0x40 + (d - 0x80)
  }

  predicate Lead2(a: int, b: int) {
    0xC2 <= a <= 0xDF && IsTail(b)
  }

  predicate Lead3(a: int, b: int, c: int) {
    0xE0 <= a <= 0xEF && IsTail(b) && IsTail(c) && (a == 0xE0 ==> 0xA0 <= b) && (a == 0xED ==> b <= 0x9F)
  }

  predicate Lead4(a: int, b: int, c: int, d: int) {
    0xF0 <= a <= 0xF4 && IsTail(b) && IsTail(c) && IsTail(d) && (a == 0xF0 ==> 0x90 <= b) && (a == 0xF4 ==> b <= 0x8F)
  }

  /** The character at the front and the number of bytes it takes, by the table of RFC 3629. */
  function DecodeChar(bytes: seq<byte>): (r: Option<(char, nat)>)
    ensures r.Some? ==> 1 <= r.value.1 <= |bytes|
  {
    if bytes == [] then None
    else if bytes[0] <= 0x7F then Some((bytes[0] as char, 1))
    else if |bytes| >= 2 && Lead2(bytes[0], bytes[1]) then Some((Scalar2(bytes[0], bytes[1]) as char, 2))
    else if |bytes| >= 3 && Lead3(bytes[0], bytes[1], bytes[2]) then
      Some((Scalar3(bytes[0], bytes[1], bytes[2]) as char, 3))
    else if |bytes| >= 4 && Lead4(bytes[0], bytes[1], bytes[2], bytes[3]) then
      Some((Scalar4(bytes[0], bytes[1], bytes[2], bytes[3]) as char, 4))
    else None
  }

  /** String::from_utf8. */
  function Decode(bytes: seq<byte>): Option<string> {
    if bytes == [] then Some("")
    else
      match DecodeChar(bytes)
      case None => None
      case Some((c, n)) =>
        match Decode(bytes[n..])
        case None => None
        case Some(rest) => Some([c] + rest)
  }

  lemma Split2(n: int)
    requires 0x80 <= n < 0x800
    ensures var a, b := 0xC0 + n / 0x40, 0x80 + n % 0x40; Lead2(a, b) && Scalar2(a, b) == n
  {
  }

  lemma Split3(n: int)
    requires 0x800 <= n < 0x1_0000 && !(0xD800 <= n < 0xE000)
    ensures var a, b, c := 0xE0 + n / 0x1000, 0x80 + n / 0x40 % 0x40, 0x80 + n % 0x40;
            Lead3(a, b, c) && Scalar3(a, b, c) == n
  {
    assert n / 0x40 / 0x40 == n / 0x1000;
  }

  lemma Split4(n: int)
    requires 0x1_0000 <= n < 0x11_0000
    ensures var a, b, c, d := 0xF0 + n / 0x4_0000, 0x80 + n / 0x1000 % 0x40, 0x80 + n / 0x40 % 0x40, 0x80 + n % 0x40;
            Lead4(a, b, c, d) && Scalar4(a, b, c, d) == n
  {
    assert n / 0x40 / 0x40 == n / 0x1000 && n / 0x1000 / 0x40 == n / 0x4_0000;
  }

  /** Each length has its lead byte and tails, and the bits in them make up the character. */
  lemma EncodeCharFollowsTable(c: char)
    ensures var bytes, n := EncodeChar(c), c as int;
            match |bytes|
            case 1 => n < 0x80 && bytes[0] == n
            case 2 => 0x80 <= n < 0x800 && Lead2(bytes[0], bytes[1]) && Scalar2(bytes[0], bytes[1]) == n
            case 3 =>
              0x800 <= n < 0x1_0000 && Lead3(bytes[0], bytes[1], bytes[2]) && Scalar3(bytes[0], bytes[1], bytes[2]) == n
            case _ =>
              0x1_0000 <= n && Lead4(bytes[0], bytes[1], bytes[2], bytes[3])
              && Scalar4(bytes[0], bytes[1], bytes[2], bytes[3]) == n
  {
    var n := c as int;
    if 0x80 <= n < 0x800 {
      Split2(n);
    } else if 0x800 <= n < 0x1_0000 {
      Split3(n);
    } else if 0x1_0000 <= n {
      Split4(n);
    }
  }

  lemma {:induction false} EncodeAppends(s: string, t: string)
    ensures Encode(s + t) == Encode(s) + Encode(t)
  {
    if s == "" {
      assert s + t == t;
    } else {
      EncodeAppends(s[1..], t);
      assert (s + t)[1..] == s[1..] + t;
    }
  }

  lemma DecodeCharInvertsEncodeChar(c: char, rest: seq<byte>)
    ensures DecodeChar(EncodeChar(c) + rest) == Some((c, |EncodeChar(c)|))
  {
    var n := c as int;
    var bytes := EncodeChar(c) + rest;
    if 0x80 <= n < 0x800 {
      Split2(n);
    } else if 0x800 <= n < 0x1_0000 {
      Split3(n);
    } else if 0x1_0000 <= n {
      Split4(n);
    }
  }

  lemma Join2(a: int, b: int)
    requires Lead2(a, b)
    ensures var n := Scalar2(a, b); 0x80 <= n < 0x800 && a == 0xC0 + n / 0x40 && b == 0x80 + n % 0x40
  {
  }

  lemma Join3(a: int, b: int, c: int)
    requires Lead3(a, b, c)
    ensures var n := Scalar3(a, b, c);
            && 0x800 <= n < 0x1_0000 && !(0xD800 <= n < 0xE000)
            && a == 0xE0 + n / 0x1000 && b == 0x80 + n / 0x40 % 0x40 && c == 0x80 + n % 0x40
  {
    var n := Scalar3(a, b, c);
    assert n / 0x40 == (a - 0xE0) * 0x40 + (b - 0x80);
  }

  lemma Join4(a: int, b: int, c: int, d: int)
    requires Lead4(a, b, c, d)
    ensures var n := Scalar4(a, b, c, d);
            && 0x1_0000 <= n < 0x11_0000
            && a == 0xF0 + n / 0x4_0000 && b == 0x80 + n / 0x1000 % 0x40
            && c == 0x80 + n / 0x40 % 0x40 && d == 0x80 + n % 0x40
  {
    var n := Scalar4(a, b, c, d);
    assert n / 0x40 == (a - 0xF0) * 0x1000 + (b - 0x80) * 0x40 + (c - 0x80);
    assert n / 0x1000 == (a - 0xF0) * 0x40 + (b - 0x80);
  }

  lemma EncodeCharInvertsDecodeChar(bytes: seq<byte>)
    requires DecodeChar(bytes).Some?
    ensures var (c, n) := DecodeChar(bytes).value; EncodeChar(c) == bytes[..n]
  {
    if bytes[0] > 0x7F {
      if Lead2(bytes[0], bytes[1]) {
        Join2(bytes[0], bytes[1]);
      } else if Lead3(bytes[0], bytes[1], bytes[2]) {
        Join3(bytes[0], bytes[1], bytes[2]);
      } else {
        Join4(bytes[0], bytes[1], bytes[2], bytes[3]);
      }
    }
  }

  /** Every string is the decoding of its bytes. */
  lemma {:induction false} DecodeInvertsEncode(s: string)
    ensures Decode(Encode(s)) == Some(s)
  {
    if s != "" {
      DecodeCharInvertsEncodeChar(s[0], Encode(s[1..]));
      assert Encode(s)[|EncodeChar(s[0])|..] == Encode(s[1..]);
      DecodeInvertsEncode(s[1..]);
      assert [s[0]] + s[1..] == s;
    }
  }

  lemma EncodeFirst(c: char, rest: string)
    ensures Encode([c] + rest) == EncodeChar(c) + Encode(rest)
  {
    assert ([c] + rest)[1..] == rest;
  }

  lemma DecodeFirst(bytes: seq<byte>) returns (c: char, n: nat)
    requires bytes != [] && Decode(bytes).Some?
    ensures 1 <= n <= |bytes| && bytes[..n] == EncodeChar(c)
    ensures Decode(bytes[n..]).Some? && Decode(bytes).value == [c] + Decode(bytes[n..]).value
  {
    c, n := DecodeChar(bytes).value.0, DecodeChar(bytes).value.1;
    EncodeCharInvertsDecodeChar(bytes);
  }

  /** Byte sequences that decode at all are the bytes of what they decode to. */
  lemma {:induction false} EncodeInvertsDecode(bytes: seq<byte>)
    requires Decode(bytes).Some?
    ensures Encode(Decode(bytes).value) == bytes
  {
    if bytes != [] {
      var c, n := DecodeFirst(bytes);
      EncodeInvertsDecode(bytes[n..]);
      EncodeFirst(c, Decode(bytes[n..]).value);
      assert bytes == bytes[..n] + bytes[n..];
    }
  }

  lemma {:induction false} AsciiEncodesToItself(s: string)
    requires IsAscii(s)
    ensures Encode(s) == Ascii(s)
  {
    if s != "" {
      AsciiEncodesToItself(s[1..]);
    }
  }
}
