/** UTF-8 as used for file names on the wire: String.getBytes(UTF_8) on the sending side and
    new String(bytes, UTF_8) on the receiving side. A Dafny `char` is a Unicode scalar value. */
module Utf8 {
  import opened JavaInts
  import opened Wrappers

  /** The one-to-four-byte encoding of a single scalar value. */
  function EncodeChar(c: char): (r: seq<byte>)
    ensures 1 <= |r| <= 4
  {
    var n := c as int;
    if n < 0x80 then [n as byte]
    else if n < 0x800 then [(0xC0 + n / 0x40) as byte, (0x80 + n % 0x40) as byte]
    else if n < 0x1_0000 then
      [(0xE0 + n / 0x1000) as byte, (0x80 + n / 0x40 % 0x40) as byte, (0x80 + n % 0x40) as byte]
    else
      [(0xF0 + n / 0x4_0000) as byte, (0x80 + n / 0x1000 % 0x40) as byte,
       (0x80 + n / 0x40 % 0x40) as byte, (0x80 + n % 0x40) as byte]
  }

  function Encode(s: string): (r: seq<byte>)
    ensures |r| >= |s|
  {
    if s == [] then [] else EncodeChar(s[0]) + Encode(s[1..])
  }

  predicate IsContinuation(b: byte) { 0x80 <= b < 0xC0 }

  /** The scalar value at the front of `s` and the number of bytes it occupies, or None when
      the front of `s` is not a well-formed, shortest-form UTF-8 sequence. */
  function DecodeFirst(s: seq<byte>): (r: Option<(char, nat)>)
    requires |s| > 0
    ensures r.Some? ==> 1 <= r.value.1 <= |s|
  {
    var b0 := s[0] as int;
    if b0 < 0x80 then Some((b0 as char, 1))
    else if 0xC2 <= b0 < 0xE0 then
      if |s| >= 2 && IsContinuation(s[1]) then
        Some((((b0 - 0xC0) * 0x40 + (s[1] as int - 0x80)) as char, 2))
      else None
    else if 0xE0 <= b0 < 0xF0 then
      if |s| >= 3 && IsContinuation(s[1]) && IsContinuation(s[2]) then
        var n := (b0 - 0xE0) * 0x1000 + (s[1] as int - 0x80) * 0x40 + (s[2] as int - 0x80);
        if n < 0x800 || 0xD800 <= n < 0xE000 then None else Some((n as char, 3))
      else None
    else if 0xF0 <= b0 < 0xF5 then
      if |s| >= 4 && IsContinuation(s[1]) && IsContinuation(s[2]) && IsContinuation(s[3]) then
        var n := (b0 - 0xF0) * 0x4_0000 + (s[1] as int - 0x80) * 0x1000
                 + (s[2] as int - 0x80) * 0x40 + (s[3] as int - 0x80);
        if n < 0x1_0000 || n > 0x10_FFFF then None else Some((n as char, 4))
      else None
    else None
  }

  /** The string a well-formed UTF-8 byte sequence stands for; None when it is malformed. */
  function Decode(s: seq<byte>): Option<string>
    decreases |s|
  {
    if s == [] then Some([])
    else match DecodeFirst(s)
      case None => None
      case Some((c, k)) =>
        match Decode(s[k..])
        case None => None
        case Some(rest) => Some([c] + rest)
  }

  lemma DecodeEncodeChar(c: char, rest: seq<byte>)
    ensures DecodeFirst(EncodeChar(c) + rest) == Some((c, |EncodeChar(c)|))
  {
    var n := c as int;
    var s := EncodeChar(c) + rest;
    if n < 0x80 {
    } else if n < 0x800 {
      assert (n / 0x40) * 0x40 + n % 0x40 == n;
    } else if n < 0x1_0000 {
      Split3(n);
    } else {
      Split4(n);
    }
  }

  lemma Split3(n: int)
    requires 0x800 <= n < 0x1_0000
    ensures 0xE0 <= 0xE0 + n / 0x1000 < 0xF0
    ensures (n / 0x1000) * 0x1000 + (n / 0x40 % 0x40) * 0x40 + n % 0x40 == n
  {
    var q := n / 0x40;
    assert q * 0x40 + n % 0x40 == n;
    assert (q / 0x40) * 0x40 + q % 0x40 == q;
    assert q / 0x40 == n / 0x1000;
  }

  lemma Split4(n: int)
    requires 0x1_0000 <= n <= 0x10_FFFF
    ensures 0xF0 <= 0xF0 + n / 0x4_0000 < 0xF5
    ensures (n / 0x4_0000) * 0x4_0000 + (n / 0x1000 % 0x40) * 0x1000
            + (n / 0x40 % 0x40) * 0x40 + n % 0x40 == n
  {
    var q := n / 0x40;
    var q2 := q / 0x40;
    assert q * 0x40 + n % 0x40 == n;
    assert q2 * 0x40 + q % 0x40 == q;
    assert (q2 / 0x40) * 0x40 + q2 % 0x40 == q2;
    assert q2 == n / 0x1000;
    assert q2 / 0x40 == n / 0x4_0000;
  }

  /** Decoding undoes encoding: the receiver recovers exactly the name the sender encoded. */
  lemma {:induction false} DecodeEncode(s: string)
    ensures Decode(Encode(s)) == Some(s)
  {
    if s != [] {
      var e := Encode(s);
      assert e == EncodeChar(s[0]) + Encode(s[1..]);
      DecodeEncodeChar(s[0], Encode(s[1..]));
      assert e[|EncodeChar(s[0])|..] == Encode(s[1..]);
      DecodeEncode(s[1..]);
      assert [s[0]] + s[1..] == s;
    }
  }

  /** Division by one of the field widths of the encoding. */
  lemma DivModOf(n: int, q: int, r: int, d: int)
    requires d == 0x40 || d == 0x1000 || d == 0x4_0000
    requires 0 <= r < d && n == q * d + r
    ensures n / d == q && n % d == r
  {
    if d == 0x40 {
    } else if d == 0x1000 {
    } else {
    }
  }

  /** A well-formed sequence at the front of `s` is exactly the encoding of the value it
      decodes to. */
  lemma EncodeDecodeFirst(s: seq<byte>)
    requires |s| > 0 && DecodeFirst(s).Some?
    ensures EncodeChar(DecodeFirst(s).value.0) == s[..DecodeFirst(s).value.1]
  {
    var b0 := s[0] as int;
    if b0 < 0x80 {
    } else if b0 < 0xE0 {
      EncodeTwo(b0 - 0xC0, s[1] as int - 0x80);
      assert s[..2] == [s[0], s[1]];
    } else if b0 < 0xF0 {
      EncodeThree(b0 - 0xE0, s[1] as int - 0x80, s[2] as int - 0x80);
      assert s[..3] == [s[0], s[1], s[2]];
    } else {
      EncodeFour(b0 - 0xF0, s[1] as int - 0x80, s[2] as int - 0x80, s[3] as int - 0x80);
      assert s[..4] == [s[0], s[1], s[2], s[3]];
    }
  }

  /** The two-byte form: lead byte 0xC0 + a, one continuation byte 0x80 + b. */
  lemma EncodeTwo(a: int, b: int)
    requires 2 <= a < 0x20 && 0 <= b < 0x40
    ensures var n := a * 0x40 + b;
      0x80 <= n < 0x800 && EncodeChar(n as char) == [(0xC0 + a) as byte, (0x80 + b) as byte]
  {
    DivModOf(a * 0x40 + b, a, b, 0x40);
  }

  /** The three-byte form, outside the surrogates. */
  lemma EncodeThree(a: int, b: int, c: int)
    requires 0 <= a < 0x10 && 0 <= b < 0x40 && 0 <= c < 0x40
    requires var n := a * 0x1000 + b * 0x40 + c; 0x800 <= n && !(0xD800 <= n < 0xE000)
    ensures var n := a * 0x1000 + b * 0x40 + c;
      EncodeChar(n as char) == [(0xE0 + a) as byte, (0x80 + b) as byte, (0x80 + c) as byte]
  {
    var n := a * 0x1000 + b * 0x40 + c;
    DivModOf(n, a * 0x40 + b, c, 0x40);
    DivModOf(a * 0x40 + b, a, b, 0x40);
    DivModOf(n, a, b * 0x40 + c, 0x1000);
  }

  /** The four-byte form, up to 0x10FFFF. */
  lemma EncodeFour(a: int, b: int, c: int, e: int)
    requires 0 <= a < 5 && 0 <= b < 0x40 && 0 <= c < 0x40 && 0 <= e < 0x40
    requires var n := a * 0x4_0000 + b * 0x1000 + c * 0x40 + e; 0x1_0000 <= n <= 0x10_FFFF
    ensures var n := a * 0x4_0000 + b * 0x1000 + c * 0x40 + e;
      EncodeChar(n as char)
        == [(0xF0 + a) as byte, (0x80 + b) as byte, (0x80 + c) as byte, (0x80 + e) as byte]
  {
    var n := a * 0x4_0000 + b * 0x1000 + c * 0x40 + e;
    DivModOf(n, a * 0x1000 + b * 0x40 + c, e, 0x40);
    DivModOf(a * 0x1000 + b * 0x40 + c, a * 0x40 + b, c, 0x40);
    DivModOf(n, a * 0x40 + b, c * 0x40 + e, 0x1000);
    DivModOf(a * 0x40 + b, a, b, 0x40);
    DivModOf(n, a, b * 0x1000 + c * 0x40 + e, 0x4_0000);
  }

  /** Encoding undoes decoding: a well-formed byte sequence is the encoding of its decoding. */
  lemma {:induction false} EncodeDecode(s: seq<byte>)
    requires Decode(s).Some?
    ensures Encode(Decode(s).value) == s
    decreases |s|
  {
    if s != [] {
      var c, k := DecodeFirst(s).value.0, DecodeFirst(s).value.1;
      EncodeDecodeFirst(s);
      EncodeDecode(s[k..]);
      assert Decode(s).value == [c] + Decode(s[k..]).value;
      assert ([c] + Decode(s[k..]).value)[1..] == Decode(s[k..]).value;
      assert s == s[..k] + s[k..];
    }
  }
}
