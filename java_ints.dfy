/** Java's fixed-width integers and their big-endian byte encodings, as written by
    DataOutputStream.writeInt/writeLong and ByteBuffer.putInt/putLong, and read back by
    DataInputStream.readInt/readLong. */
module JavaInts {

  /** One octet on the wire. */
  newtype byte = b: int | 0 <= b < 256

  const INT32_MIN: int := -0x8000_0000
  const INT32_MAX: int := 0x7FFF_FFFF
  const INT64_MIN: int := -0x8000_0000_0000_0000
  const INT64_MAX: int := 0x7FFF_FFFF_FFFF_FFFF

  predicate IsInt32(x: int) { INT32_MIN <= x <= INT32_MAX }
  predicate IsInt64(x: int) { INT64_MIN <= x <= INT64_MAX }

  function Min(a: int, b: int): int { if a <= b then a else b }
  function Max(a: int, b: int): int { if a >= b then a else b }

  /** 256^n, the number of values an n-byte field can hold. */
  function Pow256(n: nat): (r: nat)
    ensures r >= 1
  {
    if n == 0 then 1 else 256 * Pow256(n - 1)
  }

  lemma Pow256Widths()
    ensures Pow256(4) == 0x1_0000_0000
    ensures Pow256(8) == 0x1_0000_0000_0000_0000
  {
    assert Pow256(2) == 0x1_0000;
    assert Pow256(4) == 0x1_0000_0000;
    assert Pow256(6) == 0x1_0000_0000_0000;
  }

  /** Unsigned big-endian encoding of x in exactly `width` bytes, most significant first. */
  function ToBigEndian(x: nat, width: nat): (r: seq<byte>)
    requires x < Pow256(width)
    ensures |r| == width
  {
    if width == 0 then [] else ToBigEndian(x / 256, width - 1) + [(x % 256) as byte]
  }

  /** The unsigned value of a big-endian byte string. */
  function FromBigEndian(s: seq<byte>): (r: nat)
    ensures r < Pow256(|s|)
  {
    if s == [] then 0 else FromBigEndian(s[..|s| - 1]) * 256 + s[|s| - 1] as int
  }

  lemma {:induction false} FromToBigEndian(x: nat, width: nat)
    requires x < Pow256(width)
    ensures FromBigEndian(ToBigEndian(x, width)) == x
  {
    if width > 0 {
      var s := ToBigEndian(x, width);
      assert s[..width - 1] == ToBigEndian(x / 256, width - 1);
      FromToBigEndian(x / 256, width - 1);
    }
  }

  lemma {:induction false} ToFromBigEndian(s: seq<byte>)
    ensures ToBigEndian(FromBigEndian(s), |s|) == s
  {
    if s != [] {
      var init, last := s[..|s| - 1], s[|s| - 1];
      var x := FromBigEndian(s);
      assert x / 256 == FromBigEndian(init);
      assert x % 256 == last as int;
      ToFromBigEndian(init);
      assert s == init + [last];
    }
  }

  /** Two's-complement big-endian encoding of a Java int (4 bytes). */
  function Int32ToBytes(x: int): (r: seq<byte>)
    requires IsInt32(x)
    ensures |r| == 4
  {
    Pow256Widths();
    ToBigEndian(if x < 0 then x + 0x1_0000_0000 else x, 4)
  }

  /** The Java int that DataInputStream.readInt yields for four bytes. */
  function BytesToInt32(s: seq<byte>): (x: int)
    requires |s| == 4
    ensures IsInt32(x)
  {
    Pow256Widths();
    var u := FromBigEndian(s);
    if u > INT32_MAX then u - 0x1_0000_0000 else u
  }

  /** Two's-complement big-endian encoding of a Java long (8 bytes). */
  function Int64ToBytes(x: int): (r: seq<byte>)
    requires IsInt64(x)
    ensures |r| == 8
  {
    Pow256Widths();
    ToBigEndian(if x < 0 then x + 0x1_0000_0000_0000_0000 else x, 8)
  }

  /** The Java long that DataInputStream.readLong yields for eight bytes. */
  function BytesToInt64(s: seq<byte>): (x: int)
    requires |s| == 8
    ensures IsInt64(x)
  {
    Pow256Widths();
    var u := FromBigEndian(s);
    if u > INT64_MAX then u - 0x1_0000_0000_0000_0000 else u
  }

  lemma Int32RoundTrip(x: int)
    requires IsInt32(x)
    ensures BytesToInt32(Int32ToBytes(x)) == x
  {
    Pow256Widths();
    FromToBigEndian(if x < 0 then x + 0x1_0000_0000 else x, 4);
  }

  lemma Int32BytesRoundTrip(s: seq<byte>)
    requires |s| == 4
    ensures Int32ToBytes(BytesToInt32(s)) == s
  {
    Pow256Widths();
    ToFromBigEndian(s);
  }

  lemma Int64RoundTrip(x: int)
    requires IsInt64(x)
    ensures BytesToInt64(Int64ToBytes(x)) == x
  {
    Pow256Widths();
    FromToBigEndian(if x < 0 then x + 0x1_0000_0000_0000_0000 else x, 8);
  }

  lemma Int64BytesRoundTrip(s: seq<byte>)
    requires |s| == 8
    ensures Int64ToBytes(BytesToInt64(s)) == s
  {
    Pow256Widths();
    ToFromBigEndian(s);
  }

  /** A negative Java long is exactly one whose first byte has its top bit set. */
  lemma {:induction false} Int64SignBit(s: seq<byte>)
    requires |s| == 8
    ensures BytesToInt64(s) < 0 <==> s[0] >= 0x80
  {
    Pow256Widths();
    LeadingByte(s);
  }

  lemma {:induction false} LeadingByte(s: seq<byte>)
    requires |s| > 0
    ensures s[0] as int * Pow256(|s| - 1) <= FromBigEndian(s) < (s[0] as int + 1) * Pow256(|s| - 1)
  {
    if |s| > 1 {
      var init := s[..|s| - 1];
      LeadingByte(init);
      assert init[0] == s[0];
      ShiftInByte(s[0] as int, Pow256(|s| - 2), FromBigEndian(init), s[|s| - 1] as int);
    }
  }

  /** Appending a low byte keeps the leading byte's share: the arithmetic step of LeadingByte. */
  lemma ShiftInByte(a: int, p: int, f: int, b: int)
    requires a * p <= f < (a + 1) * p
    requires 0 <= b < 256
    ensures a * (256 * p) <= f * 256 + b < (a + 1) * (256 * p)
  {
    assert a * (256 * p) == (a * p) * 256;
    assert (a + 1) * (256 * p) == ((a + 1) * p) * 256;
  }
}
