/** Bytes and the little-endian integer encodings that System.IO.BinaryReader
    reads: unsigned values of 1, 2, 4 and 8 bytes and their two's-complement
    signed counterparts. */
module LittleEndian {

  /** One byte, also the C# byte (unsigned 8-bit) fields. */
  type byte = x: int | 0 <= x < 0x100

  type u16 = x: int | 0 <= x < 0x1_0000
  type u32 = x: int | 0 <= x < 0x1_0000_0000
  type u64 = x: int | 0 <= x < 0x1_0000_0000_0000_0000
  type i16 = x: int | -0x8000 <= x < 0x8000
  type i32 = x: int | -0x8000_0000 <= x < 0x8000_0000

  /** 256 to the power n: the number of distinct values n bytes can hold. */
  function Pow256(n: nat): (p: nat)
    ensures p > 0
  {
    if n == 0 then 1 else 0x100 * Pow256(n - 1)
  }

  /** Half the value range of width bytes: signed values lie in
      [-SignedLimit(width), SignedLimit(width)). */
  function SignedLimit(width: nat): (m: int)
    ensures width > 0 ==> 2 * m == Pow256(width)
  {
    if width == 0 then 0 else 0x80 * Pow256(width - 1)
  }

  lemma Pow256Values()
    ensures Pow256(1) == 0x100 && Pow256(2) == 0x1_0000
    ensures Pow256(4) == 0x1_0000_0000
    ensures Pow256(8) == 0x1_0000_0000_0000_0000
  {
  }

  /** The value of s read little-endian: s[0] is the least significant byte. */
  function Unsigned(s: seq<byte>): (v: nat)
    ensures v < Pow256(|s|)
  {
    if s == [] then 0 else s[0] + 0x100 * Unsigned(s[1..])
  }

  /** The value of s read as a two's-complement signed integer of |s| bytes. */
  function Signed(s: seq<byte>): (v: int)
    requires |s| > 0
    ensures -SignedLimit(|s|) <= v < SignedLimit(|s|)
    ensures v >= 0 ==> v == Unsigned(s)
    ensures v < 0 ==> v + Pow256(|s|) == Unsigned(s)
  {
    var u := Unsigned(s);
    if u < SignedLimit(|s|) then u else u - Pow256(|s|)
  }

  /** The width bytes that hold v little-endian. */
  function EncodeUnsigned(v: nat, width: nat): (s: seq<byte>)
    requires v < Pow256(width)
    ensures |s| == width
  {
    if width == 0 then []
    else
      assert v / 0x100 < Pow256(width - 1);
      [v % 0x100] + EncodeUnsigned(v / 0x100, width - 1)
  }

  /** The width bytes that hold v in two's complement. */
  function EncodeSigned(v: int, width: nat): (s: seq<byte>)
    requires width > 0 && -SignedLimit(width) <= v < SignedLimit(width)
    ensures |s| == width
  {
    EncodeUnsigned(if v < 0 then v + Pow256(width) else v, width)
  }

  lemma {:induction false} UnsignedRoundTrip(v: nat, width: nat)
    requires v < Pow256(width)
    ensures Unsigned(EncodeUnsigned(v, width)) == v
  {
    if width > 0 {
      var s := EncodeUnsigned(v, width);
      UnsignedRoundTrip(v / 0x100, width - 1);
      assert s[1..] == EncodeUnsigned(v / 0x100, width - 1);
    }
  }

  lemma {:induction false} UnsignedInjective(s: seq<byte>)
    ensures EncodeUnsigned(Unsigned(s), |s|) == s
  {
    if s != [] {
      var v := Unsigned(s);
      assert v % 0x100 == s[0] && v / 0x100 == Unsigned(s[1..]);
      UnsignedInjective(s[1..]);
    }
  }

  lemma SignedRoundTrip(v: int, width: nat)
    requires width > 0 && -SignedLimit(width) <= v < SignedLimit(width)
    ensures Signed(EncodeSigned(v, width)) == v
  {
    var u := if v < 0 then v + Pow256(width) else v;
    UnsignedRoundTrip(u, width);
  }

  lemma SignedInjective(s: seq<byte>)
    requires |s| > 0
    ensures EncodeSigned(Signed(s), |s|) == s
  {
    UnsignedInjective(s);
  }

  /** The fixed-width values at byte offset p of s, as BinaryReader's
      ReadUInt16, ReadInt16, ReadUInt32, ReadInt32 and ReadUInt64 read them. */
  function U16At(s: seq<byte>, p: nat): u16
    requires p + 2 <= |s|
  {
    Pow256Values();
    Unsigned(s[p..p + 2])
  }

  function I16At(s: seq<byte>, p: nat): i16
    requires p + 2 <= |s|
  {
    Pow256Values();
    Signed(s[p..p + 2])
  }

  function U32At(s: seq<byte>, p: nat): u32
    requires p + 4 <= |s|
  {
    Pow256Values();
    Unsigned(s[p..p + 4])
  }

  function I32At(s: seq<byte>, p: nat): i32
    requires p + 4 <= |s|
  {
    Pow256Values();
    Signed(s[p..p + 4])
  }

  function U64At(s: seq<byte>, p: nat): u64
    requires p + 8 <= |s|
  {
    Pow256Values();
    Unsigned(s[p..p + 8])
  }
}
