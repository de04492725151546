/** The wire layout shared by both decoders: a fixed 69-byte little-endian
    header of twenty fields, followed by signed 16-bit samples. The two
    IEEE-754 fields (FlowCalculated, Volume) are kept as their raw bit
    patterns. */
module FrameFormat {
  import opened Wrappers
  import opened LittleEndian
  import opened BinaryReading
  import opened Sequences

  /** Size of the fixed header, in bytes. */
  const HeaderSize: nat := 69

  /** Byte offset of the first trailing sample: ArrayLength is the last
      header field, at 67..68. */
  const ArrayLengthOffset: nat := 67

  datatype Header = Header(
    tofUpE12: u32,
    tofDnE12: u32,
    ampUp: i16,
    ampDn: i16,
    pwrUp: byte,
    pwrDn: byte,
    pwrMin: byte,
    pwrMax: byte,
    visE14: u64,
    reynE6: u64,
    kfE6: u32,
    ucvE6: i32,
    sosE6: u32,
    flowE6: i32,
    flowCalculatedBits: u32,
    statusWm: u32,
    temperatureE1: i16,
    fhl: byte,
    volumeBits: u64,
    arrayLength: u16)

  /** The header fields at their offsets 0, 4, 8, 10, 12..15, 16, 24, 32, 36,
      40, 44, 48, 52, 56, 58, 59 and 67 of s. */
  function DecodeHeader(s: seq<byte>): Header
    requires |s| >= HeaderSize
  {
    Header(
      tofUpE12 := U32At(s, 0),
      tofDnE12 := U32At(s, 4),
      ampUp := I16At(s, 8),
      ampDn := I16At(s, 10),
      pwrUp := s[12],
      pwrDn := s[13],
      pwrMin := s[14],
      pwrMax := s[15],
      visE14 := U64At(s, 16),
      reynE6 := U64At(s, 24),
      kfE6 := U32At(s, 32),
      ucvE6 := I32At(s, 36),
      sosE6 := U32At(s, 40),
      flowE6 := I32At(s, 44),
      flowCalculatedBits := U32At(s, 48),
      statusWm := U32At(s, 52),
      temperatureE1 := I16At(s, 56),
      fhl := s[58],
      volumeBits := U64At(s, 59),
      arrayLength := U16At(s, 67))
  }

  /** The 69 bytes a device writes for h. */
  function EncodeHeader(h: Header): (s: seq<byte>)
    ensures |s| == HeaderSize
  {
    Pow256Values();
    EncodeUnsigned(h.tofUpE12, 4) + EncodeUnsigned(h.tofDnE12, 4)
    + EncodeSigned(h.ampUp, 2) + EncodeSigned(h.ampDn, 2)
    + [h.pwrUp, h.pwrDn, h.pwrMin, h.pwrMax]
    + EncodeUnsigned(h.visE14, 8) + EncodeUnsigned(h.reynE6, 8)
    + EncodeUnsigned(h.kfE6, 4) + EncodeSigned(h.ucvE6, 4)
    + EncodeUnsigned(h.sosE6, 4) + EncodeSigned(h.flowE6, 4)
    + EncodeUnsigned(h.flowCalculatedBits, 4) + EncodeUnsigned(h.statusWm, 4)
    + EncodeSigned(h.temperatureE1, 2) + [h.fhl]
    + EncodeUnsigned(h.volumeBits, 8) + EncodeUnsigned(h.arrayLength, 2)
  }

  /** Decoding what EncodeHeader wrote gives back every field, whatever
      bytes follow the header. */
  lemma HeaderRoundTrip(h: Header, tail: seq<byte>)
    ensures DecodeHeader(EncodeHeader(h) + tail) == h
  {
    var s := EncodeHeader(h) + tail;
    TransducerFieldsRoundTrip(h, s, tail);
    FlowFieldsRoundTrip(h, s, tail);
    StatusFieldsRoundTrip(h, s, tail);
  }

  lemma TransducerFieldsRoundTrip(h: Header, s: seq<byte>, tail: seq<byte>)
    requires s == EncodeHeader(h) + tail
    ensures U32At(s, 0) == h.tofUpE12 && U32At(s, 4) == h.tofDnE12
    ensures I16At(s, 8) == h.ampUp && I16At(s, 10) == h.ampDn
    ensures s[12] == h.pwrUp && s[13] == h.pwrDn && s[14] == h.pwrMin && s[15] == h.pwrMax
  {
    Pow256Values();
    assert s[0..4] == EncodeUnsigned(h.tofUpE12, 4);
    assert s[4..8] == EncodeUnsigned(h.tofDnE12, 4);
    assert s[8..10] == EncodeSigned(h.ampUp, 2);
    assert s[10..12] == EncodeSigned(h.ampDn, 2);
    UnsignedRoundTrip(h.tofUpE12, 4);
    UnsignedRoundTrip(h.tofDnE12, 4);
    SignedRoundTrip(h.ampUp, 2);
    SignedRoundTrip(h.ampDn, 2);
  }

  lemma FlowFieldsRoundTrip(h: Header, s: seq<byte>, tail: seq<byte>)
    requires s == EncodeHeader(h) + tail
    ensures U64At(s, 16) == h.visE14 && U64At(s, 24) == h.reynE6
    ensures U32At(s, 32) == h.kfE6 && I32At(s, 36) == h.ucvE6
    ensures U32At(s, 40) == h.sosE6 && I32At(s, 44) == h.flowE6
  {
    Pow256Values();
    assert s[16..24] == EncodeUnsigned(h.visE14, 8);
    assert s[24..32] == EncodeUnsigned(h.reynE6, 8);
    assert s[32..36] == EncodeUnsigned(h.kfE6, 4);
    assert s[36..40] == EncodeSigned(h.ucvE6, 4);
    assert s[40..44] == EncodeUnsigned(h.sosE6, 4);
    assert s[44..48] == EncodeSigned(h.flowE6, 4);
    UnsignedRoundTrip(h.visE14, 8);
    UnsignedRoundTrip(h.reynE6, 8);
    UnsignedRoundTrip(h.kfE6, 4);
    SignedRoundTrip(h.ucvE6, 4);
    UnsignedRoundTrip(h.sosE6, 4);
    SignedRoundTrip(h.flowE6, 4);
  }

  lemma StatusFieldsRoundTrip(h: Header, s: seq<byte>, tail: seq<byte>)
    requires s == EncodeHeader(h) + tail
    ensures U32At(s, 48) == h.flowCalculatedBits && U32At(s, 52) == h.statusWm
    ensures I16At(s, 56) == h.temperatureE1 && s[58] == h.fhl
    ensures U64At(s, 59) == h.volumeBits && U16At(s, 67) == h.arrayLength
  {
    Pow256Values();
    assert s[48..52] == EncodeUnsigned(h.flowCalculatedBits, 4);
    assert s[52..56] == EncodeUnsigned(h.statusWm, 4);
    assert s[56..58] == EncodeSigned(h.temperatureE1, 2);
    assert s[59..67] == EncodeUnsigned(h.volumeBits, 8);
    assert s[67..69] == EncodeUnsigned(h.arrayLength, 2);
    UnsignedRoundTrip(h.flowCalculatedBits, 4);
    UnsignedRoundTrip(h.statusWm, 4);
    SignedRoundTrip(h.temperatureE1, 2);
    UnsignedRoundTrip(h.volumeBits, 8);
    UnsignedRoundTrip(h.arrayLength, 2);
  }

  /** Re-encoding the decoded header reproduces the first 69 bytes exactly:
      no header byte is lost or reinterpreted. */
  lemma HeaderReencodes(s: seq<byte>)
    requires |s| >= HeaderSize
    ensures EncodeHeader(DecodeHeader(s)) == s[..HeaderSize]
  {
    Pow256Values();
    var h := DecodeHeader(s);
    UnsignedInjective(s[0..4]);
    UnsignedInjective(s[4..8]);
    SignedInjective(s[8..10]);
    SignedInjective(s[10..12]);
    UnsignedInjective(s[16..24]);
    UnsignedInjective(s[24..32]);
    UnsignedInjective(s[32..36]);
    SignedInjective(s[36..40]);
    UnsignedInjective(s[40..44]);
    SignedInjective(s[44..48]);
    UnsignedInjective(s[48..52]);
    UnsignedInjective(s[52..56]);
    SignedInjective(s[56..58]);
    UnsignedInjective(s[59..67]);
    UnsignedInjective(s[67..69]);
    var e := EncodeUnsigned(h.tofUpE12, 4);
    assert e == s[..4];
    e := e + EncodeUnsigned(h.tofDnE12, 4);
    assert e == s[..8];
    e := e + EncodeSigned(h.ampUp, 2);
    assert e == s[..10];
    e := e + EncodeSigned(h.ampDn, 2);
    assert e == s[..12];
    e := e + [h.pwrUp, h.pwrDn, h.pwrMin, h.pwrMax];
    assert e == s[..16];
    e := e + EncodeUnsigned(h.visE14, 8);
    assert e == s[..24];
    e := e + EncodeUnsigned(h.reynE6, 8);
    assert e == s[..32];
    e := e + EncodeUnsigned(h.kfE6, 4);
    assert e == s[..36];
    e := e + EncodeSigned(h.ucvE6, 4);
    assert e == s[..40];
    e := e + EncodeUnsigned(h.sosE6, 4);
    assert e == s[..44];
    e := e + EncodeSigned(h.flowE6, 4);
    assert e == s[..48];
    e := e + EncodeUnsigned(h.flowCalculatedBits, 4);
    assert e == s[..52];
    e := e + EncodeUnsigned(h.statusWm, 4);
    assert e == s[..56];
    e := e + EncodeSigned(h.temperatureE1, 2);
    assert e == s[..58];
    e := e + [h.fhl];
    assert e == s[..59];
    e := e + EncodeUnsigned(h.volumeBits, 8);
    assert e == s[..67];
    e := e + EncodeUnsigned(h.arrayLength, 2);
    assert e == s[..69];
  }

  /** The first k signed 16-bit samples of s, in buffer order. */
  function Samples(s: seq<byte>, k: nat): (r: seq<i16>)
    requires 2 * k <= |s|
    ensures |r| == k
  {
    if k == 0 then [] else [I16At(s, 0)] + Samples(s[2..], k - 1)
  }

  /** Sample i is the two's-complement value of bytes 2i and 2i+1. */
  lemma {:induction false} SampleAt(s: seq<byte>, k: nat, i: nat)
    requires 2 * k <= |s| && i < k
    ensures Samples(s, k)[i] == I16At(s, 2 * i)
  {
    if i > 0 {
      SampleAt(s[2..], k - 1, i - 1);
      assert s[2..][2 * (i - 1)..2 * (i - 1) + 2] == s[2 * i..2 * i + 2];
    }
  }

  /** Reading one more sample appends it: the step of a decoding loop. */
  lemma {:induction false} SamplesSnoc(s: seq<byte>, k: nat)
    requires 2 * (k + 1) <= |s|
    ensures Samples(s, k + 1) == Samples(s, k) + [I16At(s, 2 * k)]
  {
    if k > 0 {
      SamplesSnoc(s[2..], k - 1);
      assert s[2..][2 * (k - 1)..2 * (k - 1) + 2] == s[2 * k..2 * k + 2];
    }
  }

  /** Samples look only at the first 2k bytes. */
  lemma {:induction false} SamplesPrefix(s: seq<byte>, t: seq<byte>, k: nat)
    requires 2 * k <= |s| && 2 * k <= |t| && s[..2 * k] == t[..2 * k]
    ensures Samples(s, k) == Samples(t, k)
  {
    if k > 0 {
      assert s[..2] == s[..2 * k][..2] == t[..2 * k][..2] == t[..2];
      assert s[2..][..2 * (k - 1)] == s[..2 * k][2..] == t[..2 * k][2..] == t[2..][..2 * (k - 1)];
      SamplesPrefix(s[2..], t[2..], k - 1);
    }
  }

  /** The bytes of the samples xs, two per sample, in order. */
  function EncodeSamples(xs: seq<i16>): (s: seq<byte>)
    ensures |s| == 2 * |xs|
  {
    if xs == [] then []
    else
      Pow256Values();
      EncodeSigned(xs[0], 2) + EncodeSamples(xs[1..])
  }

  lemma {:induction false} SamplesRoundTrip(xs: seq<i16>, tail: seq<byte>)
    ensures Samples(EncodeSamples(xs) + tail, |xs|) == xs
  {
    if xs != [] {
      Pow256Values();
      var s := EncodeSamples(xs) + tail;
      assert s[..2] == EncodeSigned(xs[0], 2);
      SignedRoundTrip(xs[0], 2);
      assert s[2..] == EncodeSamples(xs[1..]) + tail;
      SamplesRoundTrip(xs[1..], tail);
    }
  }

  lemma {:induction false} SamplesReencode(s: seq<byte>, k: nat)
    requires 2 * k <= |s|
    ensures EncodeSamples(Samples(s, k)) == s[..2 * k]
  {
    if k > 0 {
      Pow256Values();
      SignedInjective(s[..2]);
      SamplesReencode(s[2..], k - 1);
      assert s[..2 * k] == s[..2] + s[2..][..2 * (k - 1)];
    }
  }

  /** A frame written as a header, the samples xs and then tail decodes
      to that header and, from byte 69 on, to those samples. */
  lemma FrameRoundTrip(h: Header, xs: seq<i16>, tail: seq<byte>)
    ensures var raw := EncodeHeader(h) + EncodeSamples(xs) + tail;
      DecodeHeader(raw) == h && Samples(raw[HeaderSize..], |xs|) == xs
  {
    Associate(EncodeHeader(h), EncodeSamples(xs), tail);
    HeaderRoundTrip(h, EncodeSamples(xs) + tail);
    SamplesRoundTrip(xs, tail);
  }

  /** FromBytes and ParseRawData read the header field by field through the
      reader, from the start of the buffer. The header comes back exactly
      when the buffer holds 69 bytes; otherwise one of the twenty reads
      throws. The twenty reads are grouped in three runs (time of flight,
      amplitude and power; the flow quantities; status and totals) only to
      keep each proof small. */
  method ReadHeader(reader: BinaryReader) returns (r: Option<Header>)
    requires reader.Valid() && reader.position == 0
    modifies reader
    ensures reader.Valid()
    ensures r.Some? <==> |reader.data| >= HeaderSize
    ensures r.Some? ==> r.value == DecodeHeader(reader.data) && reader.position == HeaderSize
  {
    var t :- ReadTransducerFields(reader);
    var f :- ReadFlowFields(reader);
    var s :- ReadStatusFields(reader);
    return Some(Header(t.0, t.1, t.2, t.3, t.4, t.5, t.6, t.7,
                       f.0, f.1, f.2, f.3, f.4, f.5,
                       s.0, s.1, s.2, s.3, s.4, s.5));
  }

  /** TofUpE12, TofDnE12, AmpUp, AmpDn, PwrUp, PwrDn, PwrMin, PwrMax: bytes 0..15. */
  method ReadTransducerFields(reader: BinaryReader) returns (r: Option<(u32, u32, i16, i16, byte, byte, byte, byte)>)
    requires reader.Valid() && reader.position == 0
    modifies reader
    ensures reader.Valid()
    ensures r.Some? <==> |reader.data| >= 16
    ensures r.Some? ==> reader.position == 16
    ensures r.Some? ==> var d := reader.data;
      r.value == (U32At(d, 0), U32At(d, 4), I16At(d, 8), I16At(d, 10), d[12], d[13], d[14], d[15])
  {
    var tofUpE12 :- reader.ReadUInt32();
    assert reader.position == 4;
    var tofDnE12 :- reader.ReadUInt32();
    assert reader.position == 8;
    var ampUp :- reader.ReadInt16();
    assert reader.position == 10;
    var ampDn :- reader.ReadInt16();
    assert reader.position == 12;
    var pwrUp :- reader.ReadByte();
    assert reader.position == 13;
    var pwrDn :- reader.ReadByte();
    assert reader.position == 14;
    var pwrMin :- reader.ReadByte();
    assert reader.position == 15;
    var pwrMax :- reader.ReadByte();
    return Some((tofUpE12, tofDnE12, ampUp, ampDn, pwrUp, pwrDn, pwrMin, pwrMax));
  }

  /** VisE14, ReynE6, KfE6, UcvE6, SosE6, FlowE6: bytes 16..47. */
  method ReadFlowFields(reader: BinaryReader) returns (r: Option<(u64, u64, u32, i32, u32, i32)>)
    requires reader.Valid() && reader.position == 16
    modifies reader
    ensures reader.Valid()
    ensures r.Some? <==> |reader.data| >= 48
    ensures r.Some? ==> reader.position == 48
    ensures r.Some? ==> var d := reader.data;
      r.value == (U64At(d, 16), U64At(d, 24), U32At(d, 32), I32At(d, 36), U32At(d, 40), I32At(d, 44))
  {
    var visE14 :- reader.ReadUInt64();
    assert reader.position == 24;
    var reynE6 :- reader.ReadUInt64();
    assert reader.position == 32;
    var kfE6 :- reader.ReadUInt32();
    assert reader.position == 36;
    var ucvE6 :- reader.ReadInt32();
    assert reader.position == 40;
    var sosE6 :- reader.ReadUInt32();
    assert reader.position == 44;
    var flowE6 :- reader.ReadInt32();
    return Some((visE14, reynE6, kfE6, ucvE6, sosE6, flowE6));
  }

  /** FlowCalculated, StatusWm, TemperatureE1, Fhl, Volume, ArrayLength:
      bytes 48..68. ReadSingle and ReadDouble are kept as the raw four and
      eight bytes of the float. */
  method ReadStatusFields(reader: BinaryReader) returns (r: Option<(u32, u32, i16, byte, u64, u16)>)
    requires reader.Valid() && reader.position == 48
    modifies reader
    ensures reader.Valid()
    ensures r.Some? <==> |reader.data| >= HeaderSize
    ensures r.Some? ==> reader.position == HeaderSize
    ensures r.Some? ==> var d := reader.data;
      r.value == (U32At(d, 48), U32At(d, 52), I16At(d, 56), d[58], U64At(d, 59), U16At(d, 67))
  {
    var flowCalculatedBits :- reader.ReadUInt32();
    assert reader.position == 52;
    var statusWm :- reader.ReadUInt32();
    assert reader.position == 56;
    var temperatureE1 :- reader.ReadInt16();
    assert reader.position == 58;
    var fhl :- reader.ReadByte();
    assert reader.position == 59;
    var volumeBits :- reader.ReadUInt64();
    assert reader.position == 67;
    var arrayLength :- reader.ReadUInt16();
    return Some((flowCalculatedBits, statusWm, temperatureE1, fhl, volumeBits, arrayLength));
  }
}
