/** FlowRecord.FromBytes (TestProject/FlowRecord.cs): the fixed header, then
    as many signed 16-bit samples as the bytes after the header hold,
    (length - 69) / 2 of them. The declared ArrayLength is not consulted,
    and an odd trailing byte is left unread. */
module FromBytesDecoder {
  import opened Wrappers
  import opened LittleEndian
  import opened BinaryReading
  import opened FrameFormat
  import opened Sequences

  /** The record FlowRecord.cs declares: the header fields and VariableArray. */
  datatype FlowRecord = FlowRecord(header: Header, variableArray: seq<i16>)

  /** The record FromBytes builds from raw, or None where it throws. */
  function Decode(raw: seq<byte>): (r: Option<FlowRecord>)
    ensures r.Some? <==> |raw| >= HeaderSize
  {
    if |raw| < HeaderSize then None
    else Some(FlowRecord(DecodeHeader(raw), Samples(raw[HeaderSize..], (|raw| - HeaderSize) / 2)))
  }

  /** The bytes of a frame that carries r: header, then the samples. */
  function Encode(r: FlowRecord): (raw: seq<byte>)
    ensures |raw| == HeaderSize + 2 * |r.variableArray|
  {
    EncodeHeader(r.header) + EncodeSamples(r.variableArray)
  }

  method FromBytes(raw: seq<byte>) returns (r: Option<FlowRecord>)
    ensures r == Decode(raw)
    ensures r.Some? ==> |r.value.variableArray| == (|raw| - HeaderSize) / 2
  {
    var reader := new BinaryReader(raw);
    var header :- ReadHeader(reader);
    // the remaining byte count, not the declared ArrayLength, sizes the array
    var remainingBytes := reader.Remaining();
    var estimatedLength := remainingBytes / 2;
    var variableArray := ReadVariableArray(reader, estimatedLength);
    return Some(FlowRecord(header, variableArray[..]));
  }

  /** The loop of FromBytes that fills VariableArray: count samples read one
      after the other from the end of the header. It is a method of its own
      only to keep the proof of FromBytes small. */
  method ReadVariableArray(reader: BinaryReader, count: nat) returns (variableArray: array<i16>)
    requires reader.Valid() && reader.position == HeaderSize
    requires HeaderSize + 2 * count <= |reader.data|
    modifies reader
    ensures fresh(variableArray)
    ensures variableArray[..] == Samples(reader.data[HeaderSize..], count)
  {
    variableArray := new i16[count];
    for i := 0 to count
      invariant reader.Valid() && reader.position == HeaderSize + 2 * i
      invariant variableArray[..i] == Samples(reader.data[HeaderSize..], i)
    {
      var sample := reader.ReadInt16();
      variableArray[i] := sample.value;
      SamplesSnoc(reader.data[HeaderSize..], i);
      SliceOfSuffix(reader.data, HeaderSize, 2 * i, 2 * i + 2);
    }
    assert variableArray[..] == variableArray[..count];
  }

  /** Sample i is the signed little-endian value of bytes 69 + 2i and 70 + 2i. */
  lemma DecodeSampleAt(raw: seq<byte>, i: nat)
    requires |raw| >= HeaderSize && i < (|raw| - HeaderSize) / 2
    ensures |Decode(raw).value.variableArray| == (|raw| - HeaderSize) / 2
    ensures Decode(raw).value.variableArray[i] == I16At(raw, HeaderSize + 2 * i)
  {
    SampleAt(raw[HeaderSize..], (|raw| - HeaderSize) / 2, i);
    SliceOfSuffix(raw, HeaderSize, 2 * i, 2 * i + 2);
  }

  /** Rewriting the declared ArrayLength (bytes 67 and 68) changes that
      field of the record and nothing else: the samples stay the same. */
  lemma DecodeIgnoresArrayLength(raw: seq<byte>, lo: byte, hi: byte)
    requires |raw| >= HeaderSize
    ensures var raw' := raw[..ArrayLengthOffset] + [lo, hi] + raw[HeaderSize..];
      var r := Decode(raw).value;
      Decode(raw') == Some(r.(header := r.header.(arrayLength := Unsigned([lo, hi]))))
  {
    var raw' := raw[..ArrayLengthOffset] + [lo, hi] + raw[HeaderSize..];
    assert raw'[..ArrayLengthOffset] == raw[..ArrayLengthOffset];
    assert raw'[ArrayLengthOffset..HeaderSize] == [lo, hi];
    assert raw'[HeaderSize..] == raw[HeaderSize..];
    HeaderPrefix(raw, raw');
  }

  /** The header fields before ArrayLength depend only on bytes 0..66. */
  lemma HeaderPrefix(s: seq<byte>, t: seq<byte>)
    requires |s| >= HeaderSize && |t| >= HeaderSize
    requires s[..ArrayLengthOffset] == t[..ArrayLengthOffset]
    ensures DecodeHeader(t) == DecodeHeader(s).(arrayLength := DecodeHeader(t).arrayLength)
  {
    var p := s[..ArrayLengthOffset];
    assert forall i | 0 <= i < ArrayLengthOffset :: s[i] == p[i] == t[i];
    assert s[0..4] == t[0..4] && s[4..8] == t[4..8];
    assert s[8..10] == t[8..10] && s[10..12] == t[10..12];
    assert s[16..24] == t[16..24] && s[24..32] == t[24..32];
    assert s[32..36] == t[32..36] && s[36..40] == t[36..40];
    assert s[40..44] == t[40..44] && s[44..48] == t[44..48];
    assert s[48..52] == t[48..52] && s[52..56] == t[52..56];
    assert s[56..58] == t[56..58] && s[59..67] == t[59..67];
  }

  /** A dangling odd byte after the samples is never read: decoding with or
      without it gives the same record. */
  lemma DecodeOddTailIgnored(raw: seq<byte>, b: byte)
    requires |raw| >= HeaderSize && (|raw| - HeaderSize) % 2 == 0
    ensures Decode(raw + [b]) == Decode(raw)
  {
    var k := (|raw| - HeaderSize) / 2;
    assert (raw + [b])[..HeaderSize] == raw[..HeaderSize];
    HeaderPrefix(raw, raw + [b]);
    assert (raw + [b])[HeaderSize..][..2 * k] == raw[HeaderSize..][..2 * k];
    SamplesPrefix((raw + [b])[HeaderSize..], raw[HeaderSize..], k);
  }

  /** A frame of any header and k samples decodes to that header and those
      k samples, whatever its ArrayLength field says and whether or not an
      odd byte trails it. */
  lemma DecodeRoundTrip(r: FlowRecord, tail: seq<byte>)
    requires |tail| <= 1
    ensures Decode(Encode(r) + tail) == Some(r)
  {
    FrameRoundTrip(r.header, r.variableArray, tail);
  }

  /** Re-encoding a decoded record gives back the buffer without its
      dangling odd byte, if any: nothing else is dropped or altered. */
  lemma DecodeReencodes(raw: seq<byte>)
    requires |raw| >= HeaderSize
    ensures Encode(Decode(raw).value) == raw[..HeaderSize + 2 * ((|raw| - HeaderSize) / 2)]
  {
    var k := (|raw| - HeaderSize) / 2;
    HeaderReencodes(raw);
    SamplesReencode(raw[HeaderSize..], k);
    assert raw[..HeaderSize + 2 * k] == raw[..HeaderSize] + raw[HeaderSize..][..2 * k];
  }
}
