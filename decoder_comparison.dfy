/** The two decoders side by side: on a buffer whose bytes after the header
    come in pairs they build the same header and the same samples; on one
    with an odd byte left over FromBytes drops that byte and succeeds,
    while ParseRawData fails outright. */
module DecoderComparison {
  import opened Wrappers
  import opened LittleEndian
  import opened FrameFormat
  import FromBytesDecoder
  import StreamParser

  lemma DecodersAgreeOnEvenTails(raw: seq<byte>)
    requires |raw| >= HeaderSize
    ensures StreamParser.Parse(raw).Some? <==> (|raw| - HeaderSize) % 2 == 0
    ensures StreamParser.Parse(raw).Some? ==>
      var a := FromBytesDecoder.Decode(raw).value;
      var b := StreamParser.Parse(raw).value;
      a.header == b.header && a.variableArray == b.dataArray
  {
  }

  /** An odd trailing byte: FromBytes keeps the record of the buffer without
      it, ParseRawData returns null. */
  lemma DecodersDisagreeOnOddTails(raw: seq<byte>, b: byte)
    requires |raw| >= HeaderSize && (|raw| - HeaderSize) % 2 == 0
    ensures StreamParser.Parse(raw + [b]) == None
    ensures FromBytesDecoder.Decode(raw + [b]).Some?
    ensures FromBytesDecoder.Decode(raw + [b]).value.variableArray == StreamParser.Parse(raw).value.dataArray
  {
    FromBytesDecoder.DecodeOddTailIgnored(raw, b);
  }
}
