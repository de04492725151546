# Flow telemetry frame decoding, in Dafny

The system receives binary frames from an ultrasonic flow meter. Each frame
is a 69-byte little-endian header followed by signed 16-bit samples of a
sine wave. A parser turns every frame into a flow record and keeps the
records in arrival order. The richer parser can also:

- join all records' samples into one reconstructed signal;
- compute the minimum, maximum and mean flow;
- list the records at which the status word changes.

The repository has two independent implementations, and both are modelled.

- `TestProject/FlowRecord.cs` with `TestProject/FlowDataParser.cs`. `FromBytes`
  reads the header and then `(remaining bytes) / 2` samples. It ignores the
  declared ArrayLength (the "firmware bug") and drops an odd trailing byte.
  The store appends every decoded record, and `GetRecords` returns a copy.
- `TestProject/Parser.cs`. `ParseRawData` reads the header and then reads
  samples while the stream has bytes left. A short frame or an odd trailing
  byte makes a read throw, and the catch returns null. Records that parse are
  appended. `GetRecords` returns the live list. The analytics read that list.

| file | module | models |
|---|---|---|
| `wrappers.dfy` | `Wrappers` | `Option`, the failure-compatible result used where the C# throws or returns null |
| `little_endian.dfy` | `LittleEndian` | fixed-width integer types, little-endian unsigned and two's-complement decoding and encoding, and their round trips |
| `binary_reader.dfy` | `BinaryReading` | the `BinaryReader` over a `MemoryStream`: a position over immutable bytes; a read past the end fails and leaves the stream at its end |
| `lists.dfy` | `Lists` | the `List<T>` the parsers mutate, as a class over a `seq` |
| `sequences.dfy` | `Sequences` | small slicing facts the proofs share |
| `frame_format.dfy` | `FrameFormat` | the 69-byte header layout (offsets, widths, signedness), the header-reading sequence, the sample layout, and the frame round trips |
| `from_bytes_decoder.dfy` | `FromBytesDecoder` | `FlowRecord.FromBytes` of `FlowRecord.cs` |
| `flow_store.dfy` | `FlowStore` | `FlowDataParser` of `FlowDataParser.cs` |
| `stream_parser.dfy` | `StreamParser` | `FlowRecord`, `ParseRawData` and `FlowDataParser` of `Parser.cs`, including its analytics |
| `decoder_comparison.dfy` | `DecoderComparison` | how the two decoders relate on the same bytes |

Every method that reads or changes state is proved against a function on
values. `FromBytes` and `ParseRawData` are proved against `Decode` and `Parse`.
`ReconstructSineWave` is proved against `Concat`, and `CalculateFlowStatistics`
returns `FlowStatistics`. The properties the source relies on are then proved
as lemmas about those functions:

- round trips in both directions, for the integers, the header, the samples
  and whole frames;
- ArrayLength has no influence on the samples;
- the odd trailing byte is ignored by one decoder and rejected by the other;
- sample positions in the joined signal;
- bounds of the mean.

### Where the two variants differ

- `ParseRawData` returns null when an odd byte trails the samples: the last
  `ReadInt16` throws and the catch returns null (`Parser.cs:100-111`).
  `FromBytes` sizes its array from the remaining bytes and so drops that byte
  (`FlowRecord.cs:67-68`). Accordingly `StreamParser.Parse` is `None` on an
  odd remainder and `FromBytesDecoder.Decode` is not.
  `DecoderComparison.DecodersDisagreeOnOddTails` states the difference.
- `Parser.cs` `GetRecords` returns the live list (`Parser.cs:122-125`), while
  `FlowDataParser.cs` returns a copy (`FlowDataParser.cs:27-30`).
  `StreamParser.FlowDataParser.GetRecords` returns the same object, and
  `FlowStore.FlowDataParser.GetRecords` returns a fresh list.
- Both variants declare `TestProject.FlowRecord` and
  `TestProject.FlowDataParser`, so they cannot be compiled into one assembly
  (duplicate type names). The model therefore keeps them in separate
  modules, `FromBytesDecoder` with `FlowStore`, and `StreamParser`.

## Model

| member | source | states |
|---|---|---|
| LittleEndian.Unsigned | TestProject/FlowRecord.cs:44-45 | the little-endian value of w bytes lies below 256^w |
| LittleEndian.Signed | TestProject/FlowRecord.cs:46-47 | the two's-complement value of w bytes lies in [-2^(8w-1), 2^(8w-1)); it equals the unsigned value when non-negative and is 256^w less otherwise |
| LittleEndian.EncodeUnsigned | TestProject/FlowRecord.cs:44-63 | encoding into w bytes gives exactly w bytes |
| LittleEndian.UnsignedRoundTrip | TestProject/FlowRecord.cs:44-63 | decoding the w-byte encoding of any v < 256^w gives v back |
| LittleEndian.UnsignedInjective | TestProject/FlowRecord.cs:44-63 | re-encoding the value of any byte string gives that byte string, so distinct bytes never decode to the same value |
| LittleEndian.SignedRoundTrip | TestProject/FlowRecord.cs:46-47 | decoding the two's-complement encoding of any in-range v gives v back |
| LittleEndian.SignedInjective | TestProject/FlowRecord.cs:46-47 | re-encoding the signed value of any non-empty byte string gives that byte string |
| BinaryReading.BinaryReader.constructor | TestProject/FlowRecord.cs:39 | a new reader is positioned at byte 0 of the buffer |
| BinaryReading.BinaryReader.ReadByte | TestProject/FlowRecord.cs:48 | succeeds exactly when a byte is left; returns the byte at the position and advances by one; on failure the stream ends up at its end |
| BinaryReading.BinaryReader.ReadUInt16 | TestProject/FlowRecord.cs:63 | succeeds exactly when 2 bytes are left; returns their little-endian value and advances by 2 |
| BinaryReading.BinaryReader.ReadInt16 | TestProject/FlowRecord.cs:74 | succeeds exactly when 2 bytes are left; returns their two's-complement value and advances by 2 |
| BinaryReading.BinaryReader.ReadUInt32 | TestProject/FlowRecord.cs:44 | succeeds exactly when 4 bytes are left; returns their little-endian value and advances by 4 |
| BinaryReading.BinaryReader.ReadInt32 | TestProject/FlowRecord.cs:55 | succeeds exactly when 4 bytes are left; returns their two's-complement value and advances by 4 |
| BinaryReading.BinaryReader.ReadUInt64 | TestProject/FlowRecord.cs:52 | succeeds exactly when 8 bytes are left; returns their little-endian value and advances by 8 |
| BinaryReading.BinaryReader.ReadExactly | TestProject/FlowRecord.cs:39-63 | succeeds exactly when count bytes are left and returns those bytes; otherwise the stream is consumed |
| Lists.List.constructor | TestProject/Parser.cs:50 | a new list is empty |
| Lists.List.CopyOf | TestProject/FlowDataParser.cs:29 | the copy holds the same items in the same order |
| Lists.List.Add | TestProject/Parser.cs:60 | the item is appended at the tail and nothing else changes |
| Lists.List.Clear | TestProject/Parser.cs:118 | the list becomes empty |
| FrameFormat.DecodeHeader | TestProject/FlowRecord.cs:44-63 | the field layout the twenty reads produce: each field from its own offset with its width and signedness, ArrayLength from bytes 67-68; HeaderRoundTrip and HeaderReencodes state that it loses and invents nothing |
| FrameFormat.EncodeHeader | TestProject/FlowRecord.cs:44-63 | a header always encodes to exactly 69 bytes |
| FrameFormat.HeaderRoundTrip | TestProject/FlowRecord.cs:44-63 | the header read from an encoded header followed by anything is that header, so every field has the offset, width and signedness of the reads |
| FrameFormat.TransducerFieldsRoundTrip | TestProject/FlowRecord.cs:44-51 | the first eight fields, in bytes 0-15, read back as encoded |
| FrameFormat.FlowFieldsRoundTrip | TestProject/FlowRecord.cs:52-57 | VisE14 through FlowE6, in bytes 16-47, read back as encoded |
| FrameFormat.StatusFieldsRoundTrip | TestProject/FlowRecord.cs:58-63 | FlowCalculated through ArrayLength, in bytes 48-68, read back as encoded |
| FrameFormat.HeaderReencodes | TestProject/FlowRecord.cs:44-63 | re-encoding the header read from any buffer gives back its first 69 bytes exactly: the reads lose no bit |
| FrameFormat.Samples | TestProject/FlowRecord.cs:72-75 | reading k samples gives k values |
| FrameFormat.SampleAt | TestProject/FlowRecord.cs:72-75 | sample i is the signed value of bytes 2i and 2i+1 |
| FrameFormat.SamplesSnoc | TestProject/FlowRecord.cs:72-75 | reading one sample more extends the samples read so far by the next pair of bytes |
| FrameFormat.SamplesPrefix | TestProject/FlowRecord.cs:72-75 | k samples depend only on the first 2k bytes |
| FrameFormat.EncodeSamples | TestProject/FlowRecord.cs:72-75 | k samples encode to 2k bytes |
| FrameFormat.SamplesRoundTrip | TestProject/FlowRecord.cs:72-75 | reading |xs| samples from the encoding of xs, followed by anything, gives xs |
| FrameFormat.SamplesReencode | TestProject/FlowRecord.cs:72-75 | re-encoding k samples read from a buffer gives back its first 2k bytes |
| FrameFormat.FrameRoundTrip | TestProject/FlowRecord.cs:44-75 | header and samples of an encoded frame followed by anything read back as encoded |
| FrameFormat.ReadHeader | TestProject/FlowRecord.cs:44-63 | the twenty reads succeed exactly when the buffer holds 69 bytes; they then give the header DecodeHeader describes and leave the stream at byte 69 |
| FrameFormat.ReadTransducerFields | TestProject/FlowRecord.cs:44-51 | from byte 0: succeeds iff 16 bytes remain, gives the fields at their offsets, ends at byte 16 |
| FrameFormat.ReadFlowFields | TestProject/FlowRecord.cs:52-57 | from byte 16: succeeds iff 32 bytes remain, gives the fields at their offsets, ends at byte 48 |
| FrameFormat.ReadStatusFields | TestProject/FlowRecord.cs:58-63 | from byte 48: succeeds iff 21 bytes remain, gives the fields at their offsets, ends at byte 69 |
| FromBytesDecoder.Decode | TestProject/FlowRecord.cs:37-79 | FromBytes succeeds exactly when the buffer holds a whole header |
| FromBytesDecoder.Encode | TestProject/FlowRecord.cs:37-79 | a record with k samples is carried by a frame of 69 + 2k bytes |
| FromBytesDecoder.FromBytes | TestProject/FlowRecord.cs:37-79 | the imperative decoder returns Decode(raw): the header, then exactly (|raw| - 69) / 2 samples sized from the remaining bytes |
| FromBytesDecoder.ReadVariableArray | TestProject/FlowRecord.cs:71-75 | from the end of the header, reading count samples one by one fills a new array with exactly the first count samples after the header |
| FromBytesDecoder.DecodeSampleAt | TestProject/FlowRecord.cs:67-75 | there are (|raw| - 69) / 2 samples, and sample i is the signed little-endian value of bytes 69 + 2i and 70 + 2i |
| FromBytesDecoder.DecodeIgnoresArrayLength | TestProject/FlowRecord.cs:65-71 | rewriting bytes 67-68 changes only the ArrayLength field; the sample count and values stay the same |
| FromBytesDecoder.HeaderPrefix | TestProject/FlowRecord.cs:44-62 | every header field before ArrayLength depends only on bytes 0-66 |
| FromBytesDecoder.DecodeOddTailIgnored | TestProject/FlowRecord.cs:67-68 | one extra byte after an even remainder is dropped: the record is the same with or without it |
| FromBytesDecoder.DecodeRoundTrip | TestProject/FlowRecord.cs:37-79 | any record, encoded and followed by at most one stray byte, decodes to itself whatever its ArrayLength says |
| FromBytesDecoder.DecodeReencodes | TestProject/FlowRecord.cs:37-79 | re-encoding a decoded record gives the buffer back without its odd trailing byte, if any |
| FlowStore.FlowDataParser.constructor | TestProject/FlowDataParser.cs:10 | a new store holds no records |
| FlowStore.FlowDataParser.HandleRawData | TestProject/FlowDataParser.cs:13-18 | a buffer holding a header appends exactly its decoded record at the tail; a shorter one throws before anything is appended |
| FlowStore.FlowDataParser.ClearRecords | TestProject/FlowDataParser.cs:21-24 | the store becomes empty |
| FlowStore.FlowDataParser.GetRecords | TestProject/FlowDataParser.cs:27-30 | a freshly allocated list with the same records in the same order |
| FlowStore.DeliverFrames | TestProject/FlowDataParser.cs:13-30 | after frames are delivered to a new store, the copy holds one record per frame, in arrival order, each the decoding of its frame |
| FlowStore.CopyIsIndependent | TestProject/FlowDataParser.cs:27-30 | adding to the returned copy leaves the store untouched |
| StreamParser.Parse | TestProject/Parser.cs:66-113 | ParseRawData returns a record exactly when the buffer holds a header and an even number of bytes after it, and null otherwise |
| StreamParser.Encode | TestProject/Parser.cs:66-113 | a record with k samples is carried by a frame of 69 + 2k bytes |
| StreamParser.ParseRawData | TestProject/Parser.cs:66-113 | the imperative parser returns Parse(raw), with (|raw| - 69) / 2 samples; the declared ArrayLength is allocated and discarded |
| StreamParser.ParseSampleAt | TestProject/Parser.cs:99-104 | on an even remainder there are (|raw| - 69) / 2 samples, and sample i is the signed value of bytes 69 + 2i and 70 + 2i |
| StreamParser.ParseRoundTrip | TestProject/Parser.cs:66-113 | any record, encoded, parses back to itself whatever its ArrayLength says |
| StreamParser.ParseReencodes | TestProject/Parser.cs:66-113 | re-encoding a parsed record gives back the buffer exactly |
| StreamParser.TotalSamples | TestProject/Parser.cs:133 | the sum of the records' sample counts; its properties are stated by TotalSamplesBounds and ConcatAppend |
| StreamParser.TotalSamplesBounds | TestProject/Parser.cs:133 | no record holds more samples than the total, and the total is zero exactly when every record is empty |
| StreamParser.Concat | TestProject/Parser.cs:130-144 | the joined signal is as long as all records' samples together |
| StreamParser.ConcatAppend | TestProject/Parser.cs:137-141 | joining two runs of records joins their signals, and the totals add up |
| StreamParser.ConcatPosition | TestProject/Parser.cs:130-144 | sample i of record j sits at TotalSamples(rs[..j]) + i of the joined signal: nothing is reordered, skipped or repeated |
| StreamParser.ConcatStep | TestProject/Parser.cs:137-141 | one more record extends the joined prefix by exactly its samples, and the position stays within the total |
| StreamParser.ArrayCopy | TestProject/Parser.cs:139 | Array.Copy puts the whole source at the destination index and leaves every other element of the destination unchanged |
| StreamParser.MinFlow | TestProject/Parser.cs:176 | the result is the FlowE6 of some record and no record's FlowE6 is lower |
| StreamParser.MaxFlow | TestProject/Parser.cs:177 | the result is the FlowE6 of some record and no record's FlowE6 is higher |
| StreamParser.SumFlow | TestProject/Parser.cs:178 | the sum of the records' FlowE6 that Average divides by the count; bounded by SumFlowAtLeast and SumFlowAtMost |
| StreamParser.SumFlowAtLeast | TestProject/Parser.cs:178 | n flows each at least lo sum to at least n * lo |
| StreamParser.SumFlowAtMost | TestProject/Parser.cs:178 | n flows each at most hi sum to at most n * hi |
| StreamParser.MeanBetween | TestProject/Parser.cs:178 | a mean of n values whose sum lies between n * lo and n * hi lies between lo and hi |
| StreamParser.FlowStatistics | TestProject/Parser.cs:171-181 | (0, 0, 0) without records; otherwise min and max are flows of actual records, every flow lies between them, and avg is the sum over the count and lies between them too |
| StreamParser.FlowDataParser.CalculateFlowStatistics | TestProject/Parser.cs:171-181 | (0, 0, 0) on an empty list; otherwise every record's FlowE6 lies between min and max, and so does the mean |
| StreamParser.FlowDataParser.constructor | TestProject/Parser.cs:50 | a new parser holds no records |
| StreamParser.FlowDataParser.HandleRawData | TestProject/Parser.cs:53-63 | a buffer that parses appends exactly its record at the tail; one that does not leaves the list unchanged |
| StreamParser.FlowDataParser.ClearRecords | TestProject/Parser.cs:116-119 | the list becomes empty |
| StreamParser.FlowDataParser.GetRecords | TestProject/Parser.cs:122-125 | the live list itself, not a copy |
| StreamParser.FlowDataParser.ReconstructSineWave | TestProject/Parser.cs:130-144 | a newly allocated array whose length is the total sample count and whose contents are Concat of the records: every record's samples in record order |
| StreamParser.FlowDataParser.DetectStatusChanges | TestProject/Parser.cs:184-197 | strictly increasing indices in [1, count); i is listed exactly when record i's StatusWm differs from record i-1's |
| DecoderComparison.DecodersAgreeOnEvenTails | TestProject/Parser.cs:66-113 | on a buffer with a header, ParseRawData succeeds iff the remainder is even, and then both decoders give the same header and samples |
| DecoderComparison.DecodersDisagreeOnOddTails | TestProject/FlowRecord.cs:67-75 | with one odd byte after an even remainder, ParseRawData returns null while FromBytes succeeds with the samples of the buffer without that byte |

## Left out

- FlowCalculated (`ReadSingle`) and Volume (`ReadDouble`) are kept as their raw 32-bit and 64-bit IEEE 754 bit patterns (`flowCalculatedBits`, `volumeBits`). Floating point is not modelled. The bytes consumed and the round trips are the same.
- `TemperatureCelsius` (a float division) and `ToString` are not modelled. Neither is used by decoding or analytics.
- `SaveSineWaveToCSV` is file I/O and is not modelled. Its data comes from `ReconstructSineWave`, which is modelled.
- Console output in `HandleRawData`, `ParseRawData` and `SaveSineWaveToCSV` is not modelled.
- The event plumbing (`sender`, `RawDataEventArgs`, the emulator that raises the event) is not modelled. HandleRawData takes the frame's bytes directly. Concurrent delivery and locking are not modelled.
- `TestProject/IFlowDataParser.cs` only declares the three operations. Both parser classes model them.
- Exceptions are modelled as `None`. `FlowStore.FlowDataParser.HandleRawData` returns false where `FromBytes` would throw out of it. The exception type and message are not modelled.
- A record is modelled as an immutable value. The C# records are mutable objects with setters, but nothing in the core changes a record after it is built.
- `StreamParser.FlowStatistics`: the mean is an exact real, not the double that LINQ `Average` returns, so it does not model rounding. Min and max are exact because every 32-bit FlowE6 is representable as a double.
- `StreamParser.FlowDataParser.ReconstructSineWave`: returns the joined array even when the total sample count passes 2^31 - 1, where the checked `Sum` at `Parser.cs:133` throws `OverflowException`. The device's frames come nowhere near that total.
- `FromBytesDecoder.ReadVariableArray`: the sample loop of `FromBytes` is a method of its own only so that each proof stays small. The reads and the array are those of the source.
- `FrameFormat.ReadHeader`: the twenty header reads are grouped into three methods (`ReadTransducerFields`, `ReadFlowFields`, `ReadStatusFields`) so that each proof stays small. The order of the reads and the bytes consumed are those of the source.
- The test in `TestProject/UnitTests.cs` is not modelled. It computes the mean and standard deviation of Volume over doubles with `Math.Sqrt`.
