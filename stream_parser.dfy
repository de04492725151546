/** The FlowRecord and FlowDataParser of TestProject/Parser.cs. ParseRawData
    reads the header, then signed 16-bit samples while the stream has bytes
    left; an odd trailing byte makes the last ReadInt16 throw, and the
    catch turns any exception into null. The parser keeps the records in a
    readonly list that GetRecords hands out as is, and derives the
    reconstructed signal, flow statistics and status changes from it. */
module StreamParser {
  import opened Wrappers
  import opened LittleEndian
  import opened BinaryReading
  import opened Lists
  import opened FrameFormat
  import opened Sequences

  /** The record Parser.cs declares: the header fields and DataArray. */
  datatype FlowRecord = FlowRecord(header: Header, dataArray: seq<i16>)

  /** The record ParseRawData returns for raw, or None where it returns null. */
  function Parse(raw: seq<byte>): (r: Option<FlowRecord>)
    ensures r.Some? <==> |raw| >= HeaderSize && (|raw| - HeaderSize) % 2 == 0
  {
    if |raw| < HeaderSize || (|raw| - HeaderSize) % 2 == 1 then None
    else Some(FlowRecord(DecodeHeader(raw), Samples(raw[HeaderSize..], (|raw| - HeaderSize) / 2)))
  }

  /** The bytes of a frame that carries r. */
  function Encode(r: FlowRecord): (raw: seq<byte>)
    ensures |raw| == HeaderSize + 2 * |r.dataArray|
  {
    EncodeHeader(r.header) + EncodeSamples(r.dataArray)
  }

  method ParseRawData(raw: seq<byte>) returns (r: Option<FlowRecord>)
    ensures r == Parse(raw)
    ensures r.Some? ==> |r.value.dataArray| == (|raw| - HeaderSize) / 2
  {
    var reader := new BinaryReader(raw);
    var header :- ReadHeader(reader);
    // An array of the declared ArrayLength is allocated, then replaced by
    // the samples actually read: the declared length is never used.
    var declared := new i16[header.arrayLength];
    var dataArray: seq<i16> := [];
    while reader.position < |reader.data|
      invariant reader.data == raw
      invariant reader.position == HeaderSize + 2 * |dataArray| <= |raw|
      invariant dataArray == Samples(raw[HeaderSize..], |dataArray|)
      decreases |raw| - reader.position
    {
      var sample :- reader.ReadInt16();
      SamplesSnoc(raw[HeaderSize..], |dataArray|);
      SliceOfSuffix(raw, HeaderSize, 2 * |dataArray|, 2 * |dataArray| + 2);
      dataArray := dataArray + [sample];
    }
    return Some(FlowRecord(header, dataArray));
  }

  /** For a buffer of 69 + 2k bytes the record holds exactly k samples, the
      signed little-endian values of bytes 69 + 2i and 70 + 2i. */
  lemma ParseSampleAt(raw: seq<byte>, i: nat)
    requires |raw| >= HeaderSize && (|raw| - HeaderSize) % 2 == 0 && 2 * i < |raw| - HeaderSize
    ensures |Parse(raw).value.dataArray| == (|raw| - HeaderSize) / 2
    ensures Parse(raw).value.dataArray[i] == I16At(raw, HeaderSize + 2 * i)
  {
    SampleAt(raw[HeaderSize..], (|raw| - HeaderSize) / 2, i);
    SliceOfSuffix(raw, HeaderSize, 2 * i, 2 * i + 2);
  }

  /** Any header and k samples round-trip, whatever ArrayLength says. (One
      byte more and Parse fails: see its postcondition.) */
  lemma ParseRoundTrip(r: FlowRecord)
    ensures Parse(Encode(r)) == Some(r)
  {
    AppendEmpty(Encode(r));
    FrameRoundTrip(r.header, r.dataArray, []);
  }

  /** Re-encoding a parsed record gives back the buffer exactly. */
  lemma ParseReencodes(raw: seq<byte>)
    requires Parse(raw).Some?
    ensures Encode(Parse(raw).value) == raw
  {
    var k := (|raw| - HeaderSize) / 2;
    HeaderReencodes(raw);
    SamplesReencode(raw[HeaderSize..], k);
    assert raw == raw[..HeaderSize] + raw[HeaderSize..][..2 * k];
  }

  /** Total number of samples held by rs: _records.Sum(r => r.DataArray.Length). */
  function TotalSamples(rs: seq<FlowRecord>): nat
  {
    if rs == [] then 0 else TotalSamples(rs[..|rs| - 1]) + |rs[|rs| - 1].dataArray|
  }

  /** No record holds more samples than the total, and the total is zero
      exactly when every record is empty. */
  lemma {:induction false} TotalSamplesBounds(rs: seq<FlowRecord>)
    ensures forall j :: 0 <= j < |rs| ==> |rs[j].dataArray| <= TotalSamples(rs)
    ensures TotalSamples(rs) == 0 <==> forall j :: 0 <= j < |rs| ==> rs[j].dataArray == []
  {
    if rs != [] {
      var p := rs[..|rs| - 1];
      TotalSamplesBounds(p);
      assert forall j :: 0 <= j < |p| ==> p[j] == rs[j];
    }
  }

  /** The sample arrays of rs joined in record order. */
  function Concat(rs: seq<FlowRecord>): (wave: seq<i16>)
    ensures |wave| == TotalSamples(rs)
  {
    if rs == [] then [] else Concat(rs[..|rs| - 1]) + rs[|rs| - 1].dataArray
  }

  lemma {:induction false} ConcatAppend(a: seq<FlowRecord>, b: seq<FlowRecord>)
    ensures Concat(a + b) == Concat(a) + Concat(b)
    ensures TotalSamples(a + b) == TotalSamples(a) + TotalSamples(b)
  {
    if b == [] {
      assert a + b == a;
    } else {
      var b', last := b[..|b| - 1], b[|b| - 1].dataArray;
      DropLastOfAppend(a, b);
      ConcatAppend(a, b');
      Associate(Concat(a), Concat(b'), last);
    }
  }

  /** Sample i of record j sits at TotalSamples(rs[..j]) + i of the joined
      signal: nothing is reordered, skipped or repeated. */
  lemma ConcatPosition(rs: seq<FlowRecord>, j: nat, i: nat)
    requires j < |rs| && i < |rs[j].dataArray|
    ensures TotalSamples(rs[..j]) + i < TotalSamples(rs)
    ensures Concat(rs)[TotalSamples(rs[..j]) + i] == rs[j].dataArray[i]
  {
    assert rs == rs[..j] + [rs[j]] + rs[j + 1..];
    ConcatAppend(rs[..j] + [rs[j]], rs[j + 1..]);
    ConcatAppend(rs[..j], [rs[j]]);
    assert [rs[j]][..0] == [];
  }

  /** One more record extends the joined prefix by its samples, still
      within the total. */
  lemma ConcatStep(rs: seq<FlowRecord>, j: nat)
    requires j < |rs|
    ensures Concat(rs[..j + 1]) == Concat(rs[..j]) + rs[j].dataArray
    ensures TotalSamples(rs[..j + 1]) <= TotalSamples(rs)
  {
    PrefixStep(rs, j);
    SplitAt(rs, j + 1);
    ConcatAppend(rs[..j + 1], rs[j + 1..]);
  }

  /** FlowE6 of the lowest-flow record. */
  function MinFlow(rs: seq<FlowRecord>): (m: int)
    requires |rs| > 0
    ensures exists i :: 0 <= i < |rs| && rs[i].header.flowE6 == m
    ensures forall i :: 0 <= i < |rs| ==> m <= rs[i].header.flowE6
  {
    if |rs| == 1 then rs[0].header.flowE6
    else
      var m := MinFlow(rs[1..]);
      assert forall i :: 1 <= i < |rs| ==> rs[i] == rs[1..][i - 1];
      if rs[0].header.flowE6 <= m then rs[0].header.flowE6 else m
  }

  /** FlowE6 of the highest-flow record. */
  function MaxFlow(rs: seq<FlowRecord>): (m: int)
    requires |rs| > 0
    ensures exists i :: 0 <= i < |rs| && rs[i].header.flowE6 == m
    ensures forall i :: 0 <= i < |rs| ==> rs[i].header.flowE6 <= m
  {
    if |rs| == 1 then rs[0].header.flowE6
    else
      var m := MaxFlow(rs[1..]);
      assert forall i :: 1 <= i < |rs| ==> rs[i] == rs[1..][i - 1];
      if rs[0].header.flowE6 >= m then rs[0].header.flowE6 else m
  }

  function SumFlow(rs: seq<FlowRecord>): int
  {
    if rs == [] then 0 else rs[0].header.flowE6 + SumFlow(rs[1..])
  }

  /** n values, each at least lo, sum to at least n * lo. */
  lemma {:induction false} SumFlowAtLeast(rs: seq<FlowRecord>, lo: int)
    requires forall i :: 0 <= i < |rs| ==> lo <= rs[i].header.flowE6
    ensures |rs| * lo <= SumFlow(rs)
  {
    if rs != [] {
      assert forall i :: 0 <= i < |rs[1..]| ==> rs[1..][i] == rs[i + 1];
      SumFlowAtLeast(rs[1..], lo);
    }
  }

  /** n values, each at most hi, sum to at most n * hi. */
  lemma {:induction false} SumFlowAtMost(rs: seq<FlowRecord>, hi: int)
    requires forall i :: 0 <= i < |rs| ==> rs[i].header.flowE6 <= hi
    ensures SumFlow(rs) <= |rs| * hi
  {
    if rs != [] {
      assert forall i :: 0 <= i < |rs[1..]| ==> rs[1..][i] == rs[i + 1];
      SumFlowAtMost(rs[1..], hi);
    }
  }

  /** A mean of n values whose sum lies between n * lo and n * hi lies in
      [lo, hi]. */
  lemma MeanBetween(sum: int, n: int, lo: int, hi: int)
    requires n > 0 && n * lo <= sum <= n * hi
    ensures lo as real <= sum as real / n as real <= hi as real
  {
  }

  /** CalculateFlowStatistics over rs: (0, 0, 0) for no records; otherwise
      the least and greatest FlowE6 (both taken by some record, every other
      between them) and their mean, which lies between them too. */
  function FlowStatistics(rs: seq<FlowRecord>): (s: Stats)
    ensures |rs| == 0 ==> s == Stats(0.0, 0.0, 0.0)
    ensures |rs| > 0 ==>
      (exists i :: 0 <= i < |rs| && s.min == rs[i].header.flowE6 as real)
      && (exists i :: 0 <= i < |rs| && s.max == rs[i].header.flowE6 as real)
      && (forall i :: 0 <= i < |rs| ==> s.min <= rs[i].header.flowE6 as real <= s.max)
      && s.avg == SumFlow(rs) as real / |rs| as real
      && s.min <= s.avg <= s.max
  {
    if |rs| == 0 then Stats(0.0, 0.0, 0.0)
    else
      var lo, hi := MinFlow(rs), MaxFlow(rs);
      SumFlowAtLeast(rs, lo);
      SumFlowAtMost(rs, hi);
      MeanBetween(SumFlow(rs), |rs|, lo, hi);
      Stats(lo as real, hi as real, SumFlow(rs) as real / |rs| as real)
  }

  /** Array.Copy(source, 0, destination, destinationIndex, source.Length):
      the source lands at destinationIndex and every other element of the
      destination keeps its value. */
  method ArrayCopy(source: seq<i16>, destination: array<i16>, destinationIndex: nat)
    requires destinationIndex + |source| <= destination.Length
    modifies destination
    ensures destination[..destinationIndex] == old(destination[..destinationIndex])
    ensures destination[destinationIndex..destinationIndex + |source|] == source
    ensures destination[destinationIndex + |source|..] == old(destination[destinationIndex + |source|..])
  {
    forall k | 0 <= k < |source| {
      destination[destinationIndex + k] := source[k];
    }
  }

  /** The (Min, Max, Avg) triple CalculateFlowStatistics returns; the doubles
      are modelled as reals. */
  datatype Stats = Stats(min: real, max: real, avg: real)

  class FlowDataParser {
    /** The readonly _records list, in arrival order. */
    const records: List<FlowRecord>

    constructor ()
      ensures fresh(records) && records.items == []
    {
      records := new List<FlowRecord>();
    }

    /** A buffer that parses adds exactly its record at the tail; one that
        does not leaves the list as it was. */
    method HandleRawData(raw: seq<byte>)
      modifies records
      ensures Parse(raw).Some? ==> records.items == old(records.items) + [Parse(raw).value]
      ensures Parse(raw).None? ==> records.items == old(records.items)
    {
      var record := ParseRawData(raw);
      if record.Some? {
        records.Add(record.value);
      }
    }

    /** Empties the list; clearing an empty list changes nothing. */
    method ClearRecords()
      modifies records
      ensures records.items == []
    {
      records.Clear();
    }

    /** The live list itself, not a copy. */
    method GetRecords() returns (view: List<FlowRecord>)
      ensures view == records
    {
      view := records;
    }

    /** One array holding every record's samples, in record order. */
    method ReconstructSineWave() returns (sineWave: array<i16>)
      ensures fresh(sineWave)
      ensures sineWave.Length == TotalSamples(records.items)
      ensures sineWave[..] == Concat(records.items)
    {
      var rs := records.items;
      var totalLength := TotalSamples(rs);
      sineWave := new i16[totalLength];
      var position := 0;
      for j := 0 to |rs|
        invariant position == TotalSamples(rs[..j]) <= totalLength
        invariant sineWave[..position] == Concat(rs[..j])
      {
        var data := rs[j].dataArray;
        ConcatStep(rs, j);
        ArrayCopy(data, sineWave, position);
        PrefixSplit(sineWave[..], position, position + |data|);
        position := position + |data|;
      }
      SplitAt(rs, |rs|);
      SplitAt(sineWave[..], position);
    }

    /** (0, 0, 0) without records; otherwise every record's flow lies
        between min and max, and so does the mean. */
    function CalculateFlowStatistics(): (s: Stats)
      reads records
      ensures records.items == [] ==> s == Stats(0.0, 0.0, 0.0)
      ensures records.items != [] ==>
        (forall i :: 0 <= i < |records.items| ==> s.min <= records.items[i].header.flowE6 as real <= s.max)
        && s.min <= s.avg <= s.max
    {
      FlowStatistics(records.items)
    }

    /** The indices i, in increasing order, at which StatusWm differs from
        the record before. */
    method DetectStatusChanges() returns (changes: seq<int>)
      ensures forall k :: 0 <= k < |changes| ==> 1 <= changes[k] < |records.items|
      ensures forall k, l :: 0 <= k < l < |changes| ==> changes[k] < changes[l]
      ensures forall i :: 1 <= i < |records.items| ==>
        (i in changes <==> records.items[i].header.statusWm != records.items[i - 1].header.statusWm)
    {
      var rs := records.items;
      changes := [];
      var i := 1;
      while i < |rs|
        invariant 1 <= i && (i <= |rs| || i == 1)
        invariant forall k :: 0 <= k < |changes| ==> 1 <= changes[k] < i && changes[k] < |rs|
        invariant forall k, l :: 0 <= k < l < |changes| ==> changes[k] < changes[l]
        invariant forall j :: 1 <= j < i && j < |rs| ==>
          (j in changes <==> rs[j].header.statusWm != rs[j - 1].header.statusWm)
      {
        if rs[i].header.statusWm != rs[i - 1].header.statusWm {
          changes := changes + [i];
        }
        i := i + 1;
      }
    }
  }
}
