/** FlowDataParser of TestProject/FlowDataParser.cs: every buffer goes
    through FlowRecord.FromBytes and is appended; GetRecords hands out a
    copy of the list. */
module FlowStore {
  import opened Wrappers
  import opened LittleEndian
  import opened Lists
  import opened FrameFormat
  import opened FromBytesDecoder

  class FlowDataParser {
    /** _records, in arrival order. */
    var records: List<FlowRecord>

    constructor ()
      ensures fresh(records) && records.items == []
    {
      records := new List<FlowRecord>();
    }

    /** There is no guard here: a buffer shorter than the header makes
        FromBytes throw out of HandleRawData (ok is false) before anything is
        appended. Otherwise exactly the decoded record joins the tail. */
    method HandleRawData(raw: seq<byte>) returns (ok: bool)
      modifies records
      ensures ok <==> |raw| >= HeaderSize
      ensures ok ==> records.items == old(records.items) + [Decode(raw).value]
      ensures !ok ==> records.items == old(records.items)
    {
      var record := FromBytes(raw);
      if record.None? {
        return false;
      }
      records.Add(record.value);
      ok := true;
    }

    /** Empties the store; clearing an empty store changes nothing. */
    method ClearRecords()
      modifies records
      ensures records.items == []
    {
      records.Clear();
    }

    /** A fresh list with the same records in the same order. */
    method GetRecords() returns (copy: List<FlowRecord>)
      ensures fresh(copy) && copy.items == records.items
    {
      copy := new List<FlowRecord>.CopyOf(records);
    }
  }

  /** Frames delivered one by one to a new parser, as the device emulator
      does: the copy read afterwards holds one record per frame, in arrival
      order, each the decoding of its frame. */
  method DeliverFrames(frames: seq<seq<byte>>) returns (snapshot: seq<FlowRecord>)
    requires forall i :: 0 <= i < |frames| ==> |frames[i]| >= HeaderSize
    ensures |snapshot| == |frames|
    ensures forall i :: 0 <= i < |frames| ==> Decode(frames[i]) == Some(snapshot[i])
  {
    var parser := new FlowDataParser();
    for n := 0 to |frames|
      invariant fresh(parser.records)
      invariant |parser.records.items| == n
      invariant forall i :: 0 <= i < n ==> Decode(frames[i]) == Some(parser.records.items[i])
    {
      var _ := parser.HandleRawData(frames[n]);
    }
    var copy := parser.GetRecords();
    snapshot := copy.items;
  }

  /** Changing the list GetRecords returned leaves the store as it was: the
      method may not modify the parser, yet the copy has grown. */
  method CopyIsIndependent(parser: FlowDataParser, extra: FlowRecord) returns (copy: List<FlowRecord>)
    ensures copy.items == parser.records.items + [extra]
  {
    copy := parser.GetRecords();
    copy.Add(extra);
  }
}
