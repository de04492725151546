/** A model of System.IO.BinaryReader over a MemoryStream that wraps a byte
    array: a cursor into immutable data. Every typed read takes its width in
    bytes from the cursor, little-endian. A read that finds too few bytes
    left moves the cursor to the end and throws EndOfStreamException; the
    exception is the None outcome. */
module BinaryReading {
  import opened Wrappers
  import opened LittleEndian

  class BinaryReader {
    /** The stream's bytes (MemoryStream over the caller's array). */
    const data: seq<byte>
    /** BaseStream.Position. */
    var position: nat

    ghost predicate Valid()
      reads this
    {
      position <= |data|
    }

    constructor (data: seq<byte>)
      ensures Valid() && this.data == data && position == 0
    {
      this.data := data;
      position := 0;
    }

    /** BaseStream.Length - BaseStream.Position. */
    function Remaining(): (n: nat)
      requires Valid()
      reads this
    {
      |data| - position
    }

    /** The shared step of every typed read: take exactly count bytes or fail. */
    method ReadExactly(count: nat) returns (r: Option<seq<byte>>)
      requires Valid()
      modifies this
      ensures Valid()
      ensures r.Some? <==> old(position) + count <= |data|
      ensures r.Some? ==> r == Some(data[old(position)..old(position) + count]) && position == old(position) + count
      ensures r.None? ==> position == |data|
    {
      if position + count <= |data| {
        r := Some(data[position..position + count]);
        position := position + count;
      } else {
        r := None;
        position := |data|;
      }
    }

    method ReadByte() returns (r: Option<byte>)
      requires Valid()
      modifies this
      ensures Valid()
      ensures r.Some? <==> old(position) + 1 <= |data|
      ensures r.Some? ==> r == Some(data[old(position)]) && position == old(position) + 1
      ensures r.None? ==> position == |data|
    {
      var b :- ReadExactly(1);
      return Some(b[0]);
    }

    method ReadUInt16() returns (r: Option<u16>)
      requires Valid()
      modifies this
      ensures Valid()
      ensures r.Some? <==> old(position) + 2 <= |data|
      ensures r.Some? ==> r == Some(U16At(data, old(position))) && position == old(position) + 2
      ensures r.None? ==> position == |data|
    {
      var b :- ReadExactly(2);
      Pow256Values();
      return Some(Unsigned(b));
    }

    method ReadInt16() returns (r: Option<i16>)
      requires Valid()
      modifies this
      ensures Valid()
      ensures r.Some? <==> old(position) + 2 <= |data|
      ensures r.Some? ==> r == Some(I16At(data, old(position))) && position == old(position) + 2
      ensures r.None? ==> position == |data|
    {
      var b :- ReadExactly(2);
      Pow256Values();
      return Some(Signed(b));
    }

    method ReadUInt32() returns (r: Option<u32>)
      requires Valid()
      modifies this
      ensures Valid()
      ensures r.Some? <==> old(position) + 4 <= |data|
      ensures r.Some? ==> r == Some(U32At(data, old(position))) && position == old(position) + 4
      ensures r.None? ==> position == |data|
    {
      var b :- ReadExactly(4);
      Pow256Values();
      return Some(Unsigned(b));
    }

    method ReadInt32() returns (r: Option<i32>)
      requires Valid()
      modifies this
      ensures Valid()
      ensures r.Some? <==> old(position) + 4 <= |data|
      ensures r.Some? ==> r == Some(I32At(data, old(position))) && position == old(position) + 4
      ensures r.None? ==> position == |data|
    {
      var b :- ReadExactly(4);
      Pow256Values();
      return Some(Signed(b));
    }

    method ReadUInt64() returns (r: Option<u64>)
      requires Valid()
      modifies this
      ensures Valid()
      ensures r.Some? <==> old(position) + 8 <= |data|
      ensures r.Some? ==> r == Some(U64At(data, old(position))) && position == old(position) + 8
      ensures r.None? ==> position == |data|
    {
      var b :- ReadExactly(8);
      Pow256Values();
      return Some(Unsigned(b));
    }
  }
}
