/** The growable byte buffer into which the serializers write. */
module Buffer {
  import opened Wrappers

  class ByteBuffer {
    var block: array?<byte>
    var size: nat

    ghost predicate Valid()
      reads this
    {
      if block == null then size == 0 else block.Length == size
    }

    ghost function Contents(): seq<byte>
      requires Valid()
      reads this, block
    {
      if block == null then [] else block[..]
    }

    constructor ()
      ensures Valid() && block == null && Contents() == []
    {
      block, size := null, 0;
    }

    /** realloc to `length` bytes: the old bytes that fit, at a new address. */
    method Reallocate(length: nat) returns (moved: array<byte>)
      requires Valid()
      ensures fresh(moved) && moved.Length == length
      ensures forall i :: 0 <= i < length && i < size ==> moved[i] == Contents()[i]
    {
      moved := new byte[length];
      if block != null {
        for i := 0 to if length < size then length else size
          invariant forall k :: 0 <= k < i ==> moved[k] == block[k]
          invariant fresh(moved)
        {
          moved[i] := block[i];
        }
      }
    }

    method Append(data: seq<byte>)
      requires Valid()
      modifies this
      ensures Valid() && fresh(block) && block != null
      ensures Contents() == old(Contents()) + data
    {
      var length := size;
      var grown := Reallocate(length + |data|);
      for i := 0 to |data|
        invariant forall k :: 0 <= k < length ==> grown[k] == old(Contents())[k]
        invariant forall k :: 0 <= k < i ==> grown[length + k] == data[k]
      {
        grown[length + i] := data[i];
      }
      block := grown;
      size := length + |data|;
    }

    /** Deep copy; a default constructed source is refused. */
    method AssignFrom(other: ByteBuffer) returns (threw: bool)
      requires Valid() && other.Valid()
      modifies this
      ensures Valid()
      ensures threw <==> other != this && old(other.block) == null
      ensures Contents() == if threw then old(Contents()) else old(other.Contents())
      ensures !threw && other != this ==> fresh(block)
    {
      threw := other != this && other.block == null;
      if other != this && other.block != null {
        var length := other.size;
        var copy := Reallocate(length);
        for i := 0 to length
          invariant forall k :: 0 <= k < i ==> copy[k] == other.block[k]
        {
          copy[i] := other.block[i];
        }
        block := copy;
        size := length;
      }
    }

    method Clear()
      requires Valid()
      modifies this
      ensures Valid() && block == null && Contents() == []
    {
      block, size := null, 0;
    }

    method SwapWith(other: ByteBuffer)
      requires Valid() && other.Valid()
      modifies this, other
      ensures Valid() && other.Valid()
      ensures Contents() == old(other.Contents()) && other.Contents() == old(Contents())
    {
      block, other.block := other.block, block;
      size, other.size := other.size, size;
    }
  }
}
