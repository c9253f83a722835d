/** The growing byte buffer the image sections are collected in. */
module Buffers {
  import opened Bits

  class Buffer {
    var buffer: array<byte>
    var size: nat
    var length: nat

    ghost predicate Valid()
      reads this
    {
      size == buffer.Length && length <= size
    }

    /** The bytes added so far. */
    ghost function Contents(): seq<byte>
      requires Valid()
      reads this, buffer
    {
      buffer[..length]
    }

    constructor ()
      ensures Valid() && Contents() == [] && size == 0 && fresh(buffer)
    {
      buffer := new byte[0];
      size, length := 0, 0;
    }

    /** Appends `data`; when space runs short the size doubles until it exceeds the new length. */
    method Add(data: seq<byte>) returns (rc: nat)
      requires Valid()
      modifies this, buffer
      ensures Valid() && (buffer == old(buffer) || fresh(buffer))
      ensures Contents() == old(Contents()) + data && rc == |data|
      ensures length < size
      ensures exists k: nat :: size == if old(size) == 0 then Pow2(k) else old(size) * Pow2(k)
      ensures old(length) + |data| < old(size) ==> buffer == old(buffer)
    {
      ghost var k: nat := 0;
      assert size == size * Pow2(0);
      if length + |data| >= size {
        if size == 0 {
          size := 1;
        }
        ghost var first := size;
        while length + |data| >= size
          invariant size > 0 && size == first * Pow2(k)
          modifies this`size
        {
          size := size * 2;
          Twice(first, k);
          k := k + 1;
        }
        var b := new byte[size];
        forall i | 0 <= i < length {
          b[i] := buffer[i];
        }
        buffer := b;
      }
      forall i | 0 <= i < |data| {
        buffer[length + i] := data[i];
      }
      length := length + |data|;
      rc := |data|;
      assert buffer[..length] == old(buffer[..length]) + data;
    }

    /** Forgets the contents and keeps the space. */
    method Reset()
      requires Valid()
      modifies this`length
      ensures Valid() && Contents() == []
    {
      length := 0;
    }
  }

  lemma Twice(first: nat, k: nat)
    ensures first * Pow2(k) * 2 == first * Pow2(k + 1)
  {
  }
}
