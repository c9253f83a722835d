/** The kernel module's reads: part of a node across compressed blocks, and pages of files. */
module KernelRead {
  import opened Seqs
  import opened Bits
  import opened Format
  import opened Reader
  import opened Volumes
  import opened Devices
  import opened Tables
  import opened RandomAccess

  /** A mounted file system: its tables in memory, its entries section on a device. */
  class SuperInfo {
    const volume: Volume
    const device: Device

    constructor (volume: Volume, device: Device)
      ensures this.volume == volume && this.device == device
    {
      this.volume, this.device := volume, device;
    }

    /**
      The device carries the entries section of `m` where its super block says, an int reaches its end, and
      blocks fit the scratch buffers.
     */
    ghost predicate Carries(m: Mounted) {
      && m.sb.entriesOffset + |m.entries| <= INT_MAX
      && (forall j {:trigger m.entries[j]} :: 0 <= j < |m.entries| ==>
           device.bytes(m.sb.entriesOffset + j) == m.entries[j])
      && (forall b :: 0 <= b < m.sb.blocks && HasBlock(m, b) ==> BlockFill(m, b).compressedSize <= m.sb.blockSize)
    }

    ghost predicate Ready(m: Mounted)
      reads this, volume.itable, volume.btable, device
    {
      volume.Holds(m) && Sane(m) && Carries(m) && Balanced(device.gets, device.puts)
    }

    /** No device block fails. */
    ghost predicate Healthy() {
      forall i :: device.present(i) && device.readable(i)
    }

    lemma Compressed(m: Mounted, b: nat)
      requires Carries(m) && HasBlock(m, b) && b < m.sb.blocks
      requires BlockFill(m, b).offset + BlockFill(m, b).compressedSize <= |m.entries|
      ensures var r := BlockFill(m, b);
              && r.compressedSize <= m.sb.blockSize
              && device.Slice(m.sb.entriesOffset + r.offset, r.compressedSize)
                 == m.entries[r.offset..r.offset + r.compressedSize]
    {
      hide BlockFill, HasBlock;
    }

    /** The compressed bytes of block `b` off the device. */
    method Fetch(b: nat, block: BlockRec, cbuffer: array<byte>, ghost m: Mounted)
      returns (ok: bool, ghost got: seq<nat>)
      requires Ready(m) && HasBlock(m, b) && b < m.sb.blocks && block == BlockFill(m, b)
      requires block.offset + block.compressedSize <= |m.entries| && cbuffer.Length == m.sb.blockSize
      requires cbuffer != volume.itable && cbuffer != volume.btable
      modifies device, cbuffer
      ensures Ready(m) && device.gets == old(device.gets) + got && device.puts == old(device.puts) + got
      ensures ok ==> block.compressedSize <= cbuffer.Length
                     && cbuffer[..block.compressedSize] == m.entries[block.offset..block.offset + block.compressedSize]
      ensures Healthy() ==> ok
    {
      hide BlockFill, HasBlock, Sane, Balanced, Carries, Device.Partly, Device.Slice;
      Compressed(m, b);
      var at := volume.sb.entriesOffset + block.offset;
      var rc := device.Read(cbuffer, at, block.compressedSize);
      ghost var first := device.BlockOf(at);
      ghost var n: nat :| device.gets == old(device.gets) + Range(first, n)
      && device.puts == old(device.puts) + Range(first, n);
      got := Range(first, n);
      StaysBalanced(old(device.gets), old(device.puts), got);
      ok := rc == block.compressedSize;
      if ok { device.PartlyFront(cbuffer[..], at, block.compressedSize, old(cbuffer[..])); }
    }

    /** Block `b` read off the device and uncompressed; anything short of its full size is an error. */
    method ReadBlock(b: nat, cbuffer: array<byte>, ubuffer: array<byte>, ghost m: Mounted)
      returns (ok: bool, size: nat, ghost got: seq<nat>)
      requires Ready(m) && HasBlock(m, b) && b < m.sb.blocks && Readable(m.sb)
      requires BlockFill(m, b).offset + BlockFill(m, b).compressedSize <= |m.entries|
      requires cbuffer.Length == ubuffer.Length == m.sb.blockSize
      requires cbuffer != ubuffer && cbuffer != volume.itable && cbuffer != volume.btable
      requires ubuffer != volume.itable && ubuffer != volume.btable
      modifies device, cbuffer, ubuffer
      ensures Ready(m) && device.gets == old(device.gets) + got && device.puts == old(device.puts) + got
      ensures ok ==> size <= m.sb.blockSize && size == BlockFill(m, b).size && Unblock(m, b) == Some(ubuffer[..size])
      ensures Healthy() && Unblock(m, b).Some? && BlockFill(m, b).size <= m.sb.blockSize ==> ok
    {
      hide BlockFill, HasBlock, Sane, Balanced, Carries, Readable;
      var block := volume.FillBlock(b, m);
      if block.size > volume.sb.blockSize {
        return false, 0, [];
      }
      ok, got := Fetch(b, block, cbuffer, m);
      if !ok {
        return false, 0, got;
      }
      var u := volume.c.uncompress(cbuffer[..block.compressedSize], block.size);
      if u.None? || |u.value| != block.size {
        return false, 0, got;
      }
      forall k | 0 <= k < |u.value| {
        ubuffer[k] := u.value[k];
      }
      assert ubuffer[..block.size] == u.value;
      size := block.size;
    }

    /**
      node_read: the `size` bytes at `offset` of a node, handed to a function that copies them to an
      advancing destination. They are the bytes any other reader gets there; everything else stays.
     */
    method NodeRead(node: NodeRec, dst: array<byte>, offset: nat, size: nat, ghost m: Mounted)
      returns (ok: bool, ghost got: seq<nat>)
      requires Ready(m) && size <= dst.Length && dst != volume.itable && dst != volume.btable
      requires var p, log2 := NodePos(m, node, offset), m.sb.blockLog2;
               Spans(m, BlockNo(p, log2), IndexIn(p, log2), size)
      modifies device, dst
      ensures Ready(m) && device.gets == old(device.gets) + got && device.puts == old(device.puts) + got
      ensures var p, log2 := NodePos(m, node, offset), m.sb.blockLog2;
              var r := ReadFrom(m, BlockNo(p, log2), IndexIn(p, log2), size);
              && (ok ==> r == Some(dst[..size]))
              && (Healthy() && r.Some? ==> ok)
      ensures forall k :: size <= k < dst.Length ==> dst[k] == old(dst[k])
    {
      hide BlockFill, HasBlock, Sane, Balanced, Carries, Spans, ReadFrom, Continues, Readable, NodePos, BlockNo,
        IndexIn, Unblock;
      var ubuffer := new byte[volume.sb.blockSize];
      var cbuffer := new byte[volume.sb.blockSize];
      var o := offset + node.index + node.block * volume.sb.blockSize;
      StreamOffset(m, node, offset);
      ghost var b0, i0 := BlockNo(o, m.sb.blockLog2), IndexIn(o, m.sb.blockLog2);
      var i: nat, b: nat, s: nat := IndexIn(o, volume.sb.blockLog2), BlockNo(o, volume.sb.blockLog2), 0;
      ReadBegins(m, b, i, size);
      got := [];
      assert dst[..0] == [];
      while s < size
        invariant s <= size && Ready(m) && cbuffer.Length == ubuffer.Length == m.sb.blockSize
        invariant device.gets == old(device.gets) + got && device.puts == old(device.puts) + got
        invariant Continues(m, b0, i0, size, dst[..s], b, i, size - s)
        invariant forall k :: size <= k < dst.Length ==> dst[k] == old(dst[k])
        decreases size - s
      {
        Standing(m, b0, i0, size, dst[..s], b, i, size - s);
        ghost var done, more := dst[..s], got;
        var found, usize;
        found, usize, more := ReadBlock(b, cbuffer, ubuffer, m);
        CatAssoc(old(device.gets), got, more);
        CatAssoc(old(device.puts), got, more);
        got := got + more;
        ReadSteps(m, b0, i0, size, done, b, i, size - s);
        if !found {
          return false, got;
        }
        var l := Min(size - s, usize - i);
        CopyBytes(ubuffer, i, usize, dst, s, l);
        s, b, i := s + l, b + 1, 0;
      }
      ReadEnds(m, b0, i0, size, dst[..s], b, i);
      ok := true;
    }

    /** smashfs_readpage: the page is its part of the content, and zeros behind the end. */
    method Readpage(node: NodeRec, index: nat, page: array<byte>, ghost m: Mounted)
      returns (ok: bool, ghost got: seq<nat>)
      requires Ready(m) && Spans(m, node.block, node.index, node.size)
      requires page.Length == PAGE_CACHE_SIZE && page != volume.itable && page != volume.btable
      modifies device, page
      ensures Ready(m) && device.gets == old(device.gets) + got && device.puts == old(device.puts) + got
      ensures ok && Content(m, node).Some? ==>
                var content := Content(m, node).value;
                forall k :: 0 <= k < 4096 ==>
                  page[k] == if index * 4096 + k < |content| then content[index * 4096 + k] else 0
      ensures Healthy() && Content(m, node).Some? ==>
                (ok <==> node.kind == TYPE_SYMBOLIC_LINK || node.kind == TYPE_REGULAR_FILE
                         || index * PAGE_CACHE_SIZE >= node.size)
    {
      hide Sane, Balanced, Carries, Spans, ReadFrom, NodePos, BlockNo, IndexIn;
      var maxBlock := (node.size + PAGE_CACHE_SIZE - 1) / PAGE_CACHE_SIZE;
      var filled := 0;
      got := [];
      if index < maxBlock {
        if node.kind != TYPE_SYMBOLIC_LINK && node.kind != TYPE_REGULAR_FILE {
          return false, got;
        }
        var at := index * PAGE_CACHE_SIZE;
        var size := Min(node.size - at, PAGE_CACHE_SIZE);
        ReadAgrees(m, node.block, node.index, node.size, at, size);
        PosIs(m, node, at);
        ok, got := NodeRead(node, page, at, size, m);
        if !ok {
          return false, got;
        }
        filled := size;
      }
      ghost var front := page[..filled];
      forall k | filled <= k < PAGE_CACHE_SIZE {
        page[k] := 0;
      }
      assert page[..filled] == front;
      if Content(m, node).Some? { PageFilled(Content(m, node).value, page, index, filled); }
      ok := true;
    }
  }

  lemma PosIs(m: Mounted, node: NodeRec, at: nat)
    ensures NodePos(m, node, at) == StreamPos(m.sb.blockLog2, node.block, node.index) + at
  {
  }

  lemma PageFilled(content: bytes, page: array<byte>, index: nat, filled: nat)
    requires page.Length == 4096 && filled == Min(Max(|content| - index * 4096, 0), 4096)
    requires filled > 0 ==> page[..filled] == content[index * 4096..index * 4096 + filled]
    requires forall k :: filled <= k < 4096 ==> page[k] == 0
    ensures forall k :: 0 <= k < 4096 ==>
              page[k] == if index * 4096 + k < |content| then content[index * 4096 + k] else 0
  {
    forall k | 0 <= k < filled
      ensures page[k] == content[index * 4096 + k]
    {
      assert page[k] == page[..filled][k];
    }
  }

  /** Pages filled like that, end to end, are the file, and behind it zeros. */
  lemma {:induction false} PagesWhole(content: bytes, pages: seq<bytes>)
    requires |content| <= |pages| * 4096
    requires forall i :: 0 <= i < |pages| ==> |pages[i]| == 4096
    requires forall i, k :: 0 <= i < |pages| && 0 <= k < 4096 ==>
               pages[i][k] == if i * 4096 + k < |content| then content[i * 4096 + k] else 0
    ensures |Flat(pages)| == |pages| * 4096 && Flat(pages)[..|content|] == content
    ensures forall j :: |content| <= j < |Flat(pages)| ==> Flat(pages)[j] == 0
  {
    hide Flat;
    FlatUniform(pages, 4096);
    forall j | 0 <= j < |pages| * 4096
      ensures Flat(pages)[j] == if j < |content| then content[j] else 0
    {
      var i := j / 4096;
      FlatUniform(pages[..i], 4096);
      FlatAt(pages, i);
      assert Flat(pages)[j] == Flat(pages)[i * 4096..i * 4096 + 4096][j - i * 4096];
    }
  }

  /** memcpy of `l` bytes of the first `n` in `from` to place `s` of `to`. */
  method CopyBytes(from: array<byte>, i: nat, ghost n: nat, to: array<byte>, s: nat, l: nat)
    requires i + l <= n <= from.Length && s + l <= to.Length && from != to
    modifies to
    ensures to[..s + l] == old(to[..s]) + from[..n][i..i + l]
    ensures forall k :: s + l <= k < to.Length ==> to[k] == old(to[k])
  {
    forall k | 0 <= k < l {
      to[s + k] := from[i + k];
    }
    assert to[..s] == old(to[..s]);
    assert to[s..s + l] == from[..n][i..i + l];
  }

  lemma StreamOffset(m: Mounted, node: NodeRec, offset: nat)
    requires Sane(m)
    ensures offset + node.index + node.block * m.sb.blockSize == NodePos(m, node, offset)
  {
  }

  lemma Standing(m: Mounted, b0: nat, i0: nat, n: nat, done: bytes, b: nat, i: nat, left: nat)
    requires Sane(m) && Continues(m, b0, i0, n, done, b, i, left) && left > 0
    ensures b < m.sb.blocks && HasBlock(m, b) && Readable(m.sb) && i < BlockFill(m, b).size <= m.sb.blockSize
    ensures BlockFill(m, b).offset + BlockFill(m, b).compressedSize <= |m.entries|
  {
    hide Sane, BlockFill, HasBlock, Readable, Spans, ReadFrom;
    ReadStands(m, b, i, left);
  }
}
