/** The tables of an opened image and the lookups both readers make in them. */
module Volumes {
  import opened Seqs
  import opened Bits
  import opened BitBuffers
  import opened Fields
  import opened Compressors
  import opened Format
  import opened Reader

  class Volume {
    const sb: Super
    const c: Compressor
    const itable: array<byte>
    const btable: array<byte>
    const maxInodeSize: nat
    const maxBlockSize: nat

    constructor (sb: Super, c: Compressor, itable: array<byte>, btable: array<byte>)
      ensures this.sb == sb && this.c == c && this.itable == itable && this.btable == btable && Sized()
    {
      this.sb, this.c, this.itable, this.btable := sb, c, itable, btable;
      maxInodeSize := sb.ib.kind + sb.ib.owner + sb.ib.group + sb.ib.other + sb.ib.uid + sb.ib.gid + sb.ib.ctime
        + sb.ib.mtime + sb.ib.size + sb.ib.block + sb.ib.index;
      maxBlockSize := sb.bb.offset + sb.bb.compressedSize;
      new;
      RecordSizes(sb);
    }

    /** The record lengths summed up when the image was opened. */
    ghost predicate Sized() {
      maxInodeSize == InodeSize(sb.ib) && maxBlockSize == BlockSize(sb.bb)
    }

    /** The volume is the mounted image `m`, its entries section aside. */
    ghost predicate Holds(m: Mounted)
      reads itable, btable
    {
      Sized() && m.sb == sb && m.c == c && m.itable == itable[..] && m.btable == btable[..]
    }

    /** node_fill: one field after the other, then the fallbacks. */
    method FillNode(n: nat, ghost m: Mounted) returns (r: NodeRec)
      requires Holds(m) && Readable(sb) && HasNode(m, n)
      ensures r == NodeFill(m, n)
    {
      hide Pos, ReadAll, BitsOf, InodeWs, Readable;
      var ib := sb.ib;
      AllRead(sb);
      InodeWidths(ib);
      ghost var ws, at := InodeWs(ib), InodePos(ib, n);
      var bb := new BitBuffer.FromBuffer(itable);
      bb.SetPos(n * maxInodeSize);
      StartOf(ws, at);
      ghost var bits := bb.View();
      var kind := GetNext(bb, ib.kind, bits, at, ws, 0);
      var owner := GetNext(bb, ib.owner, bits, at, ws, 1);
      var group := GetNext(bb, ib.group, bits, at, ws, 2);
      var other := GetNext(bb, ib.other, bits, at, ws, 3);
      var uid := GetNext(bb, ib.uid, bits, at, ws, 4);
      var gid := GetNext(bb, ib.gid, bits, at, ws, 5);
      var ctime := GetNext(bb, ib.ctime, bits, at, ws, 6);
      var mtime := GetNext(bb, ib.mtime, bits, at, ws, 7);
      var size := GetNext(bb, ib.size, bits, at, ws, 8);
      var block := GetNext(bb, ib.block, bits, at, ws, 9);
      var index := GetNext(bb, ib.index, bits, at, ws, 10);
      if ib.group == 0 { group := owner; }
      if ib.other == 0 { other := owner; }
      if ib.uid == 0 { uid := 0; }
      if ib.gid == 0 { gid := 0; }
      if ib.ctime == 0 { ctime := sb.ctime; }
      if ib.mtime == 0 { mtime := ctime; }
      r := NodeRec(n, kind, owner, group, other, uid, gid, ctime, mtime, size, block, index);
    }

    /** node_fill in the kernel, which adds the minima to the times. */
    method FillNodeInKernel(n: nat, ghost m: Mounted) returns (r: NodeRec)
      requires Holds(m) && Readable(sb) && HasNode(m, n)
      ensures r == KernelNodeFill(m, n)
    {
      hide NodeFill;
      r := FillNode(n, m);
      r := r.(ctime := r.ctime + sb.mins.ctime, mtime := r.mtime + sb.mins.mtime);
    }

    /** block_fill: the size is read only for the last block, right behind its record. */
    method FillBlock(b: nat, ghost m: Mounted) returns (r: BlockRec)
      requires Holds(m) && Readable(sb) && HasBlock(m, b)
      ensures r == BlockFill(m, b)
    {
      hide Pos, ReadAll, BitsOf;
      ghost var ws, at := BlockWs(sb.bb), BlockPos(sb.bb, b);
      var bb := new BitBuffer.FromBuffer(btable);
      bb.SetPos(b * maxBlockSize);
      StartOf(ws, at);
      ghost var bits := bb.View();
      var offset := GetNext(bb, sb.bb.offset, bits, at, ws, 0);
      var csize := GetNext(bb, sb.bb.compressedSize, bits, at, ws, 1);
      var size := sb.blockSize;
      if !(b + 1 < sb.blocks) {
        size := bb.GetBits(sb.bb.size);
      }
      r := BlockRec(offset, csize + sb.mins.compressedSize, size);
    }
  }

  /** A read of `n` bytes from `b0`, `i0` on that has delivered `done` goes on with `left` bytes at `b`, `i`. */
  ghost predicate Continues(m: Mounted, b0: nat, i0: nat, n: nat, done: bytes, b: nat, i: nat, left: nat)
    requires Sane(m)
  {
    && Spans(m, b0, i0, n) && Spans(m, b, i, left) && |done| + left == n
    && match ReadFrom(m, b, i, left)
       case Some(rest) => ReadFrom(m, b0, i0, n) == Some(done + rest)
       case None => ReadFrom(m, b0, i0, n) == None
  }

  lemma ReadBegins(m: Mounted, b: nat, i: nat, n: nat)
    requires Sane(m) && Spans(m, b, i, n)
    ensures Continues(m, b, i, n, [], b, i, n)
  {
    hide Sane;
    var r := ReadFrom(m, b, i, n);
    if r.Some? { assert [] + r.value == r.value; }
  }

  /** The block a read stands in exists and reaches past the index, and the rest of the range starts at the next one. */
  lemma ReadStands(m: Mounted, b: nat, i: nat, left: nat)
    requires Sane(m) && Spans(m, b, i, left) && left > 0
    ensures b < m.sb.blocks && HasBlock(m, b) && Readable(m.sb) && i < BlockFill(m, b).size <= m.sb.blockSize
    ensures BlockFill(m, b).offset + BlockFill(m, b).compressedSize <= |m.entries|
    ensures Spans(m, b + 1, 0, left - Min(left, BlockFill(m, b).size - i))
  {
    hide BlockFill, HasBlock, Readable;
  }

  lemma ReadSteps(m: Mounted, b0: nat, i0: nat, n: nat, done: bytes, b: nat, i: nat, left: nat)
    requires Sane(m) && Continues(m, b0, i0, n, done, b, i, left) && left > 0
    requires HasBlock(m, b) && BlockFill(m, b).offset + BlockFill(m, b).compressedSize <= |m.entries|
    ensures Unblock(m, b).None? ==> ReadFrom(m, b0, i0, n).None?
    ensures Unblock(m, b).Some? ==>
              var u := Unblock(m, b).value;
              var l := Min(left, |u| - i);
              0 < l && i + l <= |u| && Continues(m, b0, i0, n, done + u[i..i + l], b + 1, 0, left - l)
  {
    hide Sane, Unblock, BlockFill, HasBlock;
    if Unblock(m, b).Some? {
      var u := Unblock(m, b).value;
      var l := Min(left, |u| - i);
      var rest := ReadFrom(m, b + 1, 0, left - l);
      if rest.Some? { CatAssoc(done, u[i..i + l], rest.value); }
    }
  }

  lemma ReadEnds(m: Mounted, b0: nat, i0: nat, n: nat, done: bytes, b: nat, i: nat)
    requires Sane(m) && Continues(m, b0, i0, n, done, b, i, 0)
    ensures ReadFrom(m, b0, i0, n) == Some(done)
  {
    hide Sane;
    assert done + [] == done;
  }

  lemma AllRead(sb: Super)
    requires Readable(sb)
    ensures forall w :: w in InodeWs(sb.ib) ==> w <= 32
  {
  }

  lemma RecordSizes(sb: Super)
    ensures InodeSize(sb.ib) == sb.ib.kind + sb.ib.owner + sb.ib.group + sb.ib.other + sb.ib.uid + sb.ib.gid
                                + sb.ib.ctime + sb.ib.mtime + sb.ib.size + sb.ib.block + sb.ib.index
    ensures BlockSize(sb.bb) == sb.bb.offset + sb.bb.compressedSize
  {
    InodeSizeIs(sb.ib);
    var bs := BlockWs(sb.bb);
    assert Pos(bs, 1) == sb.bb.offset;
  }
}
