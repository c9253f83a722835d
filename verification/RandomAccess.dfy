/** Reading part of a node is reading all of it and taking the part. */
module RandomAccess {
  import opened Seqs
  import opened Bits
  import opened Compressors
  import opened Format
  import opened Reader
  import opened Tables
  import opened Mounting

  /** A read of at least one byte is a piece of its first block and a read from the next block on. */
  lemma ReadUnfolds(m: Mounted, b: nat, i: nat, n: nat)
    requires Sane(m) && n > 0
    requires b < m.sb.blocks && HasBlock(m, b) && i < BlockFill(m, b).size
    requires BlockFill(m, b).offset + BlockFill(m, b).compressedSize <= |m.entries|
    ensures var l := Min(n, BlockFill(m, b).size - i);
            && (Spans(m, b, i, n) <==> Spans(m, b + 1, 0, n - l))
            && (Spans(m, b, i, n) ==>
                  var rest, u := ReadFrom(m, b + 1, 0, n - l), Unblock(m, b);
                  ReadFrom(m, b, i, n) == if u.Some? && rest.Some? then Some(u.value[i..i + l] + rest.value) else None)
  {
    hide Sane, Unblock, BlockFill, HasBlock;
  }

  lemma ReadNothing(m: Mounted, b: nat, i: nat)
    requires Sane(m)
    ensures Spans(m, b, i, 0) && ReadFrom(m, b, i, 0) == Some([])
  {
    hide Sane, Unblock, BlockFill, HasBlock;
  }

  lemma SpansFirst(m: Mounted, b: nat, i: nat, n: nat)
    requires Sane(m) && Spans(m, b, i, n) && n > 0
    ensures b < m.sb.blocks && HasBlock(m, b) && i < BlockFill(m, b).size
  {
    hide BlockFill, HasBlock;
  }

  /** Reading fewer bytes gives the front of reading more. */
  lemma {:induction false} ReadFront(m: Mounted, b: nat, i: nat, n: nat, len: nat)
    requires Sane(m) && Spans(m, b, i, n) && len <= n
    ensures Spans(m, b, i, len)
    ensures ReadFrom(m, b, i, n).Some? ==> ReadFrom(m, b, i, len) == Some(ReadFrom(m, b, i, n).value[..len])
    decreases n
  {
    hide Sane, Unblock, BlockFill, HasBlock, ReadFrom, Spans;
    if len > 0 {
      SpansFirst(m, b, i, n);
      SaneBlock(m, b);
      ReadUnfolds(m, b, i, n);
      ReadUnfolds(m, b, i, len);
      var size := BlockFill(m, b).size;
      var l, l' := Min(n, size - i), Min(len, size - i);
      ReadFront(m, b + 1, 0, n - l, len - l');
      if ReadFrom(m, b, i, n).Some? {
        FrontOf(Unblock(m, b).value, i, l, l', ReadFrom(m, b + 1, 0, n - l).value, len);
      }
    } else {
      ReadNothing(m, b, i);
      if ReadFrom(m, b, i, n).Some? { assert ReadFrom(m, b, i, n).value[..0] == []; }
    }
  }

  lemma FrontOf(u: bytes, i: nat, l: nat, l': nat, rest: bytes, len: nat)
    requires l' <= l && i + l <= |u| && l' <= len && len - l' <= |rest| && (l' < l ==> len == l')
    ensures u[i..i + l'] + rest[..len - l'] == (u[i..i + l] + rest)[..len]
  {
  }

  lemma SaneBlock(m: Mounted, b: nat)
    requires Sane(m) && b < m.sb.blocks
    ensures HasBlock(m, b) && m.sb.blockSize == Pow2(m.sb.blockLog2)
    ensures BlockFill(m, b).offset + BlockFill(m, b).compressedSize <= |m.entries|
    ensures 0 < BlockFill(m, b).size <= m.sb.blockSize
    ensures b + 1 < m.sb.blocks ==> BlockFill(m, b).size == m.sb.blockSize
  {
  }

  /** A read starting `k` bytes later in the first block. */
  lemma ReadHere(m: Mounted, b: nat, i: nat, n: nat, k: nat, len: nat)
    requires Sane(m) && Spans(m, b, i, n) && k + len <= n
    requires b < m.sb.blocks && HasBlock(m, b) && i + k < BlockFill(m, b).size
    ensures Spans(m, b, i + k, len)
    ensures ReadFrom(m, b, i, n).Some? ==> ReadFrom(m, b, i + k, len) == Some(ReadFrom(m, b, i, n).value[k..k + len])
  {
    hide Sane, Unblock, BlockFill, HasBlock, ReadFrom, Spans;
    if len > 0 {
      SaneBlock(m, b);
      ReadUnfolds(m, b, i, n);
      ReadUnfolds(m, b, i + k, len);
      var size := BlockFill(m, b).size;
      var l, l' := Min(n, size - i), Min(len, size - i - k);
      ReadFront(m, b + 1, 0, n - l, len - l');
      if ReadFrom(m, b, i, n).Some? {
        MiddleOf(Unblock(m, b).value, i, k, l, l', ReadFrom(m, b + 1, 0, n - l).value, len);
      }
    } else {
      ReadNothing(m, b, i + k);
      if ReadFrom(m, b, i, n).Some? { assert ReadFrom(m, b, i, n).value[k..k] == []; }
    }
  }

  lemma MiddleOf(u: bytes, i: nat, k: nat, l: nat, l': nat, rest: bytes, len: nat)
    requires k + l' <= l && i + l <= |u| && l' <= len && len - l' <= |rest| && (k + l' < l ==> len == l')
    ensures u[i + k..i + k + l'] + rest[..len - l'] == (u[i..i + l] + rest)[k..k + len]
  {
    var x, y := u[i + k..i + k + l'] + rest[..len - l'], (u[i..i + l] + rest)[k..k + len];
    assert |x| == |y| == len;
    forall j | 0 <= j < len
      ensures x[j] == y[j]
    {
      if j < l' {
        assert x[j] == u[i + (k + j)] == u[i..i + l][k + j];
      } else {
        assert k + l' == l && x[j] == rest[j - l'];
      }
    }
  }

  /** The block a stream position lies in, by the kernel's shift. */
  function BlockNo(pos: nat, log2: nat): nat {
    Quotient(pos, Pow2(log2))
  }

  /** And where in it, by the kernel's mask. */
  function IndexIn(pos: nat, log2: nat): nat {
    pos % Pow2(log2)
  }

  /** Where the kernel looks for byte `offset` of a node. */
  function NodePos(m: Mounted, r: NodeRec, offset: nat): nat {
    StreamPos(m.sb.blockLog2, r.block, r.index) + offset
  }

  /**
    The two readers agree on every image, built by this program or not: reading `len` bytes at position
    `at` with the kernel's arithmetic gives that slice of what a reader starting at the front of the
    range gets, however many blocks lie between.
   */
  lemma {:induction false} ReadAgrees(m: Mounted, b: nat, i: nat, n: nat, at: nat, len: nat)
    requires Sane(m) && Spans(m, b, i, n) && at + len <= n
    ensures var p, log2 := StreamPos(m.sb.blockLog2, b, i) + at, m.sb.blockLog2;
            && Spans(m, BlockNo(p, log2), IndexIn(p, log2), len)
            && (ReadFrom(m, b, i, n).Some? ==>
                  ReadFrom(m, BlockNo(p, log2), IndexIn(p, log2), len)
                  == Some(ReadFrom(m, b, i, n).value[at..at + len]))
    decreases n
  {
    hide Sane, Unblock, BlockFill, Pow2, BlockNo, IndexIn, StreamPos;
    if len > 0 {
      SaneBlock(m, b);
      var size, log2 := BlockFill(m, b).size, m.sb.blockLog2;
      var l := Min(n, size - i);
      if at < l {
        PosSplit(log2, b, i, at);
        ReadHere(m, b, i, n, at, len);
      } else {
        assert b + 1 < m.sb.blocks;
        NextBlock(log2, b, i, at, l);
        ReadAgrees(m, b + 1, 0, n - l, at - l, len);
        if ReadFrom(m, b, i, n).Some? {
          var u, rest := Unblock(m, b).value, ReadFrom(m, b + 1, 0, n - l).value;
          assert (u[i..i + l] + rest)[at..at + len] == rest[at - l..at - l + len];
        }
      }
    } else if ReadFrom(m, b, i, n).Some? {
      assert ReadFrom(m, b, i, n).value[at..at] == [];
    }
  }

  lemma PosSplit(log2: nat, b: nat, i: nat, at: nat)
    requires i + at < Pow2(log2)
    ensures BlockNo(StreamPos(log2, b, i) + at, log2) == b && IndexIn(StreamPos(log2, b, i) + at, log2) == i + at
  {
    hide Pow2;
    DivModUnique(b * Pow2(log2) + i + at, Pow2(log2), b, i + at);
  }

  lemma NextBlock(log2: nat, b: nat, i: nat, at: nat, l: nat)
    requires i + l == Pow2(log2) && l <= at
    ensures StreamPos(log2, b + 1, 0) + (at - l) == StreamPos(log2, b, i) + at
  {
    assert (b + 1) * Pow2(log2) == b * Pow2(log2) + Pow2(log2);
  }

  lemma SaneNode(m: Mounted, k: nat)
    requires Sane(m) && k < m.sb.inodes
    ensures HasNode(m, k)
  {
  }

  /** So any slice of any readable node, read at random, is that slice of the whole content. */
  lemma NodeSlice(m: Mounted, k: nat, offset: nat, len: nat)
    requires Reachable(m, k) && offset + len <= NodeFill(m, k).size
    ensures var p, log2 := NodePos(m, NodeFill(m, k), offset), m.sb.blockLog2;
            && Spans(m, BlockNo(p, log2), IndexIn(p, log2), len)
            && ReadFrom(m, BlockNo(p, log2), IndexIn(p, log2), len)
               == Some(Content(m, NodeFill(m, k)).value[offset..offset + len])
  {
    hide NodeFill, Spans, ReadFrom, Sane, StreamPos, BlockNo, IndexIn, HasNode;
    SaneNode(m, k);
    var r := NodeFill(m, k);
    ReadAgrees(m, r.block, r.index, r.size, offset, len);
  }

  /** In the image of a node table that is the slice of what was packed for the node. */
  lemma ImageSlice(tbl: seq<Inode>, o: Opts, log2: nat, c: Compressor, l: Layout, k: nat, offset: nat, len: nat)
    requires Plan(tbl, o, log2, c) == Some(l) && Fits(tbl, l) && Lawful(c) && k < |tbl|
    requires offset + len <= |Ser(l.sb.db, tbl[k].body)|
    ensures Reachable(Opened(l, c), k) && l.sb.blockLog2 == log2
    ensures var m := Opened(l, c);
            var p := NodePos(m, NodeFill(m, k), offset);
            && Spans(m, BlockNo(p, log2), IndexIn(p, log2), len)
            && ReadFrom(m, BlockNo(p, log2), IndexIn(p, log2), len)
               == Some(Ser(l.sb.db, tbl[k].body)[offset..offset + len])
  {
    hide NodeFill, HasNode, DirBitsOf, Ser, Plan, Fits, Spans, ReadFrom, Sane, Pow2, Lawful, StreamPos, BlockNo,
      IndexIn, OffsetOf, NodePos;
    Planned(tbl, o, log2, c, l);
    NodeContent(tbl, o, log2, c, l, k);
    NodeSlice(Opened(l, c), k, offset, len);
  }
}
