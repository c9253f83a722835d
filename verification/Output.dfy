/** The rest of the builder's output: blocks, block table, inode table, super block, image. */
module Output {
  import opened Seqs
  import opened Bits
  import opened BitBuffers
  import opened Buffers
  import opened Fields
  import opened MergeSort
  import opened HashList
  import opened UtHash
  import opened Compressors
  import opened Workers
  import opened Format
  import opened Reader
  import opened Widths
  import opened Packing
  import opened Tables
  import opened Builders
  import opened Measuring
  import opened Serialising

  // ---------- second pass of maxima ----------

  lemma {:induction false} MaxOfPermutes<T>(s: seq<T>, t: seq<T>, f: T -> int)
    requires multiset(s) == multiset(t)
    ensures MaxOf(s, f) == MaxOf(t, f)
  {
    MaxOfWithin(s, t, f);
    MaxOfWithin(t, s, f);
  }

  lemma MaxOfWithin<T>(s: seq<T>, t: seq<T>, f: T -> int)
    requires multiset(s) <= multiset(t)
    ensures MaxOf(s, f) <= MaxOf(t, f)
  {
    MaxOfReached(s, f);
    MaxOfReached(t, f);
    if MaxOf(s, f) != -1 {
      var i :| 0 <= i < |s| && f(s[i]) == MaxOf(s, f);
      assert s[i] in multiset(s);
      assert s[i] in multiset(t);
      var j :| 0 <= j < |t| && t[j] == s[i];
      MaxOfBound(t, f, j);
    }
  }

  /** The loop over the placed nodes for the widths of size, block and index. */
  method PlaceMaxima(ns: seq<Node>, db: DirBits, log2: nat, ghost tbl: seq<Inode>)
    returns (size: int, block: int, index: int)
    requires Models(ns, tbl) && Numbers(ns) == Order(tbl)
    requires AllPlaced(ns, tbl, db, log2)
    ensures size == MaxOf<nat>(Iota(|tbl|), SizeFn(tbl, db))
    ensures block == MaxOf<nat>(Iota(|tbl|), BlockFn(tbl, db, log2))
    ensures index == MaxOf<nat>(Iota(|tbl|), IndexFn(tbl, db, log2))
  {
    hide MaxOf, Order, SizeOf, OffsetOf, Pow2;
    ghost var ks := Numbers(ns);
    ghost var f, g, h := SizeFn(tbl, db), BlockFn(tbl, db, log2), IndexFn(tbl, db, log2);
    size, block, index := -1, -1, -1;
    NoMax<nat>(f);
    NoMax<nat>(g);
    NoMax<nat>(h);
    assert ks[..0] == [];
    var i := 0;
    while i < |ns|
      invariant 0 <= i <= |ns|
      invariant size == MaxOf<nat>(ks[..i], f) && block == MaxOf<nat>(ks[..i], g) && index == MaxOf<nat>(ks[..i], h)
    {
      TakeNext(ks, i);
      MaxOfSnoc<nat>(ks[..i], ks[i], f);
      MaxOfSnoc<nat>(ks[..i], ks[i], g);
      MaxOfSnoc<nat>(ks[..i], ks[i], h);
      assert Placed(ns[i], tbl, db, log2) && ks[i] == ns[i].number;
      size := Max(size, ns[i].size);
      block := Max(block, ns[i].block);
      index := Max(index, ns[i].index);
      i := i + 1;
    }
    assert ks[..i] == ks;
    OrderPermutes(tbl);
    MaxOfPermutes<nat>(ks, Iota(|tbl|), f);
    MaxOfPermutes<nat>(ks, Iota(|tbl|), g);
    MaxOfPermutes<nat>(ks, Iota(|tbl|), h);
  }

  // ---------- blocks ----------

  /** Block `b` starts at `b` times the block size and is full unless the stream ends first. */
  lemma CutNext(entries: bytes, log2: nat, b: nat)
    requires b < BlockCount(|entries|, log2)
    ensures var bb, size := StreamPos(log2, b, 0), Pow2(log2);
            && bb < |entries| && StreamPos(log2, b + 1, 0) == bb + size
            && Blocks(entries, log2)[b] == entries[bb..bb + Min(size, |entries| - bb)]
    ensures Blocks(entries, log2)[..b + 1] == Blocks(entries, log2)[..b] + [Blocks(entries, log2)[b]]
  {
    hide Pow2;
    BlockInRange(|entries|, log2, b);
    assert (b + 1) * Pow2(log2) == b * Pow2(log2) + Pow2(log2);
  }

  lemma CutFirst(entries: bytes, log2: nat)
    ensures StreamPos(log2, 0, 0) == 0 && Blocks(entries, log2)[..0] == []
    ensures Blocks(entries, log2)[..BlockCount(|entries|, log2)] == Blocks(entries, log2)
  {
    hide Pow2;
  }

  /** The loop that cuts the stream into blocks, a pointer moving on by the block size. */
  method CutBlocks(entries: bytes, log2: nat) returns (blocks: seq<bytes>)
    ensures blocks == Blocks(entries, log2)
  {
    hide Pow2, StreamPos, Blocks, BlockCount;
    var nblocks := BlockCount(|entries|, log2);
    blocks := [];
    var bb: nat, b := 0, 0;
    CutFirst(entries, log2);
    while b < nblocks
      invariant 0 <= b <= nblocks && bb == StreamPos(log2, b, 0) && blocks == Blocks(entries, log2)[..b]
    {
      CutNext(entries, log2, b);
      var size := Min(Pow2(log2), |entries| - bb);
      blocks := blocks + [entries[bb..bb + size]];
      bb, b := bb + Pow2(log2), b + 1;
    }
  }

  /** The first `n` bytes of a block's output area. */
  function FrontOfArea(area: bytes, n: nat): bytes {
    area[..Min(n, |area|)]
  }

  /** As many bytes of every block's output area as its compressed size says: none for an unfinished block. */
  function Areas(s: State): (cs: seq<bytes>)
    requires |s.cbuffer| == |s.compressedSize|
    ensures |cs| == |s.cbuffer|
  {
    seq(|s.cbuffer|, b requires 0 <= b < |s.cbuffer| => FrontOfArea(s.cbuffer[b], s.compressedSize[b]))
  }

  lemma WholeAreas(s: State)
    requires |s.cbuffer| == |s.compressedSize| && forall b :: 0 <= b < |s.cbuffer| ==>
               s.compressedSize[b] == |s.cbuffer[b]|
    ensures Areas(s) == s.cbuffer
  {
    assert forall b :: 0 <= b < |s.cbuffer| ==> s.cbuffer[b][..|s.cbuffer[b]|] == s.cbuffer[b];
  }

  /** Joining the compressed blocks: each one's offset is the bytes before it. */
  method JoinBlocks(s: State) returns (offsets: seq<nat>, centries: bytes)
    requires |s.status| == |s.cbuffer| == |s.compressedSize|
    ensures offsets == Offsets(Areas(s)) && centries == Flat(Areas(s))
  {
    hide Flat;
    ghost var areas := Areas(s);
    var buf := new Buffer();
    offsets := [];
    var offset: nat, b := 0, 0;
    FlatNone([], areas);
    while b < |s.status|
      invariant 0 <= b <= |s.status| && buf.Valid() && fresh(buf.buffer)
      invariant buf.Contents() == Flat(areas[..b]) && offset == |buf.Contents()| && offsets == Offsets(areas)[..b]
    {
      FlatTake(areas, b);
      TakeNext(Offsets(areas), b);
      offsets := offsets + [offset];
      var rc := buf.Add(FrontOfArea(s.cbuffer[b], s.compressedSize[b]));
      offset := offset + rc;
      b := b + 1;
    }
    FlatAll(areas);
    assert Offsets(areas)[..b] == Offsets(areas);
    centries := buf.buffer[..buf.length];
  }

  /** The check that every block was compressed. */
  method CheckDone(s: State) returns (ok: bool)
    ensures ok <==> AllDone(s)
  {
    var b := 0;
    while b < |s.status|
      invariant 0 <= b <= |s.status| && forall i :: 0 <= i < b ==> s.status[i] == 2
    {
      if s.status[b] != 2 {
        return false;
      }
      b := b + 1;
    }
    ok := true;
  }

  // ---------- the block table ----------

  /** The loop for the widths of offsets and sizes. */
  method BlockMaxima(offsets: seq<nat>, cs: seq<bytes>) returns (offset: int, csize: int, minCsize: int)
    requires offsets == Offsets(cs)
    ensures offset == MaxOf(offsets, (o: nat) => o) && csize == MaxOf(cs, LengthOf) && minCsize == MinOf(cs, LengthOf)
  {
    hide MaxOf, MinOf;
    ghost var id := (o: nat) => o;
    offset, csize, minCsize := -1, -1, LONG_LONG_MAX;
    NoMax<nat>(id);
    NoMax<bytes>(LengthOf);
    assert offsets[..0] == [] && cs[..0] == [];
    var b := 0;
    while b < |cs|
      invariant 0 <= b <= |cs|
      invariant offset == MaxOf<nat>(offsets[..b], id) && csize == MaxOf<bytes>(cs[..b], LengthOf)
             && minCsize == MinOf<bytes>(cs[..b], LengthOf)
    {
      TakeNext(offsets, b);
      TakeNext(cs, b);
      MaxOfSnoc<nat>(offsets[..b], offsets[b], id);
      MaxOfSnoc<bytes>(cs[..b], cs[b], LengthOf);
      offset := Max(offset, offsets[b]);
      csize := Max(csize, |cs[b]|);
      minCsize := Min(minCsize, |cs[b]|);
      b := b + 1;
    }
    assert offsets[..b] == offsets && cs[..b] == cs;
  }

  lemma BlockTableLength(bb: BlockBits, cs: seq<bytes>, lastSize: nat)
    ensures |Flat(BlockRecords(bb, cs))| == (bb.offset + bb.compressedSize) * |cs|
    ensures |BlockTable(bb, cs, lastSize)| == ((bb.offset + bb.compressedSize) * |cs| + bb.size + 7) / 8
  {
    hide Record, Pack, Enc, Flat, MinOf;
    var recs, w := BlockRecords(bb, cs), bb.offset + bb.compressedSize;
    forall b | 0 <= b < |cs|
      ensures |recs[b]| == w
    {
      var ws, vs: seq<int> := BlockWs(bb), [|Flat(cs[..b])|, |cs[b]| - MinOf(cs, LengthOf)];
      RecordLength(ws, vs);
      assert Pos(ws, 1) == bb.offset;
    }
    FlatUniform(recs, w);
  }

  lemma BlockRecordSize(bb: BlockBits)
    ensures Pos(BlockWs(bb), 2) == bb.offset + bb.compressedSize && |BlockWs(bb)| == 2
  {
    assert Pos(BlockWs(bb), 1) == bb.offset;
  }

  /** One block's two fields. */
  method WriteBlockRecord(bits: BitBuffer, bb: BlockBits, offset: nat, delta: int, ghost done: seq<bool>)
    requires bb.offset <= 32 && bb.compressedSize <= 32 && bits.Wrote(done)
    requires |done| + |Record(BlockWs(bb), [offset, delta])| <= 8 * bits.buffer.Length
    modifies bits`index, bits.buffer
    ensures bits.Wrote(done + Record(BlockWs(bb), [offset, delta]))
  {
    hide Flat, Enc, Pos;
    ghost var ws, vs: seq<int> := BlockWs(bb), [offset, delta];
    RecordLength(ws, vs);
    BlockRecordSize(bb);
    StartRecord(done, ws, vs);
    PutNext(bits, bb.offset, offset, ws, vs, 0, done);
    PutNext(bits, bb.compressedSize, delta, ws, vs, 1, done);
    EndRecord(done, ws, vs);
  }

  /** The loop that writes the block table, and the last block's size behind it. */
  method WriteBlockTable(bb: BlockBits, cs: seq<bytes>, offsets: seq<nat>, minCsize: int, lastSize: nat)
    returns (table: bytes)
    requires offsets == Offsets(cs) && minCsize == MinOf(cs, LengthOf)
    requires bb.offset <= 32 && bb.compressedSize <= 32 && bb.size <= 32
    ensures table == BlockTable(bb, cs, lastSize)
  {
    hide Flat, Pack, Enc, BitsOf, MinOf, Record;
    var bits := new BitBuffer.Init(((bb.offset + bb.compressedSize) * |cs| + bb.size + 7) / 8);
    ghost var recs := BlockRecords(bb, cs);
    BlockTableLength(bb, cs, lastSize);
    FlatNone([], recs);
    var b := 0;
    while b < |cs|
      invariant 0 <= b <= |cs| && fresh(bits.buffer)
      invariant bits.buffer.Length == |BlockTable(bb, cs, lastSize)|
      invariant bits.Wrote(Flat(recs[..b]))
    {
      FlatAt(recs, b);
      WriteBlockRecord(bits, bb, offsets[b], |cs[b]| - minCsize, Flat(recs[..b]));
      FlatTake(recs, b);
      b := b + 1;
    }
    FlatAll(recs);
    bits.PutField(bb.size, ToU32(lastSize), Flat(recs));
    PackedBuffer(bits, Flat(recs) + Enc(bb.size, ToU32(lastSize)));
    table := bits.buffer[..];
  }

  // ---------- the inode table ----------

  /** The fields of a record written so far. */
  ghost predicate Written(bits: BitBuffer, done: seq<bool>, ws: seq<nat>, vs: seq<int>, i: nat)
    reads bits, bits.buffer
  {
    |ws| == |vs| && i <= |ws| && bits.Wrote(done + Flat(Pieces(ws, vs)[..i]))
  }

  /** Type, modes and owner. */
  method WriteOwner(bits: BitBuffer, n: Node, ib: InodeBits, ghost done: seq<bool>, ghost ws: seq<nat>,
                    ghost vs: seq<int>)
    requires Written(bits, done, ws, vs, 0) && |ws| == 11
    requires ws[..6] == [ib.kind, ib.owner, ib.group, ib.other, ib.uid, ib.gid] && forall i :: 0 <= i < 6 ==>
               ws[i] <= 32
    requires vs[..6] == [n.kind, n.attr.owner, n.attr.group, n.attr.other, n.attr.uid, n.attr.gid]
    requires bits.index + ib.kind + ib.owner + ib.group + ib.other + ib.uid + ib.gid <= 8 * bits.buffer.Length
    modifies bits`index, bits.buffer
    ensures Written(bits, done, ws, vs, 6)
    ensures bits.index == old(bits.index) + ib.kind + ib.owner + ib.group + ib.other + ib.uid + ib.gid
  {
    hide Flat, Enc, Pieces, BitBuffer.Wrote;
    FirstSix(ws);
    FirstSix(vs);
    PutNext(bits, ib.kind, n.kind, ws, vs, 0, done);
    PutNext(bits, ib.owner, n.attr.owner, ws, vs, 1, done);
    PutNext(bits, ib.group, n.attr.group, ws, vs, 2, done);
    PutNext(bits, ib.other, n.attr.other, ws, vs, 3, done);
    PutNext(bits, ib.uid, n.attr.uid, ws, vs, 4, done);
    PutNext(bits, ib.gid, n.attr.gid, ws, vs, 5, done);
  }

  lemma FirstSix<T>(s: seq<T>)
    requires |s| >= 6
    ensures s[..6] == [s[0], s[1], s[2], s[3], s[4], s[5]]
  {
  }

  /** Times, size and place. */
  method WritePlace(bits: BitBuffer, n: Node, ib: InodeBits, mins: Mins, ghost done: seq<bool>, ghost ws: seq<nat>,
                    ghost vs: seq<int>)
    requires Written(bits, done, ws, vs, 6) && |ws| == 11
    requires ws[6..] == [ib.ctime, ib.mtime, ib.size, ib.block, ib.index] && forall i :: 6 <= i < 11 ==> ws[i] <= 32
    requires vs[6..] == [n.attr.ctime - mins.ctime, n.attr.mtime - mins.mtime, n.size, n.block, n.index]
    requires bits.index + ib.ctime + ib.mtime + ib.size + ib.block + ib.index <= 8 * bits.buffer.Length
    modifies bits`index, bits.buffer
    ensures Written(bits, done, ws, vs, 11)
  {
    hide Flat, Enc, Pieces, BitBuffer.Wrote;
    LastFive(ws);
    LastFive(vs);
    PutNext(bits, ib.ctime, n.attr.ctime - mins.ctime, ws, vs, 6, done);
    PutNext(bits, ib.mtime, n.attr.mtime - mins.mtime, ws, vs, 7, done);
    PutNext(bits, ib.size, n.size, ws, vs, 8, done);
    PutNext(bits, ib.block, n.block, ws, vs, 9, done);
    PutNext(bits, ib.index, n.index, ws, vs, 10, done);
  }

  lemma LastFive<T>(s: seq<T>)
    requires |s| == 11
    ensures s[6..] == [s[6], s[7], s[8], s[9], s[10]]
  {
  }

  /** One node's eleven fields. */
  method WriteInode(bits: BitBuffer, n: Node, ib: InodeBits, mins: Mins, ghost done: seq<bool>, ghost vs: seq<int>)
    requires (forall w :: w in InodeWs(ib) ==> w <= 32) && bits.Wrote(done)
             && |done| + InodeSize(ib) <= 8 * bits.buffer.Length
    requires vs == [n.kind, n.attr.owner, n.attr.group, n.attr.other, n.attr.uid, n.attr.gid, n.attr.ctime - mins.ctime,
                    n.attr.mtime - mins.mtime, n.size, n.block, n.index]
    modifies bits`index, bits.buffer
    ensures bits.Wrote(done + Record(InodeWs(ib), vs)) && |Record(InodeWs(ib), vs)| == InodeSize(ib)
  {
    hide Flat, Enc, Pieces, Record, InodeSize, Pos;
    ghost var ws := InodeWs(ib);
    InodeSizeIs(ib);
    InodeWidths(ib);
    SizeOfRecord(ib, vs);
    StartRecord(done, ws, vs);
    WriteOwner(bits, n, ib, done, ws, vs);
    WritePlace(bits, n, ib, mins, done, ws, vs);
    EndRecord(done, ws, vs);
  }

  lemma SizeOfRecord(ib: InodeBits, vs: seq<int>)
    requires |vs| == 11
    ensures |InodeWs(ib)| == 11 && |Record(InodeWs(ib), vs)| == InodeSize(ib)
  {
    hide Record, Pos;
    RecordLength(InodeWs(ib), vs);
  }

  lemma InodeTableLength(tbl: seq<Inode>, db: DirBits, ib: InodeBits, mins: Mins, log2: nat)
    ensures |Flat(InodeRecords(tbl, db, ib, mins, log2))| == |tbl| * InodeSize(ib)
    ensures |InodeTable(tbl, db, ib, mins, log2)| == (|tbl| * InodeSize(ib) + 7) / 8
  {
    hide Record, Pack, Flat, InodeSize, SizeOf, OffsetOf, InodeVs;
    var recs := InodeRecords(tbl, db, ib, mins, log2);
    forall k | 0 <= k < |tbl|
      ensures |recs[k]| == InodeSize(ib)
    {
      var vs := InodeVs(tbl[k], mins, SizeOf(tbl, db, k), OffsetOf(tbl, db, k), log2);
      ElevenValues(tbl[k], mins, SizeOf(tbl, db, k), OffsetOf(tbl, db, k), log2);
      SizeOfRecord(ib, vs);
    }
    FlatUniform(recs, InodeSize(ib));
  }

  lemma ElevenValues(n: Inode, mins: Mins, size: nat, offset: nat, log2: nat)
    ensures |InodeVs(n, mins, size, offset, log2)| == 11
  {
  }

  /** The fields of a placed node are those of its record in the table. */
  lemma RecordOf(ns: seq<Node>, tbl: seq<Inode>, db: DirBits, ib: InodeBits, mins: Mins, log2: nat, k: nat)
    requires Models(ns, tbl) && Numbers(ns) == Iota(|tbl|) && k < |ns| && Placed(ns[k], tbl, db, log2)
    ensures var n := ns[k];
            InodeRecord(tbl, db, ib, mins, log2, k)
            == Record(InodeWs(ib), [n.kind, n.attr.owner, n.attr.group, n.attr.other, n.attr.uid, n.attr.gid,
                                    n.attr.ctime - mins.ctime, n.attr.mtime - mins.mtime, n.size, n.block, n.index])
  {
    hide Record, SizeOf, OffsetOf, Pow2, InodeWs;
    assert Numbers(ns)[k] == k;
  }

  /** The loop that writes the inode table, node k at k times the record length. */
  method WriteInodeTable(ns: seq<Node>, ib: InodeBits, mins: Mins, ghost tbl: seq<Inode>, ghost db: DirBits,
                         ghost log2: nat)
    returns (table: bytes)
    requires Models(ns, tbl) && Numbers(ns) == Iota(|tbl|) && (forall w :: w in InodeWs(ib) ==> w <= 32)
    requires AllPlaced(ns, tbl, db, log2)
    ensures table == InodeTable(tbl, db, ib, mins, log2)
  {
    hide Flat, Pack, Enc, BitsOf, Record, InodeWs, InodeSize, Placed, InodeRecord, Models;
    assert |ns| == |tbl| by { ModelsCount(ns, tbl); }
    var maxInodeSize := ib.kind + ib.owner + ib.group + ib.other + ib.uid + ib.gid + ib.ctime + ib.mtime + ib.size
      + ib.block + ib.index;
    InodeSizeIs(ib);
    InodeTableLength(tbl, db, ib, mins, log2);
    var bits := new BitBuffer.Init((|ns| * maxInodeSize + 7) / 8);
    ghost var recs := InodeRecords(tbl, db, ib, mins, log2);
    FlatNone([], recs);
    var k := 0;
    while k < |ns|
      invariant 0 <= k <= |ns| && fresh(bits.buffer) && bits.buffer.Length == |InodeTable(tbl, db, ib, mins, log2)|
      invariant bits.Wrote(Flat(recs[..k]))
    {
      var n := ns[k];
      ghost var vs := [n.kind, n.attr.owner, n.attr.group, n.attr.other, n.attr.uid, n.attr.gid,
                       n.attr.ctime - mins.ctime, n.attr.mtime - mins.mtime, n.size, n.block, n.index];
      RecordOf(ns, tbl, db, ib, mins, log2, k);
      SizeOfRecord(ib, vs);
      FlatAt(recs, k);
      WriteInode(bits, n, ib, mins, Flat(recs[..k]), vs);
      FlatTake(recs, k);
      k := k + 1;
    }
    FlatAll(recs);
    PackedBuffer(bits, Flat(recs));
    table := bits.buffer[..];
  }

  lemma ModelsCount(ns: seq<Node>, tbl: seq<Inode>)
    requires Models(ns, tbl)
    ensures |ns| == |tbl|
  {
  }

  // ---------- the passes over the node table ----------

  /** The builder's nodes, in some order, are those of the table. */
  ghost predicate Keeps(b: Builder, tbl: seq<Inode>)
    reads b, b.repr
  {
    && b.Valid() && Models(b.Nodes(), tbl) && multiset(Numbers(b.Nodes())) == multiset(Iota(|tbl|))
  }

  lemma HoldsKeeps(b: Builder, tbl: seq<Inode>)
    requires b.Holds(tbl)
    ensures Keeps(b, tbl) && Numbers(b.Nodes()) == Iota(|tbl|)
  {
    hide Table.Valid;
    assert Numbers(b.Nodes()) == Iota(|tbl|);
  }

  /** HASH_SRT on the node table. */
  method SortNodes(b: Builder, cmp: (Handle<Node>, Handle<Node>) -> int, ghost tbl: seq<Inode>)
    requires Keeps(b, tbl)
    modifies b.table, b.table.order
    ensures Keeps(b, tbl) && b.table.order == Sort(old(b.table.order), cmp)
    ensures forall n :: n in b.Nodes() ==> n in old(b.Nodes())
  {
    hide Table.Valid, Sort;
    SortedModels(b.table.order, cmp, tbl);
    SortedNumbers(b.table.order, cmp);
    b.table.Srt(cmp);
  }

  lemma SortedNumbers(hs: seq<Handle<Node>>, cmp: (Handle<Node>, Handle<Node>) -> int)
    ensures multiset(Numbers(ElementsOf(Sort(hs, cmp)))) == multiset(Numbers(ElementsOf(hs)))
    ensures forall h :: h in Sort(hs, cmp) ==> h in hs
    ensures forall n :: n in ElementsOf(Sort(hs, cmp)) ==> n in ElementsOf(hs)
  {
    hide Sort;
    var r := Sort(hs, cmp);
    SortPermutes(hs, cmp);
    forall h | h in r
      ensures h in hs
    {
      assert h in multiset(r);
      assert h in multiset(hs);
    }
    MapPermutes(r, hs, NumberOf());
    NumbersOfElements(hs);
    NumbersOfElements(r);
    forall n | n in ElementsOf(r)
      ensures n in ElementsOf(hs)
    {
      var i :| 0 <= i < |r| && ElementsOf(r)[i] == n;
      assert r[i] in hs;
      var j :| 0 <= j < |hs| && hs[j] == r[i];
      assert ElementsOf(hs)[j] == n;
    }
  }

  lemma TakeOut<T>(t: seq<T>, j: nat)
    requires j < |t|
    ensures multiset(t[..j] + t[j + 1..]) == multiset(t) - multiset{t[j]}
    ensures multiset(t) == multiset(t[..j] + t[j + 1..]) + multiset{t[j]}
  {
    assert t == t[..j] + [t[j]] + t[j + 1..];
  }

  /** Where the first element of `s` is in another order of it; the rest is then an order of the rest. */
  lemma Matched<T>(s: seq<T>, t: seq<T>) returns (j: nat)
    requires multiset(s) == multiset(t) && s != []
    ensures j < |t| && t[j] == s[0] && multiset(s[..0] + s[1..]) == multiset(t[..j] + t[j + 1..])
  {
    j := Somewhere(t, s[0]);
    TakeOut(s, 0);
    TakeOut(t, j);
  }

  lemma MapTakeOut<T, U>(t: seq<T>, j: nat, f: T -> U)
    requires j < |t|
    ensures multiset(MapSeq(f, t)) == multiset(MapSeq(f, t[..j] + t[j + 1..])) + multiset{f(t[j])}
  {
    var b := MapSeq(f, t);
    TakeOut(b, j);
    assert b[..j] + b[j + 1..] == MapSeq(f, t[..j] + t[j + 1..]);
  }

  lemma {:induction false} MapPermutes<T, U>(s: seq<T>, t: seq<T>, f: T -> U)
    requires multiset(s) == multiset(t)
    ensures multiset(MapSeq(f, s)) == multiset(MapSeq(f, t))
  {
    hide MapSeq;
    if s == [] {
      EmptyToo(t);
    } else {
      var j := Matched(s, t);
      MapPermutes(s[..0] + s[1..], t[..j] + t[j + 1..], f);
      MapTakeOut(s, 0, f);
      MapTakeOut(t, j, f);
    }
  }

  lemma EmptyToo<T>(t: seq<T>)
    ensures multiset(t) == multiset{} ==> t == []
  {
    if t != [] { assert t[0] in multiset(t); }
  }

  lemma Somewhere<T>(t: seq<T>, x: T) returns (j: nat)
    requires x in multiset(t)
    ensures j < |t| && t[j] == x
  {
    j :| 0 <= j < |t| && t[j] == x;
  }

  // ---------- output_write ----------

  /** Everything the builder packs fits 32 bits. */
  ghost predicate Packable(tbl: seq<Inode>, o: Opts, log2: nat, c: Compressor) {
    && Narrow(DirBitsOf(tbl)) && (forall w :: w in InodeWs(InodeBitsOf(tbl, o, log2)) ==> w <= 32)
    && var blocks := Blocks(Stream(tbl, DirBitsOf(tbl)), log2);
       SqueezeAll(blocks, c).Some? && |blocks| > 0 ==>
         var bb := BlockBitsOf(SqueezeAll(blocks, c).value, |blocks[|blocks| - 1]|);
         bb.offset <= 32 && bb.compressedSize <= 32 && bb.size <= 32
  }

  lemma Kept(b: Builder, tbl: seq<Inode>)
    requires Keeps(b, tbl)
    ensures b in b.repr && b.table in b.repr && b.table.Valid() && Models(b.Nodes(), tbl)
    ensures (forall h :: h in b.table.order ==> h in b.repr) && forall n :: n in b.Nodes() ==> n in b.repr
  {
    hide Table.Valid;
  }

  /** Fills the entry stream from the nodes in packing order. */
  method FillEntries(b: Builder, db: DirBits, log2: nat, ghost tbl: seq<Inode>) returns (ns: seq<Node>, entries: bytes)
    requires Keeps(b, tbl) && Numbers(b.Nodes()) == Order(tbl) && Narrow(db)
    modifies b.Nodes()`size, b.Nodes()`block, b.Nodes()`index
    ensures Keeps(b, tbl) && ns == b.Nodes() == old(b.Nodes()) && Models(ns, tbl) && entries == Stream(tbl, db)
    ensures AllPlaced(ns, tbl, db, log2)
  {
    hide Table.Valid, Order, Stream, Narrow, Placed;
    ns := Elements(b.table);
    entries := PackEntries(ns, db, log2, tbl);
  }

  /** The widths of size, block and index, added to those known before packing. */
  method PlaceBits(ns: seq<Node>, db: DirBits, log2: nat, ib0: InodeBits, ghost tbl: seq<Inode>) returns (ib: InodeBits)
    requires Models(ns, tbl) && Numbers(ns) == Order(tbl) && AllPlaced(ns, tbl, db, log2) && db == DirBitsOf(tbl)
    ensures forall o :: ib0 == AttrBits(tbl, o) ==> ib == InodeBitsOf(tbl, o, log2)
  {
    hide Models, Order, AllPlaced, AttrBits, DirBitsOf, MaxOf, BlogFrom;
    var size, block, index := PlaceMaxima(ns, db, log2, tbl);
    var sizeBits := BlogLoop(size);
    var blockBits := BlogLoop(block);
    var indexBits := BlogLoop(index);
    ib := ib0.(size := sizeBits, block := blockBits, index := indexBits);
  }

  /** The passes that measure, sort by type and fill the entry stream. */
  method Arrange(b: Builder, log2: nat, ghost tbl: seq<Inode>)
    returns (ib: InodeBits, db: DirBits, mins: Mins, entries: bytes)
    requires b.Holds(tbl) && Narrow(DirBitsOf(tbl))
    modifies b.repr
    ensures Keeps(b, tbl) && b.repr == old(b.repr)
    ensures ib == InodeBitsOf(tbl, b.opts, log2) && db == DirBitsOf(tbl) && mins == MinsOf(tbl)
            && entries == Stream(tbl, db)
    ensures AllPlaced(b.Nodes(), tbl, db, log2)
  {
    hide Table.Valid, MeasuredAttrs, MeasuredDirs, AttrBits, DirBitsOf, MinsOf, Order, MaxOf, Stream, Narrow, Placed,
      Sort, Builder.Holds, Builder.Valid, Keeps;
    HoldsKeeps(b, tbl);
    Kept(b, tbl);
    var ns := Elements(b.table);
    var x := ScanMaxima(ns, tbl);
    ib, db, mins := PickBits(x, b.opts, tbl);
    TypeOrder(b.table.order, tbl);
    SortNodes(b, ByType(), tbl);
    Kept(b, tbl);
    ns, entries := FillEntries(b, db, log2, tbl);
    ib := PlaceBits(ns, db, log2, ib, tbl);
  }

  /** Cutting the stream into blocks, compressing them in parallel and joining the results. */
  method CompressBlocks(entries: bytes, log2: nat, c: Compressor, njobs: nat)
    returns (ok: bool, cs: seq<bytes>, offsets: seq<nat>, centries: bytes, lastSize: nat)
    requires njobs > 0 && |entries| > 0
    ensures var blocks := Blocks(entries, log2);
            && |blocks| > 0 && lastSize == |blocks[|blocks| - 1]|
            && (ok <==> SqueezeAll(blocks, c).Some?)
            && (ok ==> SqueezeAll(blocks, c) == Some(cs) && offsets == Offsets(cs) && centries == Flat(cs))
  {
    hide Blocks, SqueezeAll, AllDone, Offsets, Flat, Areas;
    var blocks := CutBlocks(entries, log2);
    SomeBlock(entries, log2);
    var s := RunJobs(blocks, c, njobs);
    offsets, centries := JoinBlocks(s);
    cs := s.cbuffer;
    ok := CheckDone(s);
    if ok { WholeAreas(s); }
    lastSize := |blocks[|blocks| - 1]|;
  }

  lemma SomeBlock(entries: bytes, log2: nat)
    requires |entries| > 0
    ensures |Blocks(entries, log2)| > 0
  {
    hide Pow2;
    BlockHolds(|entries|, log2, 0, 0);
  }

  /** The block table and its widths. */
  method BlockPass(cs: seq<bytes>, offsets: seq<nat>, lastSize: nat)
    returns (bb: BlockBits, btable: bytes, minCsize: int)
    requires offsets == Offsets(cs)
    requires var bits := BlockBitsOf(cs, lastSize); bits.offset <= 32 && bits.compressedSize <= 32 && bits.size <= 32
    ensures bb == BlockBitsOf(cs, lastSize) && btable == BlockTable(bb, cs, lastSize) && minCsize == MinOf(cs, LengthOf)
  {
    hide MaxOf, MinOf, Blog, BlockTable, Offsets;
    var offset, csize, min := BlockMaxima(offsets, cs);
    minCsize := min;
    var offsetBits := BlogLoop(offset);
    var csizeBits := BlogLoop(csize - min);
    var sizeBits := BlogLoop(Max(-1, lastSize));
    bb := BlockBits(offsetBits, csizeBits, sizeBits);
    btable := WriteBlockTable(bb, cs, offsets, min, lastSize);
  }

  /** Sorting by number and writing the inode table. */
  method InodePass(b: Builder, ib: InodeBits, mins: Mins, ghost tbl: seq<Inode>, ghost db: DirBits, ghost log2: nat)
    returns (itable: bytes, count: nat)
    requires Keeps(b, tbl) && (forall w :: w in InodeWs(ib) ==> w <= 32)
    requires AllPlaced(b.Nodes(), tbl, db, log2)
    modifies b.table, b.table.order
    ensures itable == InodeTable(tbl, db, ib, mins, log2) && count == |tbl|
  {
    hide Table.Valid, InodeTable, Placed, Sort, InodeWs, Keeps;
    Kept(b, tbl);
    CountKept(b, tbl);
    ghost var hs := b.table.order;
    NumberOrder(hs, tbl);
    SortNodes(b, ByNumber(), tbl);
    Kept(b, tbl);
    var ns := Elements(b.table);
    StillPlaced(old(b.Nodes()), ns, tbl, db, log2);
    itable := WriteInodeTable(ns, ib, mins, tbl, db, log2);
    count := |ns|;
  }

  lemma StillPlaced(ns: seq<Node>, ns': seq<Node>, tbl: seq<Inode>, db: DirBits, log2: nat)
    requires AllPlaced(ns, tbl, db, log2) && forall n :: n in ns' ==> n in ns
    ensures AllPlaced(ns', tbl, db, log2)
  {
    hide Placed;
    assert forall i :: 0 <= i < |ns'| ==> ns'[i] in ns';
  }

  lemma CountKept(b: Builder, tbl: seq<Inode>)
    requires Keeps(b, tbl)
    ensures |b.table.order| == |tbl| && multiset(Numbers(ElementsOf(b.table.order))) == multiset(Iota(|b.table.order|))
  {
    hide Table.Valid;
  }

  /** Writing the sections one after the other, and zeros up to the next 4096 bytes. */
  method WriteFile(l: Layout, o: Opts, centries: bytes) returns (file: bytes)
    requires centries == Flat(l.cblocks)
    ensures file == Image(l, o)
  {
    hide SuperBytes, Flat;
    file := SuperBytes(l.sb);
    file := file + l.citable;
    file := file + l.btable;
    file := file + centries;
    var total := |file|;
    var index := total % PAGE;
    if !o.noPadding && index != 0 {
      file := file + Zeros(PAGE - index, 0);
    }
  }

  method BlockLog2(blockSize: nat, ghost log2: nat) returns (k: nat)
    requires 12 <= log2 <= 20 && blockSize == Pow2(log2)
    ensures k == log2
  {
    hide Pow2;
    k := Slog(blockSize);
    Log2Unique(k, log2);
  }

  lemma ItableIs(tbl: seq<Inode>, o: Opts, log2: nat)
    ensures ItableOf(tbl, o, log2) == InodeTable(tbl, DirBitsOf(tbl), InodeBitsOf(tbl, o, log2), MinsOf(tbl), log2)
  {
  }

  lemma Log2Unique(a: nat, b: nat)
    requires Pow2(a) == Pow2(b)
    ensures a == b
  {
    if a < b { Pow2Mono(a, b); }
    if b < a { Pow2Mono(b, a); }
  }

  /** What the passes have computed is the layout of the table. */
  lemma PlanIs(tbl: seq<Inode>, o: Opts, log2: nat, c: Compressor, cs: seq<bytes>, lastSize: nat, ci: bytes)
    requires var blocks := Blocks(Stream(tbl, DirBitsOf(tbl)), log2);
             |blocks| > 0 && lastSize == |blocks[|blocks| - 1]| && SqueezeAll(blocks, c) == Some(cs)
    requires Squeeze(c, ItableOf(tbl, o, log2)) == Some(ci)
    ensures Plan(tbl, o, log2, c) == Some(LayoutOf(tbl, o, log2, c.ctype, cs, ItableOf(tbl, o, log2), ci))
    ensures var l, db, bb := Plan(tbl, o, log2, c).value, DirBitsOf(tbl), BlockBitsOf(cs, lastSize);
            var itable, btable := ItableOf(tbl, o, log2), BlockTable(bb, cs, lastSize);
            l == Layout(Super(MAGIC, VERSION_0, 0, |tbl|, BlockCount(|Stream(tbl, db)|, log2), Pow2(log2), log2, 0,
                              SUPER_SIZE, |itable|, |ci|, SUPER_SIZE + |ci|, |btable|, SUPER_SIZE + |ci| + |btable|,
                              |Flat(cs)|, c.ctype, InodeBitsOf(tbl, o, log2), db, bb,
                              MinsOf(tbl).(compressedSize := ToU32(MinOf(cs, LengthOf)))), itable, ci, btable, cs)
  {
    hide DirBitsOf, InodeBitsOf, Stream, BlockAt, BlockBitsOf, BlockTable, InodeTable, MinsOf, SqueezeAll, Squeeze,
      Flat, MinOf, Pow2;
  }

  lemma StreamNotEmpty(tbl: seq<Inode>)
    requires Rooted(tbl)
    ensures |Stream(tbl, DirBitsOf(tbl))| > 0
  {
    StartsInside(tbl, 0);
  }

  lemma PlanFails(tbl: seq<Inode>, o: Opts, log2: nat, c: Compressor)
    ensures SqueezeAll(Blocks(Stream(tbl, DirBitsOf(tbl)), log2), c).None? ==> Plan(tbl, o, log2, c).None?
    ensures Squeeze(c, ItableOf(tbl, o, log2)).None? ==> Plan(tbl, o, log2, c).None?
  {
    hide DirBitsOf, Stream, Blocks, SqueezeAll, Squeeze, ItableOf, LayoutOf;
  }

  lemma BlockWidths(tbl: seq<Inode>, o: Opts, log2: nat, c: Compressor, cs: seq<bytes>, lastSize: nat)
    requires Packable(tbl, o, log2, c)
    requires var blocks := Blocks(Stream(tbl, DirBitsOf(tbl)), log2);
             |blocks| > 0 && lastSize == |blocks[|blocks| - 1]| && SqueezeAll(blocks, c) == Some(cs)
    ensures var bb := BlockBitsOf(cs, lastSize); bb.offset <= 32 && bb.compressedSize <= 32 && bb.size <= 32
    ensures Narrow(DirBitsOf(tbl)) && forall w :: w in InodeWs(InodeBitsOf(tbl, o, log2)) ==> w <= 32
  {
    hide DirBitsOf, Stream, Blocks, SqueezeAll, InodeBitsOf, InodeWs, Narrow, BlockBitsOf;
  }

  /** Compressing the inode table, filling in the super block, and writing the file. */
  method Finish(o: Opts, log2: nat, c: Compressor, cs: seq<bytes>, ib: InodeBits, db: DirBits, bb: BlockBits,
                mins: Mins, minCsize: int, nblocks: nat, count: nat, itable: bytes, btable: bytes, centries: bytes,
                ghost lastSize: nat, ghost tbl: seq<Inode>)
    returns (r: Option<bytes>)
    requires var blocks := Blocks(Stream(tbl, DirBitsOf(tbl)), log2);
             |blocks| > 0 && lastSize == |blocks[|blocks| - 1]| && SqueezeAll(blocks, c) == Some(cs)
             && nblocks == |blocks|
    requires ib == InodeBitsOf(tbl, o, log2) && db == DirBitsOf(tbl) && mins == MinsOf(tbl)
             && itable == ItableOf(tbl, o, log2)
    requires bb == BlockBitsOf(cs, lastSize) && btable == BlockTable(bb, cs, lastSize)
             && minCsize == MinOf(cs, LengthOf)
    requires count == |tbl| && centries == Flat(cs)
    ensures r == match Plan(tbl, o, log2, c) case None => None case Some(l) => Some(Image(l, o))
  {
    hide DirBitsOf, InodeBitsOf, Stream, Blocks, BlockBitsOf, BlockTable, ItableOf, MinsOf, SqueezeAll, Flat, MinOf,
      Pow2, Image, Plan;
    PlanFails(tbl, o, log2, c);
    var ci := c.compress(itable, 2 * |itable|);
    if ci.None? || |ci.value| > |itable| {
      return None;
    }
    PlanIs(tbl, o, log2, c, cs, lastSize, ci.value);
    var sb := Super(MAGIC, VERSION_0, 0, count, nblocks, Pow2(log2), log2, 0,
                    SUPER_SIZE, |itable|, |ci.value|, SUPER_SIZE + |ci.value|, |btable|,
                    SUPER_SIZE + |ci.value| + |btable|, |centries|, c.ctype, ib, db, bb,
                    mins.(compressedSize := ToU32(minCsize)));
    var file := WriteFile(Layout(sb, itable, ci.value, btable, cs), o, centries);
    r := Some(file);
  }

  /**
    output_write. It fails exactly when a block or the inode table cannot be compressed into its own
    size; otherwise the file it writes is the image of the node table, whatever the number of jobs and
    the order in which they take the blocks.
   */
  method OutputWrite(b: Builder, blockSize: nat, c: Compressor, njobs: nat, ghost log2: nat, ghost tbl: seq<Inode>)
    returns (r: Option<bytes>)
    requires b.Holds(tbl) && Rooted(tbl) && njobs > 0 && 12 <= log2 <= 20 && blockSize == Pow2(log2)
    requires Packable(tbl, b.opts, log2, c)
    modifies b.repr
    ensures r == match Plan(tbl, b.opts, log2, c) case None => None case Some(l) => Some(Image(l, b.opts))
  {
    hide Builder.Holds, Keeps, Rooted, DirBitsOf, InodeBitsOf, Stream, Blocks, BlockBitsOf, BlockTable, MinsOf,
      InodeTable, SqueezeAll, Flat, MinOf, Pow2, Offsets, Narrow, InodeWs, Placed, Plan, Packable, Image, ItableOf,
      BlockCount, Builder.Valid, Table.Valid, Models, Squeeze;
    var k := BlockLog2(blockSize, log2);
    NarrowPackable(tbl, b.opts, k, c);
    var ib, db, mins, entries := Arrange(b, k, tbl);
    StreamNotEmpty(tbl);
    var ok, cs, offsets, centries, lastSize := CompressBlocks(entries, k, c, njobs);
    PlanFails(tbl, b.opts, k, c);
    if !ok {
      return None;
    }
    BlockWidths(tbl, b.opts, k, c, cs, lastSize);
    var bb, btable, minCsize := BlockPass(cs, offsets, lastSize);
    Kept(b, tbl);
    var itable, count := InodePass(b, ib, mins, tbl, db, k);
    ItableIs(tbl, b.opts, k);
    r := Finish(b.opts, k, c, cs, ib, db, bb, mins, minCsize, BlockCount(|entries|, k), count, itable, btable, centries,
                lastSize, tbl);
  }

  lemma NarrowPackable(tbl: seq<Inode>, o: Opts, log2: nat, c: Compressor)
    requires Packable(tbl, o, log2, c)
    ensures Narrow(DirBitsOf(tbl))
  {
  }
}
