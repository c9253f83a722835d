/** What a source may hold so that nothing the builder writes is cut off. */
module Limits {
  import opened Seqs
  import opened Bits
  import opened MergeSort
  import opened Compressors
  import opened Format
  import opened Reader
  import opened Widths
  import opened Packing
  import opened Tables
  import opened Output

  const MANY := 6_000_000
  const TWO_GIB := 0x8000_0000

  /** A 32-bit number. */
  predicate Word(v: int) { 0 <= v < U32 }

  ghost predicate ModestNode(n: Inode) {
    && Word(n.attr.owner) && Word(n.attr.group) && Word(n.attr.other) && Word(n.attr.uid) && Word(n.attr.gid)
    && Word(n.attr.ctime) && Word(n.attr.mtime)
    && (n.body.Directory? ==>
          && Word(n.body.parent) && Word(|n.body.entries|)
          && forall e :: e in n.body.entries ==> Word(e.number) && Word(|e.name|) && Word(e.kind))
  }

  ghost predicate ModestNodes(tbl: seq<Inode>) {
    forall n :: n in tbl ==> ModestNode(n)
  }

  /** Up to six million nodes with 32-bit attributes, and contents of up to 2 GiB in all. */
  ghost predicate Modest(tbl: seq<Inode>) {
    Rooted(tbl) && |tbl| <= MANY && ModestNodes(tbl) && |Stream(tbl, DirBitsOf(tbl))| <= TWO_GIB
  }

  // ---------- widths ----------

  lemma MaxWidth<T>(s: seq<T>, f: T -> int, d: nat)
    requires forall i :: 0 <= i < |s| ==> f(s[i]) < U32
    ensures MaxOf(s, f) < U32 && Blog(MaxOf(s, f)) <= 32 && Blog(MaxOf(s, f) - d) <= 32
  {
    hide MaxOf, Blog, Pow2;
    MaxOfReached(s, f);
    Pow2Values();
    BlogAtMost(MaxOf(s, f), 32);
    BlogAtMost(MaxOf(s, f) - d, 32);
  }

  lemma NegativeWidth(v: int)
    requires v < 0
    ensures Blog(v) == 0
  {
  }

  lemma OptionalWidth(tbl: seq<Inode>, f: Inode -> int, off: bool, d: nat)
    requires forall i :: 0 <= i < |tbl| ==> f(tbl[i]) < U32
    ensures Blog(Unless(off, MaxOf(tbl, f))) <= 32 && Blog(Unless(off, MaxOf(tbl, f)) - d) <= 32
  {
    hide MaxOf, Blog;
    MaxWidth(tbl, f, d);
    NegativeWidth(-1);
    NegativeWidth(-1 - d);
  }

  lemma FirstTimes(tbl: seq<Inode>)
    requires Modest(tbl)
    ensures Word(MinOfMax(tbl, CtimeOf)) && Word(MinOfMax(tbl, MtimeOf))
  {
    hide MinOfMax, Stream, DirBitsOf;
    MinOfMaxIsFirst(tbl, CtimeOf);
    MinOfMaxIsFirst(tbl, MtimeOf);
    assert ModestNode(tbl[0]);
  }

  lemma AttrsBelow(tbl: seq<Inode>)
    requires Modest(tbl)
    ensures forall i :: 0 <= i < |tbl| ==>
              var n := tbl[i];
              && KindOf(n) < U32 && OwnerOf(n) < U32 && GroupOf(n) < U32 && OtherOf(n) < U32 && UidOf(n) < U32
              && GidOf(n) < U32
              && CtimeOf(n) < U32 && MtimeOf(n) < U32
  {
    hide Stream, DirBitsOf;
    assert forall i :: 0 <= i < |tbl| ==> tbl[i] in tbl && ModestNode(tbl[i]);
  }

  lemma AttrWidths(tbl: seq<Inode>, o: Opts)
    requires Modest(tbl)
    ensures forall w :: w in InodeWs(AttrBits(tbl, o)) ==> w <= 32
  {
    hide MaxOf, MinOfMax, Blog, Modest, Unless;
    FirstTimes(tbl);
    AttrsBelow(tbl);
    MaxWidth(tbl, KindOf, 0);
    MaxWidth(tbl, OwnerOf, 0);
    OptionalWidth(tbl, GroupOf, o.noGroupMode, 0);
    OptionalWidth(tbl, OtherOf, o.noOtherMode, 0);
    OptionalWidth(tbl, UidOf, o.noUid, 0);
    OptionalWidth(tbl, GidOf, o.noGid, 0);
    OptionalWidth(tbl, CtimeOf, o.noCtime, MinOfMax(tbl, CtimeOf));
    OptionalWidth(tbl, MtimeOf, o.noMtime, MinOfMax(tbl, MtimeOf));
  }

  lemma EntriesBelow(n: Inode)
    requires ModestNode(n)
    ensures MaxEntryNumber(n) < U32 && MaxEntryLength(n) < U32 && MaxEntryKind(n) < U32
    ensures ParentOf(n) < U32 && NentriesOf(n) < U32
  {
    hide MaxOf, Blog;
    if n.body.Directory? {
      var es := n.body.entries;
      assert forall i :: 0 <= i < |es| ==> es[i] in es;
      MaxWidth(es, EntryNumber, 0);
      MaxWidth(es, EntryLength, 0);
      MaxWidth(es, EntryKind, 0);
    }
  }

  lemma DirWidths(tbl: seq<Inode>)
    requires ModestNodes(tbl)
    ensures Narrow(DirBitsOf(tbl))
  {
    hide MaxOf, Blog, Stream, ModestNode;
    forall i | 0 <= i < |tbl|
      ensures MaxEntryNumber(tbl[i]) < U32 && MaxEntryLength(tbl[i]) < U32 && MaxEntryKind(tbl[i]) < U32
      ensures ParentOf(tbl[i]) < U32 && NentriesOf(tbl[i]) < U32
    {
      EntriesBelow(tbl[i]);
    }
    MaxWidth(tbl, ParentOf, 0);
    MaxWidth(tbl, NentriesOf, 0);
    MaxWidth(tbl, MaxEntryNumber, 0);
    MaxWidth(tbl, MaxEntryLength, 0);
    MaxWidth(tbl, MaxEntryKind, 0);
  }

  lemma PlaceBelow(tbl: seq<Inode>, log2: nat, k: nat)
    requires Modest(tbl) && k < |tbl| && log2 <= 20
    ensures var db := DirBitsOf(tbl);
            SizeFn(tbl, db)(k) < U32 && BlockFn(tbl, db, log2)(k) < U32 && IndexFn(tbl, db, log2)(k) < U32
  {
    hide Stream, DirBitsOf, Pow2, OffsetOf, SizeOf;
    Extent(tbl, DirBitsOf(tbl), k);
    QuotientBelow(OffsetOf(tbl, DirBitsOf(tbl), k), Pow2(log2));
  }

  lemma EuclidBelow(a: nat, q: int, m: nat, r: nat)
    requires a == q * m + r && r < m
    ensures 0 <= q <= a && r <= a
  {
    MulSign(q, m);
    if q > 0 { Monotone(q, m, 1); }
  }

  lemma QuotientBelow(a: nat, m: nat)
    requires m > 0
    ensures 0 <= a / m <= a && 0 <= a % m <= a
  {
    EuclidBelow(a, a / m, m, a % m);
  }

  lemma InodeWidthsFit(tbl: seq<Inode>, o: Opts, log2: nat)
    requires Modest(tbl) && log2 <= 20
    ensures forall w :: w in InodeWs(InodeBitsOf(tbl, o, log2)) ==> w <= 32
  {
    hide MaxOf, Blog, Stream, DirBitsOf, AttrBits, Modest, SizeOf, OffsetOf;
    var db := DirBitsOf(tbl);
    AttrWidths(tbl, o);
    var ws := InodeWs(AttrBits(tbl, o));
    assert ws[0] in ws && ws[1] in ws && ws[2] in ws && ws[3] in ws && ws[4] in ws && ws[5] in ws && ws[6] in ws
           && ws[7] in ws;
    forall i | 0 <= i < |tbl|
      ensures SizeFn(tbl, db)(i) < U32 && BlockFn(tbl, db, log2)(i) < U32 && IndexFn(tbl, db, log2)(i) < U32
    {
      PlaceBelow(tbl, log2, i);
    }
    MaxWidth<nat>(Iota(|tbl|), SizeFn(tbl, db), 0);
    MaxWidth<nat>(Iota(|tbl|), BlockFn(tbl, db, log2), 0);
    MaxWidth<nat>(Iota(|tbl|), IndexFn(tbl, db, log2), 0);
  }

  // ---------- blocks ----------

  /** The first blocks of a stream are no longer than the stream, nor are they when squeezed. */
  lemma {:induction false} FrontBlocks(stream: bytes, log2: nat, cs: seq<bytes>, b: nat)
    requires |cs| == BlockCount(|stream|, log2) && b <= |cs|
    requires forall i :: 0 <= i < |cs| ==> |cs[i]| <= |Blocks(stream, log2)[i]|
    ensures |Flat(cs[..b])| <= |stream| && (b < |cs| ==> |Flat(cs[..b])| <= StreamPos(log2, b, 0))
  {
    hide Flat, Pow2;
    if b == 0 {
      FlatNothing(cs);
    } else {
      FrontBlocks(stream, log2, cs, b - 1);
      FlatTake(cs, b - 1);
      CutNext(stream, log2, b - 1);
      if b < |cs| { BlockInRange(|stream|, log2, b); }
    }
  }

  lemma FlatNothing(cs: seq<bytes>)
    ensures |Flat(cs[..0])| == 0
  {
  }

  lemma BlockWidthsFit(stream: bytes, log2: nat, cs: seq<bytes>, lastSize: nat)
    requires |cs| == BlockCount(|stream|, log2) && |stream| <= TWO_GIB && lastSize <= |stream|
    requires forall i :: 0 <= i < |cs| ==> |cs[i]| <= |Blocks(stream, log2)[i]|
    ensures var bb := BlockBitsOf(cs, lastSize); bb.offset <= 32 && bb.compressedSize <= 32 && bb.size <= 32
    ensures |Flat(cs)| <= |stream|
  {
    hide Flat, MaxOf, MinOf, Blog, Pow2, BlockCount;
    FrontBlocks(stream, log2, cs, |cs|);
    FlatAll(cs);
    forall b | 0 <= b < |cs|
      ensures Offsets(cs)[b] <= |stream| && |cs[b]| <= |stream|
    {
      FrontBlocks(stream, log2, cs, b);
      FlatAt(cs, b);
    }
    MaxWidth(Offsets(cs), (o: nat) => o, 0);
    MinOfAtLeast(cs, LengthOf, 0);
    MaxWidth(cs, LengthOf, MinOf(cs, LengthOf));
    Pow2Values();
    BlogAtMost(Max(-1, lastSize), 32);
  }

  lemma BlockCountBelow(len: nat, log2: nat)
    requires 12 <= log2 <= 20 && len <= TWO_GIB
    ensures BlockCount(len, log2) <= 600_000 && 4096 <= Pow2(log2) <= 0x10_0000
  {
    hide Pow2;
    Pow2Values();
    if log2 > 12 { Pow2Mono(12, log2); }
    if log2 < 20 { Pow2Mono(log2, 20); }
    CountBelow(len + Pow2(log2) - 1, Pow2(log2));
  }

  lemma CountBelow(a: nat, m: nat)
    requires 4096 <= m
    ensures a / m * 4096 <= a
  {
    var q := a / m;
    assert a == q * m + a % m;
    QuotientBelow(a, m);
    Monotone(q, m, 4096);
  }

  lemma Monotone(q: nat, m: nat, k: nat)
    requires k <= m
    ensures q * k <= q * m
  {
    assert q * (m - k) >= 0;
  }

  /** The blocks of a modest table, squeezed or not. */
  lemma ModestBlocks(tbl: seq<Inode>, log2: nat, c: Compressor, cs: seq<bytes>)
    requires Modest(tbl) && 12 <= log2 <= 20 && SqueezeAll(Blocks(Stream(tbl, DirBitsOf(tbl)), log2), c) == Some(cs)
    ensures var blocks := Blocks(Stream(tbl, DirBitsOf(tbl)), log2);
            && 0 < |blocks| == |cs| <= 600_000 && |Flat(cs)| <= TWO_GIB
            && var last := |blocks[|blocks| - 1]|; var bb := BlockBitsOf(cs, last);
               last <= TWO_GIB && bb.offset <= 32 && bb.compressedSize <= 32 && bb.size <= 32
               && |BlockTable(bb, cs, last)| <= 5_000_000
  {
    hide Stream, DirBitsOf, Pow2, Flat, BlockBitsOf, BlockTable, ModestNode, SqueezeAll, Blocks, BlockCount;
    var stream := Stream(tbl, DirBitsOf(tbl));
    var blocks := Blocks(stream, log2);
    StreamNotEmpty(tbl);
    SomeBlock(stream, log2);
    BlockCountBelow(|stream|, log2);
    SqueezedShorter(blocks, c, cs);
    var last := |blocks[|blocks| - 1]|;
    LastBlock(stream, log2);
    BlockWidthsFit(stream, log2, cs, last);
    var bb := BlockBitsOf(cs, last);
    TableBelow(bb, cs, last);
  }

  lemma TableBelow(bb: BlockBits, cs: seq<bytes>, lastSize: nat)
    requires bb.offset <= 32 && bb.compressedSize <= 32 && bb.size <= 32 && |cs| <= 600_000
    ensures |BlockTable(bb, cs, lastSize)| <= 5_000_000
  {
    hide BlockTable;
    BlockTableLength(bb, cs, lastSize);
    var w := bb.offset + bb.compressedSize;
    Monotone(|cs|, 64, w);
    assert w * |cs| == |cs| * w;
  }

  /** The last block is one of the stream's. */
  lemma LastBlock(stream: bytes, log2: nat)
    requires |Blocks(stream, log2)| > 0
    ensures |Blocks(stream, log2)[|Blocks(stream, log2)| - 1]| <= |stream|
  {
    hide Pow2, Blocks;
    CutNext(stream, log2, |Blocks(stream, log2)| - 1);
  }

  lemma SqueezedShorter(blocks: seq<bytes>, c: Compressor, cs: seq<bytes>)
    requires SqueezeAll(blocks, c) == Some(cs)
    ensures |cs| == |blocks| && forall i :: 0 <= i < |cs| ==> |cs[i]| <= |blocks[i]|
  {
    assert forall i :: 0 <= i < |blocks| ==> Squeeze(c, blocks[i]) == Some(cs[i]);
  }

  /** The builder can pack every modest table. */
  lemma ModestPackable(tbl: seq<Inode>, o: Opts, log2: nat, c: Compressor)
    requires Modest(tbl) && 12 <= log2 <= 20
    ensures Packable(tbl, o, log2, c)
  {
    hide Stream, DirBitsOf, InodeBitsOf, ModestNodes, Narrow, InodeWs, SqueezeAll, Blocks, BlockBitsOf, BlockTable;
    DirWidths(tbl);
    InodeWidthsFit(tbl, o, log2);
    var r := SqueezeAll(Blocks(Stream(tbl, DirBitsOf(tbl)), log2), c);
    if r.Some? { ModestBlocks(tbl, log2, c, r.value); }
  }

  lemma ModestInodes(tbl: seq<Inode>, o: Opts, log2: nat)
    requires Modest(tbl) && log2 <= 20
    ensures |ItableOf(tbl, o, log2)| <= 264_000_001
  {
    hide Stream, DirBitsOf, InodeBitsOf, InodeTable, MinsOf, ModestNode;
    var ib := InodeBitsOf(tbl, o, log2);
    InodeWidthsFit(tbl, o, log2);
    InodeWidths(ib);
    InodeSizeIs(ib);
    InodeTableLength(tbl, DirBitsOf(tbl), ib, MinsOf(tbl), log2);
    assert |tbl| * InodeSize(ib) <= MANY * 352 by { Product(|tbl|, InodeSize(ib)); }
  }

  lemma Product(n: nat, w: nat)
    requires n <= MANY && w <= 352
    ensures n * w <= MANY * 352
  {
    Monotone(n, 352, w);
    Monotone(352, MANY, n);
  }

  /** The words of a super block whose numbers are bounded like this. */
  lemma WordsFit(sb: Super)
    requires sb.magic == MAGIC && sb.version == VERSION_0 && sb.ctime == 0 && sb.inodes <= MANY && sb.blocks <= 600_000
    requires sb.blockSize <= 0x10_0000 && sb.blockLog2 <= 20 && sb.root == 0 && sb.inodesOffset == SUPER_SIZE
    requires sb.inodesSize <= 264_000_001 && sb.inodesCsize <= 264_000_001 && sb.blocksSize <= 5_000_000
    requires sb.blocksOffset == SUPER_SIZE + sb.inodesCsize && sb.entriesOffset == sb.blocksOffset + sb.blocksSize
    requires sb.entriesSize <= TWO_GIB && sb.compressionType < U32
    requires (forall w :: w in InodeWs(sb.ib) ==> w <= 32) && Narrow(sb.db)
    requires sb.bb.offset <= 32 && sb.bb.compressedSize <= 32 && sb.bb.size <= 32
    requires sb.mins.ctime < U32 && sb.mins.mtime < U32 && sb.mins.compressedSize < U32
    ensures Readable(sb) && forall w :: w in Words(sb) ==> w < U32
  {
    InodeWidths(sb.ib);
  }

  /**
    Every image of a modest table fits, whatever the options and the compressor, so all the results that
    ask for it hold of every source of up to six million nodes and 2 GiB with 32-bit attributes.
   */
  lemma ModestFits(tbl: seq<Inode>, o: Opts, log2: nat, c: Compressor, l: Layout)
    requires Modest(tbl) && 12 <= log2 <= 20 && c.ctype < U32 && Plan(tbl, o, log2, c) == Some(l)
    ensures Fits(tbl, l)
  {
    hide Stream, DirBitsOf, InodeBitsOf, InodeTable, MinsOf, Narrow, InodeWs, SqueezeAll, Squeeze, Blocks,
      BlockBitsOf, BlockTable, ItableOf, Plan, Flat, MinOf, Pow2, Words, Readable, BlockCount, ModestNode;
    Planned(tbl, o, log2, c, l);
    ItableIs(tbl, o, log2);
    var db := DirBitsOf(tbl);
    var blocks := Blocks(Stream(tbl, db), log2);
    ModestBlocks(tbl, log2, c, l.cblocks);
    PlanIs(tbl, o, log2, c, l.cblocks, |blocks[|blocks| - 1]|, l.citable);
    BlockCountBelow(|Stream(tbl, db)|, log2);
    ModestInodes(tbl, o, log2);
    InodeWidthsFit(tbl, o, log2);
    DirWidths(tbl);
    MinWords(tbl);
    WordsFit(l.sb);
    assert tbl[0] in tbl;
    RootTimes(tbl);
  }

  lemma MinWords(tbl: seq<Inode>)
    ensures MinsOf(tbl).ctime < U32 && MinsOf(tbl).mtime < U32
  {
  }

  lemma RootTimes(tbl: seq<Inode>)
    requires Modest(tbl)
    ensures 0 <= tbl[0].attr.ctime < U32 && 0 <= tbl[0].attr.mtime < U32
  {
    hide Stream, DirBitsOf;
    assert ModestNode(tbl[0]);
  }
}
