/** The readers' table lookups recover what the builder put in the tables. */
module Tables {
  import opened Seqs
  import opened Bits
  import opened Fields
  import opened MergeSort
  import opened Compressors
  import opened Format
  import opened Reader
  import opened Widths
  import opened Packing

  const INT_MAX := 0x7fff_ffff

  /** Nothing in the layout is cut off: every word of the super block, every field and every bit position fits. */
  ghost predicate Fits(tbl: seq<Inode>, l: Layout) {
    && Rooted(tbl) && Readable(l.sb)
    && (forall w :: w in Words(l.sb) ==> w < U32)
    && 0 <= tbl[0].attr.ctime < U32 && 0 <= tbl[0].attr.mtime < U32
    && 8 * |l.itable| <= INT_MAX && 8 * |l.btable| <= INT_MAX
  }

  /** What a reader has after mounting the image of `l`. */
  function Opened(l: Layout, c: Compressor): Mounted {
    Mounted(l.sb, l.itable, l.btable, Flat(l.cblocks), c)
  }

  /** Where record `k` of a table of records of `w` bits starts. */
  function Nth(k: nat, w: nat): nat {
    k * w
  }

  /** Record `k` of a table of equally long records stands at `k` times their length. */
  lemma TableRecord(recs: seq<seq<bool>>, w: nat, tail: seq<bool>, k: nat)
    requires k < |recs| && forall i :: 0 <= i < |recs| ==> |recs[i]| == w
    ensures |Flat(recs[..k])| == Nth(k, w)
    ensures Flat(recs) + tail == Flat(recs[..k]) + recs[k] + (Flat(recs[k + 1..]) + tail)
  {
    FlatUniform(recs[..k], w);
    assert recs == recs[..k] + ([recs[k]] + recs[k + 1..]);
    FlatAppend(recs[..k], [recs[k]] + recs[k + 1..]);
    assert Flat([recs[k]] + recs[k + 1..]) == recs[k] + Flat(recs[k + 1..]) by {
      assert ([recs[k]] + recs[k + 1..])[1..] == recs[k + 1..];
    }
    Regroup(Flat(recs[..k]), recs[k], Flat(recs[k + 1..]), tail);
  }

  lemma Regroup<T>(a: seq<T>, b: seq<T>, c: seq<T>, d: seq<T>)
    ensures a + (b + c) + d == a + b + (c + d)
  {
  }

  lemma PackedShape(recs: seq<seq<bool>>, w: nat, tail: seq<bool>, k: nat) returns (before: seq<bool>, after: seq<bool>)
    requires k < |recs| && forall i :: 0 <= i < |recs| ==> |recs[i]| == w
    ensures BitsOf(Pack(Flat(recs) + tail)) == before + recs[k] + after && |before| == Nth(k, w)
    ensures Nth(k, w) + w <= |Flat(recs)| <= |BitsOf(Pack(Flat(recs) + tail))|
  {
    hide Flat, Pack, BitsOf, Nth;
    PackBits(Flat(recs) + tail);
    var zeros := Zeros(8 * |Pack(Flat(recs) + tail)| - |Flat(recs) + tail|, false);
    TableRecord(recs, w, tail, k);
    before := Flat(recs[..k]);
    var rest := Flat(recs[k + 1..]) + tail;
    CatAssoc(before + recs[k], rest, zeros);
    after := rest + zeros;
    assert |Flat(recs) + tail| == |before| + w + |rest|;
  }

  /** Reading record `k` of a packed table of records, whatever follows the records. */
  lemma PackedRecord(recs: seq<seq<bool>>, w: nat, ws: seq<nat>, vs: seq<int>, tail: seq<bool>, k: nat)
    requires |ws| == |vs| && k < |recs| && recs[k] == Record(ws, vs) && w == Pos(ws, |ws|)
    requires forall i :: 0 <= i < |recs| ==> |recs[i]| == w
    requires forall i :: 0 <= i < |ws| ==> ws[i] <= 32
    ensures ReadsAs(BitsOf(Pack(Flat(recs) + tail)), Nth(k, w), ws, vs)
    ensures Nth(k, w) + w <= |Flat(recs)| <= |BitsOf(Pack(Flat(recs) + tail))|
  {
    hide Flat, Pack, BitsOf, Record, ReadsAs, Nth;
    var before, after := PackedShape(recs, w, tail, k);
    RecordReads(before, ws, vs, after);
  }

  // ---------- inode table ----------

  lemma InodeRecordRead(tbl: seq<Inode>, db: DirBits, ib: InodeBits, mins: Mins, log2: nat, k: nat)
    requires k < |tbl| && forall w :: w in InodeWs(ib) ==> w <= 32
    ensures ReadsAs(BitsOf(InodeTable(tbl, db, ib, mins, log2)), InodePos(ib, k), InodeWs(ib),
                    InodeVs(tbl[k], mins, SizeOf(tbl, db, k), OffsetOf(tbl, db, k), log2))
  {
    hide Flat, Pack, BitsOf, ReadsAs, Record, Pos, SizeOf, OffsetOf, InodeWs, InodeVs, InodeRecords;
    var ws, vs := InodeWs(ib), InodeVs(tbl[k], mins, SizeOf(tbl, db, k), OffsetOf(tbl, db, k), log2);
    var recs := InodeRecords(tbl, db, ib, mins, log2);
    ElevenFields(ib, tbl[k], mins, SizeOf(tbl, db, k), OffsetOf(tbl, db, k), log2);
    forall i | 0 <= i < |recs|
      ensures |recs[i]| == Pos(ws, |ws|)
    {
      ElevenFields(ib, tbl[i], mins, SizeOf(tbl, db, i), OffsetOf(tbl, db, i), log2);
      RecordLength(ws, InodeVs(tbl[i], mins, SizeOf(tbl, db, i), OffsetOf(tbl, db, i), log2));
    }
    assert forall i :: 0 <= i < |ws| ==> ws[i] in ws;
    PackedRecord(recs, InodeSize(ib), ws, vs, [], k);
    assert Flat(recs) + [] == Flat(recs);
  }

  lemma ElevenFields(ib: InodeBits, n: Inode, mins: Mins, size: nat, offset: nat, log2: nat)
    ensures |InodeWs(ib)| == |InodeVs(n, mins, size, offset, log2)| == 11
  {
  }

  /** The parts of a planned image. */
  lemma Planned(tbl: seq<Inode>, o: Opts, log2: nat, c: Compressor, l: Layout)
    requires Plan(tbl, o, log2, c) == Some(l)
    ensures l.sb.ib == InodeBitsOf(tbl, o, log2) && l.sb.db == DirBitsOf(tbl)
    ensures l.sb.mins.ctime == MinsOf(tbl).ctime && l.sb.mins.mtime == MinsOf(tbl).mtime
    ensures l.itable == InodeTable(tbl, l.sb.db, l.sb.ib, MinsOf(tbl), log2)
    ensures l.sb.inodes == |tbl| && l.sb.blockLog2 == log2 && l.sb.blockSize == Pow2(log2) && l.sb.ctime == 0
    ensures l.sb.blocks == BlockCount(|Stream(tbl, l.sb.db)|, log2)
    ensures SqueezeAll(Blocks(Stream(tbl, l.sb.db), log2), c) == Some(l.cblocks)
    ensures Squeeze(c, l.itable) == Some(l.citable)
  {
    hide DirBitsOf, InodeBitsOf, Stream, Blocks, BlockBitsOf, BlockTable, InodeTable, MinsOf, SqueezeAll, Squeeze,
      Flat, MinOf;
  }

  /** A field takes no bits exactly when its option switched it off. */
  lemma Optional(tbl: seq<Inode>, f: Inode -> int, off: bool, k: nat)
    requires k < |tbl| && 0 <= f(tbl[k]) && Blog(Unless(off, MaxOf(tbl, f))) <= 32
    ensures var w := Blog(Unless(off, MaxOf(tbl, f))); if off then w == 0 else w > 0 && f(tbl[k]) < Pow2(w)
  {
    if !off { FitsMax(tbl, f, k); }
  }

  lemma RecordFits(tbl: seq<Inode>, o: Opts, log2: nat, k: nat)
    requires k < |tbl| && forall w :: w in InodeWs(InodeBitsOf(tbl, o, log2)) ==> w <= 32
    ensures var ib, n, db := InodeBitsOf(tbl, o, log2), tbl[k], DirBitsOf(tbl);
            && Kind(n.body) < Pow2(ib.kind) && n.attr.owner < Pow2(ib.owner)
            && (if o.noGroupMode then ib.group == 0 else ib.group > 0 && n.attr.group < Pow2(ib.group))
            && (if o.noOtherMode then ib.other == 0 else ib.other > 0 && n.attr.other < Pow2(ib.other))
            && (if o.noUid then ib.uid == 0 else ib.uid > 0 && n.attr.uid < Pow2(ib.uid))
            && (if o.noGid then ib.gid == 0 else ib.gid > 0 && n.attr.gid < Pow2(ib.gid))
            && SizeOf(tbl, db, k) < Pow2(ib.size)
            && OffsetOf(tbl, db, k) / Pow2(log2) < Pow2(ib.block)
            && OffsetOf(tbl, db, k) % Pow2(log2) < Pow2(ib.index)
  {
    hide MaxOf, BlogFrom, Pow2, SizeOf, OffsetOf, DirBitsOf, MinOfMax, Blog;
    var ib, db := InodeBitsOf(tbl, o, log2), DirBitsOf(tbl);
    var ws := InodeWs(ib);
    assert ws[0] in ws && ws[1] in ws && ws[2] in ws && ws[3] in ws && ws[4] in ws && ws[5] in ws;
    FitsMax(tbl, KindOf, k);
    FitsMax(tbl, OwnerOf, k);
    Optional(tbl, GroupOf, o.noGroupMode, k);
    Optional(tbl, OtherOf, o.noOtherMode, k);
    Optional(tbl, UidOf, o.noUid, k);
    Optional(tbl, GidOf, o.noGid, k);
    PlaceFits(tbl, o, log2, k);
  }

  lemma PlaceFits(tbl: seq<Inode>, o: Opts, log2: nat, k: nat)
    requires k < |tbl| && forall w :: w in InodeWs(InodeBitsOf(tbl, o, log2)) ==> w <= 32
    ensures var ib, db := InodeBitsOf(tbl, o, log2), DirBitsOf(tbl);
            && SizeOf(tbl, db, k) < Pow2(ib.size)
            && OffsetOf(tbl, db, k) / Pow2(log2) < Pow2(ib.block)
            && OffsetOf(tbl, db, k) % Pow2(log2) < Pow2(ib.index)
  {
    hide MaxOf, BlogFrom, Pow2, SizeOf, OffsetOf, DirBitsOf, AttrBits, Blog;
    var db, ws := DirBitsOf(tbl), InodeWs(InodeBitsOf(tbl, o, log2));
    assert ws[8] in ws && ws[9] in ws && ws[10] in ws;
    FitsMax<nat>(Iota(|tbl|), SizeFn(tbl, db), k);
    FitsMax<nat>(Iota(|tbl|), BlockFn(tbl, db, log2), k);
    FitsMax<nat>(Iota(|tbl|), IndexFn(tbl, db, log2), k);
  }

  /** A time not below the base, less the base, fits too; a time switched off takes no bits. */
  lemma TimesFit(tbl: seq<Inode>, o: Opts, log2: nat, k: nat)
    requires k < |tbl| && forall w :: w in InodeWs(InodeBitsOf(tbl, o, log2)) ==> w <= 32
    ensures var ib, t, base := InodeBitsOf(tbl, o, log2), tbl[k].attr.ctime, MinOfMax(tbl, CtimeOf);
            && (o.noCtime && base >= 0 ==> ib.ctime == 0)
            && (!o.noCtime && t >= base ==> ib.ctime > 0 && t - base < Pow2(ib.ctime))
    ensures var ib, t, base := InodeBitsOf(tbl, o, log2), tbl[k].attr.mtime, MinOfMax(tbl, MtimeOf);
            && (o.noMtime && base >= 0 ==> ib.mtime == 0)
            && (!o.noMtime && t >= base ==> ib.mtime > 0 && t - base < Pow2(ib.mtime))
  {
    hide MaxOf, Blog, Unless, Pow2, InodeBitsOf, MinOfMax, InodeWs;
    InodeWidths(InodeBitsOf(tbl, o, log2));
    TimeBits(tbl, o, log2);
    TimeFits(tbl, CtimeOf, MinOfMax(tbl, CtimeOf), o.noCtime, k);
    TimeFits(tbl, MtimeOf, MinOfMax(tbl, MtimeOf), o.noMtime, k);
  }

  lemma TimeBits(tbl: seq<Inode>, o: Opts, log2: nat)
    ensures InodeBitsOf(tbl, o, log2).ctime == Blog(Unless(o.noCtime, MaxOf(tbl, CtimeOf)) - MinOfMax(tbl, CtimeOf))
    ensures InodeBitsOf(tbl, o, log2).mtime == Blog(Unless(o.noMtime, MaxOf(tbl, MtimeOf)) - MinOfMax(tbl, MtimeOf))
  {
    hide MaxOf, Blog, Unless, MinOfMax, SizeFn, BlockFn, IndexFn, DirBitsOf;
  }

  lemma TimeFits(tbl: seq<Inode>, f: Inode -> int, base: int, off: bool, k: nat)
    requires k < |tbl| && Blog(Unless(off, MaxOf(tbl, f)) - base) <= 32
    ensures var w := Blog(Unless(off, MaxOf(tbl, f)) - base);
            && (off && base >= 0 ==> w == 0)
            && (!off && f(tbl[k]) >= base ==> w > 0 && f(tbl[k]) - base < Pow2(w))
  {
    hide MaxOf, Pow2, BlogFrom;
    if !off && f(tbl[k]) >= base {
      FitsDelta(tbl, f, base, k);
      MaxOfBound(tbl, f, k);
      BlogLeast(MaxOf(tbl, f) - base);
    }
  }

  /** What filling node `k` from the image of `tbl` gives, its times aside. */
  ghost predicate Recovered(tbl: seq<Inode>, o: Opts, log2: nat, k: nat, r: NodeRec) {
    && k < |tbl|
    && var n, db := tbl[k], DirBitsOf(tbl);
       && r.number == k && r.kind == Kind(n.body) && r.owner == n.attr.owner
       && r.group == (if o.noGroupMode then n.attr.owner else n.attr.group)
       && r.other == (if o.noOtherMode then n.attr.owner else n.attr.other)
       && r.uid == (if o.noUid then 0 else n.attr.uid)
       && r.gid == (if o.noGid then 0 else n.attr.gid)
       && r.size == SizeOf(tbl, db, k)
       && r.block == OffsetOf(tbl, db, k) / Pow2(log2)
       && r.index == OffsetOf(tbl, db, k) % Pow2(log2)
  }

  /** The record read for node `k`, field by field. */
  lemma NodeRead(tbl: seq<Inode>, o: Opts, log2: nat, c: Compressor, l: Layout, k: nat)
    requires Plan(tbl, o, log2, c) == Some(l) && Fits(tbl, l) && k < |tbl|
    ensures HasNode(Opened(l, c), k)
    ensures ReadsAs(BitsOf(l.itable), InodePos(l.sb.ib, k), InodeWs(l.sb.ib),
                    InodeVs(tbl[k], MinsOf(tbl), SizeOf(tbl, l.sb.db, k), OffsetOf(tbl, l.sb.db, k), log2))
  {
    hide InodeWs, Pos, ReadAll, SizeOf, OffsetOf, InodeTable, InodeBitsOf, DirBitsOf, MinsOf, Words, Record, BitsOf,
      Plan;
    Planned(tbl, o, log2, c, l);
    InodeRecordRead(tbl, l.sb.db, l.sb.ib, MinsOf(tbl), log2, k);
  }

  /**
    The inode table round trip: filling node `k` recovers type, modes, owner, size and place, a mode
    or id whose option disabled it falling back to the owner's mode or to 0.
   */
  lemma NodeFillRecovers(tbl: seq<Inode>, o: Opts, log2: nat, c: Compressor, l: Layout, k: nat)
    requires Plan(tbl, o, log2, c) == Some(l) && Fits(tbl, l) && k < |tbl|
    ensures HasNode(Opened(l, c), k) && Recovered(tbl, o, log2, k, NodeFill(Opened(l, c), k))
  {
    hide Pos, ReadAll, SizeOf, OffsetOf, InodeTable, InodeBitsOf, DirBitsOf, MinsOf, Words, BitsOf, Plan, Pow2,
      InodePos;
    NodeRead(tbl, o, log2, c, l, k);
    Planned(tbl, o, log2, c, l);
    NodeFromFields(tbl, o, log2, k, l.sb, ReadAll(BitsOf(l.itable), InodePos(l.sb.ib, k), InodeWs(l.sb.ib)));
  }

  lemma NodeFromFields(tbl: seq<Inode>, o: Opts, log2: nat, k: nat, sb: Super, v: seq<nat>)
    requires k < |tbl| && |v| == 11 && sb.ib == InodeBitsOf(tbl, o, log2)
    requires forall w :: w in InodeWs(sb.ib) ==> w <= 32
    requires var db := DirBitsOf(tbl);
             var vs := InodeVs(tbl[k], MinsOf(tbl), SizeOf(tbl, db, k), OffsetOf(tbl, db, k), log2);
             forall i :: 0 <= i < 11 && 0 <= vs[i] < Pow2(InodeWs(sb.ib)[i]) ==> v[i] == vs[i]
    ensures Recovered(tbl, o, log2, k, NodeFrom(sb, k, v))
  {
    hide SizeOf, OffsetOf, InodeBitsOf, DirBitsOf, MinsOf, Pow2;
    RecordFits(tbl, o, log2, k);
  }

  lemma MinsExact(tbl: seq<Inode>, l: Layout)
    requires Fits(tbl, l)
    ensures MinOfMax(tbl, CtimeOf) == tbl[0].attr.ctime == MinsOf(tbl).ctime
    ensures MinOfMax(tbl, MtimeOf) == tbl[0].attr.mtime == MinsOf(tbl).mtime
  {
    hide MinOfMax, Words, Readable;
    MinOfMaxIsFirst(tbl, CtimeOf);
    MinOfMaxIsFirst(tbl, MtimeOf);
  }

  /**
    Times are stored as differences from the first scanned node's. With the field enabled the kernel
    gives node `k` its change time back exactly when that is not before the first node's; the
    extraction tool sees the bare difference. With the field disabled every node gets the first one's.
   */
  lemma CtimeRecovers(tbl: seq<Inode>, o: Opts, log2: nat, c: Compressor, l: Layout, k: nat)
    requires Plan(tbl, o, log2, c) == Some(l) && Fits(tbl, l) && k < |tbl|
    ensures HasNode(Opened(l, c), k)
    ensures var t, first := tbl[k].attr.ctime, tbl[0].attr.ctime;
            var u, kernel := NodeFill(Opened(l, c), k).ctime, KernelNodeFill(Opened(l, c), k).ctime;
            && (!o.noCtime ==> (kernel == t <==> t >= first))
            && (!o.noCtime && t >= first ==> u == t - first)
            && (o.noCtime ==> u == 0 && kernel == first)
  {
    hide Pos, ReadAll, SizeOf, OffsetOf, InodeTable, DirBitsOf, InodeBitsOf, MinsOf, Words, BitsOf, Plan, Pow2,
      MinOfMax, MaxOf, Blog, InodePos;
    NodeRead(tbl, o, log2, c, l, k);
    Planned(tbl, o, log2, c, l);
    MinsExact(tbl, l);
    TimesFit(tbl, o, log2, k);
    TimesFit(tbl, o, log2, 0);
  }

  /** Modification times likewise; with the field disabled the change time's difference stands in. */
  lemma MtimeRecovers(tbl: seq<Inode>, o: Opts, log2: nat, c: Compressor, l: Layout, k: nat)
    requires Plan(tbl, o, log2, c) == Some(l) && Fits(tbl, l) && k < |tbl|
    ensures HasNode(Opened(l, c), k)
    ensures var t, first := tbl[k].attr.mtime, tbl[0].attr.mtime;
            var u, kernel := NodeFill(Opened(l, c), k).mtime, KernelNodeFill(Opened(l, c), k).mtime;
            && (!o.noMtime ==> (kernel == t <==> t >= first))
            && (!o.noMtime && t >= first ==> u == t - first)
            && (o.noMtime ==> u == NodeFill(Opened(l, c), k).ctime && kernel == u + first)
  {
    hide Pos, ReadAll, SizeOf, OffsetOf, InodeTable, DirBitsOf, InodeBitsOf, MinsOf, Words, BitsOf, Plan, Pow2,
      MinOfMax, MaxOf, Blog, InodePos;
    NodeRead(tbl, o, log2, c, l, k);
    Planned(tbl, o, log2, c, l);
    MinsExact(tbl, l);
    TimesFit(tbl, o, log2, k);
    TimesFit(tbl, o, log2, 0);
  }

  // ---------- block table ----------

  /** The trailing field of a packed table. */
  lemma PackedTail(front: seq<bool>, w: nat, v: nat)
    requires v < Pow2(w) && w <= 32
    ensures var bits := BitsOf(Pack(front + Enc(w, ToU32(v))));
            |front| + w <= |bits| && At(bits, |front|, w) == v
  {
    hide Pack, BitsOf, Enc, Dec;
    var bs := front + Enc(w, ToU32(v));
    PackBits(bs);
    var zeros := Zeros(8 * |Pack(bs)| - |bs|, false);
    assert (bs + zeros)[|front|..|front| + w] == Enc(w, ToU32(v));
    DecEnc(w, ToU32(v));
    ModMod(v, w);
    DivModUnique(v, Pow2(w), 0, v);
  }

  /** Compressed sizes, their minimum and all offsets fit the widths of the block table. */
  lemma BlockFits(cs: seq<bytes>, lastSize: nat, b: nat)
    requires b < |cs| && |Flat(cs)| < U32
    requires var bb := BlockBitsOf(cs, lastSize); bb.offset <= 32 && bb.compressedSize <= 32 && bb.size <= 32
    ensures var bb, min := BlockBitsOf(cs, lastSize), MinOf(cs, LengthOf);
            && 0 <= min < U32 && ToU32(min) == min && 0 <= |cs[b]| - min < Pow2(bb.compressedSize)
            && |Flat(cs[..b])| < Pow2(bb.offset) && lastSize < Pow2(bb.size)
  {
    hide MaxOf, MinOf, BlogFrom, Pow2, Flat;
    FitsMax(Offsets(cs), (o: nat) => o, b);
    MinOfBound(cs, LengthOf, b);
    MinOfAtLeast(cs, LengthOf, 0);
    FlatAt(cs, b);
    FitsDelta(cs, LengthOf, MinOf(cs, LengthOf), b);
    BlogLeast(Max(-1, lastSize));
  }

  lemma BlockRecordRead(cs: seq<bytes>, lastSize: nat, b: nat)
    requires b < |cs| && |Flat(cs)| < U32
    requires var bb := BlockBitsOf(cs, lastSize); bb.offset <= 32 && bb.compressedSize <= 32 && bb.size <= 32
    ensures var bb := BlockBitsOf(cs, lastSize);
            var bits, vs := BitsOf(BlockTable(bb, cs, lastSize)), [|Flat(cs[..b])|, |cs[b]| - MinOf(cs, LengthOf)];
            && ReadsAs(bits, BlockPos(bb, b), BlockWs(bb), vs)
            && BlockPos(bb, b) + BlockSize(bb) <= |bits|
            && (b + 1 == |cs| ==> BlockPos(bb, b) + BlockSize(bb) + bb.size <= |bits|
                                  && At(bits, BlockPos(bb, b) + BlockSize(bb), bb.size) == lastSize)
  {
    hide Flat, Pack, BitsOf, ReadsAs, Record, Pos, Enc, BlockBitsOf, MinOf, BlockRecords, BlockSize, At;
    BlockSizeIs(BlockBitsOf(cs, lastSize));
    var bb := BlockBitsOf(cs, lastSize);
    var ws, vs: seq<int> := BlockWs(bb), [|Flat(cs[..b])|, |cs[b]| - MinOf(cs, LengthOf)];
    var recs := BlockRecords(bb, cs);
    var w := BlockSize(bb);
    forall i | 0 <= i < |recs|
      ensures |recs[i]| == w
    {
      RecordLength(ws, [|Flat(cs[..i])|, |cs[i]| - MinOf(cs, LengthOf)]);
    }
    PackedRecord(recs, w, ws, vs, Enc(bb.size, ToU32(lastSize)), b);
    if b + 1 == |cs| {
      BlockFits(cs, lastSize, b);
      PackedTail(Flat(recs), bb.size, lastSize);
      FlatUniform(recs, w);
      LastRecord(bb, b);
    }
  }

  lemma BlockSizeIs(bb: BlockBits)
    ensures BlockSize(bb) == Pos(BlockWs(bb), |BlockWs(bb)|)
  {
  }

  lemma LastRecord(bb: BlockBits, b: nat)
    ensures (b + 1) * BlockSize(bb) == BlockPos(bb, b) + BlockSize(bb)
  {
  }

  /** Every block but the last is full, and the last is neither empty nor longer. */
  lemma BlockLengths(stream: bytes, log2: nat, b: nat)
    requires b < BlockCount(|stream|, log2)
    ensures var bs := Blocks(stream, log2);
            0 < |bs[b]| <= Pow2(log2) && (b + 1 < |bs| ==> |bs[b]| == Pow2(log2))
  {
    hide Pow2;
    BlockInRange(|stream|, log2, b);
    var m := Pow2(log2);
    assert (b + 1) * m == b * m + m;
  }

  lemma {:induction false} BlocksFront(stream: bytes, log2: nat, b: nat)
    requires b <= BlockCount(|stream|, log2)
    ensures Flat(Blocks(stream, log2)[..b]) == stream[..Min(b * Pow2(log2), |stream|)]
  {
    hide Pow2, Flat;
    if b == 0 {
      assert Blocks(stream, log2)[..0] == [] && stream[..0] == [] && 0 * Pow2(log2) == 0;
      NoPieces<byte>();
    } else {
      BlocksFront(stream, log2, b - 1);
      BlockInRange(|stream|, log2, b - 1);
      FlatTake(Blocks(stream, log2), b - 1);
    }
  }

  lemma NoPieces<T>()
    ensures Flat<T>([]) == []
  {
  }

  /** The blocks end to end are the stream. */
  lemma BlocksWhole(stream: bytes, log2: nat)
    ensures Flat(Blocks(stream, log2)) == stream
  {
    hide Pow2, Flat;
    var n := BlockCount(|stream|, log2);
    BlocksFront(stream, log2, n);
    FlatAll(Blocks(stream, log2));
    if n > 0 { BlockInRange(|stream|, log2, n - 1); } else { NoBlocks(stream, log2); }
  }

  lemma NoBlocks(stream: bytes, log2: nat)
    requires BlockCount(|stream|, log2) == 0
    ensures stream == []
  {
    hide Pow2;
    if |stream| > 0 { BlockHolds(|stream|, log2, 0, 0); }
  }

  /**
    The block table round trip: filling block `b` recovers its offset, the sum of the compressed sizes
    before it, its compressed size, and its size, though only the last block's size is stored.
   */
  lemma BlockFillRecovers(tbl: seq<Inode>, o: Opts, log2: nat, c: Compressor, l: Layout, b: nat)
    requires Plan(tbl, o, log2, c) == Some(l) && Fits(tbl, l) && b < l.sb.blocks
    ensures |l.cblocks| == l.sb.blocks == |Blocks(Stream(tbl, l.sb.db), log2)|
    ensures HasBlock(Opened(l, c), b)
    ensures BlockFill(Opened(l, c), b)
         == BlockRec(|Flat(l.cblocks[..b])|, |l.cblocks[b]|, |Blocks(Stream(tbl, l.sb.db), log2)[b]|)
  {
    hide Pos, ReadAll, BlockTable, InodeBitsOf, DirBitsOf, MinsOf, BitsOf, Plan, Pow2, Flat, Stream, MinOf,
      BlockBitsOf, Blocks, BlockPos, SqueezeAll, BlockSize;
    Planned(tbl, o, log2, c, l);
    PlannedBlocks(tbl, o, log2, c, l);
    var blocks := Blocks(Stream(tbl, l.sb.db), log2);
    var last := |blocks[|blocks| - 1]|;
    BlockRecordRead(l.cblocks, last, b);
    BlockFits(l.cblocks, last, b);
    BlockLengths(Stream(tbl, l.sb.db), log2, b);
  }

  lemma PlannedBlocks(tbl: seq<Inode>, o: Opts, log2: nat, c: Compressor, l: Layout)
    requires Plan(tbl, o, log2, c) == Some(l) && Fits(tbl, l) && l.sb.blocks > 0
    ensures var blocks := Blocks(Stream(tbl, l.sb.db), log2);
            && |blocks| == |l.cblocks| == l.sb.blocks
            && l.sb.bb == BlockBitsOf(l.cblocks, |blocks[|blocks| - 1]|)
            && l.btable == BlockTable(l.sb.bb, l.cblocks, |blocks[|blocks| - 1]|)
            && l.sb.mins.compressedSize == ToU32(MinOf(l.cblocks, LengthOf))
            && |Flat(l.cblocks)| < U32
  {
    hide DirBitsOf, InodeBitsOf, Stream, Blocks, BlockBitsOf, BlockTable, InodeTable, MinsOf, Flat, MinOf;
    assert Words(l.sb)[14] in Words(l.sb);
  }

  // ---------- blocks ----------

  /** The mounted image's blocks are the blocks of `stream`. */
  ghost predicate Stores(m: Mounted, stream: bytes) {
    && Sane(m) && m.sb.blocks == BlockCount(|stream|, m.sb.blockLog2)
    && forall b :: 0 <= b < m.sb.blocks ==>
         && BlockFill(m, b).size == |Blocks(stream, m.sb.blockLog2)[b]|
         && Unblock(m, b) == Some(Blocks(stream, m.sb.blockLog2)[b])
  }

  lemma BlockStored(tbl: seq<Inode>, o: Opts, log2: nat, c: Compressor, l: Layout, b: nat)
    requires Plan(tbl, o, log2, c) == Some(l) && Fits(tbl, l) && Lawful(c) && b < l.sb.blocks
    ensures var m, blocks := Opened(l, c), Blocks(Stream(tbl, l.sb.db), log2);
            && b < |blocks| && HasBlock(m, b)
            && var r := BlockFill(m, b);
               && r.offset + r.compressedSize <= |m.entries| && 0 < r.size <= m.sb.blockSize
               && r.size == |blocks[b]| && Unblock(m, b) == Some(blocks[b])
  {
    hide InodeBitsOf, DirBitsOf, MinsOf, Plan, Pow2, Flat, Stream, MinOf, BlockBitsOf, Blocks, BlockFill, HasBlock,
      SqueezeAll, Squeeze, Words, Readable;
    BlockFillRecovers(tbl, o, log2, c, l, b);
    Planned(tbl, o, log2, c, l);
    BlockLengths(Stream(tbl, l.sb.db), log2, b);
    FlatAt(l.cblocks, b);
    Unsqueeze(c, Blocks(Stream(tbl, l.sb.db), log2)[b], l.cblocks[b]);
  }

  lemma Unsqueeze(c: Compressor, x: bytes, y: bytes)
    requires Lawful(c) && Squeeze(c, x) == Some(y)
    ensures c.uncompress(y, |x|) == Some(x)
  {
    assert c.compress(x, 2 * |x|) == Some(y);
  }

  /** The image of a node table stores its entry stream. */
  lemma ImageStores(tbl: seq<Inode>, o: Opts, log2: nat, c: Compressor, l: Layout)
    requires Plan(tbl, o, log2, c) == Some(l) && Fits(tbl, l) && Lawful(c)
    ensures Stores(Opened(l, c), Stream(tbl, l.sb.db))
  {
    hide InodeBitsOf, DirBitsOf, MinsOf, Plan, Pow2, Flat, Stream, Blocks, BlockFill, HasBlock, HasNode, Unblock, Words;
    Planned(tbl, o, log2, c, l);
    var m := Opened(l, c);
    forall b | 0 <= b < l.sb.blocks
      ensures HasBlock(m, b) && b < |Blocks(Stream(tbl, l.sb.db), log2)|
      ensures var r := BlockFill(m, b);
              && r.offset + r.compressedSize <= |m.entries| && 0 < r.size <= m.sb.blockSize
              && r.size == |Blocks(Stream(tbl, l.sb.db), log2)[b]|
              && Unblock(m, b) == Some(Blocks(Stream(tbl, l.sb.db), log2)[b])
    {
      BlockStored(tbl, o, log2, c, l, b);
    }
    forall k | 0 <= k < |tbl|
      ensures HasNode(m, k)
    {
      NodeRead(tbl, o, log2, c, l, k);
    }
  }

  /** Where stream byte `i` of block `b` is. */
  function StreamPos(log2: nat, b: nat, i: nat): nat {
    b * Pow2(log2) + i
  }

  /** The first piece of a read is the part of the range in its first block; the rest starts the next block. */
  lemma ReadPiece(stream: bytes, log2: nat, b: nat, i: nat, n: nat)
    requires i < Pow2(log2) && 0 < n && StreamPos(log2, b, i) + n <= |stream|
    ensures b < BlockCount(|stream|, log2)
    ensures var u, at := Blocks(stream, log2)[b], StreamPos(log2, b, i);
            var l := Min(n, |u| - i);
            && i < |u| && 0 < l && u[i..i + l] == stream[at..at + l]
            && (n > l ==> StreamPos(log2, b + 1, 0) == at + l)
  {
    hide Pow2;
    BlockHolds(|stream|, log2, b, i);
    var m := Pow2(log2);
    var a := b * m;
    assert (b + 1) * m == a + m;
    var u := Blocks(stream, log2)[b];
    var e := Min(a + m, |stream|);
    assert u == stream[a..e];
    var l := Min(n, |u| - i);
    SliceSlice(stream, a, e, i, i + l);
  }

  /** A range of the stream spans existing blocks, and reading it block by block gives exactly that slice. */
  lemma {:induction false} ReadSlice(m: Mounted, stream: bytes, b: nat, i: nat, n: nat)
    requires Stores(m, stream) && i < Pow2(m.sb.blockLog2)
    requires StreamPos(m.sb.blockLog2, b, i) + n <= |stream|
    ensures Spans(m, b, i, n)
    ensures var at := StreamPos(m.sb.blockLog2, b, i); ReadFrom(m, b, i, n) == Some(stream[at..at + n])
    decreases n
  {
    hide Unblock, BlockFill, StreamPos, Blocks, Readable;
    var log2 := m.sb.blockLog2;
    var at := StreamPos(log2, b, i);
    if n == 0 {
      assert stream[at..at + n] == [];
    } else {
      ReadPiece(stream, log2, b, i, n);
      var u := Blocks(stream, log2)[b];
      var l := Min(n, |u| - i);
      assert Unblock(m, b) == Some(u);
      if n > l {
        ReadSlice(m, stream, b + 1, 0, n - l);
        assert stream[at..at + n] == stream[at..at + l] + stream[at + l..at + l + (n - l)];
      } else {
        assert ReadFrom(m, b + 1, 0, 0) == Some([]);
        assert stream[at..at + l] + [] == stream[at..at + n];
      }
    }
  }

  /** Byte `i` of block `b` exists when the stream reaches past it. */
  lemma BlockHolds(len: nat, log2: nat, b: nat, i: nat)
    requires i < Pow2(log2) && b * Pow2(log2) + i < len
    ensures b < BlockCount(len, log2) && i < Min((b + 1) * Pow2(log2), len) - b * Pow2(log2)
  {
    var m := Pow2(log2);
    assert (b + 1) * m == b * m + m;
    DivModUnique(b * m + i, m, b, i);
    DivBelow(b * m + i, len, m);
  }
}
