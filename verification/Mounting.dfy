/** An image mounts as what it was built from, and every node of it can be read. */
module Mounting {
  import opened Seqs
  import opened Bits
  import opened MergeSort
  import opened Compressors
  import opened Format
  import opened Reader
  import opened Packing
  import opened Tables

  lemma Le32RoundTrip(v: nat)
    requires v < U32
    ensures FromLe32(Le32(v)) == v
  {
    var a, b, c := v / 256, v / 65536, v / 16777216;
    assert a / 256 == b && b / 256 == c && c < 256;
  }

  /** Word `i` of a run of words is its four bytes. */
  lemma WordAt(ws: seq<nat>, rest: bytes, i: nat)
    requires i < |ws|
    ensures |Flat(MapSeq(Le32, ws))| == 4 * |ws|
    ensures (Flat(MapSeq(Le32, ws)) + rest)[4 * i..4 * i + 4] == Le32(ws[i])
  {
    hide Flat, Le32;
    var ps := MapSeq(Le32, ws);
    FlatUniform(ps, 4);
    FlatUniform(ps[..i], 4);
    FlatAt(ps, i);
  }

  /** The super block reads back word for word. */
  lemma SuperReads(sb: Super, rest: bytes)
    requires forall w :: w in Words(sb) ==> w < U32
    ensures |SuperBytes(sb)| == SUPER_SIZE && SuperOf(SuperBytes(sb) + rest) == sb
  {
    hide Flat, Le32, FromLe32, Words, FromWords;
    var img := SuperBytes(sb) + rest;
    WordAt(Words(sb), rest, 0);
    var ws := seq(38, i requires 0 <= i < 38 => FromLe32(img[4 * i..4 * i + 4]));
    forall i | 0 <= i < 38
      ensures ws[i] == Words(sb)[i]
    {
      WordAt(Words(sb), rest, i);
      assert Words(sb)[i] in Words(sb);
      Le32RoundTrip(Words(sb)[i]);
    }
    assert ws == Words(sb);
    WordsRoundTrip(sb);
  }

  lemma WordsRoundTrip(sb: Super)
    ensures FromWords(Words(sb)) == sb
  {
  }

  lemma SectionAt(a: bytes, b: bytes, c: bytes)
    ensures Section(a + b + c, |a|, |b|) == Some(b)
  {
  }

  /** The super block says where its sections are. */
  ghost predicate Located(l: Layout) {
    && l.sb.magic == MAGIC && l.sb.inodesSize == |l.itable|
    && l.sb.inodesOffset == SUPER_SIZE && l.sb.inodesCsize == |l.citable|
    && l.sb.blocksOffset == SUPER_SIZE + |l.citable| && l.sb.blocksSize == |l.btable|
    && l.sb.entriesOffset == SUPER_SIZE + |l.citable| + |l.btable| && l.sb.entriesSize == |Flat(l.cblocks)|
  }

  lemma PlannedLocated(tbl: seq<Inode>, o: Opts, log2: nat, c: Compressor, l: Layout)
    requires Plan(tbl, o, log2, c) == Some(l)
    ensures Located(l) && l.sb.compressionType == c.ctype
  {
    hide Flat, DirBitsOf, InodeBitsOf, Stream, Blocks, BlockBitsOf, BlockTable, InodeTable, MinsOf, SqueezeAll,
      Squeeze, MinOf;
  }

  lemma SectionsFound(l: Layout, o: Opts)
    requires |SuperBytes(l.sb)| == SUPER_SIZE && Located(l)
    ensures Section(Image(l, o), l.sb.inodesOffset, l.sb.inodesCsize) == Some(l.citable)
    ensures Section(Image(l, o), l.sb.blocksOffset, l.sb.blocksSize) == Some(l.btable)
    ensures Section(Image(l, o), l.sb.entriesOffset, l.sb.entriesSize) == Some(Flat(l.cblocks))
  {
    hide SuperBytes, Flat, Section, Padding;
    var s, e, p := SuperBytes(l.sb), Flat(l.cblocks), Padding(|Sections(l)|, o);
    assert Image(l, o) == s + l.citable + (l.btable + e + p);
    SectionAt(s, l.citable, l.btable + e + p);
    assert Image(l, o) == (s + l.citable) + l.btable + (e + p);
    SectionAt(s + l.citable, l.btable, e + p);
    SectionAt(s + l.citable + l.btable, e, p);
  }

  lemma ImageFront(l: Layout, o: Opts)
    requires forall w :: w in Words(l.sb) ==> w < U32
    ensures |SuperBytes(l.sb)| == SUPER_SIZE <= |Image(l, o)| && SuperOf(Image(l, o)) == l.sb
  {
    hide SuperBytes, Flat, Padding, SuperOf, Words;
    var rest := l.citable + l.btable + Flat(l.cblocks) + Padding(|Sections(l)|, o);
    assert Image(l, o) == SuperBytes(l.sb) + rest;
    SuperReads(l.sb, rest);
  }

  /** Mounting the image of a node table gives its super block and its three sections back. */
  lemma MountsImage(tbl: seq<Inode>, o: Opts, log2: nat, c: Compressor, l: Layout, registry: nat -> Option<Compressor>)
    requires Plan(tbl, o, log2, c) == Some(l) && Fits(tbl, l) && Lawful(c) && registry(c.ctype) == Some(c)
    ensures Mount(Image(l, o), registry) == Some(Opened(l, c))
  {
    hide SuperBytes, Flat, Section, SuperOf, Squeeze, Words, Plan, Image, Lawful;
    ImageFront(l, o);
    PlannedLocated(tbl, o, log2, c, l);
    SectionsFound(l, o);
    Planned(tbl, o, log2, c, l);
    Unsqueeze(c, l.itable, l.citable);
  }

  // ---------- reading nodes ----------

  /** Node `k` of the image can be filled, its block looked up, and its content is what was packed for it. */
  lemma NodeContent(tbl: seq<Inode>, o: Opts, log2: nat, c: Compressor, l: Layout, k: nat)
    requires Plan(tbl, o, log2, c) == Some(l) && Fits(tbl, l) && Lawful(c) && k < |tbl|
    ensures Reachable(Opened(l, c), k)
    ensures Recovered(tbl, o, log2, k, NodeFill(Opened(l, c), k))
    ensures Content(Opened(l, c), NodeFill(Opened(l, c), k)) == Some(Ser(l.sb.db, tbl[k].body))
  {
    hide Stores, NodeFill, HasNode, DirBitsOf, InodeBitsOf, Stream, Words, Ser, Plan, OffsetOf, SizeOf, Kind, Spans,
      ReadFrom, Sane, Pow2, Lawful, Readable, StreamPos;
    var m, db := Opened(l, c), l.sb.db;
    Planned(tbl, o, log2, c, l);
    ImageStores(tbl, o, log2, c, l);
    StoresSane(m, Stream(tbl, db));
    NodeFillRecovers(tbl, o, log2, c, l, k);
    Extent(tbl, db, k);
    BlockExists(tbl, log2, k);
    var r, at := NodeFill(m, k), OffsetOf(tbl, db, k);
    SplitOffset(at, log2, r.block, r.index);
    SizeIs(tbl, db, k);
    ReadSlice(m, Stream(tbl, db), r.block, r.index, r.size);
  }

  lemma SplitOffset(at: nat, log2: nat, b: nat, i: nat)
    requires b == at / Pow2(log2) && i == at % Pow2(log2)
    ensures i < Pow2(log2) && StreamPos(log2, b, i) == at
  {
    hide Pow2;
  }

  lemma StoresSane(m: Mounted, stream: bytes)
    requires Stores(m, stream)
    ensures Sane(m)
  {
  }

  lemma SizeIs(tbl: seq<Inode>, db: DirBits, k: nat)
    requires k < |tbl|
    ensures SizeOf(tbl, db, k) == |Ser(db, tbl[k].body)|
  {
  }
}
