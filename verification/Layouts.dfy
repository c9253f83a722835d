/** What stands where in an image, byte by byte and bit by bit. */
module Layouts {
  import opened Seqs
  import opened Bits
  import opened Fields
  import opened Compressors
  import opened Format
  import opened Reader
  import opened Tables
  import opened Mounting
  import opened Walking

  // ---------- bits of bytes ----------

  /** Bit `i` of a byte string, the first byte's highest bit first. */
  function BitAtPlace(s: bytes, i: nat): nat {
    if i < 8 * |s| then s[i / 8] / Pow2(7 - i % 8) % 2 else 0
  }

  /** The number in the `w` bits from bit `at` on, highest first. */
  function Number(s: bytes, at: nat, w: nat): nat {
    if w == 0 then 0 else 2 * Number(s, at, w - 1) + BitAtPlace(s, at + w - 1)
  }

  lemma BitIs(s: bytes, i: nat)
    requires i < 8 * |s|
    ensures BitsOf(s)[i] <==> BitAtPlace(s, i) == 1
  {
    hide BitsOf, Enc, Pow2;
    BitAt(s, i);
    EncBit(8, s[i / 8], i % 8);
  }

  /** The fields the readers take from a table are those numbers. */
  lemma {:induction false} AtNumber(s: bytes, at: nat, w: nat)
    requires at + w <= 8 * |s|
    ensures At(BitsOf(s), at, w) == Number(s, at, w)
    decreases w
  {
    hide BitsOf, BitAtPlace;
    var bits := BitsOf(s);
    if w > 0 {
      AtNumber(s, at, w - 1);
      var f := bits[at..at + w];
      assert f[..|f| - 1] == bits[at..at + w - 1] && f[|f| - 1] == bits[at + w - 1];
      BitIs(s, at + w - 1);
      BitOrNot(s, at + w - 1);
    }
  }

  lemma BitOrNot(s: bytes, i: nat)
    requires i < 8 * |s|
    ensures BitAtPlace(s, i) == 0 || BitAtPlace(s, i) == 1
  {
  }

  // ---------- the inode table ----------

  lemma InodePlaces(ib: InodeBits)
    ensures var ws := InodeWs(ib);
            && Pos(ws, 0) == 0 && Pos(ws, 1) == ib.kind && Pos(ws, 2) == ib.kind + ib.owner
            && Pos(ws, 3) == ib.kind + ib.owner + ib.group && Pos(ws, 4) == Pos(ws, 3) + ib.other
            && Pos(ws, 5) == Pos(ws, 4) + ib.uid && Pos(ws, 6) == Pos(ws, 5) + ib.gid
            && Pos(ws, 7) == Pos(ws, 6) + ib.ctime && Pos(ws, 8) == Pos(ws, 7) + ib.mtime
            && Pos(ws, 9) == Pos(ws, 8) + ib.size && Pos(ws, 10) == Pos(ws, 9) + ib.block
            && Pos(ws, 11) == Pos(ws, 10) + ib.index
  {
  }

  lemma FieldAt(s: bytes, at: nat, ws: seq<nat>, i: nat, p: nat, w: nat)
    requires i < |ws| && at + Pos(ws, |ws|) <= 8 * |s| && p == at + Pos(ws, i) && w == ws[i]
    ensures p + w <= 8 * |s| && ReadAll(BitsOf(s), at, ws)[i] == Number(s, p, w)
  {
    hide BitsOf, At, Number, Pos;
    NextPos(ws, i);
    PosMono(ws, i + 1, |ws|);
    AtNumber(s, p, w);
  }

  lemma NextPos(ws: seq<nat>, i: nat)
    requires i < |ws|
    ensures Pos(ws, i + 1) == Pos(ws, i) + ws[i]
  {
  }

  /** The bits of one inode record. */
  function InodeLength(ib: InodeBits): nat {
    ib.kind + ib.owner + ib.group + ib.other + ib.uid + ib.gid + ib.ctime + ib.mtime + ib.size + ib.block + ib.index
  }

  /** The eleven numbers from bit `at` on, one behind the other. */
  function ElevenNumbers(ib: InodeBits, t: bytes, at: nat): (v: seq<nat>)
    ensures |v| == 11
  {
    var ids := at + ib.kind + ib.owner + ib.group + ib.other;
    var times := ids + ib.uid + ib.gid;
    var place := times + ib.ctime + ib.mtime;
    [Number(t, at, ib.kind), Number(t, at + ib.kind, ib.owner), Number(t, at + ib.kind + ib.owner, ib.group),
     Number(t, at + ib.kind + ib.owner + ib.group, ib.other), Number(t, ids, ib.uid), Number(t, ids + ib.uid, ib.gid),
     Number(t, times, ib.ctime), Number(t, times + ib.ctime, ib.mtime), Number(t, place, ib.size),
     Number(t, place + ib.size, ib.block), Number(t, place + ib.size + ib.block, ib.index)]
  }

  lemma InodeNth(ib: InodeBits)
    ensures var ws := InodeWs(ib);
            && |ws| == 11 && ws[0] == ib.kind && ws[1] == ib.owner && ws[2] == ib.group && ws[3] == ib.other
            && ws[4] == ib.uid && ws[5] == ib.gid && ws[6] == ib.ctime && ws[7] == ib.mtime && ws[8] == ib.size
            && ws[9] == ib.block && ws[10] == ib.index
  {
  }

  lemma FirstFields(ib: InodeBits, t: bytes, at: nat)
    requires |InodeWs(ib)| == 11 && at + Pos(InodeWs(ib), 11) <= 8 * |t|
    ensures var r, ids := ReadAll(BitsOf(t), at, InodeWs(ib)), at + ib.kind + ib.owner + ib.group + ib.other;
            && r[0] == Number(t, at, ib.kind) && r[1] == Number(t, at + ib.kind, ib.owner)
            && r[2] == Number(t, at + ib.kind + ib.owner, ib.group)
            && r[3] == Number(t, at + ib.kind + ib.owner + ib.group, ib.other)
            && r[4] == Number(t, ids, ib.uid) && r[5] == Number(t, ids + ib.uid, ib.gid)
  {
    hide Pos, ReadAll, BitsOf, Number, InodeWs;
    InodeNth(ib);
    var ws, ids := InodeWs(ib), at + ib.kind + ib.owner + ib.group + ib.other;
    InodePlaces(ib);
    FieldAt(t, at, ws, 0, at, ib.kind);
    FieldAt(t, at, ws, 1, at + ib.kind, ib.owner);
    FieldAt(t, at, ws, 2, at + ib.kind + ib.owner, ib.group);
    FieldAt(t, at, ws, 3, at + ib.kind + ib.owner + ib.group, ib.other);
    FieldAt(t, at, ws, 4, ids, ib.uid);
    FieldAt(t, at, ws, 5, ids + ib.uid, ib.gid);
  }

  lemma LastFields(ib: InodeBits, t: bytes, at: nat)
    requires |InodeWs(ib)| == 11 && at + Pos(InodeWs(ib), 11) <= 8 * |t|
    ensures var r := ReadAll(BitsOf(t), at, InodeWs(ib));
            var times := at + ib.kind + ib.owner + ib.group + ib.other + ib.uid + ib.gid;
            var place := times + ib.ctime + ib.mtime;
            && r[6] == Number(t, times, ib.ctime) && r[7] == Number(t, times + ib.ctime, ib.mtime)
            && r[8] == Number(t, place, ib.size) && r[9] == Number(t, place + ib.size, ib.block)
            && r[10] == Number(t, place + ib.size + ib.block, ib.index)
  {
    hide Pos, ReadAll, BitsOf, Number, InodeWs;
    InodeNth(ib);
    var ws, times := InodeWs(ib), at + ib.kind + ib.owner + ib.group + ib.other + ib.uid + ib.gid;
    var place := times + ib.ctime + ib.mtime;
    InodePlaces(ib);
    FieldAt(t, at, ws, 6, times, ib.ctime);
    FieldAt(t, at, ws, 7, times + ib.ctime, ib.mtime);
    FieldAt(t, at, ws, 8, place, ib.size);
    FieldAt(t, at, ws, 9, place + ib.size, ib.block);
    FieldAt(t, at, ws, 10, place + ib.size + ib.block, ib.index);
  }

  /**
    Filling node `n` reads eleven numbers one behind the other from bit `n` times their length on. A mode that takes
    no bits is the owner's, an id 0, the change time the super block's, the modification time the change time.
   */
  lemma NodeFields(m: Mounted, n: nat, at: nat)
    requires HasNode(m, n) && at == n * InodeLength(m.sb.ib)
    ensures at + InodeLength(m.sb.ib) <= 8 * |m.itable|
    ensures var ib, v, r := m.sb.ib, ElevenNumbers(m.sb.ib, m.itable, at), NodeFill(m, n);
            && r.number == n && r.kind == v[0] && r.owner == v[1]
            && r.group == (if ib.group == 0 then v[1] else v[2]) && r.other == (if ib.other == 0 then v[1] else v[3])
            && r.uid == (if ib.uid == 0 then 0 else v[4]) && r.gid == (if ib.gid == 0 then 0 else v[5])
            && r.ctime == (if ib.ctime == 0 then m.sb.ctime else v[6])
            && r.mtime == (if ib.mtime == 0 then r.ctime else v[7])
            && r.size == v[8] && r.block == v[9] && r.index == v[10]
  {
    hide Pos, ReadAll, BitsOf, Number, InodeWs;
    InodePlaces(m.sb.ib);
    InodeNth(m.sb.ib);
    FirstFields(m.sb.ib, m.itable, at);
    LastFields(m.sb.ib, m.itable, at);
  }

  // ---------- the block table ----------

  /**
    Filling block `b` reads its offset and its size above the least one from bit `b` times their length on; only the
    last block's own size is read, right behind.
   */
  lemma BlockFields(m: Mounted, b: nat)
    requires HasBlock(m, b)
    ensures var bb, t, r := m.sb.bb, m.btable, BlockFill(m, b);
            var at := b * (bb.offset + bb.compressedSize);
            && at + bb.offset + bb.compressedSize + (if b + 1 < m.sb.blocks then 0 else bb.size) <= 8 * |t|
            && r.offset == Number(t, at, bb.offset)
            && r.compressedSize == Number(t, at + bb.offset, bb.compressedSize) + m.sb.mins.compressedSize
            && r.size == if b + 1 < m.sb.blocks then m.sb.blockSize
                         else Number(t, at + bb.offset + bb.compressedSize, bb.size)
  {
    hide Pos, ReadAll, BitsOf, Number, At;
    var bb, t, ws := m.sb.bb, m.btable, BlockWs(m.sb.bb);
    BlockPlaces(bb);
    var at := BlockPos(bb, b);
    FieldAt(t, at, ws, 0, at, bb.offset);
    FieldAt(t, at, ws, 1, at + bb.offset, bb.compressedSize);
    if b + 1 >= m.sb.blocks { AtNumber(t, at + bb.offset + bb.compressedSize, bb.size); }
  }

  lemma BlockPlaces(bb: BlockBits)
    ensures var ws := BlockWs(bb);
            Pos(ws, 0) == 0 && Pos(ws, 1) == bb.offset && Pos(ws, 2) == bb.offset + bb.compressedSize
  {
  }

  // ---------- directories ----------

  /** From byte `at` on, entry after entry: number, name length and type in whole bytes, and the name. */
  ghost predicate EntriesFrom(db: DirBits, raw: bytes, at: nat, es: seq<Entry>)
    decreases |es|
  {
    es == [] ||
    (var e, s := es[0], (db.number + db.length + db.kind + 7) / 8;
     && at + s + |e.name| <= |raw| && e.name == raw[at + s..at + s + |e.name|]
     && e.number == Number(raw, 8 * at, db.number) && |e.name| == Number(raw, 8 * at + db.number, db.length)
     && e.kind == Number(raw, 8 * at + db.number + db.length, db.kind)
     && EntriesFrom(db, raw, at + s + |e.name|, es[1..]))
  }

  lemma HeadNumbers(db: DirBits, raw: bytes, at: nat)
    requires at + EntryHeadSize(db) <= |raw|
    ensures Pos(EntryWs(db), 3) <= 8 * EntryHeadSize(db)
    ensures ReadAll(BitsOf(raw[at..][..EntryHeadSize(db)]), 0, EntryWs(db))
         == [Number(raw, 8 * at, db.number), Number(raw, 8 * at + db.number, db.length),
             Number(raw, 8 * at + db.number + db.length, db.kind)]
  {
    hide ReadAll, BitsOf, Number;
    var s, ws := EntryHeadSize(db), EntryWs(db);
    DirPos(db);
    assert raw[at..][..s] == raw[at..at + s];
    ReadInside(raw, at, s, ws);
    FieldAt(raw, 8 * at, ws, 0, 8 * at, db.number);
    FieldAt(raw, 8 * at, ws, 1, 8 * at + db.number, db.length);
    FieldAt(raw, 8 * at, ws, 2, 8 * at + db.number + db.length, db.kind);
    var v := ReadAll(BitsOf(raw), 8 * at, ws);
    assert v == [v[0], v[1], v[2]];
  }

  lemma {:induction false} EntriesExactly(db: DirBits, raw: bytes, at: nat, es: seq<Entry>)
    requires at <= |raw|
    ensures ParseEntries(db, raw[at..], |es|) == Some(es) <==> EntriesFrom(db, raw, at, es)
    decreases |es|
  {
    hide BitsOf, ReadAll, Number, Pos;
    var s := EntryHeadSize(db);
    if es != [] && at + s <= |raw| {
      HeadNumbers(db, raw, at);
      var n := Number(raw, 8 * at + db.number, db.length);
      if at + s + n <= |raw| {
        assert raw[at..][s + n..] == raw[at + s + n..] && raw[at..][s..s + n] == raw[at + s..at + s + n];
        EntriesExactly(db, raw, at + s + n, es[1..]);
        assert es == [es[0]] + es[1..];
      }
    }
  }

  /**
    What a directory's bytes parse to, and when they do: the parent's number and the number of entries, in whole
    bytes, and so many entries one behind the other, all inside.
   */
  lemma ParsesExactly(db: DirBits, raw: bytes, parent: nat, es: seq<Entry>)
    ensures ParseDir(db, raw) == Some(Directory(parent, es))
            <==> var h := (db.parent + db.nentries + 7) / 8;
                 && h <= |raw| && parent == Number(raw, 0, db.parent) && |es| == Number(raw, db.parent, db.nentries)
                 && EntriesFrom(db, raw, h, es)
  {
    hide BitsOf, ReadAll, Number, ParseEntries, Pos, EntriesFrom;
    var h, ws := HeaderSize(db), HeaderWs(db);
    DirPos(db);
    StartOf(ws, 0);
    if h <= |raw| {
      FieldAt(raw, 0, ws, 0, 0, db.parent);
      FieldAt(raw, 0, ws, 1, db.parent, db.nentries);
      EntriesExactly(db, raw, h, es);
      var v := ReadAll(BitsOf(raw), 0, ws);
      if ParseEntries(db, raw[h..], v[1]).Some? {
        ParseCount(db, raw[h..], v[1], ParseEntries(db, raw[h..], v[1]).value);
      }
    }
  }

  // ---------- the super block ----------

  /** The 32-bit word at a byte, least significant byte first. */
  function Word(s: bytes, at: nat): nat
    requires at + 4 <= |s|
  {
    var b0: nat, b1: nat, b2: nat, b3: nat := s[at], s[at + 1], s[at + 2], s[at + 3];
    b0 + 0x100 * b1 + 0x1_0000 * b2 + 0x100_0000 * b3
  }

  lemma WordIs(img: bytes, i: nat)
    requires |img| >= 152 && i < 38
    ensures FromLe32(img[4 * i..4 * i + 4]) == Word(img, 4 * i)
  {
  }

  /** The super block's fields are the 38 words at the front of the file. */
  lemma SuperFields(img: bytes)
    requires |img| >= 152
    ensures var sb := SuperOf(img);
            && sb.magic == Word(img, 0) && sb.version == Word(img, 4) && sb.ctime == Word(img, 8)
            && sb.inodes == Word(img, 12) && sb.blocks == Word(img, 16) && sb.blockSize == Word(img, 20)
            && sb.blockLog2 == Word(img, 24) && sb.root == Word(img, 28) && sb.inodesOffset == Word(img, 32)
            && sb.inodesSize == Word(img, 36) && sb.inodesCsize == Word(img, 40) && sb.blocksOffset == Word(img, 44)
            && sb.blocksSize == Word(img, 48) && sb.entriesOffset == Word(img, 52) && sb.entriesSize == Word(img, 56)
            && sb.compressionType == Word(img, 60)
    ensures var ib := SuperOf(img).ib;
            && ib.kind == Word(img, 64) && ib.owner == Word(img, 68) && ib.group == Word(img, 72)
            && ib.other == Word(img, 76) && ib.uid == Word(img, 80) && ib.gid == Word(img, 84)
            && ib.ctime == Word(img, 88) && ib.mtime == Word(img, 92) && ib.size == Word(img, 96)
            && ib.block == Word(img, 100) && ib.index == Word(img, 104)
    ensures var db, bb, mins := SuperOf(img).db, SuperOf(img).bb, SuperOf(img).mins;
            && db.parent == Word(img, 108) && db.nentries == Word(img, 112) && db.number == Word(img, 116)
            && db.length == Word(img, 120) && db.kind == Word(img, 124) && bb.offset == Word(img, 128)
            && bb.compressedSize == Word(img, 132) && bb.size == Word(img, 136) && mins.ctime == Word(img, 140)
            && mins.mtime == Word(img, 144) && mins.compressedSize == Word(img, 148)
  {
    hide FromLe32, Word;
    forall i | 0 <= i < 38
      ensures FromLe32(img[4 * i..4 * i + 4]) == Word(img, 4 * i)
    {
      WordIs(img, i);
    }
  }

  // ---------- the image ----------

  /** What the builder puts in the super block beside the field widths. */
  lemma SuperWritten(tbl: seq<Inode>, o: Opts, log2: nat, c: Compressor, l: Layout)
    requires Plan(tbl, o, log2, c) == Some(l) && Fits(tbl, l)
    ensures var sb := l.sb;
            && sb.magic == 0x534D5348 && sb.version == 0x56303030 && sb.ctime == 0 && sb.inodes == |tbl|
            && sb.blocks == |l.cblocks| && sb.blockSize == Pow2(log2) && sb.blockLog2 == log2 && sb.root == 0
            && sb.inodesOffset == 152 && sb.inodesSize == |l.itable| && sb.inodesCsize == |l.citable|
            && sb.blocksOffset == 152 + |l.citable| && sb.blocksSize == |l.btable|
            && sb.entriesOffset == 152 + |l.citable| + |l.btable| && sb.entriesSize == |Flat(l.cblocks)|
            && sb.compressionType == c.ctype
            && sb.mins.ctime == tbl[0].attr.ctime && sb.mins.mtime == tbl[0].attr.mtime
  {
    hide Flat, DirBitsOf, InodeBitsOf, Stream, Blocks, BlockBitsOf, BlockTable, InodeTable, MinsOf, SqueezeAll,
      Squeeze, MinOf, Words, Readable, Pow2;
    Planned(tbl, o, log2, c, l);
    MinsExact(tbl, l);
  }

  lemma SectionsInside(l: Layout, o: Opts)
    requires forall w :: w in Words(l.sb) ==> w < U32
    ensures var img, a, b, e := Image(l, o), |l.citable|, |l.btable|, |Flat(l.cblocks)|;
            && 152 + a + b + e <= |img| && img[152..152 + a] == l.citable && img[152 + a..152 + a + b] == l.btable
            && img[152 + a + b..152 + a + b + e] == Flat(l.cblocks)
            && img[152 + a + b + e..] == Padding(152 + a + b + e, o)
  {
    hide SuperBytes, Flat, Words, Padding;
    SuperReads(l.sb, []);
    assert |Sections(l)| == 152 + |l.citable| + |l.btable| + |Flat(l.cblocks)|;
    FiveParts(Image(l, o), SuperBytes(l.sb), l.citable, l.btable, Flat(l.cblocks), Padding(|Sections(l)|, o));
  }

  lemma FiveParts(img: bytes, s: bytes, a: bytes, b: bytes, e: bytes, p: bytes)
    requires img == s + a + b + e + p && |s| == 152
    ensures 152 + |a| + |b| + |e| + |p| == |img|
    ensures img[152..152 + |a|] == a && img[152 + |a|..152 + |a| + |b|] == b
    ensures img[152 + |a| + |b|..152 + |a| + |b| + |e|] == e && img[152 + |a| + |b| + |e|..] == p
  {
    assert s + a + b + e == img[..|s| + |a| + |b| + |e|];
    assert s + a + b == img[..|s| + |a| + |b|] && s + a == img[..|s| + |a|];
  }

  lemma PaddedTo(total: nat, o: Opts)
    ensures var p := Padding(total, o);
            && p == Zeros(|p|, 0)
            && if o.noPadding then |p| == 0 else |p| < 4096 && (total + |p|) % 4096 == 0
  {
    if !o.noPadding && total % 4096 != 0 {
      assert total + (4096 - total % 4096) == 4096 * (total / 4096 + 1);
    }
  }

  /**
    The file: the super block, the compressed inode table, the block table and the compressed blocks, and, unless
    padding is off, zeros up to the next multiple of 4096.
   */
  lemma SectionsWritten(l: Layout, o: Opts)
    requires forall w :: w in Words(l.sb) ==> w < U32
    ensures var img, a, b, e := Image(l, o), |l.citable|, |l.btable|, |Flat(l.cblocks)|;
            && 152 + a + b + e <= |img| && img[152..152 + a] == l.citable && img[152 + a..152 + a + b] == l.btable
            && img[152 + a + b..152 + a + b + e] == Flat(l.cblocks)
            && img[152 + a + b + e..] == Zeros(|img| - (152 + a + b + e), 0)
            && (if o.noPadding then |img| == 152 + a + b + e
                else |img| % 4096 == 0 && |img| < 152 + a + b + e + 4096)
  {
    hide Image, Flat, Words, Padding, Zeros;
    SectionsInside(l, o);
    PaddedTo(152 + |l.citable| + |l.btable| + |Flat(l.cblocks)|, o);
  }

  // ---------- when an image can be written, and when one can be opened ----------

  /** Compressing `x` into twice its size succeeds and gives no more than its size. */
  predicate Compresses(c: Compressor, x: bytes) {
    c.compress(x, 2 * |x|).Some? && |c.compress(x, 2 * |x|).value| <= |x|
  }

  /** An image can be written exactly when every block of the stream and the inode table compress. */
  lemma PlanExactly(tbl: seq<Inode>, o: Opts, log2: nat, c: Compressor)
    ensures var blocks, itable := Blocks(Stream(tbl, DirBitsOf(tbl)), log2), ItableOf(tbl, o, log2);
            && (Plan(tbl, o, log2, c).Some?
                <==> (forall b :: 0 <= b < |blocks| ==> Compresses(c, blocks[b])) && Compresses(c, itable))
            && (Plan(tbl, o, log2, c).Some? ==>
                  var l := Plan(tbl, o, log2, c).value;
                  && |l.cblocks| == |blocks| && l.itable == itable
                  && c.compress(itable, 2 * |itable|) == Some(l.citable)
                  && forall b :: 0 <= b < |blocks| ==> c.compress(blocks[b], 2 * |blocks[b]|) == Some(l.cblocks[b]))
  {
    hide Stream, Blocks, ItableOf, DirBitsOf, SqueezeAll;
    var blocks := Blocks(Stream(tbl, DirBitsOf(tbl)), log2);
    forall x: bytes
      ensures Squeeze(c, x).Some? <==> Compresses(c, x)
    {
    }
    assert SqueezeAll(blocks, c).Some? <==> forall b :: 0 <= b < |blocks| ==> Compresses(c, blocks[b]);
  }

  /** Bytes `at` to `at + n` of the file, when it has them. */
  function Part(img: bytes, at: nat, n: nat): bytes {
    if n > 0 && at + n <= |img| then img[at..at + n] else []
  }

  /** A part lies inside the file; an empty one lies anywhere. */
  predicate Inside(img: bytes, at: nat, n: nat) {
    n == 0 || at + n <= |img|
  }

  /**
    A file opens exactly when it has a super block with the magic number and a compressor type that is known, its
    three sections lie inside it, and the inode table uncompresses to the size noted.
   */
  lemma MountExactly(img: bytes, registry: nat -> Option<Compressor>)
    ensures Mount(img, registry).Some?
            <==> && |img| >= 152 && Word(img, 0) == 0x534D5348 && registry(Word(img, 60)).Some?
                 && Inside(img, Word(img, 32), Word(img, 40)) && Inside(img, Word(img, 44), Word(img, 48))
                 && Inside(img, Word(img, 52), Word(img, 56))
                 && var it := registry(Word(img, 60)).value.uncompress(Part(img, Word(img, 32), Word(img, 40)),
                                                                        Word(img, 36));
                    it.Some? && |it.value| == Word(img, 36)
    ensures Mount(img, registry).Some? ==>
              var m := Mount(img, registry).value;
              && m.sb == SuperOf(img) && Some(m.c) == registry(Word(img, 60))
              && Some(m.itable) == m.c.uncompress(Part(img, Word(img, 32), Word(img, 40)), Word(img, 36))
              && m.btable == Part(img, Word(img, 44), Word(img, 48))
              && m.entries == Part(img, Word(img, 52), Word(img, 56))
  {
    hide SuperOf, Word;
    if |img| >= 152 { SuperFields(img); }
  }
}
