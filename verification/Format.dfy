/** The image format: node table, field widths, sections, and the bytes they make. */
module Format {
  import opened Seqs
  import opened Bits
  import opened Fields
  import opened MergeSort
  import opened Compressors

  type bytes = seq<byte>

  // ---------- what is stored ----------

  const TYPE_REGULAR_FILE := 1
  const TYPE_DIRECTORY := 2
  const TYPE_SYMBOLIC_LINK := 3

  datatype Attr = Attr(owner: nat, group: nat, other: nat, uid: nat, gid: nat, ctime: int, mtime: int)

  datatype Entry = Entry(number: nat, kind: nat, name: bytes)

  datatype Body =
    | RegularFile(content: bytes)
    | Directory(parent: nat, entries: seq<Entry>)
    | SymbolicLink(target: bytes)

  /** A node of the builder's table; its number is its place there. */
  datatype Inode = Inode(path: bytes, attr: Attr, body: Body)

  datatype Opts = Opts(noGroupMode: bool, noOtherMode: bool, noUid: bool, noGid: bool, noCtime: bool, noMtime: bool,
                       noPadding: bool, noDuplicates: bool)

  function Kind(b: Body): nat {
    match b
    case RegularFile(_) => TYPE_REGULAR_FILE
    case Directory(_, _) => TYPE_DIRECTORY
    case SymbolicLink(_) => TYPE_SYMBOLIC_LINK
  }

  /** The packing group of a node: ELF files, other files, directories, links. */
  function Ntype(b: Body): nat {
    match b
    case RegularFile(c) => if |c| >= 4 && c[0] == 0x7f && c[1] == 0x45 && c[2] == 0x4c && c[3] == 0x46 then 1 else 2
    case Directory(_, _) => 3
    case SymbolicLink(_) => 4
  }

  // ---------- comparators ----------

  /** The sign of strcmp on byte strings without NUL. */
  function StrCmp(a: bytes, b: bytes): int {
    if a == [] then (if b == [] then 0 else -1)
    else if b == [] then 1
    else if a[0] != b[0] then (if a[0] < b[0] then -1 else 1)
    else StrCmp(a[1..], b[1..])
  }

  /** Names strictly ascending by strcmp, none of them empty. */
  ghost predicate NamesAscend(names: seq<bytes>) {
    && (forall i :: 0 <= i < |names| ==> names[i] != [])
    && (forall i, j :: 0 <= i < j < |names| ==> StrCmp(names[i], names[j]) < 0)
  }

  function NamesOf(es: seq<Entry>): (r: seq<bytes>)
    ensures |r| == |es| && forall i :: 0 <= i < |es| ==> r[i] == es[i].name
  {
    MapSeq((e: Entry) => e.name, es)
  }

  const DOT: byte := 46

  /** strrchr(path, '.'): the last dot and what follows it. */
  function LastDot(path: bytes): Option<bytes> {
    if path == [] then None
    else
      match LastDot(path[1..])
      case Some(s) => Some(s)
      case None => if path[0] == DOT then Some(path) else None
  }

  function SortByNumber(a: nat, b: nat): int {
    if a == b then 0 else if a < b then -1 else 1
  }

  function SortByType(a: Inode, b: Inode): int {
    if Ntype(a.body) == Ntype(b.body) then
      if a.body.RegularFile? && b.body.RegularFile? && LastDot(a.path).Some? && LastDot(b.path).Some?
      then StrCmp(LastDot(a.path).value, LastDot(b.path).value)
      else 0
    else if Ntype(a.body) < Ntype(b.body) then -1 else 1
  }

  // ---------- maxima and widths ----------

  const LONG_LONG_MAX := 0x7fff_ffff_ffff_ffff

  /** The running maximum, started at -1. */
  function MaxOf<T>(s: seq<T>, f: T -> int): int {
    if s == [] then -1 else Max(MaxOf(s[..|s| - 1], f), f(s[|s| - 1]))
  }

  /** The running minimum, started at LONG_LONG_MAX. */
  function MinOf<T>(s: seq<T>, f: T -> int): int {
    if s == [] then LONG_LONG_MAX else Min(MinOf(s[..|s| - 1], f), f(s[|s| - 1]))
  }

  /** The builder's "minimum": the smallest value its running maximum ever had. */
  function MinOfMax<T>(s: seq<T>, f: T -> int): int {
    if s == [] then LONG_LONG_MAX else Min(MaxOf(s, f), MinOfMax(s[..|s| - 1], f))
  }

  function BlogFrom(v: int, i: nat): nat
    decreases 64 - i
  {
    if i >= 64 || v < Pow2(i) then i else BlogFrom(v, i + 1)
  }

  /** The width chosen for values up to `v`; none at all when `v` is negative. */
  function Blog(v: int): nat {
    if v < 0 then 0 else BlogFrom(v, 1)
  }

  datatype InodeBits = InodeBits(kind: nat, owner: nat, group: nat, other: nat, uid: nat, gid: nat, ctime: nat,
                                 mtime: nat, size: nat, block: nat, index: nat)
  datatype DirBits = DirBits(parent: nat, nentries: nat, number: nat, length: nat, kind: nat)
  datatype BlockBits = BlockBits(offset: nat, compressedSize: nat, size: nat)
  datatype Mins = Mins(ctime: nat, mtime: nat, compressedSize: nat)

  function KindOf(n: Inode): int { Kind(n.body) }
  function OwnerOf(n: Inode): int { n.attr.owner }
  function GroupOf(n: Inode): int { n.attr.group }
  function OtherOf(n: Inode): int { n.attr.other }
  function UidOf(n: Inode): int { n.attr.uid }
  function GidOf(n: Inode): int { n.attr.gid }
  function CtimeOf(n: Inode): int { n.attr.ctime }
  function MtimeOf(n: Inode): int { n.attr.mtime }
  function ParentOf(n: Inode): int { if n.body.Directory? then n.body.parent else -1 }
  function NentriesOf(n: Inode): int { if n.body.Directory? then |n.body.entries| else -1 }
  function EntryNumber(e: Entry): int { e.number }
  function EntryLength(e: Entry): int { |e.name| }
  function EntryKind(e: Entry): int { e.kind }
  function MaxEntryNumber(n: Inode): int { if n.body.Directory? then MaxOf(n.body.entries, EntryNumber) else -1 }
  function MaxEntryLength(n: Inode): int { if n.body.Directory? then MaxOf(n.body.entries, EntryLength) else -1 }
  function MaxEntryKind(n: Inode): int { if n.body.Directory? then MaxOf(n.body.entries, EntryKind) else -1 }

  /** A maximum whose field may be switched off. */
  function Unless(off: bool, max: int): int { if off then -1 else max }

  /** The widths fixed by the scan; size, block and index are known only after packing. */
  function AttrBits(tbl: seq<Inode>, o: Opts): InodeBits {
    InodeBits(Blog(MaxOf(tbl, KindOf)), Blog(MaxOf(tbl, OwnerOf)),
              Blog(Unless(o.noGroupMode, MaxOf(tbl, GroupOf))), Blog(Unless(o.noOtherMode, MaxOf(tbl, OtherOf))),
              Blog(Unless(o.noUid, MaxOf(tbl, UidOf))), Blog(Unless(o.noGid, MaxOf(tbl, GidOf))),
              Blog(Unless(o.noCtime, MaxOf(tbl, CtimeOf)) - MinOfMax(tbl, CtimeOf)),
              Blog(Unless(o.noMtime, MaxOf(tbl, MtimeOf)) - MinOfMax(tbl, MtimeOf)), 0, 0, 0)
  }

  function DirBitsOf(tbl: seq<Inode>): DirBits {
    DirBits(Blog(MaxOf(tbl, ParentOf)), Blog(MaxOf(tbl, NentriesOf)), Blog(MaxOf(tbl, MaxEntryNumber)),
            Blog(MaxOf(tbl, MaxEntryLength)), Blog(MaxOf(tbl, MaxEntryKind)))
  }

  // ---------- packing ----------

  function HeaderWs(db: DirBits): seq<nat> { [db.parent, db.nentries] }

  function EntryWs(db: DirBits): seq<nat> { [db.number, db.length, db.kind] }

  function SerHeader(db: DirBits, parent: nat, nentries: nat): bytes {
    Pack(Record(HeaderWs(db), [parent, nentries]))
  }

  function SerEntryHead(db: DirBits, e: Entry): bytes {
    Pack(Record(EntryWs(db), [e.number, |e.name|, e.kind]))
  }

  function SerEntry(db: DirBits, e: Entry): bytes {
    SerEntryHead(db, e) + e.name
  }

  function SerEntries(db: DirBits, es: seq<Entry>): bytes {
    Flat(MapSeq((e: Entry) => SerEntry(db, e), es))
  }

  /** A node's bytes in the entry stream. */
  function Ser(db: DirBits, b: Body): bytes {
    match b
    case RegularFile(c) => c
    case Directory(p, es) => SerHeader(db, p, |es|) + SerEntries(db, es)
    case SymbolicLink(t) => t + [0]
  }

  /** The numbers in packing order. */
  function Order(tbl: seq<Inode>): (r: seq<nat>)
    ensures |r| == |tbl| && forall i :: 0 <= i < |r| ==> r[i] < |tbl|
  {
    OrderInRange(tbl);
    Sort<nat>(Iota(|tbl|), TypeCmp(tbl))
  }

  function TypeCmp(tbl: seq<Inode>): (nat, nat) -> int {
    (a: nat, b: nat) => if a < |tbl| && b < |tbl| then SortByType(tbl[a], tbl[b]) else 0
  }

  lemma OrderInRange(tbl: seq<Inode>)
    ensures forall i :: 0 <= i < |tbl| ==> Sort<nat>(Iota(|tbl|), TypeCmp(tbl))[i] < |tbl|
  {
    var r := Sort<nat>(Iota(|tbl|), TypeCmp(tbl));
    SortPermutes<nat>(Iota(|tbl|), TypeCmp(tbl));
    forall i | 0 <= i < |tbl|
      ensures r[i] < |tbl|
    {
      assert r[i] in multiset(r);
      assert r[i] in multiset(Iota(|tbl|));
    }
  }

  /** The packed nodes one by one. */
  function Packed(tbl: seq<Inode>, db: DirBits): (ps: seq<bytes>)
    ensures |ps| == |tbl|
  {
    var order := Order(tbl);
    seq(|tbl|, i requires 0 <= i < |tbl| => Ser(db, tbl[order[i]].body))
  }

  function Stream(tbl: seq<Inode>, db: DirBits): bytes {
    Flat(Packed(tbl, db))
  }

  function IndexOf(s: seq<nat>, x: nat): (i: nat)
    requires x in s
    ensures i < |s| && s[i] == x
  {
    if s[0] == x then 0 else 1 + IndexOf(s[1..], x)
  }

  lemma InOrder(tbl: seq<Inode>, k: nat)
    requires k < |tbl|
    ensures k in Order(tbl)
  {
    SortPermutes(Iota(|tbl|), TypeCmp(tbl));
    assert Iota(|tbl|)[k] == k;
    assert k in multiset(Iota(|tbl|));
    assert k in multiset(Order(tbl));
  }

  /** Where node `k` starts in the stream. */
  function OffsetOf(tbl: seq<Inode>, db: DirBits, k: nat): nat
    requires k < |tbl|
  {
    InOrder(tbl, k);
    |Flat(Packed(tbl, db)[..IndexOf(Order(tbl), k)])|
  }

  function SizeOf(tbl: seq<Inode>, db: DirBits, k: nat): nat
    requires k < |tbl|
  {
    |Ser(db, tbl[k].body)|
  }

  // ---------- blocks ----------

  function BlockCount(len: nat, log2: nat): nat {
    (len + Pow2(log2) - 1) / Pow2(log2)
  }

  /** Block `b` of the stream: `block_size` bytes, or what is left for the last one. */
  function BlockAt(stream: bytes, log2: nat, b: nat): bytes
    requires b * Pow2(log2) <= |stream|
  {
    stream[b * Pow2(log2)..Min((b + 1) * Pow2(log2), |stream|)]
  }

  lemma BlockInRange(len: nat, log2: nat, b: nat)
    requires b < BlockCount(len, log2)
    ensures b * Pow2(log2) < len
    ensures b + 1 < BlockCount(len, log2) ==> (b + 1) * Pow2(log2) < len
    ensures b + 1 == BlockCount(len, log2) ==> len <= (b + 1) * Pow2(log2)
  {
    BlockArith(len, Pow2(log2), BlockCount(len, log2), b);
  }

  lemma BlockArith(len: nat, m: nat, n: nat, b: nat)
    requires m > 0 && n == (len + m - 1) / m && b < n
    ensures b * m < len
    ensures b + 1 < n ==> (b + 1) * m < len
    ensures b + 1 == n ==> len <= (b + 1) * m
  {
    var r := (len + m - 1) % m;
    assert len + m - 1 == n * m + r;
    var d := n - b - 1;
    assert d * m == n * m - b * m - m;
    assert (b + 1) * m == b * m + m;
    if d > 0 { MulSign(d, m); } else { assert d * m == 0; }
  }

  function Blocks(stream: bytes, log2: nat): (bs: seq<bytes>)
    ensures |bs| == BlockCount(|stream|, log2)
  {
    seq(BlockCount(|stream|, log2), b requires 0 <= b < BlockCount(|stream|, log2) =>
      BlockInRange(|stream|, log2, b); BlockAt(stream, log2, b))
  }

  function BlockWs(bb: BlockBits): seq<nat> { [bb.offset, bb.compressedSize] }

  function Offsets(cs: seq<bytes>): (os: seq<nat>)
    ensures |os| == |cs|
  {
    seq(|cs|, b requires 0 <= b < |cs| => |Flat(cs[..b])|)
  }

  function LengthOf(c: bytes): int { |c| }

  function BlockBitsOf(cs: seq<bytes>, lastSize: nat): BlockBits {
    BlockBits(Blog(MaxOf(Offsets(cs), (o: nat) => o)), Blog(MaxOf(cs, LengthOf) - MinOf(cs, LengthOf)),
              Blog(Max(-1, lastSize)))
  }

  function BlockRecord(bb: BlockBits, cs: seq<bytes>, b: nat): seq<bool>
    requires b < |cs|
  {
    Record(BlockWs(bb), [|Flat(cs[..b])|, |cs[b]| - MinOf(cs, LengthOf)])
  }

  function BlockRecords(bb: BlockBits, cs: seq<bytes>): (rs: seq<seq<bool>>)
    ensures |rs| == |cs| && forall b :: 0 <= b < |cs| ==> rs[b] == BlockRecord(bb, cs, b)
  {
    seq(|cs|, b requires 0 <= b < |cs| => BlockRecord(bb, cs, b))
  }

  /** The block table: offset and shortened size per block, and the size of the last block once at the end. */
  function BlockTable(bb: BlockBits, cs: seq<bytes>, lastSize: nat): bytes {
    Pack(Flat(BlockRecords(bb, cs)) + Enc(bb.size, ToU32(lastSize)))
  }

  // ---------- the inode table ----------

  function InodeWs(ib: InodeBits): seq<nat> {
    [ib.kind, ib.owner, ib.group, ib.other, ib.uid, ib.gid, ib.ctime, ib.mtime, ib.size, ib.block, ib.index]
  }

  function InodeVs(n: Inode, mins: Mins, size: nat, offset: nat, log2: nat): seq<int> {
    [Kind(n.body), n.attr.owner, n.attr.group, n.attr.other, n.attr.uid, n.attr.gid,
     n.attr.ctime - mins.ctime, n.attr.mtime - mins.mtime, size, offset / Pow2(log2), offset % Pow2(log2)]
  }

  function InodeRecord(tbl: seq<Inode>, db: DirBits, ib: InodeBits, mins: Mins, log2: nat, k: nat): seq<bool>
    requires k < |tbl|
  {
    Record(InodeWs(ib), InodeVs(tbl[k], mins, SizeOf(tbl, db, k), OffsetOf(tbl, db, k), log2))
  }

  function InodeRecords(tbl: seq<Inode>, db: DirBits, ib: InodeBits, mins: Mins, log2: nat): (rs: seq<seq<bool>>)
    ensures |rs| == |tbl| && forall k :: 0 <= k < |tbl| ==> rs[k] == InodeRecord(tbl, db, ib, mins, log2, k)
  {
    seq(|tbl|, k requires 0 <= k < |tbl| => InodeRecord(tbl, db, ib, mins, log2, k))
  }

  function InodeTable(tbl: seq<Inode>, db: DirBits, ib: InodeBits, mins: Mins, log2: nat): bytes {
    Pack(Flat(InodeRecords(tbl, db, ib, mins, log2)))
  }

  // Where each node landed, as functions of its number.
  function SizeFn(tbl: seq<Inode>, db: DirBits): nat -> int {
    (k: nat) => if k < |tbl| then SizeOf(tbl, db, k) else -1
  }

  function BlockFn(tbl: seq<Inode>, db: DirBits, log2: nat): nat -> int {
    (k: nat) => if k < |tbl| then OffsetOf(tbl, db, k) / Pow2(log2) else -1
  }

  function IndexFn(tbl: seq<Inode>, db: DirBits, log2: nat): nat -> int {
    (k: nat) => if k < |tbl| then OffsetOf(tbl, db, k) % Pow2(log2) else -1
  }

  function InodeBitsOf(tbl: seq<Inode>, o: Opts, log2: nat): InodeBits {
    var db, ks := DirBitsOf(tbl), Iota(|tbl|);
    AttrBits(tbl, o).(size := Blog(MaxOf<nat>(ks, SizeFn(tbl, db))),
                      block := Blog(MaxOf<nat>(ks, BlockFn(tbl, db, log2))),
                      index := Blog(MaxOf<nat>(ks, IndexFn(tbl, db, log2))))
  }

  // ---------- the super block ----------

  const MAGIC := 0x534D5348
  const VERSION_0 := 0x56303030
  const SUPER_SIZE := 152

  datatype Super = Super(
    magic: nat, version: nat, ctime: nat, inodes: nat, blocks: nat, blockSize: nat, blockLog2: nat, root: nat,
    inodesOffset: nat, inodesSize: nat, inodesCsize: nat, blocksOffset: nat, blocksSize: nat,
    entriesOffset: nat, entriesSize: nat, compressionType: nat,
    ib: InodeBits, db: DirBits, bb: BlockBits, mins: Mins)

  /** The super block's 38 words in structure order. */
  function Words(sb: Super): (ws: seq<nat>)
    ensures |ws| == 38
  {
    [sb.magic, sb.version, sb.ctime, sb.inodes, sb.blocks, sb.blockSize, sb.blockLog2, sb.root,
     sb.inodesOffset, sb.inodesSize, sb.inodesCsize, sb.blocksOffset, sb.blocksSize,
     sb.entriesOffset, sb.entriesSize, sb.compressionType] +
    InodeWs(sb.ib) + [sb.db.parent, sb.db.nentries, sb.db.number, sb.db.length, sb.db.kind] +
    [sb.bb.offset, sb.bb.compressedSize, sb.bb.size] + [sb.mins.ctime, sb.mins.mtime, sb.mins.compressedSize]
  }

  /** The super block with these words. */
  function FromWords(w: seq<nat>): Super
    requires |w| == 38
  {
    Super(w[0], w[1], w[2], w[3], w[4], w[5], w[6], w[7], w[8], w[9], w[10], w[11], w[12], w[13], w[14], w[15],
          InodeBits(w[16], w[17], w[18], w[19], w[20], w[21], w[22], w[23], w[24], w[25], w[26]),
          DirBits(w[27], w[28], w[29], w[30], w[31]), BlockBits(w[32], w[33], w[34]), Mins(w[35], w[36], w[37]))
  }

  /** A uint32_t in memory, least significant byte first. */
  function Le32(v: nat): (s: bytes)
    ensures |s| == 4
  {
    [v % 256, v / 256 % 256, v / 65536 % 256, v / 16777216 % 256]
  }

  function FromLe32(s: bytes): nat
    requires |s| == 4
  {
    var b0: nat, b1: nat, b2: nat, b3: nat := s[0], s[1], s[2], s[3];
    b0 + 256 * b1 + 65536 * b2 + 16777216 * b3
  }

  function SuperBytes(sb: Super): bytes {
    Flat(MapSeq(Le32, Words(sb)))
  }

  // ---------- the image ----------

  datatype Layout = Layout(sb: Super, itable: bytes, citable: bytes, btable: bytes, cblocks: seq<bytes>)

  /** The single source root is a directory. */
  predicate Rooted(tbl: seq<Inode>) {
    |tbl| > 0 && tbl[0].body.Directory?
  }

  /** The sections of the image of a node table, given its compressed blocks and inode table. */
  function LayoutOf(tbl: seq<Inode>, o: Opts, log2: nat, ctype: nat, cs: seq<bytes>, itable: bytes, citable: bytes)
    : Layout {
    var db := DirBitsOf(tbl);
    var stream := Stream(tbl, db);
    var nblocks := BlockCount(|stream|, log2);
    var lastSize := if nblocks > 0 then |Blocks(stream, log2)[nblocks - 1]| else 0;
    var bb := BlockBitsOf(cs, lastSize);
    var btable := BlockTable(bb, cs, lastSize);
    var mins := MinsOf(tbl).(compressedSize := ToU32(MinOf(cs, LengthOf)));
    var sb := Super(MAGIC, VERSION_0, 0, |tbl|, nblocks, Pow2(log2), log2, 0,
                    SUPER_SIZE, |itable|, |citable|, SUPER_SIZE + |citable|, |btable|,
                    SUPER_SIZE + |citable| + |btable|, |Flat(cs)|, ctype,
                    InodeBitsOf(tbl, o, log2), db, bb, mins);
    Layout(sb, itable, citable, btable, cs)
  }

  function MinsOf(tbl: seq<Inode>): Mins {
    Mins(ToU32(MinOfMax(tbl, CtimeOf)), ToU32(MinOfMax(tbl, MtimeOf)), 0)
  }

  function ItableOf(tbl: seq<Inode>, o: Opts, log2: nat): bytes {
    InodeTable(tbl, DirBitsOf(tbl), InodeBitsOf(tbl, o, log2), MinsOf(tbl), log2)
  }

  /** Writing an image fails exactly when a block or the inode table cannot be compressed to its own size or less. */
  function Plan(tbl: seq<Inode>, o: Opts, log2: nat, c: Compressor): Option<Layout> {
    match SqueezeAll(Blocks(Stream(tbl, DirBitsOf(tbl)), log2), c)
    case None => None
    case Some(cs) =>
      match Squeeze(c, ItableOf(tbl, o, log2))
      case None => None
      case Some(ci) => Some(LayoutOf(tbl, o, log2, c.ctype, cs, ItableOf(tbl, o, log2), ci))
  }

  const PAGE := 4096

  /** Tail padding to a multiple of 4096 bytes. */
  function Padding(total: nat, o: Opts): bytes {
    if o.noPadding || total % PAGE == 0 then [] else Zeros(PAGE - total % PAGE, 0)
  }

  function Sections(l: Layout): bytes {
    SuperBytes(l.sb) + l.citable + l.btable + Flat(l.cblocks)
  }

  function Image(l: Layout, o: Opts): bytes {
    Sections(l) + Padding(|Sections(l)|, o)
  }
}
