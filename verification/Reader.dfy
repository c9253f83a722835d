/** What a reader makes of an image: mounting it, looking up nodes and blocks, reading content, parsing directories. */
module Reader {
  import opened Seqs
  import opened Bits
  import opened Fields
  import opened Compressors
  import opened Format

  /** The super block and the sections, the inode table already uncompressed. */
  datatype Mounted = Mounted(sb: Super, itable: bytes, btable: bytes, entries: bytes, c: Compressor)

  datatype NodeRec = NodeRec(number: nat, kind: nat, owner: nat, group: nat, other: nat, uid: nat, gid: nat,
                             ctime: nat, mtime: nat, size: nat, block: nat, index: nat)

  datatype BlockRec = BlockRec(offset: nat, compressedSize: nat, size: nat)

  function SuperOf(img: bytes): Super
    requires |img| >= SUPER_SIZE
  {
    FromWords(seq(38, i requires 0 <= i < 38 => FromLe32(img[4 * i..4 * i + 4])))
  }

  /** `n` bytes of the file at `at`, when it has them; nothing can be read anywhere. */
  function Section(img: bytes, at: nat, n: nat): Option<bytes> {
    if n == 0 then Some([]) else if at + n <= |img| then Some(img[at..at + n]) else None
  }

  /** Opening an image: the super block, the compressor its type names, and its three sections. */
  function Mount(img: bytes, registry: nat -> Option<Compressor>): Option<Mounted> {
    if |img| < SUPER_SIZE then None
    else
      var sb := SuperOf(img);
      if sb.magic != MAGIC then None
      else
        match registry(sb.compressionType)
        case None => None
        case Some(c) =>
          match Section(img, sb.inodesOffset, sb.inodesCsize)
          case None => None
          case Some(ci) =>
            match c.uncompress(ci, sb.inodesSize)
            case None => None
            case Some(it) =>
              if |it| != sb.inodesSize then None
              else
                match (Section(img, sb.blocksOffset, sb.blocksSize), Section(img, sb.entriesOffset, sb.entriesSize))
                case (Some(bt), Some(es)) => Some(Mounted(sb, it, bt, es, c))
                case _ => None
  }

  // ---------- table lookups ----------

  function InodeSize(ib: InodeBits): nat {
    Pos(InodeWs(ib), |InodeWs(ib)|)
  }

  function BlockSize(bb: BlockBits): nat {
    Pos(BlockWs(bb), |BlockWs(bb)|)
  }

  lemma InodeSizeIs(ib: InodeBits)
    ensures InodeSize(ib) == ib.kind + ib.owner + ib.group + ib.other + ib.uid + ib.gid + ib.ctime + ib.mtime + ib.size
                             + ib.block + ib.index
  {
    var ws := InodeWs(ib);
    assert Pos(ws, 1) == ib.kind;
    assert Pos(ws, 2) == Pos(ws, 1) + ib.owner;
    assert Pos(ws, 3) == Pos(ws, 2) + ib.group;
    assert Pos(ws, 4) == Pos(ws, 3) + ib.other;
    assert Pos(ws, 5) == Pos(ws, 4) + ib.uid;
    assert Pos(ws, 6) == Pos(ws, 5) + ib.gid;
    assert Pos(ws, 7) == Pos(ws, 6) + ib.ctime;
    assert Pos(ws, 8) == Pos(ws, 7) + ib.mtime;
    assert Pos(ws, 9) == Pos(ws, 8) + ib.size;
    assert Pos(ws, 10) == Pos(ws, 9) + ib.block;
  }

  lemma InodeWidths(ib: InodeBits)
    requires forall w :: w in InodeWs(ib) ==> w <= 32
    ensures var ws := InodeWs(ib);
            && |ws| == 11 && ws[0] == ib.kind <= 32 && ws[1] == ib.owner <= 32 && ws[2] == ib.group <= 32
            && ws[3] == ib.other <= 32 && ws[4] == ib.uid <= 32 && ws[5] == ib.gid <= 32 && ws[6] == ib.ctime <= 32
            && ws[7] == ib.mtime <= 32 && ws[8] == ib.size <= 32 && ws[9] == ib.block <= 32 && ws[10] == ib.index <= 32
  {
    var ws := InodeWs(ib);
    assert forall i :: 0 <= i < 11 ==> ws[i] in ws;
  }

  /** Where record `n` of the inode table starts. */
  function InodePos(ib: InodeBits, n: nat): nat {
    n * InodeSize(ib)
  }

  function BlockPos(bb: BlockBits, b: nat): nat {
    b * BlockSize(bb)
  }

  predicate HasNode(m: Mounted, n: nat) {
    InodePos(m.sb.ib, n) + InodeSize(m.sb.ib) <= 8 * |m.itable|
  }

  /** The eleven fields as a node, with the fallbacks for those that take no bits. */
  function NodeFrom(sb: Super, n: nat, v: seq<nat>): NodeRec
    requires |v| == 11
  {
    var ib := sb.ib;
    var ctime := if ib.ctime == 0 then sb.ctime else v[6];
    NodeRec(n, v[0], v[1], if ib.group == 0 then v[1] else v[2], if ib.other == 0 then v[1] else v[3],
            if ib.uid == 0 then 0 else v[4], if ib.gid == 0 then 0 else v[5],
            ctime, if ib.mtime == 0 then ctime else v[7], v[8], v[9], v[10])
  }

  function NodeFill(m: Mounted, n: nat): NodeRec
    requires HasNode(m, n)
  {
    NodeFrom(m.sb, n, ReadAll(BitsOf(m.itable), InodePos(m.sb.ib, n), InodeWs(m.sb.ib)))
  }

  /** The kernel adds the minima back to the times; the extraction tool does not. */
  function KernelNodeFill(m: Mounted, n: nat): NodeRec
    requires HasNode(m, n)
  {
    var r := NodeFill(m, n);
    r.(ctime := r.ctime + m.sb.mins.ctime, mtime := r.mtime + m.sb.mins.mtime)
  }

  /** The block table reaches past record `b`, and past the trailing size when `b` is the last block. */
  predicate HasBlock(m: Mounted, b: nat) {
    var bb := m.sb.bb;
    BlockPos(bb, b) + BlockSize(bb) + (if b + 1 < m.sb.blocks then 0 else bb.size) <= 8 * |m.btable|
  }

  function BlockFill(m: Mounted, b: nat): BlockRec
    requires HasBlock(m, b)
  {
    var bb := m.sb.bb;
    var bits, at := BitsOf(m.btable), BlockPos(bb, b);
    var v := ReadAll(bits, at, BlockWs(bb));
    BlockRec(v[0], v[1] + m.sb.mins.compressedSize,
             if b + 1 < m.sb.blocks then m.sb.blockSize else At(bits, at + BlockSize(bb), bb.size))
  }

  // ---------- content ----------

  /** Widths a bit buffer can read. */
  predicate Readable(sb: Super) {
    && (forall w :: w in InodeWs(sb.ib) ==> w <= 32) && (forall w :: w in HeaderWs(sb.db) + EntryWs(sb.db) ==> w <= 32)
    && sb.bb.offset <= 32 && sb.bb.compressedSize <= 32 && sb.bb.size <= 32
  }

  predicate Narrow(db: DirBits) {
    db.parent <= 32 && db.nentries <= 32 && db.number <= 32 && db.length <= 32 && db.kind <= 32
  }

  lemma NarrowDirs(sb: Super)
    requires Readable(sb)
    ensures Narrow(sb.db)
  {
    var ws := HeaderWs(sb.db) + EntryWs(sb.db);
    assert ws[0] in ws && ws[1] in ws && ws[2] in ws && ws[3] in ws && ws[4] in ws;
  }

  /** An image whose block table describes blocks lying inside the entries section. */
  ghost predicate Sane(m: Mounted) {
    && Readable(m.sb) && m.sb.blockSize == Pow2(m.sb.blockLog2)
    && (forall n :: 0 <= n < m.sb.inodes ==> HasNode(m, n))
    && (forall b :: 0 <= b < m.sb.blocks ==> HasBlock(m, b))
    && (forall b :: 0 <= b < m.sb.blocks ==>
          var r := BlockFill(m, b);
          r.offset + r.compressedSize <= |m.entries| && 0 < r.size <= m.sb.blockSize)
    && (forall y: bytes, n: nat :: m.c.uncompress(y, n).Some? ==> |m.c.uncompress(y, n).value| <= n)
  }

  /** Block `b` uncompressed; anything but its full size is an error. */
  function Unblock(m: Mounted, b: nat): (u: Option<bytes>)
    requires HasBlock(m, b) && BlockFill(m, b).offset + BlockFill(m, b).compressedSize <= |m.entries|
    ensures u.Some? ==> |u.value| == BlockFill(m, b).size
  {
    var r := BlockFill(m, b);
    match m.c.uncompress(m.entries[r.offset..r.offset + r.compressedSize], r.size)
    case None => None
    case Some(u) => if |u| == r.size then Some(u) else None
  }

  /** `n` bytes from byte `i` of block `b` on lie inside the blocks. */
  ghost predicate Spans(m: Mounted, b: nat, i: nat, n: nat)
    requires Sane(m)
    decreases n
  {
    n == 0 || (b < m.sb.blocks && i < BlockFill(m, b).size
               && Spans(m, b + 1, 0, n - Min(n, BlockFill(m, b).size - i)))
  }

  /** Those bytes, block after block; an unreadable block spoils the whole read. */
  ghost function ReadFrom(m: Mounted, b: nat, i: nat, n: nat): (r: Option<bytes>)
    requires Sane(m) && Spans(m, b, i, n)
    ensures r.Some? ==> |r.value| == n
    decreases n
  {
    if n == 0 then Some([])
    else
      match Unblock(m, b)
      case None => None
      case Some(u) =>
        var l := Min(n, |u| - i);
        match ReadFrom(m, b + 1, 0, n - l)
        case None => None
        case Some(rest) => Some(u[i..i + l] + rest)
  }

  // ---------- directories ----------

  function HeaderSize(db: DirBits): nat { (db.parent + db.nentries + 7) / 8 }

  function EntryHeadSize(db: DirBits): nat { (db.number + db.length + db.kind + 7) / 8 }

  lemma DirPos(db: DirBits)
    ensures Pos(HeaderWs(db), 1) == db.parent && Pos(HeaderWs(db), 2) == db.parent + db.nentries
    ensures Pos(EntryWs(db), 1) == db.number && Pos(EntryWs(db), 2) == db.number + db.length
    ensures Pos(EntryWs(db), 3) == db.number + db.length + db.kind
  {
  }

  /** `n` entries at the front of `raw`; none when they overrun it. */
  function ParseEntries(db: DirBits, raw: bytes, n: nat): Option<seq<Entry>>
    decreases n
  {
    if n == 0 then Some([])
    else
      var s := EntryHeadSize(db);
      if |raw| < s then None
      else
        DirPos(db);
        var v := ReadAll(BitsOf(raw[..s]), 0, EntryWs(db));
        if |raw| < s + v[1] then None
        else
          match ParseEntries(db, raw[s + v[1]..], n - 1)
          case None => None
          case Some(es) => Some([Entry(v[0], v[2], raw[s..s + v[1]])] + es)
  }

  /** A directory's content: its parent's number and its entries. */
  function ParseDir(db: DirBits, raw: bytes): (r: Option<Body>)
    ensures r.Some? ==> r.value.Directory?
  {
    var s := HeaderSize(db);
    if |raw| < s then None
    else
      DirPos(db);
      var v := ReadAll(BitsOf(raw), 0, HeaderWs(db));
      match ParseEntries(db, raw[s..], v[1])
      case None => None
      case Some(es) => Some(Directory(v[0], es))
  }

  /** A C string: the bytes before the first NUL. */
  function CString(s: bytes): bytes {
    if s == [] || s[0] == 0 then [] else [s[0]] + CString(s[1..])
  }

  // ---------- extraction ----------

  datatype Tree<A> =
    | File(attr: A, content: bytes)
    | Link(attr: A, target: bytes)
    | Dir(attr: A, names: seq<bytes>, kids: seq<Tree<A>>)

  /** The permission bits, user and group handed to chmod and lchown for a node. */
  datatype Owner = Owner(mode: nat, uid: nat, gid: nat)

  /** read, write and execute as rwx bits from the stored mode. */
  function Rwx(v: nat): nat {
    (if v % 2 == 1 then 4 else 0) + (if v / 2 % 2 == 1 then 2 else 0) + (if v / 4 % 2 == 1 then 1 else 0)
  }

  function OwnerFrom(r: NodeRec): Owner {
    Owner(64 * Rwx(r.owner) + 8 * Rwx(r.group) + Rwx(r.other), r.uid, r.gid)
  }

  lemma RwxBits(v: nat)
    ensures var r := Rwx(v);
            r < 8 && (r % 2 == 1 <==> v / 4 % 2 == 1) && (r / 2 % 2 == 1 <==> v / 2 % 2 == 1)
            && (r / 4 % 2 == 1 <==> v % 2 == 1)
  {
  }

  /**
    What is handed to chmod for a node: the stored 1, 2 and 4 of owner, group and others are read, write and
    execute, nothing else is set.
   */
  lemma ModeHanded(r: NodeRec)
    ensures var w := OwnerFrom(r).mode;
            && w < 512
            && (w / 256 % 2 == 1 <==> r.owner % 2 == 1) && (w / 32 % 2 == 1 <==> r.group % 2 == 1)
            && (w / 4 % 2 == 1 <==> r.other % 2 == 1)
            && (w / 128 % 2 == 1 <==> r.owner / 2 % 2 == 1) && (w / 16 % 2 == 1 <==> r.group / 2 % 2 == 1)
            && (w / 2 % 2 == 1 <==> r.other / 2 % 2 == 1)
            && (w / 64 % 2 == 1 <==> r.owner / 4 % 2 == 1) && (w / 8 % 2 == 1 <==> r.group / 4 % 2 == 1)
            && (w % 2 == 1 <==> r.other / 4 % 2 == 1)
    ensures OwnerFrom(r).uid == r.uid && OwnerFrom(r).gid == r.gid
  {
    hide Rwx;
    RwxBits(r.owner);
    RwxBits(r.group);
    RwxBits(r.other);
    ThreeDigits(OwnerFrom(r).mode, Rwx(r.owner), Rwx(r.group), Rwx(r.other));
  }

  /** The nine bits of a number of three octal digits. */
  lemma ThreeDigits(w: nat, x: nat, y: nat, z: nat)
    requires x < 8 && y < 8 && z < 8 && w == 64 * x + 8 * y + z
    ensures w < 512 && w / 256 % 2 == x / 4 % 2 && w / 128 % 2 == x / 2 % 2 && w / 64 % 2 == x % 2
    ensures w / 32 % 2 == y / 4 % 2 && w / 16 % 2 == y / 2 % 2 && w / 8 % 2 == y % 2
    ensures w / 4 % 2 == z / 4 % 2 && w / 2 % 2 == z / 2 % 2 && w % 2 == z % 2
  {
    Shifted(w);
    Digit(w, 4 * x, y, z);
    DivModUnique(w, 8, 8 * x + y, z);
    Digit(w / 8, 0, x, y);
    DivModUnique(w / 8, 8, x, y);
  }

  lemma Shifted(w: nat)
    ensures w / 16 == w / 8 / 2 && w / 32 == w / 8 / 4 && w / 64 == w / 8 / 8
    ensures w / 128 == w / 8 / 8 / 2 && w / 256 == w / 8 / 8 / 4
  {
  }

  /** The bits of the last octal digit. */
  lemma Digit(w: nat, u: nat, y: nat, z: nat)
    requires z < 8 && w == 16 * u + 8 * y + z
    ensures w / 4 % 2 == z / 4 % 2 && w / 2 % 2 == z / 2 % 2 && w % 2 == z % 2
  {
    assert w / 4 == 2 * (2 * u + y) + z / 4 && w / 2 == 2 * (4 * u + 2 * y) + z / 2;
  }

  /** The whole content of a node. */
  ghost function Content(m: Mounted, r: NodeRec): Option<bytes>
    requires Sane(m) && Spans(m, r.block, r.index, r.size)
  {
    ReadFrom(m, r.block, r.index, r.size)
  }

  /** Node `n` can be filled, its first block looked up, and its content read. */
  ghost predicate Reachable(m: Mounted, n: nat) {
    && Sane(m) && n < m.sb.inodes && NodeFill(m, n).block < m.sb.blocks
    && var r := NodeFill(m, n); Spans(m, r.block, r.index, r.size) && Content(m, r).Some?
  }

  /**
    Traversing node `n` terminates and creates `t`. The tree is the witness: a node that leads back
    to itself yields no tree at all.
   */
  ghost predicate Yields(m: Mounted, n: nat, t: Tree<Owner>)
    decreases t
  {
    && Reachable(m, n)
    && var r := NodeFill(m, n);
       var raw := Content(m, r).value;
       && t.attr == OwnerFrom(r)
       && match t
          case File(_, content) => r.kind == TYPE_REGULAR_FILE && content == raw
          case Link(_, target) => r.kind == TYPE_SYMBOLIC_LINK && 0 in raw && target == CString(raw)
          case Dir(_, names, kids) =>
            && r.kind == TYPE_DIRECTORY && ParseDir(m.sb.db, raw).Some?
            && var es := ParseDir(m.sb.db, raw).value.entries;
               && |es| == |names| == |kids|
               && forall i :: 0 <= i < |kids| ==> names[i] == CString(es[i].name) && Yields(m, es[i].number, kids[i])
  }
}
