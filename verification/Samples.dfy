/** Small mounted images on which the readers go wrong. */
module Samples {
  import opened Seqs
  import opened Bits
  import opened BitBuffers
  import opened Fields
  import opened Compressors
  import opened Format
  import opened Reader
  import opened Extraction
  import opened Delivery
  import opened Traversals
  import opened Returning
  import opened Endings
  import opened Outcomes

  /**
    An image whose fields are bytes: a node is its type, size and block; a block its offset and stored size,
    the last one's size behind them; a directory its count, and entries a number, a length and a name.
   */
  function Small(inodes: nat, blocks: nat, log2: nat, itable: bytes, btable: bytes, entries: bytes): Mounted {
    Mounted(Super(MAGIC, VERSION_0, 0, inodes, blocks, Pow2(log2), log2, 0, 0, |itable|, 0, 0, |btable|, 0, |entries|,
                  0, InodeBits(8, 0, 0, 0, 0, 0, 0, 0, 8, 8, 0), DirBits(0, 8, 8, 8, 0), BlockBits(8, 8, 8),
                  Mins(0, 0, 0)),
            itable, btable, entries, NoneCompressor())
  }

  // ---------- reading bytes ----------

  lemma ByteRead(s: bytes, pos: nat, k: nat)
    requires pos == 8 * k && k < |s|
    ensures |BitsOf(s)| == 8 * |s| && At(BitsOf(s), pos, 8) == s[k]
  {
    hide BitsOf, Dec;
    LowByte(s, pos);
  }

  lemma NothingRead(bits: seq<bool>, pos: nat)
    requires pos <= |bits|
    ensures At(bits, pos, 0) == 0
  {
    assert bits[pos..pos + 0] == [];
  }

  lemma InodePlaces(ib: InodeBits)
    requires ib == InodeBits(8, 0, 0, 0, 0, 0, 0, 0, 8, 8, 0)
    ensures var ws := InodeWs(ib);
            && Pos(ws, 0) == 0 && (forall i :: 1 <= i <= 8 ==> Pos(ws, i) == 8) && Pos(ws, 9) == 16 && Pos(ws, 10) == 24
            && Pos(ws, 11) == 24 && InodeSize(ib) == 24
  {
    var ws := InodeWs(ib);
    assert Pos(ws, 1) == 8 && Pos(ws, 2) == 8 && Pos(ws, 3) == 8 && Pos(ws, 4) == 8;
    assert Pos(ws, 5) == 8 && Pos(ws, 6) == 8 && Pos(ws, 7) == 8 && Pos(ws, 8) == 8;
    assert Pos(ws, 9) == 16 && Pos(ws, 10) == 24 && Pos(ws, 11) == 24;
  }

  lemma SmallNode(m: Mounted, n: nat)
    requires m.sb.ib == InodeBits(8, 0, 0, 0, 0, 0, 0, 0, 8, 8, 0) && 3 * n + 3 <= |m.itable|
    ensures HasNode(m, n)
    ensures var r := NodeFill(m, n);
            && r.kind == m.itable[3 * n] && r.size == m.itable[3 * n + 1] && r.block == m.itable[3 * n + 2]
               && r.index == 0
            && OwnerFrom(r) == Owner(0, 0, 0)
  {
    hide BitsOf, At, Pos;
    var ws, bits, at := InodeWs(m.sb.ib), BitsOf(m.itable), 24 * n;
    InodePlaces(m.sb.ib);
    assert InodePos(m.sb.ib, n) == at;
    ByteRead(m.itable, at, 3 * n);
    ByteRead(m.itable, at + 8, 3 * n + 1);
    ByteRead(m.itable, at + 16, 3 * n + 2);
    NothingRead(bits, at + 8);
    NothingRead(bits, at + 24);
    var v := ReadAll(bits, at, ws);
    assert ws[1] == 0 && ws[2] == 0 && ws[3] == 0 && ws[4] == 0 && ws[5] == 0;
    assert v[1] == 0 && v[2] == 0 && v[3] == 0 && v[4] == 0 && v[5] == 0 && v[10] == 0;
  }

  lemma SmallBlock(m: Mounted, b: nat)
    requires m.sb.bb == BlockBits(8, 8, 8) && m.sb.mins == Mins(0, 0, 0) && b < m.sb.blocks
             && |m.btable| == 2 * m.sb.blocks + 1
    ensures HasBlock(m, b)
    ensures BlockFill(m, b) == BlockRec(m.btable[2 * b], m.btable[2 * b + 1],
                                        if b + 1 < m.sb.blocks then m.sb.blockSize else m.btable[2 * b + 2])
  {
    hide BitsOf, At;
    var ws, bits, at := BlockWs(m.sb.bb), BitsOf(m.btable), 16 * b;
    assert Pos(ws, 0) == 0 && Pos(ws, 1) == 8 && Pos(ws, 2) == 16;
    assert BlockSize(m.sb.bb) == 16 && BlockPos(m.sb.bb, b) == at;
    ByteRead(m.btable, at, 2 * b);
    ByteRead(m.btable, at + 8, 2 * b + 1);
    ByteRead(m.btable, at + 16, 2 * b + 2);
  }

  lemma SmallSane(m: Mounted, inodes: nat, blocks: nat, log2: nat, itable: bytes, btable: bytes, entries: bytes)
    requires m == Small(inodes, blocks, log2, itable, btable, entries)
    requires |itable| == 3 * inodes && |btable| == 2 * blocks + 1 && blocks > 0
    requires 0 < btable[2 * blocks] <= Pow2(log2)
    requires forall b :: 0 <= b < blocks ==> btable[2 * b] + btable[2 * b + 1] <= |entries|
    ensures Sane(m)
  {
    hide HasNode, HasBlock, BlockFill, NodeFill, Pow2;
    forall n | 0 <= n < inodes
      ensures HasNode(m, n)
    {
      SmallNode(m, n);
    }
    forall b | 0 <= b < blocks
      ensures HasBlock(m, b)
      ensures var r := BlockFill(m, b); r.offset + r.compressedSize <= |m.entries| && 0 < r.size <= m.sb.blockSize
    {
      SmallBlock(m, b);
    }
  }

  // ---------- a short block ----------

  /** One block of size 2 that is stored as one byte. */
  function ShortImage(): Mounted {
    Small(0, 1, 1, [], [0, 1, 2], [7])
  }

  lemma ShortSane(m: Mounted)
    requires m == ShortImage()
    ensures Sane(m) && HasBlock(m, 0) && BlockFill(m, 0) == BlockRec(0, 1, 2) && Stored(m, 0) == [7]
  {
    hide Sane, BlockFill, HasBlock;
    assert Pow2(1) == 2;
    SmallSane(m, 0, 1, 1, [], [0, 1, 2], [7]);
    SmallBlock(m, 0);
    assert m.entries[0..1] == [7];
  }

  /**
    Reading it, the kernel reports an error and the tool hands on a byte of it and one it never wrote,
    whatever that is.
   */
  lemma ShortBlock(m: Mounted, x: byte)
    requires m == ShortImage()
    ensures Sane(m) && Spans(m, 0, 0, 2) && ReadFrom(m, 0, 0, 2) == None && Handed(m, 0, 0, 2, true, [7, x])
  {
    hide Sane, BlockFill, HasBlock, Stored;
    ShortSane(m);
    var none: bytes := [];
    assert [7, x][2..] == none;
    assert Spans(m, 1, 0, 0) && Handed(m, 1, 0, 0, true, none);
    ShortUnblock(m);
  }

  lemma ShortUnblock(m: Mounted)
    requires HasBlock(m, 0) && BlockFill(m, 0) == BlockRec(0, 1, 2) && |m.entries| == 1 && m.c == NoneCompressor()
    ensures Unblock(m, 0) == None
  {
    hide BlockFill, HasBlock;
  }

  // ---------- directories ----------

  lemma SmallEntries(raw: bytes, n: nat, len: nat)
    requires n > 0 && |raw| >= 2 && raw[1] == len && |raw| >= 2 + len
    ensures var db := DirBits(0, 8, 8, 8, 0);
            ParseEntries(db, raw, n) == match ParseEntries(db, raw[2 + len..], n - 1)
                                        case None => None
                                        case Some(es) => Some([Entry(raw[0], 0, raw[2..2 + len])] + es)
  {
    hide BitsOf, At;
    var db := DirBits(0, 8, 8, 8, 0);
    DirPos(db);
    var ws, front := EntryWs(db), raw[..2];
    assert Pos(ws, 0) == 0;
    ByteRead(front, 0, 0);
    ByteRead(front, 8, 1);
    NothingRead(BitsOf(front), 16);
    var v := ReadAll(BitsOf(front), 0, ws);
    assert v[0] == raw[0] && v[1] == raw[1] && v[2] == 0;
  }

  lemma SmallDir(raw: bytes)
    requires |raw| >= 1
    ensures var db := DirBits(0, 8, 8, 8, 0);
            ParseDir(db, raw) == match ParseEntries(db, raw[1..], raw[0])
                                 case None => None
                                 case Some(es) => Some(Directory(0, es))
  {
    hide BitsOf, At, ParseEntries;
    var db := DirBits(0, 8, 8, 8, 0);
    DirPos(db);
    var ws := HeaderWs(db);
    assert Pos(ws, 0) == 0 && ws[0] == 0 && ws[1] == 8;
    ByteRead(raw, 0, 0);
    NothingRead(BitsOf(raw), 0);
    var v := ReadAll(BitsOf(raw), 0, ws);
    assert v[0] == 0 && v[1] == raw[0];
  }

  lemma NoEntries(db: DirBits, raw: bytes)
    ensures ParseEntries(db, raw, 0) == Some([])
  {
  }

  /** A node whose bytes are all in a first block that holds them. */
  lemma SmallContent(m: Mounted, n: nat, raw: bytes)
    requires Sane(m) && m.sb.ib == InodeBits(8, 0, 0, 0, 0, 0, 0, 0, 8, 8, 0) && n < m.sb.inodes
             && 3 * n + 3 <= |m.itable|
    requires var b := m.itable[3 * n + 2]; b < m.sb.blocks && HasBlock(m, b)
    requires var r := BlockFill(m, m.itable[3 * n + 2]);
             && r.offset + r.compressedSize <= |m.entries| && |raw| <= r.size && m.itable[3 * n + 1] == |raw|
             && (raw != [] ==> Unblock(m, m.itable[3 * n + 2]).Some?
                               && raw == Unblock(m, m.itable[3 * n + 2]).value[..|raw|])
    ensures Reachable(m, n) && Content(m, NodeFill(m, n)) == Some(raw)
  {
    hide BlockFill, HasBlock, HasNode, Unblock, NodeFill, Readable;
    SmallNode(m, n);
    var b: nat := m.itable[3 * n + 2];
    if raw != [] {
      var u := Unblock(m, b).value;
      assert Spans(m, b + 1, 0, 0) && ReadFrom(m, b + 1, 0, 0) == Some([]);
      assert u[0..|raw|] + [] == raw;
    }
  }

  // ---------- a directory in itself ----------

  /** A directory whose one entry, "a", is itself. */
  function LoopImage(): Mounted {
    Small(1, 1, 2, [2, 4, 0], [0, 4, 4], [1, 0, 1, 97])
  }

  lemma LoopParses()
    ensures ParseDir(DirBits(0, 8, 8, 8, 0), [1, 0, 1, 97]) == Some(Directory(0, [Entry(0, 0, [97])]))
  {
    hide ParseEntries, ParseDir;
    var raw, back, none: bytes := [1, 0, 1, 97], [0, 1, 97], [];
    SmallDir(raw);
    assert raw[1..] == back && back[2..3] == [97] && back[3..] == none;
    SmallEntries(back, 1, 1);
    NoEntries(DirBits(0, 8, 8, 8, 0), none);
    assert [Entry(0, 0, [97])] + [] == [Entry(0, 0, [97])];
  }

  lemma LoopSane(m: Mounted)
    requires m == LoopImage()
    ensures Sane(m)
  {
    hide Sane;
    assert Pow2(2) == 4;
    SmallSane(m, 1, 1, 2, [2, 4, 0], [0, 4, 4], [1, 0, 1, 97]);
  }

  /** A block that is stored as it is. */
  lemma StoredBlock(m: Mounted, b: nat)
    requires HasBlock(m, b) && m.c == NoneCompressor()
    requires var r := BlockFill(m, b); r.offset + r.compressedSize <= |m.entries| && r.compressedSize == r.size
    ensures var r := BlockFill(m, b); Unblock(m, b) == Some(m.entries[r.offset..r.offset + r.size])
  {
    hide BlockFill, HasBlock;
  }

  lemma LoopBlock(m: Mounted)
    requires m == LoopImage()
    ensures var raw: bytes := [1, 0, 1, 97];
            HasBlock(m, 0) && BlockFill(m, 0) == BlockRec(0, 4, 4) && Unblock(m, 0) == Some(raw)
  {
    hide BlockFill, HasBlock, Unblock;
    var raw: bytes := [1, 0, 1, 97];
    SmallBlock(m, 0);
    StoredBlock(m, 0);
    assert m.entries[0..4] == raw;
  }

  lemma LoopNode(m: Mounted)
    requires m == LoopImage()
    ensures HasNode(m, 0) && NodeFill(m, 0).kind == TYPE_DIRECTORY
  {
    hide HasNode, NodeFill;
    var it: bytes := [2, 4, 0];
    SmallNode(m, 0);
    assert m.itable == it && it[0] == 2;
  }

  lemma LoopReads(m: Mounted)
    requires m == LoopImage()
    ensures var raw: bytes := [1, 0, 1, 97];
            Reachable(m, 0) && NodeFill(m, 0).kind == TYPE_DIRECTORY && Content(m, NodeFill(m, 0)) == Some(raw)
  {
    hide Sane, BlockFill, HasBlock, HasNode, NodeFill, Reachable, Content, Unblock;
    var raw: bytes := [1, 0, 1, 97];
    LoopSane(m);
    LoopBlock(m);
    LoopNode(m);
    assert raw[..4] == raw;
    SmallContent(m, 0, raw);
  }

  lemma LoopContent(m: Mounted)
    requires m == LoopImage()
    ensures var raw: bytes := [1, 0, 1, 97];
            && Reachable(m, 0) && NodeFill(m, 0).kind == TYPE_DIRECTORY && Content(m, NodeFill(m, 0)) == Some(raw)
            && ParseDir(m.sb.db, raw) == Some(Directory(0, [Entry(0, 0, [97])]))
  {
    hide Reachable, Content, ParseDir, NodeFill;
    LoopReads(m);
    LoopParses();
  }

  lemma LoopGives(m: Mounted, ok: bool, v: bytes)
    requires m == LoopImage() && Found(m, 0) && Gives(m, 0, ok, v)
    ensures ok && v == [1, 0, 1, 97]
  {
    hide Found, Gives, Reachable, Content, NodeFill, ParseDir;
    LoopContent(m);
    GivesWhole(m, 0, ok, v);
  }

  lemma FoundRead(m: Mounted, n: nat)
    requires Reachable(m, n)
    ensures InBounds(m, n)
  {
    hide NodeFill, HasNode, Spans, ReadFrom;
  }

  lemma LoopLists(m: Mounted)
    requires m == LoopImage()
    ensures Lists(m, 0, 0) && InBounds(m, 0) && NodeFill(m, 0).kind == TYPE_DIRECTORY
    ensures forall b :: Lists(m, 0, b) ==> b == 0
  {
    hide Found, NodeFill, Gives, ParseDir, Content, LoopImage, Reachable, Known, Spans;
    var raw: bytes := [1, 0, 1, 97];
    LoopContent(m);
    WholeGives(m, 0);
    FoundRead(m, 0);
    ListsEntry(m, 0, raw, Entry(0, 0, [97]));
    forall v, b | ListsIn(m, 0, v, b)
      ensures b == 0
    {
      LoopGives(m, true, v);
    }
  }

  lemma {:induction false} LoopTrails(m: Mounted, p: seq<nat>, i: nat)
    requires m == LoopImage() && Trail(m, p) && p[0] == 0 && i < |p|
    ensures p[i] == 0
  {
    hide Lists, LoopImage, InBounds, NodeFill;
    LoopLists(m);
    if i > 0 {
      LoopTrails(m, p, i - 1);
      assert Lists(m, p[i - 1], p[i]);
    }
  }

  /** Everything in it can be read, and its name is plain. */
  lemma LoopSound(m: Mounted)
    requires m == LoopImage()
    ensures Sound(m, 0) && Trail(m, [0, 0])
  {
    hide Lists, Gives, Found, NodeFill, ParseDir, LoopImage, Uncompresses;
    LoopLists(m);
    LoopNamed(m);
    forall p | Trail(m, p) && p[0] == 0
      ensures Last(p) == 0
    {
      LoopTrails(m, p, |p| - 1);
    }
  }

  lemma LoopName()
    ensures CString([97]) == [97] && Holdable([Entry(0, 0, [97])])
  {
    var empty: bytes := [];
    assert [97][1..] == empty && [97] + empty == [97];
  }

  lemma LoopNamed(m: Mounted)
    requires m == LoopImage()
    ensures WellNamed(m, 0)
  {
    hide Gives, Found, NodeFill, ParseDir, LoopImage, Known, Spans, Reachable, Content, CString;
    LoopContent(m);
    LoopName();
    forall v | InBounds(m, 0) && Gives(m, 0, true, v)
      ensures v == [1, 0, 1, 97]
    {
      LoopGives(m, true, v);
    }
  }

  /** Extracting it never comes to an end, however deep one waits. */
  lemma LoopForEver(d: Disk, u: User, output: bytes, depth: nat)
    requires Plain(output) && Clear(d.ns, d.cwd + [output])
    ensures !Straight(LoopImage(), 0) && !Ends(LoopImage(), 0, depth)
    ensures Enter(d, u, output, 511).0 && !Halts(LoopImage(), 0, Enter(d, u, output, 511).1, u, HERE, depth)
  {
    hide Plain, Sound, Ends, Halts, Enter, Lists, Straight, Trail, NodeFill;
    var m, p: seq<nat> := LoopImage(), [0, 0];
    LoopSound(m);
    LoopLists(m);
    CycleNeverEnds(m, p, depth);
    EntersDir(d, u, output, 511);
    EndsExactly(m, 0);
    if Straight(m, 0) { CycleNeverEnds(m, p, m.sb.inodes); }
    if Halts(m, 0, Enter(d, u, output, 511).1, u, HERE, depth) { RootHaltsEnds(m, d, u, output, depth); }
  }

  // ---------- a file that cannot be read ----------

  /** A directory of a file "a", whose block does not uncompress, and an empty file "b". */
  function BrokenImage(): Mounted {
    Small(3, 2, 3, [2, 7, 0, 1, 1, 1, 1, 0, 0], [0, 8, 8, 2, 1], [2, 1, 1, 97, 2, 1, 98, 0, 5, 5])
  }

  const NOBODY := Owner(0, 0, 0)

  /** What traversing it comes to. */
  function BrokenStep(): Step {
    MakeDir(NOBODY, [[97], [98]], [BrokenFile(NOBODY, []), MakeFile(NOBODY, [])])
  }

  lemma BrokenParses()
    ensures ParseDir(DirBits(0, 8, 8, 8, 0), [2, 1, 1, 97, 2, 1, 98])
         == Some(Directory(0, [Entry(1, 0, [97]), Entry(2, 0, [98])]))
  {
    hide ParseEntries, ParseDir;
    var raw, r1, r2, none: bytes := [2, 1, 1, 97, 2, 1, 98], [1, 1, 97, 2, 1, 98], [2, 1, 98], [];
    SmallDir(raw);
    assert raw[1..] == r1 && r1[2..3] == [97] && r1[3..] == r2 && r2[2..3] == [98] && r2[3..] == none;
    SmallEntries(r1, 2, 1);
    SmallEntries(r2, 1, 1);
    NoEntries(DirBits(0, 8, 8, 8, 0), none);
    assert [Entry(2, 0, [98])] + [] == [Entry(2, 0, [98])];
    assert [Entry(1, 0, [97])] + [Entry(2, 0, [98])] == [Entry(1, 0, [97]), Entry(2, 0, [98])];
  }

  lemma BrokenBlocks(m: Mounted)
    requires m == BrokenImage()
    ensures HasBlock(m, 0) && BlockFill(m, 0) == BlockRec(0, 8, 8)
    ensures HasBlock(m, 1) && BlockFill(m, 1) == BlockRec(8, 2, 1)
  {
    hide HasBlock, BlockFill;
    var bt: bytes := [0, 8, 8, 2, 1];
    assert Pow2(3) == 8 && m.btable == bt && bt[0] == 0 && bt[1] == 8 && bt[2] == 8 && bt[3] == 2 && bt[4] == 1;
    SmallBlock(m, 0);
    SmallBlock(m, 1);
  }

  lemma BrokenSane(m: Mounted)
    requires m == BrokenImage()
    ensures Sane(m)
  {
    hide Sane;
    assert Pow2(3) == 8;
    SmallSane(m, 3, 2, 3, [2, 7, 0, 1, 1, 1, 1, 0, 0], [0, 8, 8, 2, 1], [2, 1, 1, 97, 2, 1, 98, 0, 5, 5]);
  }

  /** Node `n` has this type, size and block, and no mode and ids. */
  ghost predicate NodeAs(m: Mounted, n: nat, kind: nat, size: nat, block: nat) {
    && HasNode(m, n)
    && var r := NodeFill(m, n);
       r.kind == kind && r.size == size && r.block == block && r.index == 0 && OwnerFrom(r) == NOBODY
  }

  lemma NodeIs(m: Mounted, n: nat, it: bytes, kind: byte, size: byte, block: byte)
    requires m.sb.ib == InodeBits(8, 0, 0, 0, 0, 0, 0, 0, 8, 8, 0) && m.itable == it && 3 * n + 3 <= |it|
    requires it[3 * n..3 * n + 3] == [kind, size, block]
    ensures NodeAs(m, n, kind, size, block)
  {
    hide HasNode, NodeFill, OwnerFrom;
    SmallNode(m, n);
    var s := it[3 * n..3 * n + 3];
    assert s[0] == it[3 * n] && s[1] == it[3 * n + 1] && s[2] == it[3 * n + 2];
  }

  lemma BrokenNode(m: Mounted, n: nat)
    requires m == BrokenImage() && n < 3
    ensures NodeAs(m, n, if n == 0 then TYPE_DIRECTORY else TYPE_REGULAR_FILE, if n == 0 then 7 else 2 - n,
                   if n == 1 then 1 else 0)
  {
    hide NodeAs;
    var it: bytes := [2, 7, 0, 1, 1, 1, 1, 0, 0];
    assert it[0..3] == [2, 7, 0] && it[3..6] == [1, 1, 1] && it[6..9] == [1, 0, 0];
    NodeIs(m, n, it, if n == 0 then 2 else 1, if n == 0 then 7 else 2 - n, if n == 1 then 1 else 0);
  }

  lemma BrokenRoot(m: Mounted)
    requires m == BrokenImage()
    ensures var raw: bytes := [2, 1, 1, 97, 2, 1, 98]; Reachable(m, 0) && Content(m, NodeFill(m, 0)) == Some(raw)
  {
    hide Sane, BlockFill, HasBlock, HasNode, NodeFill, Reachable, Content, Unblock;
    var raw, it: bytes := [2, 1, 1, 97, 2, 1, 98], [2, 7, 0, 1, 1, 1, 1, 0, 0];
    BrokenSane(m);
    BrokenBlocks(m);
    StoredBlock(m, 0);
    assert m.itable == it && it[0] == 2 && it[1] == 7 && it[2] == 0;
    assert m.entries[0..8][..7] == raw;
    SmallContent(m, 0, raw);
  }

  /** A read of one byte from a block that does not uncompress hands on nothing. */
  lemma OneByteBroken(m: Mounted, b: nat)
    requires Sane(m) && b < m.sb.blocks && HasBlock(m, b) && BlockFill(m, b) == BlockRec(8, 2, 1)
    requires m.c == NoneCompressor() && |m.entries| == 10
    ensures Spans(m, b, 0, 1) && Handed(m, b, 0, 1, false, [])
  {
    hide Sane, BlockFill, HasBlock;
    assert Spans(m, b + 1, 0, 0);
  }

  lemma BrokenLeaves(m: Mounted)
    requires m == BrokenImage()
    ensures Walks(m, 1, BrokenFile(NOBODY, [])) && Walks(m, 2, MakeFile(NOBODY, []))
  {
    hide Sane, BlockFill, HasBlock, HasNode, NodeFill, BrokenImage, Handed, Spans, OwnerFrom;
    BrokenSane(m);
    BrokenBlocks(m);
    BrokenNode(m, 1);
    BrokenNode(m, 2);
    BrokenSizes(m);
    OneByteBroken(m, 1);
    NoByte(m, 0);
    assert Gives(m, 1, false, []) && Gives(m, 2, true, []);
  }

  lemma BrokenSizes(m: Mounted)
    requires m == BrokenImage()
    ensures m.sb.inodes == 3 && m.sb.blocks == 2 && m.c == NoneCompressor() && |m.entries| == 10
  {
  }

  lemma NoByte(m: Mounted, b: nat)
    requires Sane(m)
    ensures Spans(m, b, 0, 0) && Handed(m, b, 0, 0, true, [])
  {
    hide Sane;
  }

  lemma BrokenNames()
    ensures CString([97]) == [97] && CString([98]) == [98]
  {
    var empty: bytes := [];
    assert [97][1..] == empty && [97] + empty == [97] && [98][1..] == empty && [98] + empty == [98];
  }

  /** Traversing it comes to a file that cannot be read in full. */
  lemma BrokenWalks(m: Mounted)
    requires m == BrokenImage()
    ensures Walks(m, 0, BrokenStep()) && !Whole(BrokenStep())
  {
    hide NodeFill, HasNode, Gives, ParseDir, Spans, BrokenImage, CString, OwnerFrom, Found, Content, Reachable, Known;
    var raw: bytes := [2, 1, 1, 97, 2, 1, 98];
    BrokenRoot(m);
    BrokenNode(m, 0);
    BrokenLeaves(m);
    BrokenParses();
    BrokenNames();
    WholeGives(m, 0);
    FoundRead(m, 0);
    BrokenWidths(m);
    var es, names, kids := [Entry(1, 0, [97]), Entry(2, 0, [98])], BrokenStep().names, BrokenStep().kids;
    assert WalksAll(m, es, names, kids);
    assert !Whole(BrokenStep().kids[0]);
  }

  lemma BrokenWidths(m: Mounted)
    requires m == BrokenImage()
    ensures m.sb.db == DirBits(0, 8, 8, 8, 0)
  {
  }

  /**
    Extracting it into a new directory leaves "a" in that directory and makes "b" beside it, in the directory
    the tool was started in.
   */
  lemma BrokenExtracts(d: Disk, u: User, output: bytes)
    requires Plain(output) && output != [98] && Clear(d.ns, d.cwd + [output]) && Clear(d.ns, d.cwd + [[98]])
    ensures var out := d.cwd + [output];
            Extracting(d, u, output, BrokenStep()).ns
            == d.ns[out := ADirectory][out + [[97]] := AFile([])][d.cwd + [[98]] := AFile([])]
  {
    hide Plain, Enter, Run, RunAll, Entered, Finish;
    var out, d1 := d.cwd + [output], Entered(d, u, output, 511);
    EntersDir(d, u, output, 511);
    EnteredIs(d, u, output, 511);
    EntersHere(d1, u, NOBODY.mode);
    PlainByte(97);
    PlainByte(98);
    BesideOutput(d, output);
    BrokenDisplaces(d1, u, [97], [98], NOBODY, [], NOBODY, []);
    var d2 := RunAll(d1, u, BrokenStep().names, BrokenStep().kids);
    RunsInside(d1, u, BrokenStep());
    FinishKeeps(Up(d2), HERE, NOBODY);
    assert d1.ns == d.ns[out := ADirectory];
  }

  lemma RunsInside(d: Disk, u: User, s: Step)
    requires s.MakeDir? && Enter(d, u, HERE, s.attr.mode) == (true, d)
    ensures Run(d, u, HERE, s) == Finish(Up(RunAll(d, u, s.names, s.kids)), HERE, s.attr)
  {
    hide Enter, RunAll, Finish, Up;
  }

  lemma BesideOutput(d: Disk, output: bytes)
    requires output != [98] && Clear(d.ns, d.cwd + [[98]])
    ensures Parent(d.cwd + [output]) == d.cwd
    ensures Clear(d.ns + map[d.cwd + [output] := ADirectory], Parent(d.cwd + [output]) + [[98]])
  {
    var p, q := d.cwd + [output], d.cwd + [[98]];
    assert p[|d.cwd|] == output && q[|d.cwd|] == [98];
    assert !(q <= p);
  }
}
