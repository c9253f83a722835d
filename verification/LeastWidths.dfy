/** The widths an image is written with are the least that hold what it stores. */
module LeastWidths {
  import opened Seqs
  import opened Bits
  import opened MergeSort
  import opened Compressors
  import opened Format
  import opened Reader
  import opened Widths
  import opened Packing
  import opened Tables

  // ---------- inodes ----------

  /** The least positive width that holds `f` of every element. */
  ghost predicate Least<T>(s: seq<T>, f: T -> int, w: nat) {
    && w >= 1 && (forall i :: 0 <= i < |s| ==> f(s[i]) < Pow2(w))
    && (w == 1 || exists i :: 0 <= i < |s| && f(s[i]) >= Pow2(w - 1))
  }

  /** The width picked for the largest of the values above `base` is that one. */
  lemma MaxLeast<T>(s: seq<T>, f: T -> int, base: int, g: T -> int, w: nat)
    requires s != [] && 0 <= base <= f(s[0]) && w == Blog(MaxOf(s, f) - base) <= 32
    requires forall i :: 0 <= i < |s| ==> g(s[i]) == f(s[i]) - base
    ensures Least(s, g, w)
  {
    hide MaxOf, Blog, Pow2;
    MaxOfBound(s, f, 0);
    MaxOfReached(s, f);
    BlogLeast(MaxOf(s, f) - base);
    forall i | 0 <= i < |s|
      ensures g(s[i]) < Pow2(w)
    {
      MaxOfBound(s, f, i);
    }
    if w > 1 {
      var i :| 0 <= i < |s| && f(s[i]) == MaxOf(s, f);
      assert g(s[i]) >= Pow2(w - 1);
    }
  }

  lemma FieldLeast(tbl: seq<Inode>, f: Inode -> int, g: Inode -> int, w: nat)
    requires tbl != [] && f(tbl[0]) >= 0 && w == Blog(MaxOf(tbl, f)) <= 32
    requires forall i :: 0 <= i < |tbl| ==> g(tbl[i]) == f(tbl[i])
    ensures Least(tbl, g, w)
  {
    hide MaxOf, Blog, Least;
    MaxLeast(tbl, f, 0, g, w);
  }

  lemma OptionalLeast(tbl: seq<Inode>, f: Inode -> int, g: Inode -> int, off: bool, w: nat)
    requires tbl != [] && f(tbl[0]) >= 0 && w == Blog(Unless(off, MaxOf(tbl, f))) <= 32
    requires forall i :: 0 <= i < |tbl| ==> g(tbl[i]) == f(tbl[i])
    ensures if off then w == 0 else Least(tbl, g, w)
  {
    hide MaxOf, BlogFrom, Least;
    if !off { FieldLeast(tbl, f, g, w); }
  }

  lemma TimeLeast(tbl: seq<Inode>, f: Inode -> int, g: Inode -> int, off: bool, w: nat)
    requires tbl != [] && 0 <= f(tbl[0]) == MinOfMax(tbl, f)
    requires w == Blog(Unless(off, MaxOf(tbl, f)) - MinOfMax(tbl, f)) <= 32
    requires forall i :: 0 <= i < |tbl| ==> g(tbl[i]) == f(tbl[i]) - f(tbl[0])
    ensures if off then w == 0 else Least(tbl, g, w)
  {
    hide MaxOf, MinOfMax, BlogFrom, Least;
    if !off { MaxLeast(tbl, f, f(tbl[0]), g, w); }
  }

  /** The number stored for what a node is. */
  function TypeNumber(n: Inode): nat {
    if n.body.RegularFile? then 1 else if n.body.Directory? then 2 else 3
  }

  /**
    The widths of types, modes and ids: none for a field switched off, otherwise the least positive one that holds
    the field of every node.
   */
  lemma AttributeWidths(tbl: seq<Inode>, o: Opts, log2: nat, c: Compressor, l: Layout)
    requires Plan(tbl, o, log2, c) == Some(l) && Fits(tbl, l)
    ensures var ib := l.sb.ib;
            && Least(tbl, (n: Inode) => TypeNumber(n), ib.kind) && Least(tbl, (n: Inode) => n.attr.owner, ib.owner)
            && (if o.noGroupMode then ib.group == 0 else Least(tbl, (n: Inode) => n.attr.group, ib.group))
            && (if o.noOtherMode then ib.other == 0 else Least(tbl, (n: Inode) => n.attr.other, ib.other))
            && (if o.noUid then ib.uid == 0 else Least(tbl, (n: Inode) => n.attr.uid, ib.uid))
            && (if o.noGid then ib.gid == 0 else Least(tbl, (n: Inode) => n.attr.gid, ib.gid))
  {
    hide MaxOf, MinOfMax, Blog, Least, Plan, Words, DirBitsOf, InodeTable, Stream, SizeFn, BlockFn, IndexFn, Unless,
      InodeWs;
    Planned(tbl, o, log2, c, l);
    InodeWidths(l.sb.ib);
    var ib := l.sb.ib;
    FieldLeast(tbl, KindOf, (n: Inode) => TypeNumber(n), ib.kind);
    FieldLeast(tbl, OwnerOf, (n: Inode) => n.attr.owner, ib.owner);
    OptionalLeast(tbl, GroupOf, (n: Inode) => n.attr.group, o.noGroupMode, ib.group);
    OptionalLeast(tbl, OtherOf, (n: Inode) => n.attr.other, o.noOtherMode, ib.other);
    OptionalLeast(tbl, UidOf, (n: Inode) => n.attr.uid, o.noUid, ib.uid);
    OptionalLeast(tbl, GidOf, (n: Inode) => n.attr.gid, o.noGid, ib.gid);
  }

  /** The widths of times likewise, for their differences from the first node's. */
  lemma TimeWidths(tbl: seq<Inode>, o: Opts, log2: nat, c: Compressor, l: Layout)
    requires Plan(tbl, o, log2, c) == Some(l) && Fits(tbl, l)
    ensures var ctime, mtime := l.sb.ib.ctime, l.sb.ib.mtime;
            && (if o.noCtime then ctime == 0 else Least(tbl, (n: Inode) => n.attr.ctime - tbl[0].attr.ctime, ctime))
            && (if o.noMtime then mtime == 0 else Least(tbl, (n: Inode) => n.attr.mtime - tbl[0].attr.mtime, mtime))
  {
    hide MaxOf, MinOfMax, Blog, Least, Plan, Words, DirBitsOf, InodeTable, Stream, InodeBitsOf, Unless, InodeWs;
    Planned(tbl, o, log2, c, l);
    InodeWidths(l.sb.ib);
    MinsExact(tbl, l);
    TimeBits(tbl, o, log2);
    TimeLeast(tbl, CtimeOf, (n: Inode) => n.attr.ctime - tbl[0].attr.ctime, o.noCtime, l.sb.ib.ctime);
    TimeLeast(tbl, MtimeOf, (n: Inode) => n.attr.mtime - tbl[0].attr.mtime, o.noMtime, l.sb.ib.mtime);
  }

  lemma SizesLeast(tbl: seq<Inode>, db: DirBits, w: nat)
    requires tbl != [] && w == Blog(MaxOf<nat>(Iota(|tbl|), SizeFn(tbl, db))) <= 32
    ensures Least(Iota(|tbl|), (k: nat) => if k < |tbl| then |Ser(db, tbl[k].body)| else 0, w)
  {
    hide MaxOf, Blog, Ser, Least;
    MaxLeast(Iota(|tbl|), SizeFn(tbl, db), 0, (k: nat) => if k < |tbl| then |Ser(db, tbl[k].body)| else 0, w);
  }

  lemma BlocksLeast(tbl: seq<Inode>, db: DirBits, log2: nat, w: nat)
    requires tbl != [] && w == Blog(MaxOf<nat>(Iota(|tbl|), BlockFn(tbl, db, log2))) <= 32
    ensures Least(Iota(|tbl|), (k: nat) => if k < |tbl| then OffsetOf(tbl, db, k) / Pow2(log2) else 0, w)
  {
    hide MaxOf, Blog, OffsetOf, Least, Pow2;
    MaxLeast(Iota(|tbl|), BlockFn(tbl, db, log2), 0,
             (k: nat) => if k < |tbl| then OffsetOf(tbl, db, k) / Pow2(log2) else 0, w);
  }

  lemma IndicesLeast(tbl: seq<Inode>, db: DirBits, log2: nat, w: nat)
    requires tbl != [] && w == Blog(MaxOf<nat>(Iota(|tbl|), IndexFn(tbl, db, log2))) <= 32
    ensures Least(Iota(|tbl|), (k: nat) => if k < |tbl| then OffsetOf(tbl, db, k) % Pow2(log2) else 0, w)
  {
    hide MaxOf, Blog, OffsetOf, Least, Pow2;
    MaxLeast(Iota(|tbl|), IndexFn(tbl, db, log2), 0,
             (k: nat) => if k < |tbl| then OffsetOf(tbl, db, k) % Pow2(log2) else 0, w);
  }

  /** The widths of sizes and places, known only after packing. */
  lemma PlaceWidths(tbl: seq<Inode>, o: Opts, log2: nat, c: Compressor, l: Layout)
    requires Plan(tbl, o, log2, c) == Some(l) && Fits(tbl, l)
    ensures var ib, db, ks := l.sb.ib, l.sb.db, Iota(|tbl|);
            && Least(ks, (k: nat) => if k < |tbl| then |Ser(db, tbl[k].body)| else 0, ib.size)
            && Least(ks, (k: nat) => if k < |tbl| then OffsetOf(tbl, db, k) / Pow2(log2) else 0, ib.block)
            && Least(ks, (k: nat) => if k < |tbl| then OffsetOf(tbl, db, k) % Pow2(log2) else 0, ib.index)
  {
    hide MaxOf, Blog, Least, Plan, Words, DirBitsOf, InodeTable, Stream, InodeWs, AttrBits, OffsetOf, Ser, Pow2,
      SizeFn, BlockFn, IndexFn;
    Planned(tbl, o, log2, c, l);
    InodeWidths(l.sb.ib);
    SizesLeast(tbl, l.sb.db, l.sb.ib.size);
    BlocksLeast(tbl, l.sb.db, log2, l.sb.ib.block);
    IndicesLeast(tbl, l.sb.db, log2, l.sb.ib.index);
  }

  // ---------- directories ----------

  /** The least positive width that holds `f` of every entry of every directory; none at all without entries. */
  ghost predicate LeastInEntries(tbl: seq<Inode>, f: Entry -> int, w: nat) {
    if forall n :: n in tbl && n.body.Directory? ==> n.body.entries == [] then w == 0
    else
      && w >= 1 && (forall n, e :: n in tbl && n.body.Directory? && e in n.body.entries ==> f(e) < Pow2(w))
      && (w == 1 || exists n, e :: n in tbl && n.body.Directory? && e in n.body.entries && f(e) >= Pow2(w - 1))
  }

  lemma EntryMax(tbl: seq<Inode>, f: Entry -> int, g: Inode -> int, n: Inode, e: Entry)
    requires n in tbl && n.body.Directory? && e in n.body.entries && g(n) == MaxOf(n.body.entries, f)
    ensures f(e) <= MaxOf(tbl, g)
  {
    hide MaxOf;
    var k :| 0 <= k < |tbl| && tbl[k] == n;
    var i :| 0 <= i < |n.body.entries| && n.body.entries[i] == e;
    MaxOfBound(tbl, g, k);
    MaxOfBound(n.body.entries, f, i);
  }

  lemma EntryReached(tbl: seq<Inode>, f: Entry -> int, g: Inode -> int)
    requires forall n :: n in tbl ==> g(n) == if n.body.Directory? then MaxOf(n.body.entries, f) else -1
    ensures MaxOf(tbl, g) == -1
            || exists n, e :: n in tbl && n.body.Directory? && e in n.body.entries && f(e) == MaxOf(tbl, g)
  {
    hide MaxOf;
    MaxOfReached(tbl, g);
    if MaxOf(tbl, g) != -1 {
      var k :| 0 <= k < |tbl| && g(tbl[k]) == MaxOf(tbl, g);
      var n := tbl[k];
      MaxOfReached(n.body.entries, f);
      var i :| 0 <= i < |n.body.entries| && f(n.body.entries[i]) == MaxOf(tbl, g);
      assert n in tbl && n.body.entries[i] in n.body.entries;
    }
  }

  lemma NotNegative(es: seq<Entry>, f: Entry -> int, max: int)
    requires forall e :: e in es ==> 0 <= f(e) <= max
    ensures es != [] ==> max >= 0
  {
    if es != [] { assert es[0] in es; }
  }

  lemma EntriesLeast(tbl: seq<Inode>, f: Entry -> int, g: Inode -> int, h: Entry -> int, w: nat)
    requires forall n :: n in tbl ==> g(n) == if n.body.Directory? then MaxOf(n.body.entries, f) else -1
    requires (forall e :: f(e) >= 0 && h(e) == f(e)) && w == Blog(MaxOf(tbl, g)) <= 32
    ensures LeastInEntries(tbl, h, w)
  {
    hide MaxOf, BlogFrom, Pow2;
    EntryReached(tbl, f, g);
    forall n, e | n in tbl && n.body.Directory? && e in n.body.entries
      ensures f(e) <= MaxOf(tbl, g)
    {
      EntryMax(tbl, f, g, n, e);
    }
    if MaxOf(tbl, g) >= 0 {
      BlogLeast(MaxOf(tbl, g));
      var n, e :| n in tbl && n.body.Directory? && e in n.body.entries && f(e) == MaxOf(tbl, g);
      assert n.body.entries != [] && h(e) == f(e);
    } else {
      forall n | n in tbl && n.body.Directory?
        ensures n.body.entries == []
      {
        NotNegative(n.body.entries, f, MaxOf(tbl, g));
      }
    }
  }

  /** The widths of parents, numbers of entries, and entries' numbers, name lengths and types. */
  lemma DirectoryWidths(tbl: seq<Inode>, o: Opts, log2: nat, c: Compressor, l: Layout)
    requires Plan(tbl, o, log2, c) == Some(l) && Fits(tbl, l)
    ensures var db := l.sb.db;
            && Least(tbl, (n: Inode) => if n.body.Directory? then n.body.parent else -1, db.parent)
            && Least(tbl, (n: Inode) => if n.body.Directory? then |n.body.entries| else -1, db.nentries)
            && LeastInEntries(tbl, (e: Entry) => e.number, db.number)
            && LeastInEntries(tbl, (e: Entry) => |e.name|, db.length)
            && LeastInEntries(tbl, (e: Entry) => e.kind, db.kind)
  {
    hide MaxOf, Blog, Least, LeastInEntries, Plan, Words, InodeTable, Stream, InodeWs, InodeBitsOf;
    Planned(tbl, o, log2, c, l);
    NarrowDirs(l.sb);
    var db := l.sb.db;
    FieldLeast(tbl, ParentOf, (n: Inode) => if n.body.Directory? then n.body.parent else -1, db.parent);
    FieldLeast(tbl, NentriesOf, (n: Inode) => if n.body.Directory? then |n.body.entries| else -1, db.nentries);
    EntriesLeast(tbl, EntryNumber, MaxEntryNumber, (e: Entry) => e.number, db.number);
    EntriesLeast(tbl, EntryLength, MaxEntryLength, (e: Entry) => |e.name|, db.length);
    EntriesLeast(tbl, EntryKind, MaxEntryKind, (e: Entry) => e.kind, db.kind);
  }

  // ---------- blocks ----------

  /** The compressed sizes of blocks. */
  lemma MinReached(cs: seq<bytes>)
    requires cs != [] && |Flat(cs)| < U32
    ensures forall b :: 0 <= b < |cs| ==> MinOf(cs, LengthOf) <= |cs[b]|
    ensures exists b :: 0 <= b < |cs| && |cs[b]| == MinOf(cs, LengthOf)
  {
    hide MinOf, Flat;
    FlatAt(cs, 0);
    MinOfReached(cs, LengthOf);
    forall b | 0 <= b < |cs|
      ensures MinOf(cs, LengthOf) <= |cs[b]|
    {
      MinOfBound(cs, LengthOf, b);
    }
    MinOfBound(cs, LengthOf, 0);
    var b :| 0 <= b < |cs| && LengthOf(cs[b]) == MinOf(cs, LengthOf);
    assert |cs[b]| == MinOf(cs, LengthOf);
  }

  /** The size of the last block. */
  function LastSize(tbl: seq<Inode>, l: Layout, log2: nat): int {
    |Stream(tbl, l.sb.db)| - (|l.cblocks| - 1) * Pow2(log2)
  }

  lemma BlocksPlanned(tbl: seq<Inode>, o: Opts, log2: nat, c: Compressor, l: Layout)
    requires Plan(tbl, o, log2, c) == Some(l) && Fits(tbl, l)
    ensures l.cblocks != [] && |Flat(l.cblocks)| < U32 && LastSize(tbl, l, log2) >= 0
    ensures l.sb.bb == BlockBitsOf(l.cblocks, LastSize(tbl, l, log2)) && l.sb.bb.offset <= 32
            && l.sb.bb.compressedSize <= 32 && l.sb.bb.size <= 32
    ensures l.sb.mins.compressedSize == MinOf(l.cblocks, LengthOf)
  {
    hide MinOf, Plan, Words, DirBitsOf, InodeBitsOf, InodeTable, Stream, Flat, Blocks, BlockTable, Pow2, BlockBitsOf,
      SqueezeAll, Squeeze, MinsOf;
    Planned(tbl, o, log2, c, l);
    BlockExists(tbl, log2, 0);
    PlannedBlocks(tbl, o, log2, c, l);
    LastLength(Stream(tbl, l.sb.db), log2);
    BlockFits(l.cblocks, LastSize(tbl, l, log2), 0);
  }

  /**
    The block table: the super block's least compressed size is that of some block and of none above it; offsets,
    what the compressed sizes have above it, and the size of the last block have the least widths that hold them.
   */
  lemma BlockWidths(tbl: seq<Inode>, o: Opts, log2: nat, c: Compressor, l: Layout)
    requires Plan(tbl, o, log2, c) == Some(l) && Fits(tbl, l)
    ensures var cs, least := l.cblocks, l.sb.mins.compressedSize;
            && cs != [] && (forall b :: 0 <= b < |cs| ==> least <= |cs[b]|)
            && exists b :: 0 <= b < |cs| && |cs[b]| == least
    ensures Least(Iota(|l.cblocks|), (b: nat) => if b < |l.cblocks| then |Flat(l.cblocks[..b])| else 0, l.sb.bb.offset)
    ensures Least(l.cblocks, (y: bytes) => |y| - l.sb.mins.compressedSize, l.sb.bb.compressedSize)
    ensures Least<int>([LastSize(tbl, l, log2)], (v: int) => v, l.sb.bb.size)
  {
    hide MinOf, Least, Plan, Flat, BlockBitsOf, LastSize, Fits;
    BlocksPlanned(tbl, o, log2, c, l);
    var cs, last := l.cblocks, LastSize(tbl, l, log2);
    MinReached(cs);
    OffsetLeast(cs, last, l.sb.bb.offset);
    CsizeLeast(cs, last, l.sb.mins.compressedSize, l.sb.bb.compressedSize);
    SizeLeast(cs, last, l.sb.bb.size);
  }

  lemma OffsetLeast(cs: seq<bytes>, last: nat, w: nat)
    requires cs != [] && w == BlockBitsOf(cs, last).offset <= 32
    ensures Least(Iota(|cs|), (b: nat) => if b < |cs| then |Flat(cs[..b])| else 0, w)
  {
    hide MaxOf, MinOf, Blog, Flat, Pow2;
    MaxLeast(Offsets(cs), (o: nat) => o, 0, (o: nat) => o, w);
    var os := Offsets(cs);
    assert forall b :: 0 <= b < |cs| ==> os[b] == |Flat(cs[..b])|;
    if w > 1 {
      var b :| 0 <= b < |os| && os[b] >= Pow2(w - 1);
      assert Iota(|cs|)[b] == b;
    }
  }

  lemma CsizeLeast(cs: seq<bytes>, last: nat, least: nat, w: nat)
    requires cs != [] && least == MinOf(cs, LengthOf) && w == BlockBitsOf(cs, last).compressedSize <= 32
    ensures Least(cs, (y: bytes) => |y| - least, w)
  {
    hide MaxOf, MinOf, Blog, Flat, Pow2;
    MinOfBound(cs, LengthOf, 0);
    MaxLeast(cs, LengthOf, least, (y: bytes) => |y| - least, w);
  }

  lemma SizeLeast(cs: seq<bytes>, last: nat, w: nat)
    requires w == BlockBitsOf(cs, last).size <= 32
    ensures Least<int>([last], (v: int) => v, w)
  {
    hide BlogFrom, Pow2, MaxOf, MinOf;
    BlogLeast(last);
    assert [last][0] == last;
  }

  lemma LastLength(stream: bytes, log2: nat)
    requires stream != []
    ensures var blocks := Blocks(stream, log2);
            blocks != [] && |blocks[|blocks| - 1]| == |stream| - (|blocks| - 1) * Pow2(log2)
  {
    hide Pow2;
    BlockHolds(|stream|, log2, 0, 0);
    BlockInRange(|stream|, log2, |Blocks(stream, log2)| - 1);
  }
}
