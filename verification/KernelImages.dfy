/** The kernel's operations on the images the builder makes. */
module KernelImages {
  import opened Seqs
  import opened Bits
  import opened Fields
  import opened MergeSort
  import opened Compressors
  import opened Format
  import opened Reader
  import opened Widths
  import opened Tables
  import opened Mounting
  import opened Scanning
  import opened RoundTrip
  import opened RandomAccess
  import opened Walking
  import opened KernelRead
  import opened KernelDir

  lemma CarriesEntries(si: SuperInfo, m: Mounted, img: bytes)
    requires forall i :: 0 <= i < |img| ==> si.device.bytes(i) == img[i]
    requires |m.entries| > 0 ==> m.sb.entriesOffset + |m.entries| <= |img|
    requires m.sb.entriesOffset + |m.entries| <= INT_MAX
    requires forall j :: 0 <= j < |m.entries| ==> m.entries[j] == img[m.sb.entriesOffset + j]
    requires forall b :: 0 <= b < m.sb.blocks && HasBlock(m, b) ==> BlockFill(m, b).compressedSize <= m.sb.blockSize
    ensures si.Carries(m)
  {
    hide HasBlock, BlockFill;
  }

  /** No block got longer by compressing, so each fits the scratch buffer. */
  lemma BlocksFit(tbl: seq<Inode>, o: Opts, log2: nat, c: Compressor, l: Layout, m: Mounted)
    requires Plan(tbl, o, log2, c) == Some(l) && Fits(tbl, l) && m == Opened(l, c)
    ensures forall b :: 0 <= b < m.sb.blocks && HasBlock(m, b) ==> BlockFill(m, b).compressedSize <= m.sb.blockSize
  {
    hide Plan, Flat, Words, HasBlock, BlockFill, DirBitsOf, Stream, Blocks, Pow2;
    Planned(tbl, o, log2, c, l);
    forall b | 0 <= b < m.sb.blocks && HasBlock(m, b)
      ensures BlockFill(m, b).compressedSize <= m.sb.blockSize
    {
      BlockFillRecovers(tbl, o, log2, c, l, b);
      BlockLengths(Stream(tbl, l.sb.db), log2, b);
    }
  }

  /** A device holding the image carries its entries section, as far as an int reaches. */
  lemma ImageCarried(si: SuperInfo, tbl: seq<Inode>, o: Opts, log2: nat, c: Compressor, l: Layout)
    requires Plan(tbl, o, log2, c) == Some(l) && Fits(tbl, l) && l.sb.entriesOffset + |Flat(l.cblocks)| <= INT_MAX
    requires forall i :: 0 <= i < |Image(l, o)| ==> si.device.bytes(i) == Image(l, o)[i]
    ensures si.Carries(Opened(l, c))
  {
    hide Plan, Image, Located, Flat, Words, HasBlock, BlockFill, Section, SuperBytes, Readable, SuperInfo.Carries,
      SuperOf;
    ImageFront(l, o);
    PlannedLocated(tbl, o, log2, c, l);
    SectionsFound(l, o);
    EntriesAt(Image(l, o), l);
    BlocksFit(tbl, o, log2, c, l, Opened(l, c));
    CarriesEntries(si, Opened(l, c), Image(l, o));
  }

  lemma EntriesAt(img: bytes, l: Layout)
    requires Located(l) && Section(img, l.sb.entriesOffset, l.sb.entriesSize) == Some(Flat(l.cblocks))
    ensures |Flat(l.cblocks)| > 0 ==> l.sb.entriesOffset + |Flat(l.cblocks)| <= |img|
    ensures forall j :: 0 <= j < |Flat(l.cblocks)| ==> Flat(l.cblocks)[j] == img[l.sb.entriesOffset + j]
  {
    hide Flat;
  }

  // ---------- directories ----------

  lemma EntryWidths(tbl: seq<Inode>, k: nat)
    requires k < |tbl| && tbl[k].body.Directory? && tbl[k].body.entries != []
    ensures EntryHeadSize(DirBitsOf(tbl)) > 0
  {
    hide Blog, MaxOf;
    var es := tbl[k].body.entries;
    MaxOfBound(es, EntryNumber, 0);
    MaxOfBound(tbl, MaxEntryNumber, k);
    BlogLeast(MaxOf(tbl, MaxEntryNumber));
  }

  lemma EntryExtent(db: DirBits, e: Entry)
    ensures |SerEntry(db, e)| == EntryHeadSize(db) + |e.name|
  {
    hide Record, Pack;
    DirPos(db);
    RecordLength(EntryWs(db), [e.number, |e.name|, e.kind]);
  }

  lemma {:induction false} EntriesLength(db: DirBits, es: seq<Entry>, e: nat)
    requires e <= |es|
    ensures EntryOff(db, es, e) == HeaderSize(db) + |Flat(MapSeq((x: Entry) => SerEntry(db, x), es)[..e])|
  {
    hide SerEntry;
    if e > 0 {
      EntriesLength(db, es, e - 1);
      FlatTake(MapSeq((x: Entry) => SerEntry(db, x), es), e - 1);
      EntryExtent(db, es[e - 1]);
    }
  }

  /** The last entry ends where the directory does. */
  lemma DirectoryLength(db: DirBits, parent: nat, es: seq<Entry>)
    ensures |Ser(db, Directory(parent, es))| == EntryOff(db, es, |es|)
  {
    hide Record, Pack, SerEntry, Flat;
    DirPos(db);
    RecordLength(HeaderWs(db), [parent, |es|]);
    EntriesLength(db, es, |es|);
    FlatAll(MapSeq((x: Entry) => SerEntry(db, x), es));
  }

  /**
    Every directory of a built image can be listed and searched by the kernel, and a complete listing
    leaves the position at 3 and the directory's size.
   */
  lemma ImageDirectory(tbl: seq<Inode>, o: Opts, log2: nat, c: Compressor, l: Layout, k: nat)
    requires Plan(tbl, o, log2, c) == Some(l) && Fits(tbl, l) && Lawful(c) && k < |tbl| && tbl[k].body.Directory?
    ensures HasNode(Opened(l, c), k)
    ensures var m, b := Opened(l, c), tbl[k].body;
            var node := KernelNodeFill(m, k);
            && IsDirectory(m, node, b.parent, b.entries)
            && PosAt(m.sb.db, b.entries, |b.entries| + 2) == 3 + node.size
  {
    hide NodeFill, HasNode, DirBitsOf, Ser, Plan, Fits, Sane, Lawful, ParseDir, Spans, ReadFrom, OffsetOf, EntryOff;
    NodeContent(tbl, o, log2, c, l, k);
    DirContent(tbl, o, log2, c, l, k);
    Planned(tbl, o, log2, c, l);
    var m, b := Opened(l, c), tbl[k].body;
    SaneNode(m, k);
    DirectoryLength(l.sb.db, b.parent, b.entries);
    if b.entries != [] { EntryWidths(tbl, k); }
  }

  /** In every directory of a scanned image the kernel's lookup may stop early. */
  lemma ScannedDirectory(t: Tree<Stat>, o: Opts, log2: nat, c: Compressor, l: Layout, k: nat)
    requires Proper(t) && Ordered(t)
    requires var tbl := Scan(t, !o.noDuplicates);
             && Plan(tbl, o, log2, c) == Some(l) && Fits(tbl, l) && Lawful(c) && k < |tbl| && tbl[k].body.Directory?
    ensures HasNode(Opened(l, c), k)
    ensures var m, b := Opened(l, c), Scan(t, !o.noDuplicates)[k].body;
            IsDirectory(m, KernelNodeFill(m, k), b.parent, b.entries) && NamesAscend(NamesOf(b.entries))
  {
    hide Plan, Fits, Lawful, HasNode, NodeFill, IsDirectory, Scan, PosAt, NamesAscend, Proper, Ordered;
    var tbl := Scan(t, !o.noDuplicates);
    ScanAscends(t, !o.noDuplicates);
    ImageDirectory(tbl, o, log2, c, l, k);
  }
}
