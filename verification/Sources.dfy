/** How much a source tree may hold, and what that gives the table scanned from it. */
module Sources {
  import opened Seqs
  import opened Bits
  import opened Compressors
  import opened MergeSort
  import opened Format
  import opened Reader
  import opened Tables
  import opened Output
  import opened Packing
  import opened Scanning
  import opened Sharing
  import opened RoundTrip
  import opened Walking
  import opened Mounting
  import opened KernelRead
  import opened KernelImages
  import opened Limits

  /** How many items a tree has. */
  function Items<A>(t: Tree<A>): nat {
    1 + if t.Dir? then ItemsAll(t.kids) else 0
  }

  function ItemsAll<A>(kids: seq<Tree<A>>): nat {
    if kids == [] then 0 else Items(kids[0]) + ItemsAll(kids[1..])
  }

  /** A generous size of everything in a tree: the contents, the names, and twelve bytes for every entry. */
  function Weight<A>(t: Tree<A>): nat
    decreases t
  {
    match t
    case File(_, c) => |c|
    case Link(_, g) => |g| + 1
    case Dir(_, names, kids) => 8 + WeightAll(names, kids)
  }

  function WeightAll<A>(names: seq<bytes>, kids: seq<Tree<A>>): nat
    decreases kids
  {
    if kids == [] || names == [] then 0 else 12 + |names[0]| + Weight(kids[0]) + WeightAll(names[1..], kids[1..])
  }

  predicate StatFits(st: Stat) {
    Word(st.uid) && Word(st.gid) && Word(st.ctime) && Word(st.mtime)
  }

  ghost predicate StatsFit(t: Tree<Stat>) {
    StatFits(t.attr) && (t.Dir? ==> forall i :: 0 <= i < |t.kids| ==> StatsFit(t.kids[i]))
  }

  /** A directory of up to six million items and 2 GiB in all, with 32-bit ids and times. */
  ghost predicate ModestSource(t: Tree<Stat>) {
    Proper(t) && t.Dir? && Items(t) <= MANY && Weight(t) <= TWO_GIB && StatsFit(t)
  }

  // ---------- the weight of a table ----------

  function EntriesBulk(es: seq<Entry>): nat {
    if es == [] then 0 else EntriesBulk(es[..|es| - 1]) + 12 + |es[|es| - 1].name|
  }

  function Bulk(b: Body): nat {
    match b
    case RegularFile(c) => |c|
    case Directory(_, es) => 8 + EntriesBulk(es)
    case SymbolicLink(g) => |g| + 1
  }

  function Total(tbl: seq<Inode>): nat {
    if tbl == [] then 0 else Total(tbl[..|tbl| - 1]) + Bulk(tbl[|tbl| - 1].body)
  }

  lemma TotalPush(tbl: seq<Inode>, n: Inode)
    ensures Total(tbl + [n]) == Total(tbl) + Bulk(n.body)
  {
    assert (tbl + [n])[..|tbl|] == tbl;
  }

  lemma {:induction false} TotalUpdate(tbl: seq<Inode>, i: nat, n: Inode)
    requires i < |tbl|
    ensures Total(tbl[i := n]) + Bulk(tbl[i].body) == Total(tbl) + Bulk(n.body)
    ensures Bulk(tbl[i].body) <= Total(tbl)
  {
    hide Bulk;
    var last := |tbl| - 1;
    if i < last {
      TotalUpdate(tbl[..last], i, n);
      assert tbl[i := n][..last] == tbl[..last][i := n];
    } else {
      assert tbl[i := n][..last] == tbl[..last];
    }
  }

  lemma EntriesPush(es: seq<Entry>, e: Entry)
    ensures EntriesBulk(es + [e]) == EntriesBulk(es) + 12 + |e.name|
  {
    assert (es + [e])[..|es|] == es;
  }

  lemma {:induction false} EntriesWithin(es: seq<Entry>, e: Entry)
    requires e in es
    ensures |e.name| <= EntriesBulk(es)
  {
    if es[|es| - 1] != e { EntriesWithin(es[..|es| - 1], e); }
  }

  lemma {:induction false} EntriesCounted(es: seq<Entry>)
    ensures 12 * |es| <= EntriesBulk(es)
  {
    if es != [] { EntriesCounted(es[..|es| - 1]); }
  }

  /** The attributes are words, and every number a node mentions is one of the table's. */
  ghost predicate Decent(tbl: seq<Inode>) {
    forall k :: 0 <= k < |tbl| ==> DecentNode(tbl[k], |tbl|)
  }

  ghost predicate DecentNode(n: Inode, size: nat) {
    && Word(n.attr.owner) && Word(n.attr.group) && Word(n.attr.other) && Word(n.attr.uid) && Word(n.attr.gid)
    && Word(n.attr.ctime) && Word(n.attr.mtime)
    && (n.body.Directory? ==> n.body.parent < size && forall e :: e in n.body.entries ==>
         e.number < size && e.kind <= 3)
  }

  lemma RwxWord(mode: nat)
    ensures Rwx(mode / 64) < 8 && Rwx(mode / 8) < 8 && Rwx(mode) < 8
  {
  }

  /** What an item adds to the table, the items below it aside. */
  function OwnWeight(t: Tree<Stat>): nat {
    if t.Dir? then 8 else Weight(t)
  }

  function EntryWeight(parent: Option<nat>, name: bytes): nat {
    if parent.Some? then 12 + |name| else 0
  }

  lemma EntryGrows(tbl: seq<Inode>, parent: Option<nat>, e: Entry)
    requires parent.Some? ==> parent.value < |tbl| && tbl[parent.value].body.Directory?
    ensures Total(AddEntry(tbl, parent, e)) == Total(tbl) + EntryWeight(parent, e.name)
            && |AddEntry(tbl, parent, e)| == |tbl|
  {
    if parent.Some? {
      var p := tbl[parent.value];
      TotalUpdate(tbl, parent.value, p.(body := Directory(p.body.parent, p.body.entries + [e])));
      EntriesPush(p.body.entries, e);
    }
  }

  lemma NodeNewGrows(tbl: seq<Inode>, t: Tree<Stat>, name: bytes, parent: Option<nat>, dedup: bool)
    requires parent.Some? ==> parent.value < |tbl| && tbl[parent.value].body.Directory?
    ensures var tbl' := NodeNew(tbl, t, name, parent, dedup).0;
            Total(tbl') <= Total(tbl) + OwnWeight(t) + EntryWeight(parent, name) && |tbl'| <= |tbl| + 1
  {
    hide AddEntry, NumberFor, Total;
    var b := NewBody(t, parent);
    var n := NumberFor(tbl, b, dedup);
    EntryGrows(tbl, parent, Entry(n, Kind(b), name));
    TotalPush(AddEntry(tbl, parent, Entry(n, Kind(b), name)), Inode(name, AttrOf(t.attr), b));
  }

  lemma NodeNewDecent(tbl: seq<Inode>, t: Tree<Stat>, name: bytes, parent: Option<nat>, dedup: bool)
    requires parent.Some? ==> parent.value < |tbl| && tbl[parent.value].body.Directory?
    requires Decent(tbl) && StatFits(t.attr)
    ensures Decent(NodeNew(tbl, t, name, parent, dedup).0)
  {
    hide NodeNew, Rwx;
    NodeNewEnters(tbl, t, name, parent, dedup);
    RwxWord(t.attr.mode);
    var (tbl', n) := NodeNew(tbl, t, name, parent, dedup);
    forall k | 0 <= k < |tbl'|
      ensures DecentNode(tbl'[k], |tbl'|)
    {
      if k < |tbl| { assert DecentNode(tbl[k], |tbl|); }
    }
  }

  lemma {:induction false} VisitGrows(tbl: seq<Inode>, t: Tree<Stat>, name: bytes, parent: Option<nat>, dedup: bool)
    requires Proper(t) && (parent.Some? ==> parent.value < |tbl| && tbl[parent.value].body.Directory?)
    requires Decent(tbl) && StatsFit(t)
    ensures var tbl' := Visit(tbl, t, name, parent, dedup).0;
            && Total(tbl') <= Total(tbl) + Weight(t) + EntryWeight(parent, name) && |tbl'| <= |tbl| + Items(t)
            && Decent(tbl')
    decreases t
  {
    hide NodeNew, Total, Decent, StatFits;
    NodeNewGrows(tbl, t, name, parent, dedup);
    NodeNewEnters(tbl, t, name, parent, dedup);
    NodeNewDecent(tbl, t, name, parent, dedup);
    if t.Dir? {
      var (tbl1, n) := NodeNew(tbl, t, name, parent, dedup);
      VisitAllGrows(tbl1, t.names, t.kids, n, dedup);
    }
  }

  lemma {:induction false} VisitAllGrows(tbl: seq<Inode>, names: seq<bytes>, kids: seq<Tree<Stat>>, n: nat, dedup: bool)
    requires |names| == |kids| && (forall i :: 0 <= i < |kids| ==> Proper(kids[i]) && StatsFit(kids[i]))
    requires n < |tbl| && tbl[n].body.Directory? && Decent(tbl)
    ensures var tbl' := VisitAll(tbl, names, kids, n, dedup);
            && Total(tbl') <= Total(tbl) + WeightAll(names, kids) && |tbl'| <= |tbl| + ItemsAll(kids) && Decent(tbl')
    decreases kids
  {
    hide NodeNew, Total, Decent, StatsFit, Proper, Weight, Items, SameShape, KeptDirs, Represents, WithAttrs, Visit;
    if kids != [] {
      VisitGrows(tbl, kids[0], names[0], Some(n), dedup);
      var r := VisitRepresents(tbl, kids[0], names[0], Some(n), dedup);
      VisitAllGrows(Visit(tbl, kids[0], names[0], Some(n), dedup).0, names[1..], kids[1..], n, dedup);
    }
  }

  // ---------- the stream is no longer ----------

  function SumBy(s: seq<nat>, f: nat -> nat): nat {
    if s == [] then 0 else f(s[0]) + SumBy(s[1..], f)
  }

  lemma {:induction false} SumAppend(a: seq<nat>, b: seq<nat>, f: nat -> nat)
    ensures SumBy(a + b, f) == SumBy(a, f) + SumBy(b, f)
    decreases a
  {
    if a == [] {
      assert a + b == b;
    } else {
      SumAppend(a[1..], b, f);
      assert (a + b)[1..] == a[1..] + b;
    }
  }

  lemma SumTakeOut(s: seq<nat>, j: nat, f: nat -> nat)
    requires j < |s|
    ensures SumBy(s, f) == f(s[j]) + SumBy(s[..j] + s[j + 1..], f)
  {
    var front, back := s[..j], s[j..];
    assert s == front + back && back[1..] == s[j + 1..];
    SumAppend(front, back, f);
    SumAppend(front, back[1..], f);
  }

  /** A sum does not depend on the order. */
  lemma {:induction false} SumPermuted(a: seq<nat>, b: seq<nat>, f: nat -> nat)
    requires multiset(a) == multiset(b)
    ensures SumBy(a, f) == SumBy(b, f)
    decreases |a|
  {
    hide SumBy;
    if a == [] {
      EmptyToo(b);
    } else {
      var j := Matched(a, b);
      SumPermuted(a[..0] + a[1..], b[..j] + b[j + 1..], f);
      SumTakeOut(a, 0, f);
      SumTakeOut(b, j, f);
    }
  }

  lemma {:induction false} FlatSum(ss: seq<bytes>, s: seq<nat>, f: nat -> nat)
    requires |ss| == |s| && forall i :: 0 <= i < |s| ==> |ss[i]| == f(s[i])
    ensures |Flat(ss)| == SumBy(s, f)
  {
    if s != [] { FlatSum(ss[1..], s[1..], f); }
  }

  lemma {:induction false} DirectoryBelow(db: DirBits, es: seq<Entry>, n: nat)
    requires Narrow(db) && n <= |es|
    ensures EntryOff(db, es, n) <= 8 + EntriesBulk(es[..n])
  {
    if n > 0 {
      DirectoryBelow(db, es, n - 1);
      EntriesPush(es[..n - 1], es[n - 1]);
      assert es[..n] == es[..n - 1] + [es[n - 1]];
    }
  }

  lemma SerBelow(db: DirBits, b: Body)
    requires Narrow(db)
    ensures |Ser(db, b)| <= Bulk(b)
  {
    if b.Directory? {
      hide Ser, EntryOff, EntriesBulk;
      DirectoryLength(db, b.parent, b.entries);
      DirectoryBelow(db, b.entries, |b.entries|);
      assert b.entries[..|b.entries|] == b.entries;
    }
  }

  lemma {:induction false} IotaSum(tbl: seq<Inode>, f: nat -> nat, n: nat)
    requires n <= |tbl| && forall k :: 0 <= k < |tbl| ==> f(k) <= Bulk(tbl[k].body)
    ensures SumBy(Iota(n), f) <= Total(tbl[..n])
  {
    if n > 0 {
      IotaSum(tbl, f, n - 1);
      assert Iota(n) == Iota(n - 1) + [n - 1];
      SumAppend(Iota(n - 1), [n - 1], f);
      assert tbl[..n][..n - 1] == tbl[..n - 1];
      assert [n - 1][1..] == [];
    }
  }

  lemma StreamBelow(tbl: seq<Inode>, db: DirBits)
    requires Narrow(db)
    ensures |Stream(tbl, db)| <= Total(tbl)
  {
    hide Narrow, Order, Ser, Flat, Iota, Total, Bulk;
    var f := (k: nat) => if k < |tbl| then |Ser(db, tbl[k].body)| else 0;
    forall k | 0 <= k < |tbl|
      ensures f(k) <= Bulk(tbl[k].body)
    {
      SerBelow(db, tbl[k].body);
    }
    FlatSum(Packed(tbl, db), Order(tbl), f);
    OrderPermutes(tbl);
    SumPermuted(Order(tbl), Iota(|tbl|), f);
    IotaSum(tbl, f, |tbl|);
    assert tbl[..|tbl|] == tbl;
  }

  // ---------- modest sources ----------

  lemma DecentModest(tbl: seq<Inode>)
    requires Decent(tbl) && |tbl| <= MANY && Total(tbl) <= TWO_GIB
    ensures ModestNodes(tbl)
  {
    hide Total;
    forall n | n in tbl
      ensures ModestNode(n)
    {
      var k :| 0 <= k < |tbl| && tbl[k] == n;
      assert DecentNode(tbl[k], |tbl|);
      TotalUpdate(tbl, k, n);
      if n.body.Directory? {
        EntriesCounted(n.body.entries);
        forall e | e in n.body.entries
          ensures Word(|e.name|)
        {
          EntriesWithin(n.body.entries, e);
        }
      }
    }
  }

  /** A modest source gives a modest table, whether equal files are shared or not. */
  lemma ScanModest(t: Tree<Stat>, dedup: bool)
    requires ModestSource(t)
    ensures Modest(Scan(t, dedup)) && |Stream(Scan(t, dedup), DirBitsOf(Scan(t, dedup)))| <= Weight(t)
  {
    hide Total, Decent, Proper, StatsFit, Items, Weight, Stream, DirBitsOf, Narrow, Represents, SameShape, KeptDirs,
      WithAttrs;
    var tbl := Scan(t, dedup);
    assert Decent([]) by { ScanNothing(); }
    VisitGrows([], t, [], None, dedup);
    ScanNothing();
    var r := ScanRepresents(t, dedup);
    DecentModest(tbl);
    DirWidths(tbl);
    StreamBelow(tbl, DirBitsOf(tbl));
  }

  lemma ScanNothing()
    ensures Decent([]) && Total([]) == 0
  {
  }

  /** Of a modest source everything can be packed and nothing is cut off. */
  lemma SourceSuffices(t: Tree<Stat>, o: Opts, log2: nat, c: Compressor)
    requires ModestSource(t) && 12 <= log2 <= 20 && c.ctype < U32
    ensures var tbl := Scan(t, !o.noDuplicates);
            Packable(tbl, o, log2, c) && (Plan(tbl, o, log2, c).Some? ==> Fits(tbl, Plan(tbl, o, log2, c).value))
  {
    hide Scan, Packable, Plan, Fits, Modest, Proper, StatsFit, Items, Weight;
    var tbl := Scan(t, !o.noDuplicates);
    ScanModest(t, !o.noDuplicates);
    ModestPackable(tbl, o, log2, c);
    if Plan(tbl, o, log2, c).Some? { ModestFits(tbl, o, log2, c, Plan(tbl, o, log2, c).value); }
  }

  /** What the kernel can address: the sections before the entries take up less than 270 MB. */
  const KERNEL_LIMIT := 1_878_000_000

  /** Of a source within it every byte of the image has an int for an offset. */
  lemma OffsetsReach(t: Tree<Stat>, o: Opts, log2: nat, c: Compressor, l: Layout)
    requires ModestSource(t) && Weight(t) <= KERNEL_LIMIT && 12 <= log2 <= 20
    requires Plan(Scan(t, !o.noDuplicates), o, log2, c) == Some(l)
    ensures l.sb.entriesOffset + |Flat(l.cblocks)| <= INT_MAX
  {
    hide Scan, Plan, Modest, Proper, StatsFit, Items, Weight, Stream, DirBitsOf, Blocks, SqueezeAll, Squeeze, Flat,
      BlockBitsOf, BlockTable, InodeTable, InodeBitsOf, MinsOf, BlockCount, Pow2;
    var tbl := Scan(t, !o.noDuplicates);
    var stream := Stream(tbl, DirBitsOf(tbl));
    ScanModest(t, !o.noDuplicates);
    Planned(tbl, o, log2, c, l);
    PlannedLocated(tbl, o, log2, c, l);
    ModestInodes(tbl, o, log2);
    ItableIs(tbl, o, log2);
    SqueezedInodes(c, l.itable, l.citable);
    ModestBlocks(tbl, log2, c, l.cblocks);
    SqueezedShorter(Blocks(stream, log2), c, l.cblocks);
    FrontBlocks(stream, log2, l.cblocks, |l.cblocks|);
    FlatAll(l.cblocks);
    TablePlanned(tbl, o, log2, c, l);
  }

  lemma SqueezedInodes(c: Compressor, x: bytes, y: bytes)
    requires Squeeze(c, x) == Some(y)
    ensures |y| <= |x|
  {
  }

  lemma TablePlanned(tbl: seq<Inode>, o: Opts, log2: nat, c: Compressor, l: Layout)
    requires Plan(tbl, o, log2, c) == Some(l)
    ensures var blocks := Blocks(Stream(tbl, DirBitsOf(tbl)), log2);
            |blocks| > 0 ==> var last := |blocks[|blocks| - 1]|;
                             l.btable == BlockTable(BlockBitsOf(l.cblocks, last), l.cblocks, last)
  {
    hide DirBitsOf, InodeBitsOf, Stream, Blocks, BlockBitsOf, BlockTable, InodeTable, MinsOf, SqueezeAll, Squeeze,
      Flat, MinOf;
  }

  /** So a device that holds it carries it. */
  lemma SourceCarried(si: SuperInfo, t: Tree<Stat>, o: Opts, log2: nat, c: Compressor, l: Layout)
    requires ModestSource(t) && Weight(t) <= KERNEL_LIMIT && 12 <= log2 <= 20 && c.ctype < U32
    requires Plan(Scan(t, !o.noDuplicates), o, log2, c) == Some(l)
    requires forall i :: 0 <= i < |Image(l, o)| ==> si.device.bytes(i) == Image(l, o)[i]
    ensures si.Carries(Opened(l, c))
  {
    hide Scan, Plan, Fits, Packable, Proper, StatsFit, Items, Weight, Image, Flat, SuperInfo.Carries;
    SourceSuffices(t, o, log2, c);
    OffsetsReach(t, o, log2, c, l);
    ImageCarried(si, Scan(t, !o.noDuplicates), o, log2, c, l);
  }

  lemma EmptyModest(st: Stat)
    requires StatFits(st)
    ensures ModestSource(Dir(st, [], []))
  {
    var t: Tree<Stat> := Dir(st, [], []);
    assert ItemsAll(t.kids) == 0 && WeightAll(t.names, t.kids) == 0;
  }

  /** The assumptions can be met: an empty directory, stored unchanged, meets them all. */
  lemma EmptySource(st: Stat, o: Opts, log2: nat) returns (l: Layout)
    requires StatFits(st) && 12 <= log2 <= 20
    ensures var t: Tree<Stat> := Dir(st, [], []);
            && ModestSource(t) && Ordered(t) && NulFree(t) && Lawful(NoneCompressor())
            && Plan(Scan(t, !o.noDuplicates), o, log2, NoneCompressor()) == Some(l) && Fits(Scan(t, !o.noDuplicates), l)
  {
    hide Plan, Fits, Packable, Lawful, Scan, ModestSource;
    var t: Tree<Stat> := Dir(st, [], []);
    EmptyModest(st);
    NonePlans(Scan(t, !o.noDuplicates), o, log2);
    NoneLawful();
    l := Plan(Scan(t, !o.noDuplicates), o, log2, NoneCompressor()).value;
    SourceSuffices(t, o, log2, NoneCompressor());
  }

  /** A directory and an older file in it: the kernel restores neither of the file's times. */
  lemma OlderFile(o: Opts, log2: nat) returns (t: Tree<Stat>, l: Layout, k: nat)
    requires 12 <= log2 <= 20
    ensures t == Dir(Stat(493, 0, 0, 5, 5), [[97]], [File(Stat(420, 0, 0, 3, 2), [])]) && ModestSource(t)
    ensures var tbl := Scan(t, !o.noDuplicates);
            && Plan(tbl, o, log2, NoneCompressor()) == Some(l) && Fits(tbl, l) && k < |tbl|
            && tbl[k].body == RegularFile([]) && tbl[k].attr.ctime == 3 && tbl[k].attr.mtime == 2
            && HasNode(Opened(l, NoneCompressor()), k)
            && (!o.noCtime ==> KernelNodeFill(Opened(l, NoneCompressor()), k).ctime != 3)
            && (!o.noMtime ==> KernelNodeFill(Opened(l, NoneCompressor()), k).mtime != 2)
  {
    hide Plan, Fits, Packable, Lawful, Scan, ModestSource, Proper, HasNode, KernelNodeFill;
    var x: Tree<Stat> := File(Stat(420, 0, 0, 3, 2), []);
    t := Dir(Stat(493, 0, 0, 5, 5), [[97]], [x]);
    OneFileModest(t, x);
    var tbl, c := Scan(t, !o.noDuplicates), NoneCompressor();
    k := OneFileScanned(t, x, !o.noDuplicates);
    NonePlans(tbl, o, log2);
    NoneLawful();
    SourceSuffices(t, o, log2, c);
    l := Plan(tbl, o, log2, c).value;
    CtimeRecovers(tbl, o, log2, c, l, k);
    MtimeRecovers(tbl, o, log2, c, l, k);
  }

  lemma OneFileModest(t: Tree<Stat>, x: Tree<Stat>)
    requires t == Dir(Stat(493, 0, 0, 5, 5), [[97]], [x]) && x == File(Stat(420, 0, 0, 3, 2), [])
    ensures ModestSource(t)
  {
    var none: seq<Tree<Stat>>, names: seq<bytes> := [], [];
    assert t.kids[1..] == none && t.names[1..] == names;
    assert Items(x) == 1 && Weight(x) == 0;
    assert ItemsAll(none) == 0 && WeightAll(names, none) == 0;
    assert ItemsAll(t.kids) == Items(x) + ItemsAll(none);
    assert WeightAll(t.names, t.kids) == 13 + Weight(x) + WeightAll(names, none);
  }

  /** The nodes of a directory with one file. */
  lemma OneFileScanned(t: Tree<Stat>, x: Tree<Stat>, dedup: bool) returns (k: nat)
    requires Proper(t) && t.Dir? && t.kids == [x] && x.File?
    ensures k < |Scan(t, dedup)| && Scan(t, dedup)[k].body == RegularFile(x.content)
            && Scan(t, dedup)[k].attr == AttrOf(x.attr)
    ensures |Scan(t, dedup)| > 0 && Scan(t, dedup)[0].attr == AttrOf(t.attr)
  {
    hide Scan, Proper, AttrOf, Leaves;
    var r: Tree<Attr>;
    if dedup {
      r := SharingFaithful(t);
      OneLeaf(t, x);
    } else {
      r := ScanRepresents(t, false);
    }
    assert WithAttrs(t).kids[0] == WithAttrs(x);
    k := Scan(t, dedup)[0].body.entries[0].number;
  }

  lemma OneLeaf(t: Tree<Stat>, x: Tree<Stat>)
    requires t.Dir? && t.kids == [x] && x.File?
    ensures Uniform(Leaves(t))
  {
    hide AttrOf;
    forall y | y in Leaves(t)
      ensures y == (RegularFile(x.content), AttrOf(x.attr))
    {
      var i :| 0 <= i < |t.kids| && y in Leaves(t.kids[i]);
      assert t.kids[i] == x;
    }
  }
}
