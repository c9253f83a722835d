/** The tree the kernel shows: following a path by lookups from the root of a built image. */
module KernelTree {
  import opened Seqs
  import opened Bits
  import opened Compressors
  import opened Format
  import opened Reader
  import opened Tables
  import opened Mounting
  import opened Scanning
  import opened Sharing
  import opened RoundTrip
  import opened Devices
  import opened KernelRead
  import opened KernelDir
  import opened KernelImages

  // ---------- paths in an image ----------

  function KindOfItem<A>(t: Tree<A>): nat {
    match t
    case File(_, _) => TYPE_REGULAR_FILE
    case Link(_, _) => TYPE_SYMBOLIC_LINK
    case Dir(_, _, _) => TYPE_DIRECTORY
  }

  /** Node `k`, as the kernel fills it, is `x`: its type, its bytes, and for a directory its listing. */
  ghost predicate Shows<A>(m: Mounted, k: nat, x: Tree<A>) {
    && Reachable(m, k)
    && var node := KernelNodeFill(m, k);
       && node.kind == KindOfItem(x)
       && match x
          case File(_, c) => Content(m, node) == Some(c)
          case Link(_, g) => Content(m, node) == Some(g + [0])
          case Dir(_, names, kids) =>
            exists parent: nat, es: seq<Entry> ::
              && IsDirectory(m, node, parent, es) && NamesAscend(NamesOf(es)) && NamesOf(es) == names && |kids| == |es|
              && forall i :: 0 <= i < |es| ==> es[i].kind == KindOfItem(kids[i])
  }

  /** The entries of node `k`, when it is a directory that can be read. */
  ghost function EntriesAt(m: Mounted, k: nat): Option<seq<Entry>> {
    if Reachable(m, k) && NodeFill(m, k).kind == TYPE_DIRECTORY then
      match ParseDir(m.sb.db, Content(m, NodeFill(m, k)).value)
      case None => None
      case Some(b) => Some(b.entries)
    else None
  }

  /** The node at a path below node `k`, one lookup after the other. */
  ghost function Reach(m: Mounted, k: nat, path: seq<bytes>): Option<nat>
    decreases |path|
  {
    if path == [] then Some(k)
    else
      match EntriesAt(m, k)
      case None => None
      case Some(es) =>
        match FirstNamed(es, path[0])
        case None => None
        case Some(j) => Reach(m, j, path[1..])
  }

  lemma {:induction false} FirstPlaced(es: seq<Entry>, name: bytes)
    ensures FirstNamed(es, name)
         == match Place(NamesOf(es), name) case None => None case Some(i) => Some(es[i].number)
  {
    if es != [] {
      FirstPlaced(es[1..], name);
      assert NamesOf(es)[1..] == NamesOf(es[1..]);
    }
  }

  /** A node that stands for a tree shows it. */
  lemma ShowsRepresented(tbl: seq<Inode>, o: Opts, log2: nat, c: Compressor, l: Layout, lo: nat, k: nat, x: Tree<Attr>)
    requires Plan(tbl, o, log2, c) == Some(l) && Fits(tbl, l) && Lawful(c) && Ascends(tbl, 0)
             && Represents(tbl, lo, k, x)
    ensures Shows(Opened(l, c), k, x)
    ensures EntriesAt(Opened(l, c), k) == if x.Dir? then Some(tbl[k].body.entries) else None
  {
    hide Plan, Fits, Lawful, Reachable, NodeFill, ReadFrom, Spans, ParseDir, HasNode, IsDirectory, NamesAscend,
      DirBitsOf;
    var m := Opened(l, c);
    NodeContent(tbl, o, log2, c, l, k);
    ReachableHas(m, k);
    if x.Dir? {
      ImageDirectory(tbl, o, log2, c, l, k);
      DirContent(tbl, o, log2, c, l, k);
      var es := tbl[k].body.entries;
      assert NamesOf(es) == x.names;
      forall i | 0 <= i < |es|
        ensures es[i].kind == KindOfItem(x.kids[i])
      {
        assert Represents(tbl, k + 1, es[i].number, x.kids[i]);
      }
    }
  }

  lemma ReachableHas(m: Mounted, k: nat)
    requires Reachable(m, k)
    ensures HasNode(m, k)
  {
    hide HasNode, NodeFill;
  }

  /** Lookups from a node that stands for a tree lead where the tree's paths do. */
  lemma {:induction false} ReachRepresented(tbl: seq<Inode>, o: Opts, log2: nat, c: Compressor, l: Layout, lo: nat,
                                            k: nat, x: Tree<Attr>, path: seq<bytes>)
    requires Plan(tbl, o, log2, c) == Some(l) && Fits(tbl, l) && Lawful(c) && Ascends(tbl, 0)
             && Represents(tbl, lo, k, x)
    ensures Reach(Opened(l, c), k, path).Some? <==> ItemAt(x, path).Some?
    ensures Reach(Opened(l, c), k, path).Some? ==>
              var j := Reach(Opened(l, c), k, path).value;
              Shows(Opened(l, c), j, ItemAt(x, path).value) && j < |tbl| && tbl[j].attr == ItemAt(x, path).value.attr
    decreases |path|
  {
    hide Plan, Fits, Lawful, Shows, EntriesAt, FirstNamed, Ascends;
    ShowsRepresented(tbl, o, log2, c, l, lo, k, x);
    if path != [] && x.Dir? {
      var es := tbl[k].body.entries;
      assert NamesOf(es) == x.names;
      FirstPlaced(es, path[0]);
      var i := Place(x.names, path[0]);
      if i.Some? { ReachRepresented(tbl, o, log2, c, l, k + 1, es[i.value].number, x.kids[i.value], path[1..]); }
    }
  }

  lemma {:induction false} ShowsSame<A, B>(m: Mounted, k: nat, a: Tree<A>, b: Tree<B>)
    requires SameShape(a, b) && Shows(m, k, b)
    ensures Shows(m, k, a)
  {
    hide Reachable, KernelNodeFill, HasNode, Content, IsDirectory, NamesAscend;
    if a.Dir? {
      forall i | 0 <= i < |a.kids|
        ensures KindOfItem(a.kids[i]) == KindOfItem(b.kids[i])
      {
        assert SameShape(a.kids[i], b.kids[i]);
      }
    }
  }

  /**
    The kernel shows the source: in the image of any tree whose siblings are in order, with sharing on or
    off, a path leads somewhere by lookups from the root exactly when there is an item at it in the
    source, and then to a node with that item's type, bytes and listing.
   */
  lemma KernelShowsSource(t: Tree<Stat>, o: Opts, log2: nat, c: Compressor, l: Layout, path: seq<bytes>)
    requires Proper(t) && t.Dir? && Ordered(t) && Lawful(c)
    requires Plan(Scan(t, !o.noDuplicates), o, log2, c) == Some(l) && Fits(Scan(t, !o.noDuplicates), l)
    ensures var m := Opened(l, c);
            && m.sb.root == 0
            && (Reach(m, 0, path).Some? <==> ItemAt(t, path).Some?)
            && (Reach(m, 0, path).Some? ==> Shows(m, Reach(m, 0, path).value, ItemAt(t, path).value))
  {
    hide Plan, Fits, Lawful, Scan, Proper, Ordered, Represents, SameShape, KeptDirs, Reach, ItemAt, Shows, Ascends;
    var tbl := Scan(t, !o.noDuplicates);
    var r := ScanRepresents(t, !o.noDuplicates);
    ScanAscends(t, !o.noDuplicates);
    RootIsZero(tbl, o, log2, c, l);
    ReachRepresented(tbl, o, log2, c, l, 0, 0, r, path);
    ItemAtSame(t, r, path);
    var k, x := Reach(Opened(l, c), 0, path), ItemAt(t, path);
    if x.Some? { ShowsSame(Opened(l, c), k.value, x.value, ItemAt(r, path).value); }
  }

  // ---------- attributes and parents ----------

  lemma {:induction false} ItemAtExtracted(r: Tree<Attr>, o: Opts, path: seq<bytes>)
    ensures ItemAt(Extracted(r, o), path)
         == match ItemAt(r, path) case None => None case Some(x) => Some(Extracted(x, o))
    decreases |path|
  {
    hide Shown;
    if path != [] && r.Dir? {
      var i := Place(r.names, path[0]);
      if i.Some? && i.value < |r.kids| { ItemAtExtracted(r.kids[i.value], o, path[1..]); }
    }
  }

  lemma {:induction false} ItemAtWithAttrs(t: Tree<Stat>, path: seq<bytes>)
    ensures ItemAt(WithAttrs(t), path)
         == match ItemAt(t, path) case None => None case Some(x) => Some(WithAttrs(x))
    decreases |path|
  {
    hide AttrOf;
    if path != [] && t.Dir? {
      var i := Place(t.names, path[0]);
      if i.Some? && i.value < |t.kids| { ItemAtWithAttrs(t.kids[i.value], path[1..]); }
    }
  }

  /** What the kernel shows of a node's attributes. */
  lemma AttrsShown(tbl: seq<Inode>, o: Opts, log2: nat, c: Compressor, l: Layout, k: nat)
    requires Plan(tbl, o, log2, c) == Some(l) && Fits(tbl, l) && k < |tbl|
    ensures HasNode(Opened(l, c), k) && OwnerFrom(KernelNodeFill(Opened(l, c), k)) == Shown(tbl[k].attr, o)
  {
    hide Plan, Fits, NodeFill, HasNode, DirBitsOf, SizeOf, OffsetOf, Rwx, Pow2;
    NodeFillRecovers(tbl, o, log2, c, l, k);
  }

  /**
    The modes and ids the kernel shows for the item at a path are the source's, up to the options, when
    nothing is shared or what is shared shows the same ones; and without sharing its times are, exactly when
    they are not before the root's.
   */
  lemma KernelShowsAttrs(t: Tree<Stat>, o: Opts, log2: nat, c: Compressor, l: Layout, path: seq<bytes>)
    requires Proper(t) && t.Dir? && Ordered(t) && Lawful(c)
    requires Plan(Scan(t, !o.noDuplicates), o, log2, c) == Some(l) && Fits(Scan(t, !o.noDuplicates), l)
    requires o.noDuplicates || Alike(Leaves(t), o)
    requires ItemAt(t, path).Some? && Reach(Opened(l, c), 0, path).Some?
    ensures HasNode(Opened(l, c), Reach(Opened(l, c), 0, path).value)
    ensures var node := KernelNodeFill(Opened(l, c), Reach(Opened(l, c), 0, path).value);
            var st := ItemAt(t, path).value.attr;
            && OwnerFrom(node) == Shown(AttrOf(st), o)
            && (o.noDuplicates && !o.noCtime ==> (node.ctime == st.ctime <==> st.ctime >= t.attr.ctime))
            && (o.noDuplicates && !o.noMtime ==> (node.mtime == st.mtime <==> st.mtime >= t.attr.mtime))
  {
    hide Plan, Fits, Lawful, Scan, Proper, Ordered, Represents, SameShape, KeptDirs, Reach, ItemAt, Shows, Ascends,
      Extracted, WithAttrs, Alike, Leaves, KernelNodeFill, HasNode, Shown, OwnerFrom, AttrOf;
    var tbl := Scan(t, !o.noDuplicates);
    var k := Reach(Opened(l, c), 0, path).value;
    ScanAscends(t, !o.noDuplicates);
    var r := Scanned(t, o);
    ReachRepresented(tbl, o, log2, c, l, 0, 0, r, path);
    AttrsShown(tbl, o, log2, c, l, k);
    ItemAtExtracted(r, o, path);
    ItemAtExtracted(WithAttrs(t), o, path);
    ItemAtWithAttrs(t, path);
    AttrsOf(ItemAt(r, path).value, ItemAt(t, path).value, o);
    if o.noDuplicates {
      var r' := ScanRepresents(t, false);
      ReachRepresented(tbl, o, log2, c, l, 0, 0, r', path);
      RootAttr(tbl, t);
      PlainAttr(ItemAt(t, path).value);
      TimesOf(t.attr);
      TimesOf(ItemAt(t, path).value.attr);
      CtimeRecovers(tbl, o, log2, c, l, k);
      MtimeRecovers(tbl, o, log2, c, l, k);
    }
  }

  lemma AttrsOf(x: Tree<Attr>, y: Tree<Stat>, o: Opts)
    requires Extracted(x, o) == Extracted(WithAttrs(y), o)
    ensures Shown(x.attr, o) == Shown(AttrOf(y.attr), o)
  {
    hide Shown, AttrOf;
  }

  lemma RootAttr(tbl: seq<Inode>, t: Tree<Stat>)
    requires Represents(tbl, 0, 0, WithAttrs(t))
    ensures tbl != [] && tbl[0].attr == AttrOf(t.attr)
  {
    hide AttrOf;
  }

  lemma PlainAttr(x: Tree<Stat>)
    ensures WithAttrs(x).attr == AttrOf(x.attr)
  {
    hide AttrOf;
  }

  lemma TimesOf(st: Stat)
    ensures AttrOf(st).ctime == st.ctime && AttrOf(st).mtime == st.mtime
  {
    hide Rwx;
  }

  /** The ".." of a directory found by a lookup is the directory it was looked up in. */
  lemma DotDotLeadsBack(t: Tree<Stat>, o: Opts, log2: nat, c: Compressor, l: Layout, path: seq<bytes>, name: bytes)
    requires Proper(t) && t.Dir? && Ordered(t) && Lawful(c)
    requires Plan(Scan(t, !o.noDuplicates), o, log2, c) == Some(l) && Fits(Scan(t, !o.noDuplicates), l)
    requires ItemAt(t, path + [name]).Some? && ItemAt(t, path + [name]).value.Dir?
    ensures var m := Opened(l, c);
            && Reach(m, 0, path).Some? && Reach(m, 0, path + [name]).Some?
               && HasNode(m, Reach(m, 0, path + [name]).value)
            && var k, j := Reach(m, 0, path).value, Reach(m, 0, path + [name]).value;
               exists es :: IsDirectory(m, KernelNodeFill(m, j), k, es)
  {
    hide Plan, Fits, Lawful, Scan, Proper, Ordered, Represents, SameShape, KeptDirs, Reach, ItemAt, Shows, Ascends,
      Parents, KernelNodeFill, HasNode, IsDirectory, EntriesAt, FirstNamed;
    var m, tbl := Opened(l, c), Scan(t, !o.noDuplicates);
    var r := ScanRepresents(t, !o.noDuplicates);
    ScanAscends(t, !o.noDuplicates);
    ScanParents(t, !o.noDuplicates);
    ReachRepresented(tbl, o, log2, c, l, 0, 0, r, path + [name]);
    ItemAtSame(t, r, path + [name]);
    ReachOn(m, 0, path, name);
    var k, j := Reach(m, 0, path).value, Reach(m, 0, path + [name]).value;
    ReachStep(m, k, name);
    ReachRepresented(tbl, o, log2, c, l, 0, 0, r, path);
    FirstListed(EntriesAt(m, k).value, name);
    ListedParent(tbl, o, log2, c, l, k, j, ItemAt(r, path + [name]).value, name);
  }

  lemma FirstListed(es: seq<Entry>, name: bytes)
    requires FirstNamed(es, name).Some?
    ensures exists i :: 0 <= i < |es| && es[i].number == FirstNamed(es, name).value
  {
    FirstPlaced(es, name);
  }

  lemma ListedParent(tbl: seq<Inode>, o: Opts, log2: nat, c: Compressor, l: Layout, k: nat, j: nat, x: Tree<Attr>,
                     name: bytes)
    requires Plan(tbl, o, log2, c) == Some(l) && Fits(tbl, l) && Lawful(c) && Parents(tbl) && k < |tbl| && j < |tbl|
    requires Shows(Opened(l, c), j, x) && x.Dir?
    requires EntriesAt(Opened(l, c), k).Some?
    requires exists i :: 0 <= i < |EntriesAt(Opened(l, c), k).value| && EntriesAt(Opened(l, c), k).value[i].number == j
    ensures HasNode(Opened(l, c), j) && exists es :: IsDirectory(Opened(l, c), KernelNodeFill(Opened(l, c), j), k, es)
  {
    hide Plan, Fits, Lawful, Reachable, ReadFrom, Spans, ParseDir, HasNode, IsDirectory, DirBitsOf, NodeFill, Shows,
      EntriesAt;
    TableKind(tbl, o, log2, c, l, j, x);
    TableEntries(tbl, o, log2, c, l, k);
    ImageDirectory(tbl, o, log2, c, l, j);
  }

  lemma TableKind(tbl: seq<Inode>, o: Opts, log2: nat, c: Compressor, l: Layout, j: nat, x: Tree<Attr>)
    requires Plan(tbl, o, log2, c) == Some(l) && Fits(tbl, l) && j < |tbl| && Shows(Opened(l, c), j, x) && x.Dir?
    ensures tbl[j].body.Directory?
  {
    hide Plan, Fits, Reachable, ReadFrom, Spans, HasNode, IsDirectory, DirBitsOf, NodeFill, SizeOf, OffsetOf,
      NamesAscend, Pow2;
    NodeFillRecovers(tbl, o, log2, c, l, j);
  }

  lemma TableEntries(tbl: seq<Inode>, o: Opts, log2: nat, c: Compressor, l: Layout, k: nat)
    requires Plan(tbl, o, log2, c) == Some(l) && Fits(tbl, l) && Lawful(c) && k < |tbl|
             && EntriesAt(Opened(l, c), k).Some?
    ensures tbl[k].body.Directory? && EntriesAt(Opened(l, c), k) == Some(tbl[k].body.entries)
  {
    hide Plan, Fits, Lawful, Reachable, ReadFrom, Spans, HasNode, DirBitsOf, NodeFill, SizeOf, OffsetOf, ParseDir,
      Pow2, Ser;
    NodeContent(tbl, o, log2, c, l, k);
    if tbl[k].body.Directory? {
      DirContent(tbl, o, log2, c, l, k);
    }
  }

  // ---------- walking a path ----------

  lemma {:induction false} ReachOn(m: Mounted, k: nat, path: seq<bytes>, name: bytes)
    ensures Reach(m, k, path + [name])
         == match Reach(m, k, path) case None => None case Some(j) => Reach(m, j, [name])
    decreases |path|
  {
    hide EntriesAt, FirstNamed;
    var p := path + [name];
    if path == [] {
      assert p == [name];
    } else {
      assert p[1..] == path[1..] + [name];
      var es := EntriesAt(m, k);
      if es.Some? {
        var j := FirstNamed(es.value, path[0]);
        if j.Some? { ReachOn(m, j.value, path[1..], name); }
      }
    }
  }

  lemma ReachNothing(m: Mounted, k: nat)
    ensures Reach(m, k, []) == Some(k)
  {
  }

  lemma ReachStep(m: Mounted, k: nat, name: bytes)
    ensures Reach(m, k, [name]) == match EntriesAt(m, k) case None => None case Some(es) => FirstNamed(es, name)
  {
    hide EntriesAt, FirstNamed;
    var none: seq<bytes> := [];
    assert [name][1..] == none;
  }

  /** A path that has failed fails with everything behind it. */
  lemma {:induction false} ReachNowhere(m: Mounted, k: nat, path: seq<bytes>, n: nat)
    requires n <= |path| && Reach(m, k, path[..n]).None?
    ensures Reach(m, k, path).None?
    decreases |path| - n
  {
    hide Reach;
    if n < |path| {
      ReachOn(m, k, path[..n], path[n]);
      assert path[..n + 1] == path[..n] + [path[n]];
      ReachNowhere(m, k, path, n + 1);
    } else {
      assert path[..n] == path;
    }
  }

  /** What a directory node offers its lookup. */
  lemma ShownDirectory<A>(m: Mounted, k: nat, x: Tree<A>) returns (parent: nat, es: seq<Entry>)
    requires Shows(m, k, x) && x.Dir?
    ensures HasNode(m, k) && Readable(m.sb) && IsDirectory(m, KernelNodeFill(m, k), parent, es)
            && NamesAscend(NamesOf(es))
    ensures EntriesAt(m, k) == Some(es) && NodeFill(m, k).kind == TYPE_DIRECTORY
  {
    hide NodeFill, HasNode, HasBlock, BlockFill, Readable, NamesAscend, ParseDir, Spans, ReadFrom;
    parent, es :| IsDirectory(m, KernelNodeFill(m, k), parent, es) && NamesAscend(NamesOf(es));
  }

  lemma ShownOther<A>(m: Mounted, k: nat, x: Tree<A>)
    requires Shows(m, k, x)
    ensures HasNode(m, k) && Readable(m.sb) && NodeFill(m, k).kind == KindOfItem(x)
    ensures !x.Dir? ==> EntriesAt(m, k) == None
  {
    hide NodeFill, HasNode, HasBlock, BlockFill, Readable, NamesAscend, ParseDir, Spans, ReadFrom, IsDirectory;
  }

  /**
    The walk along a path, a lookup in each directory on it: on the image of an ordered source it finds
    the node the path leads to, unless the device fails.
   */
  method Walk(si: SuperInfo, path: seq<bytes>, signed: bool, ghost t: Tree<Stat>, ghost o: Opts, ghost log2: nat,
              ghost c: Compressor, ghost l: Layout)
    returns (ok: bool, r: Option<nat>)
    requires Proper(t) && t.Dir? && Ordered(t) && Lawful(c)
    requires Plan(Scan(t, !o.noDuplicates), o, log2, c) == Some(l) && Fits(Scan(t, !o.noDuplicates), l)
    requires si.Ready(Opened(l, c)) && [] !in path
    modifies si.device
    ensures si.Ready(Opened(l, c))
    ensures ok ==> r == Reach(Opened(l, c), 0, path)
    ensures si.Healthy() ==> ok
  {
    hide Plan, Fits, Lawful, Scan, Proper, Ordered, Reach, ItemAt, Shows, IsDirectory, NamesAscend, Sane, Readable,
      HasNode, SuperInfo.Carries, Balanced, NodeFill, FirstNamed, EntriesAt, Nameable, ExitScan;
    ghost var m := Opened(l, c);
    KernelShowsSource(t, o, log2, c, l, []);
    ReachNothing(m, 0);
    assert path[..0] == [];
    var n, i := si.volume.sb.root, 0;
    while i < |path|
      invariant 0 <= i <= |path| && si.Ready(m) && Reach(m, 0, path[..i]) == Some(n)
    {
      KernelShowsSource(t, o, log2, c, l, path[..i]);
      ghost var x := ItemAt(t, path[..i]).value;
      ShownOther(m, n, x);
      ReachOn(m, 0, path[..i], path[i]);
      ReachStep(m, n, path[i]);
      assert path[..i + 1] == path[..i] + [path[i]];
      var node := si.volume.FillNodeInKernel(n, m);
      if node.kind != TYPE_DIRECTORY {
        ReachNowhere(m, 0, path, i + 1);
        return true, None;
      }
      ghost var parent, es := ShownDirectory(m, n, x);
      AscendingExit(es, path[i], signed);
      var found;
      ok, found := Lookup(si, node, path[i], signed, m, parent, es);
      if !ok {
        return false, None;
      }
      if found.None? {
        ReachNowhere(m, 0, path, i + 1);
        return true, None;
      }
      n := found.value;
      i := i + 1;
    }
    assert path[..i] == path;
    return true, Some(n);
  }

  lemma ShownFile<A>(m: Mounted, k: nat, x: Tree<A>)
    requires Shows(m, k, x) && x.File?
    ensures HasNode(m, k) && Readable(m.sb) && Sane(m)
    ensures var node := KernelNodeFill(m, k);
            && node.kind == TYPE_REGULAR_FILE && Spans(m, node.block, node.index, node.size)
            && Content(m, node) == Some(x.content)
  {
    hide NodeFill, HasNode, HasBlock, BlockFill, Readable, Spans, ReadFrom;
  }

  /**
    Page `index` of the file at a path, found by lookups and read off the device, is that page of the source's
    file.
   */
  method PageAt(si: SuperInfo, path: seq<bytes>, signed: bool, index: nat, page: array<byte>, ghost t: Tree<Stat>,
                ghost o: Opts, ghost log2: nat, ghost c: Compressor, ghost l: Layout)
    returns (ok: bool)
    requires Proper(t) && t.Dir? && Ordered(t) && Lawful(c)
    requires Plan(Scan(t, !o.noDuplicates), o, log2, c) == Some(l) && Fits(Scan(t, !o.noDuplicates), l)
    requires si.Ready(Opened(l, c)) && [] !in path && ItemAt(t, path).Some? && ItemAt(t, path).value.File?
    requires page.Length == PAGE_CACHE_SIZE && page != si.volume.itable && page != si.volume.btable
    modifies si.device, page
    ensures si.Ready(Opened(l, c))
    ensures ok ==>
              var content := ItemAt(t, path).value.content;
              forall k :: 0 <= k < 4096 ==>
                page[k] == if index * 4096 + k < |content| then content[index * 4096 + k] else 0
    ensures si.Healthy() ==> ok
  {
    hide Plan, Fits, Lawful, Scan, Proper, Ordered, Reach, ItemAt, Shows, Sane, Readable, HasNode, Spans, ReadFrom,
      SuperInfo.Carries, Balanced, NodeFill;
    KernelShowsSource(t, o, log2, c, l, path);
    var found;
    ok, found := Walk(si, path, signed, t, o, log2, c, l);
    if !ok {
      return;
    }
    ShownFile(Opened(l, c), found.value, ItemAt(t, path).value);
    var node := si.volume.FillNodeInKernel(found.value, Opened(l, c));
    ghost var got;
    ok, got := si.Readpage(node, index, page, Opened(l, c));
  }

  // ---------- listing ----------

  lemma {:induction false} PlaceDistinct(names: seq<bytes>, i: nat)
    requires i < |names| && forall j :: 0 <= j < i ==> names[j] != names[i]
    ensures Place(names, names[i]) == Some(i)
  {
    if i > 0 { PlaceDistinct(names[1..], i - 1); }
  }

  /** In ascending order every entry is found by its name. */
  lemma FoundByName(es: seq<Entry>, i: nat)
    requires NamesAscend(NamesOf(es)) && i < |es|
    ensures FirstNamed(es, es[i].name) == Some(es[i].number)
  {
    var names := NamesOf(es);
    forall j | 0 <= j < i
      ensures names[j] != names[i]
    {
      StrCmpSelf(names[i]);
    }
    PlaceDistinct(names, i);
    FirstPlaced(es, es[i].name);
  }

  lemma {:induction false} StrCmpSelf(s: bytes)
    ensures StrCmp(s, s) == 0
  {
    if s != [] { StrCmpSelf(s[1..]); }
  }

  lemma OneDirectory(m: Mounted, node: NodeRec, p: nat, es: seq<Entry>, p': nat, es': seq<Entry>)
    requires IsDirectory(m, node, p, es) && IsDirectory(m, node, p', es')
    ensures p == p' && es == es'
  {
    hide Sane, Spans, ReadFrom, ParseDir;
  }

  /** The directory above the one at a path; the root's is the root. */
  ghost function Above(m: Mounted, path: seq<bytes>): Option<nat> {
    if path == [] then Some(0) else Reach(m, 0, path[..|path| - 1])
  }

  lemma RootDirectory(t: Tree<Stat>, o: Opts, log2: nat, c: Compressor, l: Layout) returns (es: seq<Entry>)
    requires Proper(t) && t.Dir? && Lawful(c)
    requires Plan(Scan(t, !o.noDuplicates), o, log2, c) == Some(l) && Fits(Scan(t, !o.noDuplicates), l)
    ensures HasNode(Opened(l, c), 0) && IsDirectory(Opened(l, c), KernelNodeFill(Opened(l, c), 0), 0, es)
  {
    hide Plan, Fits, Lawful, Scan, Proper, IsDirectory, HasNode, NodeFill, PosAt;
    RootParent(t, !o.noDuplicates);
    ImageDirectory(Scan(t, !o.noDuplicates), o, log2, c, l, 0);
    es := Scan(t, !o.noDuplicates)[0].body.entries;
  }

  /** What the directory at a path holds: the source's names and types, and the number of the directory above. */
  lemma DirectoryAt(t: Tree<Stat>, o: Opts, log2: nat, c: Compressor, l: Layout, path: seq<bytes>)
    returns (k: nat, parent: nat, es: seq<Entry>)
    requires Proper(t) && t.Dir? && Ordered(t) && Lawful(c)
    requires Plan(Scan(t, !o.noDuplicates), o, log2, c) == Some(l) && Fits(Scan(t, !o.noDuplicates), l)
    requires ItemAt(t, path).Some? && ItemAt(t, path).value.Dir?
    ensures var m, x := Opened(l, c), ItemAt(t, path).value;
            && Reach(m, 0, path) == Some(k) && HasNode(m, k) && Readable(m.sb)
            && IsDirectory(m, KernelNodeFill(m, k), parent, es)
            && EntriesAt(m, k) == Some(es) && NamesAscend(NamesOf(es)) && NamesOf(es) == x.names && |x.kids| == |es|
            && (forall i :: 0 <= i < |es| ==> es[i].kind == KindOfItem(x.kids[i]))
            && Above(m, path) == Some(parent)
  {
    hide Plan, Fits, Lawful, Scan, Proper, Ordered, Reach, ItemAt, IsDirectory, NamesAscend, Readable, HasNode,
      NodeFill, EntriesAt, ParseDir, Spans, ReadFrom;
    var m, x := Opened(l, c), ItemAt(t, path).value;
    KernelShowsSource(t, o, log2, c, l, path);
    k := Reach(m, 0, path).value;
    parent, es := ShownAll(m, k, x);
    if path == [] {
      ReachNothing(m, 0);
      var es' := RootDirectory(t, o, log2, c, l);
      OneDirectory(m, KernelNodeFill(m, k), parent, es, 0, es');
    } else {
      var front, name := path[..|path| - 1], path[|path| - 1];
      assert path == front + [name];
      DotDotLeadsBack(t, o, log2, c, l, front, name);
      var up := Reach(m, 0, front).value;
      var es' :| IsDirectory(m, KernelNodeFill(m, k), up, es');
      OneDirectory(m, KernelNodeFill(m, k), parent, es, up, es');
    }
  }

  lemma ShownAll<A>(m: Mounted, k: nat, x: Tree<A>) returns (parent: nat, es: seq<Entry>)
    requires Shows(m, k, x) && x.Dir?
    ensures HasNode(m, k) && Readable(m.sb) && IsDirectory(m, KernelNodeFill(m, k), parent, es)
            && NamesAscend(NamesOf(es)) && EntriesAt(m, k) == Some(es)
    ensures NamesOf(es) == x.names && |x.kids| == |es|
            && forall i :: 0 <= i < |es| ==> es[i].kind == KindOfItem(x.kids[i])
  {
    hide NodeFill, HasNode, HasBlock, BlockFill, Readable, NamesAscend, ParseDir, Spans, ReadFrom;
    parent, es :| IsDirectory(m, KernelNodeFill(m, k), parent, es) && NamesAscend(NamesOf(es)) && NamesOf(es) == x.names
                  && |x.kids| == |es| && forall i :: 0 <= i < |es| ==> es[i].kind == KindOfItem(x.kids[i]);
  }

  /**
    What is listed of the directory `x` at a path: "." and "..", the directory itself and the one above it, then the
    items in order, each with its name, its type, and one more than the number of the node a lookup of it reaches.
   */
  ghost predicate Lists<A>(m: Mounted, path: seq<bytes>, x: Tree<A>, all: seq<Dirent>) {
    && x.Dir? && |x.names| == |x.kids| && |all| <= |x.names| + 2
    && (|all| > 0 ==> Reach(m, 0, path).Some? && all[0] == Dirent([46], Reach(m, 0, path).value, 4))
    && (|all| > 1 ==> Above(m, path).Some? && all[1] == Dirent([46, 46], Above(m, path).value + 1, 4))
    && forall i :: 2 <= i < |all| ==>
         && all[i].name == x.names[i - 2]
         && all[i].dtype == (if x.kids[i - 2].File? then 8 else if x.kids[i - 2].Dir? then 4 else 10)
         && all[i].ino > 0 && Reach(m, 0, path + [x.names[i - 2]]) == Some(all[i].ino - 1)
  }

  lemma ListedItems<A>(m: Mounted, path: seq<bytes>, k: nat, parent: nat, es: seq<Entry>, x: Tree<A>, j: nat)
    requires Reach(m, 0, path) == Some(k) && Above(m, path) == Some(parent)
    requires EntriesAt(m, k) == Some(es) && NamesAscend(NamesOf(es))
    requires x.Dir? && NamesOf(es) == x.names && |x.kids| == |es| && j <= |es| + 2
    requires forall i :: 0 <= i < |es| ==> es[i].kind == KindOfItem(x.kids[i])
    ensures Lists(m, path, x, Listing(k, parent, es)[..j])
  {
    hide Reach, EntriesAt, NamesAscend, FirstNamed, Listing, Above;
    ListingExactly(k, parent, es);
    var all := Listing(k, parent, es);
    forall i | 2 <= i < |all|
      ensures all[i].name == x.names[i - 2]
      ensures all[i].dtype == (if x.kids[i - 2].File? then 8 else if x.kids[i - 2].Dir? then 4 else 10)
      ensures all[i].ino > 0 && Reach(m, 0, path + [x.names[i - 2]]) == Some(all[i].ino - 1)
    {
      assert NamesOf(es)[i - 2] == es[i - 2].name;
      FoundByName(es, i - 2);
      ReachOn(m, 0, path, x.names[i - 2]);
      ReachStep(m, k, x.names[i - 2]);
    }
  }

  /** Listing the directory at a path, found by lookups, whatever is taken at a time. */
  method ListAt(si: SuperInfo, path: seq<bytes>, signed: bool, rooms: seq<nat>, ctx: DirContext, ghost t: Tree<Stat>,
                ghost o: Opts, ghost log2: nat, ghost c: Compressor, ghost l: Layout)
    returns (ok: bool)
    requires Proper(t) && t.Dir? && Ordered(t) && Lawful(c)
    requires Plan(Scan(t, !o.noDuplicates), o, log2, c) == Some(l) && Fits(Scan(t, !o.noDuplicates), l)
    requires si.Ready(Opened(l, c)) && [] !in path && ItemAt(t, path).Some? && ItemAt(t, path).value.Dir?
    requires ctx.pos == 0 && ctx.emitted == []
    modifies si.device, ctx
    ensures si.Ready(Opened(l, c)) && (ok ==> Lists(Opened(l, c), path, ItemAt(t, path).value, ctx.emitted))
    ensures si.Healthy() ==> ok && |ctx.emitted| == Min(Total(rooms), |ItemAt(t, path).value.names| + 2)
  {
    hide Plan, Fits, Lawful, Scan, Proper, Ordered, Reach, ItemAt, IsDirectory, NamesAscend, Sane, Readable, HasNode,
      SuperInfo.Carries, Balanced, NodeFill, EntriesAt, Listing, Above, PosAt, Lists;
    ghost var m := Opened(l, c);
    ghost var k, parent, es := DirectoryAt(t, o, log2, c, l, path);
    var found;
    ok, found := Walk(si, path, signed, t, o, log2, c, l);
    if !ok {
      return;
    }
    var node := si.volume.FillNodeInKernel(found.value, m);
    ghost var j := ListAll(si, node, found.value, ctx, rooms, m, parent, es);
    ListedItems(m, path, k, parent, es, ItemAt(t, path).value, j);
  }
}
