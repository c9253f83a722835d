/** From a source tree to an image and back. */
module RoundTrip {
  import opened Seqs
  import opened Bits
  import opened Compressors
  import opened Format
  import opened Reader
  import opened Tables
  import opened Directories
  import opened Mounting
  import opened Scanning
  import opened Sharing

  /** What extraction shows of an item's attributes: a switched-off mode repeats the owner's, a switched-off id is 0. */
  function Shown(a: Attr, o: Opts): Owner {
    Owner(64 * Rwx(a.owner) + 8 * Rwx(if o.noGroupMode then a.owner else a.group)
          + Rwx(if o.noOtherMode then a.owner else a.other),
          if o.noUid then 0 else a.uid, if o.noGid then 0 else a.gid)
  }

  function Extracted(t: Tree<Attr>, o: Opts): Tree<Owner> {
    match t
    case File(a, c) => File(Shown(a, o), c)
    case Link(a, g) => Link(Shown(a, o), g)
    case Dir(a, names, kids) =>
      Dir(Shown(a, o), names, seq(|kids|, i requires 0 <= i < |kids| => Extracted(kids[i], o)))
  }

  /** Names and link targets contain no NUL, as on any file system. */
  ghost predicate NulFree<A>(t: Tree<A>) {
    match t
    case File(_, _) => true
    case Link(_, g) => 0 !in g
    case Dir(_, names, kids) =>
      (forall i :: 0 <= i < |names| ==> 0 !in names[i]) && (forall i :: 0 <= i < |kids| ==> NulFree(kids[i]))
  }

  /** What a C string is: everything before the first NUL. */
  lemma {:induction false} CStringExactly(s: bytes)
    ensures CString(s) <= s && 0 !in CString(s)
    ensures if 0 in s then |CString(s)| < |s| && s[|CString(s)|] == 0 else CString(s) == s
  {
    if s != [] {
      CStringExactly(s[1..]);
      assert s == [s[0]] + s[1..];
    }
  }

  lemma {:induction false} CStringWhole(s: bytes, rest: bytes)
    requires 0 !in s && (rest == [] || rest[0] == 0)
    ensures CString(s + rest) == s
  {
    if s == [] {
      assert s + rest == rest;
    } else {
      CStringWhole(s[1..], rest);
      assert (s + rest)[1..] == s[1..] + rest;
    }
  }

  /** The directory stored for node `k` parses to its entries. */
  lemma DirContent(tbl: seq<Inode>, o: Opts, log2: nat, c: Compressor, l: Layout, k: nat)
    requires Plan(tbl, o, log2, c) == Some(l) && Fits(tbl, l) && k < |tbl| && tbl[k].body.Directory?
    ensures ParseDir(l.sb.db, Ser(l.sb.db, tbl[k].body)) == Some(tbl[k].body)
  {
    hide Plan, ParseDir, Ser, DirBitsOf, EntryFits, Words, Readable;
    Planned(tbl, o, log2, c, l);
    NarrowDirs(l.sb);
    DirFits(tbl, k);
    DirParses(l.sb.db, tbl[k].body.parent, tbl[k].body.entries);
  }

  /** Traversing the image of a table from node `k` yields the tree node `k` stands for. */
  lemma {:induction false} ImageYields(tbl: seq<Inode>, o: Opts, log2: nat, c: Compressor, l: Layout, lo: nat, k: nat,
                                       t: Tree<Attr>)
    requires Plan(tbl, o, log2, c) == Some(l) && Fits(tbl, l) && Lawful(c)
    requires Represents(tbl, lo, k, t) && NulFree(t)
    ensures Yields(Opened(l, c), k, Extracted(t, o))
    decreases t
  {
    hide Plan, Fits, Lawful, Reachable, NodeFill, Content, Rwx, ParseDir, HasNode, CString;
    var m := Opened(l, c);
    NodeContent(tbl, o, log2, c, l, k);
    match t
    case File(_, _) =>
    case Link(_, g) =>
      CStringWhole(g, [0]);
      assert (g + [0])[|g|] == 0;
    case Dir(_, names, kids) =>
      DirContent(tbl, o, log2, c, l, k);
      var es := tbl[k].body.entries;
      forall i | 0 <= i < |kids|
        ensures names[i] == CString(es[i].name) && Yields(m, es[i].number, Extracted(kids[i], o))
      {
        CStringWhole(names[i], []);
        assert names[i] + [] == names[i];
        ImageYields(tbl, o, log2, c, l, k + 1, es[i].number, kids[i]);
      }
  }

  lemma {:induction false} ShapeNulFree(a: Tree<Stat>, b: Tree<Attr>)
    requires SameShape(a, b) && NulFree(a)
    ensures NulFree(b)
    decreases a
  {
    if a.Dir? {
      forall i | 0 <= i < |b.kids|
        ensures NulFree(b.kids[i])
      {
        ShapeNulFree(a.kids[i], b.kids[i]);
      }
    }
  }

  lemma {:induction false} ShapeExtracted(a: Tree<Stat>, b: Tree<Attr>, o: Opts)
    requires SameShape(a, b)
    ensures SameShape(a, Extracted(b, o))
    decreases a
  {
    if a.Dir? {
      forall i | 0 <= i < |b.kids|
        ensures SameShape(a.kids[i], Extracted(b.kids[i], o))
      {
        ShapeExtracted(a.kids[i], b.kids[i], o);
      }
    }
  }

  /** A traversal has one result. */
  lemma {:induction false} YieldsUnique(m: Mounted, n: nat, t: Tree<Owner>, t': Tree<Owner>)
    requires Yields(m, n, t) && Yields(m, n, t')
    ensures t == t'
    decreases t
  {
    hide NodeFill, Content, Spans, ParseDir, HasNode, CString, OwnerFrom;
    if t.Dir? {
      var raw := Content(m, NodeFill(m, n)).value;
      var es := ParseDir(m.sb.db, raw).value.entries;
      forall i | 0 <= i < |t.kids|
        ensures t.kids[i] == t'.kids[i] && t.names[i] == t'.names[i]
      {
        YieldsUnique(m, es[i].number, t.kids[i], t'.kids[i]);
      }
      assert t.kids == t'.kids && t.names == t'.names;
    }
  }

  /**
    The whole-image round trip. For every source tree, with sharing on or off, mounting the image built
    from it and traversing it from the root terminates and creates a tree with the same names, types,
    file bytes and link targets, and nothing else. The modes and ids handed out with it are those of the
    source, up to the switched-off fields, exactly when nothing is shared or equal files and equal links
    show the same ones.
   */
  lemma WholeImage(t: Tree<Stat>, o: Opts, log2: nat, c: Compressor, registry: nat -> Option<Compressor>, l: Layout)
    returns (m: Mounted, x: Tree<Owner>)
    requires Proper(t) && t.Dir? && NulFree(t)
    requires Lawful(c) && registry(c.ctype) == Some(c)
    requires Plan(Scan(t, !o.noDuplicates), o, log2, c) == Some(l) && Fits(Scan(t, !o.noDuplicates), l)
    ensures Mount(Image(l, o), registry) == Some(m) && m.sb.root == 0
    ensures Yields(m, m.sb.root, x) && forall x' :: Yields(m, m.sb.root, x') ==> x' == x
    ensures SameShape(t, x)
    ensures x == Extracted(WithAttrs(t), o) <==> o.noDuplicates || Alike(Leaves(t), o)
  {
    hide Plan, Fits, Lawful, Mount, Yields, Scan, Represents, SameShape, KeptDirs, Extracted, NulFree, Proper, Alike,
      Leaves;
    var tbl := Scan(t, !o.noDuplicates);
    var r := Scanned(t, o);
    MountsImage(tbl, o, log2, c, l, registry);
    RootIsZero(tbl, o, log2, c, l);
    ShapeNulFree(t, r);
    ImageYields(tbl, o, log2, c, l, 0, 0, r);
    ShapeExtracted(t, r, o);
    m, x := Opened(l, c), Extracted(r, o);
    forall x' | Yields(m, m.sb.root, x')
      ensures x' == x
    {
      YieldsUnique(m, 0, x', x);
    }
  }

  /** Files with equal bytes, and links with equal targets, show the same mode and owner under the options. */
  ghost predicate Alike(s: set<(Body, Attr)>, o: Opts) {
    forall x, y :: x in s && y in s && x.0 == y.0 ==> Shown(x.1, o) == Shown(y.1, o)
  }

  /** In a table of known files and links that are alike, the extracted tree is the source's. */
  lemma {:induction false} AlikeExtracted(tbl: seq<Inode>, lo: nat, k: nat, t: Tree<Stat>, r: Tree<Attr>,
                                          s: set<(Body, Attr)>, o: Opts)
    requires Represents(tbl, lo, k, r) && SameShape(t, r) && KeptDirs(t, r)
    requires Known(tbl, s) && Alike(s, o) && Leaves(t) <= s
    ensures Extracted(r, o) == Extracted(WithAttrs(t), o)
    decreases t
  {
    hide Shown;
    if t.Dir? {
      var w := WithAttrs(t);
      var x, y := Extracted(r, o), Extracted(w, o);
      forall i | 0 <= i < |t.kids|
        ensures x.kids[i] == y.kids[i]
      {
        assert forall l :: l in Leaves(t.kids[i]) ==> l in Leaves(t);
        AlikeExtracted(tbl, k + 1, tbl[k].body.entries[i].number, t.kids[i], r.kids[i], s, o);
      }
      assert x.kids == y.kids;
    } else {
      assert (tbl[k].body, tbl[k].attr) in s;
      assert (tbl[k].body, AttrOf(t.attr)) in Leaves(t);
    }
  }

  /** When the extracted tree is the source's, every file and link has a node that shows what it showed. */
  lemma {:induction false} ShownNode(tbl: seq<Inode>, lo: nat, k: nat, t: Tree<Stat>, r: Tree<Attr>, x: (Body, Attr),
                                     o: Opts)
    returns (j: nat)
    requires Represents(tbl, lo, k, r) && SameShape(t, r) && Extracted(r, o) == Extracted(WithAttrs(t), o)
             && x in Leaves(t)
    ensures j < |tbl| && tbl[j].body == x.0 && Shown(tbl[j].attr, o) == Shown(x.1, o) && !tbl[j].body.Directory?
    decreases t
  {
    hide Shown;
    j := k;
    if t.Dir? {
      var i :| 0 <= i < |t.kids| && x in Leaves(t.kids[i]);
      assert WithAttrs(t).kids[i] == WithAttrs(t.kids[i]);
      assert Extracted(r, o).kids[i] == Extracted(WithAttrs(t), o).kids[i];
      j := ShownNode(tbl, k + 1, tbl[k].body.entries[i].number, t.kids[i], r.kids[i], x, o);
    }
  }

  /**
    The tree a scanned table stands for, and exactly when extracting it shows what the source would: when
    nothing is shared, or when equal files and equal links are alike.
   */
  lemma Scanned(t: Tree<Stat>, o: Opts) returns (r: Tree<Attr>)
    requires Proper(t) && t.Dir?
    ensures Rooted(Scan(t, !o.noDuplicates)) && Represents(Scan(t, !o.noDuplicates), 0, 0, r) && SameShape(t, r)
    ensures Extracted(r, o) == Extracted(WithAttrs(t), o) <==> o.noDuplicates || Alike(Leaves(t), o)
  {
    hide Scan, Represents, SameShape, KeptDirs, WithAttrs, Leaves, Known, Proper, Extracted, Shown;
    r := ScanRepresents(t, !o.noDuplicates);
    if !o.noDuplicates {
      var tbl, s := Scan(t, true), Leaves(t);
      ScanKnown(t, true);
      ScanNoTwins(t);
      if Alike(s, o) { AlikeExtracted(tbl, 0, 0, t, r, s, o); }
      if Extracted(r, o) == Extracted(WithAttrs(t), o) {
        forall x, y | x in s && y in s && x.0 == y.0
          ensures Shown(x.1, o) == Shown(y.1, o)
        {
          var i := ShownNode(tbl, 0, 0, t, r, x, o);
          var j := ShownNode(tbl, 0, 0, t, r, y, o);
          OneNode(tbl, i, j);
        }
      }
    }
  }

  /** Equal files of the same mode and owner but different times are alike without being uniform. */
  lemma AlikeNotUniform(o: Opts) returns (t: Tree<Stat>)
    ensures t == Dir(Stat(493, 0, 0, 0, 0), [[97], [98]],
                     [File(Stat(420, 1, 1, 5, 5), [7]), File(Stat(420, 1, 1, 9, 9), [7])])
    ensures Proper(t) && Alike(Leaves(t), o) && !Uniform(Leaves(t))
  {
    hide Leaves, Proper, Rwx;
    var a, b: Tree<Stat> := File(Stat(420, 1, 1, 5, 5), [7]), File(Stat(420, 1, 1, 9, 9), [7]);
    t := Dir(Stat(493, 0, 0, 0, 0), [[97], [98]], [a, b]);
    TwoFiles(t, t.names, a, b);
    assert AttrOf(a.attr).ctime != AttrOf(b.attr).ctime;
  }

  lemma RootIsZero(tbl: seq<Inode>, o: Opts, log2: nat, c: Compressor, l: Layout)
    requires Plan(tbl, o, log2, c) == Some(l)
    ensures l.sb.root == 0
  {
    hide Flat, DirBitsOf, InodeBitsOf, Stream, Blocks, BlockBitsOf, BlockTable, InodeTable, MinsOf, SqueezeAll,
      Squeeze, MinOf;
  }

  /**
    The permission bits come back as stat gave them, the owner's standing in for the group's and the others'
    where those are switched off, and the ids come back as 0 where those are.
   */
  lemma ModeRecovered(st: Stat, o: Opts)
    ensures var u, g, w := st.mode / 64 % 8, st.mode / 8 % 8, st.mode % 8;
            Shown(AttrOf(st), o).mode
            == 64 * u + 8 * (if o.noGroupMode then u else g) + (if o.noOtherMode then u else w)
    ensures st.mode < 512 && !o.noGroupMode && !o.noOtherMode ==> Shown(AttrOf(st), o).mode == st.mode
    ensures Shown(AttrOf(st), o).uid == (if o.noUid then 0 else st.uid)
    ensures Shown(AttrOf(st), o).gid == (if o.noGid then 0 else st.gid)
  {
    hide Rwx;
    RwxTwice(st.mode / 64 % 8);
    RwxTwice(st.mode / 8 % 8);
    RwxTwice(st.mode % 8);
    RwxLow(st.mode / 64);
    RwxLow(st.mode / 8);
    RwxLow(st.mode);
    Octal(st.mode);
  }

  lemma Octal(v: nat)
    ensures v < 512 ==> v == 64 * (v / 64 % 8) + 8 * (v / 8 % 8) + v % 8
  {
    assert v / 64 == v / 8 / 8;
  }

  lemma RwxTwice(v: nat)
    requires v < 8
    ensures Rwx(Rwx(v)) == v
  {
  }

  lemma RwxLow(v: nat)
    ensures Rwx(v) == Rwx(v % 8)
  {
    var q, r := v / 8, v % 8;
    DivModUnique(v, 2, 4 * q + r / 2, r % 2);
    DivModUnique(v, 4, 2 * q + r / 4, r % 4);
    DivModUnique(v / 2, 2, 2 * q + r / 4, r / 2 % 2);
    DivModUnique(v / 4, 2, q, r / 4 % 2);
  }

  /** With the compressor that stores data as it is, an image can always be written. */
  lemma NonePlans(tbl: seq<Inode>, o: Opts, log2: nat)
    ensures Plan(tbl, o, log2, NoneCompressor()).Some?
  {
    hide Stream, Blocks, ItableOf, LayoutOf, DirBitsOf;
    NoneLawful();
  }
}
