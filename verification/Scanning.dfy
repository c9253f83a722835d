/** Scanning a source tree into a node table, with or without sharing equal files and links. */
module Scanning {
  import opened Seqs
  import opened Format
  import opened Reader

  /** What stat tells about an item. */
  datatype Stat = Stat(mode: nat, uid: nat, gid: nat, ctime: int, mtime: int)

  /** The three modes from the permission bits: read 1, write 2, execute 4. */
  function AttrOf(st: Stat): Attr {
    Attr(Rwx(st.mode / 64), Rwx(st.mode / 8), Rwx(st.mode), st.uid, st.gid, st.ctime, st.mtime)
  }

  /**
    What is stored of an item's mode: in each class 1 for read, 2 for write and 4 for execute, where stat has
    them the other way round.
   */
  lemma ModesStored(st: Stat)
    ensures var a := AttrOf(st); a.owner < 8 && a.group < 8 && a.other < 8
    ensures var a, v := AttrOf(st), st.mode;
            && (a.owner % 2 == 1 <==> v / 256 % 2 == 1) && (a.group % 2 == 1 <==> v / 32 % 2 == 1)
            && (a.other % 2 == 1 <==> v / 4 % 2 == 1)
            && (a.owner / 2 % 2 == 1 <==> v / 128 % 2 == 1) && (a.group / 2 % 2 == 1 <==> v / 16 % 2 == 1)
            && (a.other / 2 % 2 == 1 <==> v / 2 % 2 == 1)
            && (a.owner / 4 % 2 == 1 <==> v / 64 % 2 == 1) && (a.group / 4 % 2 == 1 <==> v / 8 % 2 == 1)
            && (a.other / 4 % 2 == 1 <==> v % 2 == 1)
    ensures var a := AttrOf(st); a.uid == st.uid && a.gid == st.gid && a.ctime == st.ctime && a.mtime == st.mtime
  {
    hide Rwx;
    var v := st.mode;
    assert v / 64 / 4 == v / 256 && v / 64 / 2 == v / 128 && v / 8 / 4 == v / 32 && v / 8 / 2 == v / 16;
    RwxBits(v / 64);
    RwxBits(v / 8);
    RwxBits(v);
  }

  function WithAttrs(t: Tree<Stat>): Tree<Attr> {
    match t
    case File(st, c) => File(AttrOf(st), c)
    case Link(st, g) => Link(AttrOf(st), g)
    case Dir(st, names, kids) => Dir(AttrOf(st), names, seq(|kids|, i requires 0 <= i < |kids| => WithAttrs(kids[i])))
  }

  /** The same names, types, file bytes and link targets. */
  ghost predicate SameShape<A, B>(a: Tree<A>, b: Tree<B>)
    decreases a
  {
    match a
    case File(_, c) => b.File? && b.content == c
    case Link(_, g) => b.Link? && b.target == g
    case Dir(_, names, kids) =>
      b.Dir? && b.names == names && |b.kids| == |kids| && forall i :: 0 <= i < |kids| ==> SameShape(kids[i], b.kids[i])
  }

  /** Directories, which are never shared, keep their attributes. */
  ghost predicate KeptDirs(t: Tree<Stat>, r: Tree<Attr>)
    decreases t
  {
    t.Dir? ==> r.Dir? && r.attr == AttrOf(t.attr) && |r.kids| == |t.kids| && forall i :: 0 <= i < |t.kids| ==>
      KeptDirs(t.kids[i], r.kids[i])
  }

  /** Every directory has as many names as items. */
  ghost predicate Proper<A>(t: Tree<A>) {
    t.Dir? ==> |t.names| == |t.kids| && forall i :: 0 <= i < |t.kids| ==> Proper(t.kids[i])
  }

  // ---------- paths in a tree ----------

  /** The first place of a name. */
  function Place(names: seq<bytes>, name: bytes): (r: Option<nat>)
    ensures r.Some? ==> r.value < |names| && names[r.value] == name
  {
    if names == [] then None
    else if names[0] == name then Some(0)
    else
      match Place(names[1..], name)
      case None => None
      case Some(i) => Some(i + 1)
  }

  /** The item at a path below `t`. */
  function ItemAt<A>(t: Tree<A>, path: seq<bytes>): Option<Tree<A>>
    decreases |path|
  {
    if path == [] then Some(t)
    else if !t.Dir? then None
    else
      match Place(t.names, path[0])
      case None => None
      case Some(i) => if i < |t.kids| then ItemAt(t.kids[i], path[1..]) else None
  }

  lemma {:induction false} ItemAtSame<A, B>(a: Tree<A>, b: Tree<B>, path: seq<bytes>)
    requires SameShape(a, b)
    ensures ItemAt(a, path).Some? <==> ItemAt(b, path).Some?
    ensures ItemAt(a, path).Some? ==> SameShape(ItemAt(a, path).value, ItemAt(b, path).value)
    decreases |path|
  {
    if path != [] && a.Dir? {
      var i := Place(a.names, path[0]);
      if i.Some? && i.value < |a.kids| { ItemAtSame(a.kids[i.value], b.kids[i.value], path[1..]); }
    }
  }

  // ---------- the node table ----------

  /** The body a new node gets; a directory starts out empty and knows its parent's number. */
  function NewBody(t: Tree<Stat>, parent: Option<nat>): Body {
    match t
    case File(_, c) => RegularFile(c)
    case Link(_, g) => SymbolicLink(g)
    case Dir(_, _, _) => Directory(if parent.Some? then parent.value else 0, [])
  }

  /** The first node at or after `from` that can stand in for a file or link with this body. */
  function FindTwin(tbl: seq<Inode>, b: Body, from: nat): (r: Option<nat>)
    ensures r.Some? ==> from <= r.value < |tbl| && tbl[r.value].body == b && !b.Directory?
    ensures r.Some? ==> forall j :: from <= j < r.value ==> tbl[j].body != b
    ensures r.None? ==> b.Directory? || forall j :: from <= j < |tbl| ==> tbl[j].body != b
    decreases |tbl| - from
  {
    if from >= |tbl| || b.Directory? then None
    else if tbl[from].body == b then Some(from)
    else FindTwin(tbl, b, from + 1)
  }

  /** The node number an item gets: its twin's, when sharing is on and there is one, else the next new one. */
  function NumberFor(tbl: seq<Inode>, b: Body, dedup: bool): nat {
    var twin := if dedup then FindTwin(tbl, b, 0) else None;
    if twin.Some? then twin.value else |tbl|
  }

  function AddEntry(tbl: seq<Inode>, parent: Option<nat>, e: Entry): seq<Inode> {
    if parent.Some? && parent.value < |tbl| && tbl[parent.value].body.Directory? then
      var p := tbl[parent.value];
      tbl[parent.value := p.(body := Directory(p.body.parent, p.body.entries + [e]))]
    else tbl
  }

  /** node_new: the item is appended unless it has a twin, and entered in its parent. */
  function NodeNew(tbl: seq<Inode>, t: Tree<Stat>, name: bytes, parent: Option<nat>, dedup: bool): (seq<Inode>, nat) {
    var b := NewBody(t, parent);
    var n := NumberFor(tbl, b, dedup);
    var entered := AddEntry(tbl, parent, Entry(n, Kind(b), name));
    (if n < |tbl| then entered else entered + [Inode(name, AttrOf(t.attr), b)], n)
  }

  /** Visiting an item, then, in order, the items below it. */
  function Visit(tbl: seq<Inode>, t: Tree<Stat>, name: bytes, parent: Option<nat>, dedup: bool): (seq<Inode>, nat)
    requires Proper(t)
    decreases t
  {
    var (tbl', n) := NodeNew(tbl, t, name, parent, dedup);
    if t.Dir? then (VisitAll(tbl', t.names, t.kids, n, dedup), n) else (tbl', n)
  }

  function VisitAll(tbl: seq<Inode>, names: seq<bytes>, kids: seq<Tree<Stat>>, parent: nat, dedup: bool): seq<Inode>
    requires |names| == |kids| && forall i :: 0 <= i < |kids| ==> Proper(kids[i])
    decreases kids
  {
    if kids == [] then tbl
    else VisitAll(Visit(tbl, kids[0], names[0], Some(parent), dedup).0, names[1..], kids[1..], parent, dedup)
  }

  /** The node table of a source tree. */
  function Scan(t: Tree<Stat>, dedup: bool): seq<Inode>
    requires Proper(t)
  {
    Visit([], t, [], None, dedup).0
  }

  // ---------- what the table means ----------

  /**
    Node `k` of the table stands for the tree `t`. Directories below a directory have larger numbers
    than it, and directories at `k` and below are numbered from `lo` on.
   */
  ghost predicate Represents(tbl: seq<Inode>, lo: nat, k: nat, t: Tree<Attr>)
    decreases t
  {
    && k < |tbl| && tbl[k].attr == t.attr
    && match t
       case File(_, c) => tbl[k].body == RegularFile(c)
       case Link(_, g) => tbl[k].body == SymbolicLink(g)
       case Dir(_, names, kids) =>
         && lo <= k && tbl[k].body.Directory?
         && var es := tbl[k].body.entries;
            && |es| == |names| == |kids|
            && forall i :: 0 <= i < |kids| ==>
                 && es[i].name == names[i] && es[i].number < |tbl| && es[i].kind == Kind(tbl[es[i].number].body)
                 && Represents(tbl, k + 1, es[i].number, kids[i])
  }

  /** `tbl'` extends `tbl` and differs on it only in directories below `lo`. */
  ghost predicate Keeps(tbl: seq<Inode>, tbl': seq<Inode>, lo: nat) {
    && |tbl| <= |tbl'|
    && (forall j :: 0 <= j < |tbl| && (lo <= j || !tbl[j].body.Directory?) ==> tbl'[j] == tbl[j])
    && (forall j :: 0 <= j < |tbl| ==> Kind(tbl'[j].body) == Kind(tbl[j].body))
  }

  /** A node's meaning survives what later items do to earlier directories. */
  lemma {:induction false} StillRepresents(tbl: seq<Inode>, tbl': seq<Inode>, lo: nat, lo': nat, k: nat, t: Tree<Attr>)
    requires Represents(tbl, lo, k, t) && Keeps(tbl, tbl', lo) && lo' <= lo
    ensures Represents(tbl', lo', k, t)
    decreases t
  {
    if t.Dir? {
      var es := tbl[k].body.entries;
      forall i | 0 <= i < |t.kids|
        ensures Represents(tbl', k + 1, es[i].number, t.kids[i])
      {
        StillRepresents(tbl, tbl', k + 1, k + 1, es[i].number, t.kids[i]);
      }
    }
  }

  /** The table after visiting an item: nothing older changes, except that its parent has one entry more. */
  ghost predicate Entered(tbl: seq<Inode>, tbl': seq<Inode>, parent: Option<nat>, e: Entry) {
    && |tbl| <= |tbl'|
    && (forall j :: 0 <= j < |tbl| && Some(j) != parent ==> tbl'[j] == tbl[j])
    && (parent.Some? ==>
          && parent.value < |tbl| && tbl[parent.value].body.Directory?
          && var p := tbl[parent.value];
             tbl'[parent.value] == p.(body := Directory(p.body.parent, p.body.entries + [e])))
  }

  /** The table after visiting all items of directory `n`. */
  ghost predicate Filled(tbl: seq<Inode>, tbl': seq<Inode>, n: nat, es: seq<Entry>) {
    && |tbl| <= |tbl'| && n < |tbl| && tbl[n].body.Directory?
    && (forall j :: 0 <= j < |tbl| && j != n ==> tbl'[j] == tbl[j])
    && tbl'[n] == tbl[n].(body := Directory(tbl[n].body.parent, tbl[n].body.entries + es))
  }

  lemma NodeNewEnters(tbl: seq<Inode>, t: Tree<Stat>, name: bytes, parent: Option<nat>, dedup: bool)
    requires parent.Some? ==> parent.value < |tbl| && tbl[parent.value].body.Directory?
    ensures var (tbl', n) := NodeNew(tbl, t, name, parent, dedup);
            && n < |tbl'| && Entered(tbl, tbl', parent, Entry(n, Kind(NewBody(t, parent)), name))
            && (n < |tbl| ==> |tbl'| == |tbl| && !t.Dir? && tbl[n].body == tbl'[n].body == NewBody(t, parent))
            && (n >= |tbl| ==>
                 n == |tbl| && |tbl'| == n + 1 && tbl'[n] == Inode(name, AttrOf(t.attr), NewBody(t, parent)))
            && (!dedup || t.Dir? ==> n == |tbl|)
  {
  }

  /**
    Visiting an item keeps everything else, enters the item in its parent, and leaves a node that
    stands for a tree of the same shape, the item itself when nothing is shared.
   */
  lemma {:induction false} VisitRepresents(tbl: seq<Inode>, t: Tree<Stat>, name: bytes, parent: Option<nat>,
                                           dedup: bool)
    returns (r: Tree<Attr>)
    requires Proper(t) && (parent.Some? ==> parent.value < |tbl| && tbl[parent.value].body.Directory?)
    ensures var (tbl', n) := Visit(tbl, t, name, parent, dedup);
            && n < |tbl'| && Entered(tbl, tbl', parent, Entry(n, Kind(tbl'[n].body), name))
            && Represents(tbl', |tbl|, n, r)
    ensures SameShape(t, r) && KeptDirs(t, r) && (!dedup ==> r == WithAttrs(t))
    decreases t
  {
    hide NodeNew, AttrOf;
    NodeNewEnters(tbl, t, name, parent, dedup);
    var (tbl1, n) := NodeNew(tbl, t, name, parent, dedup);
    match t
    case File(st, c) => r := File(tbl1[n].attr, c);
    case Link(st, g) => r := Link(tbl1[n].attr, g);
    case Dir(st, names, kids) =>
      var es, rs := VisitAllRepresents(tbl1, names, kids, n, dedup);
      r := Dir(AttrOf(st), names, rs);
      EnteredFilled(tbl, tbl1, VisitAll(tbl1, names, kids, n, dedup), parent, Entry(n, TYPE_DIRECTORY, name), n, es);
      DirRepresents(VisitAll(tbl1, names, kids, n, dedup), |tbl|, n, r, es);
      DirShapes(t, r, dedup);
  }

  lemma DirRepresents(tbl: seq<Inode>, lo: nat, n: nat, r: Tree<Attr>, es: seq<Entry>)
    requires lo <= n < |tbl| && r.Dir? && tbl[n].attr == r.attr && tbl[n].body.Directory?
             && tbl[n].body.entries == [] + es
    requires |es| == |r.names| == |r.kids|
    requires forall i :: 0 <= i < |es| ==>
               && es[i].name == r.names[i] && es[i].number < |tbl| && es[i].kind == Kind(tbl[es[i].number].body)
               && Represents(tbl, n + 1, es[i].number, r.kids[i])
    ensures Represents(tbl, lo, n, r)
  {
    assert [] + es == es;
  }

  lemma {:induction false} DirShapes(t: Tree<Stat>, r: Tree<Attr>, dedup: bool)
    requires t.Dir? && r.Dir? && r.attr == AttrOf(t.attr) && r.names == t.names && |r.kids| == |t.kids|
    requires forall i :: 0 <= i < |t.kids| ==>
               SameShape(t.kids[i], r.kids[i]) && KeptDirs(t.kids[i], r.kids[i])
               && (!dedup ==> r.kids[i] == WithAttrs(t.kids[i]))
    ensures SameShape(t, r) && KeptDirs(t, r) && (!dedup ==> r == WithAttrs(t))
  {
    assert !dedup ==> r.kids == WithAttrs(t).kids;
  }

  lemma EnteredFilled(tbl: seq<Inode>, tbl1: seq<Inode>, tbl': seq<Inode>, parent: Option<nat>, e: Entry, n: nat,
                      es: seq<Entry>)
    requires Entered(tbl, tbl1, parent, e) && Filled(tbl1, tbl', n, es) && n >= |tbl|
    ensures Entered(tbl, tbl', parent, e) && Kind(tbl'[n].body) == TYPE_DIRECTORY
  {
  }

  lemma {:induction false} VisitAllRepresents(tbl: seq<Inode>, names: seq<bytes>, kids: seq<Tree<Stat>>, n: nat,
                                              dedup: bool)
    returns (es: seq<Entry>, rs: seq<Tree<Attr>>)
    requires |names| == |kids| && (forall i :: 0 <= i < |kids| ==> Proper(kids[i])) && n < |tbl|
             && tbl[n].body.Directory?
    ensures var tbl' := VisitAll(tbl, names, kids, n, dedup);
            && Filled(tbl, tbl', n, es) && |es| == |rs| == |kids|
            && forall i :: 0 <= i < |kids| ==>
                 && es[i].name == names[i] && es[i].number < |tbl'| && es[i].kind == Kind(tbl'[es[i].number].body)
                 && Represents(tbl', n + 1, es[i].number, rs[i])
                 && SameShape(kids[i], rs[i]) && KeptDirs(kids[i], rs[i]) && (!dedup ==> rs[i] == WithAttrs(kids[i]))
    decreases kids
  {
    hide NodeNew, WithAttrs, Represents, SameShape, KeptDirs, AddEntry, Proper;
    if kids == [] {
      es, rs := [], [];
    } else {
      var (tbl1, k) := Visit(tbl, kids[0], names[0], Some(n), dedup);
      var r := VisitRepresents(tbl, kids[0], names[0], Some(n), dedup);
      var es', rs' := VisitAllRepresents(tbl1, names[1..], kids[1..], n, dedup);
      var tbl' := VisitAll(tbl1, names[1..], kids[1..], n, dedup);
      es, rs := [Entry(k, Kind(tbl1[k].body), names[0])] + es', [r] + rs';
      StillRepresents(tbl1, tbl', |tbl|, n + 1, k, r);
    }
  }

  /**
    Scanning a tree gives a table whose root stands for a tree of the same shape; without sharing, for the
    very tree.
   */
  lemma ScanRepresents(t: Tree<Stat>, dedup: bool) returns (r: Tree<Attr>)
    requires Proper(t) && t.Dir?
    ensures Rooted(Scan(t, dedup)) && Represents(Scan(t, dedup), 0, 0, r)
    ensures SameShape(t, r) && KeptDirs(t, r) && (!dedup ==> r == WithAttrs(t))
  {
    r := VisitRepresents([], t, [], None, dedup);
  }

  // ---------- sharing ----------

  /** No two files have the same bytes and no two links the same target. */
  ghost predicate NoTwins(tbl: seq<Inode>) {
    forall i, j :: 0 <= i < j < |tbl| && !tbl[i].body.Directory? ==> tbl[i].body != tbl[j].body
  }

  lemma NodeNewNoTwins(tbl: seq<Inode>, t: Tree<Stat>, name: bytes, parent: Option<nat>)
    requires NoTwins(tbl) && (parent.Some? ==> parent.value < |tbl| && tbl[parent.value].body.Directory?)
    ensures NoTwins(NodeNew(tbl, t, name, parent, true).0)
  {
  }

  lemma {:induction false} VisitNoTwins(tbl: seq<Inode>, t: Tree<Stat>, name: bytes, parent: Option<nat>)
    requires Proper(t) && NoTwins(tbl) && (parent.Some? ==> parent.value < |tbl| && tbl[parent.value].body.Directory?)
    ensures NoTwins(Visit(tbl, t, name, parent, true).0)
    decreases t
  {
    NodeNewNoTwins(tbl, t, name, parent);
    NodeNewEnters(tbl, t, name, parent, true);
    if t.Dir? {
      var (tbl1, n) := NodeNew(tbl, t, name, parent, true);
      VisitAllNoTwins(tbl1, t.names, t.kids, n);
    }
  }

  lemma {:induction false} VisitAllNoTwins(tbl: seq<Inode>, names: seq<bytes>, kids: seq<Tree<Stat>>, n: nat)
    requires |names| == |kids| && (forall i :: 0 <= i < |kids| ==> Proper(kids[i])) && n < |tbl|
             && tbl[n].body.Directory?
    requires NoTwins(tbl)
    ensures NoTwins(VisitAll(tbl, names, kids, n, true))
    decreases kids
  {
    if kids != [] {
      VisitNoTwins(tbl, kids[0], names[0], Some(n));
      var r := VisitRepresents(tbl, kids[0], names[0], Some(n), true);
      VisitAllNoTwins(Visit(tbl, kids[0], names[0], Some(n), true).0, names[1..], kids[1..], n);
    }
  }

  /** With sharing on, the table never holds two files with equal bytes or two links with equal targets. */
  lemma ScanNoTwins(t: Tree<Stat>)
    requires Proper(t)
    ensures NoTwins(Scan(t, true))
  {
    VisitNoTwins([], t, [], None);
  }

  // ---------- parents ----------

  /** Every directory that is listed names the one that lists it as its parent. */
  ghost predicate Parents(tbl: seq<Inode>) {
    forall k, i :: 0 <= k < |tbl| && tbl[k].body.Directory? && 0 <= i < |tbl[k].body.entries| ==>
      var n := tbl[k].body.entries[i].number;
      n < |tbl| && (tbl[n].body.Directory? ==> tbl[n].body.parent == k)
  }

  lemma NodeNewParents(tbl: seq<Inode>, t: Tree<Stat>, name: bytes, parent: Option<nat>, dedup: bool)
    requires Parents(tbl) && (parent.Some? ==> parent.value < |tbl| && tbl[parent.value].body.Directory?)
    ensures Parents(NodeNew(tbl, t, name, parent, dedup).0)
  {
    hide NodeNew, AttrOf;
    NodeNewEnters(tbl, t, name, parent, dedup);
    var (tbl', n) := NodeNew(tbl, t, name, parent, dedup);
    forall k, i | 0 <= k < |tbl'| && tbl'[k].body.Directory? && 0 <= i < |tbl'[k].body.entries|
      ensures tbl'[k].body.entries[i].number < |tbl'|
      ensures var b := tbl'[tbl'[k].body.entries[i].number].body; b.Directory? ==> b.parent == k
    {
      if k < |tbl| && i < |tbl[k].body.entries| { assert tbl'[k].body.entries[i] == tbl[k].body.entries[i]; }
    }
  }

  lemma {:induction false} VisitParents(tbl: seq<Inode>, t: Tree<Stat>, name: bytes, parent: Option<nat>, dedup: bool)
    requires Proper(t) && Parents(tbl) && (parent.Some? ==> parent.value < |tbl| && tbl[parent.value].body.Directory?)
    ensures Parents(Visit(tbl, t, name, parent, dedup).0)
    decreases t
  {
    hide NodeNew, Parents;
    NodeNewParents(tbl, t, name, parent, dedup);
    NodeNewEnters(tbl, t, name, parent, dedup);
    if t.Dir? {
      var (tbl1, n) := NodeNew(tbl, t, name, parent, dedup);
      VisitAllParents(tbl1, t.names, t.kids, n, dedup);
    }
  }

  lemma {:induction false} VisitAllParents(tbl: seq<Inode>, names: seq<bytes>, kids: seq<Tree<Stat>>, n: nat,
                                           dedup: bool)
    requires |names| == |kids| && (forall i :: 0 <= i < |kids| ==> Proper(kids[i])) && n < |tbl|
             && tbl[n].body.Directory?
    requires Parents(tbl)
    ensures Parents(VisitAll(tbl, names, kids, n, dedup))
    decreases kids
  {
    hide NodeNew, Parents, Proper, SameShape, KeptDirs, Represents, WithAttrs;
    if kids != [] {
      VisitParents(tbl, kids[0], names[0], Some(n), dedup);
      var r := VisitRepresents(tbl, kids[0], names[0], Some(n), dedup);
      VisitAllParents(Visit(tbl, kids[0], names[0], Some(n), dedup).0, names[1..], kids[1..], n, dedup);
    }
  }

  /** The root has nothing above it and stores 0. */
  lemma RootParent(t: Tree<Stat>, dedup: bool)
    requires Proper(t) && t.Dir?
    ensures Rooted(Scan(t, dedup)) && Scan(t, dedup)[0].body.parent == 0
  {
    hide NodeNew, AttrOf, Represents, SameShape, KeptDirs, WithAttrs;
    NodeNewEnters([], t, [], None, dedup);
    var (tbl1, n) := NodeNew([], t, [], None, dedup);
    var es, rs := VisitAllRepresents(tbl1, t.names, t.kids, n, dedup);
  }

  /** In every scanned table ".." leads back. */
  lemma ScanParents(t: Tree<Stat>, dedup: bool)
    requires Proper(t)
    ensures Parents(Scan(t, dedup))
  {
    VisitParents([], t, [], None, dedup);
  }

  // ---------- order ----------

  /** Siblings come in the order fts hands them out, strictly ascending by strcmp. */
  ghost predicate Ordered<A>(t: Tree<A>) {
    t.Dir? ==> NamesAscend(t.names) && forall i :: 0 <= i < |t.kids| ==> Ordered(t.kids[i])
  }

  /** The names in every directory numbered `lo` or above ascend. */
  ghost predicate Ascends(tbl: seq<Inode>, lo: nat) {
    forall k :: lo <= k < |tbl| && tbl[k].body.Directory? ==> NamesAscend(NamesOf(tbl[k].body.entries))
  }

  lemma {:induction false} VisitAscends(tbl: seq<Inode>, t: Tree<Stat>, name: bytes, parent: Option<nat>, dedup: bool)
    requires Proper(t) && Ordered(t) && (parent.Some? ==> parent.value < |tbl| && tbl[parent.value].body.Directory?)
    ensures Ascends(Visit(tbl, t, name, parent, dedup).0, |tbl|)
    decreases t
  {
    hide NodeNew, AddEntry, NamesAscend, SameShape, KeptDirs, Represents, WithAttrs;
    NodeNewEnters(tbl, t, name, parent, dedup);
    if t.Dir? {
      var (tbl1, n) := NodeNew(tbl, t, name, parent, dedup);
      var es, rs := VisitAllRepresents(tbl1, t.names, t.kids, n, dedup);
      VisitAllAscends(tbl1, t.names, t.kids, n, dedup);
      assert [] + es == es;
      assert NamesOf(es) == t.names;
    }
  }

  lemma {:induction false} VisitAllAscends(tbl: seq<Inode>, names: seq<bytes>, kids: seq<Tree<Stat>>, n: nat,
                                           dedup: bool)
    requires |names| == |kids| && (forall i :: 0 <= i < |kids| ==> Proper(kids[i]) && Ordered(kids[i]))
    requires n < |tbl| && tbl[n].body.Directory?
    ensures Ascends(VisitAll(tbl, names, kids, n, dedup), |tbl|)
    decreases kids
  {
    hide NodeNew, AddEntry, NamesAscend, SameShape, KeptDirs, Represents, WithAttrs, Proper, Ordered;
    if kids != [] {
      var (tbl1, k) := Visit(tbl, kids[0], names[0], Some(n), dedup);
      VisitAscends(tbl, kids[0], names[0], Some(n), dedup);
      var r := VisitRepresents(tbl, kids[0], names[0], Some(n), dedup);
      VisitAllAscends(tbl1, names[1..], kids[1..], n, dedup);
      var es, rs := VisitAllRepresents(tbl1, names[1..], kids[1..], n, dedup);
    }
  }

  /** Every directory a scan produces lists its entries in strictly ascending order. */
  lemma ScanAscends(t: Tree<Stat>, dedup: bool)
    requires Proper(t) && Ordered(t)
    ensures Ascends(Scan(t, dedup), 0)
  {
    VisitAscends([], t, [], None, dedup);
  }
}
