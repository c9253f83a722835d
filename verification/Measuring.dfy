/** The builder's first pass: running maxima over the nodes, and the field widths they give. */
module Measuring {
  import opened Seqs
  import opened Fields
  import opened MergeSort
  import opened Format
  import opened Widths
  import opened Builders

  /** The numbers of the nodes, in their order. */
  function Numbers(ns: seq<Node>): (r: seq<nat>)
    ensures |r| == |ns| && forall i :: 0 <= i < |ns| ==> r[i] == ns[i].number
  {
    MapSeq((n: Node) => n.number, ns)
  }

  /** In whatever order, the nodes are those of the table. */
  ghost predicate Models(ns: seq<Node>, tbl: seq<Inode>)
    reads ns`body
  {
    && |ns| == |tbl|
    && forall i :: 0 <= i < |ns| ==> ns[i].number < |tbl| && ns[i].AsInode() == tbl[ns[i].number] && ns[i].Consistent()
  }

  /** The variables of the pass. */
  datatype Maxima = Maxima(kind: int, owner: int, group: int, other: int, uid: int, gid: int, ctime: int, mtime: int,
                           minCtime: int, minMtime: int,
                           parent: int, nentries: int, number: int, length: int, entryKind: int)

  ghost predicate MeasuredAttrs(s: seq<Inode>, x: Maxima) {
    && x.kind == MaxOf(s, KindOf) && x.owner == MaxOf(s, OwnerOf) && x.group == MaxOf(s, GroupOf)
    && x.other == MaxOf(s, OtherOf) && x.uid == MaxOf(s, UidOf) && x.gid == MaxOf(s, GidOf)
    && x.ctime == MaxOf(s, CtimeOf) && x.mtime == MaxOf(s, MtimeOf)
    && x.minCtime == MinOfMax(s, CtimeOf) && x.minMtime == MinOfMax(s, MtimeOf)
  }

  ghost predicate MeasuredDirs(s: seq<Inode>, x: Maxima) {
    && x.parent == MaxOf(s, ParentOf) && x.nentries == MaxOf(s, NentriesOf) && x.number == MaxOf(s, MaxEntryNumber)
    && x.length == MaxOf(s, MaxEntryLength) && x.entryKind == MaxOf(s, MaxEntryKind)
  }

  lemma MaxOfSnoc<T>(s: seq<T>, v: T, f: T -> int)
    ensures MaxOf(s + [v], f) == Max(MaxOf(s, f), f(v)) && MaxOf(s, f) >= -1
    ensures MinOf(s + [v], f) == Min(MinOf(s, f), f(v))
    ensures MinOfMax(s + [v], f) == Min(MaxOf(s + [v], f), MinOfMax(s, f))
  {
    assert (s + [v])[..|s|] == s;
    MaxOfReached(s, f);
  }

  /** The loop over a directory's entries. */
  method EntryMaxima(es: seq<Entry>, x0: Maxima) returns (x: Maxima)
    requires x0.number >= -1 && x0.length >= -1 && x0.entryKind >= -1
    ensures x == x0.(number := Max(x0.number, MaxOf(es, EntryNumber)), length := Max(x0.length, MaxOf(es, EntryLength)),
                     entryKind := Max(x0.entryKind, MaxOf(es, EntryKind)))
  {
    hide MaxOf;
    x := x0;
    var e := 0;
    NoMax<Entry>(EntryNumber);
    NoMax<Entry>(EntryLength);
    NoMax<Entry>(EntryKind);
    assert es[..0] == [];
    while e < |es|
      invariant 0 <= e <= |es|
      invariant x == x0.(number := Max(x0.number, MaxOf(es[..e], EntryNumber)),
                         length := Max(x0.length, MaxOf(es[..e], EntryLength)),
                         entryKind := Max(x0.entryKind, MaxOf(es[..e], EntryKind)))
    {
      TakeNext(es, e);
      MaxOfSnoc(es[..e], es[e], EntryNumber);
      MaxOfSnoc(es[..e], es[e], EntryLength);
      MaxOfSnoc(es[..e], es[e], EntryKind);
      x := x.(number := Max(x.number, es[e].number), length := Max(x.length, |es[e].name|),
              entryKind := Max(x.entryKind, es[e].kind));
      e := e + 1;
    }
    assert es[..e] == es;
  }

  lemma NoMax<T>(f: T -> int)
    ensures MaxOf<T>([], f) == -1 && MinOf<T>([], f) == LONG_LONG_MAX && MinOfMax<T>([], f) == LONG_LONG_MAX
  {
  }

  /** One node's contribution to the maxima of types, modes, owners and times. */
  method MeasureAttrs(n: Node, x0: Maxima, ghost s: seq<Inode>) returns (x: Maxima)
    requires MeasuredAttrs(s, x0) && n.Consistent()
    ensures MeasuredAttrs(s + [n.AsInode()], x)
    ensures x0.parent == x.parent && x0.nentries == x.nentries && x0.number == x.number
    ensures x0.length == x.length && x0.entryKind == x.entryKind
  {
    hide MaxOf, MinOfMax;
    ghost var v := n.AsInode();
    MaxOfSnoc(s, v, KindOf);
    MaxOfSnoc(s, v, OwnerOf);
    MaxOfSnoc(s, v, GroupOf);
    MaxOfSnoc(s, v, OtherOf);
    MaxOfSnoc(s, v, UidOf);
    MaxOfSnoc(s, v, GidOf);
    MaxOfSnoc(s, v, CtimeOf);
    MaxOfSnoc(s, v, MtimeOf);
    x := x0.(kind := Max(x0.kind, n.kind), owner := Max(x0.owner, n.attr.owner), group := Max(x0.group, n.attr.group),
             other := Max(x0.other, n.attr.other), uid := Max(x0.uid, n.attr.uid), gid := Max(x0.gid, n.attr.gid),
             ctime := Max(x0.ctime, n.attr.ctime), mtime := Max(x0.mtime, n.attr.mtime));
    x := x.(minCtime := Min(x.ctime, x.minCtime), minMtime := Min(x.mtime, x.minMtime));
  }

  /** A directory's contribution to the maxima of parents and entries. */
  method MeasureDirs(n: Node, x0: Maxima, ghost s: seq<Inode>) returns (x: Maxima)
    requires MeasuredDirs(s, x0) && n.Consistent()
    ensures MeasuredDirs(s + [n.AsInode()], x)
    ensures x == x0.(parent := x.parent, nentries := x.nentries, number := x.number, length := x.length,
                     entryKind := x.entryKind)
  {
    hide MaxOf;
    ghost var v := n.AsInode();
    MaxOfSnoc(s, v, ParentOf);
    MaxOfSnoc(s, v, NentriesOf);
    MaxOfSnoc(s, v, MaxEntryNumber);
    MaxOfSnoc(s, v, MaxEntryLength);
    MaxOfSnoc(s, v, MaxEntryKind);
    x := x0;
    if n.kind == TYPE_DIRECTORY {
      x := x.(parent := Max(x.parent, n.body.parent), nentries := Max(x.nentries, |n.body.entries|));
      x := EntryMaxima(n.body.entries, x);
    }
  }

  lemma AttrsOnly(s: seq<Inode>, x: Maxima, x': Maxima)
    requires MeasuredAttrs(s, x)
    requires x' == x.(parent := x'.parent, nentries := x'.nentries, number := x'.number, length := x'.length,
                      entryKind := x'.entryKind)
    ensures MeasuredAttrs(s, x')
  {
    hide MaxOf, MinOfMax;
  }

  lemma DirsOnly(s: seq<Inode>, x: Maxima, x': Maxima)
    requires MeasuredDirs(s, x)
    requires x.parent == x'.parent && x.nentries == x'.nentries && x.number == x'.number
    requires x.length == x'.length && x.entryKind == x'.entryKind
    ensures MeasuredDirs(s, x')
  {
    hide MaxOf;
  }

  /** The pass over all nodes. */
  method ScanMaxima(ns: seq<Node>, ghost tbl: seq<Inode>) returns (x: Maxima)
    requires Models(ns, tbl) && Numbers(ns) == Iota(|tbl|)
    ensures MeasuredAttrs(tbl, x) && MeasuredDirs(tbl, x)
  {
    hide MeasuredAttrs, MeasuredDirs;
    x := Maxima(-1, -1, -1, -1, -1, -1, -1, -1, LONG_LONG_MAX, LONG_LONG_MAX, -1, -1, -1, -1, -1);
    NothingMeasured(x);
    assert tbl[..0] == [];
    var i := 0;
    while i < |ns|
      invariant 0 <= i <= |ns| && MeasuredAttrs(tbl[..i], x) && MeasuredDirs(tbl[..i], x)
    {
      assert Numbers(ns)[i] == i;
      TakeNext(tbl, i);
      ghost var x0 := x;
      x := MeasureAttrs(ns[i], x, tbl[..i]);
      DirsOnly(tbl[..i], x0, x);
      ghost var x1 := x;
      x := MeasureDirs(ns[i], x, tbl[..i]);
      AttrsOnly(tbl[..i + 1], x1, x);
      i := i + 1;
    }
    assert tbl[..i] == tbl;
  }

  lemma NothingMeasured(x: Maxima)
    requires x == Maxima(-1, -1, -1, -1, -1, -1, -1, -1, LONG_LONG_MAX, LONG_LONG_MAX, -1, -1, -1, -1, -1)
    ensures MeasuredAttrs([], x) && MeasuredDirs([], x)
  {
  }

  /** The widths that follow from the first pass, fields switched off getting none. */
  method PickBits(x: Maxima, o: Opts, ghost tbl: seq<Inode>) returns (ib: InodeBits, db: DirBits, mins: Mins)
    requires MeasuredAttrs(tbl, x) && MeasuredDirs(tbl, x)
    ensures ib == AttrBits(tbl, o) && db == DirBitsOf(tbl) && mins == MinsOf(tbl)
  {
    hide MaxOf, MinOfMax, Blog;
    var y := x;
    if o.noGroupMode { y := y.(group := -1); }
    if o.noOtherMode { y := y.(other := -1); }
    if o.noUid { y := y.(uid := -1); }
    if o.noGid { y := y.(gid := -1); }
    if o.noCtime { y := y.(ctime := -1); }
    if o.noMtime { y := y.(mtime := -1); }
    var kind := BlogLoop(y.kind);
    var owner := BlogLoop(y.owner);
    var group := BlogLoop(y.group);
    var other := BlogLoop(y.other);
    var uid := BlogLoop(y.uid);
    var gid := BlogLoop(y.gid);
    var ctime := BlogLoop(y.ctime - y.minCtime);
    var mtime := BlogLoop(y.mtime - y.minMtime);
    ib := InodeBits(kind, owner, group, other, uid, gid, ctime, mtime, 0, 0, 0);
    var parent := BlogLoop(y.parent);
    var nentries := BlogLoop(y.nentries);
    var number := BlogLoop(y.number);
    var length := BlogLoop(y.length);
    var entryKind := BlogLoop(y.entryKind);
    db := DirBits(parent, nentries, number, length, entryKind);
    mins := Mins(ToU32(y.minCtime), ToU32(y.minMtime), 0);
  }
}
