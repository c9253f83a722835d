/** When sharing equal files and links loses nothing. */
module Sharing {
  import opened Seqs
  import opened Format
  import opened Reader
  import opened Scanning

  /** The files and links of a source tree, by content, with the attributes they have. */
  ghost function Leaves(t: Tree<Stat>): set<(Body, Attr)> {
    match t
    case File(st, c) => {(RegularFile(c), AttrOf(st))}
    case Link(st, g) => {(SymbolicLink(g), AttrOf(st))}
    case Dir(_, _, kids) => set i, x | 0 <= i < |kids| && x in Leaves(kids[i]) :: x
  }

  /** Files with equal bytes, and links with equal targets, have equal attributes. */
  ghost predicate Uniform(s: set<(Body, Attr)>) {
    forall x, y :: x in s && y in s && x.0 == y.0 ==> x.1 == y.1
  }

  /** Every file and link of the table is one of `s`. */
  ghost predicate Known(tbl: seq<Inode>, s: set<(Body, Attr)>) {
    forall j :: 0 <= j < |tbl| && !tbl[j].body.Directory? ==> (tbl[j].body, tbl[j].attr) in s
  }

  lemma NodeNewKnown(tbl: seq<Inode>, t: Tree<Stat>, name: bytes, parent: Option<nat>, dedup: bool,
                     s: set<(Body, Attr)>)
    requires Known(tbl, s) && (!t.Dir? ==> Leaves(t) <= s)
    requires parent.Some? ==> parent.value < |tbl| && tbl[parent.value].body.Directory?
    ensures Known(NodeNew(tbl, t, name, parent, dedup).0, s)
  {
    if !t.Dir? { assert (NewBody(t, parent), AttrOf(t.attr)) in Leaves(t); }
  }

  lemma {:induction false} VisitKnown(tbl: seq<Inode>, t: Tree<Stat>, name: bytes, parent: Option<nat>, dedup: bool,
                                      s: set<(Body, Attr)>)
    requires Proper(t) && Known(tbl, s) && Leaves(t) <= s
    requires parent.Some? ==> parent.value < |tbl| && tbl[parent.value].body.Directory?
    ensures Known(Visit(tbl, t, name, parent, dedup).0, s)
    decreases t
  {
    hide NodeNew, Known;
    NodeNewKnown(tbl, t, name, parent, dedup, s);
    NodeNewEnters(tbl, t, name, parent, dedup);
    if t.Dir? {
      var (tbl1, n) := NodeNew(tbl, t, name, parent, dedup);
      forall i | 0 <= i < |t.kids|
        ensures Leaves(t.kids[i]) <= s
      {
        assert forall x :: x in Leaves(t.kids[i]) ==> x in Leaves(t);
      }
      VisitAllKnown(tbl1, t.names, t.kids, n, dedup, s);
    }
  }

  lemma {:induction false} VisitAllKnown(tbl: seq<Inode>, names: seq<bytes>, kids: seq<Tree<Stat>>, n: nat,
                                         dedup: bool, s: set<(Body, Attr)>)
    requires |names| == |kids| && (forall i :: 0 <= i < |kids| ==> Proper(kids[i]) && Leaves(kids[i]) <= s)
    requires n < |tbl| && tbl[n].body.Directory? && Known(tbl, s)
    ensures Known(VisitAll(tbl, names, kids, n, dedup), s)
    decreases kids
  {
    hide NodeNew, Known, Proper, Leaves, SameShape, KeptDirs, Represents, WithAttrs;
    if kids != [] {
      VisitKnown(tbl, kids[0], names[0], Some(n), dedup, s);
      var r := VisitRepresents(tbl, kids[0], names[0], Some(n), dedup);
      VisitAllKnown(Visit(tbl, kids[0], names[0], Some(n), dedup).0, names[1..], kids[1..], n, dedup, s);
    }
  }

  /** In a table of known files and links, uniform attributes are the source's. */
  lemma {:induction false} UniformFaithful(tbl: seq<Inode>, lo: nat, k: nat, t: Tree<Stat>, r: Tree<Attr>,
                                           s: set<(Body, Attr)>)
    requires Represents(tbl, lo, k, r) && SameShape(t, r) && KeptDirs(t, r)
    requires Known(tbl, s) && Uniform(s) && Leaves(t) <= s
    ensures r == WithAttrs(t)
    decreases t
  {
    if t.Dir? {
      var w := WithAttrs(t);
      forall i | 0 <= i < |t.kids|
        ensures r.kids[i] == w.kids[i]
      {
        assert forall x :: x in Leaves(t.kids[i]) ==> x in Leaves(t);
        UniformFaithful(tbl, k + 1, tbl[k].body.entries[i].number, t.kids[i], r.kids[i], s);
      }
      assert r.kids == w.kids;
    } else {
      assert (tbl[k].body, tbl[k].attr) in s;
      assert (tbl[k].body, AttrOf(t.attr)) in Leaves(t);
    }
  }

  /** A table that stands for the tree itself has a node for every file and link with its attributes. */
  lemma {:induction false} LeafNode(tbl: seq<Inode>, lo: nat, k: nat, t: Tree<Stat>, x: (Body, Attr)) returns (j: nat)
    requires Represents(tbl, lo, k, WithAttrs(t)) && x in Leaves(t)
    ensures j < |tbl| && tbl[j].body == x.0 && tbl[j].attr == x.1 && !tbl[j].body.Directory?
    decreases t
  {
    j := k;
    if t.Dir? {
      var i :| 0 <= i < |t.kids| && x in Leaves(t.kids[i]);
      assert WithAttrs(t).kids[i] == WithAttrs(t.kids[i]);
      j := LeafNode(tbl, k + 1, tbl[k].body.entries[i].number, t.kids[i], x);
    }
  }

  lemma OneNode(tbl: seq<Inode>, i: nat, j: nat)
    requires NoTwins(tbl) && i < |tbl| && j < |tbl| && tbl[i].body == tbl[j].body && !tbl[i].body.Directory?
    ensures i == j
  {
  }

  /**
    Scanning with sharing keeps every attribute exactly when equal files and links had equal attributes
    to begin with; the shape it always keeps.
   */
  lemma SharingFaithful(t: Tree<Stat>) returns (r: Tree<Attr>)
    requires Proper(t) && t.Dir?
    ensures Rooted(Scan(t, true)) && Represents(Scan(t, true), 0, 0, r) && SameShape(t, r)
    ensures r == WithAttrs(t) <==> Uniform(Leaves(t))
  {
    hide Scan, Represents, SameShape, KeptDirs, WithAttrs, Leaves, Known, Proper;
    r := ScanRepresents(t, true);
    var tbl, s := Scan(t, true), Leaves(t);
    ScanKnown(t, true);
    if Uniform(s) {
      UniformFaithful(tbl, 0, 0, t, r, s);
    }
    if r == WithAttrs(t) {
      ScanNoTwins(t);
      forall x, y | x in s && y in s && x.0 == y.0
        ensures x.1 == y.1
      {
        var i := LeafNode(tbl, 0, 0, t, x);
        var j := LeafNode(tbl, 0, 0, t, y);
        OneNode(tbl, i, j);
      }
    }
  }

  lemma ScanKnown(t: Tree<Stat>, dedup: bool)
    requires Proper(t)
    ensures Known(Scan(t, dedup), Leaves(t))
  {
    VisitKnown([], t, [], None, dedup, Leaves(t));
  }

  /** The files of a directory with two files. */
  lemma TwoFiles(t: Tree<Stat>, names: seq<bytes>, a: Tree<Stat>, b: Tree<Stat>)
    requires |names| == 2 && t == Dir(t.attr, names, [a, b]) && a.File? && b.File?
    ensures Proper(t)
    ensures Leaves(t) == {(RegularFile(a.content), AttrOf(a.attr)), (RegularFile(b.content), AttrOf(b.attr))}
  {
    hide AttrOf;
    var x, y: (Body, Attr) := (RegularFile(a.content), AttrOf(a.attr)), (RegularFile(b.content), AttrOf(b.attr));
    assert t.kids[0] == a && t.kids[1] == b;
    assert x in Leaves(t.kids[0]) && y in Leaves(t.kids[1]);
    forall z | z in Leaves(t)
      ensures z == x || z == y
    {
      var i :| 0 <= i < |t.kids| && z in Leaves(t.kids[i]);
    }
  }

  /** Two empty files of different modes: sharing them, the second one's mode is lost. */
  lemma SharingLosesModes() returns (t: Tree<Stat>, r: Tree<Attr>)
    ensures t == Dir(Stat(0, 0, 0, 0, 0), [[97], [98]], [File(Stat(0, 0, 0, 0, 0), []), File(Stat(64, 0, 0, 0, 0), [])])
    ensures Proper(t) && Represents(Scan(t, true), 0, 0, r) && SameShape(t, r) && r != WithAttrs(t)
  {
    hide Proper, Leaves, Represents, SameShape, WithAttrs, Scan;
    var a, b := Stat(0, 0, 0, 0, 0), Stat(64, 0, 0, 0, 0);
    t := Dir(a, [[97], [98]], [File(a, []), File(b, [])]);
    TwoFiles(t, t.names, File(a, []), File(b, []));
    assert AttrOf(a).owner != AttrOf(b).owner;
    r := SharingFaithful(t);
  }
}
