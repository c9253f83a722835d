/** The image builder's node table, and scanning a source tree into it. */
module Builders {
  import opened Seqs
  import opened MergeSort
  import opened HashList
  import opened UtHash
  import opened Format
  import opened Reader
  import opened Scanning

  class Node {
    const number: nat
    const kind: nat
    const ntype: nat
    const attr: Attr
    const path: bytes
    /** The content, target or entries; a directory's is replaced by a longer one for every entry it gets. */
    var body: Body
    var size: int
    var block: int
    var index: int

    constructor (number: nat, attr: Attr, path: bytes, body: Body)
      ensures this.number == number && AsInode() == Inode(path, attr, body) && Consistent()
    {
      this.number, this.attr, this.path, this.body := number, attr, path, body;
      kind, ntype := Kind(body), Ntype(body);
      size, block, index := 0, 0, 0;
    }

    ghost function AsInode(): Inode
      reads this`body
    {
      Inode(path, attr, body)
    }

    ghost predicate Consistent()
      reads this`body
    {
      kind == Kind(body) && ntype == Ntype(body)
    }
  }

  /** The elements of a table in application order. */
  function ElementsOf(hs: seq<Handle<Node>>): (ns: seq<Node>)
    ensures |ns| == |hs| && forall i :: 0 <= i < |hs| ==> ns[i] == hs[i].elmt
  {
    MapSeq((h: Handle<Node>) => h.elmt, hs)
  }

  /** HASH_ITER: the elements found by following `next` from the head. */
  method Elements(table: Table<Node>) returns (ns: seq<Node>)
    requires table.Valid()
    ensures ns == ElementsOf(table.order)
  {
    ns := [];
    var h, i := table.head, 0;
    while h != null
      invariant 0 <= i <= |table.order| && h == (if i < |table.order| then table.order[i] else null)
      invariant ns == ElementsOf(table.order)[..i]
      decreases |table.order| - i
    {
      ns := ns + [h.elmt];
      assert i + 1 < |table.order| ==> table.order[i].next == table.order[i + 1];
      h, i := h.next, i + 1;
    }
  }

  class Builder {
    const table: Table<Node>
    const opts: Opts
    var nodesId: nat
    ghost var repr: set<object>

    constructor (opts: Opts, hash: int -> nat)
      ensures Holds([]) && this.opts == opts && fresh(repr)
    {
      this.opts := opts;
      nodesId := 0;
      var tbl := new Table<Node>(hash);
      table := tbl;
      repr := {this, tbl, tbl.buckets};
    }

    ghost function Nodes(): seq<Node>
      reads this, table`order
    {
      ElementsOf(table.order)
    }

    ghost predicate Valid()
      reads this, repr
    {
      && this in repr && table in repr && table.buckets in repr
      && (forall h :: h in table.order ==> h in repr && h.elmt in repr)
      && table.Valid()
    }

    /** The nodes, in the order they were added, are the table `tbl`. */
    ghost predicate Holds(tbl: seq<Inode>)
      reads this, repr
    {
      && Valid() && nodesId == |tbl| == |table.order|
      && forall i :: 0 <= i < |tbl| ==>
           var n := table.order[i].elmt; n.number == i && n.AsInode() == tbl[i] && n.Consistent()
    }

    lemma Member(tbl: seq<Inode>, n: Node)
      requires Holds(tbl) && n in Nodes()
      ensures n in repr && n.number < |tbl| && tbl[n.number] == n.AsInode() && n.Consistent()
    {
      hide Table.Valid;
    }

    lemma Counted(tbl: seq<Inode>)
      requires Holds(tbl)
      ensures nodesId == |tbl| && this in repr
    {
      hide Table.Valid;
    }

    /** The search for an earlier file with the same bytes or link with the same target. */
    method FindDuplicate(body: Body, ghost tbl: seq<Inode>) returns (dup: Node?)
      requires Holds(tbl)
      ensures dup == null <==> FindTwin(tbl, body, 0).None?
      ensures dup != null ==> dup in Nodes() && dup.number == FindTwin(tbl, body, 0).value
    {
      hide Table.Valid;
      dup := null;
      if body.Directory? {
        return;
      }
      var ns := Elements(table);
      var i := 0;
      while i < |ns|
        invariant 0 <= i <= |ns| && FindTwin(tbl, body, i) == FindTwin(tbl, body, 0)
      {
        if ns[i].kind == Kind(body) && ns[i].body == body {
          return ns[i];
        }
        i := i + 1;
      }
    }

    /** The parent's directory is replaced by one with `e` behind its entries. */
    method Enter(parent: Node, e: Entry, ghost tbl: seq<Inode>)
      requires Holds(tbl) && parent in Nodes() && parent.body.Directory?
      modifies parent`body
      ensures Holds(AddEntry(tbl, Some(parent.number), e)) && parent.body.Directory?
    {
      hide Table.Valid;
      parent.body := Directory(parent.body.parent, parent.body.entries + [e]);
    }

    /** HASH_ADD of a new node. */
    method Append(node: Node, ghost tbl: seq<Inode>)
      requires Holds(tbl) && node !in repr && node.number == nodesId && node.Consistent()
      modifies repr
      ensures Holds(tbl + [node.AsInode()]) && node in Nodes() && repr > old(repr) && fresh(repr - old(repr) - {node})
      ensures Nodes() == old(Nodes()) + [node] && forall n :: n in Nodes() ==> n.body == old(n.body)
    {
      hide Table.Valid;
      var h := new Handle<Node>(node, node.number);
      ghost var before := table.order;
      table.Add(h);
      assert table.order == before + [h];
      repr := repr + {h, node, table.buckets};
      nodesId := nodesId + 1;
      assert Nodes() == old(Nodes()) + [node];
    }

    /** node_new. */
    method NodeNew(t: Tree<Stat>, name: bytes, parent: Node?, ghost tbl: seq<Inode>) returns (node: Node)
      requires Holds(tbl) && (parent != null ==> parent in Nodes() && parent.body.Directory?)
      modifies repr
      ensures fresh(repr - old(repr)) && old(repr) <= repr && old(Nodes()) <= Nodes()
      ensures var p := if parent == null then None else Some(parent.number);
              var (tbl', n) := Scanning.NodeNew(tbl, t, name, p, !opts.noDuplicates);
              Holds(tbl') && node in Nodes() && node.number == n
    {
      hide Holds, Nodes;
      Counted(tbl);
      var body := NewBody(t, if parent == null then None else Some(parent.number));
      var dup: Node? := null;
      if !opts.noDuplicates {
        dup := FindDuplicate(body, tbl);
      }
      if dup == null {
        node := new Node(nodesId, AttrOf(t.attr), name, body);
      } else {
        node := dup;
        Member(tbl, dup);
      }
      ghost var tbl1 := tbl;
      if parent != null {
        Member(tbl, parent);
        var e := Entry(node.number, node.kind, name);
        Enter(parent, e, tbl);
        tbl1 := AddEntry(tbl, Some(parent.number), e);
      }
      if dup == null {
        Append(node, tbl1);
      }
    }

    /** One step of the traversal below a source: the item, then everything below it, in order. */
    method Visit(t: Tree<Stat>, name: bytes, parent: Node?, ghost tbl: seq<Inode>)
      returns (node: Node, ghost tbl': seq<Inode>)
      requires Proper(t) && Holds(tbl) && (parent != null ==> parent in Nodes() && parent.body.Directory?)
      modifies repr
      ensures fresh(repr - old(repr)) && old(repr) <= repr && old(Nodes()) <= Nodes()
      ensures var p := if parent == null then None else Some(parent.number);
              (tbl', node.number) == Scanning.Visit(tbl, t, name, p, !opts.noDuplicates)
      ensures Holds(tbl') && node in Nodes()
      decreases t
    {
      hide Holds, Nodes, Scanning.NodeNew, Proper, SameShape, KeptDirs, Represents, WithAttrs, AddEntry, NumberFor;
      ghost var p := if parent == null then None else Some(parent.number);
      if parent != null { Member(tbl, parent); }
      node := NodeNew(t, name, parent, tbl);
      tbl' := Scanning.NodeNew(tbl, t, name, p, !opts.noDuplicates).0;
      NodeNewEnters(tbl, t, name, p, !opts.noDuplicates);
      if t.Dir? {
        ProperKids(t);
        ghost var tbl1, dedup := tbl', !opts.noDuplicates;
        var i := 0;
        while i < |t.kids|
          invariant 0 <= i <= |t.kids| && Holds(tbl') && node in Nodes()
          invariant fresh(repr - old(repr)) && old(repr) <= repr && old(Nodes()) <= Nodes()
          invariant node.number < |tbl'| && tbl'[node.number].body.Directory?
          invariant VisitAll(tbl', t.names[i..], t.kids[i..], node.number, dedup)
                 == VisitAll(tbl1, t.names, t.kids, node.number, dedup)
        {
          ghost var r := VisitRepresents(tbl', t.kids[i], t.names[i], Some(node.number), dedup);
          VisitAllNext(tbl', t.names, t.kids, i, node.number, dedup);
          Member(tbl', node);
          var kid;
          kid, tbl' := Visit(t.kids[i], t.names[i], node, tbl');
          i := i + 1;
        }
      }
    }

    /** sources_scan, for a single directory as source. */
    method Scan(t: Tree<Stat>) returns (ghost tbl: seq<Inode>)
      requires Proper(t) && Holds([])
      modifies repr
      ensures Holds(tbl) && tbl == Scanning.Scan(t, !opts.noDuplicates) && fresh(repr - old(repr)) && old(repr) <= repr
    {
      hide Holds;
      var root;
      root, tbl := Visit(t, [], null, []);
    }
  }

  lemma ProperKids(t: Tree<Stat>)
    requires Proper(t) && t.Dir?
    ensures |t.names| == |t.kids| && (forall i :: 0 <= i < |t.kids| ==> Proper(t.kids[i]))
    ensures t.names[0..] == t.names && t.kids[0..] == t.kids
  {
  }

  lemma VisitAllNext(tbl: seq<Inode>, names: seq<bytes>, kids: seq<Tree<Stat>>, i: nat, n: nat, dedup: bool)
    requires i < |kids| == |names| && forall i :: 0 <= i < |kids| ==> Proper(kids[i])
    ensures VisitAll(tbl, names[i..], kids[i..], n, dedup)
         == VisitAll(Scanning.Visit(tbl, kids[i], names[i], Some(n), dedup).0, names[i + 1..], kids[i + 1..], n, dedup)
  {
    hide Scanning.Visit, Proper;
    assert names[i..][1..] == names[i + 1..] && kids[i..][1..] == kids[i + 1..];
  }
}
