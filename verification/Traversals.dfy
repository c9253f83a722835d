/** What traversing any image comes to, whatever the disk and on a given disk, and when it ends. */
module Traversals {
  import opened Seqs
  import opened Format
  import opened Reader
  import opened Extraction
  import opened Delivery

  /** What the entries `es` of a directory come to. */
  ghost predicate WalksAll(m: Mounted, es: seq<Entry>, names: seq<bytes>, kids: seq<Step>)
    decreases kids, 0
  {
    && |es| == |names| == |kids|
    && forall i :: 0 <= i < |kids| ==> names[i] == CString(es[i].name) && Walks(m, es[i].number, kids[i])
  }

  /** Node `n` can be filled and its first block looked up. */
  ghost predicate Found(m: Mounted, n: nat) {
    Sane(m) && n < m.sb.inodes && NodeFill(m, n).block < m.sb.blocks
  }

  /** And, if it is of a type that is read, its blocks lie inside the image. */
  ghost predicate InBounds(m: Mounted, n: nat) {
    && Found(m, n)
    && var r := NodeFill(m, n); Known(r.kind) ==> Spans(m, r.block, r.index, r.size)
  }

  predicate Known(kind: nat) {
    kind == TYPE_REGULAR_FILE || kind == TYPE_DIRECTORY || kind == TYPE_SYMBOLIC_LINK
  }

  /** Reading node `n` hands on `v` and reports `ok`. */
  ghost predicate Gives(m: Mounted, n: nat, ok: bool, v: bytes)
    requires Found(m, n)
  {
    var r := NodeFill(m, n);
    Spans(m, r.block, r.index, r.size) && Handed(m, r.block, r.index, r.size, ok, v)
  }

  /** Traversing node `n` may come to `s`; only memory never written leaves a choice. */
  ghost predicate Walks(m: Mounted, n: nat, s: Step)
    decreases s, 1
  {
    && InBounds(m, n)
    && var r := NodeFill(m, n);
       match s
       case MakeFile(attr, content) => r.kind == TYPE_REGULAR_FILE && attr == OwnerFrom(r) && Gives(m, n, true, content)
       case BrokenFile(attr, front) => r.kind == TYPE_REGULAR_FILE && attr == OwnerFrom(r) && Gives(m, n, false, front)
       case MakeLink(attr, target) =>
         && r.kind == TYPE_SYMBOLIC_LINK && attr == OwnerFrom(r)
         && exists v :: Gives(m, n, true, v) && target == CString(v)
       case BrokenLink => r.kind == TYPE_SYMBOLIC_LINK && exists v :: Gives(m, n, false, v)
       case MakeDir(attr, names, kids) =>
         && r.kind == TYPE_DIRECTORY && attr == OwnerFrom(r)
         && exists v :: Gives(m, n, true, v) && ParseDir(m.sb.db, v).Some?
                        && WalksAll(m, ParseDir(m.sb.db, v).value.entries, names, kids)
       case BrokenDir(attr) => r.kind == TYPE_DIRECTORY && attr == OwnerFrom(r) && exists v :: Gives(m, n, false, v)
       case UnknownType => !Known(r.kind)
  }

  /**
    Traversing node `n` ends whatever is on the disk, at most `depth` directories deep, and stays inside the
    image and inside what it read: a directory parses and a link's target ends, whatever is handed on.
   */
  ghost predicate Ends(m: Mounted, n: nat, depth: nat)
    decreases depth
  {
    && InBounds(m, n)
    && var r := NodeFill(m, n);
       && (r.kind == TYPE_SYMBOLIC_LINK ==> forall v :: Gives(m, n, true, v) ==> 0 in v)
       && (r.kind == TYPE_DIRECTORY ==>
             forall v :: Gives(m, n, true, v) ==>
               && depth > 0 && ParseDir(m.sb.db, v).Some?
               && forall e :: e in ParseDir(m.sb.db, v).value.entries ==> Ends(m, e.number, depth - 1))
  }

  /** A traversal that ends comes to something. */
  lemma {:induction false} SomeWalk(m: Mounted, n: nat, depth: nat) returns (s: Step)
    requires Ends(m, n, depth)
    ensures Walks(m, n, s)
    decreases depth, 1
  {
    hide NodeFill, HasNode, HasBlock, BlockFill, Readable, Handed, CString, OwnerFrom, ParseDir, Spans, Uncompresses;
    var r := NodeFill(m, n);
    if !Known(r.kind) { return UnknownType; }
    var v := SomethingHanded(m, r.block, r.index, r.size);
    var ok, attr := Uncompresses(m, r.block, r.index, r.size), OwnerFrom(r);
    assert Gives(m, n, ok, v);
    if r.kind == TYPE_REGULAR_FILE {
      s := if ok then MakeFile(attr, v) else BrokenFile(attr, v);
    } else if r.kind == TYPE_SYMBOLIC_LINK {
      s := if ok then MakeLink(attr, CString(v)) else BrokenLink;
    } else if ok {
      var names, kids := SomeWalks(m, ParseDir(m.sb.db, v).value.entries, depth - 1);
      s := MakeDir(attr, names, kids);
    } else {
      s := BrokenDir(attr);
    }
  }

  lemma {:induction false} SomeWalks(m: Mounted, es: seq<Entry>, depth: nat)
    returns (names: seq<bytes>, kids: seq<Step>)
    requires forall e :: e in es ==> Ends(m, e.number, depth)
    ensures WalksAll(m, es, names, kids)
    decreases depth, 2, |es|
  {
    hide Walks, Ends, CString;
    names, kids := [], [];
    if es != [] {
      var s := SomeWalk(m, es[0].number, depth);
      names, kids := SomeWalks(m, es[1..], depth);
      names, kids := [CString(es[0].name)] + names, [s] + kids;
    }
  }

  /** Whole blocks give one thing only. */
  lemma GivesWhole(m: Mounted, n: nat, ok: bool, v: bytes)
    requires Reachable(m, n) && Gives(m, n, ok, v)
    ensures ok && Content(m, NodeFill(m, n)) == Some(v)
  {
    hide Spans, Handed, NodeFill, HasNode, HasBlock, BlockFill, Readable, ReadFrom;
    var r := NodeFill(m, n);
    HandedWhole(m, r.block, r.index, r.size, ok, v);
  }

  lemma WholeGives(m: Mounted, n: nat)
    requires Reachable(m, n)
    ensures Found(m, n) && Gives(m, n, true, Content(m, NodeFill(m, n)).value)
  {
    hide Handed, NodeFill, HasNode, HasBlock, BlockFill, Readable, ReadFrom, Spans;
    var r := NodeFill(m, n);
    WholeReads(m, r.block, r.index, r.size);
    var v := SomethingHanded(m, r.block, r.index, r.size);
    HandedWhole(m, r.block, r.index, r.size, true, v);
  }

  /** Nodes that yield a tree are traversed in one way, and to its end. */
  lemma {:induction false} YieldsWalks(m: Mounted, n: nat, t: Tree<Owner>, s: Step)
    requires Yields(m, n, t) && Walks(m, n, s)
    ensures s == StepOf(t)
    decreases t
  {
    hide NodeFill, HasNode, HasBlock, BlockFill, Readable, Gives, Content, Spans, CString, OwnerFrom, ParseDir;
    forall ok, v | Gives(m, n, ok, v)
      ensures ok && Content(m, NodeFill(m, n)) == Some(v)
    {
      GivesWhole(m, n, ok, v);
    }
    if t.Dir? {
      var es := ParseDir(m.sb.db, Content(m, NodeFill(m, n)).value).value.entries;
      assert WalksAll(m, es, s.names, s.kids);
      forall i | 0 <= i < |es|
        ensures s.kids[i] == StepOf(t.kids[i]) && s.names[i] == t.names[i]
      {
        YieldsWalks(m, es[i].number, t.kids[i], s.kids[i]);
      }
      assert s.names == t.names && s.kids == StepsOf(t.kids);
    }
  }

  /** How deep the directories of a tree go. */
  function Depth<A>(t: Tree<A>): nat {
    if t.Dir? then 1 + DepthAll(t.kids) else 0
  }

  function DepthAll<A>(kids: seq<Tree<A>>): (r: nat)
    ensures forall i :: 0 <= i < |kids| ==> Depth(kids[i]) <= r
  {
    if kids == [] then 0
    else
      var a, b := Depth(kids[0]), DepthAll(kids[1..]);
      assert forall i :: 1 <= i < |kids| ==> kids[i] == kids[1..][i - 1];
      if a < b then b else a
  }

  lemma {:induction false} YieldsEnds(m: Mounted, n: nat, t: Tree<Owner>, depth: nat)
    requires Yields(m, n, t) && Depth(t) <= depth
    ensures Ends(m, n, depth)
    decreases t
  {
    hide NodeFill, HasNode, HasBlock, BlockFill, Readable, Gives, Content, Spans, CString, OwnerFrom, ParseDir;
    forall ok, v | Gives(m, n, ok, v)
      ensures ok && Content(m, NodeFill(m, n)) == Some(v)
    {
      GivesWhole(m, n, ok, v);
    }
    if t.Dir? {
      var es := ParseDir(m.sb.db, Content(m, NodeFill(m, n)).value).value.entries;
      forall e | e in es
        ensures Ends(m, e.number, depth - 1)
      {
        var i :| 0 <= i < |es| && es[i] == e;
        YieldsEnds(m, e.number, t.kids[i], depth - 1);
      }
    }
  }

  // ---------- on a given disk ----------

  /**
    Traversing node `n` as `name` on disk `d` may come to `s`. Of a file that cannot be opened and a directory
    that cannot be entered nothing is read, so what `s` says of their contents does not matter.
   */
  ghost predicate Performs(m: Mounted, n: nat, d: Disk, u: User, name: bytes, s: Step)
    decreases s, 1
  {
    && Found(m, n)
    && var r := NodeFill(m, n);
       if r.kind == TYPE_DIRECTORY then
         && (s.MakeDir? || s.BrokenDir?) && s.attr == OwnerFrom(r)
         && var (entered, d') := Enter(d, u, name, s.attr.mode);
            entered ==>
              && InBounds(m, n)
              && if s.BrokenDir? then exists v :: Gives(m, n, false, v)
                 else exists v :: Gives(m, n, true, v) && ParseDir(m.sb.db, v).Some?
                                  && PerformsAll(m, ParseDir(m.sb.db, v).value.entries, d', u, s.names, s.kids)
       else if r.kind == TYPE_REGULAR_FILE then
         && (s.MakeFile? || s.BrokenFile?) && s.attr == OwnerFrom(r)
         && (Opens(d, u, name, s.attr.mode) ==> InBounds(m, n) && Gives(m, n, s.MakeFile?, s.content))
       else if r.kind == TYPE_SYMBOLIC_LINK then Walks(m, n, s)
       else s == UnknownType
  }

  /** The file can be created, once what has its name is unlinked. */
  predicate Opens(d: Disk, u: User, name: bytes, mode: nat) {
    Create(Unlink(d, name), u, name, mode, []).Some?
  }

  /** Traversing the entries `es`, each on the disk the one before it left. */
  ghost predicate PerformsAll(m: Mounted, es: seq<Entry>, d: Disk, u: User, names: seq<bytes>, kids: seq<Step>)
    decreases kids, 0
  {
    && |es| == |names| == |kids|
    && (es == [] ||
        (&& names[0] == CString(es[0].name) && Performs(m, es[0].number, d, u, names[0], kids[0])
         && PerformsAll(m, es[1..], Run(d, u, names[0], kids[0]), u, names[1..], kids[1..])))
  }

  /**
    Traversing node `n` as `name` on disk `d` ends, at most `depth` directories deep, and stays inside the
    image and what it read.
   */
  ghost predicate Halts(m: Mounted, n: nat, d: Disk, u: User, name: bytes, depth: nat)
    decreases depth, 0
  {
    && Found(m, n)
    && var r := NodeFill(m, n);
       && (r.kind == TYPE_SYMBOLIC_LINK ==> InBounds(m, n) && forall v :: Gives(m, n, true, v) ==> 0 in v)
       && (r.kind == TYPE_REGULAR_FILE && Opens(d, u, name, OwnerFrom(r).mode) ==> InBounds(m, n))
       && var (entered, d') := Enter(d, u, name, OwnerFrom(r).mode);
          r.kind == TYPE_DIRECTORY && entered ==>
            && InBounds(m, n)
            && forall v :: Gives(m, n, true, v) ==>
                 && depth > 0 && ParseDir(m.sb.db, v).Some?
                 && HaltsAll(m, ParseDir(m.sb.db, v).value.entries, d', u, depth - 1)
  }

  ghost predicate HaltsAll(m: Mounted, es: seq<Entry>, d: Disk, u: User, depth: nat)
    decreases depth, |es| + 1
  {
    es == [] ||
    (&& Halts(m, es[0].number, d, u, CString(es[0].name), depth)
     && forall s :: Performs(m, es[0].number, d, u, CString(es[0].name), s) ==>
          HaltsAll(m, es[1..], Run(d, u, CString(es[0].name), s), u, depth))
  }

  /** A traversal that ends on every disk ends on this one. */
  lemma {:induction false} EndsHalts(m: Mounted, n: nat, d: Disk, u: User, name: bytes, depth: nat)
    requires Ends(m, n, depth)
    ensures Halts(m, n, d, u, name, depth)
    decreases depth, 0
  {
    hide NodeFill, HasNode, HasBlock, BlockFill, Readable, Gives, Spans, OwnerFrom, ParseDir, Enter;
    var r := NodeFill(m, n);
    var (entered, d') := Enter(d, u, name, OwnerFrom(r).mode);
    if r.kind == TYPE_DIRECTORY && entered {
      forall v | Gives(m, n, true, v)
        ensures HaltsAll(m, ParseDir(m.sb.db, v).value.entries, d', u, depth - 1)
      {
        EndsHaltsAll(m, ParseDir(m.sb.db, v).value.entries, d', u, depth - 1);
      }
    }
  }

  lemma {:induction false} EndsHaltsAll(m: Mounted, es: seq<Entry>, d: Disk, u: User, depth: nat)
    requires forall e :: e in es ==> Ends(m, e.number, depth)
    ensures HaltsAll(m, es, d, u, depth)
    decreases depth, |es| + 1
  {
    hide Ends, Halts, Performs, CString, Run;
    if es != [] {
      EndsHalts(m, es[0].number, d, u, CString(es[0].name), depth);
      forall s | Performs(m, es[0].number, d, u, CString(es[0].name), s)
        ensures HaltsAll(m, es[1..], Run(d, u, CString(es[0].name), s), u, depth)
      {
        EndsHaltsAll(m, es[1..], Run(d, u, CString(es[0].name), s), u, depth);
      }
    }
  }

  /** What a traversal comes to when every directory is read, it may come to on any disk. */
  lemma {:induction false} WalksPerforms(m: Mounted, n: nat, d: Disk, u: User, name: bytes, s: Step)
    requires Walks(m, n, s)
    ensures Performs(m, n, d, u, name, s)
    decreases s, 1
  {
    hide NodeFill, HasNode, Gives, Spans, Sane, OwnerFrom, ParseDir, Enter, CString;
    if s.MakeDir? {
      var v :| Gives(m, n, true, v) && ParseDir(m.sb.db, v).Some?
               && WalksAll(m, ParseDir(m.sb.db, v).value.entries, s.names, s.kids);
      WalksPerformsAll(m, ParseDir(m.sb.db, v).value.entries, Enter(d, u, name, s.attr.mode).1, u, s.names, s.kids);
    }
  }

  lemma {:induction false} WalksPerformsAll(m: Mounted, es: seq<Entry>, d: Disk, u: User, names: seq<bytes>,
                                            kids: seq<Step>)
    requires WalksAll(m, es, names, kids)
    ensures PerformsAll(m, es, d, u, names, kids)
    decreases kids, 0
  {
    hide Walks, Performs, CString, Run;
    if es != [] {
      WalksPerforms(m, es[0].number, d, u, names[0], kids[0]);
      WalksPerformsAll(m, es[1..], Run(d, u, names[0], kids[0]), u, names[1..], kids[1..]);
    }
  }

  /** Whatever the traversal of a node that yields a tree comes to, it does to the disk what making the tree does. */
  lemma {:induction false} YieldsPerforms(m: Mounted, n: nat, d: Disk, u: User, name: bytes, t: Tree<Owner>, s: Step)
    requires Yields(m, n, t) && Performs(m, n, d, u, name, s)
    ensures Run(d, u, name, s) == Run(d, u, name, StepOf(t))
    decreases t
  {
    hide NodeFill, HasNode, HasBlock, BlockFill, Readable, Gives, Content, Spans, CString, OwnerFrom, ParseDir, Enter,
      RunAll, Finish, Up, Opens, Create, Unlink, Symlink;
    forall ok, v | Gives(m, n, ok, v)
      ensures ok && Content(m, NodeFill(m, n)) == Some(v)
    {
      GivesWhole(m, n, ok, v);
    }
    if t.Dir? {
      var (entered, d') := Enter(d, u, name, s.attr.mode);
      if entered {
        YieldsPerformsAll(m, ParseDir(m.sb.db, Content(m, NodeFill(m, n)).value).value.entries, d', u, t.names, t.kids,
                          s.names, s.kids);
      }
    } else if t.File? {
      if !Opens(d, u, name, t.attr.mode) {
        RunUnopened(d, u, name, s);
        RunUnopened(d, u, name, StepOf(t));
      }
    } else {
      YieldsWalks(m, n, t, s);
    }
  }

  lemma RunUnopened(d: Disk, u: User, name: bytes, s: Step)
    requires (s.MakeFile? || s.BrokenFile?) && !Opens(d, u, name, s.attr.mode)
    ensures Run(d, u, name, s) == Unlink(d, name)
  {
    hide Named, Unlink, Finish, Up;
  }

  lemma {:induction false} YieldsPerformsAll(m: Mounted, es: seq<Entry>, d: Disk, u: User, names: seq<bytes>,
                                             kids: seq<Tree<Owner>>, names': seq<bytes>, kids': seq<Step>)
    requires |es| == |names| == |kids|
    requires forall i :: 0 <= i < |kids| ==> names[i] == CString(es[i].name) && Yields(m, es[i].number, kids[i])
    requires PerformsAll(m, es, d, u, names', kids')
    ensures RunAll(d, u, names', kids') == RunAll(d, u, names, StepsOf(kids))
    decreases kids
  {
    hide Yields, Performs, CString, Run;
    if es != [] {
      YieldsPerforms(m, es[0].number, d, u, names[0], kids[0], kids'[0]);
      YieldsPerformsAll(m, es[1..], Run(d, u, names[0], kids'[0]), u, names[1..], kids[1..], names'[1..], kids'[1..]);
      assert StepsOf(kids)[1..] == StepsOf(kids[1..]);
    }
  }
}
