/** What a traversal does to a disk, told from the image: when it comes back and, on clear ground, when it ends. */
module Outcomes {
  import opened Format
  import opened Reader
  import opened Extraction
  import opened Delivery
  import opened Traversals
  import opened Returning
  import opened Endings

  /** If node `k` is a file or link, every block of it uncompresses. */
  ghost predicate Uncompressed(m: Mounted, k: nat) {
    InBounds(m, k) ==>
      var r := NodeFill(m, k);
      r.kind == TYPE_REGULAR_FILE || r.kind == TYPE_SYMBOLIC_LINK ==> Uncompresses(m, r.block, r.index, r.size)
  }

  /** Every file and link below node `n` does. */
  ghost predicate AllUncompressed(m: Mounted, n: nat) {
    forall p :: Trail(m, p) && p[0] == n ==> Uncompressed(m, Last(p))
  }

  /** If node `k` is a directory, it lists names a directory can hold, no two alike. */
  ghost predicate WellNamed(m: Mounted, k: nat) {
    InBounds(m, k) && NodeFill(m, k).kind == TYPE_DIRECTORY ==>
      forall v :: Gives(m, k, true, v) && ParseDir(m.sb.db, v).Some? ==> Holdable(ParseDir(m.sb.db, v).value.entries)
  }

  ghost predicate Holdable(es: seq<Entry>) {
    && (forall i :: 0 <= i < |es| ==> Plain(CString(es[i].name)))
    && forall i, j :: 0 <= i < j < |es| ==> CString(es[i].name) != CString(es[j].name)
  }

  ghost predicate AllWellNamed(m: Mounted, n: nat) {
    forall p :: Trail(m, p) && p[0] == n ==> WellNamed(m, Last(p))
  }

  /** No link below node `n`. */
  ghost predicate NoLinkNodes(m: Mounted, n: nat) {
    forall p :: Trail(m, p) && p[0] == n ==> NotALink(m, Last(p))
  }

  ghost predicate NotALink(m: Mounted, k: nat) {
    InBounds(m, k) ==> NodeFill(m, k).kind != TYPE_SYMBOLIC_LINK
  }

  // ---------- what holds below a node holds below what it lists ----------

  lemma OneTrail(m: Mounted, n: nat)
    ensures Trail(m, [n]) && [n][0] == n && Last([n]) == n
  {
  }

  lemma TrailBefore(m: Mounted, a: nat, p: seq<nat>)
    requires Trail(m, p) && Lists(m, a, p[0])
    ensures Trail(m, [a] + p) && Last([a] + p) == Last(p) && ([a] + p)[0] == a
  {
    hide Lists;
    var q := [a] + p;
    forall i | 0 < i < |q|
      ensures Lists(m, q[i - 1], q[i])
    {
      if i > 1 { assert Lists(m, p[i - 1 - 1], p[i - 1]); }
    }
  }

  lemma Inherits(m: Mounted, a: nat, b: nat)
    requires Lists(m, a, b)
    ensures AllUncompressed(m, a) ==> AllUncompressed(m, b)
    ensures AllWellNamed(m, a) ==> AllWellNamed(m, b)
    ensures NoLinkNodes(m, a) ==> NoLinkNodes(m, b)
  {
    hide Lists, Uncompressed, WellNamed, NotALink;
    forall p | Trail(m, p) && p[0] == b
      ensures Trail(m, [a] + p) && Last([a] + p) == Last(p) && ([a] + p)[0] == a
    {
      TrailBefore(m, a, p);
    }
  }

  lemma AtNode(m: Mounted, n: nat)
    ensures AllUncompressed(m, n) ==> Uncompressed(m, n)
    ensures AllWellNamed(m, n) ==> WellNamed(m, n)
    ensures NoLinkNodes(m, n) ==> NotALink(m, n)
  {
    hide Uncompressed, WellNamed, NotALink;
    OneTrail(m, n);
  }

  // ---------- traversals told from the image ----------

  lemma LeafWhole(m: Mounted, n: nat, s: Step)
    requires Walks(m, n, s) && !s.MakeDir?
    ensures Whole(s) <==> Uncompressed(m, n)
  {
    hide NodeFill, HasNode, HasBlock, BlockFill, Readable, Handed, ParseDir, Uncompresses, CString, OwnerFrom;
    var r := NodeFill(m, n);
    forall ok, v | Gives(m, n, ok, v)
      ensures ok <==> Uncompresses(m, r.block, r.index, r.size)
    {
      HandedReport(m, r.block, r.index, r.size, ok, v);
    }
  }

  /** Names and types as the image has them. */
  lemma {:induction false} WalkShape(m: Mounted, n: nat, s: Step)
    requires Walks(m, n, s)
    ensures AllUncompressed(m, n) ==> Whole(s)
    ensures AllWellNamed(m, n) ==> Neat(s)
    ensures NoLinkNodes(m, n) ==> Linkfree(s)
    decreases s
  {
    hide NodeFill, HasNode, HasBlock, BlockFill, Readable, Gives, ParseDir, Spans, CString, OwnerFrom,
      AllUncompressed, AllWellNamed, NoLinkNodes, Uncompressed, Plain;
    AtNode(m, n);
    if s.MakeDir? {
      var v :| Gives(m, n, true, v) && ParseDir(m.sb.db, v).Some?
               && WalksAll(m, ParseDir(m.sb.db, v).value.entries, s.names, s.kids);
      var es := ParseDir(m.sb.db, v).value.entries;
      forall i | 0 <= i < |es|
        ensures AllUncompressed(m, n) ==> Whole(s.kids[i])
        ensures AllWellNamed(m, n) ==> Neat(s.kids[i])
        ensures NoLinkNodes(m, n) ==> Linkfree(s.kids[i])
      {
        ListsEntry(m, n, v, es[i]);
        Inherits(m, n, es[i].number);
        WalkShape(m, es[i].number, s.kids[i]);
      }
    } else {
      LeafWhole(m, n, s);
    }
  }

  /** A file or link that cannot be read in full can be met with. */
  lemma {:induction false} MeetsBroken(m: Mounted, p: seq<nat>, depth: nat) returns (s: Step)
    requires Trail(m, p) && Ends(m, p[0], depth) && !Uncompressed(m, Last(p))
    ensures Walks(m, p[0], s) && !Whole(s)
    decreases |p|
  {
    hide NodeFill, HasNode, HasBlock, BlockFill, Readable, Gives, ParseDir, Spans, CString, OwnerFrom, Whole;
    if |p| == 1 {
      s := SomeWalk(m, p[0], depth);
      BrokenLeaf(m, p[0], s);
      LeafWhole(m, p[0], s);
    } else {
      assert Lists(m, p[1 - 1], p[1]);
      var v :| ListsIn(m, p[0], v, p[1]);
      var es := ParseDir(m.sb.db, v).value.entries;
      var e :| e in es && e.number == p[1];
      var i :| 0 <= i < |es| && es[i] == e;
      var names, kids := SomeWalks(m, es, depth - 1);
      TrailRest(m, p);
      var kid := MeetsBroken(m, p[1..], depth - 1);
      s := MakeDir(OwnerFrom(NodeFill(m, p[0])), names, kids[i := kid]);
      assert WalksAll(m, es, names, kids[i := kid]);
      BrokenKid(s, i);
    }
  }

  lemma BrokenLeaf(m: Mounted, n: nat, s: Step)
    requires Walks(m, n, s) && !Uncompressed(m, n)
    ensures !s.MakeDir?
  {
    hide NodeFill, HasNode, HasBlock, BlockFill, Readable, Gives, ParseDir, Spans, CString, OwnerFrom, Uncompresses;
  }

  lemma BrokenKid(s: Step, i: nat)
    requires s.MakeDir? && i < |s.kids| && !Whole(s.kids[i])
    ensures !Whole(s)
  {
  }

  /** A traversal that ends can be trusted to be whole exactly when every file and link below the node can be read. */
  lemma WholeExactly(m: Mounted, n: nat, depth: nat)
    requires Ends(m, n, depth)
    ensures (forall s :: Walks(m, n, s) ==> Whole(s)) <==> AllUncompressed(m, n)
  {
    hide Walks, Whole, Ends, Uncompressed, Lists;
    if AllUncompressed(m, n) {
      forall s | Walks(m, n, s)
        ensures Whole(s)
      {
        WalkShape(m, n, s);
      }
    } else {
      var p :| Trail(m, p) && p[0] == n && !Uncompressed(m, Last(p));
      var s := MeetsBroken(m, p, depth);
    }
  }

  // ---------- on clear ground ----------

  /** The names are as a directory holds them, and nothing stands at any of them. */
  ghost predicate Ground(d: Disk, es: seq<Entry>) {
    Holdable(es) && forall i :: 0 <= i < |es| ==> Clear(d.ns, d.cwd + [CString(es[i].name)])
  }

  lemma GroundOn(d: Disk, d1: Disk, es: seq<Entry>, s: Step)
    requires Ground(d, es) && es != [] && d1.cwd == d.cwd
    requires d1.ns == d.ns + Standing(d.cwd + [CString(es[0].name)], s)
    ensures Ground(d1, es[1..])
  {
    hide Plain, CString, Standing;
    var p, rest := d.cwd + [CString(es[0].name)], es[1..];
    StandingBelow(p, s);
    forall i, q | 0 <= i < |rest| && q in d1.ns
      ensures !(d.cwd + [CString(rest[i].name)] <= q)
    {
      assert rest[i] == es[i + 1];
      if q in Standing(p, s) { Apart(d.cwd, CString(es[0].name), CString(rest[i].name), q); }
    }
    forall i, j | 0 <= i < j < |rest|
      ensures CString(rest[i].name) != CString(rest[j].name)
    {
      assert rest[i] == es[i + 1] && rest[j] == es[j + 1];
    }
  }

  lemma EnteredGround(d: Disk, u: User, name: bytes, mode: nat, es: seq<Entry>)
    requires Holdable(es) && Plain(name) && Clear(d.ns, d.cwd + [name])
    ensures Enter(d, u, name, mode) == (true, Entered(d, u, name, mode)) && Ground(Entered(d, u, name, mode), es)
  {
    hide Plain, CString, Enter;
    EntersDir(d, u, name, mode);
  }

  lemma OpensClear(d: Disk, u: User, name: bytes, mode: nat)
    requires Plain(name) && Clear(d.ns, d.cwd + [name])
    ensures Opens(d, u, name, mode)
  {
    hide Plain, Named;
    NamedPlain(d, name);
  }

  /** What a directory found on clear ground lists. */
  lemma ListedHoldable(m: Mounted, n: nat, v: bytes)
    requires InBounds(m, n) && NodeFill(m, n).kind == TYPE_DIRECTORY && Gives(m, n, true, v)
             && ParseDir(m.sb.db, v).Some?
    requires AllWellNamed(m, n)
    ensures Holdable(ParseDir(m.sb.db, v).value.entries)
    ensures forall e :: e in ParseDir(m.sb.db, v).value.entries ==>
              AllWellNamed(m, e.number) && (AllUncompressed(m, n) ==> AllUncompressed(m, e.number))
  {
    hide NodeFill, HasNode, Gives, ParseDir, Spans, AllWellNamed, AllUncompressed, Holdable, Lists;
    AtNode(m, n);
    forall e | e in ParseDir(m.sb.db, v).value.entries
      ensures AllWellNamed(m, e.number) && (AllUncompressed(m, n) ==> AllUncompressed(m, e.number))
    {
      ListsEntry(m, n, v, e);
      Inherits(m, n, e.number);
    }
  }

  /** The image below node `n` is well named, and every file and link in it can be read. */
  ghost predicate Sound(m: Mounted, n: nat) {
    AllUncompressed(m, n) && AllWellNamed(m, n)
  }

  /** On clear ground everything is opened and entered, and hence read. */
  lemma {:induction false} PerformsWalks(m: Mounted, n: nat, d: Disk, u: User, name: bytes, s: Step)
    requires Performs(m, n, d, u, name, s) && Plain(name) && Clear(d.ns, d.cwd + [name]) && Sound(m, n)
    ensures Walks(m, n, s)
    decreases s, 1
  {
    hide NodeFill, HasNode, HasBlock, BlockFill, Readable, Gives, ParseDir, Spans, CString, OwnerFrom, Plain, Enter,
      Opens, AllUncompressed, AllWellNamed, Holdable, Ground, Entered;
    OpensClear(d, u, name, OwnerFrom(NodeFill(m, n)).mode);
    NothingHoldable();
    EnteredGround(d, u, name, OwnerFrom(NodeFill(m, n)).mode, []);
    if s.MakeDir? {
      var d1 := Entered(d, u, name, s.attr.mode);
      var v :| Gives(m, n, true, v) && ParseDir(m.sb.db, v).Some?
               && PerformsAll(m, ParseDir(m.sb.db, v).value.entries, d1, u, s.names, s.kids);
      var es := ParseDir(m.sb.db, v).value.entries;
      ListedHoldable(m, n, v);
      EnteredGround(d, u, name, s.attr.mode, es);
      PerformsAllWalks(m, es, d1, u, s.names, s.kids);
    }
  }

  lemma NothingHoldable()
    ensures Holdable([])
  {
  }

  lemma {:induction false} PerformsAllWalks(m: Mounted, es: seq<Entry>, d: Disk, u: User, names: seq<bytes>,
                                            kids: seq<Step>)
    requires PerformsAll(m, es, d, u, names, kids) && Ground(d, es) && forall e :: e in es ==> Sound(m, e.number)
    ensures WalksAll(m, es, names, kids)
    decreases kids, 0
  {
    hide Performs, Walks, Plain, CString, Sound, Run, Standing;
    if es != [] {
      PerformsWalks(m, es[0].number, d, u, names[0], kids[0]);
      SoundRuns(m, es[0].number, d, u, names[0], kids[0]);
      GroundOn(d, Run(d, u, names[0], kids[0]), es, kids[0]);
      PerformsAllWalks(m, es[1..], Run(d, u, names[0], kids[0]), u, names[1..], kids[1..]);
    }
  }

  /** What a sound node comes to is made where it belongs. */
  lemma SoundRuns(m: Mounted, n: nat, d: Disk, u: User, name: bytes, s: Step)
    requires Walks(m, n, s) && Sound(m, n) && Plain(name) && Clear(d.ns, d.cwd + [name])
    ensures Run(d, u, name, s).cwd == d.cwd && Run(d, u, name, s).ns == d.ns + Standing(d.cwd + [name], s)
  {
    hide Walks, Plain, Run, Standing, AllUncompressed, AllWellNamed, Whole, Neat;
    WalkShape(m, n, s);
    WholeReturns(d, u, name, s);
  }

  /**
    When extracting from an image leaves the tool where it was. If every file and link below node `n` can be
    read, whatever the traversal comes to is made where it belongs, links or not. If one cannot, and the image
    and the disk hold no links, some outcome leaves the tool in a higher directory.
   */
  lemma ComesBackExactly(m: Mounted, n: nat, d: Disk, u: User, name: bytes, depth: nat)
    requires Ends(m, n, depth) && AllWellNamed(m, n) && Plain(name) && Clear(d.ns, d.cwd + [name])
    ensures AllUncompressed(m, n) ==>
              forall s :: Performs(m, n, d, u, name, s) ==>
                Run(d, u, name, s).cwd == d.cwd && Run(d, u, name, s).ns == d.ns + Standing(d.cwd + [name], s)
    ensures NoLinkNodes(m, n) && NoLinks(d.ns) && d.cwd != [] ==>
              ((forall s :: Performs(m, n, d, u, name, s) ==> Run(d, u, name, s).cwd == d.cwd)
              <==> AllUncompressed(m, n))
  {
    hide Ends, Performs, Walks, Plain, Run, Standing, AllUncompressed, AllWellNamed, NoLinkNodes, NoLinks, Whole,
      Neat, Linkfree;
    if AllUncompressed(m, n) {
      forall s | Performs(m, n, d, u, name, s)
        ensures Run(d, u, name, s).cwd == d.cwd && Run(d, u, name, s).ns == d.ns + Standing(d.cwd + [name], s)
      {
        PerformsWalks(m, n, d, u, name, s);
        SoundRuns(m, n, d, u, name, s);
      }
    } else if NoLinkNodes(m, n) && NoLinks(d.ns) && d.cwd != [] {
      WholeExactly(m, n, depth);
      var s :| Walks(m, n, s) && !Whole(s);
      WalkShape(m, n, s);
      WalksPerforms(m, n, d, u, name, s);
      ComesBack(d, u, name, s);
      assert Performs(m, n, d, u, name, s) && Run(d, u, name, s).cwd != d.cwd;
    }
  }

  // ---------- ending on clear ground ----------

  lemma {:induction false} HaltsEnds(m: Mounted, n: nat, d: Disk, u: User, name: bytes, depth: nat)
    requires Halts(m, n, d, u, name, depth) && Plain(name) && Clear(d.ns, d.cwd + [name]) && Sound(m, n)
    ensures Ends(m, n, depth)
    decreases depth, 0
  {
    hide NodeFill, HasNode, HasBlock, BlockFill, Readable, Gives, ParseDir, Spans, CString, OwnerFrom, Plain, Enter,
      Opens, AllUncompressed, AllWellNamed, Holdable, Ground, Entered;
    var mode := OwnerFrom(NodeFill(m, n)).mode;
    OpensClear(d, u, name, mode);
    NothingHoldable();
    EnteredGround(d, u, name, mode, []);
    if NodeFill(m, n).kind == TYPE_DIRECTORY {
      forall v | Gives(m, n, true, v)
        ensures forall e :: e in ParseDir(m.sb.db, v).value.entries ==> Ends(m, e.number, depth - 1)
      {
        ListedHoldable(m, n, v);
        EnteredGround(d, u, name, mode, ParseDir(m.sb.db, v).value.entries);
        HaltsAllEnds(m, ParseDir(m.sb.db, v).value.entries, Entered(d, u, name, mode), u, depth - 1);
      }
    }
  }

  lemma {:induction false} HaltsAllEnds(m: Mounted, es: seq<Entry>, d: Disk, u: User, depth: nat)
    requires HaltsAll(m, es, d, u, depth) && Ground(d, es) && forall e :: e in es ==> Sound(m, e.number)
    ensures forall e :: e in es ==> Ends(m, e.number, depth)
    decreases depth, |es| + 1
  {
    hide Halts, Ends, Performs, Walks, Plain, CString, Sound, Run, Standing;
    if es != [] {
      var name := CString(es[0].name);
      HaltsEnds(m, es[0].number, d, u, name, depth);
      var s := SomeWalk(m, es[0].number, depth);
      WalksPerforms(m, es[0].number, d, u, name, s);
      SoundRuns(m, es[0].number, d, u, name, s);
      GroundOn(d, Run(d, u, name, s), es, s);
      HaltsAllEnds(m, es[1..], Run(d, u, name, s), u, depth);
      assert forall e :: e in es ==> e == es[0] || e in es[1..];
    }
  }

  /**
    Exactly when the tool is done with node `n`, on a disk with nothing in the way and of an image that can be
    read: when no path of directory entries comes to a node twice and every node on one lies inside the image.
   */
  lemma HaltsExactly(m: Mounted, n: nat, d: Disk, u: User, name: bytes)
    requires Plain(name) && Clear(d.ns, d.cwd + [name]) && Sound(m, n)
    ensures (exists depth: nat :: Halts(m, n, d, u, name, depth)) <==> Straight(m, n)
  {
    hide Halts, Ends, Plain, Sound, Straight;
    EndsExactly(m, n);
    if depth: nat :| Halts(m, n, d, u, name, depth) {
      HaltsEnds(m, n, d, u, name, depth);
    }
    if Straight(m, n) {
      EndsHalts(m, n, d, u, name, m.sb.inodes);
      assert Halts(m, n, d, u, name, m.sb.inodes);
    }
  }

  /** The same of the root, which is traversed inside the output directory. */
  lemma ExtractionHaltsExactly(m: Mounted, d: Disk, u: User, output: bytes)
    requires Plain(output) && Clear(d.ns, d.cwd + [output]) && Sound(m, m.sb.root)
    requires Found(m, m.sb.root) && NodeFill(m, m.sb.root).kind == TYPE_DIRECTORY
    ensures (exists depth: nat :: Halts(m, m.sb.root, Enter(d, u, output, 511).1, u, HERE, depth))
            <==> Straight(m, m.sb.root)
  {
    hide Halts, Ends, Plain, Sound, Straight, Enter, NodeFill, HasNode, Sane;
    var d1 := Enter(d, u, output, 511).1;
    EndsExactly(m, m.sb.root);
    if depth: nat :| Halts(m, m.sb.root, d1, u, HERE, depth) {
      RootHaltsEnds(m, d, u, output, depth);
    }
    if Straight(m, m.sb.root) {
      EndsHalts(m, m.sb.root, d1, u, HERE, m.sb.inodes);
      assert Halts(m, m.sb.root, d1, u, HERE, m.sb.inodes);
    }
  }

  lemma RootHaltsEnds(m: Mounted, d: Disk, u: User, output: bytes, depth: nat)
    requires Plain(output) && Clear(d.ns, d.cwd + [output]) && Sound(m, m.sb.root)
    requires Found(m, m.sb.root) && NodeFill(m, m.sb.root).kind == TYPE_DIRECTORY
    requires Halts(m, m.sb.root, Enter(d, u, output, 511).1, u, HERE, depth)
    ensures Ends(m, m.sb.root, depth)
  {
    hide NodeFill, HasNode, HasBlock, BlockFill, Readable, Gives, ParseDir, Spans, CString, OwnerFrom, Plain, Enter,
      Opens, AllUncompressed, AllWellNamed, Holdable, Ground, Entered;
    var n, d1 := m.sb.root, Entered(d, u, output, 511);
    var mode := OwnerFrom(NodeFill(m, n)).mode;
    NothingHoldable();
    EnteredGround(d, u, output, 511, []);
    EnteredIs(d, u, output, 511);
    EntersHere(d1, u, mode);
    forall v | Gives(m, n, true, v)
      ensures forall e :: e in ParseDir(m.sb.db, v).value.entries ==> Ends(m, e.number, depth - 1)
    {
      ListedHoldable(m, n, v);
      EnteredGround(d, u, output, 511, ParseDir(m.sb.db, v).value.entries);
      HaltsAllEnds(m, ParseDir(m.sb.db, v).value.entries, d1, u, depth - 1);
    }
  }

  lemma EntersHere(d: Disk, u: User, mode: nat)
    requires IsDir(d.ns, d.cwd)
    ensures Enter(d, u, HERE, mode) == (true, d)
  {
    hide Followed, Named, Trim;
    NamedHere(d);
  }

  /** A node that leads back to itself by way of plain names is, on clear ground, traversed for ever. */
  lemma LoopNeverHalts(m: Mounted, p: seq<nat>, d: Disk, u: User, name: bytes, depth: nat)
    requires Trail(m, p) && |p| > 1 && p[0] == Last(p)
    requires Plain(name) && Clear(d.ns, d.cwd + [name]) && Sound(m, p[0])
    ensures !Halts(m, p[0], d, u, name, depth)
  {
    hide Halts, Ends, Plain, Sound, Lists;
    CycleNeverEnds(m, p, depth);
    if Halts(m, p[0], d, u, name, depth) { HaltsEnds(m, p[0], d, u, name, depth); }
  }

  /**
    Under the empty name it is not: mkdir refuses that name, and the traversal is over at once, though the
    entries lead round and round.
   */
  lemma EmptyNameHalts(m: Mounted, n: nat, e: Entry, d: Disk, u: User, name: bytes, depth: nat)
    requires Reachable(m, n) && NodeFill(m, n).kind == TYPE_DIRECTORY && e.number == n && CString(e.name) == []
    requires var b := ParseDir(m.sb.db, Content(m, NodeFill(m, n)).value); b.Some? && b.value.entries == [e]
    ensures Halts(m, n, d, u, name, 1) && !Ends(m, n, depth)
  {
    hide NodeFill, HasNode, HasBlock, BlockFill, Readable, Gives, ParseDir, Spans, ReadFrom, CString, OwnerFrom,
      Enter, Ends;
    var raw := Content(m, NodeFill(m, n)).value;
    forall ok, v | Gives(m, n, ok, v)
      ensures ok && v == raw
    {
      GivesWhole(m, n, ok, v);
    }
    WholeGives(m, n);
    ListsEntry(m, n, raw, e);
    CycleNeverEnds(m, [n, n], depth);
    var (entered, d') := Enter(d, u, name, OwnerFrom(NodeFill(m, n)).mode);
    RefusesEmpty(d', u, OwnerFrom(NodeFill(m, n)).mode);
    assert [e][1..] == [];
    assert HaltsAll(m, [e], d', u, 0);
  }

  lemma RefusesEmpty(d: Disk, u: User, mode: nat)
    ensures Enter(d, u, [], mode) == (false, d)
  {
  }
}
