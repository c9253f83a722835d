/** The builder's second pass: sorting the nodes by type and laying their bytes end to end. */
module Serialising {
  import opened Seqs
  import opened Bits
  import opened BitBuffers
  import opened Buffers
  import opened Fields
  import opened MergeSort
  import opened HashList
  import opened Format
  import opened Reader
  import opened Packing
  import opened Builders
  import opened Measuring

  function NodesSortByType(a: Node, b: Node): int {
    if a.ntype == b.ntype then
      if a.kind == TYPE_REGULAR_FILE && b.kind == TYPE_REGULAR_FILE && LastDot(a.path).Some? && LastDot(b.path).Some?
      then StrCmp(LastDot(a.path).value, LastDot(b.path).value)
      else 0
    else if a.ntype < b.ntype then -1 else 1
  }

  function NodesSortByNumber(a: Node, b: Node): int {
    SortByNumber(a.number, b.number)
  }

  /** The comparators as the list sort takes them. */
  function ByType(): (Handle<Node>, Handle<Node>) -> int {
    (a: Handle<Node>, b: Handle<Node>) => NodesSortByType(a.elmt, b.elmt)
  }

  function ByNumber(): (Handle<Node>, Handle<Node>) -> int {
    (a: Handle<Node>, b: Handle<Node>) => NodesSortByNumber(a.elmt, b.elmt)
  }

  function NumberOf(): Handle<Node> -> nat {
    (h: Handle<Node>) => h.elmt.number
  }

  lemma NumbersOfElements(hs: seq<Handle<Node>>)
    ensures MapSeq(NumberOf(), hs) == Numbers(ElementsOf(hs))
  {
  }

  /** Sorting rearranges the nodes, so they still model the table. */
  lemma SortedModels(hs: seq<Handle<Node>>, cmp: (Handle<Node>, Handle<Node>) -> int, tbl: seq<Inode>)
    requires Models(ElementsOf(hs), tbl)
    ensures Models(ElementsOf(Sort(hs, cmp)), tbl)
  {
    SortPermutes(hs, cmp);
    var r := Sort(hs, cmp);
    forall i | 0 <= i < |r|
      ensures var n := r[i].elmt; n.number < |tbl| && n.AsInode() == tbl[n.number] && n.Consistent()
    {
      assert r[i] in multiset(r);
      assert r[i] in multiset(hs);
      var j :| 0 <= j < |hs| && hs[j] == r[i];
      assert ElementsOf(hs)[j] == r[i].elmt;
    }
  }

  /** Sorting the node list by type puts the numbers in packing order. */
  lemma TypeOrder(hs: seq<Handle<Node>>, tbl: seq<Inode>)
    requires Models(ElementsOf(hs), tbl) && Numbers(ElementsOf(hs)) == Iota(|tbl|)
    ensures Numbers(ElementsOf(Sort(hs, ByType()))) == Order(tbl)
  {
    hide LastDot, StrCmp, Sort;
    forall x, y | x in Elems(hs) && y in Elems(hs)
      ensures ByType()(x, y) == TypeCmp(tbl)(NumberOf()(x), NumberOf()(y))
    {
      var i :| 0 <= i < |hs| && hs[i] == x;
      var j :| 0 <= j < |hs| && hs[j] == y;
      assert ElementsOf(hs)[i] == x.elmt && ElementsOf(hs)[j] == y.elmt;
      SameComparison(x.elmt, y.elmt);
    }
    SortNatural(hs, NumberOf(), ByType(), TypeCmp(tbl));
    NumbersOfElements(hs);
    NumbersOfElements(Sort(hs, ByType()));
  }

  lemma SameComparison(a: Node, b: Node)
    requires a.Consistent() && b.Consistent()
    ensures NodesSortByType(a, b) == SortByType(a.AsInode(), b.AsInode())
  {
    hide LastDot, StrCmp, Ntype;
  }

  /** Sorting any rearrangement of the nodes by number restores the numbering. */
  lemma NumberOrder(hs: seq<Handle<Node>>, tbl: seq<Inode>)
    requires multiset(Numbers(ElementsOf(hs))) == multiset(Iota(|hs|))
    ensures Numbers(ElementsOf(Sort(hs, ByNumber()))) == Iota(|hs|)
  {
    hide Sort;
    SortNatural(hs, NumberOf(), ByNumber(), SortByNumber);
    NumbersOfElements(hs);
    NumbersOfElements(Sort(hs, ByNumber()));
    SortDense(Numbers(ElementsOf(hs)), SortByNumber);
  }

  // ---------- one node ----------

  /** Appends a directory's header: two fields in the fewest bytes that hold them. */
  method AddHeader(db: DirBits, parent: nat, nentries: nat, buf: Buffer) returns (rc: nat)
    requires Narrow(db) && buf.Valid()
    modifies buf, buf.buffer
    ensures buf.Valid() && (buf.buffer == old(buf.buffer) || fresh(buf.buffer))
    ensures buf.Contents() == old(buf.Contents()) + SerHeader(db, parent, nentries)
            && rc == |SerHeader(db, parent, nentries)|
  {
    hide Flat, Pack, Enc, BitsOf;
    ghost var ws, vs: seq<int> := HeaderWs(db), [parent, nentries];
    RecordLength(ws, vs);
    DirPos(db);
    var bb := new BitBuffer.Init((db.parent + db.nentries + 7) / 8);
    StartRecord([], ws, vs);
    PutNext(bb, db.parent, parent, ws, vs, 0, []);
    PutNext(bb, db.nentries, nentries, ws, vs, 1, []);
    EndRecord([], ws, vs);
    assert [] + Record(ws, vs) == Record(ws, vs);
    PackedBuffer(bb, Record(ws, vs));
    rc := buf.Add(bb.buffer[..]);
  }

  /** Appends the three fields of an entry. */
  method AddEntryHead(db: DirBits, e: Entry, buf: Buffer) returns (rc: nat)
    requires Narrow(db) && buf.Valid()
    modifies buf, buf.buffer
    ensures buf.Valid() && (buf.buffer == old(buf.buffer) || fresh(buf.buffer))
    ensures buf.Contents() == old(buf.Contents()) + SerEntryHead(db, e) && rc == |SerEntryHead(db, e)|
  {
    hide Flat, Pack, Enc, BitsOf;
    ghost var ws, vs: seq<int> := EntryWs(db), [e.number, |e.name|, e.kind];
    RecordLength(ws, vs);
    DirPos(db);
    var bb := new BitBuffer.Init((db.number + db.length + db.kind + 7) / 8);
    StartRecord([], ws, vs);
    PutNext(bb, db.number, e.number, ws, vs, 0, []);
    PutNext(bb, db.length, |e.name|, ws, vs, 1, []);
    PutNext(bb, db.kind, e.kind, ws, vs, 2, []);
    EndRecord([], ws, vs);
    assert [] + Record(ws, vs) == Record(ws, vs);
    PackedBuffer(bb, Record(ws, vs));
    rc := buf.Add(bb.buffer[..]);
  }

  /** Appends a directory and counts its bytes. */
  method AddDirectory(db: DirBits, parent: nat, es: seq<Entry>, buf: Buffer) returns (size: nat)
    requires Narrow(db) && buf.Valid()
    modifies buf, buf.buffer
    ensures buf.Valid() && (buf.buffer == old(buf.buffer) || fresh(buf.buffer))
    ensures buf.Contents() == old(buf.Contents()) + Ser(db, Directory(parent, es))
            && size == |Ser(db, Directory(parent, es))|
  {
    hide Flat, SerHeader, SerEntryHead, Narrow;
    ghost var start, ps := buf.Contents(), MapSeq((e: Entry) => SerEntry(db, e), es);
    size := AddHeader(db, parent, |es|, buf);
    ghost var head := SerHeader(db, parent, |es|);
    var e := 0;
    FlatNone(start + head, ps);
    while e < |es|
      invariant 0 <= e <= |es| && buf.Valid() && (buf.buffer == old(buf.buffer) || fresh(buf.buffer))
      invariant buf.Contents() == start + head + Flat(ps[..e]) && size == |head| + |Flat(ps[..e])|
    {
      ghost var done := Flat(ps[..e]);
      var rc := AddEntryHead(db, es[e], buf);
      size := size + rc;
      rc := buf.Add(es[e].name);
      size := size + rc;
      FlatTake(ps, e);
      Regrouped(start + head, done, SerEntryHead(db, es[e]), es[e].name);
      e := e + 1;
    }
    FlatAll(ps);
    CatAssoc(start, head, Flat(ps));
  }

  lemma FlatNone<T>(start: seq<T>, ps: seq<seq<T>>)
    ensures Flat(ps[..0]) == [] && start + Flat(ps[..0]) == start
  {
  }

  lemma Regrouped(a: bytes, b: bytes, c: bytes, d: bytes)
    ensures a + b + c + d == a + (b + (c + d))
  {
  }

  /** Appends a node's bytes, by its type, and counts them. */
  method AddNode(n: Node, db: DirBits, buf: Buffer) returns (size: nat)
    requires n.Consistent() && Narrow(db) && buf.Valid()
    modifies buf, buf.buffer
    ensures buf.Valid() && (buf.buffer == old(buf.buffer) || fresh(buf.buffer))
    ensures buf.Contents() == old(buf.Contents()) + Ser(db, n.body) && size == |Ser(db, n.body)|
  {
    hide SerHeader, SerEntries, Narrow;
    if n.kind == TYPE_REGULAR_FILE {
      size := buf.Add(n.body.content);
    } else if n.kind == TYPE_DIRECTORY {
      size := AddDirectory(db, n.body.parent, n.body.entries, buf);
    } else {
      size := buf.Add(n.body.target + [0]);
    }
  }

  // ---------- all nodes ----------

  /** The node knows its size and where it starts. */
  ghost predicate Placed(n: Node, tbl: seq<Inode>, db: DirBits, log2: nat)
    reads n`size, n`block, n`index
  {
    && n.number < |tbl| && n.size == SizeOf(tbl, db, n.number)
    && n.block == OffsetOf(tbl, db, n.number) / Pow2(log2) && n.index == OffsetOf(tbl, db, n.number) % Pow2(log2)
  }

  ghost predicate AllPlaced(ns: seq<Node>, tbl: seq<Inode>, db: DirBits, log2: nat)
    reads ns`size, ns`block, ns`index
  {
    forall i :: 0 <= i < |ns| ==> Placed(ns[i], tbl, db, log2)
  }

  /** The loop that fills the entry stream: every node is appended and told its place. */
  method PackEntries(ns: seq<Node>, db: DirBits, log2: nat, ghost tbl: seq<Inode>) returns (entries: bytes)
    requires Models(ns, tbl) && Numbers(ns) == Order(tbl) && Narrow(db)
    modifies ns`size, ns`block, ns`index
    ensures entries == Stream(tbl, db)
    ensures AllPlaced(ns, tbl, db, log2)
  {
    hide Flat, Ser, Order, Narrow, Pow2, OffsetOf, SizeOf;
    var buf := new Buffer();
    var offset: nat, i := 0, 0;
    FlatNone([], Packed(tbl, db));
    while i < |ns|
      invariant 0 <= i <= |ns| && buf.Valid() && fresh(buf.buffer)
      invariant buf.Contents() == Flat(Packed(tbl, db)[..i]) && offset == |buf.Contents()|
      invariant forall j :: 0 <= j < i ==> Placed(ns[j], tbl, db, log2)
    {
      var n := ns[i];
      NodePlace(ns, tbl, db, i);
      var size := AddNode(n, db, buf);
      n.size := size;
      n.index := offset % Pow2(log2);
      n.block := offset / Pow2(log2);
      offset := offset + n.size;
      i := i + 1;
    }
    FlatAll(Packed(tbl, db));
    entries := buf.buffer[..buf.length];
  }

  /** Node `i` of the packing order comes next in the stream, and at no other place. */
  lemma NodePlace(ns: seq<Node>, tbl: seq<Inode>, db: DirBits, i: nat)
    requires Models(ns, tbl) && Numbers(ns) == Order(tbl) && i < |ns|
    ensures var k := ns[i].number;
            && k < |tbl| && SizeOf(tbl, db, k) == |Ser(db, ns[i].body)|
            && OffsetOf(tbl, db, k) == |Flat(Packed(tbl, db)[..i])|
            && Flat(Packed(tbl, db)[..i + 1]) == Flat(Packed(tbl, db)[..i]) + Ser(db, ns[i].body)
    ensures ns[i].Consistent() && forall j :: 0 <= j < i ==> ns[j] != ns[i]
  {
    hide Flat, Ser, Order;
    assert Numbers(ns)[i] == ns[i].number;
    PlaceOf(tbl, i);
    FlatTake(Packed(tbl, db), i);
    forall j | 0 <= j < i
      ensures ns[j] != ns[i]
    {
      assert Numbers(ns)[j] == ns[j].number;
      if ns[j] == ns[i] { OrderDistinct(tbl, j, i); }
    }
  }

  lemma StartRecord(bs: seq<bool>, ws: seq<nat>, vs: seq<int>)
    requires |ws| == |vs|
    ensures bs + Flat(Pieces(ws, vs)[..0]) == bs
  {
  }

  lemma EndRecord(bs: seq<bool>, ws: seq<nat>, vs: seq<int>)
    requires |ws| == |vs|
    ensures bs + Flat(Pieces(ws, vs)[..|ws|]) == bs + Record(ws, vs)
  {
    FlatAll(Pieces(ws, vs));
  }

  /** A buffer just long enough for the bits written to it holds their packing. */
  lemma PackedBuffer(bb: BitBuffer, bs: seq<bool>)
    requires bb.Wrote(bs) && bb.buffer.Length == (|bs| + 7) / 8
    ensures bb.buffer[..] == Pack(bs)
  {
    hide Pack, BitsOf;
    PackUnique(bb.buffer[..], bs);
  }
}
