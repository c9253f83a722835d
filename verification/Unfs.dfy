/** The extraction tool: opening an image file and recreating the tree in it. */
module Unfs {
  import opened Seqs
  import opened Bits
  import opened BitBuffers
  import opened Buffers
  import opened Compressors
  import opened Format
  import opened Reader
  import opened Volumes
  import opened Walking
  import opened Delivery
  import opened Extraction
  import opened Traversals

  // ---------- opening ----------

  /** A file open for reading. */
  class File {
    const data: bytes
    var pos: nat

    constructor (data: bytes)
      ensures this.data == data && pos == 0
    {
      this.data, pos := data, 0;
    }

    method Seek(at: nat)
      modifies this
      ensures pos == at
    {
      pos := at;
    }

    /** Up to `n` bytes from the position on; none at the end of the file. */
    method Read(n: nat) returns (chunk: bytes)
      modifies this
      ensures |chunk| == if old(pos) >= |data| then 0 else Min(n, |data| - old(pos))
      ensures pos == old(pos) + |chunk| && (chunk != [] ==> chunk == data[old(pos)..pos])
    {
      var k := if pos >= |data| then 0 else Min(n, |data| - pos);
      chunk := if k == 0 then [] else data[pos..pos + k];
      pos := pos + k;
    }
  }

  const CHUNK := 1024

  /** Reads `n` bytes at `at` in pieces of at most 1024 and collects them. */
  method ReadSection(f: File, at: nat, n: nat, buf: Buffer) returns (ok: bool)
    requires buf.Valid() && buf.Contents() == []
    modifies f, buf, buf.buffer
    ensures buf.Valid() && (buf.buffer == old(buf.buffer) || fresh(buf.buffer))
    ensures Section(f.data, at, n) == if ok then Some(buf.Contents()) else None
  {
    f.Seek(at);
    var r := 0;
    while r < n
      invariant 0 <= r <= n && f.pos == at + r && (r > 0 ==> at + r <= |f.data|)
      invariant buf.Valid() && (buf.buffer == old(buf.buffer) || fresh(buf.buffer))
      invariant buf.Contents() == if r == 0 then [] else f.data[at..at + r]
      decreases n - r
    {
      var chunk := f.Read(Min(CHUNK, n - r));
      if |chunk| == 0 {
        return false;
      }
      ghost var done := buf.Contents();
      var rb := buf.Add(chunk);
      assert done + chunk == f.data[at..at + r + |chunk|];
      r := r + |chunk|;
    }
    ok := true;
  }

  lemma SuperAlone(img: bytes)
    requires |img| >= SUPER_SIZE
    ensures SuperOf(img[0..SUPER_SIZE]) == SuperOf(img)
  {
    hide FromWords, FromLe32;
    var s := img[0..SUPER_SIZE];
    var a := seq(38, i requires 0 <= i < 38 => FromLe32(s[4 * i..4 * i + 4]));
    var b := seq(38, i requires 0 <= i < 38 => FromLe32(img[4 * i..4 * i + 4]));
    forall i | 0 <= i < 38
      ensures a[i] == b[i]
    {
      SliceSlice(img, 0, SUPER_SIZE, 4 * i, 4 * i + 4);
    }
    assert a == b;
  }

  method ToArray(s: bytes) returns (a: array<byte>)
    ensures fresh(a) && a[..] == s
  {
    a := new byte[|s|](i requires 0 <= i < |s| => s[i]);
  }

  /** Reads a section into a buffer of its own and gives its bytes. */
  method LoadSection(f: File, at: nat, n: nat) returns (s: Option<bytes>)
    modifies f
    ensures s == Section(f.data, at, n)
  {
    var buf := new Buffer();
    var ok := ReadSection(f, at, n, buf);
    s := if ok then Some(buf.buffer[..buf.length]) else None;
  }

  /** The inode table: read into a buffer, uncompressed, and put back into the same buffer. */
  method LoadInodes(f: File, sb: Super, c: Compressor) returns (itable: Option<bytes>)
    modifies f
    ensures itable == match Section(f.data, sb.inodesOffset, sb.inodesCsize)
                      case None => None
                      case Some(ci) =>
                        match c.uncompress(ci, sb.inodesSize)
                        case None => None
                        case Some(it) => if |it| == sb.inodesSize then Some(it) else None
  {
    hide Section;
    var buf := new Buffer();
    var ok := ReadSection(f, sb.inodesOffset, sb.inodesCsize, buf);
    if !ok {
      return None;
    }
    var cbuffer := c.uncompress(buf.buffer[..buf.length], sb.inodesSize);
    if cbuffer.None? || |cbuffer.value| != sb.inodesSize {
      return None;
    }
    buf.Reset();
    var rb := buf.Add(cbuffer.value);
    assert [] + cbuffer.value == cbuffer.value;
    itable := Some(buf.buffer[..buf.length]);
  }

  /** The first half of main: the super block, the compressor and the three sections, or an error. */
  method Open(f: File, registry: nat -> Option<Compressor>) returns (ok: bool, v: Volume?, entries: array<byte>)
    requires f.pos == 0
    modifies f
    ensures ok <==> Mount(f.data, registry).Some?
    ensures ok ==>
              v != null && v.Holds(Mount(f.data, registry).value)
              && entries[..] == Mount(f.data, registry).value.entries
  {
    hide SuperOf, Section;
    v := null;
    entries := new byte[0];
    var front := f.Read(SUPER_SIZE);
    if |front| != SUPER_SIZE {
      return false, v, entries;
    }
    SuperAlone(f.data);
    var sb := SuperOf(front);
    if sb.magic != MAGIC {
      return false, v, entries;
    }
    var found := registry(sb.compressionType);
    if found.None? {
      return false, v, entries;
    }
    var c := found.value;
    var it := LoadInodes(f, sb, c);
    if it.None? {
      return false, v, entries;
    }
    var bt := LoadSection(f, sb.blocksOffset, sb.blocksSize);
    if bt.None? {
      return false, v, entries;
    }
    var es := LoadSection(f, sb.entriesOffset, sb.entriesSize);
    if es.None? {
      return false, v, entries;
    }
    var itable := ToArray(it.value);
    var btable := ToArray(bt.value);
    entries := ToArray(es.value);
    v := new Volume(sb, c, itable, btable);
    ok := true;
  }

  // ---------- extraction ----------

  /**
    node_read: block after block into a scratch buffer of the block's size, handing on the node's part
    of each. A block that uncompresses to less than its size leaves the rest of the scratch buffer as
    it was allocated.
   */
  method NodeRead(v: Volume, entries: array<byte>, node: NodeRec, ghost m: Mounted) returns (ok: bool, done: bytes)
    requires v.Holds(m) && entries[..] == m.entries && Sane(m) && Spans(m, node.block, node.index, node.size)
    ensures Handed(m, node.block, node.index, node.size, ok, done)
  {
    hide Sane, BlockFill, HasBlock, Spans, Handed, Pending, Readable;
    var i: nat, b: nat := node.index, node.block;
    done := [];
    PendingFirst(m, b, i, node.size);
    while |done| < node.size
      invariant |done| <= node.size && Spans(m, b, i, node.size - |done|)
      invariant Pending(m, node.block, node.index, node.size, done, b, i, node.size - |done|)
      decreases node.size - |done|
    {
      ghost var left := node.size - |done|;
      ReadStands(m, b, i, left);
      var block := v.FillBlock(b, m);
      var bbuffer := new byte[block.size];
      var u := v.c.uncompress(entries[block.offset..block.offset + block.compressedSize], block.size);
      if u.None? {
        PendingFails(m, node.block, node.index, node.size, done, b, i, left);
        return false, done;
      }
      UncompressBound(m, Stored(m, b), block.size);
      forall k | 0 <= k < |u.value| {
        bbuffer[k] := u.value[k];
      }
      var l := Min(node.size - |done|, block.size - i);
      PendingPiece(m, node.block, node.index, node.size, done, b, i, left, u.value, bbuffer[i..i + l]);
      done := done + bbuffer[i..i + l];
      b, i := b + 1, 0;
    }
    PendingDone(m, node.block, node.index, node.size, done, b, i);
    ok := true;
  }

  lemma UncompressBound(m: Mounted, y: bytes, n: nat)
    requires Sane(m) && m.c.uncompress(y, n).Some?
    ensures |m.c.uncompress(y, n).value| <= n
  {
  }

  /** One class's permission bits. */
  method Rights(stored: nat) returns (r: nat)
    ensures r == Rwx(stored)
  {
    r := 0;
    if stored % 2 == 1 { r := r + 4; }
    if stored / 2 % 2 == 1 { r := r + 2; }
    if stored / 4 % 2 == 1 { r := r + 1; }
  }

  // ---------- the disk ----------

  /** The disk the tool works on; a call that can fail reports whether it did. */
  class World {
    var disk: Disk
    const user: User

    constructor (disk: Disk, user: User)
      ensures this.disk == disk && this.user == user
    {
      this.disk, this.user := disk, user;
    }

    /** mkdir, then chdir unless mkdir failed for another reason than that the name exists. */
    method EnterDir(name: bytes, mode: nat) returns (ok: bool)
      modifies this
      ensures (ok, disk) == Enter(old(disk), user, name, mode)
    {
      var made := Mkdir(disk, user, name, mode);
      if made.None? {
        return false;
      }
      disk := made.value;
      var entered := Chdir(disk, name);
      if entered.None? {
        return false;
      }
      disk := entered.value;
      ok := true;
    }

    method Remove(name: bytes)
      modifies this
      ensures disk == Unlink(old(disk), name)
    {
      disk := Unlink(disk, name);
    }

    /** open with O_CREAT, O_TRUNC and O_WRONLY: an empty file. */
    method OpenNew(name: bytes, mode: nat) returns (fd: Option<Path>)
      modifies this
      ensures match Create(old(disk), user, name, mode, [])
              case None => fd == None && disk == old(disk)
              case Some(d) => fd == Named(old(disk), name) && fd.Some? && disk == d
    {
      var made := Create(disk, user, name, mode, []);
      if made.None? {
        return None;
      }
      fd := Named(disk, name);
      disk := made.value;
    }

    /** All that is written to the file just opened. */
    method Write(fd: Path, content: bytes)
      modifies this
      ensures disk == old(disk).(ns := old(disk).ns[fd := AFile(content)])
    {
      disk := disk.(ns := disk.ns[fd := AFile(content)]);
    }

    method MakeSymlink(target: bytes, name: bytes) returns (ok: bool)
      modifies this
      ensures match Symlink(old(disk), user, target, name)
              case None => !ok && disk == old(disk)
              case Some(d) => ok && disk == d
    {
      var made := Symlink(disk, user, target, name);
      ok := made.Some?;
      if ok { disk := made.value; }
    }

    method GoUp()
      modifies this
      ensures disk == Up(old(disk))
    {
      disk := Up(disk);
    }

    /** chmod, then lchown. */
    method GiveAway(name: bytes, attr: Owner)
      modifies this
      ensures disk == Finish(old(disk), name, attr)
    {
      disk := Chmod(disk, name, attr.mode);
      disk := Lchown(disk, name, attr.uid, attr.gid);
    }
  }

  /** One entry's number, its name as a C string, and where the next entry starts. */
  method NextEntry(bb: BitBuffer, nbuffer: array<byte>, db: DirBits, at: nat, ghost raw: bytes, ghost e: Entry)
    returns (number: nat, path: bytes, next: nat)
    requires bb.buffer == nbuffer && nbuffer[..] == raw && Narrow(db) && EntryStands(db, raw, at, e)
    modifies bb`index
    ensures number == e.number && path == CString(e.name) && next == at + EntryHeadSize(db) + |e.name|
  {
    hide CString, EntryStands;
    var length;
    number, length := ReadEntry(bb, db, at, raw, e);
    bb.SkipBits(db.kind);
    NameStands(db, raw, at, e);
    var name := at + (db.number + db.length + db.kind + 7) / 8;
    assert nbuffer[name..name + length] == raw[name..name + length];
    path := CString(nbuffer[name..name + length]);
    next := name + length;
  }

  /** The loop over a directory's entries, a pointer walking along its bytes. */
  method TraverseEntries(v: Volume, entries: array<byte>, raw: bytes, w: World, ghost m: Mounted, ghost parent0: nat,
                         ghost es: seq<Entry>, ghost depth: nat)
    returns (ghost names: seq<bytes>, ghost kids: seq<Step>)
    requires v.Holds(m) && entries[..] == m.entries && Readable(m.sb)
    requires ParseDir(m.sb.db, raw) == Some(Directory(parent0, es)) && HaltsAll(m, es, w.disk, w.user, depth)
    modifies w
    ensures PerformsAll(m, es, old(w.disk), w.user, names, kids) && w.disk == RunAll(old(w.disk), w.user, names, kids)
    decreases depth, 2
  {
    hide ParseDir, CString, Performs, PerformsAll, Halts, HaltsAll, Readable, EntryStands, Narrow, Run, RunAll,
      EntryOff, EntryHeadSize;
    var db := v.sb.db;
    StartOfEntries(db, es);
    NarrowDirs(v.sb);
    DirectoryStands(db, raw, parent0, es);
    var nbuffer := ToArray(raw);
    var bb := new BitBuffer.FromBuffer(nbuffer);
    var parent, nentries := ReadHeader(bb, db, raw, parent0, es);
    var at, e := (db.parent + db.nentries + 7) / 8, 0;
    names, kids := [], [];
    NothingPerformed(m, es, w.disk, w.user);
    while e < nentries
      invariant 0 <= e <= nentries && at == EntryOff(db, es, e) && bb.buffer == nbuffer && nbuffer[..] == raw
      invariant PerformsAll(m, es[..e], old(w.disk), w.user, names, kids)
      invariant w.disk == RunAll(old(w.disk), w.user, names, kids) && HaltsAll(m, es[e..], w.disk, w.user, depth)
    {
      var number, path, next := NextEntry(bb, nbuffer, db, at, raw, es[e]);
      NextOff(db, es, e);
      HaltsNext(m, es, e, w.disk, w.user, depth);
      ghost var before := w.disk;
      ghost var s := Traverse(v, entries, number, path, w, m, depth);
      HaltsOn(m, es, e, before, w.user, depth, s);
      PerformsOn(m, es, e, old(w.disk), w.user, names, kids, s);
      names, kids := names + [path], kids + [s];
      at := next;
      e := e + 1;
    }
    assert es[..e] == es;
  }

  lemma NothingPerformed(m: Mounted, es: seq<Entry>, d: Disk, u: User)
    ensures PerformsAll(m, es[..0], d, u, [], []) && RunAll(d, u, [], []) == d && es[0..] == es
  {
  }

  lemma HaltsNext(m: Mounted, es: seq<Entry>, e: nat, d: Disk, u: User, depth: nat)
    requires e < |es| && HaltsAll(m, es[e..], d, u, depth)
    ensures Halts(m, es[e].number, d, u, CString(es[e].name), depth)
  {
    hide Halts, Performs, CString, Run;
  }

  lemma HaltsOn(m: Mounted, es: seq<Entry>, e: nat, d: Disk, u: User, depth: nat, s: Step)
    requires e < |es| && HaltsAll(m, es[e..], d, u, depth)
    requires Performs(m, es[e].number, d, u, CString(es[e].name), s)
    ensures HaltsAll(m, es[e + 1..], Run(d, u, CString(es[e].name), s), u, depth)
  {
    hide Halts, Performs, CString, Run;
    assert es[e..][0] == es[e] && es[e..][1..] == es[e + 1..];
  }

  lemma PerformsOn(m: Mounted, es: seq<Entry>, e: nat, d: Disk, u: User, names: seq<bytes>, kids: seq<Step>, s: Step)
    requires e < |es| && PerformsAll(m, es[..e], d, u, names, kids)
    requires Performs(m, es[e].number, RunAll(d, u, names, kids), u, CString(es[e].name), s)
    ensures PerformsAll(m, es[..e + 1], d, u, names + [CString(es[e].name)], kids + [s])
    ensures RunAll(d, u, names + [CString(es[e].name)], kids + [s])
         == Run(RunAll(d, u, names, kids), u, CString(es[e].name), s)
  {
    hide Performs, PerformsAll, CString, Run, RunAll;
    assert es[..e + 1] == es[..e] + [es[e]];
    PerformsMore(m, es[..e], d, u, names, kids, es[e], s);
    PerformsCount(m, es[..e], d, u, names, kids);
    RunOn(d, u, names, kids, CString(es[e].name), s);
  }

  lemma PerformsCount(m: Mounted, es: seq<Entry>, d: Disk, u: User, names: seq<bytes>, kids: seq<Step>)
    requires PerformsAll(m, es, d, u, names, kids)
    ensures |es| == |names| == |kids|
  {
  }

  lemma {:induction false} PerformsMore(m: Mounted, es: seq<Entry>, d: Disk, u: User, names: seq<bytes>,
                                        kids: seq<Step>, e: Entry, s: Step)
    requires PerformsAll(m, es, d, u, names, kids)
    requires Performs(m, e.number, RunAll(d, u, names, kids), u, CString(e.name), s)
    ensures PerformsAll(m, es + [e], d, u, names + [CString(e.name)], kids + [s])
    decreases kids
  {
    hide Performs, CString, Run;
    var es', names', kids' := es + [e], names + [CString(e.name)], kids + [s];
    if es == [] {
      assert es' == [e] && names' == [CString(e.name)] && kids' == [s];
      assert es'[1..] == [] && names'[1..] == [] && kids'[1..] == [];
    } else {
      PerformsMore(m, es[1..], Run(d, u, names[0], kids[0]), u, names[1..], kids[1..], e, s);
      assert es'[1..] == es[1..] + [e] && names'[1..] == names[1..] + [CString(e.name)]
             && kids'[1..] == kids[1..] + [s];
    }
  }

  lemma {:induction false} RunOn(d: Disk, u: User, names: seq<bytes>, kids: seq<Step>, name: bytes, s: Step)
    requires |names| == |kids|
    ensures RunAll(d, u, names + [name], kids + [s]) == Run(RunAll(d, u, names, kids), u, name, s)
    decreases kids
  {
    hide Run;
    var names', kids' := names + [name], kids + [s];
    if kids == [] {
      assert names' == [name] && kids' == [s] && kids'[1..] == [];
    } else {
      RunOn(Run(d, u, names[0], kids[0]), u, names[1..], kids[1..], name, s);
      assert names'[1..] == names[1..] + [name] && kids'[1..] == kids[1..] + [s];
    }
  }

  lemma HaltsInside(m: Mounted, n: nat, d: Disk, u: User, name: bytes, depth: nat)
    requires Halts(m, n, d, u, name, depth)
    ensures Found(m, n) && Sane(m) && HasNode(m, n) && Readable(m.sb) && HasBlock(m, NodeFill(m, n).block)
    ensures var r := NodeFill(m, n);
            && (r.kind == TYPE_SYMBOLIC_LINK ==> InBounds(m, n))
            && (r.kind == TYPE_REGULAR_FILE && Opens(d, u, name, OwnerFrom(r).mode) ==> InBounds(m, n))
            && (r.kind == TYPE_DIRECTORY && Enter(d, u, name, OwnerFrom(r).mode).0 ==> InBounds(m, n))
  {
    hide NodeFill, Readable, HasBlock, HasNode, Spans, Enter, OwnerFrom, Opens;
  }

  /** A directory read without error. */
  lemma HaltsDir(m: Mounted, n: nat, d: Disk, u: User, name: bytes, depth: nat, raw: bytes)
    returns (parent: nat, es: seq<Entry>)
    requires Halts(m, n, d, u, name, depth) && InBounds(m, n) && NodeFill(m, n).kind == TYPE_DIRECTORY
    requires Enter(d, u, name, OwnerFrom(NodeFill(m, n)).mode).0 && Gives(m, n, true, raw)
    ensures depth > 0 && ParseDir(m.sb.db, raw) == Some(Directory(parent, es))
    ensures HaltsAll(m, es, Enter(d, u, name, OwnerFrom(NodeFill(m, n)).mode).1, u, depth - 1)
  {
    hide NodeFill, HasNode, HasBlock, BlockFill, Readable, Gives, ParseDir, Spans, Enter, OwnerFrom;
    var b := ParseDir(m.sb.db, raw).value;
    parent, es := b.parent, b.entries;
  }

  /** What a node read in full, or up to a block that does not uncompress, comes to. */
  lemma PerformsFile(m: Mounted, n: nat, d: Disk, u: User, name: bytes, ok: bool, v: bytes, attr: Owner)
    requires InBounds(m, n) && Gives(m, n, ok, v)
    requires NodeFill(m, n).kind == TYPE_REGULAR_FILE && attr == OwnerFrom(NodeFill(m, n))
    ensures Performs(m, n, d, u, name, if ok then MakeFile(attr, v) else BrokenFile(attr, v))
  {
    hide NodeFill, HasNode, Gives, Spans, Opens;
  }

  lemma PerformsLink(m: Mounted, n: nat, d: Disk, u: User, name: bytes, ok: bool, v: bytes, attr: Owner)
    requires InBounds(m, n) && Gives(m, n, ok, v)
    requires NodeFill(m, n).kind == TYPE_SYMBOLIC_LINK && attr == OwnerFrom(NodeFill(m, n))
    ensures Performs(m, n, d, u, name, if ok then MakeLink(attr, CString(v)) else BrokenLink)
  {
    hide NodeFill, HasNode, Gives, Spans;
  }

  lemma PerformsDir(m: Mounted, n: nat, d: Disk, u: User, name: bytes, v: bytes, attr: Owner, names: seq<bytes>,
                    kids: seq<Step>)
    requires InBounds(m, n) && Gives(m, n, true, v) && ParseDir(m.sb.db, v).Some?
    requires PerformsAll(m, ParseDir(m.sb.db, v).value.entries, Enter(d, u, name, attr.mode).1, u, names, kids)
    requires NodeFill(m, n).kind == TYPE_DIRECTORY && attr == OwnerFrom(NodeFill(m, n))
    ensures Performs(m, n, d, u, name, MakeDir(attr, names, kids))
  {
    hide NodeFill, HasNode, Gives, Spans, ParseDir, Enter;
  }

  lemma PerformsBroken(m: Mounted, n: nat, d: Disk, u: User, name: bytes, v: bytes, attr: Owner)
    requires InBounds(m, n) && Gives(m, n, false, v)
    requires NodeFill(m, n).kind == TYPE_DIRECTORY && attr == OwnerFrom(NodeFill(m, n))
    ensures Performs(m, n, d, u, name, BrokenDir(attr))
  {
    hide NodeFill, HasNode, Gives, Spans, Enter;
  }

  /** A directory that could not be entered is not read. */
  lemma DirUnentered(m: Mounted, n: nat, d: Disk, u: User, name: bytes, attr: Owner)
    requires Found(m, n) && NodeFill(m, n).kind == TYPE_DIRECTORY && attr == OwnerFrom(NodeFill(m, n))
    requires !Enter(d, u, name, attr.mode).0
    ensures Performs(m, n, d, u, name, BrokenDir(attr))
    ensures Run(d, u, name, BrokenDir(attr)) == Enter(d, u, name, attr.mode).1
  {
    hide NodeFill, HasNode, Enter, OwnerFrom, Up;
  }

  /** Nor is a file that could not be opened. */
  lemma FileUnopened(m: Mounted, n: nat, d: Disk, u: User, name: bytes, attr: Owner)
    requires Found(m, n) && NodeFill(m, n).kind == TYPE_REGULAR_FILE && attr == OwnerFrom(NodeFill(m, n))
    requires !Opens(d, u, name, attr.mode)
    ensures Performs(m, n, d, u, name, BrokenFile(attr, []))
    ensures Run(d, u, name, BrokenFile(attr, [])) == Unlink(d, name)
  {
    hide NodeFill, HasNode, OwnerFrom, Opens, Create, Unlink;
    RunUnopened(d, u, name, BrokenFile(attr, []));
  }

  lemma FileWritten(d: Disk, u: User, name: bytes, mode: nat, content: bytes)
    requires Create(d, u, name, mode, []).Some? && Named(d, name).Some?
    ensures Create(d, u, name, mode, content)
         == Some(Create(d, u, name, mode, []).value
                 .(ns := Create(d, u, name, mode, []).value.ns[Named(d, name).value := AFile(content)]))
  {
    hide Named;
    var p := Named(d, name).value;
    assert d.ns[p := AFile([])][p := AFile(content)] == d.ns[p := AFile(content)];
  }

  /**
    traverse: fills the node, looks its first block up, and recreates it on the disk; for a directory goes
    through the entries in it. What it does is what the node comes to, failed calls and unreadable blocks
    included.
   */
  method Traverse(v: Volume, entries: array<byte>, n: nat, name: bytes, w: World, ghost m: Mounted, ghost depth: nat)
    returns (ghost s: Step)
    requires v.Holds(m) && entries[..] == m.entries && Halts(m, n, w.disk, w.user, name, depth)
    modifies w
    ensures Performs(m, n, old(w.disk), w.user, name, s) && w.disk == Run(old(w.disk), w.user, name, s)
    decreases depth, 1
  {
    hide Spans, NodeFill, BlockFill, HasNode, HasBlock, Readable, ParseDir, Handed, CString, Halts, HaltsAll, Enter,
      RunAll, Up, Finish, Performs, PerformsAll, Sane, Rwx, Named, Create, Unlink, Symlink;
    ghost var d := w.disk;
    HaltsInside(m, n, d, w.user, name, depth);
    var node := v.FillNode(n, m);
    var block := v.FillBlock(node.block, m);
    var owner := Rights(node.owner);
    var group := Rights(node.group);
    var other := Rights(node.other);
    var attr := Owner(64 * owner + 8 * group + other, node.uid, node.gid);
    if node.kind == TYPE_DIRECTORY {
      var entered := w.EnterDir(name, attr.mode);
      if !entered {
        DirUnentered(m, n, d, w.user, name, attr);
        return BrokenDir(attr);
      }
      var ok, raw := NodeRead(v, entries, node, m);
      if !ok {
        w.GoUp();
        PerformsBroken(m, n, d, w.user, name, raw, attr);
        return BrokenDir(attr);
      }
      ghost var parent, es := HaltsDir(m, n, d, w.user, name, depth, raw);
      ghost var names, kids := TraverseEntries(v, entries, raw, w, m, parent, es, depth - 1);
      w.GoUp();
      PerformsDir(m, n, d, w.user, name, raw, attr, names, kids);
      s := MakeDir(attr, names, kids);
    } else if node.kind == TYPE_REGULAR_FILE {
      w.Remove(name);
      var fd := w.OpenNew(name, attr.mode);
      if fd.None? {
        FileUnopened(m, n, d, w.user, name, attr);
        return BrokenFile(attr, []);
      }
      var ok, content := NodeRead(v, entries, node, m);
      w.Write(fd.value, content);
      FileWritten(Unlink(d, name), w.user, name, attr.mode, content);
      PerformsFile(m, n, d, w.user, name, ok, content, attr);
      if !ok {
        w.GoUp();
        return BrokenFile(attr, content);
      }
      s := MakeFile(attr, content);
    } else if node.kind == TYPE_SYMBOLIC_LINK {
      w.Remove(name);
      var ok, raw := NodeRead(v, entries, node, m);
      PerformsLink(m, n, d, w.user, name, ok, raw, attr);
      if !ok {
        w.GoUp();
        return BrokenLink;
      }
      s := MakeLink(attr, CString(raw));
      var made := w.MakeSymlink(CString(raw), name);
      if !made {
        return;
      }
    } else {
      PerformsUnknown(m, n, d, w.user, name);
      return UnknownType;
    }
    w.GiveAway(name, attr);
  }

  lemma PerformsUnknown(m: Mounted, n: nat, d: Disk, u: User, name: bytes)
    requires Found(m, n)
    requires var k := NodeFill(m, n).kind; k != TYPE_REGULAR_FILE && k != TYPE_SYMBOLIC_LINK && k != TYPE_DIRECTORY
    ensures Performs(m, n, d, u, name, UnknownType)
  {
    hide NodeFill, HasNode;
  }

  /**
    main: opening the image, making and entering the output directory, and traversing the image from its
    root. It ends whenever the traversal does.
   */
  method Extract(f: File, registry: nat -> Option<Compressor>, output: bytes, w: World, ghost depth: nat)
    returns (ok: bool, ghost s: Step)
    requires f.pos == 0
    requires var (entered, d) := Enter(w.disk, w.user, output, 511);
             Mount(f.data, registry).Some? && entered ==>
               Halts(Mount(f.data, registry).value, Mount(f.data, registry).value.sb.root, d, w.user, HERE, depth)
    modifies f, w
    ensures ok <==> Mount(f.data, registry).Some? && Enter(old(w.disk), w.user, output, 511).0
    ensures w.disk == if Mount(f.data, registry).None? then old(w.disk) else Extracting(old(w.disk), w.user, output, s)
    ensures ok ==> var m := Mount(f.data, registry).value;
                   Performs(m, m.sb.root, Enter(old(w.disk), w.user, output, 511).1, w.user, HERE, s)
  {
    hide Mount, Halts, Performs, Enter, Run;
    s := UnknownType;
    var mounted, v, entries := Open(f, registry);
    if !mounted {
      return false, s;
    }
    ghost var m := Mount(f.data, registry).value;
    var cwd := w.disk.cwd;
    var entered := w.EnterDir(output, 511);
    if !entered {
      return false, s;
    }
    s := Traverse(v, entries, v.sb.root, HERE, w, m, depth);
    w.disk := w.disk.(cwd := cwd);
    ok := true;
  }
}
