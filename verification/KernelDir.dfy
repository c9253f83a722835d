/** The kernel module's directory operations: a listing that can be interrupted at any entry, and lookup by name. */
module KernelDir {
  import opened Seqs
  import opened Bits
  import opened BitBuffers
  import opened MergeSort
  import opened Format
  import opened Reader
  import opened Walking
  import opened Devices
  import opened RandomAccess
  import opened KernelRead

  // ---------- listing ----------

  datatype Dirent = Dirent(name: bytes, ino: nat, dtype: nat)

  const DT_UNKNOWN := 0
  const DT_FIFO := 1
  const DT_CHR := 2
  const DT_DIR := 4
  const DT_BLK := 6
  const DT_REG := 8
  const DT_LNK := 10
  const DT_SOCK := 12

  function DtOf(kind: nat): nat {
    if kind == TYPE_REGULAR_FILE then DT_REG
    else if kind == TYPE_DIRECTORY then DT_DIR
    else if kind == TYPE_SYMBOLIC_LINK then DT_LNK
    else if kind == 4 then DT_CHR
    else if kind == 5 then DT_BLK
    else if kind == 6 then DT_FIFO
    else if kind == 7 then DT_SOCK
    else DT_UNKNOWN
  }

  /** Everything there is to list: the directory itself, its parent, and its entries in order. */
  function Listing(self: nat, parent: nat, es: seq<Entry>): (r: seq<Dirent>)
    ensures |r| == |es| + 2
  {
    [Dirent([DOT], self, DT_DIR), Dirent([DOT, DOT], parent + 1, DT_DIR)]
    + MapSeq((e: Entry) => Dirent(e.name, e.number + 1, DtOf(e.kind)), es)
  }

  /** The types handed to dir_emit for the stored types 0 to 7. */
  const DIRENT_TYPES: seq<nat> := [0, 8, 4, 10, 2, 6, 1, 12]

  /**
    Item by item: "." under the directory's own number, ".." under one more than the parent's, both directories; then
    each entry's name, one more than its number, and the type for the stored one, 0 for a stored type above 7.
   */
  lemma ListingExactly(self: nat, parent: nat, es: seq<Entry>)
    ensures var all := Listing(self, parent, es);
            && all[0] == Dirent([46], self, 4) && all[1] == Dirent([46, 46], parent + 1, 4)
            && forall i :: 2 <= i < |all| ==>
                 && all[i].name == es[i - 2].name && all[i].ino == es[i - 2].number + 1
                 && all[i].dtype == if es[i - 2].kind < 8 then DIRENT_TYPES[es[i - 2].kind] else 0
  {
  }

  /** The stored position once `j` of them have been accepted. */
  function PosAt(db: DirBits, es: seq<Entry>, j: nat): nat
    requires j <= |es| + 2
  {
    if j < 2 then j else 3 + EntryOff(db, es, j - 2)
  }

  /**
    The positions in numbers: 0 before ".", 1 before "..", and from then on 3 more than the place in the
    directory's bytes, behind the header and the heads and names of the entries accepted.
   */
  lemma {:induction false} PositionExactly(db: DirBits, es: seq<Entry>, j: nat)
    requires j <= |es| + 2
    ensures var header, head := (db.parent + db.nentries + 7) / 8, (db.number + db.length + db.kind + 7) / 8;
            PosAt(db, es, j) == if j == 0 then 0 else if j == 1 then 1
                                else 3 + header + (j - 2) * head + |Flat(NamesOf(es)[..j - 2])|
  {
    hide Flat;
    if j == 2 {
      assert NamesOf(es)[..0] == [];
      Nothing();
    } else if j > 2 {
      PositionExactly(db, es, j - 1);
      FlatTake(NamesOf(es), j - 3);
      Distributes(j - 3, EntryHeadSize(db));
    }
  }

  lemma Nothing()
    ensures Flat<byte>([]) == []
  {
  }

  lemma Distributes(n: nat, w: nat)
    ensures (n + 1) * w == n * w + w
  {
  }

  /** What the caller of readdir keeps between calls; it takes `room` more entries and refuses the next. */
  class DirContext {
    var pos: nat
    var room: nat
    var emitted: seq<Dirent>

    constructor ()
      ensures pos == 0 && room == 0 && emitted == []
    {
      pos, room, emitted := 0, 0, [];
    }

    method Offer(room: nat)
      modifies this`room
      ensures this.room == room
    {
      this.room := room;
    }

    /** dir_emit. */
    method Emit(d: Dirent) returns (taken: bool)
      modifies this`room, this`emitted
      ensures taken == (old(room) > 0) && room == (if taken then old(room) - 1 else 0)
      ensures emitted == if taken then old(emitted) + [d] else old(emitted)
    {
      taken := room > 0;
      if taken {
        room, emitted := room - 1, emitted + [d];
      }
    }

    /** Exactly the first `j` items of the listing have been accepted. */
    ghost predicate Resumes(db: DirBits, all: seq<Dirent>, es: seq<Entry>, j: nat)
      reads this`pos, this`emitted
    {
      j <= |es| + 2 == |all| && pos == PosAt(db, es, j) && emitted == all[..j]
    }

    /** The loop over "." and ".." and the step over the directory's header. */
    method EmitDots(db: DirBits, self: nat, parent: nat, ghost es: seq<Entry>, ghost all: seq<Dirent>, ghost j0: nat)
      returns (more: bool, ghost j: nat)
      requires all == Listing(self, parent, es) && Resumes(db, all, es, j0)
      modifies this
      ensures Resumes(db, all, es, j) && j0 <= j && j + room == j0 + old(room)
      ensures more ==> j >= 2
      ensures !more ==> room == 0
    {
      hide EntryOff;
      StartOfEntries(db, es);
      j := j0;
      while pos < 3
        invariant j0 <= j && j + room == j0 + old(room)
        invariant if pos < 3 then j < 2 && Resumes(db, all, es, j)
                  else if j == 2 && pos == 3 then emitted == all[..2] else j >= 2 && Resumes(db, all, es, j)
        decreases 3 - pos
      {
        TakeNext(all, j);
        var d, s := Dirent([DOT], self, DT_DIR), 1;
        if pos != 0 {
          d, s := Dirent([DOT, DOT], parent + 1, DT_DIR), 2;
        }
        var taken := Emit(d);
        if !taken {
          return false, j;
        }
        pos := pos + s;
        j := j + 1;
      }
      var s := (db.parent + db.nentries + 7) / 8;
      if pos < 3 + s {
        StepOver(db, es, j);
        pos := pos + s;
      }
      more := true;
    }

    /** The loop over the entries, which emits the one the position stands at and walks past the others. */
    method EmitEntries(bb: BitBuffer, nbuffer: array<byte>, db: DirBits, nentries: nat, ghost raw: bytes,
                       ghost es: seq<Entry>, ghost all: seq<Dirent>, ghost self: nat, ghost parent: nat,
                       ghost j0: nat)
      returns (ghost j: nat)
      requires all == Listing(self, parent, es) && Resumes(db, all, es, j0) && 2 <= j0 <= |es| + 2 && nentries == |es|
      requires bb.buffer == nbuffer && nbuffer[..] == raw && Narrow(db) && (es != [] ==> EntryHeadSize(db) > 0)
      requires forall e :: 0 <= e < |es| ==> EntryStands(db, raw, EntryOff(db, es, e), es[e])
      modifies this, bb`index
      ensures Resumes(db, all, es, j) && j == Min(j0 + old(room), |es| + 2)
    {
      hide EntryStands, Resumes, Narrow, Listing, EntryOff, EntryHeadSize;
      StartOfEntries(db, es);
      var buffer, e := (db.parent + db.nentries + 7) / 8, 0;
      j := j0;
      while e < nentries
        invariant 0 <= e <= nentries && e + 2 <= j <= |es| + 2 && j + room == j0 + old(room)
        invariant buffer == EntryOff(db, es, e)
        invariant Resumes(db, all, es, j)
      {
        var number, name, kind, s := EntryAt(bb, nbuffer, db, buffer, raw, es[e]);
        StandsAt(db, all, es, e, j);
        NextOff(db, es, e);
        if pos == buffer + 3 {
          var taken := EmitEntry(number, name, kind, s, db, self, parent, all, es, j);
          if !taken {
            return j;
          }
          j := j + 1;
        }
        buffer := buffer + s + |name|;
        e := e + 1;
      }
    }

    /** Whether the position stands at entry `e`. */
    lemma StandsAt(db: DirBits, all: seq<Dirent>, es: seq<Entry>, e: nat, j: nat)
      requires Resumes(db, all, es, j) && e < |es| && j >= e + 2 && EntryHeadSize(db) > 0
      ensures pos == EntryOff(db, es, e) + 3 <==> j == e + 2
    {
      EntryOffMono(db, es, e, j - 2);
      if j > e + 2 {
        MulSign(j - 2 - e, EntryHeadSize(db));
      }
    }

    /** Emits the entry the position stands at and, if it was taken, moves behind it. */
    method EmitEntry(number: nat, name: bytes, kind: nat, s: nat, ghost db: DirBits, ghost self: nat,
                     ghost parent: nat, ghost all: seq<Dirent>, ghost es: seq<Entry>, ghost j: nat)
      returns (taken: bool)
      requires Resumes(db, all, es, j) && 2 <= j < |es| + 2 && all == Listing(self, parent, es)
      requires es[j - 2] == Entry(number, kind, name) && s == EntryHeadSize(db)
      modifies this
      ensures taken == (old(room) > 0) && room == (if taken then old(room) - 1 else 0)
      ensures Resumes(db, all, es, if taken then j + 1 else j)
    {
      hide Listing;
      EntryListed(self, parent, es, j - 2);
      TakeNext(all, j);
      taken := Emit(Dirent(name, number + 1, DtOf(kind)));
      if taken { pos := pos + s + |name|; }
    }
  }

  /** The entry at `at`: its number, name and type, and the length of its record. */
  method EntryAt(bb: BitBuffer, nbuffer: array<byte>, db: DirBits, at: nat, ghost raw: bytes, ghost e: Entry)
    returns (number: nat, name: bytes, kind: nat, s: nat)
    requires bb.buffer == nbuffer && nbuffer[..] == raw && Narrow(db) && EntryStands(db, raw, at, e)
    modifies bb`index
    ensures number == e.number && name == e.name && kind == e.kind && s == EntryHeadSize(db)
  {
    hide EntryStands;
    var length;
    number, length := ReadEntry(bb, db, at, raw, e);
    kind := ReadKind(bb, db, at, raw, e);
    NameStands(db, raw, at, e);
    s := (db.number + db.length + db.kind + 7) / 8;
    name := nbuffer[at + s..at + s + length];
    assert name == raw[at + s..at + s + length];
  }

  /** Only right behind ".." does the position stand before the entries. */
  lemma StepOver(db: DirBits, es: seq<Entry>, j: nat)
    requires 2 <= j <= |es| + 2
    ensures PosAt(db, es, j) >= 3 + HeaderSize(db)
  {
    EntryOffMono(db, es, 0, j - 2);
    assert (j - 2) * EntryHeadSize(db) >= 0;
  }

  lemma EntryListed(self: nat, parent: nat, es: seq<Entry>, e: nat)
    requires e < |es|
    ensures Listing(self, parent, es)[e + 2] == Dirent(es[e].name, es[e].number + 1, DtOf(es[e].kind))
  {
  }

  // ---------- a directory's bytes ----------

  /** The node is a readable directory with these entries, and an entry takes up some bytes. */
  ghost predicate IsDirectory(m: Mounted, node: NodeRec, parent: nat, es: seq<Entry>) {
    && Sane(m) && (es != [] ==> EntryHeadSize(m.sb.db) > 0)
    && Spans(m, node.block, node.index, node.size) && Content(m, node).Some?
    && ParseDir(m.sb.db, Content(m, node).value) == Some(Directory(parent, es))
  }

  /** The buffer both operations read the whole directory into. */
  method ReadDirectory(si: SuperInfo, node: NodeRec, ghost m: Mounted, ghost parent: nat, ghost es: seq<Entry>)
    returns (ok: bool, nbuffer: array<byte>, ghost got: seq<nat>)
    requires si.Ready(m) && IsDirectory(m, node, parent, es)
    modifies si.device
    ensures fresh(nbuffer) && si.Ready(m)
    ensures si.device.gets == old(si.device.gets) + got && si.device.puts == old(si.device.puts) + got
    ensures ok ==> Some(nbuffer[..]) == Content(m, node)
    ensures si.Healthy() ==> ok
  {
    hide Sane, Spans, ReadFrom, NodePos, BlockNo, IndexIn, ParseDir, SuperInfo.Carries, Balanced;
    nbuffer := new byte[node.size];
    ReadAgrees(m, node.block, node.index, node.size, 0, node.size);
    PosIs(m, node, 0);
    ok, got := si.NodeRead(node, nbuffer, 0, node.size, m);
    assert nbuffer[..node.size] == nbuffer[..];
    Whole(Content(m, node).value);
  }

  lemma Whole(s: bytes)
    ensures s[0..0 + |s|] == s
  {
  }

  /** Before the end of the listing the position is inside the directory. */
  lemma NotFinished(db: DirBits, raw: bytes, parent: nat, es: seq<Entry>, j: nat)
    requires ParseDir(db, raw) == Some(Directory(parent, es)) && (es != [] ==> EntryHeadSize(db) > 0) && j < |es| + 2
    ensures PosAt(db, es, j) < 3 + |raw|
  {
    hide ParseDir, BitsOf;
    if j >= 2 { DirectoryStands(db, raw, parent, es); }
  }

  /**
    smashfs_readdir: goes on where the last call stopped, and stops at the first refusal. A call that
    takes `room` items adds the next `room` items of the listing and nothing else.
   */
  method Readdir(si: SuperInfo, node: NodeRec, self: nat, ctx: DirContext, ghost m: Mounted, ghost parent: nat,
                 ghost es: seq<Entry>, ghost j0: nat)
    returns (ok: bool, ghost j: nat)
    requires si.Ready(m) && IsDirectory(m, node, parent, es) && j0 <= |es| + 2
    requires ctx.Resumes(m.sb.db, Listing(self, parent, es), es, j0)
    modifies si.device, ctx
    ensures si.Ready(m) && j <= |es| + 2 && ctx.Resumes(m.sb.db, Listing(self, parent, es), es, j)
    ensures j == if ok then Min(j0 + old(ctx.room), |es| + 2) else j0
    ensures si.Healthy() ==> ok
  {
    hide Sane, Spans, ReadFrom, ParseDir, SuperInfo.Carries, Balanced, EntryStands, DirContext.Resumes, PosAt, Listing;
    Position(ctx, m.sb.db, Listing(self, parent, es), es, j0);
    var db := si.volume.sb.db;
    if j0 < |es| + 2 { NotFinished(db, Content(m, node).value, parent, es, j0); }
    if ctx.pos >= 3 + node.size {
      return true, j0;
    }
    var nbuffer; ghost var got;
    ok, nbuffer, got := ReadDirectory(si, node, m, parent, es);
    if !ok {
      return false, j0;
    }
    SaneNarrow(m);
    DirectoryStands(db, nbuffer[..], parent, es);
    var bb := new BitBuffer.FromBuffer(nbuffer);
    var directoryParent, nentries := ReadHeader(bb, db, nbuffer[..], parent, es);
    var more;
    more, j := ctx.EmitDots(db, self, directoryParent, es, Listing(self, parent, es), j0);
    Position(ctx, db, Listing(self, parent, es), es, j);
    if more {
      j := ctx.EmitEntries(bb, nbuffer, db, nentries, nbuffer[..], es, Listing(self, parent, es), self, parent, j);
    }
  }

  lemma Position(ctx: DirContext, db: DirBits, all: seq<Dirent>, es: seq<Entry>, j: nat)
    requires ctx.Resumes(db, all, es, j)
    ensures j <= |es| + 2 && ctx.pos == PosAt(db, es, j)
  {
  }

  lemma SaneNarrow(m: Mounted)
    requires Sane(m)
    ensures Narrow(m.sb.db)
  {
    hide HasNode, HasBlock, BlockFill;
    NarrowDirs(m.sb);
  }

  function Total(rooms: seq<nat>): nat {
    if rooms == [] then 0 else Total(rooms[..|rooms| - 1]) + rooms[|rooms| - 1]
  }

  /**
    Any sequence of calls, whatever each of them takes: the accepted items one after the other are a
    prefix of the listing, every item once and in order. Unless the device fails they are the whole of
    it as soon as enough has been asked for, and then the position is 3 and the directory's length.
   */
  method ListAll(si: SuperInfo, node: NodeRec, self: nat, ctx: DirContext, rooms: seq<nat>, ghost m: Mounted,
                 ghost parent: nat, ghost es: seq<Entry>)
    returns (ghost j: nat)
    requires si.Ready(m) && IsDirectory(m, node, parent, es) && ctx.pos == 0 && ctx.emitted == []
    modifies si.device, ctx
    ensures si.Ready(m) && j <= |es| + 2 && ctx.emitted == Listing(self, parent, es)[..j]
            && ctx.pos == PosAt(m.sb.db, es, j)
    ensures si.Healthy() ==> j == Min(Total(rooms), |es| + 2)
    ensures si.Healthy() && Total(rooms) >= |es| + 2 ==> ctx.pos == 3 + EntryOff(m.sb.db, es, |es|)
  {
    hide IsDirectory, SuperInfo.Ready, SuperInfo.Healthy, Listing;
    j := 0;
    var i := 0;
    while i < |rooms|
      invariant 0 <= i <= |rooms| && si.Ready(m) && j <= |es| + 2
      invariant ctx.Resumes(m.sb.db, Listing(self, parent, es), es, j)
      invariant si.Healthy() ==> j == Min(Total(rooms[..i]), |es| + 2)
    {
      ctx.Offer(rooms[i]);
      var ok;
      ok, j := Readdir(si, node, self, ctx, m, parent, es, j);
      assert rooms[..i + 1][..i] == rooms[..i];
      i := i + 1;
    }
    assert rooms[..i] == rooms;
  }

  // ---------- lookup ----------

  /** The value of a char, which some machines take as signed. */
  function CharOf(b: byte, signed: bool): int {
    if signed && b >= 128 then b - 256 else b
  }

  /** An entry that begins with `b` stops the search for a name that begins with `first`. */
  predicate Stops(first: byte, b: byte, signed: bool) {
    first < b && (signed ==> b < 128)
  }

  lemma StopsAbove(first: byte, b: byte, signed: bool)
    ensures first < CharOf(b, signed) <==> Stops(first, b, signed)
  {
  }

  /** What a scan of the whole directory finds. */
  function FirstNamed(es: seq<Entry>, name: bytes): Option<nat> {
    if es == [] then None
    else if es[0].name == name then Some(es[0].number)
    else FirstNamed(es[1..], name)
  }

  /** It is the number of the first entry with the name, if there is one. */
  lemma {:induction false} FirstNamedExactly(es: seq<Entry>, name: bytes, e: nat)
    requires e < |es| && es[e].name == name && forall i :: 0 <= i < e ==> es[i].name != name
    ensures FirstNamed(es, name) == Some(es[e].number)
  {
    FirstNamedFrom(es, name, e);
    FirstHit(es[e..], name);
  }

  lemma {:induction false} FirstNamedFrom(es: seq<Entry>, name: bytes, e: nat)
    requires e <= |es| && forall i :: 0 <= i < e ==> es[i].name != name
    ensures FirstNamed(es, name) == FirstNamed(es[e..], name)
  {
    if e > 0 {
      FirstNamedFrom(es[1..], name, e - 1);
      assert es[1..][e - 1..] == es[e..];
    } else {
      assert es[0..] == es;
    }
  }

  /** And nothing otherwise. */
  lemma {:induction false} NotNamed(es: seq<Entry>, name: bytes)
    requires forall i :: 0 <= i < |es| ==> es[i].name != name
    ensures FirstNamed(es, name) == None
  {
    if es != [] { NotNamed(es[1..], name); }
  }

  /**
    In ascending order, once an entry's first byte is above the wanted one no later entry has the wanted
    name. A signed comparison stops no sooner than an unsigned one.
   */
  lemma EarlyExit(es: seq<Entry>, name: bytes, e: nat, signed: bool)
    requires NamesAscend(NamesOf(es)) && name != [] && e < |es| && Stops(name[0], es[e].name[0], signed)
    requires forall i :: 0 <= i < e ==> es[i].name != name
    ensures FirstNamed(es, name) == None
  {
    var names := NamesOf(es);
    forall i | e <= i < |es|
      ensures es[i].name != name
    {
      if i > e { assert StrCmp(names[e], names[i]) < 0 && names[i] != []; }
    }
    NotNamed(es, name);
  }

  /** In another order the early exit can miss a name that is there. */
  lemma EarlyExitNeedsOrder() returns (es: seq<Entry>, name: bytes)
    ensures name != [] && |es| > 0 && es[0].name != []
    ensures Stops(name[0], es[0].name[0], false) && Stops(name[0], es[0].name[0], true)
            && FirstNamed(es, name) == Some(2)
  {
    es, name := [Entry(1, 1, [98]), Entry(2, 1, [97])], [97];
    assert es[1..] == [Entry(2, 1, [97])];
  }

  /** Names a lookup can be asked about and compare: none is empty. */
  ghost predicate Nameable(es: seq<Entry>, name: bytes) {
    name != [] && forall e :: 0 <= e < |es| ==> es[e].name != []
  }

  /** What a scan finds that stops at the first name beginning above the wanted one. */
  ghost function ExitScan(es: seq<Entry>, name: bytes, signed: bool): Option<nat>
    requires Nameable(es, name)
  {
    if es == [] || name[0] < CharOf(es[0].name[0], signed) then None
    else if es[0].name == name then Some(es[0].number)
    else ExitScan(es[1..], name, signed)
  }

  /** Entry `j` is the first with the name, and an entry before it stops the scan. */
  ghost predicate Missed(es: seq<Entry>, name: bytes, signed: bool, j: nat)
    requires Nameable(es, name)
  {
    && j < |es| && es[j].name == name && (forall i :: 0 <= i < j ==> es[i].name != name)
    && exists i :: 0 <= i < j && Stops(name[0], es[i].name[0], signed)
  }

  /**
    What a scan answers that stops early, whatever the order of the entries and the sign of a character: what a full
    scan does, unless an entry before the first with the name stops it, and then nothing.
   */
  lemma {:induction false} ExitExactly(es: seq<Entry>, name: bytes, signed: bool)
    requires Nameable(es, name)
    ensures ExitScan(es, name, signed) == FirstNamed(es, name) <==> !exists j :: Missed(es, name, signed, j)
    ensures ExitScan(es, name, signed) == FirstNamed(es, name) || ExitScan(es, name, signed) == None
  {
    if es != [] { StopsAbove(name[0], es[0].name[0], signed); }
    if es == [] {
    } else if es[0].name == name {
      assert !(Stops(name[0], name[0], signed));
    } else if Stops(name[0], es[0].name[0], signed) {
      StopsFirst(es, name, signed);
    } else {
      var rest := es[1..];
      ExitExactly(rest, name, signed);
      if j: nat :| Missed(rest, name, signed, j) { MissedLater(es, name, signed, j); }
      if j: nat :| Missed(es, name, signed, j) { MissedBefore(es, name, signed, j); }
    }
  }

  lemma StopsFirst(es: seq<Entry>, name: bytes, signed: bool)
    requires Nameable(es, name) && es != [] && es[0].name != name && Stops(name[0], es[0].name[0], signed)
    ensures FirstNamed(es, name) == None <==> !exists j :: Missed(es, name, signed, j)
  {
    if j: nat :| Missed(es, name, signed, j) {
      FirstNamedFrom(es, name, j);
    } else if FirstNamed(es, name) != None {
      var j := FirstPlace(es, name);
      assert Missed(es, name, signed, j);
    }
  }

  lemma {:induction false} FirstPlace(es: seq<Entry>, name: bytes) returns (j: nat)
    requires FirstNamed(es, name) != None
    ensures j < |es| && es[j].name == name && forall i :: 0 <= i < j ==> es[i].name != name
  {
    j := 0;
    if es[0].name != name {
      j := FirstPlace(es[1..], name);
      assert forall i :: 1 <= i <= j ==> es[i] == es[1..][i - 1];
      j := j + 1;
    }
  }

  lemma MissedLater(es: seq<Entry>, name: bytes, signed: bool, j: nat)
    requires Nameable(es, name) && es != [] && es[0].name != name && Missed(es[1..], name, signed, j)
    ensures Missed(es, name, signed, j + 1)
  {
    var i :| 0 <= i < j && Stops(name[0], es[1..][i].name[0], signed);
    assert es[i + 1] == es[1..][i];
    assert forall k :: 1 <= k <= j ==> es[k] == es[1..][k - 1];
  }

  lemma MissedBefore(es: seq<Entry>, name: bytes, signed: bool, j: nat)
    requires Nameable(es, name) && Missed(es, name, signed, j) && !Stops(name[0], es[0].name[0], signed)
    ensures j > 0 && Missed(es[1..], name, signed, j - 1)
  {
    var i :| 0 <= i < j && Stops(name[0], es[i].name[0], signed);
    assert es[1..][i - 1] == es[i];
    assert forall k :: 0 <= k < j ==> es[1..][k] == es[k + 1];
  }

  lemma AscendingExit(es: seq<Entry>, name: bytes, signed: bool)
    requires NamesAscend(NamesOf(es)) && name != []
    ensures Nameable(es, name) && ExitScan(es, name, signed) == FirstNamed(es, name)
  {
    hide NamesAscend, ExitScan;
    forall e | 0 <= e < |es|
      ensures es[e].name != []
    {
      NotEmpty(es, e);
    }
    ExitExactly(es, name, signed);
    if j: nat :| Missed(es, name, signed, j) {
      var i :| 0 <= i < j && Stops(name[0], es[i].name[0], signed);
      FirstNamedFrom(es, name, j);
      FirstHit(es[j..], name);
      EarlyExit(es, name, i, signed);
    }
  }

  /** smashfs_lookup: what a scan finds that stops early; on an ascending directory what a scan of the whole does. */
  method Lookup(si: SuperInfo, node: NodeRec, name: bytes, signed: bool, ghost m: Mounted, ghost parent: nat,
                ghost es: seq<Entry>)
    returns (ok: bool, r: Option<nat>)
    requires si.Ready(m) && IsDirectory(m, node, parent, es) && Nameable(es, name)
    modifies si.device
    ensures si.Ready(m) && (ok ==> r == ExitScan(es, name, signed)) && (si.Healthy() ==> ok)
    ensures ok && NamesAscend(NamesOf(es)) ==> r == FirstNamed(es, name)
  {
    hide Sane, Spans, ReadFrom, ParseDir, SuperInfo.Carries, Balanced, EntryStands, FirstNamed, NamesAscend, EntryOff,
      Narrow, EntryHeadSize, Nameable, ExitScan;
    var nbuffer; ghost var got;
    ok, nbuffer, got := ReadDirectory(si, node, m, parent, es);
    if !ok {
      return false, None;
    }
    var db := si.volume.sb.db;
    SaneNarrow(m);
    DirectoryStands(db, nbuffer[..], parent, es);
    var bb := new BitBuffer.FromBuffer(nbuffer);
    var directoryParent, nentries := ReadHeader(bb, db, nbuffer[..], parent, es);
    r := Search(bb, nbuffer, db, nentries, name, signed, nbuffer[..], es);
    if NamesAscend(NamesOf(es)) { NameableName(es, name); AscendingExit(es, name, signed); }
  }

  lemma NameableName(es: seq<Entry>, name: bytes)
    requires Nameable(es, name)
    ensures name != [] && forall e :: 0 <= e < |es| ==> es[e].name != []
  {
  }

  /** The loop over the entries. */
  method Search(bb: BitBuffer, nbuffer: array<byte>, db: DirBits, nentries: nat, name: bytes, signed: bool,
                ghost raw: bytes, ghost es: seq<Entry>)
    returns (r: Option<nat>)
    requires bb.buffer == nbuffer && nbuffer[..] == raw && Narrow(db) && nentries == |es|
    requires forall e :: 0 <= e < |es| ==> EntryStands(db, raw, EntryOff(db, es, e), es[e])
    requires Nameable(es, name)
    modifies bb`index
    ensures r == ExitScan(es, name, signed)
  {
    hide EntryStands, EntryOff, Narrow, EntryHeadSize;
    StartOfEntries(db, es);
    var buffer, e := (db.parent + db.nentries + 7) / 8, 0;
    assert es[0..] == es;
    while e < nentries
      invariant 0 <= e <= nentries && buffer == EntryOff(db, es, e)
      invariant ExitScan(es, name, signed) == ExitScan(es[e..], name, signed)
    {
      var number, length := ReadEntry(bb, db, buffer, raw, es[e]);
      bb.SkipBits(db.kind);
      NameStands(db, raw, buffer, es[e]);
      NextOff(db, es, e);
      buffer := buffer + EntryHeadSize(db);
      var found := nbuffer[buffer..buffer + length];
      assert found == es[e].name;
      assert es[e..][0] == es[e] && es[e..][1..] == es[e + 1..];
      if name[0] < CharOf(nbuffer[buffer], signed) {
        return None;
      }
      if length == |name| && found == name {
        return Some(number);
      }
      buffer := buffer + length;
      e := e + 1;
    }
    r := None;
  }

  lemma NotEmpty(es: seq<Entry>, e: nat)
    requires NamesAscend(NamesOf(es)) && e < |es|
    ensures es[e].name != []
  {
    assert NamesOf(es)[e] != [];
  }

  lemma FirstHit(es: seq<Entry>, name: bytes)
    requires es != [] && es[0].name == name
    ensures FirstNamed(es, name) == Some(es[0].number)
  {
  }
}
