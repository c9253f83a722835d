/** Finding a directory's entries one after the other in its bytes. */
module Walking {
  import opened Seqs
  import opened Bits
  import opened BitBuffers
  import opened Fields
  import opened Format
  import opened Reader

  /** Where entry `e` starts. */
  function EntryOff(db: DirBits, es: seq<Entry>, e: nat): nat
    requires e <= |es|
  {
    if e == 0 then HeaderSize(db) else EntryOff(db, es, e - 1) + EntryHeadSize(db) + |es[e - 1].name|
  }

  lemma NextOff(db: DirBits, es: seq<Entry>, e: nat)
    requires e < |es|
    ensures EntryOff(db, es, e + 1) == EntryOff(db, es, e) + EntryHeadSize(db) + |es[e].name|
  {
  }

  lemma StartOfEntries(db: DirBits, es: seq<Entry>)
    ensures EntryOff(db, es, 0) == HeaderSize(db)
  {
  }

  /** Entry `e` of a directory is found in its bytes right behind the entry before it. */
  ghost predicate EntryStands(db: DirBits, raw: bytes, at: nat, e: Entry) {
    var s := EntryHeadSize(db);
    && at + s + |e.name| <= |raw| && raw[at + s..at + s + |e.name|] == e.name
    && 8 * at + Pos(EntryWs(db), |EntryWs(db)|) <= |BitsOf(raw)|
    && ReadAll(BitsOf(raw), 8 * at, EntryWs(db)) == [e.number, |e.name|, e.kind]
  }

  lemma NameStands(db: DirBits, raw: bytes, at: nat, e: Entry)
    requires EntryStands(db, raw, at, e)
    ensures at + EntryHeadSize(db) + |e.name| <= |raw|
    ensures raw[at + EntryHeadSize(db)..at + EntryHeadSize(db) + |e.name|] == e.name
  {
  }

  lemma HeadFits(db: DirBits)
    ensures Pos(EntryWs(db), 3) <= 8 * EntryHeadSize(db) && Pos(HeaderWs(db), 2) <= 8 * HeaderSize(db)
  {
    DirPos(db);
  }

  /** Fields read from a part of the bytes are read from the whole at the part's place. */
  lemma ReadInside(raw: bytes, at: nat, s: nat, ws: seq<nat>)
    requires at + s <= |raw| && Pos(ws, |ws|) <= 8 * s
    ensures 8 * at + Pos(ws, |ws|) <= |BitsOf(raw)|
    ensures ReadAll(BitsOf(raw), 8 * at, ws) == ReadAll(BitsOf(raw[at..at + s]), 0, ws)
  {
    hide BitsOf, Dec, Pos;
    BitsSlice(raw, at, at + s);
    forall i | 0 <= i < |ws|
      ensures ReadAll(BitsOf(raw), 8 * at, ws)[i] == ReadAll(BitsOf(raw[at..at + s]), 0, ws)[i]
    {
      PosMono(ws, i + 1, |ws|);
      assert Pos(ws, i + 1) == Pos(ws, i) + ws[i] by { PosStep(ws, i); }
      SliceSlice(BitsOf(raw), 8 * at, 8 * (at + s), Pos(ws, i), Pos(ws, i) + ws[i]);
    }
  }

  lemma PosStep(ws: seq<nat>, i: nat)
    requires i < |ws|
    ensures Pos(ws, i + 1) == Pos(ws, i) + ws[i]
  {
  }

  lemma FirstEntry(db: DirBits, raw: bytes, at: nat, n: nat, es: seq<Entry>)
    requires at <= |raw| && n > 0 && ParseEntries(db, raw[at..], n) == Some(es)
    ensures es != [] && EntryStands(db, raw, at, es[0])
    ensures var next := at + EntryHeadSize(db) + |es[0].name|;
            next <= |raw| && ParseEntries(db, raw[next..], n - 1) == Some(es[1..])
  {
    hide ReadAll, BitsOf;
    var s := EntryHeadSize(db);
    HeadFits(db);
    DirPos(db);
    assert raw[at..][..s] == raw[at..at + s];
    ReadInside(raw, at, s, EntryWs(db));
    var v := ReadAll(BitsOf(raw[at..at + s]), 0, EntryWs(db));
    assert raw[at..][s + v[1]..] == raw[at + s + v[1]..];
    assert raw[at..][s..s + v[1]] == raw[at + s..at + s + v[1]];
    assert v == [v[0], v[1], v[2]];
  }

  lemma {:induction false} EntryAfter(db: DirBits, raw: bytes, es: seq<Entry>, e: nat)
    requires HeaderSize(db) <= |raw| && e <= |es| && ParseEntries(db, raw[HeaderSize(db)..], |es|) == Some(es)
    ensures EntryOff(db, es, e) <= |raw| && ParseEntries(db, raw[EntryOff(db, es, e)..], |es| - e) == Some(es[e..])
  {
    hide ParseEntries;
    if e > 0 {
      EntryAfter(db, raw, es, e - 1);
      FirstEntry(db, raw, EntryOff(db, es, e - 1), |es| - (e - 1), es[e - 1..]);
      assert es[e - 1..][1..] == es[e..];
    }
  }

  lemma {:induction false} ParseCount(db: DirBits, raw: bytes, n: nat, es: seq<Entry>)
    requires ParseEntries(db, raw, n) == Some(es)
    ensures |es| == n
    decreases n
  {
    hide ReadAll, BitsOf;
    if n > 0 {
      var s := EntryHeadSize(db);
      DirPos(db);
      HeadFits(db);
      var v := ReadAll(BitsOf(raw[..s]), 0, EntryWs(db));
      ParseCount(db, raw[s + v[1]..], n - 1, es[1..]);
    }
  }

  /** Every entry of a parsed directory stands at its offset; the header holds the parent and the count. */
  lemma DirectoryStands(db: DirBits, raw: bytes, parent: nat, es: seq<Entry>)
    requires ParseDir(db, raw) == Some(Directory(parent, es))
    ensures HeaderSize(db) <= |raw| && Pos(HeaderWs(db), |HeaderWs(db)|) <= |BitsOf(raw)|
    ensures ReadAll(BitsOf(raw), 0, HeaderWs(db)) == [parent, |es|]
    ensures EntryOff(db, es, |es|) <= |raw|
    ensures forall e :: 0 <= e < |es| ==> EntryStands(db, raw, EntryOff(db, es, e), es[e])
  {
    hide ReadAll, BitsOf, ParseEntries, EntryStands, EntryOff;
    DirPos(db);
    HeadFits(db);
    var v := ReadAll(BitsOf(raw), 0, HeaderWs(db));
    ParseCount(db, raw[HeaderSize(db)..], v[1], es);
    assert v == [v[0], v[1]];
    EntryAfter(db, raw, es, |es|);
    forall e | 0 <= e < |es|
      ensures EntryStands(db, raw, EntryOff(db, es, e), es[e])
    {
      EntryAfter(db, raw, es, e);
      FirstEntry(db, raw, EntryOff(db, es, e), |es| - e, es[e..]);
    }
  }

  lemma {:induction false} EntryOffMono(db: DirBits, es: seq<Entry>, i: nat, j: nat)
    requires i <= j <= |es|
    ensures EntryOff(db, es, i) + (j - i) * EntryHeadSize(db) <= EntryOff(db, es, j)
  {
    if i < j {
      EntryOffMono(db, es, i, j - 1);
      assert (j - i) * EntryHeadSize(db) == (j - 1 - i) * EntryHeadSize(db) + EntryHeadSize(db);
    }
  }

  /** A bit buffer over a directory's bytes: the parent's number and the number of entries. */
  method ReadHeader(bb: BitBuffer, db: DirBits, ghost raw: bytes, ghost parent0: nat, ghost es: seq<Entry>)
    returns (parent: nat, nentries: nat)
    requires bb.index == 0 && bb.buffer[..] == raw && Narrow(db) && ParseDir(db, raw) == Some(Directory(parent0, es))
    modifies bb`index
    ensures parent == parent0 && nentries == |es|
  {
    hide ReadAll, BitsOf, Pos, ParseDir;
    DirectoryStands(db, raw, parent0, es);
    ghost var bits, ws := BitsOf(raw), HeaderWs(db);
    StartOf(ws, 0);
    parent := GetNext(bb, db.parent, bits, 0, ws, 0);
    nentries := GetNext(bb, db.nentries, bits, 0, ws, 1);
  }

  /** The number and the name's length of the entry at `at`; the position is left at its type. */
  method ReadEntry(bb: BitBuffer, db: DirBits, at: nat, ghost raw: bytes, ghost e: Entry)
    returns (number: nat, length: nat)
    requires bb.buffer[..] == raw && Narrow(db) && EntryStands(db, raw, at, e)
    modifies bb`index
    ensures number == e.number && length == |e.name| && bb.index == 8 * at + Pos(EntryWs(db), 2)
  {
    hide ReadAll, BitsOf, Pos;
    ghost var bits, ws := BitsOf(raw), EntryWs(db);
    StartOf(ws, 8 * at);
    bb.SetPos(8 * at);
    number := GetNext(bb, db.number, bits, 8 * at, ws, 0);
    length := GetNext(bb, db.length, bits, 8 * at, ws, 1);
  }

  /** The type of the entry at `at`. */
  method ReadKind(bb: BitBuffer, db: DirBits, ghost at: nat, ghost raw: bytes, ghost e: Entry) returns (kind: nat)
    requires bb.buffer[..] == raw && Narrow(db) && EntryStands(db, raw, at, e)
             && bb.index == 8 * at + Pos(EntryWs(db), 2)
    modifies bb`index
    ensures kind == e.kind
  {
    hide ReadAll, BitsOf, Pos;
    kind := GetNext(bb, db.kind, BitsOf(raw), 8 * at, EntryWs(db), 2);
  }
}
