/** A directory's bytes parse back to the directory. */
module Directories {
  import opened Seqs
  import opened Bits
  import opened Fields
  import opened MergeSort
  import opened Format
  import opened Reader
  import opened Widths

  predicate EntryFits(db: DirBits, e: Entry) {
    e.number < Pow2(db.number) && |e.name| < Pow2(db.length) && e.kind < Pow2(db.kind)
  }

  /** A packed record at the front of `raw` reads back. */
  lemma FrontRecord(ws: seq<nat>, vs: seq<int>, rest: bytes)
    requires |ws| == |vs| && forall i :: 0 <= i < |ws| ==> ws[i] <= 32
    ensures ReadsAs(BitsOf(Pack(Record(ws, vs)) + rest), 0, ws, vs)
    ensures |Pack(Record(ws, vs))| == (Pos(ws, |ws|) + 7) / 8
  {
    hide Record, Pack, BitsOf, ReadsAs;
    var bs := Record(ws, vs);
    RecordLength(ws, vs);
    PackBits(bs);
    BitsAppend(Pack(bs), rest);
    var zeros := Zeros(8 * |Pack(bs)| - |bs|, false);
    CatAssoc(bs, zeros, BitsOf(rest));
    RecordReads([], ws, vs, zeros + BitsOf(rest));
    assert [] + bs == bs;
  }

  lemma EntryHeadReads(db: DirBits, e: Entry)
    requires Narrow(db) && EntryFits(db, e)
    ensures |SerEntryHead(db, e)| == EntryHeadSize(db)
    ensures Pos(EntryWs(db), 3) <= 8 * EntryHeadSize(db)
    ensures var v := ReadAll(BitsOf(SerEntryHead(db, e)), 0, EntryWs(db));
            v[0] == e.number && v[1] == |e.name| && v[2] == e.kind
  {
    hide BitsOf, Pack, Record, ReadAll;
    DirPos(db);
    FrontRecord(EntryWs(db), [e.number, |e.name|, e.kind], []);
    assert SerEntryHead(db, e) + [] == SerEntryHead(db, e);
  }

  /** The entries of a directory parse back one by one. */
  lemma {:induction false} EntriesParse(db: DirBits, es: seq<Entry>)
    requires Narrow(db) && forall e :: e in es ==> EntryFits(db, e)
    ensures ParseEntries(db, SerEntries(db, es), |es|) == Some(es)
  {
    hide SerEntryHead, ReadAll, BitsOf;
    if es != [] {
      var e, rest := es[0], es[1..];
      EntriesParse(db, rest);
      EntryHeadReads(db, e);
      EntriesCons(db, es);
      var raw, h := SerEntries(db, es), SerEntryHead(db, e);
      assert raw == h + (e.name + SerEntries(db, rest));
      CatSlices(h, e.name + SerEntries(db, rest));
      CatSlices(e.name, SerEntries(db, rest));
      assert raw[|h|..|h| + |e.name|] == raw[|h|..][..|e.name|] && raw[|h| + |e.name|..] == raw[|h|..][|e.name|..];
      assert es == [e] + rest;
    }
  }

  lemma EntriesCons(db: DirBits, es: seq<Entry>)
    requires es != []
    ensures SerEntries(db, es) == SerEntryHead(db, es[0]) + (es[0].name + SerEntries(db, es[1..]))
  {
    hide SerEntryHead;
    var f := (e: Entry) => SerEntry(db, e);
    assert MapSeq(f, es)[1..] == MapSeq(f, es[1..]);
    CatAssoc(SerEntryHead(db, es[0]), es[0].name, SerEntries(db, es[1..]));
  }

  /** Parsing what the builder packed for a directory gives its parent and entries back. */
  lemma DirParses(db: DirBits, parent: nat, es: seq<Entry>)
    requires Narrow(db) && parent < Pow2(db.parent) && |es| < Pow2(db.nentries)
    requires forall e :: e in es ==> EntryFits(db, e)
    ensures ParseDir(db, Ser(db, Directory(parent, es))) == Some(Directory(parent, es))
    ensures |SerHeader(db, parent, |es|)| == HeaderSize(db)
  {
    hide BitsOf, Pack, Record, ReadAll, SerEntries, ParseEntries;
    DirPos(db);
    EntriesParse(db, es);
    FrontRecord(HeaderWs(db), [parent, |es|], SerEntries(db, es));
    CatSlices(SerHeader(db, parent, |es|), SerEntries(db, es));
  }

  /** Every directory of a table fits the widths picked for it. */
  lemma DirFits(tbl: seq<Inode>, k: nat)
    requires k < |tbl| && tbl[k].body.Directory? && Narrow(DirBitsOf(tbl))
    ensures var db, b := DirBitsOf(tbl), tbl[k].body;
            && b.parent < Pow2(db.parent) && |b.entries| < Pow2(db.nentries)
            && forall e :: e in b.entries ==> EntryFits(db, e)
  {
    hide MaxOf, Blog, Pow2;
    FitsMax(tbl, ParentOf, k);
    FitsMax(tbl, NentriesOf, k);
    var es := tbl[k].body.entries;
    forall e | e in es
      ensures EntryFits(DirBitsOf(tbl), e)
    {
      var i :| 0 <= i < |es| && es[i] == e;
      EntryFieldFits(tbl, k, i, EntryNumber, MaxEntryNumber);
      EntryFieldFits(tbl, k, i, EntryLength, MaxEntryLength);
      EntryFieldFits(tbl, k, i, EntryKind, MaxEntryKind);
    }
  }

  lemma EntryFieldFits(tbl: seq<Inode>, k: nat, i: nat, f: Entry -> int, g: Inode -> int)
    requires k < |tbl| && tbl[k].body.Directory? && i < |tbl[k].body.entries|
    requires g(tbl[k]) == MaxOf(tbl[k].body.entries, f) && 0 <= f(tbl[k].body.entries[i])
    requires Blog(MaxOf(tbl, g)) <= 32
    ensures f(tbl[k].body.entries[i]) < Pow2(Blog(MaxOf(tbl, g)))
  {
    MaxOfBound(tbl[k].body.entries, f, i);
    FitsMax(tbl, g, k);
  }
}
