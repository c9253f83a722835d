/** What the extraction tool's read hands on, block lengths unchecked. */
module Delivery {
  import opened Seqs
  import opened Format
  import opened Reader

  /** The compressed bytes of block `b`. */
  function Stored(m: Mounted, b: nat): bytes
    requires HasBlock(m, b) && BlockFill(m, b).offset + BlockFill(m, b).compressedSize <= |m.entries|
  {
    m.entries[BlockFill(m, b).offset..BlockFill(m, b).offset + BlockFill(m, b).compressedSize]
  }

  /**
    Reading `n` bytes from byte `i` of block `b` on hands on `v` and reports `ok`. A block that does not
    uncompress ends the read. Of one that uncompresses to less than its size, the missing bytes are
    whatever the scratch memory held.
   */
  ghost predicate Handed(m: Mounted, b: nat, i: nat, n: nat, ok: bool, v: bytes)
    requires Sane(m) && Spans(m, b, i, n)
    decreases n
  {
    if n == 0 then ok && v == []
    else
      var size := BlockFill(m, b).size;
      var l := Min(n, size - i);
      match m.c.uncompress(Stored(m, b), size)
      case None => !ok && v == []
      case Some(u) =>
        l <= |v| && (forall k :: 0 <= k < l && i + k < |u| ==> v[k] == u[i + k])
        && Handed(m, b + 1, 0, n - l, ok, v[l..])
  }

  /** Every block the read touches uncompresses, to whatever length. */
  ghost predicate Uncompresses(m: Mounted, b: nat, i: nat, n: nat)
    requires Sane(m) && Spans(m, b, i, n)
    decreases n
  {
    n == 0 || (m.c.uncompress(Stored(m, b), BlockFill(m, b).size).Some?
               && Uncompresses(m, b + 1, 0, n - Min(n, BlockFill(m, b).size - i)))
  }

  /** Every block the read touches uncompresses to its full size. */
  ghost predicate AllWhole(m: Mounted, b: nat, i: nat, n: nat)
    requires Sane(m) && Spans(m, b, i, n)
    decreases n
  {
    n == 0 || (Unblock(m, b).Some? && AllWhole(m, b + 1, 0, n - Min(n, BlockFill(m, b).size - i)))
  }

  lemma {:induction false} WholeReads(m: Mounted, b: nat, i: nat, n: nat)
    requires Sane(m) && Spans(m, b, i, n)
    ensures AllWhole(m, b, i, n) <==> ReadFrom(m, b, i, n).Some?
    ensures AllWhole(m, b, i, n) ==> Uncompresses(m, b, i, n)
    decreases n
  {
    hide Sane, BlockFill, HasBlock;
    if n > 0 {
      SpansOn(m, b, i, n);
      WholeReads(m, b + 1, 0, n - Min(n, BlockFill(m, b).size - i));
    }
  }

  lemma SpansOn(m: Mounted, b: nat, i: nat, n: nat)
    requires Sane(m) && Spans(m, b, i, n) && n > 0
    ensures b < m.sb.blocks && HasBlock(m, b) && BlockFill(m, b).offset + BlockFill(m, b).compressedSize <= |m.entries|
    ensures i < BlockFill(m, b).size && Spans(m, b + 1, 0, n - Min(n, BlockFill(m, b).size - i))
    ensures Unblock(m, b) == match m.c.uncompress(Stored(m, b), BlockFill(m, b).size)
                             case None => None
                             case Some(u) => if |u| == BlockFill(m, b).size then Some(u) else None
  {
    hide BlockFill, HasBlock, Readable;
  }

  /** The report says whether every block uncompressed, and then all bytes were handed on. */
  lemma {:induction false} HandedReport(m: Mounted, b: nat, i: nat, n: nat, ok: bool, v: bytes)
    requires Sane(m) && Spans(m, b, i, n) && Handed(m, b, i, n, ok, v)
    ensures ok <==> Uncompresses(m, b, i, n)
    ensures ok ==> |v| == n
    decreases n
  {
    hide Sane, BlockFill, HasBlock, Unblock, Stored;
    if n > 0 {
      SpansOn(m, b, i, n);
      var l := Min(n, BlockFill(m, b).size - i);
      if m.c.uncompress(Stored(m, b), BlockFill(m, b).size).Some? { HandedReport(m, b + 1, 0, n - l, ok, v[l..]); }
    }
  }

  /** Whole blocks leave nothing to chance. */
  lemma {:induction false} HandedWhole(m: Mounted, b: nat, i: nat, n: nat, ok: bool, v: bytes)
    requires Sane(m) && Spans(m, b, i, n) && Handed(m, b, i, n, ok, v) && ReadFrom(m, b, i, n).Some?
    ensures ok && ReadFrom(m, b, i, n) == Some(v)
    decreases n
  {
    hide Sane, BlockFill, HasBlock, Stored;
    if n > 0 {
      SpansOn(m, b, i, n);
      var l := Min(n, BlockFill(m, b).size - i);
      HandedWhole(m, b + 1, 0, n - l, ok, v[l..]);
      var u := Unblock(m, b).value;
      assert v == v[..l] + v[l..];
      assert v[..l] == u[i..i + l];
    }
  }

  /** The blocks from `b` on uncompress to `us`. */
  ghost predicate Uncompressed(m: Mounted, b: nat, us: seq<bytes>)
    requires Sane(m)
    decreases |us|
  {
    us == [] || (b < m.sb.blocks && m.c.uncompress(Stored(m, b), BlockFill(m, b).size) == Some(us[0])
                 && Uncompressed(m, b + 1, us[1..]))
  }

  /** And each to its full size. */
  ghost predicate Full(m: Mounted, b: nat, us: seq<bytes>)
    requires Sane(m)
    decreases |us|
  {
    us == [] || (b < m.sb.blocks && |us[0]| == BlockFill(m, b).size && Full(m, b + 1, us[1..]))
  }

  lemma Front(m: Mounted, b: nat, u: bytes, us: seq<bytes>)
    requires Sane(m) && b < m.sb.blocks && m.c.uncompress(Stored(m, b), BlockFill(m, b).size) == Some(u)
    requires Uncompressed(m, b + 1, us)
    ensures Uncompressed(m, b, [u] + us) && Flat([u] + us) == u + Flat(us)
    ensures Full(m, b, [u] + us) <==> |u| == BlockFill(m, b).size && Full(m, b + 1, us)
  {
    hide Sane, BlockFill, HasBlock;
    assert ([u] + us)[1..] == us;
  }

  /** A read that succeeds gives its range of the blocks it touches, end to end and each of its full size. */
  lemma {:induction false} ReadsBlocks(m: Mounted, b: nat, i: nat, n: nat) returns (us: seq<bytes>)
    requires Sane(m) && Spans(m, b, i, n) && ReadFrom(m, b, i, n).Some?
    ensures Uncompressed(m, b, us) && Full(m, b, us)
    ensures n > 0 ==> i + n <= |Flat(us)| && ReadFrom(m, b, i, n).value == Flat(us)[i..i + n]
    decreases n
  {
    hide Sane, BlockFill, HasBlock, Stored, Flat;
    us := [];
    if n > 0 {
      SpansOn(m, b, i, n);
      var u := Unblock(m, b).value;
      var l := Min(n, |u| - i);
      us := ReadsBlocks(m, b + 1, 0, n - l);
      Front(m, b, u, us);
      var rest := ReadFrom(m, b + 1, 0, n - l).value;
      ReadTail(u, i, l, Flat(us), rest);
      us := [u] + us;
    }
  }

  lemma ReadTail(u: bytes, i: nat, l: nat, flat: bytes, rest: bytes)
    requires i + l <= |u| && (rest != [] ==> i + l == |u|) && rest <= flat
    ensures i + l + |rest| <= |u + flat| && u[i..i + l] + rest == (u + flat)[i..i + l + |rest|]
  {
  }

  /**
    A read that fails has handed on what the blocks before the first that does not uncompress give: with all of
    them whole, all their bytes from its first byte on.
   */
  lemma {:induction false} HandedFront(m: Mounted, b: nat, i: nat, n: nat, v: bytes) returns (us: seq<bytes>)
    requires Sane(m) && Spans(m, b, i, n) && Handed(m, b, i, n, false, v)
    ensures Uncompressed(m, b, us) && b + |us| < m.sb.blocks
    ensures m.c.uncompress(Stored(m, b + |us|), BlockFill(m, b + |us|).size) == None
    ensures Full(m, b, us) ==> v == if us == [] then [] else Flat(us)[Min(i, |Flat(us)|)..]
    decreases n
  {
    hide Sane, BlockFill, HasBlock, Stored, Flat;
    SpansOn(m, b, i, n);
    var size := BlockFill(m, b).size;
    var l := Min(n, size - i);
    us := [];
    match m.c.uncompress(Stored(m, b), size)
    case None =>
    case Some(u) =>
      us := HandedFront(m, b + 1, 0, n - l, v[l..]);
      Front(m, b, u, us);
      if |u| == size && Full(m, b + 1, us) { FrontBytes(u, i, l, us, v); }
      us := [u] + us;
  }

  lemma FrontBytes(u: bytes, i: nat, l: nat, us: seq<bytes>, v: bytes)
    requires i + l == |u| && l <= |v| && forall k :: 0 <= k < l ==> v[k] == u[i + k]
    requires v[l..] == if us == [] then [] else Flat(us)[0..]
    ensures v == (u + Flat(us))[i..]
  {
    assert v == v[..l] + v[l..] && v[..l] == u[i..];
    if us == [] { assert Flat(us) == []; }
  }

  /** There is always something a read may hand on. */
  lemma {:induction false} SomethingHanded(m: Mounted, b: nat, i: nat, n: nat) returns (v: bytes)
    requires Sane(m) && Spans(m, b, i, n)
    ensures Handed(m, b, i, n, Uncompresses(m, b, i, n), v)
    decreases n
  {
    hide Sane, BlockFill, HasBlock, Unblock, Stored;
    v := [];
    if n > 0 {
      SpansOn(m, b, i, n);
      var size := BlockFill(m, b).size;
      var l := Min(n, size - i);
      var r := m.c.uncompress(Stored(m, b), size);
      if r.Some? {
        var rest := SomethingHanded(m, b + 1, 0, n - l);
        var piece: bytes := seq(l, k requires 0 <= k < l => if i + k < |r.value| then r.value[i + k] else 0);
        v := piece + rest;
        CatSlices(piece, rest);
      }
    }
  }

  /**
    On which images the two readers' loops agree: whatever memory held, the tool hands on what the kernel
    does, or both fail, if and only if every block touched is whole or one of them does not uncompress.
   */
  lemma ReadersAgree(m: Mounted, b: nat, i: nat, n: nat)
    requires Sane(m) && Spans(m, b, i, n)
    ensures (forall ok, v :: Handed(m, b, i, n, ok, v) ==> ReadFrom(m, b, i, n) == if ok then Some(v) else None)
            <==> AllWhole(m, b, i, n) || !Uncompresses(m, b, i, n)
  {
    hide Sane, Spans, Handed, Uncompresses, AllWhole, ReadFrom;
    WholeReads(m, b, i, n);
    if AllWhole(m, b, i, n) || !Uncompresses(m, b, i, n) {
      forall ok, v | Handed(m, b, i, n, ok, v)
        ensures ReadFrom(m, b, i, n) == if ok then Some(v) else None
      {
        HandedReport(m, b, i, n, ok, v);
        if AllWhole(m, b, i, n) { HandedWhole(m, b, i, n, ok, v); }
      }
    } else {
      var v := SomethingHanded(m, b, i, n);
      assert Handed(m, b, i, n, true, v) && ReadFrom(m, b, i, n) == None;
    }
  }

  // ---------- the loop ----------

  /** Whatever the rest of a read hands on, together with `done` the whole read hands on. */
  ghost predicate Pending(m: Mounted, b0: nat, i0: nat, n: nat, done: bytes, b: nat, i: nat, left: nat)
    requires Sane(m) && Spans(m, b0, i0, n) && Spans(m, b, i, left)
  {
    forall ok, v :: Handed(m, b, i, left, ok, v) ==> Handed(m, b0, i0, n, ok, done + v)
  }

  lemma PendingFirst(m: Mounted, b: nat, i: nat, n: nat)
    requires Sane(m) && Spans(m, b, i, n)
    ensures Pending(m, b, i, n, [], b, i, n)
  {
    hide Sane, Spans, Handed;
    forall ok, v | Handed(m, b, i, n, ok, v)
      ensures Handed(m, b, i, n, ok, [] + v)
    {
      assert [] + v == v;
    }
  }

  lemma PendingPiece(m: Mounted, b0: nat, i0: nat, n: nat, done: bytes, b: nat, i: nat, left: nat, u: bytes,
                     piece: bytes)
    requires Sane(m) && Spans(m, b0, i0, n) && Spans(m, b, i, left) && left > 0
    requires Pending(m, b0, i0, n, done, b, i, left) && b < m.sb.blocks && HasBlock(m, b) && i < BlockFill(m, b).size
    requires BlockFill(m, b).offset + BlockFill(m, b).compressedSize <= |m.entries|
    requires m.c.uncompress(Stored(m, b), BlockFill(m, b).size) == Some(u)
    requires |piece| == Min(left, BlockFill(m, b).size - i) && forall k :: 0 <= k < |piece| && i + k < |u| ==>
               piece[k] == u[i + k]
    requires Spans(m, b + 1, 0, left - |piece|)
    ensures Pending(m, b0, i0, n, done + piece, b + 1, 0, left - |piece|)
  {
    hide Sane, BlockFill, HasBlock, Stored, Spans;
    forall ok, v | Handed(m, b + 1, 0, left - |piece|, ok, v)
      ensures Handed(m, b0, i0, n, ok, done + piece + v)
    {
      CatSlices(piece, v);
      assert Handed(m, b, i, left, ok, piece + v);
      CatAssoc(done, piece, v);
    }
  }

  lemma PendingFails(m: Mounted, b0: nat, i0: nat, n: nat, done: bytes, b: nat, i: nat, left: nat)
    requires Sane(m) && Spans(m, b0, i0, n) && Spans(m, b, i, left) && left > 0
    requires b < m.sb.blocks && HasBlock(m, b) && BlockFill(m, b).offset + BlockFill(m, b).compressedSize <= |m.entries|
    requires Pending(m, b0, i0, n, done, b, i, left) && m.c.uncompress(Stored(m, b), BlockFill(m, b).size) == None
    ensures Handed(m, b0, i0, n, false, done)
  {
    hide Sane, BlockFill, HasBlock, Stored, Spans;
    assert Handed(m, b, i, left, false, []);
    assert done + [] == done;
  }

  lemma PendingDone(m: Mounted, b0: nat, i0: nat, n: nat, done: bytes, b: nat, i: nat)
    requires Sane(m) && Spans(m, b0, i0, n) && Spans(m, b, i, 0) && Pending(m, b0, i0, n, done, b, i, 0)
    ensures Handed(m, b0, i0, n, true, done)
  {
    hide Sane, Spans;
    assert Handed(m, b, i, 0, true, []);
    assert done + [] == done;
  }
}
