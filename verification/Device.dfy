/** Reading bytes off the block device through buffer heads, into a destination addressed page by page. */
module Devices {
  import opened Seqs
  import opened Bits

  const PAGE_CACHE_SIZE := 4096
  const EIO := 5

  /** Consecutive block numbers. */
  function Range(first: nat, n: nat): (r: seq<nat>)
    ensures |r| == n && forall i :: 0 <= i < n ==> r[i] == first + i
  {
    seq(n, i requires 0 <= i < n => first + i)
  }

  /** No buffer head is put more often than it was got. */
  ghost predicate Balanced(gets: seq<nat>, puts: seq<nat>) {
    multiset(puts) <= multiset(gets)
  }

  lemma RangeNext(first: nat, n: nat)
    ensures Range(first, n + 1) == Range(first, n) + [first + n]
  {
  }

  lemma CatCounts(a: seq<nat>, b: seq<nat>)
    ensures multiset(a + b) == multiset(a) + multiset(b)
  {
  }

  /** Of the `n` buffer heads got on top of a balance, the next one to put has not been put yet. */
  lemma MayPut(gets: seq<nat>, puts: seq<nat>, first: nat, n: nat, i: nat)
    requires Balanced(gets, puts) && i < n
    ensures multiset(puts + Range(first, i))[first + i] < multiset(gets + Range(first, n))[first + i]
  {
    CatCounts(gets, Range(first, n));
    CatCounts(puts, Range(first, i));
    assert Range(first, n)[i] in multiset(Range(first, n));
    assert first + i !in multiset(Range(first, i));
  }

  lemma StaysBalanced(gets: seq<nat>, puts: seq<nat>, got: seq<nat>)
    requires Balanced(gets, puts)
    ensures Balanced(gets + got, puts + got)
  {
    CatCounts(gets, got);
    CatCounts(puts, got);
  }

  /** The blocks holding `length` bytes from byte `index` of the first one on. */
  function Touched(index: nat, length: nat, size: nat): nat
    requires size > 0
  {
    (index + length + size - 1) / size
  }

  lemma TouchedIs(index: nat, length: nat, size: nat, b: nat)
    requires 0 < size && index < size && b * size >= index + length && (b > 0 ==> (b - 1) * size < index + length)
    ensures b == Touched(index, length, size)
  {
    var total := index + length + size - 1;
    if b > 0 { assert (b - 1) * size == b * size - size; }
    DivModUnique(total, size, b, total - b * size);
  }

  lemma TouchedBounds(index: nat, length: nat, size: nat)
    requires size > 0 && index + length > 0
    ensures var t := Touched(index, length, size); t > 0 && (t - 1) * size < index + length <= t * size
  {
    var t, r := Touched(index, length, size), (index + length + size - 1) % size;
    assert index + length + size - 1 == t * size + r;
    assert (t - 1) * size == t * size - size;
    assert t * size > 0;
  }

  lemma QuotientIs(p: nat, size: nat, q: nat)
    requires size > 0 && q * size <= p < q * size + size
    ensures Quotient(p, size) == q
  {
    DivModUnique(p, size, q, p - q * size);
  }

  /** The blocks touched are those the bytes lie in: a byte lies in one of them. */
  lemma ByteTouches(first: nat, index: nat, length: nat, size: nat, p: nat)
    requires size > 0 && index < size && first * size + index <= p < first * size + index + length
    ensures first <= Quotient(p, size) < first + Touched(index, length, size)
  {
    TouchedBounds(index, length, size);
    var q, t := Quotient(p, size), Touched(index, length, size);
    assert p == q * size + p % size;
    assert (first + t) * size == first * size + t * size;
    assert (q - first) * size == q * size - first * size && (q - (first + t)) * size == q * size - (first + t) * size;
    MulSign(q - first, size);
    MulSign(q - (first + t), size);
  }

  /** And in each of them lies one of the bytes. */
  lemma TouchedByByte(first: nat, index: nat, length: nat, size: nat, q: nat) returns (p: nat)
    requires size > 0 && index < size && length > 0 && first <= q < first + Touched(index, length, size)
    ensures first * size + index <= p < first * size + index + length && Quotient(p, size) == q
  {
    TouchedBounds(index, length, size);
    var t := Touched(index, length, size);
    p := if q == first then first * size + index else q * size;
    assert (q - first) * size == q * size - first * size;
    assert (q - first - (t - 1)) * size == (q - first) * size - (t - 1) * size;
    MulSign(q - first, size);
    MulSign(q - first - (t - 1), size);
    QuotientIs(p, size, q);
  }

  /** The size of the array of buffer heads. */
  function Heads(length: nat, size: nat): nat
    requires size > 0
  {
    (length + size - 1) / size + 1
  }

  /** A byte of the device by block and index. */
  function BytePos(block: nat, size: nat, index: nat): nat {
    block * size + index
  }

  /** The array of buffer heads, sized one block more than the length alone needs, is long enough. */
  lemma HeadsSuffice(index: nat, length: nat, size: nat, b: nat)
    requires index < size && b * size < index + length
    ensures b < Heads(length, size)
  {
    var q := (length + size - 1) / size;
    var r := (length + size - 1) % size;
    assert length + size - 1 == q * size + r;
    assert (b - q - 1) * size == b * size - q * size - size;
    MulSign(b - q - 1, size);
  }

  /** The acquisition loop's byte count after `b` blocks, all of them needed. */
  ghost predicate Counted(bytes: int, b: nat, size: nat, index: nat, length: nat) {
    bytes == b * size - index && (b > 0 ==> (b - 1) * size < index + length)
  }

  lemma CountStart(bytes: int, size: nat, index: nat, length: nat)
    requires bytes + index == 0
    ensures Counted(bytes, 0, size, index, length)
  {
  }

  lemma CountStep(bytes: int, b: nat, size: nat, index: nat, length: nat)
    requires Counted(bytes, b, size, index, length) && bytes < length && index < size
    ensures Counted(bytes + size, b + 1, size, index, length)
    ensures b < Heads(length, size) && b < Touched(index, length, size)
  {
    assert (b + 1) * size == b * size + size;
    HeadsSuffice(index, length, size, b);
    Fewer(index, length, size, b);
  }

  lemma CountEnd(bytes: int, b: nat, size: nat, index: nat, length: nat)
    requires Counted(bytes, b, size, index, length) && bytes >= length && index < size
    ensures b == Touched(index, length, size)
  {
    TouchedIs(index, length, size, b);
  }

  class Device {
    const log2: nat
    const bytes: nat -> byte
    /** sb_getblk finds a buffer head for this block. */
    const present: nat -> bool
    /** The block is up to date once it has been read. */
    const readable: nat -> bool
    /** Every buffer head got and put so far, by block. */
    var gets: seq<nat>
    var puts: seq<nat>

    constructor (log2: nat, bytes: nat -> byte, present: nat -> bool, readable: nat -> bool)
      ensures this.log2 == log2 && this.bytes == bytes && this.present == present && this.readable == readable
      ensures gets == puts == []
    {
      this.log2, this.bytes, this.present, this.readable := log2, bytes, present, readable;
      gets, puts := [], [];
    }

    function Size(): (s: nat)
      ensures s > 0
    {
      Pow2(log2)
    }

    /** The block byte `offset` lies in, and where in it. */
    function BlockOf(offset: nat): nat { Quotient(offset, Size()) }

    function IndexOf(offset: nat): nat { offset % Size() }

    lemma PosOf(offset: nat)
      ensures BytePos(BlockOf(offset), Size(), IndexOf(offset)) == offset && IndexOf(offset) < Size()
    {
    }

    /** The `length` device bytes at `offset`. */
    function Slice(offset: nat, length: nat): (s: seq<byte>)
      ensures |s| == length && forall i :: 0 <= i < length ==> s[i] == bytes(offset + i)
    {
      seq(length, i requires 0 <= i < length => bytes(offset + i))
    }

    /** The first `n` bytes have been copied; the rest is as it was at the start. */
    ghost predicate Partly(s: seq<byte>, offset: nat, n: nat, start: seq<byte>) {
      n <= |start| == |s| && s == Slice(offset, n) + start[n..]
    }

    /** All `n` blocks from `first` on can be read. */
    predicate Good(first: nat, n: nat) {
      forall i :: first <= i < first + n ==> present(i) && readable(i)
    }

    /** Those are the blocks the wanted bytes lie in. */
    lemma GoodBytes(offset: nat, length: nat)
      requires length > 0
      ensures Good(BlockOf(offset), Touched(IndexOf(offset), length, Size()))
          <==> forall p: nat :: offset <= p < offset + length ==> present(BlockOf(p)) && readable(BlockOf(p))
    {
      hide Size, Touched, Quotient;
      var first, index, size := BlockOf(offset), IndexOf(offset), Size();
      PosOf(offset);
      if Good(first, Touched(index, length, size)) {
        forall p: nat | offset <= p < offset + length
          ensures present(BlockOf(p)) && readable(BlockOf(p))
        {
          ByteTouches(first, index, length, size, p);
        }
      }
      if forall p: nat :: offset <= p < offset + length ==> present(BlockOf(p)) && readable(BlockOf(p)) {
        forall i: nat | first <= i < first + Touched(index, length, size)
          ensures present(i) && readable(i)
        {
          var p := TouchedByByte(first, index, length, size, i);
          assert BlockOf(p) == i;
        }
      }
    }

    method GetBlk(block: nat) returns (ok: bool)
      modifies this`gets
      ensures ok == present(block) && gets == if ok then old(gets) + [block] else old(gets)
    {
      ok := present(block);
      if ok { gets := gets + [block]; }
    }

    method PutBh(block: nat)
      requires multiset(puts)[block] < multiset(gets)[block]
      modifies this`puts
      ensures puts == old(puts) + [block]
    {
      puts := puts + [block];
    }

    /** Puts the `i`-th of `n` buffer heads got. */
    method PutNext(block: nat, ghost first: nat, ghost n: nat, ghost i: nat, ghost gets0: seq<nat>,
                   ghost puts0: seq<nat>)
      requires i < n && block == first + i && Balanced(gets0, puts0)
      requires gets == gets0 + Range(first, n) && puts == puts0 + Range(first, i)
      modifies this`puts
      ensures puts == puts0 + Range(first, i + 1)
    {
      MayPut(gets0, puts0, first, n, i);
      PutBh(block);
      RangeNext(first, i);
      CatAssoc(puts0, Range(first, i), [block]);
    }

    /** Puts the first `n` buffer heads. */
    method PutAll(bh: array<nat>, n: nat, first: nat, ghost gets0: seq<nat>)
      requires n <= bh.Length && forall i :: 0 <= i < n ==> bh[i] == first + i
      requires Balanced(gets0, puts) && gets == gets0 + Range(first, n)
      modifies this`puts
      ensures puts == old(puts) + Range(first, n)
    {
      var i := 0;
      while i < n
        invariant 0 <= i <= n && puts == old(puts) + Range(first, i)
      {
        PutNext(bh[i], first, n, i, gets0, old(puts));
        i := i + 1;
      }
    }

    /** Gets the buffer head after the first `b`. */
    method GetNext(first: nat, b: nat, ghost gets0: seq<nat>) returns (ok: bool)
      requires gets == gets0 + Range(first, b)
      modifies this`gets
      ensures ok == present(first + b) && gets == gets0 + Range(first, if ok then b + 1 else b)
    {
      ok := GetBlk(first + b);
      RangeNext(first, b);
      CatAssoc(gets0, Range(first, b), [first + b]);
    }

    /** Gets the buffer heads of a read; when one is missing those before it are put back. */
    method Acquire(bh: array<nat>, first: nat, index: nat, length: nat) returns (ok: bool, b: nat)
      requires index < Size() && Balanced(gets, puts)
      requires bh.Length == Heads(length, Size())
      modifies this`gets, this`puts, bh
      ensures ok ==> b == Touched(index, length, Size()) <= bh.Length && forall i :: 0 <= i < b ==> bh[i] == first + i
      ensures ok ==> puts == old(puts) && forall i :: first <= i < first + b ==> present(i)
      ensures !ok ==> puts == old(puts) + Range(first, b)
      ensures !ok ==> b < Touched(index, length, Size()) && !present(first + b)
      ensures gets == old(gets) + Range(first, b)
    {
      hide Touched, Counted, Balanced, Size, Heads;
      b := 0;
      var bytes: int := 0;
      bytes := bytes - index;
      CountStart(bytes, Size(), index, length);
      while bytes < length
        invariant Counted(bytes, b, Size(), index, length)
        invariant b <= bh.Length && forall i :: 0 <= i < b ==> bh[i] == first + i
        invariant gets == old(gets) + Range(first, b) && puts == old(puts)
        invariant forall i :: first <= i < first + b ==> present(i)
        decreases length - bytes
      {
        CountStep(bytes, b, Size(), index, length);
        var found := GetNext(first, b, old(gets));
        if !found {
          PutAll(bh, b, first, old(gets));
          return false, b;
        }
        bh[b] := first + b;
        b := b + 1;
        bytes := bytes + Size();
      }
      CountEnd(bytes, b, Size(), index, length);
      ok := true;
    }

    /** Waits for the reads; when one failed every buffer head is put back. */
    method Wait(bh: array<nat>, b: nat, first: nat, ghost gets0: seq<nat>) returns (ok: bool)
      requires b <= bh.Length && forall i :: 0 <= i < b ==> bh[i] == first + i
      requires Balanced(gets0, puts) && gets == gets0 + Range(first, b)
      modifies this`puts
      ensures ok <==> forall i :: first <= i < first + b ==> readable(i)
      ensures puts == if ok then old(puts) else old(puts) + Range(first, b)
    {
      var i := 0;
      while i < b
        invariant 0 <= i <= b && puts == old(puts) && forall j :: first <= j < first + i ==> readable(j)
      {
        if !readable(bh[i]) {
          PutAll(bh, b, first, gets0);
          return false;
        }
        i := i + 1;
      }
      ok := true;
    }

    /** Copies `n` bytes of a block, from `index` on, behind the `done` bytes copied before, page by page. */
    method CopyBlock(buffer: array<byte>, data: array<nat>, block: nat, index0: nat, n: nat, page0: nat,
                     pageoff0: nat, ghost offset: nat, ghost done: nat, ghost start: seq<byte>)
      returns (page: nat, pageoff: nat)
      requires forall p :: 0 <= p < data.Length ==> data[p] == p * PAGE_CACHE_SIZE
      requires done == page0 * PAGE_CACHE_SIZE + pageoff0 && pageoff0 <= PAGE_CACHE_SIZE
      requires done + n <= data.Length * PAGE_CACHE_SIZE && done + n <= buffer.Length
      requires index0 + n <= Size() && (n > 0 ==> BytePos(block, Size(), index0) == offset + done)
      requires Partly(buffer[..], offset, done, start)
      modifies buffer
      ensures done + n == page * PAGE_CACHE_SIZE + pageoff && pageoff <= PAGE_CACHE_SIZE
      ensures Partly(buffer[..], offset, done + n, start)
    {
      var left, index := n, index0;
      page, pageoff := page0, pageoff0;
      while left > 0
        invariant 0 <= left <= n && index == index0 + n - left
        invariant done + n - left == page * PAGE_CACHE_SIZE + pageoff && pageoff <= PAGE_CACHE_SIZE
        invariant Partly(buffer[..], offset, done + n - left, start)
      {
        if pageoff == PAGE_CACHE_SIZE {
          page, pageoff := page + 1, 0;
        }
        var avail := Min(left, PAGE_CACHE_SIZE - pageoff);
        var to, from := data[page] + pageoff, BytePos(block, Size(), index);
        ghost var was := buffer[..];
        forall k | 0 <= k < avail {
          buffer[to + k] := bytes(from + k);
        }
        Extend(was, buffer[..], offset, to, avail, start);
        left, pageoff, index := left - avail, pageoff + avail, index + avail;
      }
    }

    lemma StartPartly(s: seq<byte>, offset: nat)
      ensures Partly(s, offset, 0, s)
    {
    }

    lemma PartlyFront(s: seq<byte>, offset: nat, n: nat, start: seq<byte>)
      requires Partly(s, offset, n, start)
      ensures s[..n] == Slice(offset, n) && s[n..] == start[n..]
    {
    }

    lemma Extend(was: seq<byte>, now: seq<byte>, offset: nat, at: nat, n: nat, start: seq<byte>)
      requires Partly(was, offset, at, start) && |now| == |was| && at + n <= |start|
      requires forall k :: 0 <= k < |was| ==> now[k] == if at <= k < at + n then bytes(offset + k) else was[k]
      ensures Partly(now, offset, at + n, start)
    {
    }

    /** The copy loop over the blocks, putting each buffer head once it has been copied from. */
    method CopyOut(buffer: array<byte>, data: array<nat>, bh: array<nat>, b: nat, index0: nat, length: nat,
                   ghost first: nat, ghost offset: nat, ghost gets0: seq<nat>)
      requires forall p :: 0 <= p < data.Length ==> data[p] == p * PAGE_CACHE_SIZE
      requires length <= data.Length * PAGE_CACHE_SIZE && length <= buffer.Length
      requires b <= bh.Length && (forall i :: 0 <= i < b ==> bh[i] == first + i) && buffer != bh as object
               && buffer != data as object
      requires index0 < Size() && b == Touched(index0, length, Size()) && offset == BytePos(first, Size(), index0)
      requires Balanced(gets0, puts) && gets == gets0 + Range(first, b)
      modifies this`puts, buffer
      ensures Partly(buffer[..], offset, length, old(buffer[..]))
      ensures puts == old(puts) + Range(first, b)
    {
      hide Touched, Partly, Copied, Balanced, Size, BytePos;
      ghost var start := buffer[..];
      NoneCopied(index0, length, Size());
      var page: nat, pageoff: nat, i, bytes, index := 0, 0, 0, length, index0;
      assert Partly(buffer[..], offset, 0, start) by { StartPartly(buffer[..], offset); }
      while i < b
        invariant 0 <= i <= b && 0 <= bytes <= length && puts == old(puts) + Range(first, i)
        invariant length - bytes == page * PAGE_CACHE_SIZE + pageoff && pageoff <= PAGE_CACHE_SIZE
        invariant Partly(buffer[..], offset, length - bytes, start)
        invariant index == (if i == 0 then index0 else 0) && length - bytes == Copied(index0, length, Size(), i)
      {
        var n := Min(bytes, Size() - index);
        CopiedNext(index0, length, Size(), i, b);
        BlockStart(first, index0, length, Size(), i);
        page, pageoff := CopyBlock(buffer, data, bh[i], index, n, page, pageoff, offset, length - bytes, start);
        bytes := bytes - n;
        index := 0;
        PutNext(bh[i], first, b, i, gets0, old(puts));
        i := i + 1;
      }
      AllCopied(index0, length, Size(), b);
    }

    /** smashfs_read: all the bytes, exactly when every block one of them lies in is there and can be read. */
    method Read(buffer: array<byte>, offset: nat, length: nat) returns (rc: int)
      requires length <= buffer.Length && Balanced(gets, puts)
      modifies this`gets, this`puts, buffer
      ensures rc == length || rc == -5
      ensures Good(BlockOf(offset), Touched(IndexOf(offset), length, Size())) <==> rc == length
      ensures length > 0 ==>
                (rc == length
                 <==> forall p: nat :: offset <= p < offset + length ==> present(BlockOf(p)) && readable(BlockOf(p)))
      ensures if rc == length then Partly(buffer[..], offset, length, old(buffer[..]))
              else buffer[..] == old(buffer[..])
      ensures exists n: nat {:trigger Range(BlockOf(offset), n)} ::
        gets == old(gets) + Range(BlockOf(offset), n) && puts == old(puts) + Range(BlockOf(offset), n)
    {
      hide Touched, Balanced, Size, Heads, BytePos, Partly, BlockOf, IndexOf;
      var pages := (length + PAGE_CACHE_SIZE - 1) / PAGE_CACHE_SIZE;
      var data := new nat[pages](i => i * PAGE_CACHE_SIZE);
      var index, block := IndexOf(offset), BlockOf(offset);
      var bh := new nat[Heads(length, Size())];
      PosOf(offset);
      if length > 0 { GoodBytes(offset, length); }
      var ok, b := Acquire(bh, block, index, length);
      if !ok {
        return -EIO;
      }
      ok := Wait(bh, b, block, old(gets));
      if !ok {
        return -EIO;
      }
      CopyOut(buffer, data, bh, b, index, length, block, offset, old(gets));
      rc := length;
    }
  }

  lemma Fewer(index: nat, length: nat, size: nat, b: nat)
    requires 0 < size && b * size < index + length
    ensures b < Touched(index, length, size)
  {
    var t := Touched(index, length, size);
    var r := (index + length + size - 1) % size;
    assert index + length + size - 1 == t * size + r;
    assert (b - t) * size == b * size - t * size;
    MulSign(b - t, size);
  }

  /** The bytes copied once `i` blocks are done. */
  function Copied(index: nat, length: nat, size: nat, i: nat): int {
    if i == 0 then 0 else Min(length, i * size - index)
  }

  lemma NoneCopied(index: nat, length: nat, size: nat)
    ensures Copied(index, length, size, 0) == 0
  {
  }

  lemma CopiedNext(index: nat, length: nat, size: nat, i: nat, b: nat)
    requires index < size && i < b == Touched(index, length, size)
    ensures Copied(index, length, size, i + 1)
         == Copied(index, length, size, i)
            + Min(length - Copied(index, length, size, i), size - if i == 0 then index else 0)
    ensures 0 <= Copied(index, length, size, i) <= length
  {
    assert (i + 1) * size == i * size + size;
    if i > 0 { MulSign(i, size); }
  }

  lemma BlockStart(first: nat, index: nat, length: nat, size: nat, i: nat)
    requires index < size
    ensures Copied(index, length, size, i) < length ==>
              BytePos(first + i, size, if i == 0 then index else 0)
              == BytePos(first, size, index) + Copied(index, length, size, i)
  {
    assert (first + i) * size == first * size + i * size;
  }

  lemma AllCopied(index: nat, length: nat, size: nat, b: nat)
    requires index < size && b == Touched(index, length, size)
    ensures Copied(index, length, size, b) == length
  {
    var r := (index + length + size - 1) % size;
    assert index + length + size - 1 == b * size + r;
  }
}
