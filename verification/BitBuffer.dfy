/** Bit-level access to a byte buffer, most significant bit first. */
module BitBuffers {
  import opened Seqs
  import opened Bits

  /** Setting a clear bit adds its weight. */
  lemma {:induction false} DecSet(bs: seq<bool>, k: nat)
    requires k < |bs| && !bs[k]
    ensures Dec(bs[k := true]) == Dec(bs) + Pow2(|bs| - 1 - k)
  {
    var init, set1 := bs[..|bs| - 1], bs[k := true];
    if k == |bs| - 1 {
      assert set1[..|bs| - 1] == init;
    } else {
      DecSet(init, k);
      assert set1[..|bs| - 1] == init[k := true];
    }
  }

  /** `b | ((v & 1) << (7 - k))`: the weight of bit `k` is added when the bit is clear and `v` is odd. */
  function OrBit(b: byte, k: nat, v: nat): (r: byte)
    requires k < 8
    ensures Enc(8, r) == Enc(8, b)[k := Enc(8, b)[k] || v % 2 == 1]
  {
    OrBitFits(b, k);
    if v % 2 == 1 && b / Pow2(7 - k) % 2 == 0 then b + Pow2(7 - k) else b
  }

  lemma OrBitFits(b: byte, k: nat)
    requires k < 8
    ensures Enc(8, b)[k] == (b / Pow2(7 - k) % 2 == 1)
    ensures !Enc(8, b)[k] ==> b + Pow2(7 - k) < 256 && Enc(8, b + Pow2(7 - k)) == Enc(8, b)[k := true]
  {
    hide Enc, Dec, Pow2;
    var bs := Enc(8, b);
    EncBit(8, b, k);
    Pow2Values();
    DecEncExact(8, b);
    if !bs[k] {
      DecSet(bs, k);
      ByteDec(bs[k := true]);
      EncDec(bs[k := true]);
    }
  }

  lemma SetBit(s: seq<byte>, i: nat, v: nat)
    requires i < 8 * |s|
    ensures BitsOf(s[i / 8 := OrBit(s[i / 8], i % 8, v)]) == BitsOf(s)[i := BitsOf(s)[i] || v % 2 == 1]
  {
    hide BitsOf;
    var s' := s[i / 8 := OrBit(s[i / 8], i % 8, v)];
    var bs' := BitsOf(s)[i := BitsOf(s)[i] || v % 2 == 1];
    forall j | 0 <= j < 8 * |s|
      ensures BitsOf(s')[j] == bs'[j]
    {
      BitAt(s, j);
      BitAt(s', j);
    }
  }

  /** What writing the bits `bs` at `pos` makes of `old`. */
  ghost predicate Ored(before: seq<bool>, after: seq<bool>, pos: nat, bs: seq<bool>) {
    && |after| == |before| && pos + |bs| <= |before|
    && forall i :: 0 <= i < |before| ==> after[i] == (before[i] || (pos <= i < pos + |bs| && bs[i - pos]))
  }

  lemma OredMore(a: seq<bool>, b: seq<bool>, c: seq<bool>, pos: nat, bs: seq<bool>, x: bool)
    requires Ored(a, b, pos, bs) && pos + |bs| < |a|
    requires c == b[pos + |bs| := b[pos + |bs|] || x]
    ensures Ored(a, c, pos, bs + [x])
  {
  }

  class BitBuffer {
    var buffer: array<byte>
    var index: nat

    /** The bits of the whole buffer. */
    ghost function View(): seq<bool>
      reads this`buffer, buffer
    {
      BitsOf(buffer[..])
    }

    ghost predicate Room(n: nat)
      reads this
    {
      index + n <= 8 * buffer.Length
    }

    /** Exactly the bits `bs` have been written to a cleared buffer. */
    ghost predicate Wrote(bs: seq<bool>)
      reads this, buffer
    {
      index == |bs| <= 8 * buffer.Length && View() == bs + Zeros(8 * buffer.Length - |bs|, false)
    }

    /** bitbuffer_init: a cleared buffer of `size` bytes. */
    constructor Init(size: nat)
      ensures fresh(buffer) && buffer.Length == size && Wrote([])
    {
      buffer := new byte[size](_ => 0);
      index := 0;
      new;
      ZeroBits(buffer[..]);
    }

    /** bitbuffer_init_from_buffer. */
    constructor FromBuffer(b: array<byte>)
      ensures buffer == b && index == 0
    {
      buffer := b;
      index := 0;
    }

    method SetPos(pos: nat)
      modifies this`index
      ensures index == pos
    {
      index := pos;
    }

    method PutBit(v: nat)
      requires Room(1)
      modifies this`index, buffer
      ensures index == old(index) + 1
      ensures View() == old(View()[index := View()[index] || v % 2 == 1])
    {
      var bit, byt := index % 8, index / 8;
      SetBit(buffer[..], index, v);
      buffer[byt] := OrBit(buffer[byt], bit, v);
      index := index + 1;
      assert buffer[..] == old(buffer[..])[byt := buffer[byt]];
    }

    /** Writes the low `n` bits of `value`, most significant first, over whatever the buffer holds. */
    method PutBits(n: nat, value: nat)
      requires n <= 32 && value < U32 && Room(n)
      modifies this`index, buffer
      ensures index == old(index) + n
      ensures Ored(old(View()), View(), old(index), Enc(n, value))
    {
      var left := n;
      while left > 0
        invariant 0 <= left <= n && index == old(index) + n - left
        invariant |Enc(n, value)[..n - left]| == n - left
        invariant Ored(old(View()), View(), old(index), Enc(n, value)[..n - left])
      {
        ghost var before := View();
        PutBit(value / Pow2(left - 1));
        EncBit(n, value, n - left);
        OredMore(old(View()), before, View(), old(index), Enc(n, value)[..n - left], Enc(n, value)[n - left]);
        assert Enc(n, value)[..n - left + 1] == Enc(n, value)[..n - left] + [Enc(n, value)[n - left]];
        left := left - 1;
      }
      assert Enc(n, value)[..n] == Enc(n, value);
    }

    /** Writing a field to a cleared buffer appends its bits. */
    method PutField(n: nat, value: nat, ghost bs: seq<bool>)
      requires n <= 32 && value < U32 && Room(n) && Wrote(bs)
      modifies this`index, buffer
      ensures Wrote(bs + Enc(n, value))
    {
      PutBits(n, value);
      assert View() == bs + Enc(n, value) + Zeros(8 * buffer.Length - |bs| - n, false);
    }

    method GetBit() returns (r: nat)
      requires Room(1)
      modifies this`index
      ensures index == old(index) + 1 && r == if View()[old(index)] then 1 else 0
    {
      var bit, byt := index % 8, index / 8;
      BitAt(buffer[..], index);
      EncBit(8, buffer[byt], bit);
      index := index + 1;
      r := buffer[byt] / Pow2(7 - bit) % 2;
    }

    /**
      The next `n` bits as a number. Whole bytes are taken at once when the position allows it, and
      the answer is still the bit-by-bit one.
     */
    method GetBits(n: nat) returns (tmp: nat)
      requires n <= 32 && Room(n)
      modifies this`index
      ensures index == old(index) + n && tmp == Dec(View()[old(index)..old(index) + n])
    {
      hide BitsOf, Dec;
      ghost var start := index;
      var left := n;
      tmp := 0;
      DecNone(View()[start..start]);
      while left > 0
        invariant 0 <= left <= n && index == start + n - left
        invariant tmp == Dec(View()[start..index])
      {
        if index % 8 == 0 && left >= 8 {
          while left >= 8
            invariant 0 <= left <= n && index == start + n - left && index % 8 == 0
            invariant tmp == Dec(View()[start..index])
          {
            var byt := buffer[index / 8];
            DecByte(buffer[..], start, index);
            tmp := (tmp * 256 + byt) % U32;
            index := index + 8;
            left := left - 8;
          }
        } else {
          DecBit(View(), start, index);
          var bit := GetBit();
          tmp := (tmp * 2 + bit) % U32;
          left := left - 1;
        }
      }
    }

    /** bitbuffer_getbuffer off a byte boundary: one byte at a time. */
    method GetBytes(out: array<byte>)
      requires Room(8 * out.Length) && out != buffer
      modifies this`index, out
      ensures index == old(index) + 8 * out.Length
      ensures BitsOf(out[..]) == View()[old(index)..index]
    {
      hide BitsOf, Dec;
      ghost var start, v := index, View();
      NoBits();
      var i := 0;
      while i < out.Length
        invariant 0 <= i <= out.Length && index == start + 8 * i && View() == v
        invariant BitsOf(out[..i]) == v[start..index]
      {
        ghost var done := out[..i];
        DecFits8(v[index..index + 8]);
        var byt := GetBits(8);
        SnocByte(done, byt, v, start, index - 8);
        out[i] := byt;
        assert out[..i + 1] == done + [byt];
        i := i + 1;
      }
      assert out[..i] == out[..];
    }

    /** bitbuffer_getbuffer: the next `n` bytes, wherever the position stands. */
    method GetBuffer(n: nat) returns (out: array<byte>)
      requires Room(8 * n)
      modifies this`index
      ensures fresh(out) && out.Length == n && index == old(index) + 8 * n
      ensures BitsOf(out[..]) == View()[old(index)..index]
    {
      hide BitsOf;
      out := new byte[n];
      if index % 8 != 0 {
        GetBytes(out);
      } else {
        var at := index / 8;
        forall i | 0 <= i < n {
          out[i] := buffer[at + i];
        }
        index := index + n * 8;
        BitsSlice(buffer[..], at, at + n);
        assert out[..] == buffer[..][at..at + n];
      }
    }

    method SkipBits(n: nat)
      modifies this`index
      ensures index == old(index) + n
    {
      index := index + n;
    }

    /** bitbuffer_showbits: reads without moving. */
    method ShowBits(n: nat) returns (tmp: nat)
      requires n <= 32 && Room(n)
      modifies this`index
      ensures index == old(index) && tmp == Dec(View()[index..index + n])
    {
      var at := index;
      tmp := GetBits(n);
      index := at;
    }

    /** bitbuffer_copybits: `n` bits of `from` are written here, over whatever the buffer holds. */
    method CopyBits(from: BitBuffer, n: nat) returns (el: nat)
      requires n <= 32 && from != this && from.buffer != buffer && from.Room(n) && Room(n)
      modifies this`index, buffer, from`index
      ensures index == old(index) + n && from.index == old(from.index) + n
      ensures el == Dec(from.View()[old(from.index)..from.index])
      ensures from.View() == old(from.View())
      ensures Ored(old(View()), View(), old(index), from.View()[old(from.index)..old(from.index) + n])
    {
      ghost var piece := from.View()[from.index..from.index + n];
      DecBound(piece);
      EncDec(piece);
      Pow2Values();
      if n < 32 { Pow2Mono(n, 32); }
      el := from.GetBits(n);
      PutBits(n, el);
    }
  }

  lemma {:induction false} ZeroBits(s: seq<byte>)
    requires forall i :: 0 <= i < |s| ==> s[i] == 0
    ensures BitsOf(s) == Zeros(8 * |s|, false)
  {
    if s != [] {
      ZeroBits(s[1..]);
      ZeroField(8);
    }
  }

  lemma {:induction false} ZeroField(w: nat)
    ensures Enc(w, 0) == Zeros(w, false)
  {
    if w > 0 { ZeroField(w - 1); }
  }

  /** Bits below position 32 never overflow the accumulator. */
  lemma DecFits(bs: seq<bool>)
    requires |bs| <= 32
    ensures Dec(bs) < U32
  {
    DecBound(bs);
    Pow2Values();
    if |bs| < 32 { Pow2Mono(|bs|, 32); }
  }

  lemma NoBits()
    ensures BitsOf([]) == []
  {
  }

  lemma DecFits8(bs: seq<bool>)
    requires |bs| == 8
    ensures Dec(bs) < 256 && Enc(8, Dec(bs)) == bs
  {
    ByteDec(bs);
    EncDec(bs);
  }

  lemma SnocByte(done: seq<byte>, v: byte, bs: seq<bool>, start: nat, at: nat)
    requires start <= at && at + 8 <= |bs| && BitsOf(done) == bs[start..at] && Enc(8, v) == bs[at..at + 8]
    ensures BitsOf(done + [v]) == bs[start..at + 8]
  {
    BitsAppend(done, [v]);
    assert BitsOf([v]) == Enc(8, v) + BitsOf([]);
    assert bs[start..at + 8] == bs[start..at] + bs[at..at + 8];
  }

  lemma DecNone(bs: seq<bool>)
    requires bs == []
    ensures Dec(bs) == 0
  {
  }

  lemma DecBit(bs: seq<bool>, start: nat, at: nat)
    requires start <= at < |bs| && at < start + 32
    ensures Dec(bs[start..at + 1]) == 2 * Dec(bs[start..at]) + (if bs[at] then 1 else 0) < U32
  {
    var b := bs[start..at + 1];
    assert b[..|b| - 1] == bs[start..at];
    DecFits(b);
  }

  lemma LowByte(s: seq<byte>, at: nat)
    requires at % 8 == 0 && at + 8 <= 8 * |s|
    ensures Dec(BitsOf(s)[at..at + 8]) == s[at / 8]
  {
    hide BitsOf, Dec, Enc;
    ByteAt(s, at / 8);
    Pow2Values();
    DecEncExact(8, s[at / 8]);
  }

  lemma DecByte(s: seq<byte>, start: nat, at: nat)
    requires start <= at && at % 8 == 0 && at + 8 <= 8 * |s| && at + 8 <= start + 32
    ensures Dec(BitsOf(s)[start..at + 8]) == 256 * Dec(BitsOf(s)[start..at]) + s[at / 8] < U32
  {
    hide BitsOf, Dec, Enc;
    var bs := BitsOf(s);
    var low := bs[at..at + 8];
    LowByte(s, at);
    assert bs[start..at + 8] == bs[start..at] + low;
    DecAppend(bs[start..at], low);
    DecFits(bs[start..at + 8]);
    Pow2Values();
  }
}
