/** Numbers as big-endian bit strings, and byte strings as the bits they hold. */
module Bits {
  import opened Seqs

  type byte = x: int | 0 <= x < 256

  const U32 := 0x1_0000_0000

  function Pow2(n: nat): (p: nat)
    ensures p >= 1
  {
    if n == 0 then 1 else 2 * Pow2(n - 1)
  }

  /** The low `w` bits of `v`, most significant first. */
  function Enc(w: nat, v: nat): (bs: seq<bool>)
    ensures |bs| == w
  {
    if w == 0 then [] else Enc(w - 1, v / 2) + [v % 2 == 1]
  }

  /** The number whose bits, most significant first, are `bs`. */
  function Dec(bs: seq<bool>): nat {
    if bs == [] then 0 else 2 * Dec(bs[..|bs| - 1]) + if bs[|bs| - 1] then 1 else 0
  }

  /** The bits of a byte string, each byte most significant bit first. */
  function BitsOf(s: seq<byte>): (bs: seq<bool>)
    ensures |bs| == 8 * |s|
  {
    if s == [] then [] else Enc(8, s[0]) + BitsOf(s[1..])
  }

  /** `bs` in the fewest bytes that hold it, the rest of the last byte zero. */
  function Pack(bs: seq<bool>): (s: seq<byte>)
    ensures |s| == (|bs| + 7) / 8
  {
    if |bs| == 0 then []
    else if |bs| < 8 then ByteDec(bs + Zeros(8 - |bs|, false)); [Dec(bs + Zeros(8 - |bs|, false))]
    else ByteDec(bs[..8]); [Dec(bs[..8])] + Pack(bs[8..])
  }

  lemma {:induction false} Pow2Add(a: nat, b: nat)
    ensures Pow2(a + b) == Pow2(a) * Pow2(b)
  {
    if a > 0 {
      Pow2Add(a - 1, b);
      assert 2 * (Pow2(a - 1) * Pow2(b)) == (2 * Pow2(a - 1)) * Pow2(b);
    }
  }

  lemma {:induction false} Pow2Mono(a: nat, b: nat)
    requires a < b
    ensures Pow2(a) < Pow2(b) && 2 * Pow2(a) <= Pow2(b)
  {
    if a < b - 1 { Pow2Mono(a, b - 1); }
  }

  lemma Pow2Values()
    ensures Pow2(8) == 256 && Pow2(12) == 4096 && Pow2(20) == 0x10_0000 && Pow2(32) == U32
  {
    assert Pow2(4) == 16;
    Pow2Add(4, 4);
    Pow2Add(4, 8);
    Pow2Add(8, 8);
    Pow2Add(8, 12);
    Pow2Add(16, 16);
  }

  lemma MulSign(d: int, m: int)
    requires m > 0
    ensures d >= 1 ==> d * m >= m
    ensures d <= -1 ==> d * m <= -m
  {
    if d >= 1 { assert (d - 1) * m >= 0; }
    if d <= -1 { assert (-d - 1) * m >= 0; }
  }

  function Quotient(a: nat, m: nat): nat
    requires m > 0
  {
    a / m
  }

  /** A quotient and remainder are determined by the equation they satisfy. */
  lemma DivModUnique(v: int, m: int, q: int, r: int)
    requires 0 <= r < m && v == q * m + r
    ensures v / m == q && v % m == r
  {
    var d := v / m - q;
    var r' := v % m;
    assert v == v / m * m + r';
    assert d * m == r - r';
    MulSign(d, m);
  }

  lemma ModHalf(v: nat, m: nat)
    requires m > 0
    ensures v % (2 * m) == 2 * ((v / 2) % m) + v % 2
  {
    var h := v / 2;
    assert v == 2 * (h / m * m + h % m) + v % 2;
    assert 2 * (h / m * m) == h / m * (2 * m);
    DivModUnique(v, 2 * m, h / m, 2 * (h % m) + v % 2);
  }

  lemma {:induction false} DecBound(bs: seq<bool>)
    ensures Dec(bs) < Pow2(|bs|)
  {
    if bs != [] { DecBound(bs[..|bs| - 1]); }
  }

  lemma ByteDec(bs: seq<bool>)
    requires |bs| == 8
    ensures Dec(bs) < 256
  {
    DecBound(bs);
    Pow2Values();
  }

  /** Reading back a field returns its value modulo 2 to the field's width. */
  lemma {:induction false} DecEnc(w: nat, v: nat)
    ensures Dec(Enc(w, v)) == v % Pow2(w)
  {
    if w > 0 {
      DecEnc(w - 1, v / 2);
      var e := Enc(w, v);
      assert e[..|e| - 1] == Enc(w - 1, v / 2);
      ModHalf(v, Pow2(w - 1));
    }
  }

  lemma DecEncExact(w: nat, v: nat)
    requires v < Pow2(w)
    ensures Dec(Enc(w, v)) == v
  {
    DecEnc(w, v);
    DivModUnique(v, Pow2(w), 0, v);
  }

  lemma {:induction false} EncDec(bs: seq<bool>)
    ensures Enc(|bs|, Dec(bs)) == bs
  {
    if bs != [] {
      EncDec(bs[..|bs| - 1]);
      assert bs == bs[..|bs| - 1] + [bs[|bs| - 1]];
    }
  }

  lemma Doubled(x: nat, n: nat)
    ensures 2 * (x * Pow2(n)) == x * Pow2(n + 1)
  {
  }

  lemma {:induction false} DecAppend(a: seq<bool>, b: seq<bool>)
    ensures Dec(a + b) == Dec(a) * Pow2(|b|) + Dec(b)
  {
    if b == [] {
      assert a + b == a;
    } else {
      var b' := b[..|b| - 1];
      DecAppend(a, b');
      assert (a + b)[..|a + b| - 1] == a + b';
      Doubled(Dec(a), |b'|);
    }
  }

  /** Halving commutes with taking a higher bit. */
  lemma HalfBit(v: nat, k: nat)
    ensures v / 2 / Pow2(k) == v / Pow2(k + 1)
  {
    var m := Pow2(k);
    var q, r := v / 2 / m, v / 2 % m;
    assert v / 2 == q * m + r;
    assert v == 2 * (q * m + r) + v % 2 == q * (2 * m) + (2 * r + v % 2);
    DivModUnique(v, 2 * m, q, 2 * r + v % 2);
  }

  /** Bit `i` of a field is bit `w - 1 - i` of its value: what one shift and mask picks out. */
  lemma {:induction false} EncBit(w: nat, v: nat, i: nat)
    requires i < w
    ensures Enc(w, v)[i] == (v / Pow2(w - 1 - i) % 2 == 1)
  {
    if i < w - 1 {
      EncBit(w - 1, v / 2, i);
      HalfBit(v, w - 2 - i);
    }
  }

  /** A 32-bit truncation does not show in a field of at most 32 bits. */
  lemma {:induction false} EncMod(w: nat, n: nat, v: nat)
    requires w <= n
    ensures Enc(w, v % Pow2(n)) == Enc(w, v)
  {
    if w > 0 {
      ModHalf(v, Pow2(n - 1));
      EncMod(w - 1, n - 1, v / 2);
      assert (v % Pow2(n)) / 2 == (v / 2) % Pow2(n - 1);
    }
  }

  lemma {:induction false} BitsAppend(a: seq<byte>, b: seq<byte>)
    ensures BitsOf(a + b) == BitsOf(a) + BitsOf(b)
  {
    if a == [] {
      assert a + b == b;
    } else {
      BitsAppend(a[1..], b);
      assert (a + b)[1..] == a[1..] + b;
      CatAssoc(Enc(8, a[0]), BitsOf(a[1..]), BitsOf(b));
    }
  }

  lemma BitsSplit(s: seq<byte>, i: nat)
    requires i <= |s|
    ensures BitsOf(s)[..8 * i] == BitsOf(s[..i])
    ensures BitsOf(s)[8 * i..] == BitsOf(s[i..])
  {
    var a, b := s[..i], s[i..];
    assert s == a + b;
    BitsAppend(a, b);
    CatSlices(BitsOf(a), BitsOf(b));
    assert |BitsOf(a)| == 8 * i;
  }

  lemma BitsSlice(s: seq<byte>, i: nat, j: nat)
    requires i <= j <= |s|
    ensures BitsOf(s[i..j]) == BitsOf(s)[8 * i..8 * j]
  {
    BitsSplit(s, j);
    BitsSplit(s[..j], i);
    assert s[..j][i..] == s[i..j];
    assert BitsOf(s)[..8 * j][8 * i..] == BitsOf(s)[8 * i..8 * j];
  }

  lemma ByteAt(s: seq<byte>, i: nat)
    requires i < |s|
    ensures BitsOf(s)[8 * i..8 * i + 8] == Enc(8, s[i])
  {
    BitsSlice(s, i, i + 1);
    assert s[i..i + 1] == [s[i]];
    assert BitsOf([s[i]]) == Enc(8, s[i]) + BitsOf([]);
  }

  lemma BitAt(s: seq<byte>, i: nat)
    requires i < 8 * |s|
    ensures BitsOf(s)[i] == Enc(8, s[i / 8])[i % 8]
  {
    hide BitsOf, Enc;
    var k := i / 8;
    ByteAt(s, k);
    assert BitsOf(s)[8 * k..8 * k + 8][i - 8 * k] == BitsOf(s)[i];
  }

  /** Byte strings are determined by their bits. */
  lemma BitsInjective(a: seq<byte>, b: seq<byte>)
    requires BitsOf(a) == BitsOf(b)
    ensures a == b
  {
    assert |a| == |b|;
    forall i | 0 <= i < |a|
      ensures a[i] == b[i]
    {
      ByteAt(a, i);
      ByteAt(b, i);
      Pow2Values();
      DecEncExact(8, a[i]);
      DecEncExact(8, b[i]);
    }
  }

  lemma BitsCons(x: byte, s: seq<byte>)
    ensures BitsOf([x] + s) == Enc(8, x) + BitsOf(s)
  {
    hide Enc;
    assert ([x] + s)[1..] == s;
  }

  lemma {:induction false} PackBits(bs: seq<bool>)
    ensures BitsOf(Pack(bs)) == bs + Zeros(8 * |Pack(bs)| - |bs|, false)
  {
    hide BitsOf, Enc, Dec;
    if |bs| == 0 {
    } else if |bs| < 8 {
      var whole := bs + Zeros(8 - |bs|, false);
      EncDec(whole);
      ByteDec(whole);
      BitsCons(Dec(whole), []);
      assert Pack(bs) == [Dec(whole)] + [];
    } else {
      PackBits(bs[8..]);
      EncDec(bs[..8]);
      ByteDec(bs[..8]);
      BitsCons(Dec(bs[..8]), Pack(bs[8..]));
      Front8(bs, Zeros(8 * |Pack(bs)| - |bs|, false));
    }
  }

  lemma Front8(bs: seq<bool>, zeros: seq<bool>)
    requires |bs| >= 8
    ensures bs[..8] + (bs[8..] + zeros) == bs + zeros
  {
  }

  /** Only the packing of `bs` holds `bs` followed by fewer than eight zero bits. */
  lemma PackUnique(s: seq<byte>, bs: seq<bool>)
    requires |s| == (|bs| + 7) / 8
    requires BitsOf(s) == bs + Zeros(8 * |s| - |bs|, false)
    ensures s == Pack(bs)
  {
    hide Pack, BitsOf;
    PackBits(bs);
    BitsInjective(s, Pack(bs));
  }
}
