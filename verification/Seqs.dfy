/** Concatenations of pieces: the shape every section of an image has. */
module Seqs {

  datatype Option<+T> = None | Some(value: T)

  /** The pieces of `ss` end to end. */
  function Flat<T>(ss: seq<seq<T>>): seq<T> {
    if ss == [] then [] else ss[0] + Flat(ss[1..])
  }

  function Zeros<T>(n: nat, zero: T): (z: seq<T>)
    ensures |z| == n && forall i :: 0 <= i < n ==> z[i] == zero
  {
    seq(n, i => zero)
  }

  function Min(a: int, b: int): int { if a < b then a else b }

  function Max(a: int, b: int): int { if a > b then a else b }

  lemma CatSlices<T>(a: seq<T>, b: seq<T>)
    ensures (a + b)[..|a|] == a && (a + b)[|a|..] == b
  {
  }

  lemma CatAssoc<T>(a: seq<T>, b: seq<T>, c: seq<T>)
    ensures a + b + c == a + (b + c)
  {
  }

  lemma TakeNext<T>(s: seq<T>, i: nat)
    requires i < |s|
    ensures s[..i + 1] == s[..i] + [s[i]]
  {
  }

  lemma SliceSlice<T>(s: seq<T>, a: nat, e: nat, i: nat, j: nat)
    requires a <= e <= |s| && i <= j <= e - a
    ensures s[a..e][i..j] == s[a + i..a + j]
  {
    var x, y := s[a..e][i..j], s[a + i..a + j];
    forall k | 0 <= k < j - i
      ensures x[k] == y[k]
    {
      assert x[k] == s[a..e][i + k] == s[a + (i + k)];
    }
  }

  lemma {:induction false} FlatAppend<T>(a: seq<seq<T>>, b: seq<seq<T>>)
    ensures Flat(a + b) == Flat(a) + Flat(b)
  {
    if a == [] {
      assert a + b == b;
    } else {
      FlatAppend(a[1..], b);
      assert (a + b)[1..] == a[1..] + b;
      CatAssoc(a[0], Flat(a[1..]), Flat(b));
    }
  }

  lemma FlatSnoc<T>(ss: seq<seq<T>>, s: seq<T>)
    ensures Flat(ss + [s]) == Flat(ss) + s
  {
    FlatAppend(ss, [s]);
    assert Flat([s]) == s + Flat<T>([]);
  }

  /** Taking one more piece extends the concatenation by exactly that piece. */
  lemma FlatTake<T>(ss: seq<seq<T>>, i: nat)
    requires i < |ss|
    ensures Flat(ss[..i + 1]) == Flat(ss[..i]) + ss[i]
  {
    assert ss[..i + 1] == ss[..i] + [ss[i]];
    FlatSnoc(ss[..i], ss[i]);
  }

  lemma FlatAll<T>(ss: seq<seq<T>>)
    ensures Flat(ss[..|ss|]) == Flat(ss)
  {
    assert ss[..|ss|] == ss;
  }

  /** Piece `i` is found right after the pieces before it. */
  lemma FlatAt<T>(ss: seq<seq<T>>, i: nat)
    requires i < |ss|
    ensures |Flat(ss[..i])| + |ss[i]| <= |Flat(ss)|
    ensures Flat(ss)[|Flat(ss[..i])|..|Flat(ss[..i])| + |ss[i]|] == ss[i]
  {
    assert ss == ss[..i] + ([ss[i]] + ss[i + 1..]);
    FlatAppend(ss[..i], [ss[i]] + ss[i + 1..]);
    assert ([ss[i]] + ss[i + 1..])[1..] == ss[i + 1..];
    assert Flat([ss[i]] + ss[i + 1..]) == ss[i] + Flat(ss[i + 1..]);
  }

  lemma {:induction false} FlatUniform<T>(ss: seq<seq<T>>, w: nat)
    requires forall i :: 0 <= i < |ss| ==> |ss[i]| == w
    ensures |Flat(ss)| == |ss| * w
  {
    if ss != [] {
      FlatUniform(ss[1..], w);
      assert (|ss| - 1) * w + w == |ss| * w;
    }
  }

  lemma FlatLonger<T>(ss: seq<seq<T>>, i: nat, j: nat)
    requires i <= j <= |ss|
    ensures |Flat(ss[..i])| <= |Flat(ss[..j])| <= |Flat(ss)|
  {
    assert ss[..j] == ss[..i] + ss[i..j];
    FlatAppend(ss[..i], ss[i..j]);
    assert ss == ss[..j] + ss[j..];
    FlatAppend(ss[..j], ss[j..]);
  }
}
