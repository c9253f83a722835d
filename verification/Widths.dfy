/** The widths the builder picks are the least that hold what it scanned. */
module Widths {
  import opened Seqs
  import opened Bits
  import opened Format

  lemma {:induction false} BlogFromLeast(v: int, i: nat)
    requires 0 <= v && i <= 64 && forall j: nat :: 1 <= j < i ==> v >= Pow2(j)
    ensures var w := BlogFrom(v, i);
            && i <= w <= 64 && (w < 64 ==> v < Pow2(w)) && forall j: nat :: 1 <= j < w ==> v >= Pow2(j)
    decreases 64 - i
  {
    if !(i >= 64 || v < Pow2(i)) { BlogFromLeast(v, i + 1); }
  }

  /** A width below 64 holds the value it was picked for, and no positive width below it does. */
  lemma BlogLeast(v: int)
    requires 0 <= v
    ensures 1 <= Blog(v) <= 64
    ensures Blog(v) < 64 ==> v < Pow2(Blog(v))
    ensures forall j: nat :: 1 <= j < Blog(v) ==> v >= Pow2(j)
  {
    BlogFromLeast(v, 1);
  }

  /** What fits in 32 bits gets a width of at most 32. */
  lemma BlogAtMost(v: int, w: nat)
    requires 1 <= w < 64 && v < Pow2(w)
    ensures Blog(v) <= w
  {
    if v >= 0 { BlogLeast(v); }
  }

  lemma {:induction false} MaxOfBound<T>(s: seq<T>, f: T -> int, i: nat)
    requires i < |s|
    ensures f(s[i]) <= MaxOf(s, f)
  {
    if i < |s| - 1 { MaxOfBound(s[..|s| - 1], f, i); }
  }

  lemma {:induction false} MaxOfReached<T>(s: seq<T>, f: T -> int)
    ensures MaxOf(s, f) == -1 || exists i :: 0 <= i < |s| && f(s[i]) == MaxOf(s, f)
    ensures MaxOf(s, f) >= -1
  {
    if s != [] {
      var s' := s[..|s| - 1];
      MaxOfReached(s', f);
      if MaxOf(s, f) == f(s[|s| - 1]) {
      } else if MaxOf(s', f) != -1 {
        var i :| 0 <= i < |s'| && f(s'[i]) == MaxOf(s', f);
        assert f(s[i]) == MaxOf(s, f);
      }
    }
  }

  lemma {:induction false} MinOfBound<T>(s: seq<T>, f: T -> int, i: nat)
    requires i < |s|
    ensures MinOf(s, f) <= f(s[i])
  {
    if i < |s| - 1 { MinOfBound(s[..|s| - 1], f, i); }
  }

  lemma {:induction false} MinOfReached<T>(s: seq<T>, f: T -> int)
    ensures MinOf(s, f) == LONG_LONG_MAX || exists i :: 0 <= i < |s| && f(s[i]) == MinOf(s, f)
  {
    if s != [] {
      var s' := s[..|s| - 1];
      MinOfReached(s', f);
      if MinOf(s, f) == f(s[|s| - 1]) {
      } else if MinOf(s', f) != LONG_LONG_MAX {
        var i :| 0 <= i < |s'| && f(s'[i]) == MinOf(s', f);
        assert f(s[i]) == MinOf(s, f);
      }
    }
  }

  lemma {:induction false} MinOfAtLeast<T>(s: seq<T>, f: T -> int, lo: int)
    requires lo <= LONG_LONG_MAX && forall i :: 0 <= i < |s| ==> lo <= f(s[i])
    ensures lo <= MinOf(s, f)
  {
    if s != [] { MinOfAtLeast(s[..|s| - 1], f, lo); }
  }

  /** The "minimum" over the scan is the first node's value: the running maximum never falls below it again. */
  lemma {:induction false} MinOfMaxIsFirst<T>(s: seq<T>, f: T -> int)
    requires s != []
    ensures MinOfMax(s, f) == Min(LONG_LONG_MAX, Max(-1, f(s[0])))
  {
    if |s| == 1 {
      assert s[..0] == [];
      assert MaxOf<T>([], f) == -1 && MinOfMax<T>([], f) == LONG_LONG_MAX;
    } else {
      MinOfMaxIsFirst(s[..|s| - 1], f);
      MaxOfBound(s, f, 0);
      MaxOfReached(s, f);
    }
  }

  /** Every non-negative value fits the width picked from the maximum. */
  lemma FitsMax<T>(s: seq<T>, f: T -> int, i: nat)
    requires i < |s| && 0 <= f(s[i]) && Blog(MaxOf(s, f)) <= 32
    ensures f(s[i]) < Pow2(Blog(MaxOf(s, f))) && Blog(MaxOf(s, f)) >= 1
  {
    MaxOfBound(s, f, i);
    BlogLeast(MaxOf(s, f));
  }

  /** So does every difference from a base that does not exceed it. */
  lemma FitsDelta<T>(s: seq<T>, f: T -> int, base: int, i: nat)
    requires i < |s| && base <= f(s[i]) && Blog(MaxOf(s, f) - base) <= 32
    ensures 0 <= f(s[i]) - base < Pow2(Blog(MaxOf(s, f) - base))
  {
    MaxOfBound(s, f, i);
    BlogLeast(MaxOf(s, f) - base);
  }

  /** blog, as the loop it is. */
  method BlogLoop(number: int) returns (i: nat)
    ensures i == Blog(number)
  {
    if number < 0 {
      return 0;
    }
    i := 1;
    while i < 64
      invariant 1 <= i <= 64 && BlogFrom(number, i) == BlogFrom(number, 1)
    {
      if number < Pow2(i) { break; }
      i := i + 1;
    }
  }

  /** slog: the logarithm of a block size from 2^12 to 2^20, and 0 for every other size. */
  method Slog(block: nat) returns (r: nat)
    ensures r != 0 ==> 12 <= r <= 20 && block == Pow2(r)
    ensures r == 0 ==> forall i: nat :: 12 <= i <= 20 ==> block != Pow2(i)
  {
    var i := 12;
    while i <= 20
      invariant 12 <= i <= 21 && forall j: nat :: 12 <= j < i ==> block != Pow2(j)
    {
      if block == Pow2(i) { return i; }
      i := i + 1;
    }
    return 0;
  }
}
