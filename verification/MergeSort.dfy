/** What the bottom-up list merge sort of uthash computes, as a function on sequences. */
module MergeSort {
  import opened Seqs

  /** Merging two runs: ties, and everything once the other run is used up, come from the left. */
  function Merge<T>(p: seq<T>, q: seq<T>, cmp: (T, T) -> int): (m: seq<T>)
    ensures |m| == |p| + |q|
    decreases |p| + |q|
  {
    if p == [] then q
    else if q == [] then p
    else if cmp(p[0], q[0]) <= 0 then [p[0]] + Merge(p[1..], q, cmp)
    else [q[0]] + Merge(p, q[1..], cmp)
  }

  /** The first run of at most `k` elements. */
  function Run<T>(s: seq<T>, k: nat): seq<T> { s[..Min(k, |s|)] }

  /** What follows the first run. */
  function After<T>(s: seq<T>, k: nat): seq<T> { s[Min(k, |s|)..] }

  lemma RunAfter<T>(s: seq<T>, k: nat)
    ensures s == Run(s, k) + After(s, k)
  {
  }

  /** One pass over the list: neighbouring runs of `k` elements are merged in pairs. */
  function Pass<T>(s: seq<T>, k: nat, cmp: (T, T) -> int): (r: seq<T>)
    requires k > 0
    ensures |r| == |s|
    decreases |s|
  {
    if s == [] then []
    else
      var right := After(s, k);
      Merge(Run(s, k), Run(right, k), cmp) + Pass(After(right, k), k, cmp)
  }

  /** Passes of doubling run length until one merge covers the whole list. */
  function SortFrom<T>(s: seq<T>, k: nat, cmp: (T, T) -> int): (r: seq<T>)
    requires k > 0
    ensures |r| == |s|
    decreases |s| - k
  {
    if |s| <= 2 * k then Pass(s, k, cmp) else SortFrom(Pass(s, k, cmp), 2 * k, cmp)
  }

  function Sort<T>(s: seq<T>, cmp: (T, T) -> int): (r: seq<T>)
    ensures |r| == |s|
  {
    SortFrom(s, 1, cmp)
  }

  ghost function Elems<T>(s: seq<T>): set<T> {
    set x | x in s
  }

  // ---------- permutation, for any comparator ----------

  lemma {:induction false} MergePermutes<T>(p: seq<T>, q: seq<T>, cmp: (T, T) -> int)
    ensures multiset(Merge(p, q, cmp)) == multiset(p) + multiset(q)
    decreases |p| + |q|
  {
    if p != [] && q != [] {
      if cmp(p[0], q[0]) <= 0 {
        MergePermutes(p[1..], q, cmp);
        HeadMultiset(p);
        HeadMultiset(Merge(p, q, cmp));
        assert Merge(p, q, cmp)[1..] == Merge(p[1..], q, cmp);
      } else {
        MergePermutes(p, q[1..], cmp);
        HeadMultiset(q);
        HeadMultiset(Merge(p, q, cmp));
        assert Merge(p, q, cmp)[1..] == Merge(p, q[1..], cmp);
      }
    }
  }

  lemma HeadMultiset<T>(s: seq<T>)
    requires s != []
    ensures multiset(s) == multiset{s[0]} + multiset(s[1..])
  {
    assert s == [s[0]] + s[1..];
  }

  lemma CatMultiset<T>(a: seq<T>, b: seq<T>)
    ensures multiset(a + b) == multiset(a) + multiset(b)
  {
  }

  lemma {:induction false} PassPermutes<T>(s: seq<T>, k: nat, cmp: (T, T) -> int)
    requires k > 0
    ensures multiset(Pass(s, k, cmp)) == multiset(s)
    decreases |s|
  {
    if s != [] {
      var right := After(s, k);
      MergePermutes(Run(s, k), Run(right, k), cmp);
      PassPermutes(After(right, k), k, cmp);
      CatMultiset(Run(s, k), right);
      CatMultiset(Run(right, k), After(right, k));
      CatMultiset(Merge(Run(s, k), Run(right, k), cmp), Pass(After(right, k), k, cmp));
      RunAfter(s, k);
      RunAfter(right, k);
    }
  }

  lemma {:induction false} SortFromPermutes<T>(s: seq<T>, k: nat, cmp: (T, T) -> int)
    requires k > 0
    ensures multiset(SortFrom(s, k, cmp)) == multiset(s)
    decreases |s| - k
  {
    PassPermutes(s, k, cmp);
    if |s| > 2 * k { SortFromPermutes(Pass(s, k, cmp), 2 * k, cmp); }
  }

  /** Whatever the comparator answers, sorting only rearranges the list. */
  lemma SortPermutes<T>(s: seq<T>, cmp: (T, T) -> int)
    ensures multiset(Sort(s, cmp)) == multiset(s)
  {
    SortFromPermutes(s, 1, cmp);
  }

  // ---------- order ----------

  ghost predicate Sorted<T>(s: seq<T>, le: (T, T) -> bool) {
    s == [] || ((forall x :: x in s[1..] ==> le(s[0], x)) && Sorted(s[1..], le))
  }

  /** Every run of `k` elements, and the short one at the end, is sorted. */
  ghost predicate RunsSorted<T>(s: seq<T>, k: nat, le: (T, T) -> bool)
    requires k > 0
    decreases |s|
  {
    s == [] || (Sorted(Run(s, k), le) && RunsSorted(After(s, k), k, le))
  }

  /**
    `le` is an order that never contradicts the comparator on `dom`. The comparator itself need
    not be transitive for such an order to exist.
   */
  ghost predicate Respects<T>(dom: set<T>, cmp: (T, T) -> int, le: (T, T) -> bool) {
    && (forall x, y, z :: x in dom && y in dom && z in dom && le(x, y) && le(y, z) ==> le(x, z))
    && (forall x, y :: x in dom && y in dom ==> if cmp(x, y) <= 0 then le(x, y) else le(y, x))
  }

  ghost predicate Within<T>(s: seq<T>, dom: set<T>) {
    forall x :: x in s ==> x in dom
  }

  lemma ConsSorted<T>(x: T, s: seq<T>, le: (T, T) -> bool)
    requires Sorted(s, le) && forall y :: y in s ==> le(x, y)
    ensures Sorted([x] + s, le)
  {
    assert ([x] + s)[1..] == s;
  }

  /** Everything in a sorted list is above whatever is below its head. */
  lemma BelowAll<T>(x: T, s: seq<T>, cmp: (T, T) -> int, le: (T, T) -> bool, dom: set<T>)
    requires Within(s, dom) && x in dom && Respects(dom, cmp, le) && Sorted(s, le)
    requires s != [] ==> le(x, s[0])
    ensures forall y :: y in s ==> le(x, y)
  {
    forall y | y in s
      ensures le(x, y)
    {
      if y != s[0] {
        assert y in s[1..];
        assert le(s[0], y) && s[0] in dom && y in dom;
      }
    }
  }

  lemma {:induction false} MergeSorted<T>(p: seq<T>, q: seq<T>, cmp: (T, T) -> int, le: (T, T) -> bool, dom: set<T>)
    requires Within(p, dom) && Within(q, dom) && Respects(dom, cmp, le)
    requires Sorted(p, le) && Sorted(q, le)
    ensures Sorted(Merge(p, q, cmp), le)
    decreases |p| + |q|
  {
    if p != [] && q != [] {
      assert p[0] in dom && q[0] in dom;
      if cmp(p[0], q[0]) <= 0 {
        MergeSorted(p[1..], q, cmp, le, dom);
        BelowAll(p[0], q, cmp, le, dom);
        forall y | y in Merge(p[1..], q, cmp)
          ensures le(p[0], y)
        {
          MergeMember(p[1..], q, cmp, y);
        }
        ConsSorted(p[0], Merge(p[1..], q, cmp), le);
      } else {
        MergeSorted(p, q[1..], cmp, le, dom);
        BelowAll(q[0], p, cmp, le, dom);
        forall y | y in Merge(p, q[1..], cmp)
          ensures le(q[0], y)
        {
          MergeMember(p, q[1..], cmp, y);
        }
        ConsSorted(q[0], Merge(p, q[1..], cmp), le);
      }
    }
  }

  lemma MergeMember<T>(p: seq<T>, q: seq<T>, cmp: (T, T) -> int, x: T)
    ensures x in Merge(p, q, cmp) <==> x in p || x in q
  {
    MergePermutes(p, q, cmp);
    assert x in Merge(p, q, cmp) <==> x in multiset(Merge(p, q, cmp));
  }

  lemma {:induction false} PassSorted<T>(s: seq<T>, k: nat, cmp: (T, T) -> int, le: (T, T) -> bool, dom: set<T>)
    requires k > 0 && Within(s, dom) && Respects(dom, cmp, le) && RunsSorted(s, k, le)
    ensures RunsSorted(Pass(s, k, cmp), 2 * k, le)
    decreases |s|
  {
    if s != [] {
      var right := After(s, k);
      var m := Merge(Run(s, k), Run(right, k), cmp);
      MergeSorted(Run(s, k), Run(right, k), cmp, le, dom);
      PassSorted(After(right, k), k, cmp, le, dom);
      CatSlices(m, Pass(After(right, k), k, cmp));
      assert |m| == Min(2 * k, |s|);
    }
  }

  lemma {:induction false} SortFromSorted<T>(s: seq<T>, k: nat, cmp: (T, T) -> int, le: (T, T) -> bool, dom: set<T>)
    requires k > 0 && Within(s, dom) && Respects(dom, cmp, le) && RunsSorted(s, k, le)
    ensures Sorted(SortFrom(s, k, cmp), le)
    decreases |s| - k
  {
    PassSorted(s, k, cmp, le, dom);
    var r := Pass(s, k, cmp);
    if |s| > 2 * k {
      PassPermutes(s, k, cmp);
      assert forall x :: x in r ==> x in multiset(r);
      SortFromSorted(r, 2 * k, cmp, le, dom);
    } else if r != [] {
      assert Run(r, 2 * k) == r;
    }
  }

  lemma {:induction false} UnitRuns<T>(s: seq<T>, le: (T, T) -> bool)
    ensures RunsSorted(s, 1, le)
    decreases |s|
  {
    if s != [] { UnitRuns(s[1..], le); }
  }

  /**
    The result is sorted by every order the comparator respects: by the comparator itself when that
    is a total preorder, and by a coarser key when it is not even transitive.
   */
  lemma SortSorted<T>(s: seq<T>, cmp: (T, T) -> int, le: (T, T) -> bool)
    requires Respects(Elems(s), cmp, le)
    ensures Sorted(Sort(s, cmp), le)
  {
    UnitRuns(s, le);
    SortFromSorted(s, 1, cmp, le, Elems(s));
  }

  lemma {:induction false} SortedAt<T>(s: seq<T>, le: (T, T) -> bool, i: nat, j: nat)
    requires Sorted(s, le) && i < j < |s|
    ensures le(s[i], s[j])
  {
    if i > 0 {
      SortedAt(s[1..], le, i - 1, j - 1);
    } else {
      assert s[j] == s[1..][j - 1];
    }
  }

  // ---------- stability ----------

  function Filter<T>(s: seq<T>, c: T -> bool): seq<T> {
    if s == [] then [] else (if c(s[0]) then [s[0]] else []) + Filter(s[1..], c)
  }

  lemma {:induction false} FilterAppend<T>(a: seq<T>, b: seq<T>, c: T -> bool)
    ensures Filter(a + b, c) == Filter(a, c) + Filter(b, c)
  {
    if a == [] {
      assert a + b == b;
    } else {
      FilterAppend(a[1..], b, c);
      assert (a + b)[1..] == a[1..] + b;
      var h := if c(a[0]) then [a[0]] else [];
      assert Filter(a + b, c) == h + Filter(a[1..] + b, c);
      assert h + (Filter(a[1..], c) + Filter(b, c)) == (h + Filter(a[1..], c)) + Filter(b, c);
    }
  }

  lemma {:induction false} FilterNone<T>(s: seq<T>, c: T -> bool)
    requires forall x :: x in s ==> !c(x)
    ensures Filter(s, c) == []
  {
    if s != [] { FilterNone(s[1..], c); }
  }

  /** The comparator is a total preorder on `dom` and `c` picks out mutually tied elements. */
  ghost predicate Ties<T>(dom: set<T>, cmp: (T, T) -> int, c: T -> bool) {
    && Respects(dom, cmp, (x, y) => cmp(x, y) <= 0)
    && (forall x, y :: x in dom && y in dom && c(x) && c(y) ==> cmp(x, y) <= 0)
  }

  /** Nothing in a sorted run that starts above `y` is tied with it. */
  lemma NoneTied<T>(p: seq<T>, y: T, cmp: (T, T) -> int, c: T -> bool, dom: set<T>)
    requires Within(p, dom) && y in dom && Ties(dom, cmp, c) && p != [] && cmp(p[0], y) > 0 && c(y)
    requires Sorted(p, (x, z) => cmp(x, z) <= 0)
    ensures Filter(p, c) == []
  {
    hide Filter;
    forall i | 0 <= i < |p|
      ensures !c(p[i])
    {
      assert p[0] in p && p[i] in p;
      if i > 0 { assert p[i] == p[1..][i - 1] && p[i] in p[1..]; }
    }
    FilterNone(p, c);
  }

  lemma {:induction false} MergeStable<T>(p: seq<T>, q: seq<T>, cmp: (T, T) -> int, c: T -> bool, dom: set<T>)
    requires Within(p, dom) && Within(q, dom) && Ties(dom, cmp, c)
    requires Sorted(p, (x, y) => cmp(x, y) <= 0)
    ensures Filter(Merge(p, q, cmp), c) == Filter(p, c) + Filter(q, c)
    decreases |p| + |q|
  {
    if p != [] && q != [] {
      var m := Merge(p, q, cmp);
      if cmp(p[0], q[0]) <= 0 {
        MergeStable(p[1..], q, cmp, c, dom);
        assert m[1..] == Merge(p[1..], q, cmp);
      } else {
        MergeStable(p, q[1..], cmp, c, dom);
        assert m[1..] == Merge(p, q[1..], cmp);
        if c(q[0]) { NoneTied(p, q[0], cmp, c, dom); }
      }
    }
  }

  lemma {:induction false} PassStable<T>(s: seq<T>, k: nat, cmp: (T, T) -> int, c: T -> bool, dom: set<T>)
    requires k > 0 && Within(s, dom) && Ties(dom, cmp, c)
    requires RunsSorted(s, k, (x, y) => cmp(x, y) <= 0)
    ensures Filter(Pass(s, k, cmp), c) == Filter(s, c)
    decreases |s|
  {
    if s != [] {
      var right := After(s, k);
      var p, q, rest := Run(s, k), Run(right, k), After(right, k);
      MergeStable(p, q, cmp, c, dom);
      PassStable(rest, k, cmp, c, dom);
      FilterAppend(Merge(p, q, cmp), Pass(rest, k, cmp), c);
      FilterAppend(p, right, c);
      FilterAppend(q, rest, c);
      CatAssoc(Filter(p, c), Filter(q, c), Filter(rest, c));
      RunAfter(s, k);
      RunAfter(right, k);
    }
  }

  lemma {:induction false} SortFromStable<T>(s: seq<T>, k: nat, cmp: (T, T) -> int, c: T -> bool, dom: set<T>)
    requires k > 0 && Within(s, dom) && Ties(dom, cmp, c)
    requires RunsSorted(s, k, (x, y) => cmp(x, y) <= 0)
    ensures Filter(SortFrom(s, k, cmp), c) == Filter(s, c)
    decreases |s| - k
  {
    PassStable(s, k, cmp, c, dom);
    if |s| > 2 * k {
      var r := Pass(s, k, cmp);
      PassSorted(s, k, cmp, (x, y) => cmp(x, y) <= 0, dom);
      PassPermutes(s, k, cmp);
      assert forall x :: x in r ==> x in multiset(r);
      SortFromStable(r, 2 * k, cmp, c, dom);
    }
  }

  /** For a total preorder, elements that tie keep the order they had. */
  lemma SortStable<T>(s: seq<T>, cmp: (T, T) -> int, c: T -> bool)
    requires Ties(Elems(s), cmp, c)
    ensures Filter(Sort(s, cmp), c) == Filter(s, c)
  {
    UnitRuns(s, (x, y) => cmp(x, y) <= 0);
    SortFromStable(s, 1, cmp, c, Elems(s));
  }

  /** The first element picked out. */
  lemma {:induction false} FilterHead<T>(s: seq<T>, c: T -> bool, i: nat)
    requires i < |s| && c(s[i]) && forall j :: 0 <= j < i ==> !c(s[j])
    ensures Filter(s, c) != [] && Filter(s, c)[0] == s[i]
  {
    if i > 0 { FilterHead(s[1..], c, i - 1); }
  }

  // ---------- sorting elements and sorting their names ----------

  function MapSeq<T, U>(f: T -> U, s: seq<T>): (r: seq<U>)
    ensures |r| == |s| && forall i :: 0 <= i < |s| ==> r[i] == f(s[i])
  {
    seq(|s|, i requires 0 <= i < |s| => f(s[i]))
  }

  lemma MapRun<T, U>(f: T -> U, s: seq<T>, k: nat)
    ensures Run(MapSeq(f, s), k) == MapSeq(f, Run(s, k))
    ensures After(MapSeq(f, s), k) == MapSeq(f, After(s, k))
  {
  }

  lemma MapAppend<T, U>(f: T -> U, a: seq<T>, b: seq<T>)
    ensures MapSeq(f, a + b) == MapSeq(f, a) + MapSeq(f, b)
  {
  }

  /** The comparators agree along `f`. */
  ghost predicate Agree<T, U>(dom: set<T>, f: T -> U, cmp: (T, T) -> int, cmp': (U, U) -> int) {
    forall x, y :: x in dom && y in dom ==> cmp(x, y) == cmp'(f(x), f(y))
  }

  lemma MapTail<T, U>(f: T -> U, s: seq<T>)
    ensures s != [] ==> MapSeq(f, s) == [f(s[0])] + MapSeq(f, s[1..]) && MapSeq(f, s)[1..] == MapSeq(f, s[1..])
    ensures s == [] ==> MapSeq(f, s) == []
  {
  }

  lemma {:induction false} MergeNatural<T, U>(p: seq<T>, q: seq<T>, dom: set<T>, f: T -> U, cmp: (T, T) -> int,
                                              cmp': (U, U) -> int)
    requires Within(p, dom) && Within(q, dom) && Agree(dom, f, cmp, cmp')
    ensures MapSeq(f, Merge(p, q, cmp)) == Merge(MapSeq(f, p), MapSeq(f, q), cmp')
    decreases |p| + |q|
  {
    hide MapSeq;
    MapTail(f, p);
    MapTail(f, q);
    if p != [] && q != [] {
      MapTail(f, Merge(p, q, cmp));
      assert p[0] in p && q[0] in q;
      if cmp(p[0], q[0]) <= 0 {
        MergeNatural(p[1..], q, dom, f, cmp, cmp');
        assert Merge(p, q, cmp)[1..] == Merge(p[1..], q, cmp);
      } else {
        MergeNatural(p, q[1..], dom, f, cmp, cmp');
        assert Merge(p, q, cmp)[1..] == Merge(p, q[1..], cmp);
      }
    }
  }

  lemma {:induction false} PassNatural<T, U>(s: seq<T>, k: nat, dom: set<T>, f: T -> U, cmp: (T, T) -> int,
                                             cmp': (U, U) -> int)
    requires k > 0 && Within(s, dom) && Agree(dom, f, cmp, cmp')
    ensures MapSeq(f, Pass(s, k, cmp)) == Pass(MapSeq(f, s), k, cmp')
    decreases |s|
  {
    if s != [] {
      var right := After(s, k);
      MapRun(f, s, k);
      MapRun(f, right, k);
      MergeNatural(Run(s, k), Run(right, k), dom, f, cmp, cmp');
      PassNatural(After(right, k), k, dom, f, cmp, cmp');
      MapAppend(f, Merge(Run(s, k), Run(right, k), cmp), Pass(After(right, k), k, cmp));
    } else {
      assert MapSeq(f, s) == [];
    }
  }

  lemma {:induction false} SortFromNatural<T, U>(s: seq<T>, k: nat, dom: set<T>, f: T -> U, cmp: (T, T) -> int,
                                                 cmp': (U, U) -> int)
    requires k > 0 && Within(s, dom) && Agree(dom, f, cmp, cmp')
    ensures MapSeq(f, SortFrom(s, k, cmp)) == SortFrom(MapSeq(f, s), k, cmp')
    decreases |s| - k
  {
    PassNatural(s, k, dom, f, cmp, cmp');
    if |s| > 2 * k {
      PassPermutes(s, k, cmp);
      var r := Pass(s, k, cmp);
      assert forall x :: x in r ==> x in multiset(r);
      SortFromNatural(r, 2 * k, dom, f, cmp, cmp');
    }
  }

  /** Sorting elements by what a name tells about them sorts the names. */
  lemma SortNatural<T, U>(s: seq<T>, f: T -> U, cmp: (T, T) -> int, cmp': (U, U) -> int)
    requires Agree(Elems(s), f, cmp, cmp')
    ensures MapSeq(f, Sort(s, cmp)) == Sort(MapSeq(f, s), cmp')
  {
    SortFromNatural(s, 1, Elems(s), f, cmp, cmp');
  }

  // ---------- numbers ----------

  /** 0, 1, ..., n - 1. */
  function Iota(n: nat): (r: seq<nat>)
    ensures |r| == n && forall i :: 0 <= i < n ==> r[i] == i
  {
    seq(n, i => i)
  }

  ghost predicate Ascending(s: seq<nat>) {
    forall i, j :: 0 <= i < j < |s| ==> s[i] <= s[j]
  }

  lemma TailMultiset<T>(s: seq<T>)
    requires s != []
    ensures s == [s[0]] + s[1..] && multiset(s[1..]) == multiset(s) - multiset{s[0]}
  {
    assert s == [s[0]] + s[1..];
  }

  lemma HeadBelow(a: seq<nat>, b: seq<nat>)
    requires a != [] && Ascending(b) && multiset(a) == multiset(b)
    ensures b != [] && b[0] <= a[0]
  {
    assert a[0] in multiset(a);
    assert a[0] in multiset(b);
    var j :| 0 <= j < |b| && b[j] == a[0];
  }

  lemma {:induction false} AscendingUnique(a: seq<nat>, b: seq<nat>)
    requires Ascending(a) && Ascending(b) && multiset(a) == multiset(b)
    ensures a == b
  {
    if a == [] {
      if b != [] { HeadBelow(b, a); }
    } else {
      HeadBelow(a, b);
      HeadBelow(b, a);
      TailMultiset(a);
      TailMultiset(b);
      AscendingTail(a);
      AscendingTail(b);
      AscendingUnique(a[1..], b[1..]);
    }
  }

  lemma AscendingTail(s: seq<nat>)
    requires s != [] && Ascending(s)
    ensures Ascending(s[1..])
  {
  }

  /** Sorting any rearrangement of 0..n-1 by number gives them in order. */
  lemma SortDense(s: seq<nat>, cmp: (nat, nat) -> int)
    requires multiset(s) == multiset(Iota(|s|))
    requires forall a: nat, b: nat :: cmp(a, b) <= 0 <==> a <= b
    ensures Sort(s, cmp) == Iota(|s|)
  {
    var le := (a: nat, b: nat) => a <= b;
    SortSorted(s, cmp, le);
    var r := Sort(s, cmp);
    forall i, j | 0 <= i < j < |r|
      ensures r[i] <= r[j]
    {
      SortedAt(r, le, i, j);
    }
    SortPermutes(s, cmp);
    AscendingUnique(r, Iota(|s|));
  }
}
