/**
  The application-order list of a uthash table: hash handles chained through `next` and `prev`, and
  the in-place merge sort that relinks them.
 */
module HashList {
  import opened Seqs
  import opened MergeSort

  /** The hash handle embedded in every element of a table. */
  class Handle<T> {
    const elmt: T
    const key: int
    var hashv: nat
    var next: Handle?<T>
    var prev: Handle?<T>
    var hhNext: Handle?<T>
    var hhPrev: Handle?<T>

    constructor (elmt: T, key: int)
      ensures this.elmt == elmt && this.key == key
    {
      this.elmt := elmt;
      this.key := key;
      hashv := 0;
      next, prev, hhNext, hhPrev := null, null, null, null;
    }
  }

  ghost predicate Distinct<T>(s: seq<Handle<T>>) {
    forall i, j :: 0 <= i < j < |s| ==> s[i] != s[j]
  }

  ghost predicate Disjoint<T>(a: seq<Handle<T>>, b: seq<Handle<T>>) {
    forall i, j :: 0 <= i < |a| && 0 <= j < |b| ==> a[i] != b[j]
  }

  ghost predicate Inside<T>(s: seq<Handle<T>>, dom: set<Handle<T>>) {
    forall i :: 0 <= i < |s| ==> s[i] in dom
  }

  function First<T>(s: seq<Handle<T>>): Handle?<T> { if s == [] then null else s[0] }

  function Last<T>(s: seq<Handle<T>>): Handle?<T> { if s == [] then null else s[|s| - 1] }

  /** Each handle's `next` is the handle after it. */
  ghost predicate Fwd<T>(s: seq<Handle<T>>)
    reads s`next
  {
    forall i :: 0 <= i < |s| - 1 ==> s[i].next == s[i + 1]
  }

  ghost predicate Ends<T>(s: seq<Handle<T>>)
    reads s`next
  {
    s != [] ==> s[|s| - 1].next == null
  }

  /** Each handle's `prev` is the handle before it. */
  ghost predicate Bwd<T>(s: seq<Handle<T>>)
    reads s`prev
  {
    (forall i :: 0 < i < |s| ==> s[i].prev == s[i - 1]) && (s != [] ==> s[0].prev == null)
  }

  /** `s` is a well-formed doubly linked list: `next` and `prev` are mutual inverses. */
  ghost predicate Linked<T>(s: seq<Handle<T>>)
    reads s`next, s`prev
  {
    Distinct(s) && Fwd(s) && Ends(s) && Bwd(s)
  }

  /** The sorted part `done`, the left run `run` and everything else `rest`, mid-merge. */
  ghost predicate Merging<T>(done: seq<Handle<T>>, run: seq<Handle<T>>, rest: seq<Handle<T>>)
    reads done`next, done`prev, run`next, rest`next
  {
    && Distinct(done) && Distinct(run) && Distinct(rest)
    && Disjoint(done, run) && Disjoint(done, rest) && Disjoint(run, rest)
    && Fwd(done) && Bwd(done) && Fwd(run) && Fwd(rest) && Ends(rest)
  }

  /** Steps `q` past a run of at most `insize` handles. */
  method SplitRun<T>(p: Handle<T>, insize: nat, ghost s: seq<Handle<T>>) returns (q: Handle?<T>, psize: nat)
    requires insize > 0 && s != [] && p == s[0] && Fwd(s) && Ends(s)
    ensures psize == Min(insize, |s|) && q == First(s[psize..])
  {
    q := p;
    psize := 0;
    var i := 0;
    while i < insize
      invariant 0 <= i <= insize && psize == i < |s| && q == s[i]
    {
      psize := psize + 1;
      assert i < |s| - 1 ==> s[i].next == s[i + 1];
      q := q.next;
      if q == null {
        break;
      }
      assert q == s[i + 1];
      i := i + 1;
    }
  }

  /** `e` is at none of the three places. */
  ghost predicate Loose<T>(e: Handle<T>, done: seq<Handle<T>>, run: seq<Handle<T>>, rest: seq<Handle<T>>) {
    e !in done && e !in run && e !in rest
  }

  lemma TakeLeft<T>(done: seq<Handle<T>>, run: seq<Handle<T>>, rest: seq<Handle<T>>, dom: set<Handle<T>>)
    requires Merging(done, run, rest) && Inside(run, dom) && run != []
    ensures Merging(done, run[1..], rest) && Loose(run[0], done, run[1..], rest)
    ensures |run| > 1 ==> run[0].next == run[1]
    ensures run[0] in dom && Inside(run[1..], dom)
  {
  }

  lemma TakeRight<T>(done: seq<Handle<T>>, run: seq<Handle<T>>, rest: seq<Handle<T>>, dom: set<Handle<T>>)
    requires Merging(done, run, rest) && Inside(rest, dom) && rest != []
    ensures Merging(done, run, rest[1..]) && Loose(rest[0], done, run, rest[1..])
    ensures rest[0].next == First(rest[1..])
    ensures rest[0] in dom && Inside(rest[1..], dom)
  {
  }

  /** Appends `e` to the list being built. */
  method Emit<T>(e: Handle<T>, list: Handle?<T>, tail: Handle?<T>, ghost done: seq<Handle<T>>,
                 ghost run: seq<Handle<T>>, ghost rest: seq<Handle<T>>, ghost dom: set<Handle<T>>)
    returns (list': Handle?<T>, tail': Handle?<T>)
    requires list == First(done) && tail == Last(done) && Inside(done, dom) && e in dom
    requires Merging(done, run, rest) && Loose(e, done, run, rest)
    modifies dom`next, dom`prev
    ensures list' == First(done + [e]) && tail' == Last(done + [e])
    ensures Merging(done + [e], run, rest) && Inside(done + [e], dom)
  {
    list', tail' := list, e;
    if tail != null {
      tail.next := e;
    } else {
      list' := e;
    }
    e.prev := tail;
    assert Fwd(run) && Fwd(rest) && Ends(rest);
    ghost var all := done + [e];
    forall i | 0 < i < |all|
      ensures all[i].prev == all[i - 1]
    {
      if i < |done| { assert done[i] in done && all[i] == done[i]; }
    }
    if done != [] { assert done[0] in done && all[0] == done[0]; }
    assert Bwd(all);
  }

  /** What the merge has still to produce. */
  ghost function Pending<T>(run: seq<Handle<T>>, rest: seq<Handle<T>>, qsize: nat, cmp: (Handle<T>, Handle<T>) -> int)
    : seq<Handle<T>> {
    Merge(run, Run(rest, qsize), cmp)
  }

  /** Merges the run of `psize` handles at `p` with the run of at most `qsize` handles at `q`. */
  method MergeRuns<T>(list0: Handle?<T>, tail0: Handle?<T>, p0: Handle<T>, psize0: nat, q0: Handle?<T>, qsize0: nat,
                      cmp: (Handle<T>, Handle<T>) -> int, ghost done0: seq<Handle<T>>, ghost run0: seq<Handle<T>>,
                      ghost rest0: seq<Handle<T>>, ghost dom: set<Handle<T>>)
    returns (list: Handle?<T>, tail: Handle?<T>, q: Handle?<T>, ghost done: seq<Handle<T>>)
    requires Merging(done0, run0, rest0) && Inside(done0, dom) && Inside(run0, dom) && Inside(rest0, dom)
    requires list0 == First(done0) && tail0 == Last(done0)
    requires psize0 == |run0| > 0 && p0 == run0[0] && q0 == First(rest0)
    modifies dom`next, dom`prev
    ensures done == done0 + Pending(run0, rest0, qsize0, cmp) && Inside(done, dom)
    ensures q == First(After(rest0, qsize0)) && Merging(done, [], After(rest0, qsize0))
    ensures list == First(done) && tail == Last(done)
  {
    var p: Handle?<T> := p0;
    var psize, qsize := psize0, qsize0;
    list, tail, q := list0, tail0, q0;
    done := done0;
    ghost var run, rest := run0, rest0;
    hide Merging, Inside, Pending;
    ghost var goal := done0 + Pending(run0, rest0, qsize0, cmp);
    while psize > 0 || (qsize > 0 && q != null)
      invariant psize == |run| && (run != [] ==> p == run[0]) && q == First(rest)
      invariant list == First(done) && tail == Last(done)
      invariant Merging(done, run, rest) && Inside(done, dom) && Inside(run, dom) && Inside(rest, dom)
      invariant After(rest0, qsize0) == After(rest, qsize)
      invariant done + Pending(run, rest, qsize, cmp) == goal
      decreases |run| + |rest|
    {
      var e: Handle<T>;
      ghost var left := run != [] && (qsize == 0 || rest == [] || cmp(run[0], rest[0]) <= 0);
      PendingStep(done, run, rest, qsize, cmp);
      if left { TakeLeft(done, run, rest, dom); } else { TakeRight(done, run, rest, dom); }
      if psize == 0 {
        e := q;
        q := q.next;
        qsize := qsize - 1;
      } else if qsize == 0 || q == null {
        e := p;
        p := p.next;
        psize := psize - 1;
      } else if cmp(p, q) <= 0 {
        e := p;
        p := p.next;
        psize := psize - 1;
      } else {
        e := q;
        q := q.next;
        qsize := qsize - 1;
      }
      if left { run := run[1..]; } else { rest := rest[1..]; }
      list, tail := Emit(e, list, tail, done, run, rest, dom);
      done := done + [e];
    }
    PendingNone(done, rest, qsize, cmp);
  }

  lemma PendingNone<T>(done: seq<Handle<T>>, rest: seq<Handle<T>>, qsize: nat, cmp: (Handle<T>, Handle<T>) -> int)
    requires qsize == 0 || rest == []
    ensures done + Pending([], rest, qsize, cmp) == done && After(rest, qsize) == rest
  {
    assert Run(rest, qsize) == [];
  }

  lemma PendingStep<T>(done: seq<Handle<T>>, run: seq<Handle<T>>, rest: seq<Handle<T>>, qsize: nat,
                       cmp: (Handle<T>, Handle<T>) -> int)
    requires run != [] || (qsize > 0 && rest != [])
    ensures if run != [] && (qsize == 0 || rest == [] || cmp(run[0], rest[0]) <= 0)
            then done + Pending(run, rest, qsize, cmp) == done + [run[0]] + Pending(run[1..], rest, qsize, cmp)
            else && done + Pending(run, rest, qsize, cmp) == done + [rest[0]] + Pending(run, rest[1..], qsize - 1, cmp)
                 && After(rest, qsize) == After(rest[1..], qsize - 1)
  {
    var right := Run(rest, qsize);
    MergeStep(run, right, cmp);
    if run != [] && (qsize == 0 || rest == [] || cmp(run[0], rest[0]) <= 0) {
      CatAssoc(done, [run[0]], Pending(run[1..], rest, qsize, cmp));
    } else {
      assert right[1..] == Run(rest[1..], qsize - 1);
      CatAssoc(done, [rest[0]], Pending(run, rest[1..], qsize - 1, cmp));
    }
  }

  lemma MergeStep<T>(run: seq<T>, right: seq<T>, cmp: (T, T) -> int)
    requires run != [] || right != []
    ensures Merge(run, right, cmp)
         == if run != [] && (right == [] || cmp(run[0], right[0]) <= 0)
            then [run[0]] + Merge(run[1..], right, cmp) else [right[0]] + Merge(run, right[1..], cmp)
  {
    if run == [] {
      HeadTail(right);
    } else if right == [] {
      HeadTail(run);
      MergeNothing(run[1..], cmp);
    }
  }

  lemma HeadTail<T>(s: seq<T>)
    requires s != []
    ensures s == [s[0]] + s[1..]
  {
  }

  lemma MergeNothing<T>(s: seq<T>, cmp: (T, T) -> int)
    ensures Merge(s, [], cmp) == s
  {
  }

  lemma CutRun<T>(done: seq<Handle<T>>, rest: seq<Handle<T>>, k: nat)
    requires Merging(done, [], rest)
    ensures Merging(done, Run(rest, k), After(rest, k))
  {
    var n := Min(k, |rest|);
    assert forall i :: n <= i < |rest| ==> rest[i] == rest[n..][i - n];
  }

  /** Merges the next two runs of `insize` handles. */
  method MergePair<T>(list0: Handle?<T>, tail0: Handle?<T>, p: Handle<T>, insize: nat,
                      cmp: (Handle<T>, Handle<T>) -> int, ghost done0: seq<Handle<T>>, ghost rest: seq<Handle<T>>,
                      ghost dom: set<Handle<T>>)
    returns (list: Handle?<T>, tail: Handle?<T>, q: Handle?<T>, ghost done: seq<Handle<T>>)
    requires insize > 0 && Merging(done0, [], rest) && Inside(done0, dom) && Inside(rest, dom)
    requires rest != [] && p == rest[0] && list0 == First(done0) && tail0 == Last(done0)
    modifies dom`next, dom`prev
    ensures var right := After(rest, insize);
            && done == done0 + Merge(Run(rest, insize), Run(right, insize), cmp) && Inside(done, dom)
            && q == First(After(right, insize)) && Merging(done, [], After(right, insize))
            && Inside(After(right, insize), dom)
    ensures list == First(done) && tail == Last(done)
  {
    var psize;
    q, psize := SplitRun(p, insize, rest);
    CutRun(done0, rest, insize);
    list, tail, q, done := MergeRuns(list0, tail0, p, psize, q, insize, cmp, done0, Run(rest, insize),
                                     After(rest, insize), dom);
  }

  lemma StartMerge<T>(s: seq<Handle<T>>, dom: set<Handle<T>>)
    requires Distinct(s) && Fwd(s) && Ends(s)
    ensures Merging([], [], s) && Inside([], dom)
  {
  }

  lemma PassNone<T>(k: nat, cmp: (T, T) -> int)
    requires k > 0
    ensures Pass([], k, cmp) == []
  {
  }

  /** Handling `rest` completes a pass over `s` of which `done` is the result so far. */
  ghost predicate Passing<T>(s: seq<Handle<T>>, done: seq<Handle<T>>, rest: seq<Handle<T>>, insize: nat,
                             cmp: (Handle<T>, Handle<T>) -> int)
    requires insize > 0
  {
    done + Pass(rest, insize, cmp) == Pass(s, insize, cmp)
  }

  /** One pass: merges the runs of `insize` handles in pairs and counts the merges. */
  method SortPass<T>(list0: Handle<T>, insize: nat, cmp: (Handle<T>, Handle<T>) -> int, ghost s: seq<Handle<T>>,
                     ghost dom: set<Handle<T>>)
    returns (list: Handle<T>, tail: Handle<T>, nmerges: nat, ghost done: seq<Handle<T>>)
    requires insize > 0 && s != [] && list0 == s[0]
    requires Distinct(s) && Fwd(s) && Ends(s) && Inside(s, dom)
    modifies dom`next, dom`prev
    ensures done == Pass(s, insize, cmp) && Linked(done) && Inside(done, dom)
    ensures list == First(done) && tail == Last(done)
    ensures nmerges <= 1 <==> |s| <= 2 * insize
  {
    hide Merging, Inside, Pass, Merge, Linked;
    StartMerge(s, dom);
    PassNone<Handle<T>>(insize, cmp);
    var p: Handle?<T>, l: Handle?<T>, t: Handle?<T> := list0, null, null;
    nmerges := 0;
    done := [];
    ghost var rest := s;
    while p != null
      invariant p == First(rest) && l == First(done) && t == Last(done)
      invariant Merging(done, [], rest) && Inside(done, dom) && Inside(rest, dom)
      invariant Passing(s, done, rest, insize, cmp)
      invariant nmerges == 0 ==> rest == s
      invariant nmerges == 1 ==> |rest| == |s| - Min(2 * insize, |s|)
      invariant nmerges > 1 ==> |s| > 2 * insize
      decreases |rest|
    {
      nmerges := nmerges + 1;
      PassStep(s, done, rest, insize, cmp);
      l, t, p, done := MergePair(l, t, p, insize, cmp, done, rest, dom);
      rest := After(After(rest, insize), insize);
    }
    Close(t, done, dom);
    list, tail := l, t;
  }

  method Close<T>(tail: Handle<T>, ghost done: seq<Handle<T>>, ghost dom: set<Handle<T>>)
    requires Merging(done, [], []) && Inside(done, dom) && tail == Last(done)
    modifies dom`next
    ensures Linked(done)
  {
    tail.next := null;
  }

  lemma PassStep<T>(s: seq<Handle<T>>, done: seq<Handle<T>>, rest: seq<Handle<T>>, insize: nat,
                    cmp: (Handle<T>, Handle<T>) -> int)
    requires insize > 0 && rest != []
    requires Passing(s, done, rest, insize, cmp)
    ensures var right := After(rest, insize);
            && Passing(s, done + Merge(Run(rest, insize), Run(right, insize), cmp), After(right, insize), insize, cmp)
            && |After(right, insize)| == |rest| - Min(2 * insize, |rest|)
  {
    var right := After(rest, insize);
    CatAssoc(done, Merge(Run(rest, insize), Run(right, insize), cmp), Pass(After(right, insize), insize, cmp));
  }

  /** The whole sort: relinks the list so that it reads as the sorted sequence. */
  method SortList<T>(head: Handle<T>, cmp: (Handle<T>, Handle<T>) -> int, ghost s: seq<Handle<T>>,
                     ghost dom: set<Handle<T>>)
    returns (head': Handle<T>, tail': Handle<T>, ghost r: seq<Handle<T>>)
    requires s != [] && head == s[0] && Linked(s) && Inside(s, dom)
    modifies dom`next, dom`prev
    ensures r == Sort(s, cmp) && Linked(r) && Inside(r, dom)
    ensures head' == First(r) && tail' == Last(r)
  {
    var insize, looping := 1, true;
    head', tail' := head, head;
    r := s;
    while looping
      invariant insize > 0 && r != [] && |r| == |s| && head' == r[0]
      invariant Linked(r) && Inside(r, dom)
      invariant if looping then SortFrom(r, insize, cmp) == Sort(s, cmp) else r == Sort(s, cmp) && tail' == Last(r)
      decreases looping, |s| - insize
    {
      var nmerges;
      head', tail', nmerges, r := SortPass(head', insize, cmp, r, dom);
      if nmerges <= 1 { looping := false; }
      insize := insize * 2;
    }
  }
}
