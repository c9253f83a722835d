/** The uthash table the builder keeps its nodes in: an ordered list and bucket chains over the same handles. */
module UtHash {
  import opened Seqs
  import opened Bits
  import opened MergeSort
  import opened HashList

  const INITIAL_NUM_BUCKETS := 32
  const INITIAL_NUM_BUCKETS_LOG2 := 5
  const BKT_CAPACITY_THRESH := 10

  datatype Bucket<T> = Bucket(hhHead: Handle?<T>, count: nat, expandMult: nat)

  // ---------- counting ----------

  function Sum(cs: seq<nat>): nat {
    if cs == [] then 0 else cs[0] + Sum(cs[1..])
  }

  /** How many items sit beyond position `ideal` of their chain. */
  function Over(cs: seq<nat>, ideal: nat): nat {
    if cs == [] then 0 else Max(0, cs[0] - ideal) + Over(cs[1..], ideal)
  }

  lemma {:induction false} CountOne(cs: seq<nat>, b: nat, c: nat, ideal: nat)
    requires b < |cs|
    ensures Sum(cs[b := c]) == Sum(cs) - cs[b] + c
    ensures Over(cs[b := c], ideal) == Over(cs, ideal) - Max(0, cs[b] - ideal) + Max(0, c - ideal)
  {
    if b == 0 {
      assert cs[b := c][1..] == cs[1..];
    } else {
      CountOne(cs[1..], b - 1, c, ideal);
      assert cs[b := c][1..] == cs[1..][b - 1 := c];
    }
  }

  lemma {:induction false} CountNone(cs: seq<nat>, ideal: nat)
    requires forall b :: 0 <= b < |cs| ==> cs[b] == 0
    ensures Sum(cs) == 0 && Over(cs, ideal) == 0
  {
    if cs != [] { CountNone(cs[1..], ideal); }
  }

  function Counts<T>(bk: seq<Bucket<T>>): (cs: seq<nat>)
    ensures |cs| == |bk| && forall b :: 0 <= b < |bk| ==> cs[b] == bk[b].count
  {
    seq(|bk|, b requires 0 <= b < |bk| => bk[b].count)
  }

  // ---------- chains ----------

  /** `hhNext` leads through `c` to the end of the chain. */
  ghost predicate ChainFwd<T>(c: seq<Handle<T>>)
    reads c`hhNext
  {
    (forall i :: 0 <= i < |c| - 1 ==> c[i].hhNext == c[i + 1]) && (c != [] ==> c[|c| - 1].hhNext == null)
  }

  ghost predicate ChainBwd<T>(c: seq<Handle<T>>)
    reads c`hhPrev
  {
    (forall i :: 0 < i < |c| ==> c[i].hhPrev == c[i - 1]) && (c != [] ==> c[0].hhPrev == null)
  }

  /** Bucket `b` of `n` holds exactly the chain `c`, all of whose handles belong there. */
  ghost predicate Holds<T>(bkt: Bucket<T>, c: seq<Handle<T>>, b: nat, n: nat)
    requires n > 0
    reads c`hhNext, c`hhPrev, c`hashv
  {
    && bkt.hhHead == First(c) && bkt.count == |c|
    && Distinct(c) && ChainFwd(c) && ChainBwd(c)
    && forall i :: 0 <= i < |c| ==> c[i].hashv % n == b
  }

  /** Every bucket holds its chain, and the chains hold exactly the handles in `dom`. */
  ghost predicate Bucketed<T>(bk: seq<Bucket<T>>, chains: seq<seq<Handle<T>>>, dom: set<Handle<T>>)
    reads dom`hhNext, dom`hhPrev, dom`hashv
  {
    && |bk| == |chains| > 0
    && (forall b :: 0 <= b < |bk| ==> Inside(chains[b], dom) && Holds(bk[b], chains[b], b, |bk|))
    && (forall h :: h in dom ==> h in chains[h.hashv % |bk|])
  }

  /** Links `e` in front of the chain `c`. */
  method LinkFront<T>(e: Handle<T>, first: Handle?<T>, ghost c: seq<Handle<T>>)
    requires first == First(c) && e !in c && Distinct(c) && ChainFwd(c) && ChainBwd(c)
    modifies e`hhNext, e`hhPrev, c`hhPrev
    ensures Distinct([e] + c) && ChainFwd([e] + c) && ChainBwd([e] + c)
  {
    e.hhPrev := null;
    e.hhNext := first;
    if first != null { first.hhPrev := e; }
    ghost var c' := [e] + c;
    forall i | 0 <= i < |c'| - 1
      ensures c'[i].hhNext == c'[i + 1] && c'[i + 1].hhPrev == c'[i]
    {
      assert c'[i + 1] == c[i] && c[i] in c;
      if i > 0 { assert c'[i] == c[i - 1] && c[i - 1] in c; }
    }
    if c != [] { assert c'[|c|] == c[|c| - 1] && c[|c| - 1] in c; }
  }

  /** Every bucket but `b` holds its chain, and every handle in `dom` is in its chain. */
  ghost predicate Others<T>(bk: seq<Bucket<T>>, chains: seq<seq<Handle<T>>>, dom: set<Handle<T>>, b: nat)
    requires |bk| > 0
    reads dom`hhNext, dom`hhPrev, dom`hashv
  {
    && |bk| == |chains|
    && (forall b' :: 0 <= b' < |bk| && b' != b ==> Inside(chains[b'], dom) && Holds(bk[b'], chains[b'], b', |bk|))
    && (forall h :: h in dom ==> h in chains[h.hashv % |bk|])
  }

  /** Giving bucket `b` the chain `c` and leaving the others makes a table over `dom'`. */
  lemma PutBucket<T>(bk: seq<Bucket<T>>, chains: seq<seq<Handle<T>>>, dom: set<Handle<T>>, b: nat, c: seq<Handle<T>>,
                     bkt: Bucket<T>, dom': set<Handle<T>>)
    requires 0 <= b < |bk| && Others(bk, chains, dom, b) && Inside(c, dom') && Holds(bkt, c, b, |bk|)
    requires forall b' :: 0 <= b' < |bk| && b' != b ==> Inside(chains[b'], dom')
    requires forall h :: h in dom' ==> h in c || (h.hashv % |bk| != b && h in dom)
    ensures Bucketed(bk[b := bkt], chains[b := c], dom')
  {
    var n, bk', chains' := |bk|, bk[b := bkt], chains[b := c];
    forall b' | 0 <= b' < n
      ensures Inside(chains'[b'], dom') && Holds(bk'[b'], chains'[b'], b', n)
    {
      if b' != b { assert Inside(chains[b'], dom); }
    }
    forall h | h in dom'
      ensures h in chains'[h.hashv % n]
    {
      if h in c {
        var i :| 0 <= i < |c| && c[i] == h;
      } else {
        assert h in chains[h.hashv % n];
      }
    }
  }

  /** What a table says about one bucket and about the others. */
  lemma Split<T>(bk: seq<Bucket<T>>, chains: seq<seq<Handle<T>>>, dom: set<Handle<T>>, b: nat)
    requires Bucketed(bk, chains, dom) && b < |bk|
    ensures Others(bk, chains, dom, b) && Inside(chains[b], dom) && AllIn(chains[b], b, |bk|)
    ensures Distinct(chains[b]) && ChainFwd(chains[b]) && ChainBwd(chains[b])
    ensures bk[b].hhHead == First(chains[b]) && bk[b].count == |chains[b]|
    ensures forall b', h :: 0 <= b' < |bk| && b' != b && h in chains[b'] ==> h in dom && h !in chains[b]
  {
    assert Holds(bk[b], chains[b], b, |bk|);
    forall b', h | 0 <= b' < |bk| && b' != b && h in chains[b']
      ensures h in dom && h !in chains[b]
    {
      assert Holds(bk[b'], chains[b'], b', |bk|) && Inside(chains[b'], dom);
    }
  }

  ghost predicate AllIn<T>(c: seq<Handle<T>>, b: nat, n: nat)
    requires n > 0
    reads c`hashv
  {
    forall i :: 0 <= i < |c| ==> c[i].hashv % n == b
  }

  /** Links `e` in front of chain `b`; the other buckets keep their chains. */
  method LinkInBucket<T>(e: Handle<T>, first: Handle?<T>, b: nat, ghost bk: seq<Bucket<T>>,
                         ghost chains: seq<seq<Handle<T>>>, ghost dom: set<Handle<T>>)
    requires Bucketed(bk, chains, dom) && e !in dom && b < |bk| && first == First(chains[b])
    modifies e`hhNext, e`hhPrev, chains[b]`hhPrev
    ensures Distinct([e] + chains[b]) && ChainFwd([e] + chains[b]) && ChainBwd([e] + chains[b])
    ensures Others(bk, chains, dom, b) && Inside(chains[b], dom)
    ensures forall h :: h in dom ==> h.hashv == old(h.hashv)
  {
    Split(bk, chains, dom, b);
    hide Bucketed, Holds, ChainFwd, ChainBwd, Distinct;
    LinkFront(e, first, chains[b]);
  }

  /** Puts `e` at the front of its bucket's chain. */
  method Prepend<T>(e: Handle<T>, buckets: array<Bucket<T>>, b: nat, expandMult: nat,
                    ghost chains: seq<seq<Handle<T>>>, ghost dom: set<Handle<T>>)
    returns (ghost chains': seq<seq<Handle<T>>>)
    requires Bucketed(buckets[..], chains, dom) && e !in dom && b < buckets.Length && b == e.hashv % buckets.Length
    modifies buckets, dom`hhPrev, e`hhNext, e`hhPrev
    ensures chains' == chains[b := [e] + chains[b]]
    ensures Bucketed(buckets[..], chains', dom + {e})
    ensures buckets[..] == old(buckets[..])[b := Bucket(e, old(buckets[b].count) + 1, expandMult)]
  {
    hide Bucketed, ChainFwd, ChainBwd, Distinct, Others, AllIn, Holds;
    ghost var bk := buckets[..];
    Split(bk, chains, dom, b);
    var first := buckets[b].hhHead;
    LinkInBucket(e, first, b, bk, chains, dom);
    buckets[b] := Bucket(e, buckets[b].count + 1, expandMult);
    chains' := chains[b := [e] + chains[b]];
    FrontBucket(e, bk, chains, dom, b, buckets[b]);
    assert buckets[..] == bk[b := buckets[b]];
  }

  /** A table whose bucket `b` has got `e` in front. */
  lemma FrontBucket<T>(e: Handle<T>, bk: seq<Bucket<T>>, chains: seq<seq<Handle<T>>>, dom: set<Handle<T>>, b: nat,
                       bkt: Bucket<T>)
    requires b < |bk| && Others(bk, chains, dom, b) && e !in dom && e.hashv % |bk| == b && Inside(chains[b], dom)
    requires AllIn(chains[b], b, |bk|) && bkt.hhHead == e && bkt.count == |chains[b]| + 1
    requires Distinct([e] + chains[b]) && ChainFwd([e] + chains[b]) && ChainBwd([e] + chains[b])
    ensures Bucketed(bk[b := bkt], chains[b := [e] + chains[b]], dom + {e})
  {
    hide Bucketed, ChainFwd, ChainBwd, Distinct;
    PutBucket(bk, chains, dom, b, [e] + chains[b], bkt, dom + {e});
  }

  /** The chains hold the handles of `dom`, each where its hash value says. */
  ghost predicate Partition<T>(chains: seq<seq<Handle<T>>>, dom: set<Handle<T>>)
    reads dom`hashv
  {
    && |chains| > 0
    && (forall b :: 0 <= b < |chains| ==>
         Inside(chains[b], dom) && Distinct(chains[b]) && AllIn(chains[b], b, |chains|))
    && (forall h :: h in dom ==> h in chains[h.hashv % |chains|])
  }

  /** `rest` ends chain `i`, and exactly the handles before it have moved. */
  ghost predicate Moved<T>(chains: seq<seq<Handle<T>>>, dom: set<Handle<T>>, i: nat, rest: seq<Handle<T>>,
                           moved: set<Handle<T>>)
    reads dom`hashv
  {
    && Partition(chains, dom) && i < |chains| && moved <= dom
    && Inside(rest, dom) && Distinct(rest) && AllIn(rest, i, |chains|)
    && (forall h :: h in dom ==> (h in moved <==> h.hashv % |chains| < i || (h.hashv % |chains| == i && h !in rest)))
  }

  /** The links still to be followed are intact. */
  ghost predicate Intact<T>(chains: seq<seq<Handle<T>>>, dom: set<Handle<T>>, i: nat, rest: seq<Handle<T>>)
    reads dom`hhNext
  {
    && Inside(rest, dom) && ChainFwd(rest)
    && forall b :: i < b < |chains| ==> Inside(chains[b], dom) && ChainFwd(chains[b])
  }

  lemma StartMoving<T>(bk: seq<Bucket<T>>, chains: seq<seq<Handle<T>>>, dom: set<Handle<T>>)
    requires Bucketed(bk, chains, dom)
    ensures Moved(chains, dom, 0, chains[0], {}) && Intact(chains, dom, 0, chains[0])
    ensures |bk| == |chains| && forall b :: 0 <= b < |bk| ==> bk[b].hhHead == First(chains[b])
  {
    forall b | 0 <= b < |chains|
      ensures Distinct(chains[b]) && AllIn(chains[b], b, |chains|) && ChainFwd(chains[b])
              && bk[b].hhHead == First(chains[b])
    {
      assert Holds(bk[b], chains[b], b, |bk|);
    }
  }

  lemma NextBucket<T>(chains: seq<seq<Handle<T>>>, dom: set<Handle<T>>, i: nat, moved: set<Handle<T>>)
    requires Moved(chains, dom, i, [], moved) && Intact(chains, dom, i, []) && i + 1 < |chains|
    ensures Moved(chains, dom, i + 1, chains[i + 1], moved) && Intact(chains, dom, i + 1, chains[i + 1])
  {
    forall h | h in dom
      ensures h.hashv % |chains| == i + 1 ==> h in chains[i + 1]
    {
      assert h in chains[h.hashv % |chains|];
    }
  }

  lemma AllMoved<T>(chains: seq<seq<Handle<T>>>, dom: set<Handle<T>>, i: nat, moved: set<Handle<T>>)
    requires Moved(chains, dom, i, [], moved) && i + 1 == |chains|
    ensures moved == dom
  {
    forall h | h in dom
      ensures h in moved
    {
      assert h.hashv % |chains| <= i;
    }
  }

  lemma IntactOne<T>(chains: seq<seq<Handle<T>>>, dom: set<Handle<T>>, i: nat, rest: seq<Handle<T>>)
    requires Intact(chains, dom, i, rest) && rest != []
    ensures Intact(chains, dom, i, rest[1..]) && rest[0] in dom && rest[0].hhNext == First(rest[1..])
  {
  }

  lemma MovedOn<T>(chains: seq<seq<Handle<T>>>, dom: set<Handle<T>>, i: nat, rest: seq<Handle<T>>,
                   moved: set<Handle<T>>)
    requires Moved(chains, dom, i, rest, moved) && rest != []
    ensures Moved(chains, dom, i, rest[1..], moved + {rest[0]})
    ensures rest[0] !in moved && rest[0] !in rest[1..] && moved <= dom
    ensures forall b :: i < b < |chains| ==> rest[0] !in chains[b]
  {
    var e := rest[0];
    forall h | h in dom
      ensures h in moved + {e} <==> h.hashv % |chains| < i || (h.hashv % |chains| == i && h !in rest[1..])
    {
      assert h in rest <==> h == e || h in rest[1..];
      assert e !in rest[1..];
    }
  }

  lemma MovedOne<T>(chains: seq<seq<Handle<T>>>, dom: set<Handle<T>>, i: nat, rest: seq<Handle<T>>,
                    moved: set<Handle<T>>)
    requires Moved(chains, dom, i, rest, moved) && Intact(chains, dom, i, rest) && rest != []
    ensures Moved(chains, dom, i, rest[1..], moved + {rest[0]}) && Intact(chains, dom, i, rest[1..])
    ensures rest[0] in dom && rest[0] !in moved && rest[0] !in rest[1..] && rest[0].hhNext == First(rest[1..])
    ensures moved <= dom && forall b :: i < b < |chains| ==> rest[0] !in chains[b]
  {
    hide Moved, Intact;
    IntactOne(chains, dom, i, rest);
    MovedOn(chains, dom, i, rest, moved);
  }

  lemma BucketCount<T>(bk: seq<Bucket<T>>, chains: seq<seq<Handle<T>>>, dom: set<Handle<T>>)
    requires Bucketed(bk, chains, dom)
    ensures |chains| == |bk|
  {
  }

  /** Puts `e`, the first handle left of old chain `i`, in front of its new chain. */
  method Relocate<T>(e: Handle<T>, newBuckets: array<Bucket<T>>, b: nat, mult: nat, ghost nc: seq<seq<Handle<T>>>,
                     ghost moved: set<Handle<T>>, ghost chains: seq<seq<Handle<T>>>, ghost dom: set<Handle<T>>,
                     ghost i: nat, ghost rest: seq<Handle<T>>)
    returns (ghost nc': seq<seq<Handle<T>>>)
    requires Bucketed(newBuckets[..], nc, moved) && moved <= dom && e in dom && e !in moved && e !in rest
    requires Moved(chains, dom, i, rest, moved + {e}) && Intact(chains, dom, i, rest)
    requires forall b :: i < b < |chains| ==> e !in chains[b]
    requires b < newBuckets.Length && b == e.hashv % newBuckets.Length
    modifies newBuckets, dom`hhNext, dom`hhPrev
    ensures b < |nc| && nc' == nc[b := [e] + nc[b]] && Bucketed(newBuckets[..], nc', moved + {e})
    ensures Moved(chains, dom, i, rest, moved + {e}) && Intact(chains, dom, i, rest)
    ensures newBuckets[..] == old(newBuckets[..])[b := Bucket(e, old(newBuckets[b].count) + 1, mult)]
  {
    hide Bucketed, ChainFwd, Moved;
    BucketCount(newBuckets[..], nc, moved);
    nc' := Prepend(e, newBuckets, b, mult, nc, moved);
  }

  /**
    One step of the expansion: the handle heads its new chain, whose count grows; a count beyond the
    ideal length sets the chain's multiplier.
   */
  method MoveOne<T>(e: Handle<T>, newBuckets: array<Bucket<T>>, ideal: nat, ghost nc: seq<seq<Handle<T>>>,
                    ghost moved: set<Handle<T>>, ghost chains: seq<seq<Handle<T>>>, ghost dom: set<Handle<T>>,
                    ghost i: nat, ghost rest: seq<Handle<T>>)
    returns (over: bool, ghost nc': seq<seq<Handle<T>>>)
    requires newBuckets.Length > 0 && Bucketed(newBuckets[..], nc, moved)
    requires Moved(chains, dom, i, rest, moved) && Intact(chains, dom, i, rest)
    requires ideal > 0 && rest != [] && e == rest[0] && Sum(Counts(newBuckets[..])) == |moved|
    modifies newBuckets, dom`hhNext, dom`hhPrev
    ensures Bucketed(newBuckets[..], nc', moved + {e})
    ensures var b := e.hashv % newBuckets.Length;
            b < |nc| && nc' == nc[b := [e] + nc[b]] && Refiled(old(newBuckets[..]), newBuckets[..], b, e, ideal, over)
    ensures Moved(chains, dom, i, rest[1..], moved + {e}) && Intact(chains, dom, i, rest[1..])
    ensures Sum(Counts(newBuckets[..])) == |moved + {e}|
    ensures Over(Counts(newBuckets[..]), ideal) == old(Over(Counts(newBuckets[..]), ideal)) + if over then 1 else 0
  {
    hide Bucketed, Intact, Moved, Sum, Over;
    var b := e.hashv % newBuckets.Length;
    var c := newBuckets[b].count + 1;
    over := c > ideal;
    var mult := if over then c / ideal else newBuckets[b].expandMult;
    ghost var cs := Counts(newBuckets[..]);
    MovedOne(chains, dom, i, rest, moved);
    nc' := Relocate(e, newBuckets, b, mult, nc, moved, chains, dom, i, rest[1..]);
    CountOne(cs, b, c, ideal);
    PutCount(old(newBuckets[..]), b, newBuckets[b]);
  }

  /** Bucket `b` has got `e` as its head; nothing else has changed. */
  ghost predicate Refiled<T>(bk: seq<Bucket<T>>, bk': seq<Bucket<T>>, b: nat, e: Handle<T>, ideal: nat, over: bool) {
    && b < |bk| && ideal > 0
    && var c := bk[b].count + 1;
       over == (c > ideal) && bk' == bk[b := Bucket(e, c, if over then c / ideal else bk[b].expandMult)]
  }

  /** Every chain longer than the ideal has the quotient as its expansion factor, every other one none. */
  ghost predicate Factors<T>(bk: seq<Bucket<T>>, ideal: nat) {
    ideal > 0 && forall b :: 0 <= b < |bk| ==>
      bk[b].expandMult == if bk[b].count > ideal then bk[b].count / ideal else 0
  }

  lemma FactorsNext<T>(bk: seq<Bucket<T>>, bk': seq<Bucket<T>>, b: nat, e: Handle<T>, ideal: nat, over: bool)
    requires Factors(bk, ideal) && Refiled(bk, bk', b, e, ideal, over)
    ensures Factors(bk', ideal)
  {
  }

  lemma PutCount<T>(bk: seq<Bucket<T>>, b: nat, bkt: Bucket<T>)
    requires b < |bk|
    ensures Counts(bk[b := bkt]) == Counts(bk)[b := bkt.count]
  {
  }

  /** Rehashes every handle of an old chain. */
  method MoveChain<T>(head: Handle?<T>, newBuckets: array<Bucket<T>>, ideal: nat, ghost nc0: seq<seq<Handle<T>>>,
                      ghost moved0: set<Handle<T>>, ghost chains: seq<seq<Handle<T>>>, ghost dom: set<Handle<T>>,
                      ghost i: nat)
    returns (over: nat, ghost nc: seq<seq<Handle<T>>>, ghost moved: set<Handle<T>>)
    requires newBuckets.Length > 0 && Bucketed(newBuckets[..], nc0, moved0) && i < |chains| && head == First(chains[i])
    requires Moved(chains, dom, i, chains[i], moved0) && Intact(chains, dom, i, chains[i])
    requires Factors(newBuckets[..], ideal) && Sum(Counts(newBuckets[..])) == |moved0|
    modifies newBuckets, dom`hhNext, dom`hhPrev
    ensures Factors(newBuckets[..], ideal)
    ensures Bucketed(newBuckets[..], nc, moved)
    ensures Moved(chains, dom, i, [], moved) && Intact(chains, dom, i, [])
    ensures Sum(Counts(newBuckets[..])) == |moved|
    ensures Over(Counts(newBuckets[..]), ideal) == old(Over(Counts(newBuckets[..]), ideal)) + over
  {
    hide Bucketed, Sum, Over, Factors, Refiled, Moved, Intact;
    assert ideal > 0 by { Ideal(newBuckets[..], ideal); }
    var thh := head;
    ghost var rest := chains[i];
    over, nc, moved := 0, nc0, moved0;
    while thh != null
      invariant thh == First(rest) && Moved(chains, dom, i, rest, moved) && Intact(chains, dom, i, rest)
      invariant Bucketed(newBuckets[..], nc, moved) && Factors(newBuckets[..], ideal)
      invariant Sum(Counts(newBuckets[..])) == |moved|
      invariant Over(Counts(newBuckets[..]), ideal) == old(Over(Counts(newBuckets[..]), ideal)) + over
      decreases |rest|
    {
      MovedOne(chains, dom, i, rest, moved);
      var nxt := thh.hhNext;
      ghost var bk := newBuckets[..];
      var beyond;
      beyond, nc := MoveOne(thh, newBuckets, ideal, nc, moved, chains, dom, i, rest);
      FactorsNext(bk, newBuckets[..], thh.hashv % newBuckets.Length, thh, ideal, beyond);
      if beyond { over := over + 1; }
      moved := moved + {rest[0]};
      rest := rest[1..];
      thh := nxt;
    }
  }

  lemma Ideal<T>(bk: seq<Bucket<T>>, ideal: nat)
    requires Factors(bk, ideal)
    ensures ideal > 0
  {
  }

  method EmptyBuckets<T>(n: nat, ghost ideal: nat) returns (bk: array<Bucket<T>>, ghost nc: seq<seq<Handle<T>>>)
    requires n > 0
    ensures fresh(bk) && bk.Length == n && Bucketed(bk[..], nc, {})
    ensures forall b :: 0 <= b < n ==> bk[b] == Bucket(null, 0, 0)
    ensures Sum(Counts(bk[..])) == 0 && Over(Counts(bk[..]), ideal) == 0
  {
    bk := new Bucket<T>[n](_ => Bucket(null, 0, 0));
    nc := seq(n, _ => []);
    CountNone(Counts(bk[..]), ideal);
  }

  /** Rehashes every handle into twice as many buckets. */
  method Rehash<T>(buckets: array<Bucket<T>>, ideal: nat, ghost chains: seq<seq<Handle<T>>>, ghost dom: set<Handle<T>>)
    returns (newBuckets: array<Bucket<T>>, nonideal: nat, ghost nc: seq<seq<Handle<T>>>)
    requires ideal > 0 && buckets.Length > 0 && Bucketed(buckets[..], chains, dom)
    modifies dom`hhNext, dom`hhPrev
    ensures fresh(newBuckets) && newBuckets.Length == 2 * buckets.Length
    ensures Bucketed(newBuckets[..], nc, dom)
    ensures Sum(Counts(newBuckets[..])) == |dom| && Factors(newBuckets[..], ideal)
    ensures nonideal == Over(Counts(newBuckets[..]), ideal)
  {
    hide Bucketed, Moved, Intact, Sum, Over, Factors;
    var n := buckets.Length;
    StartMoving(buckets[..], chains, dom);
    newBuckets, nc := EmptyBuckets(2 * n, ideal);
    NoFactors(newBuckets[..], ideal);
    nonideal := 0;
    ghost var moved: set<Handle<T>> := {};
    var i := 0;
    while i < n
      invariant 0 <= i <= n && |chains| == n
      invariant forall b :: 0 <= b < n ==> buckets[b].hhHead == First(chains[b])
      invariant Bucketed(newBuckets[..], nc, moved)
      invariant i < n ==> Moved(chains, dom, i, chains[i], moved) && Intact(chains, dom, i, chains[i])
      invariant i == n ==> moved == dom
      invariant Sum(Counts(newBuckets[..])) == |moved| && nonideal == Over(Counts(newBuckets[..]), ideal)
      invariant Factors(newBuckets[..], ideal)
    {
      var over;
      over, nc, moved := MoveChain(buckets[i].hhHead, newBuckets, ideal, nc, moved, chains, dom, i);
      nonideal := nonideal + over;
      if i + 1 < n { NextBucket(chains, dom, i, moved); } else { AllMoved(chains, dom, i, moved); }
      i := i + 1;
    }
  }

  lemma NoFactors<T>(bk: seq<Bucket<T>>, ideal: nat)
    requires ideal > 0 && forall b :: 0 <= b < |bk| ==> bk[b] == Bucket(null, 0, 0)
    ensures Factors(bk, ideal)
  {
  }

  // ---------- unlinking ----------

  function Without<T>(s: seq<T>, k: nat): (r: seq<T>)
    requires k < |s|
  {
    s[..k] + s[k + 1..]
  }

  /** Takes the `k`-th handle out of the application-order list; the caller fixes head and tail. */
  method UnlinkList<T>(d: Handle<T>, ghost s: seq<Handle<T>>, ghost k: nat)
    requires Linked(s) && k < |s| && s[k] == d
    modifies s`next, s`prev
    ensures Linked(Without(s, k))
  {
    assert k > 0 ==> s[k].prev == s[k - 1] && s[k - 1].next == s[k];
    assert k < |s| - 1 ==> s[k].next == s[k + 1] && s[k + 1].prev == s[k];
    if d.prev != null { d.prev.next := d.next; }
    if d.next != null { d.next.prev := d.prev; }
    assert forall i :: 0 <= i < |s| && i != k - 1 ==> s[i].next == old(s[i].next);
    assert forall i :: 0 <= i < |s| && i != k + 1 ==> s[i].prev == old(s[i].prev);
    ghost var r := Without(s, k);
    forall i | 0 <= i < |r| - 1
      ensures r[i].next == r[i + 1] && r[i + 1].prev == r[i]
    {
      assert r[i] == if i < k then s[i] else s[i + 1];
      assert r[i + 1] == if i + 1 < k then s[i + 1] else s[i + 2];
      assert old(s[i].next) == s[i + 1] && old(s[i + 1].next) == s[i + 2];
    }
    if r != [] {
      assert r[0] == if k == 0 then s[1] else s[0];
      assert r[|r| - 1] == if k == |s| - 1 then s[|s| - 2] else s[|s| - 1];
    }
  }

  /** Takes the `k`-th handle out of its bucket chain. */
  method UnlinkChain<T>(d: Handle<T>, ghost c: seq<Handle<T>>, ghost k: nat)
    requires Distinct(c) && ChainFwd(c) && ChainBwd(c) && k < |c| && c[k] == d
    modifies c`hhNext, c`hhPrev
    ensures Distinct(Without(c, k)) && ChainFwd(Without(c, k)) && ChainBwd(Without(c, k))
  {
    assert k > 0 ==> c[k].hhPrev == c[k - 1] && c[k - 1].hhNext == c[k];
    assert k < |c| - 1 ==> c[k].hhNext == c[k + 1] && c[k + 1].hhPrev == c[k];
    if d.hhPrev != null { d.hhPrev.hhNext := d.hhNext; }
    if d.hhNext != null { d.hhNext.hhPrev := d.hhPrev; }
    assert forall i :: 0 <= i < |c| && i != k - 1 ==> c[i].hhNext == old(c[i].hhNext);
    assert forall i :: 0 <= i < |c| && i != k + 1 ==> c[i].hhPrev == old(c[i].hhPrev);
    ghost var r := Without(c, k);
    forall i | 0 <= i < |r| - 1
      ensures r[i].hhNext == r[i + 1] && r[i + 1].hhPrev == r[i]
    {
      assert r[i] == if i < k then c[i] else c[i + 1];
      assert r[i + 1] == if i + 1 < k then c[i + 1] else c[i + 2];
      assert old(c[i].hhNext) == c[i + 1] && old(c[i + 1].hhNext) == c[i + 2];
    }
    if r != [] {
      assert r[0] == if k == 0 then c[1] else c[0];
      assert r[|r| - 1] == if k == |c| - 1 then c[|c| - 2] else c[|c| - 1];
    }
  }

  /** Takes the `k`-th handle out of chain `b`; the other buckets keep their chains. */
  method UnlinkInBucket<T>(d: Handle<T>, b: nat, ghost k: nat, ghost bk: seq<Bucket<T>>,
                           ghost chains: seq<seq<Handle<T>>>, ghost dom: set<Handle<T>>)
    requires Bucketed(bk, chains, dom) && b < |bk| && k < |chains[b]| && chains[b][k] == d
    modifies dom`hhNext, dom`hhPrev
    ensures var r := Without(chains[b], k); Distinct(r) && ChainFwd(r) && ChainBwd(r) && d !in r
    ensures Others(bk, chains, dom, b) && Inside(chains[b], dom)
    ensures forall b' :: 0 <= b' < |bk| && b' != b ==> d !in chains[b']
  {
    Split(bk, chains, dom, b);
    hide Bucketed, Holds, ChainFwd, ChainBwd;
    UnlinkChain(d, chains[b], k);
  }

  /** Takes `d` out of its bucket. */
  method Remove<T>(d: Handle<T>, buckets: array<Bucket<T>>, b: nat, ghost chains: seq<seq<Handle<T>>>,
                   ghost dom: set<Handle<T>>)
    returns (ghost chains': seq<seq<Handle<T>>>, ghost k: nat)
    requires Bucketed(buckets[..], chains, dom) && d in dom && b < buckets.Length && b == d.hashv % buckets.Length
    modifies buckets, dom`hhNext, dom`hhPrev
    ensures Bucketed(buckets[..], chains', dom - {d})
    ensures b < |chains| && k < |chains[b]| && chains[b][k] == d && chains' == chains[b := Without(chains[b], k)]
    ensures old(buckets[b].count) > 0
    ensures buckets[..]
         == old(buckets[..])[b := Bucket(buckets[b].hhHead, old(buckets[b].count) - 1, old(buckets[b].expandMult))]
  {
    hide Bucketed, Holds, ChainFwd, ChainBwd, Distinct, AllIn, Others;
    ghost var bk := buckets[..];
    k := Locate(bk, chains, dom, b, d);
    var head := if buckets[b].hhHead == d then d.hhNext else buckets[b].hhHead;
    UnlinkInBucket(d, b, k, bk, chains, dom);
    buckets[b] := Bucket(head, buckets[b].count - 1, buckets[b].expandMult);
    chains' := chains[b := Without(chains[b], k)];
    Drop(bk, chains, dom, b, k, d, buckets[b]);
    assert buckets[..] == bk[b := buckets[b]];
  }

  /** Where `d` is in its bucket, and what becomes the bucket's head without it. */
  lemma Locate<T>(bk: seq<Bucket<T>>, chains: seq<seq<Handle<T>>>, dom: set<Handle<T>>, b: nat, d: Handle<T>)
    returns (k: nat)
    requires Bucketed(bk, chains, dom) && d in dom && b < |bk| && b == d.hashv % |bk|
    ensures |bk| == |chains| && k < |chains[b]| && chains[b][k] == d && AllIn(chains[b], b, |bk|)
    ensures bk[b].count == |chains[b]|
    ensures First(Without(chains[b], k)) == if bk[b].hhHead == d then d.hhNext else bk[b].hhHead
  {
    var c := chains[b];
    Split(bk, chains, dom, b);
    assert d in chains[d.hashv % |bk|];
    k :| 0 <= k < |c| && c[k] == d;
    if k > 0 {
      assert c[0] != d && Without(c, k)[0] == c[0];
    } else if |c| > 1 {
      assert Without(c, k)[0] == c[1];
    }
  }

  lemma Drop<T>(bk: seq<Bucket<T>>, chains: seq<seq<Handle<T>>>, dom: set<Handle<T>>, b: nat, k: nat, d: Handle<T>,
                bkt: Bucket<T>)
    requires 0 <= b < |bk| && Others(bk, chains, dom, b) && Inside(chains[b], dom)
    requires k < |chains[b]| && chains[b][k] == d && d in dom && AllIn(chains[b], b, |bk|)
    requires var r := Without(chains[b], k);
             Distinct(r) && ChainFwd(r) && ChainBwd(r) && d !in r && bkt.hhHead == First(r) && bkt.count == |r|
    requires forall b' :: 0 <= b' < |bk| && b' != b ==> d !in chains[b']
    ensures Bucketed(bk[b := bkt], chains[b := Without(chains[b], k)], dom - {d})
  {
    var c, r := chains[b], Without(chains[b], k);
    assert forall i :: 0 <= i < |r| ==> r[i] == if i < k then c[i] else c[i + 1];
    forall h | h in dom - {d}
      ensures h in r || (h.hashv % |bk| != b && h in dom)
    {
      assert h in chains[h.hashv % |bk|];
      if h in c {
        var i :| 0 <= i < |c| && c[i] == h;
        assert h == r[if i < k then i else i - 1];
      }
    }
    PutBucket(bk, chains, dom, b, r, bkt, dom - {d});
  }

  // ---------- the table ----------

  lemma Pow2Next(n: nat)
    ensures Pow2(n + 1) == 2 * Pow2(n)
  {
  }

  /** The expansion's target chain length, as computed with a shift and a mask. */
  function IdealChainMaxlen(items: nat, log2: nat): nat {
    items / Pow2(log2) + if items % Pow2(log2) != 0 then 1 else 0
  }

  /** It is the number of items over the number of buckets, rounded up. */
  lemma IdealIsCeiling(items: nat, log2: nat, n: nat)
    requires n == Pow2(log2)
    ensures var ideal := IdealChainMaxlen(items, log2);
            items <= ideal * n && (items > 0 ==> ideal > 0 && (ideal - 1) * n < items)
  {
    var q, r := items / n, items % n;
    assert items == q * n + r;
    assert (q + 1) * n == q * n + n;
    if r == 0 && q > 0 { assert (q - 1) * n == q * n - n; }
  }

  lemma InitialPow2()
    ensures Pow2(INITIAL_NUM_BUCKETS_LOG2) == INITIAL_NUM_BUCKETS
  {
    assert Pow2(5) == 2 * Pow2(4) == 4 * Pow2(3) == 8 * Pow2(2);
  }

  ghost predicate Hashed<T>(s: seq<Handle<T>>, hash: int -> nat)
    reads s`hashv
  {
    forall i :: 0 <= i < |s| ==> s[i].hashv == hash(s[i].key)
  }

  lemma HashedSnoc<T>(s: seq<Handle<T>>, e: Handle<T>, hash: int -> nat)
    requires Hashed(s, hash) && e.hashv == hash(e.key)
    ensures Hashed(s + [e], hash)
  {
  }

  /** `h` stands in the chain, and nothing before it has the key. */
  ghost predicate FirstIn<T>(h: Handle<T>, c: seq<Handle<T>>, key: int) {
    exists k :: 0 <= k < |c| && c[k] == h && forall i :: 0 <= i < k ==> c[i].key != key
  }

  ghost predicate UniqueKeys<T>(s: seq<Handle<T>>) {
    forall i, j :: 0 <= i < j < |s| ==> s[i].key != s[j].key
  }

  /** The dictionary a table with distinct keys stands for. */
  ghost function AsMap<T>(s: seq<Handle<T>>): (m: map<int, Handle<T>>)
    requires UniqueKeys(s)
    ensures forall k :: k in m <==> exists i :: 0 <= i < |s| && s[i].key == k
    ensures forall i :: 0 <= i < |s| ==> s[i].key in m && m[s[i].key] == s[i]
  {
    map h | h in s :: h.key := h
  }

  /** The dictionary is the only one with these pairs. */
  lemma AsMapIs<T>(s: seq<Handle<T>>, m: map<int, Handle<T>>)
    requires UniqueKeys(s)
    requires forall i :: 0 <= i < |s| ==> s[i].key in m && m[s[i].key] == s[i]
    requires forall k :: k in m ==> m[k] in s && m[k].key == k
    ensures AsMap(s) == m
  {
    forall k | k in m
      ensures k in AsMap(s)
    {
      assert m[k] in s;
    }
  }

  /** Adding under a new key extends the dictionary by one pair. */
  lemma AsMapAdd<T>(s: seq<Handle<T>>, e: Handle<T>)
    requires UniqueKeys(s) && forall h :: h in s ==> h.key != e.key
    ensures UniqueKeys(s + [e]) && AsMap(s + [e]) == AsMap(s)[e.key := e]
  {
    hide AsMap;
    var r, m := s + [e], AsMap(s)[e.key := e];
    assert forall i :: 0 <= i < |s| ==> r[i] == s[i] && s[i] in s;
    forall k | k in m
      ensures m[k] in r && m[k].key == k
    {
      if k != e.key { var i :| 0 <= i < |s| && s[i].key == k; assert r[i] == s[i]; } else { assert r[|s|] == e; }
    }
    AsMapIs(r, m);
  }

  /** Deleting removes exactly the deleted element's key. */
  lemma AsMapDelete<T>(s: seq<Handle<T>>, d: nat)
    requires UniqueKeys(s) && d < |s|
    ensures UniqueKeys(Without(s, d)) && AsMap(Without(s, d)) == AsMap(s) - {s[d].key}
  {
    hide AsMap;
    var r, m := Without(s, d), AsMap(s) - {s[d].key};
    assert forall i :: 0 <= i < |r| ==> r[i] == if i < d then s[i] else s[i + 1];
    forall k | k in m
      ensures m[k] in r && m[k].key == k
    {
      var i :| 0 <= i < |s| && s[i].key == k;
      assert r[if i < d then i else i - 1] == s[i];
    }
    AsMapIs(r, m);
  }

  class Table<T> {
    var head: Handle?<T>
    var tail: Handle?<T>
    var buckets: array<Bucket<T>>
    var numBuckets: nat
    var log2NumBuckets: nat
    var numItems: nat
    var idealChainMaxlen: nat
    var nonidealItems: nat
    var ineffExpands: nat
    var noexpand: bool
    /** HASH_FCN: any function of the key. */
    const hash: int -> nat
    ghost var order: seq<Handle<T>>
    ghost var chains: seq<seq<Handle<T>>>

    constructor (hash: int -> nat)
      ensures Valid() && order == [] && this.hash == hash && fresh(buckets)
    {
      this.hash := hash;
      head, tail := null, null;
      buckets := new Bucket<T>[0];
      numBuckets, log2NumBuckets, numItems := 0, 0, 0;
      idealChainMaxlen, nonidealItems, ineffExpands, noexpand := 0, 0, 0, false;
      order, chains := [], [];
    }

    /** The bucket side of the table: `num_buckets` a power of two, every handle in its bucket, counts adding up. */
    ghost predicate ValidBuckets()
      reads this, buckets, order`hhNext, order`hhPrev, order`hashv
    {
      && numBuckets == buckets.Length == Pow2(log2NumBuckets)
      && Bucketed(buckets[..], chains, Elems(order))
      && Sum(Counts(buckets[..])) == numItems
    }

    ghost predicate Valid()
      reads this, buckets, order
    {
      && Linked(order) && head == First(order) && Hashed(order, hash)
      && (order != [] ==> tail == Last(order) && numItems == |order| && ValidBuckets())
    }

    /** HASH_MAKE_TABLE. */
    method MakeTable()
      modifies this
      ensures unchanged(this`head, this`order)
      ensures tail == head && numBuckets == 32 && log2NumBuckets == 5 && fresh(buckets)
      ensures numItems == idealChainMaxlen == nonidealItems == ineffExpands == 0 && !noexpand
      ensures numBuckets == buckets.Length == Pow2(log2NumBuckets)
      ensures Bucketed(buckets[..], chains, {}) && Sum(Counts(buckets[..])) == 0
      ensures forall b :: 0 <= b < numBuckets ==> buckets[b] == Bucket(null, 0, 0)
    {
      hide Bucketed, Sum, Pow2;
      tail := head;
      numBuckets := INITIAL_NUM_BUCKETS;
      log2NumBuckets := INITIAL_NUM_BUCKETS_LOG2;
      numItems, idealChainMaxlen, nonidealItems, ineffExpands, noexpand := 0, 0, 0, 0, false;
      buckets, chains := EmptyBuckets(INITIAL_NUM_BUCKETS, 0);
      InitialPow2();
    }

    /** HASH_EXPAND_BUCKETS. */
    method ExpandBuckets()
      requires ValidBuckets() && numItems == |Elems(order)| > 0
      modifies this`buckets, this`chains, this`numBuckets, this`log2NumBuckets
      modifies this`idealChainMaxlen, this`nonidealItems, this`ineffExpands, this`noexpand
      modifies order`hhNext, order`hhPrev
      ensures ValidBuckets() && fresh(buckets)
      ensures numBuckets == 2 * old(numBuckets) && log2NumBuckets == old(log2NumBuckets) + 1
      ensures numItems <= idealChainMaxlen * numBuckets && (idealChainMaxlen - 1) * numBuckets < numItems
      ensures nonidealItems == Over(Counts(buckets[..]), idealChainMaxlen) && Factors(buckets[..], idealChainMaxlen)
      ensures ineffExpands == if nonidealItems > numItems / 2 then old(ineffExpands) + 1 else 0
      ensures noexpand == (old(noexpand) || ineffExpands > 1)
    {
      hide Bucketed, Sum, Over, IdealChainMaxlen, Linked, Hashed, Counts, Pow2, Factors;
      Pow2Next(log2NumBuckets);
      idealChainMaxlen := IdealChainMaxlen(numItems, log2NumBuckets + 1);
      IdealIsCeiling(numItems, log2NumBuckets + 1, 2 * numBuckets);
      buckets, nonidealItems, chains := Rehash(buckets, idealChainMaxlen, chains, Elems(order));
      numBuckets := numBuckets * 2;
      log2NumBuckets := log2NumBuckets + 1;
      ineffExpands := if nonidealItems > numItems / 2 then ineffExpands + 1 else 0;
      if ineffExpands > 1 { noexpand := true; }
    }

    /** With one element more the chain reaches ten times its expansion factor plus one. */
    static predicate LongEnough(bkt: Bucket<T>) {
      bkt.count + 1 >= (bkt.expandMult + 1) * 10
    }

    /** HASH_ADD_TO_BKT, with the expansion it may trigger. */
    method AddToBkt(e: Handle<T>, b: nat, ghost dom: set<Handle<T>>, ghost bk: seq<Bucket<T>>)
      requires b < |bk| && bk == buckets[..]
      requires numBuckets == buckets.Length == Pow2(log2NumBuckets) && b == e.hashv % numBuckets && b < buckets.Length
      requires Bucketed(buckets[..], chains, dom) && Sum(Counts(buckets[..])) + 1 == numItems
      requires e !in dom && Elems(order) == dom + {e} && numItems == |dom| + 1
      requires Linked(order) && Hashed(order, hash)
      modifies this`buckets, this`chains, this`numBuckets, this`log2NumBuckets, buckets
      modifies this`idealChainMaxlen, this`nonidealItems, this`ineffExpands, this`noexpand
      modifies order`hhNext, order`hhPrev
      ensures ValidBuckets() && (buckets == old(buckets) || fresh(buckets))
      ensures Linked(order) && Hashed(order, hash)
      ensures numBuckets == if LongEnough(bk[b]) && !old(noexpand) then 2 * old(numBuckets) else old(numBuckets)
      ensures numBuckets > old(numBuckets) ==> Factors(buckets[..], idealChainMaxlen)
      ensures numBuckets > old(numBuckets) ==> nonidealItems == Over(Counts(buckets[..]), idealChainMaxlen)
      ensures ineffExpands == if numBuckets == old(numBuckets) then old(ineffExpands)
                              else if nonidealItems > numItems / 2 then old(ineffExpands) + 1 else 0
      ensures noexpand == (old(noexpand) || (numBuckets > old(numBuckets) && ineffExpands > 1))
      ensures numBuckets == old(numBuckets) ==> unchanged(this`idealChainMaxlen, this`nonidealItems, this`buckets)
      ensures numBuckets == old(numBuckets) ==> buckets[..] == bk[b := Bucket(e, bk[b].count + 1, bk[b].expandMult)]
    {
      hide Bucketed, Sum, Over, Linked, Hashed, Factors;
      assert forall h :: h in dom + {e} ==> h in order;
      var mult, count := buckets[b].expandMult, buckets[b].count + 1;
      ghost var cs := Counts(buckets[..]);
      PutCount(buckets[..], b, Bucket(e, count, mult));
      CountOne(cs, b, count, 0);
      chains := Prepend(e, buckets, b, mult, chains, dom);
      if count >= (mult + 1) * BKT_CAPACITY_THRESH && !noexpand {
        ExpandBuckets();
      }
    }

    /** The list part of HASH_ADD_KEYPTR; a first element also gets the table made. */
    method LinkTail(e: Handle<T>)
      requires Valid() && e !in order
      modifies this, order`next, e`next, e`prev
      ensures unchanged(this`order) && head == First(order + [e]) && tail == e && Linked(order + [e])
      ensures numItems == |order| && numBuckets == buckets.Length == Pow2(log2NumBuckets)
      ensures buckets == old(buckets) || fresh(buckets)
      ensures Bucketed(buckets[..], chains, Elems(order)) && Sum(Counts(buckets[..])) == numItems
    {
      hide Bucketed, Sum, Hashed;
      e.next := null;
      if head == null {
        head := e;
        e.prev := null;
        MakeTable();
        assert Elems(order) == {};
      } else {
        tail.next := e;
        e.prev := tail;
        tail := e;
      }
      LinkLast(order, e);
    }

    lemma SizeOfOrder()
      requires Valid()
      ensures |Elems(order)| == |order|
    {
      DistinctSize(order);
    }

    /** HASH_ADD_KEYPTR: appends `e` to the application order and files it in its bucket. */
    method Add(e: Handle<T>)
      requires Valid() && e !in order
      modifies this, buckets, order, e
      ensures Valid() && order == old(order) + [e] && (buckets == old(buckets) || fresh(buckets))
    {
      hide Bucketed, Sum, Linked, ValidBuckets, Hashed, First, Last, Elems;
      ghost var dom, s := Elems(order), order;
      SizeOfOrder();
      ElemsSnoc(order, e);
      LinkTail(e);
      order := order + [e];
      numItems := numItems + 1;
      e.hashv := hash(e.key);
      HashedSnoc(s, e, hash);
      AddToBkt(e, e.hashv % numBuckets, dom, buckets[..]);
    }

    /** HASH_FIND: walks one bucket chain, and finds a key exactly when some element has it. */
    method Find(key: int) returns (out: Handle?<T>)
      requires Valid()
      ensures out != null ==> out in order && out.key == key
      ensures out == null ==> forall h :: h in order ==> h.key != key
      ensures UniqueKeys(order) ==> out == if key in AsMap(order) then AsMap(order)[key] else null
    {
      hide AsMap;
      out := null;
      if head != null {
        var b := hash(key) % numBuckets;
        out := FindInBkt(buckets[b].hhHead, key, b);
        forall h | h in order && h.key == key
          ensures h in chains[b]
        {
          assert h in Elems(order);
        }
      }
    }

    /** HASH_FIND_IN_BKT. */
    method FindInBkt(first: Handle?<T>, key: int, ghost b: nat) returns (out: Handle?<T>)
      requires ValidBuckets() && b < |chains| && first == buckets[b].hhHead
      ensures out != null ==> out in order && out.key == key && FirstIn(out, chains[b], key)
      ensures out == null ==> forall h :: h in chains[b] ==> h.key != key
    {
      Split(buckets[..], chains, Elems(order), b);
      ghost var c, k := chains[b], 0;
      out := first;
      while out != null
        invariant 0 <= k <= |c| && out == (if k < |c| then c[k] else null)
        invariant forall i :: 0 <= i < k ==> c[i].key != key
        decreases |c| - k
      {
        if out.key == key {
          assert c[k] in Elems(order);
          break;
        }
        out := out.hhNext;
        k := k + 1;
      }
    }

    /** The list part of HASH_DELETE, when other elements remain. */
    method UnlinkFromList(d: Handle<T>, ghost k: nat)
      requires Valid() && k < |order| && order[k] == d && |order| > 1
      modifies this`head, this`tail, this`order, order`next, order`prev
      ensures order == Without(old(order), k) && Linked(order) && order != []
      ensures head == First(order) && tail == Last(order)
    {
      hide ValidBuckets, Linked, Hashed, First, Last, Without;
      EndsWithout(order, k);
      if d == tail { tail := d.prev; }
      if d.prev == null { head := d.next; }
      UnlinkList(d, order, k);
      order := Without(order, k);
    }

    /** HASH_DELETE. */
    method Delete(d: Handle<T>, ghost k: nat)
      requires Valid() && k < |order| && order[k] == d
      modifies this, buckets, order
      ensures Valid() && order == Without(old(order), k) && buckets == old(buckets)
    {
      hide Bucketed, Sum, Linked, Hashed;
      WithoutOne(order, k, hash);
      AloneInList(k);
      if d.prev == null && d.next == null {
        head := null;
        order := [];
        assert Linked<T>([]) && Hashed<T>([], hash) by { Nothing<T>(hash); }
      } else {
        ghost var dom := Elems(order);
        UnlinkFromList(d, k);
        DelInBkt(d, d.hashv % numBuckets, dom);
      }
    }

    /** HASH_DEL_IN_BKT, and one item fewer. */
    method DelInBkt(d: Handle<T>, b: nat, ghost dom: set<Handle<T>>)
      requires numBuckets == buckets.Length == Pow2(log2NumBuckets) && b == d.hashv % numBuckets && b < buckets.Length
      requires Bucketed(buckets[..], chains, dom) && Sum(Counts(buckets[..])) == numItems
      requires d in dom && Elems(order) == dom - {d} && Linked(order) && Hashed(order, hash)
      modifies this`chains, this`numItems, buckets, dom`hhNext, dom`hhPrev
      ensures ValidBuckets() && Linked(order) && Hashed(order, hash) && numItems == old(numItems) - 1
      ensures buckets[..]
           == old(buckets[..])[b := Bucket(buckets[b].hhHead, old(buckets[b].count) - 1, old(buckets[b].expandMult))]
    {
      hide Bucketed, Sum, Linked, Hashed;
      ghost var bk, cs, count := buckets[..], Counts(buckets[..]), buckets[b].count;
      ghost var k;
      chains, k := Remove(d, buckets, b, chains, dom);
      PutCount(bk, b, buckets[b]);
      CountOne(cs, b, count - 1, 0);
      numItems := numItems - 1;
    }

    /** An element with neither neighbour is the only one. */
    lemma AloneInList(k: nat)
      requires Valid() && k < |order|
      ensures order[k].prev == null && order[k].next == null <==> |order| == 1
      ensures |order| == 1 ==> Without(order, k) == []
    {
      if |order| > 1 {
        if k > 0 { assert order[k].prev == order[k - 1]; } else { assert order[k].next == order[k + 1]; }
      }
    }

    /** HASH_SRT: the order becomes the sorted one, and nothing else changes. */
    method Srt(cmp: (Handle<T>, Handle<T>) -> int)
      requires Valid()
      modifies this`head, this`tail, this`order, order`next, order`prev
      ensures Valid() && order == Sort(old(order), cmp)
    {
      hide Bucketed, Linked, Hashed, Sum, Sort;
      if head != null {
        ghost var r;
        SameElems(order, cmp, hash);
        head, tail, r := SortList(head, cmp, order, Elems(order));
        order := r;
      }
    }
  }

  lemma SameElems<T>(s: seq<Handle<T>>, cmp: (Handle<T>, Handle<T>) -> int, hash: int -> nat)
    requires Hashed(s, hash)
    ensures Elems(Sort(s, cmp)) == Elems(s) && Hashed(Sort(s, cmp), hash)
  {
    var r := Sort(s, cmp);
    SortPermutes(s, cmp);
    assert forall h :: h in r <==> h in multiset(r);
    assert forall h :: h in s <==> h in multiset(s);
    forall i | 0 <= i < |r|
      ensures r[i].hashv == hash(r[i].key)
    {
      assert r[i] in multiset(r);
      assert r[i] in s;
    }
  }

  /** What heads and ends the list once its `k`-th handle is gone. */
  lemma EndsWithout<T>(s: seq<Handle<T>>, k: nat)
    requires Linked(s) && k < |s| && |s| > 1
    ensures var r := Without(s, k);
            && r != [] && First(r) == (if s[k].prev == null then s[k].next else First(s))
            && Last(r) == (if s[k] == Last(s) then s[k].prev else Last(s))
  {
    assert k + 1 < |s| ==> s[k].next == s[k + 1];
    assert k > 0 ==> s[k].prev == s[k - 1];
  }

  lemma Nothing<T>(hash: int -> nat)
    ensures Linked<T>([]) && Hashed<T>([], hash)
  {
  }

  lemma WithoutOne<T>(s: seq<Handle<T>>, k: nat, hash: int -> nat)
    requires k < |s| && Linked(s) && Hashed(s, hash)
    ensures Elems(Without(s, k)) == Elems(s) - {s[k]} && Hashed(Without(s, k), hash) && s[k] in Elems(s)
  {
    var r := Without(s, k);
    assert forall i :: 0 <= i < |r| ==> r[i] == if i < k then s[i] else s[i + 1];
    forall h | h in s && h != s[k]
      ensures h in r
    {
      var i :| 0 <= i < |s| && s[i] == h;
      assert h == r[if i < k then i else i - 1];
    }
  }

  lemma ElemsSnoc<T>(s: seq<Handle<T>>, e: Handle<T>)
    ensures Elems(s + [e]) == Elems(s) + {e} && (e !in s ==> e !in Elems(s)) && Last(s + [e]) == e
  {
  }

  lemma LinkLast<T>(s: seq<Handle<T>>, e: Handle<T>)
    requires Distinct(s) && e !in s && Fwd(s) && Bwd(s) && e.next == null && e.prev == Last(s)
    requires s != [] ==> s[|s| - 1].next == e
    ensures Linked(s + [e])
  {
    var r := s + [e];
    assert forall i :: 0 <= i < |s| ==> r[i] == s[i] && s[i] in s;
  }

  lemma {:induction false} DistinctSize<T>(s: seq<Handle<T>>)
    requires Distinct(s)
    ensures |Elems(s)| == |s|
  {
    if s != [] {
      DistinctSize(s[1..]);
      assert s[0] !in s[1..];
      assert Elems(s) == {s[0]} + Elems(s[1..]);
    }
  }
}
