/** The graph of a mounted image's directory entries, and that traversals end exactly along its paths. */
module Endings {
  import opened Format
  import opened Reader
  import opened Traversals

  /** Read as `v`, directory `a` has an entry for node `b`. */
  ghost predicate ListsIn(m: Mounted, a: nat, v: bytes, b: nat) {
    && InBounds(m, a) && NodeFill(m, a).kind == TYPE_DIRECTORY && Gives(m, a, true, v) && ParseDir(m.sb.db, v).Some?
    && exists e :: e in ParseDir(m.sb.db, v).value.entries && e.number == b
  }

  ghost predicate Lists(m: Mounted, a: nat, b: nat) {
    exists v :: ListsIn(m, a, v, b)
  }

  /** Nodes each of which is listed in the one before it. */
  ghost predicate Trail(m: Mounted, p: seq<nat>) {
    p != [] && forall i :: 0 < i < |p| ==> Lists(m, p[i - 1], p[i])
  }

  ghost predicate Simple(p: seq<nat>) {
    forall i, j :: 0 <= i < j < |p| ==> p[i] != p[j]
  }

  /** Node `n` lies inside the image; as a directory it parses and as a link it ends, whatever is handed on for it. */
  ghost predicate Tidy(m: Mounted, n: nat) {
    && InBounds(m, n)
    && (NodeFill(m, n).kind == TYPE_SYMBOLIC_LINK ==> forall v :: Gives(m, n, true, v) ==> 0 in v)
    && (NodeFill(m, n).kind == TYPE_DIRECTORY ==> forall v :: Gives(m, n, true, v) ==> ParseDir(m.sb.db, v).Some?)
  }

  ghost function Last(p: seq<nat>): nat
    requires p != []
  {
    p[|p| - 1]
  }

  lemma ListsEntry(m: Mounted, a: nat, v: bytes, e: Entry)
    requires InBounds(m, a) && NodeFill(m, a).kind == TYPE_DIRECTORY && Gives(m, a, true, v)
    requires ParseDir(m.sb.db, v).Some? && e in ParseDir(m.sb.db, v).value.entries
    ensures Lists(m, a, e.number)
  {
    hide NodeFill, HasNode, Gives, ParseDir, Spans;
    assert ListsIn(m, a, v, e.number);
  }

  lemma EndsStep(m: Mounted, a: nat, b: nat, depth: nat)
    requires Ends(m, a, depth) && Lists(m, a, b)
    ensures depth > 0 && Ends(m, b, depth - 1)
  {
    hide NodeFill, HasNode, Gives, ParseDir, Spans;
    var v :| ListsIn(m, a, v, b);
    var e :| e in ParseDir(m.sb.db, v).value.entries && e.number == b;
    assert Ends(m, e.number, depth - 1);
  }

  lemma EndsTidy(m: Mounted, n: nat, depth: nat)
    requires Ends(m, n, depth)
    ensures Tidy(m, n)
  {
    hide NodeFill, HasNode, Gives, ParseDir, Spans;
  }

  /** Each step along a trail leaves one directory less to go down. */
  lemma {:induction false} EndsAlong(m: Mounted, p: seq<nat>, depth: nat)
    requires Trail(m, p) && Ends(m, p[0], depth)
    ensures depth >= |p| - 1 && Ends(m, Last(p), depth - (|p| - 1))
    decreases |p|
  {
    hide Ends, Lists;
    if |p| > 1 {
      EndsStep(m, p[0], p[1], depth);
      TrailRest(m, p);
      EndsAlong(m, p[1..], depth - 1);
    }
  }

  lemma TrailRest(m: Mounted, p: seq<nat>)
    requires Trail(m, p) && |p| > 1
    ensures Trail(m, p[1..])
  {
    hide Lists;
    forall i | 0 < i < |p| - 1
      ensures Lists(m, p[1..][i - 1], p[1..][i])
    {
      assert Lists(m, p[i + 1 - 1], p[i + 1]);
    }
  }

  lemma TrailSlice(m: Mounted, p: seq<nat>, i: nat, j: nat)
    requires Trail(m, p) && i < j <= |p|
    ensures Trail(m, p[i..j])
  {
    hide Lists;
    var q := p[i..j];
    forall k | 0 < k < |q|
      ensures Lists(m, q[k - 1], q[k])
    {
      assert Lists(m, p[i + k - 1], p[i + k]);
    }
  }

  /** A node that leads back to itself, over however many directories, is never done with. */
  lemma {:induction false} CycleNeverEnds(m: Mounted, p: seq<nat>, depth: nat)
    requires Trail(m, p) && |p| > 1 && p[0] == Last(p)
    ensures !Ends(m, p[0], depth)
    decreases depth
  {
    hide Ends, Lists;
    if Ends(m, p[0], depth) {
      EndsAlong(m, p, depth);
      CycleNeverEnds(m, p, depth - (|p| - 1));
    }
  }

  lemma EndsSimple(m: Mounted, p: seq<nat>, depth: nat)
    requires Trail(m, p) && Ends(m, p[0], depth)
    ensures Simple(p) && Tidy(m, Last(p))
  {
    hide Ends, Lists, Tidy;
    EndsAlong(m, p, depth);
    EndsTidy(m, Last(p), depth - (|p| - 1));
    forall i, j | 0 <= i < j < |p|
      ensures p[i] != p[j]
    {
      if p[i] == p[j] {
        TrailSlice(m, p, 0, i + 1);
        EndsAlong(m, p[0..i + 1], depth);
        TrailSlice(m, p, i, j + 1);
        CycleNeverEnds(m, p[i..j + 1], depth - i);
      }
    }
  }

  /** Different numbers below `n` are at most `n`. */
  lemma {:induction false} Pigeonhole(p: seq<nat>, n: nat)
    requires Simple(p) && forall i :: 0 <= i < |p| ==> p[i] < n
    ensures |p| <= n
    decreases n
  {
    if p != [] {
      assert p[0] < n;
      if n - 1 in p {
        var k :| 0 <= k < |p| && p[k] == n - 1;
        var q := p[..k] + p[k + 1..];
        assert forall i :: 0 <= i < |q| ==> q[i] == if i < k then p[i] else p[i + 1];
        Pigeonhole(q, n - 1);
      } else {
        forall i | 0 <= i < |p|
          ensures p[i] < n - 1
        {
          assert p[i] in p;
        }
        Pigeonhole(p, n - 1);
      }
    }
  }

  /** Every trail from `n` is simple and leads to a tidy node. */
  ghost predicate Straight(m: Mounted, n: nat) {
    forall p :: Trail(m, p) && p[0] == n ==> Simple(p) && Tidy(m, Last(p))
  }

  lemma TrailBounded(m: Mounted, p: seq<nat>)
    requires Trail(m, p) && Straight(m, p[0])
    ensures |p| <= m.sb.inodes && Tidy(m, Last(p))
  {
    hide Lists, Tidy;
    forall i | 0 <= i < |p|
      ensures p[i] < m.sb.inodes
    {
      TrailSlice(m, p, 0, i + 1);
      assert Last(p[0..i + 1]) == p[i];
      TidyInside(m, p[i]);
    }
    Pigeonhole(p, m.sb.inodes);
  }

  lemma TidyInside(m: Mounted, n: nat)
    requires Tidy(m, n)
    ensures n < m.sb.inodes
  {
    hide NodeFill, HasNode, Gives, ParseDir, Spans;
  }

  lemma TrailOn(m: Mounted, p: seq<nat>, b: nat)
    requires Trail(m, p) && Lists(m, Last(p), b)
    ensures Trail(m, p + [b])
  {
    hide Lists;
    var q := p + [b];
    forall i | 0 < i < |q|
      ensures Lists(m, q[i - 1], q[i])
    {
      if i < |p| { assert Lists(m, p[i - 1], p[i]); }
    }
  }

  /** The end of a trail has no more directories below it than there are nodes left. */
  lemma {:induction false} TrailEnds(m: Mounted, p: seq<nat>)
    requires Trail(m, p) && Straight(m, p[0])
    ensures |p| <= m.sb.inodes && Ends(m, Last(p), m.sb.inodes - |p| + 1)
    decreases m.sb.inodes - |p|
  {
    hide NodeFill, HasNode, HasBlock, BlockFill, Readable, Gives, ParseDir, Spans, Simple, Straight, Lists;
    TrailBounded(m, p);
    var n := Last(p);
    if NodeFill(m, n).kind == TYPE_DIRECTORY {
      forall v, e | Gives(m, n, true, v) && e in ParseDir(m.sb.db, v).value.entries
        ensures Ends(m, e.number, m.sb.inodes - |p|)
      {
        ListsEntry(m, n, v, e);
        TrailOn(m, p, e.number);
        TrailBounded(m, p + [e.number]);
        TrailEnds(m, p + [e.number]);
      }
    }
  }

  /**
    Exactly when traversing node `n` ends whatever is on the disk: when no path of directory entries from it
    comes to a node twice and every node on one lies inside the image and parses. The directories then go no
    deeper than there are nodes.
   */
  lemma EndsExactly(m: Mounted, n: nat)
    ensures (exists depth: nat :: Ends(m, n, depth)) <==> Straight(m, n)
    ensures Straight(m, n) ==> Ends(m, n, m.sb.inodes)
  {
    hide Ends, Lists, Tidy, Simple;
    if depth: nat :| Ends(m, n, depth) {
      forall p | Trail(m, p) && p[0] == n
        ensures Simple(p) && Tidy(m, Last(p))
      {
        EndsSimple(m, p, depth);
      }
    }
    if Straight(m, n) {
      TrailEnds(m, [n]);
      assert Ends(m, n, m.sb.inodes);
    }
  }
}
