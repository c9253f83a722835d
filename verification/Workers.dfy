/**
  The compression workers: threads that claim blocks under one mutex. A state is what the threads
  share and where each one stands; a step is one thread moving; a run is any interleaving of steps.
 */
module Workers {
  import opened Seqs
  import opened Bits
  import opened Compressors

  /** Where a thread stands in its loop; `b` is its loop counter. */
  datatype Pc =
    | Head(b: nat)             // loop test, then pthread_mutex_lock
    | Check(b: nat)            // holds the mutex, about to read the status
    | Skip(b: nat)             // holds the mutex, the block was taken
    | Claimed(b: nat)          // holds the mutex, the block is now its own
    | Work(b: nat)             // compressing, without the mutex
    | Store(b: nat, rc: nat)   // about to record the compressed size
    | Relock(b: nat)           // pthread_mutex_lock again
    | Finish(b: nat)           // holds the mutex, about to set status 2
    | Leave(b: nat)            // holds the mutex, about to unlock and go on
    | Exit

  datatype State = State(
    status: seq<nat>,
    compressedSize: seq<nat>,
    cbuffer: seq<seq<byte>>,
    mutex: Option<nat>,
    pcs: seq<Pc>,
    claims: seq<nat>)          // history: the blocks claimed, in order

  function Init(nblocks: nat, njobs: nat): State {
    State(Zeros(nblocks, 0), Zeros(nblocks, 0), Zeros(nblocks, []), None, Zeros(njobs, Head(0)), [])
  }

  predicate Holding(pc: Pc) {
    pc.Check? || pc.Skip? || pc.Claimed? || pc.Finish? || pc.Leave?
  }

  /** The thread is between claiming block `b` and marking it done. */
  predicate Owns(pc: Pc, b: nat) {
    (pc.Claimed? || pc.Work? || pc.Store? || pc.Relock? || pc.Finish?) && pc.b == b
  }

  /** A thread can move unless it has left or waits for a mutex somebody holds. */
  predicate Enabled(s: State, n: nat, w: nat) {
    && w < |s.pcs| && !s.pcs[w].Exit?
    && ((s.pcs[w].Head? && s.pcs[w].b < n) || s.pcs[w].Relock? ==> s.mutex.None?)
  }

  ghost predicate Shaped(s: State, n: nat) {
    && |s.status| == |s.compressedSize| == |s.cbuffer| == n
    && forall w :: 0 <= w < |s.pcs| && !s.pcs[w].Exit? ==> s.pcs[w].b <= n && (!s.pcs[w].Head? ==> s.pcs[w].b < n)
  }

  /** One step of thread `w`. */
  function Step(s: State, blocks: seq<seq<byte>>, c: Compressor, w: nat): State
    requires Shaped(s, |blocks|) && Enabled(s, |blocks|, w)
  {
    var pc := s.pcs[w];
    match pc
    case Head(b) =>
      if b < |blocks| then s.(mutex := Some(w), pcs := s.pcs[w := Check(b)]) else s.(pcs := s.pcs[w := Exit])
    case Check(b) =>
      if s.status[b] != 0 then s.(pcs := s.pcs[w := Skip(b)])
      else s.(status := s.status[b := 1], pcs := s.pcs[w := Claimed(b)], claims := s.claims + [b])
    case Skip(b) => s.(mutex := None, pcs := s.pcs[w := Head(b + 1)])
    case Claimed(b) => s.(mutex := None, pcs := s.pcs[w := Work(b)])
    case Work(b) =>
      (match c.compress(blocks[b], 2 * |blocks[b]|)
       case None => s.(pcs := s.pcs[w := Exit])
       case Some(y) =>
         if |y| > |blocks[b]| then s.(cbuffer := s.cbuffer[b := y], pcs := s.pcs[w := Exit])
         else s.(cbuffer := s.cbuffer[b := y], pcs := s.pcs[w := Store(b, |y|)]))
    case Store(b, rc) => s.(compressedSize := s.compressedSize[b := rc], pcs := s.pcs[w := Relock(b)])
    case Relock(b) => s.(mutex := Some(w), pcs := s.pcs[w := Finish(b)])
    case Finish(b) => s.(status := s.status[b := 2], pcs := s.pcs[w := Leave(b)])
    case Leave(b) => s.(mutex := None, pcs := s.pcs[w := Head(b + 1)])
  }

  // ---------- the invariant ----------

  /** The mutex is held by exactly the thread that stands in a critical section. */
  ghost predicate Mutual(s: State) {
    && (s.mutex.Some? ==> s.mutex.value < |s.pcs|)
    && forall w :: 0 <= w < |s.pcs| ==> (Holding(s.pcs[w]) <==> s.mutex == Some(w))
  }

  /** No block is claimed twice, and the claimed ones are those whose status has left 0. */
  ghost predicate Claims(s: State) {
    && (forall i, j :: 0 <= i < j < |s.claims| ==> s.claims[i] != s.claims[j])
    && (forall b :: 0 <= b < |s.status| ==> (b in s.claims <==> s.status[b] != 0))
    && (forall b :: 0 <= b < |s.status| ==> s.status[b] <= 2)
  }

  /** Ownership is exclusive and goes with status 1. */
  ghost predicate Owners(s: State) {
    && (forall w, b :: 0 <= w < |s.pcs| && 0 <= b < |s.status| && Owns(s.pcs[w], b) ==> s.status[b] == 1)
    && (forall w, w', b :: 0 <= w < |s.pcs| && 0 <= w' < |s.pcs| && Owns(s.pcs[w], b) && Owns(s.pcs[w'], b) ==> w == w')
  }

  /** How much of block `b`'s result its owner has put in the table. */
  ghost predicate Progress(s: State, blocks: seq<seq<byte>>, c: Compressor, w: nat)
    requires Shaped(s, |blocks|) && w < |s.pcs|
  {
    var pc := s.pcs[w];
    && (pc.Store? ==> Squeeze(c, blocks[pc.b]) == Some(s.cbuffer[pc.b]) && pc.rc == |s.cbuffer[pc.b]|)
    && (pc.Relock? || pc.Finish? ==> InTable(s, blocks, c, pc.b))
    && (!pc.Exit? ==> forall b :: 0 <= b < pc.b ==> s.status[b] != 0)
    && (pc.Skip? || pc.Leave? ==> s.status[pc.b] != 0)
  }

  ghost predicate InTable(s: State, blocks: seq<seq<byte>>, c: Compressor, b: nat)
    requires Shaped(s, |blocks|) && b < |blocks|
  {
    Squeeze(c, blocks[b]) == Some(s.cbuffer[b]) && s.compressedSize[b] == |s.cbuffer[b]|
  }

  /** A block with status 2 has its result in the table; one with status 1 has an owner or cannot be compressed. */
  ghost predicate Results(s: State, blocks: seq<seq<byte>>, c: Compressor)
    requires Shaped(s, |blocks|)
  {
    && (forall b :: 0 <= b < |blocks| && s.status[b] == 2 ==> InTable(s, blocks, c, b))
    && (forall b :: 0 <= b < |blocks| && s.status[b] == 1 && Squeeze(c, blocks[b]).Some? ==> Owned(s, b))
  }

  ghost predicate Owned(s: State, b: nat) {
    exists w :: 0 <= w < |s.pcs| && Owns(s.pcs[w], b)
  }

  /** A thread only leaves early over a block that cannot be compressed. */
  ghost predicate Exits(s: State, blocks: seq<seq<byte>>, c: Compressor)
    requires Shaped(s, |blocks|)
  {
    forall w :: 0 <= w < |s.pcs| && s.pcs[w].Exit? ==>
      (forall b :: 0 <= b < |blocks| ==> s.status[b] != 0)
      || (exists b :: 0 <= b < |blocks| && Squeeze(c, blocks[b]).None?)
  }

  ghost predicate Inv(s: State, blocks: seq<seq<byte>>, c: Compressor) {
    && Shaped(s, |blocks|) && Mutual(s) && Claims(s) && Owners(s)
    && (forall w :: 0 <= w < |s.pcs| ==> Progress(s, blocks, c, w))
    && Results(s, blocks, c) && Exits(s, blocks, c)
  }

  lemma InitInv(blocks: seq<seq<byte>>, c: Compressor, njobs: nat)
    ensures Inv(Init(|blocks|, njobs), blocks, c)
  {
  }

  lemma StepShaped(s: State, blocks: seq<seq<byte>>, c: Compressor, w: nat)
    requires Inv(s, blocks, c) && Enabled(s, |blocks|, w)
    ensures Shaped(Step(s, blocks, c, w), |blocks|) && Mutual(Step(s, blocks, c, w))
  {
  }

  lemma StepClaims(s: State, blocks: seq<seq<byte>>, c: Compressor, w: nat)
    requires Inv(s, blocks, c) && Enabled(s, |blocks|, w)
    ensures Claims(Step(s, blocks, c, w))
  {
  }

  /** A step writes only where its thread owns, and statuses never return to 0. */
  lemma StepLocal(s: State, blocks: seq<seq<byte>>, c: Compressor, w: nat)
    requires Inv(s, blocks, c) && Enabled(s, |blocks|, w)
    ensures var s' := Step(s, blocks, c, w);
            && |s'.pcs| == |s.pcs| && (forall w' :: 0 <= w' < |s.pcs| && w' != w ==> s'.pcs[w'] == s.pcs[w'])
            && |s'.status| == |s'.cbuffer| == |s'.compressedSize| == |blocks|
            && forall b :: 0 <= b < |blocks| ==>
                 && (s.status[b] != 0 ==> s'.status[b] != 0)
                 && (!Owns(s.pcs[w], b) ==>
                      s'.cbuffer[b] == s.cbuffer[b] && s'.compressedSize[b] == s.compressedSize[b])
                 && (s'.status[b] == 2 ==> s.status[b] == 2 || s.pcs[w] == Finish(b))
                 && (s'.status[b] == 1 ==> s.status[b] == 1 || s'.pcs[w] == Claimed(b))
  {
  }

  /** What a thread owns after a step it owned before or has just claimed, and its status is 1. */
  lemma StepOwns(s: State, blocks: seq<seq<byte>>, c: Compressor, w: nat, b: nat)
    requires Inv(s, blocks, c) && Enabled(s, |blocks|, w) && b < |blocks|
    ensures var s' := Step(s, blocks, c, w);
            && |s'.pcs| == |s.pcs| && |s'.status| == |blocks|
            && (Owns(s'.pcs[w], b) ==> s'.status[b] == 1 && (Owns(s.pcs[w], b) || s.status[b] == 0))
            && (s'.status[b] != s.status[b] ==> Owns(s.pcs[w], b) || s.status[b] == 0)
  {
  }

  lemma StepOwners(s: State, blocks: seq<seq<byte>>, c: Compressor, w: nat)
    requires Inv(s, blocks, c) && Enabled(s, |blocks|, w)
    ensures Owners(Step(s, blocks, c, w))
  {
    hide Step, Mutual, Claims, Progress, Results, Exits, Squeeze;
    var s' := Step(s, blocks, c, w);
    StepLocal(s, blocks, c, w);
    StepShaped(s, blocks, c, w);
    forall b | 0 <= b < |blocks|
      ensures Owns(s'.pcs[w], b) ==> s'.status[b] == 1 && (Owns(s.pcs[w], b) || s.status[b] == 0)
      ensures s'.status[b] != s.status[b] ==> Owns(s.pcs[w], b) || s.status[b] == 0
    {
      StepOwns(s, blocks, c, w, b);
    }
  }

  lemma StepProgress(s: State, blocks: seq<seq<byte>>, c: Compressor, w: nat, w': nat)
    requires Inv(s, blocks, c) && Enabled(s, |blocks|, w) && w' < |s.pcs|
    requires Shaped(Step(s, blocks, c, w), |blocks|)
    ensures Progress(Step(s, blocks, c, w), blocks, c, w')
  {
    StepLocal(s, blocks, c, w);
    assert Progress(s, blocks, c, w) && Progress(s, blocks, c, w');
    if w' != w && !s.pcs[w'].Exit? {
      var b := s.pcs[w'].b;
      if Owns(s.pcs[w'], b) { assert !Owns(s.pcs[w], b); }
    }
  }

  lemma StepResults(s: State, blocks: seq<seq<byte>>, c: Compressor, w: nat)
    requires Inv(s, blocks, c) && Enabled(s, |blocks|, w)
    requires Shaped(Step(s, blocks, c, w), |blocks|)
    ensures Results(Step(s, blocks, c, w), blocks, c)
  {
    var s' := Step(s, blocks, c, w);
    StepLocal(s, blocks, c, w);
    assert Progress(s, blocks, c, w);
    forall b | 0 <= b < |blocks| && s'.status[b] == 2
      ensures InTable(s', blocks, c, b)
    {
      if s.status[b] == 2 { assert InTable(s, blocks, c, b) && !Owns(s.pcs[w], b); }
    }
    forall b | 0 <= b < |blocks| && s'.status[b] == 1 && Squeeze(c, blocks[b]).Some?
      ensures Owned(s', b)
    {
      if s.status[b] == 1 {
        assert Owned(s, b);
        var o :| 0 <= o < |s.pcs| && Owns(s.pcs[o], b);
        assert Owns(s'.pcs[o], b);
      } else {
        assert Owns(s'.pcs[w], b);
      }
    }
  }

  lemma StepExits(s: State, blocks: seq<seq<byte>>, c: Compressor, w: nat)
    requires Inv(s, blocks, c) && Enabled(s, |blocks|, w)
    requires Shaped(Step(s, blocks, c, w), |blocks|)
    ensures Exits(Step(s, blocks, c, w), blocks, c)
  {
    var s' := Step(s, blocks, c, w);
    StepLocal(s, blocks, c, w);
    assert Progress(s, blocks, c, w);
    forall w' | 0 <= w' < |s'.pcs| && s'.pcs[w'].Exit?
      ensures (forall b :: 0 <= b < |blocks| ==> s'.status[b] != 0)
              || (exists b :: 0 <= b < |blocks| && Squeeze(c, blocks[b]).None?)
    {
      if w' == w && s.pcs[w].Work? { assert Squeeze(c, blocks[s.pcs[w].b]).None?; }
    }
  }

  /** Every step of every thread keeps the invariant. */
  lemma StepInv(s: State, blocks: seq<seq<byte>>, c: Compressor, w: nat)
    requires Inv(s, blocks, c) && Enabled(s, |blocks|, w)
    ensures Inv(Step(s, blocks, c, w), blocks, c)
  {
    hide Mutual, Claims, Owners, Progress, Results, Exits, Step, Enabled;
    StepShaped(s, blocks, c, w);
    StepClaims(s, blocks, c, w);
    StepOwners(s, blocks, c, w);
    StepResults(s, blocks, c, w);
    StepExits(s, blocks, c, w);
    assert |Step(s, blocks, c, w).pcs| == |s.pcs| by { StepLocal(s, blocks, c, w); }
    forall w' | 0 <= w' < |s.pcs|
      ensures Progress(Step(s, blocks, c, w), blocks, c, w')
    {
      StepProgress(s, blocks, c, w, w');
    }
  }

  /** A status only ever moves from 0 to 1, by a claim, and from 1 to 2, by the claimant. */
  lemma StatusMoves(s: State, blocks: seq<seq<byte>>, c: Compressor, w: nat, b: nat)
    requires Inv(s, blocks, c) && Enabled(s, |blocks|, w) && b < |blocks|
    ensures var s' := Step(s, blocks, c, w);
            || s'.status[b] == s.status[b]
            || (s.status[b] == 0 && s'.status[b] == 1 && b !in s.claims && s'.claims == s.claims + [b]
               && Owns(s'.pcs[w], b))
            || (s.status[b] == 1 && s'.status[b] == 2 && Owns(s.pcs[w], b))
  {
  }

  // ---------- runs ----------

  ghost predicate Quiet(s: State) {
    forall w :: 0 <= w < |s.pcs| ==> s.pcs[w].Exit?
  }

  /** As long as a thread has not left, some thread can move. */
  lemma NoDeadlock(s: State, blocks: seq<seq<byte>>, c: Compressor)
    requires Inv(s, blocks, c) && !Quiet(s)
    ensures exists w: nat :: w < |s.pcs| && Enabled(s, |blocks|, w)
  {
    var w :| 0 <= w < |s.pcs| && !s.pcs[w].Exit?;
    if !Enabled(s, |blocks|, w) {
      assert Enabled(s, |blocks|, s.mutex.value);
    }
  }

  /** The steps a thread can still take from where it stands. */
  function Rank(pc: Pc, n: nat): nat
    requires !pc.Exit? ==> pc.b <= n && (!pc.Head? ==> pc.b < n)
  {
    match pc
    case Head(b) => 8 * (n - b) + 1
    case Check(b) => 8 * (n - b)
    case Claimed(b) => 8 * (n - b) - 1
    case Work(b) => 8 * (n - b) - 2
    case Store(b, _) => 8 * (n - b) - 3
    case Relock(b) => 8 * (n - b) - 4
    case Finish(b) => 8 * (n - b) - 5
    case Skip(b) => 8 * (n - b) - 6
    case Leave(b) => 8 * (n - b) - 6
    case Exit => 0
  }

  function Ranks(pcs: seq<Pc>, n: nat): nat
    requires forall w :: 0 <= w < |pcs| && !pcs[w].Exit? ==> pcs[w].b <= n && (!pcs[w].Head? ==> pcs[w].b < n)
  {
    if pcs == [] then 0 else Rank(pcs[0], n) + Ranks(pcs[1..], n)
  }

  lemma {:induction false} RanksUpdate(pcs: seq<Pc>, n: nat, w: nat, pc: Pc)
    requires forall w :: 0 <= w < |pcs| && !pcs[w].Exit? ==> pcs[w].b <= n && (!pcs[w].Head? ==> pcs[w].b < n)
    requires w < |pcs| && (!pc.Exit? ==> pc.b <= n && (!pc.Head? ==> pc.b < n)) && Rank(pc, n) < Rank(pcs[w], n)
    ensures Ranks(pcs[w := pc], n) < Ranks(pcs, n)
  {
    if w == 0 {
      assert pcs[w := pc][1..] == pcs[1..];
    } else {
      RanksUpdate(pcs[1..], n, w - 1, pc);
      assert pcs[w := pc][1..] == pcs[1..][w - 1 := pc];
    }
  }

  /** Every step uses up part of a finite budget, so every run ends. */
  lemma StepRanks(s: State, blocks: seq<seq<byte>>, c: Compressor, w: nat)
    requires Inv(s, blocks, c) && Enabled(s, |blocks|, w)
    requires Shaped(Step(s, blocks, c, w), |blocks|)
    ensures Ranks(Step(s, blocks, c, w).pcs, |blocks|) < Ranks(s.pcs, |blocks|)
  {
    hide Ranks, Step, Inv, Enabled, Rank;
    RankDrops(s, blocks, c, w);
    RanksUpdate(s.pcs, |blocks|, w, Step(s, blocks, c, w).pcs[w]);
  }

  lemma RankDrops(s: State, blocks: seq<seq<byte>>, c: Compressor, w: nat)
    requires Inv(s, blocks, c) && Enabled(s, |blocks|, w)
    ensures var s', n := Step(s, blocks, c, w), |blocks|;
            && w < |s'.pcs| == |s.pcs| && Shaped(s, n) && Shaped(s', n) && s'.pcs == s.pcs[w := s'.pcs[w]]
            && Rank(s'.pcs[w], n) < Rank(s.pcs[w], n)
  {
  }

  /** Following the schedule `sched`, one thread number a step, leads from `s` to `t`. */
  ghost predicate Run(s: State, blocks: seq<seq<byte>>, c: Compressor, sched: seq<nat>, t: State)
    decreases sched
  {
    if sched == [] then s == t
    else
      Shaped(s, |blocks|) && Enabled(s, |blocks|, sched[0])
      && Run(Step(s, blocks, c, sched[0]), blocks, c, sched[1..], t)
  }

  lemma {:induction false} RunInv(s: State, blocks: seq<seq<byte>>, c: Compressor, sched: seq<nat>, t: State)
    requires Inv(s, blocks, c) && Run(s, blocks, c, sched, t)
    ensures Inv(t, blocks, c) && |t.pcs| == |s.pcs|
    ensures |sched| + Ranks(t.pcs, |blocks|) <= Ranks(s.pcs, |blocks|)
    decreases sched
  {
    if sched != [] {
      StepInv(s, blocks, c, sched[0]);
      StepRanks(s, blocks, c, sched[0]);
      StepLocal(s, blocks, c, sched[0]);
      RunInv(Step(s, blocks, c, sched[0]), blocks, c, sched[1..], t);
    }
  }

  ghost predicate AllDone(s: State) {
    forall b :: 0 <= b < |s.status| ==> s.status[b] == 2
  }

  /**
    Once every thread has left, all statuses are 2 exactly when every block compresses, and then the table is
    the sequential one.
   */
  lemma QuietResult(s: State, blocks: seq<seq<byte>>, c: Compressor)
    requires Inv(s, blocks, c) && Quiet(s) && |s.pcs| > 0
    ensures AllDone(s) <==> SqueezeAll(blocks, c).Some?
    ensures AllDone(s) ==> SqueezeAll(blocks, c) == Some(s.cbuffer)
    ensures AllDone(s) ==> forall b :: 0 <= b < |blocks| ==> s.compressedSize[b] == |s.cbuffer[b]|
  {
    if AllDone(s) {
      forall b | 0 <= b < |blocks|
        ensures Squeeze(c, blocks[b]) == Some(s.cbuffer[b])
      {
        assert InTable(s, blocks, c, b);
      }
      var r := SqueezeAll(blocks, c).value;
      assert forall b :: 0 <= b < |blocks| ==> Squeeze(c, blocks[b]) == Some(r[b]);
      assert r == s.cbuffer;
    } else {
      var b :| 0 <= b < |s.status| && s.status[b] != 2;
      assert s.pcs[0].Exit? && !Owned(s, b);
    }
  }

  /**
    The protocol, over every schedule of at least one thread: it cannot run for more steps than its
    budget, no block is ever claimed twice, and when the last thread has left the table is what one
    thread alone would have produced, or is incomplete because some block cannot be compressed.
   */
  lemma EverySchedule(blocks: seq<seq<byte>>, c: Compressor, njobs: nat, sched: seq<nat>, t: State)
    requires njobs > 0 && Run(Init(|blocks|, njobs), blocks, c, sched, t)
    ensures |sched| <= njobs * (8 * |blocks| + 1)
    ensures forall i, j :: 0 <= i < j < |t.claims| ==> t.claims[i] != t.claims[j]
    ensures Quiet(t) ==> (AllDone(t) <==> SqueezeAll(blocks, c).Some?)
    ensures Quiet(t) && AllDone(t) ==> SqueezeAll(blocks, c) == Some(t.cbuffer)
    ensures !Quiet(t) ==> exists w: nat :: w < |t.pcs| && Enabled(t, |blocks|, w)
  {
    InitInv(blocks, c, njobs);
    InitRanks(|blocks|, njobs);
    RunInv(Init(|blocks|, njobs), blocks, c, sched, t);
    if Quiet(t) { QuietResult(t, blocks, c); } else { NoDeadlock(t, blocks, c); }
  }

  /** The blocks below `k` are done, block `k` has status `at`, and nobody has touched those behind it. */
  ghost predicate Reached(s: State, blocks: seq<seq<byte>>, c: Compressor, k: nat, at: nat) {
    && |s.status| == |blocks| && k <= |blocks| && (k < |blocks| ==> s.status[k] == at)
    && (forall b :: 0 <= b < k ==> s.status[b] == 2 && Squeeze(c, blocks[b]).Some?)
    && forall b :: k < b < |blocks| ==> s.status[b] == 0
  }

  /** What a single thread has done by where it stands. */
  ghost predicate Alone(s: State, blocks: seq<seq<byte>>, c: Compressor) {
    && Shaped(s, |blocks|) && |s.pcs| == 1
    && match s.pcs[0]
       case Head(b) => Reached(s, blocks, c, b, 0)
       case Check(b) => Reached(s, blocks, c, b, 0)
       case Skip(b) => false
       case Claimed(b) => Reached(s, blocks, c, b, 1)
       case Work(b) => Reached(s, blocks, c, b, 1)
       case Store(b, _) => Reached(s, blocks, c, b, 1) && Squeeze(c, blocks[b]).Some?
       case Relock(b) => Reached(s, blocks, c, b, 1) && Squeeze(c, blocks[b]).Some?
       case Finish(b) => Reached(s, blocks, c, b, 1) && Squeeze(c, blocks[b]).Some?
       case Leave(b) => Reached(s, blocks, c, b + 1, 0)
       case Exit => exists k: nat :: Reached(s, blocks, c, k, 1) && (k < |blocks| ==> Squeeze(c, blocks[k]).None?)
  }

  lemma StepAlone(s: State, blocks: seq<seq<byte>>, c: Compressor)
    requires Alone(s, blocks, c) && Enabled(s, |blocks|, 0)
    ensures Alone(Step(s, blocks, c, 0), blocks, c)
  {
    hide Squeeze, Reached;
    var t := Step(s, blocks, c, 0);
    match s.pcs[0]
    case Head(b) =>
      SameStatus(s, t, blocks, c, b, 0);
      if b >= |blocks| { EndReached(s, t, blocks, c, b); }
    case Check(b) => Touched(s, t, blocks, c, b);
    case Skip(b) =>
    case Claimed(b) => SameStatus(s, t, blocks, c, b, 1);
    case Work(b) =>
      SameStatus(s, t, blocks, c, b, 1);
      SqueezeIs(c, blocks[b]);
    case Store(b, _) => SameStatus(s, t, blocks, c, b, 1);
    case Relock(b) => SameStatus(s, t, blocks, c, b, 1);
    case Finish(b) => Done(s, t, blocks, c, b);
    case Leave(b) => SameStatus(s, t, blocks, c, b + 1, 0);
    case Exit =>
  }

  lemma SqueezeIs(c: Compressor, x: seq<byte>)
    ensures var y := c.compress(x, 2 * |x|); Squeeze(c, x).Some? <==> y.Some? && |y.value| <= |x|
  {
  }

  lemma SameStatus(s: State, t: State, blocks: seq<seq<byte>>, c: Compressor, k: nat, at: nat)
    requires Reached(s, blocks, c, k, at) && t.status == s.status
    ensures Reached(t, blocks, c, k, at)
  {
  }

  lemma EndReached(s: State, t: State, blocks: seq<seq<byte>>, c: Compressor, k: nat)
    requires Reached(s, blocks, c, k, 0) && t.status == s.status && k >= |blocks|
    ensures Reached(t, blocks, c, k, 1) && k == |blocks|
  {
  }

  lemma Touched(s: State, t: State, blocks: seq<seq<byte>>, c: Compressor, b: nat)
    requires Reached(s, blocks, c, b, 0) && b < |blocks|
    ensures s.status[b] == 0 && (t.status == s.status[b := 1] ==> Reached(t, blocks, c, b, 1))
  {
  }

  lemma Done(s: State, t: State, blocks: seq<seq<byte>>, c: Compressor, b: nat)
    requires Reached(s, blocks, c, b, 1) && b < |blocks| && Squeeze(c, blocks[b]).Some? && t.status == s.status[b := 2]
    ensures Reached(t, blocks, c, b + 1, 0)
  {
  }

  lemma {:induction false} RunAlone(s: State, blocks: seq<seq<byte>>, c: Compressor, sched: seq<nat>, t: State)
    requires Alone(s, blocks, c) && Run(s, blocks, c, sched, t)
    ensures Alone(t, blocks, c)
    decreases sched
  {
    hide Alone, Step;
    if sched != [] {
      OnlyOne(s, blocks, c, sched[0]);
      StepAlone(s, blocks, c);
      RunAlone(Step(s, blocks, c, 0), blocks, c, sched[1..], t);
    }
  }

  lemma OnlyOne(s: State, blocks: seq<seq<byte>>, c: Compressor, w: nat)
    requires Alone(s, blocks, c) && Enabled(s, |blocks|, w)
    ensures w == 0
  {
  }

  /**
    A thread leaves over the first block that does not compress: a single one has done all before that one, left
    its status 1, and touched none behind it.
   */
  lemma OneJob(blocks: seq<seq<byte>>, c: Compressor, sched: seq<nat>, t: State)
    requires Run(Init(|blocks|, 1), blocks, c, sched, t) && Quiet(t)
    ensures |t.status| == |blocks|
    ensures exists k :: 0 <= k <= |blocks|
                        && (forall b :: 0 <= b < k ==> t.status[b] == 2 && Squeeze(c, blocks[b]).Some?)
                        && (k < |blocks| ==> t.status[k] == 1 && Squeeze(c, blocks[k]).None?)
                        && forall b :: k < b < |blocks| ==> t.status[b] == 0
  {
    assert Alone(Init(|blocks|, 1), blocks, c);
    RunAlone(Init(|blocks|, 1), blocks, c, sched, t);
    var k: nat :| Reached(t, blocks, c, k, 1) && (k < |blocks| ==> Squeeze(c, blocks[k]).None?);
  }

  lemma {:induction false} InitRanks(n: nat, njobs: nat)
    ensures Ranks(Init(n, njobs).pcs, n) == njobs * (8 * n + 1)
  {
    var pcs := Init(n, njobs).pcs;
    if njobs > 0 {
      assert pcs[1..] == Init(n, njobs - 1).pcs;
      InitRanks(n, njobs - 1);
      assert (njobs - 1) * (8 * n + 1) + (8 * n + 1) == njobs * (8 * n + 1);
    }
  }

  /** Starting the jobs and joining them, under a scheduler that picks any thread able to move. */
  method RunJobs(blocks: seq<seq<byte>>, c: Compressor, njobs: nat) returns (s: State)
    requires njobs > 0
    ensures |s.status| == |s.cbuffer| == |s.compressedSize| == |blocks|
    ensures AllDone(s) <==> SqueezeAll(blocks, c).Some?
    ensures AllDone(s) ==> SqueezeAll(blocks, c) == Some(s.cbuffer)
    ensures AllDone(s) ==> forall b :: 0 <= b < |blocks| ==> s.compressedSize[b] == |s.cbuffer[b]|
  {
    hide Mutual, Claims, Owners, Progress, Results, Exits, Step, AllDone;
    InitInv(blocks, c, njobs);
    s := Init(|blocks|, njobs);
    while exists w: nat :: w < |s.pcs| && !s.pcs[w].Exit?
      invariant Inv(s, blocks, c) && |s.pcs| == njobs
      decreases Ranks(s.pcs, |blocks|)
    {
      NoDeadlock(s, blocks, c);
      var w: nat :| w < |s.pcs| && Enabled(s, |blocks|, w);
      StepInv(s, blocks, c, w);
      StepRanks(s, blocks, c, w);
      StepLocal(s, blocks, c, w);
      s := Step(s, blocks, c, w);
    }
    QuietResult(s, blocks, c);
  }
}
