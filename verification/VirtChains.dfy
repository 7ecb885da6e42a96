/**
 Descriptor chains of a virtqueue: what allocation, building and freeing do to the free
 chain and to the chains in flight.
 */
module VirtChains {
  import opened Lists
  import opened VirtQueue

  function NextOf(c: seq<nat>, k: nat): nat
    requires k < |c|
  {
    if k + 1 < |c| then c[k + 1] else INVALID
  }

  function HeadOf(c: seq<nat>): nat {
    if c == [] then INVALID else c[0]
  }

  ghost predicate LinkAt(desc: seq<Desc>, c: seq<nat>, k: nat)
    requires k < |c|
  {
    c[k] < |desc| && desc[c[k]].next == NextOf(c, k)
  }

  /** Following `next` from c[0] visits c and ends in INVALID. */
  ghost predicate Linked(desc: seq<Desc>, c: seq<nat>) {
    forall k: nat {:trigger LinkAt(desc, c, k)} :: k < |c| ==> LinkAt(desc, c, k)
  }

  ghost predicate FreeOk(q: Queue, free: seq<nat>) {
    Size(q) <= MAX_SIZE && NoDup(free) && Linked(q.desc, free) && q.numFree == |free| && q.freeHead == HeadOf(free)
  }

  lemma LinkedFrame(desc: seq<Desc>, desc': seq<Desc>, c: seq<nat>)
    requires Linked(desc, c) && |desc'| == |desc|
    requires forall k: nat :: k < |c| && c[k] < |desc| ==> desc'[c[k]].next == desc[c[k]].next
    ensures Linked(desc', c)
  {
    forall k: nat | k < |c| ensures LinkAt(desc', c, k) {
      assert LinkAt(desc, c, k);
    }
  }

  lemma InitFree(q: Queue)
    requires 1 <= Size(q) <= MAX_SIZE && q.desc == InitDesc(Size(q)) && q.freeHead == 0 && q.numFree == Size(q)
    ensures FreeOk(q, seq(Size(q), i requires 0 <= i => i))
  {
    var free := seq(Size(q), i requires 0 <= i => i);
    forall k: nat | k < |free| ensures LinkAt(q.desc, free, k) {
    }
  }

  // ---------------------------------------------------------------------------
  // Freeing
  // ---------------------------------------------------------------------------

  /** Freeing the descriptors of c one after another. */
  function FreeSeq(q: Queue, c: seq<nat>): (r: Queue)
    ensures SameRings(q, r)
    decreases |c|
  {
    if c == [] then q else FreeSeq(FreeDesc(q, c[0]), c[1..])
  }

  /** Descriptors not in c keep their content; those in c are wiped except for `next`. */
  ghost predicate OnlyFreed(q: Queue, r: Queue, c: seq<nat>) {
    && SameRings(q, r)
    && (forall i: nat :: i < Size(q) && i !in c ==> r.desc[i] == q.desc[i])
    && (forall i: nat :: i < Size(q) && i in c ==> r.desc[i] == Desc(0, 0, 0, r.desc[i].next))
  }

  /** Freed descriptors are stacked on the free chain, the last one on top. */
  lemma {:induction false} FreeSeqStacks(q: Queue, c: seq<nat>, free: seq<nat>)
    requires FreeOk(q, free) && NoDup(c)
    requires forall k: nat :: k < |c| ==> c[k] < Size(q) && c[k] !in free
    ensures FreeOk(FreeSeq(q, c), Reversed(c) + free)
    ensures OnlyFreed(q, FreeSeq(q, c), c)
    decreases |c|
  {
    if c == [] {
      assert Reversed(c) + free == free;
    } else {
      var q1, free1, rest := FreeDesc(q, c[0]), [c[0]] + free, c[1..];
      FreeDescPush(q, c[0], free);
      forall k: nat | k < |rest| ensures rest[k] < Size(q) && rest[k] !in free1 {
        assert rest[k] == c[k + 1];
      }
      FreeSeqStacks(q1, rest, free1);
      assert Reversed(c) + free == Reversed(rest) + free1;
      assert c == [c[0]] + rest;
    }
  }

  lemma FreeDescPush(q: Queue, x: nat, free: seq<nat>)
    requires FreeOk(q, free) && x < Size(q) && x !in free
    ensures FreeOk(FreeDesc(q, x), [x] + free)
  {
    var q', c := FreeDesc(q, x), [x] + free;
    forall k: nat | k < |c| ensures LinkAt(q'.desc, c, k) {
      if k > 0 {
        assert LinkAt(q.desc, free, k - 1);
        assert free[k - 1] in free;
      }
    }
  }

  /** virtq_free_chain on a well-formed chain frees exactly that chain: the walk follows
      the links and the loop guard never fires. */
  lemma {:induction false} FreeLoopWalks(q: Queue, c: seq<nat>, count: nat)
    requires Size(q) <= MAX_SIZE && Linked(q.desc, c) && NoDup(c) && count + |c| <= Size(q)
    ensures FreeLoop(q, HeadOf(c), count) == FreeSeq(q, c)
    decreases |c|
  {
    if c != [] {
      var q1, rest := FreeDesc(q, c[0]), c[1..];
      assert LinkAt(q.desc, c, 0);
      forall k: nat | k < |rest| ensures LinkAt(q1.desc, rest, k) {
        assert LinkAt(q.desc, c, k + 1);
      }
      FreeLoopWalks(q1, rest, count + 1);
    }
  }

  lemma FreeChainFreesChain(q: Queue, c: seq<nat>, free: seq<nat>)
    requires FreeOk(q, free) && Linked(q.desc, c) && NoDup(c) && c != [] && |c| <= Size(q)
    requires forall k: nat :: k < |c| ==> c[k] !in free
    ensures FreeOk(FreeChain(q, c[0]), Reversed(c) + free)
    ensures OnlyFreed(q, FreeChain(q, c[0]), c)
  {
    forall k: nat | k < |c| ensures c[k] < Size(q) {
      assert LinkAt(q.desc, c, k);
    }
    FreeLoopWalks(q, c, 0);
    FreeSeqStacks(q, c, free);
  }

  // ---------------------------------------------------------------------------
  // Building
  // ---------------------------------------------------------------------------

  /** The k-th descriptor of a chain carrying these buffers. */
  function Entry(c: seq<nat>, bufs: seq<Buffer>, k: nat): Desc
    requires k < |c| == |bufs|
  {
    Desc(bufs[k].addr, bufs[k].len,
         if k + 1 < |c| then WriteFlag(bufs[k]) | F_NEXT else WriteFlag(bufs[k]),
         NextOf(c, k))
  }

  ghost predicate HoldsAt(desc: seq<Desc>, c: seq<nat>, bufs: seq<Buffer>, k: nat)
    requires k < |c| == |bufs|
  {
    c[k] < |desc| && desc[c[k]] == Entry(c, bufs, k)
  }

  /** The chain c lists exactly these buffers, in order. */
  ghost predicate ChainHolds(desc: seq<Desc>, c: seq<nat>, bufs: seq<Buffer>) {
    && |c| == |bufs|
    && forall k: nat {:trigger HoldsAt(desc, c, bufs, k)} :: k < |c| ==> HoldsAt(desc, c, bufs, k)
  }

  lemma HoldsLinked(desc: seq<Desc>, c: seq<nat>, bufs: seq<Buffer>)
    requires ChainHolds(desc, c, bufs)
    ensures Linked(desc, c)
  {
    forall k: nat | k < |c| ensures LinkAt(desc, c, k) {
      assert HoldsAt(desc, c, bufs, k);
    }
  }

  function LastOf(c: seq<nat>): nat {
    if c == [] then INVALID else c[|c| - 1]
  }

  /** One loop pass moves the first free descriptor to the end of the chain. */
  lemma AppendStep(q: Queue, free: seq<nat>, c: seq<nat>, bufs: seq<Buffer>, b: Buffer)
    requires FreeOk(q, free) && free != [] && ChainHolds(q.desc, c, bufs) && NoDup(c + free)
    ensures CanAlloc(q) && q.freeHead == free[0] && (HeadOf(c) != INVALID ==> LastOf(c) < Size(q))
    ensures
      var q' := AppendDesc(q, HeadOf(c), LastOf(c), b);
      && FreeOk(q', free[1..])
      && ChainHolds(q'.desc, c + [free[0]], bufs + [b])
      && (forall i: nat :: i < Size(q) && i !in c && i !in free ==> q'.desc[i] == q.desc[i])
  {
    NoDupSplit(c, free);
    assert forall i, j :: 0 <= i < |c| && 0 <= j < |free| ==> c[i] in c && free[j] in free;
    assert LinkAt(q.desc, free, 0);
    if c != [] {
      assert HoldsAt(q.desc, c, bufs, 0) && HoldsAt(q.desc, c, bufs, |c| - 1);
    }
    var q' := AppendDesc(q, HeadOf(c), LastOf(c), b);
    AppendFree(q, free, c, b);
    forall k: nat | k < |c + [free[0]]| ensures HoldsAt(q'.desc, c + [free[0]], bufs + [b], k) {
      if k < |c| {
        assert HoldsAt(q.desc, c, bufs, k);
      }
    }
  }

  lemma AppendFree(q: Queue, free: seq<nat>, c: seq<nat>, b: Buffer)
    requires FreeOk(q, free) && free != [] && CanAlloc(q) && (HeadOf(c) != INVALID ==> LastOf(c) < Size(q))
    requires forall i, j :: 0 <= i < |c| && 0 <= j < |free| ==> c[i] != free[j]
    ensures FreeOk(AppendDesc(q, HeadOf(c), LastOf(c), b), free[1..])
  {
    var q', tail := AppendDesc(q, HeadOf(c), LastOf(c), b), free[1..];
    assert LinkAt(q.desc, free, 0);
    forall k: nat | k < |tail| ensures LinkAt(q'.desc, tail, k) {
      assert LinkAt(q.desc, free, k + 1);
      assert tail[k] == free[k + 1] != free[0];
    }
  }

  /** What the two loops do, starting with the chain c already built: either all buffers
      find a descriptor, taken from the front of the free chain, or every descriptor in
      play goes back to it. */
  ghost predicate BuildOutcome(q: Queue, free: seq<nat>, c: seq<nat>, done: seq<Buffer>, bufs: seq<Buffer>, r: Built) {
    && SameRings(q, r.q)
    && r.ok == (|bufs| <= |free|)
    && (r.ok ==>
          && r.head == HeadOf(c + free[..|bufs|])
          && FreeOk(r.q, free[|bufs|..])
          && ChainHolds(r.q.desc, c + free[..|bufs|], done + bufs))
    && (!r.ok ==> FreeOk(r.q, Reversed(c + free)))
    && (forall i: nat :: i < Size(q) && i !in c && i !in free ==> r.q.desc[i] == q.desc[i])
  }

  lemma {:induction false} BuildEffect(q: Queue, free: seq<nat>, c: seq<nat>, done: seq<Buffer>, bufs: seq<Buffer>)
    requires FreeOk(q, free) && ChainHolds(q.desc, c, done) && NoDup(c + free) && |c + free| <= Size(q)
    requires HeadOf(c) != INVALID ==> LastOf(c) < Size(q)
    ensures BuildOutcome(q, free, c, done, bufs, BuildChain(q, HeadOf(c), LastOf(c), bufs))
    decreases |bufs|
  {
    if bufs == [] {
      assert free[|bufs|..] == free && c + free[..|bufs|] == c && done + bufs == done;
    } else if free == [] {
      assert c + free == c;
      RollBack(q, c, done);
    } else {
      AppendStep(q, free, c, done, bufs[0]);
      var q' := AppendDesc(q, HeadOf(c), LastOf(c), bufs[0]);
      var c', free', done', bufs' := c + [free[0]], free[1..], done + [bufs[0]], bufs[1..];
      assert c' + free' == c + free;
      assert HeadOf(c') == if HeadOf(c) == INVALID then free[0] else HeadOf(c) by {
        if c != [] { assert HoldsAt(q.desc, c, done, 0); }
      }
      assert LinkAt(q.desc, free, 0);
      BuildEffect(q', free', c', done', bufs');
      BuildCons(q, free, c, done, bufs, q', BuildChain(q', HeadOf(c'), free[0], bufs'));
    }
  }

  lemma BuildCons(q: Queue, free: seq<nat>, c: seq<nat>, done: seq<Buffer>, bufs: seq<Buffer>, q': Queue, r: Built)
    requires bufs != [] && free != [] && SameRings(q, q')
    requires forall i: nat :: i < Size(q) && i !in c && i !in free ==> q'.desc[i] == q.desc[i]
    requires BuildOutcome(q', free[1..], c + [free[0]], done + [bufs[0]], bufs[1..], r)
    ensures BuildOutcome(q, free, c, done, bufs, r)
  {
    var c', free', done', bufs' := c + [free[0]], free[1..], done + [bufs[0]], bufs[1..];
    assert done' + bufs' == done + bufs && c' + free' == c + free;
    assert free == [free[0]] + free';
    if |bufs| <= |free| {
      assert c' + free'[..|bufs'|] == c + free[..|bufs|];
      assert free'[|bufs'|..] == free[|bufs|..];
    }
  }

  lemma RollBack(q: Queue, c: seq<nat>, done: seq<Buffer>)
    requires FreeOk(q, []) && ChainHolds(q.desc, c, done) && NoDup(c) && |c| <= Size(q)
    ensures
      var r := if HeadOf(c) != INVALID then FreeChain(q, HeadOf(c)) else q;
      && FreeOk(r, Reversed(c))
      && (forall i: nat :: i < Size(q) && i !in c ==> r.desc[i] == q.desc[i])
  {
    if c == [] {
      assert Reversed(c) == [];
    } else {
      HoldsLinked(q.desc, c, done);
      assert HoldsAt(q.desc, c, done, 0);
      FreeChainFreesChain(q, c, []);
      assert Reversed(c) + [] == Reversed(c);
    }
  }
}
