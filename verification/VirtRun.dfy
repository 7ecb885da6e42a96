/**
 Runs of a virtqueue: a driver that adds and reclaims buffers, and a device that consumes
 the available ring in order, completes consumed chains in any order, each once, and may
 post ids outside the descriptor table.
 */
module VirtRun {
  import opened Lists
  import opened Modular
  import opened VirtQueue
  import opened VirtChains

  datatype Owner = Unused | InChain(head: nat)

  /** What a chain was published with: a list of buffers, or one raw descriptor. */
  datatype Content = Sent(bufs: seq<Buffer>) | Raw(addr: nat, len: nat, flags: bv16)

  /** Where every descriptor is (`free`, `chains`, and the same by descriptor in `owner`),
      where every chain in flight is (published but not consumed, at the device, or
      posted in the used ring but not reclaimed), what each carries, and the whole history:
      everything requested, posted by the device and returned to the caller. */
  datatype Track = Track(
    free: seq<nat>,
    chains: map<nat, seq<nat>>,
    owner: seq<Owner>,
    availQ: seq<nat>,
    atDevice: set<nat>,
    usedQ: seq<UsedElem>,
    sent: map<nat, Content>,
    requests: seq<Content>,
    posted: seq<UsedElem>,
    got: seq<UsedElem>)

  /** The heads among used elements of a queue of n descriptors; ids outside the table are
      skipped by the driver. */
  function HeadsOf(us: seq<UsedElem>, n: nat): seq<nat> {
    if us == [] then []
    else if us[0].id < n then [us[0].id] + HeadsOf(us[1..], n)
    else HeadsOf(us[1..], n)
  }

  lemma {:induction false} HeadsSnoc(us: seq<UsedElem>, e: UsedElem, n: nat)
    ensures HeadsOf(us + [e], n) == HeadsOf(us, n) + if e.id < n then [e.id] else []
  {
    if us == [] {
      assert us + [e] == [e];
    } else {
      assert (us + [e])[1..] == us[1..] + [e];
      HeadsSnoc(us[1..], e, n);
    }
  }

  /** The used elements themselves, without those the driver skips. */
  function GenuineOf(us: seq<UsedElem>, n: nat): seq<UsedElem> {
    if us == [] then []
    else if us[0].id < n then [us[0]] + GenuineOf(us[1..], n)
    else GenuineOf(us[1..], n)
  }

  lemma {:induction false} GenuineSnoc(us: seq<UsedElem>, e: UsedElem, n: nat)
    ensures GenuineOf(us + [e], n) == GenuineOf(us, n) + if e.id < n then [e] else []
  {
    if us == [] {
      assert us + [e] == [e];
    } else {
      assert (us + [e])[1..] == us[1..] + [e];
      GenuineSnoc(us[1..], e, n);
    }
  }

  function UsedHeads(g: Track): seq<nat> {
    HeadsOf(g.usedQ, |g.owner|)
  }

  // ---------------------------------------------------------------------------
  // The invariant
  // ---------------------------------------------------------------------------

  ghost predicate PlacedAt(g: Track, i: nat)
    requires i < |g.owner|
  {
    match g.owner[i]
    case Unused => i in g.free && i !in g.chains
    case InChain(h) => i !in g.free && h in g.chains && i in g.chains[h]
  }

  ghost predicate ChainOk(q: Queue, g: Track, h: nat)
    requires h in g.chains
  {
    var c := g.chains[h];
    && c != [] && c[0] == h && NoDup(c) && Linked(q.desc, c)
    && forall k :: 0 <= k < |c| ==> c[k] < |g.owner| && g.owner[c[k]] == InChain(h)
  }

  /** Every descriptor is in exactly one of the free chain and the chains in flight; each
      of these ends in INVALID and repeats nothing. */
  ghost predicate OwnOk(q: Queue, g: Track) {
    && FreeOk(q, g.free) && |g.owner| == Size(q)
    && (forall i: nat {:trigger PlacedAt(g, i)} :: i < Size(q) ==> PlacedAt(g, i))
    && (forall h: nat {:trigger ChainOk(q, g, h)} :: h in g.chains ==> ChainOk(q, g, h))
  }

  function Consumed(g: Track): int {
    |g.requests| - |g.availQ|
  }

  function Reclaimed(g: Track): int {
    |g.posted| - |g.usedQ|
  }

  function Cell(base: nat, j: nat, n: nat): (c: nat)
    requires n > 0
    ensures c < n
  {
    (base + j) % n
  }

  /** The ring holds the queue in consecutive cells from the one `base` selects. */
  ghost predicate RingHolds<T>(ring: seq<T>, base: nat, queue: seq<T>) {
    |ring| > 0 && forall j: nat :: j < |queue| ==> ring[Cell(base, j, |ring|)] == queue[j]
  }

  /** Adding behind a queue shorter than the ring overwrites none of its entries. */
  lemma RingPush<T>(ring: seq<T>, base: nat, queue: seq<T>, x: T)
    requires RingHolds(ring, base, queue) && |queue| < |ring|
    ensures RingHolds(ring[Cell(base, |queue|, |ring|) := x], base, queue + [x])
    ensures forall j: nat :: j < |queue| ==> Cell(base, j, |ring|) != Cell(base, |queue|, |ring|)
  {
    forall j: nat | j < |queue| ensures Cell(base, j, |ring|) != Cell(base, |queue|, |ring|) {
      ResiduesDiffer(base + j, base + |queue|, |ring|);
    }
  }

  lemma RingPop<T>(ring: seq<T>, base: nat, queue: seq<T>)
    requires RingHolds(ring, base, queue) && queue != []
    ensures ring[base % |ring|] == queue[0]
    ensures RingHolds(ring, base + 1, queue[1..])
  {
    assert Cell(base, 0, |ring|) == base % |ring|;
    forall j: nat | j < |queue[1..]| ensures ring[Cell(base + 1, j, |ring|)] == queue[1..][j] {
      assert Cell(base + 1, j, |ring|) == Cell(base, j + 1, |ring|);
    }
  }

  /** The 16-bit indices count publications, completions and reclaims. */
  ghost predicate IndicesOk(q: Queue, g: Track) {
    && Consumed(g) >= 0 && Reclaimed(g) >= 0
    && q.availIdx == |g.requests| % IDX_WRAP
    && q.usedIdx == |g.posted| % IDX_WRAP
    && q.lastUsedIdx == Reclaimed(g) % IDX_WRAP
  }

  /** The two rings still hold every entry that is to be read. */
  ghost predicate RingsOk(q: Queue, g: Track) {
    && Shaped(q) && IndicesOk(q, g)
    && RingHolds(q.avail, Consumed(g), g.availQ)
    && RingHolds(q.used, Reclaimed(g), g.usedQ) && |g.usedQ| <= Size(q)
  }

  /** Each chain in flight is at exactly one of the three stages. */
  ghost predicate StagesOk(g: Track) {
    var used := UsedHeads(g);
    && NoDup(g.availQ) && NoDup(used)
    && ToSet(g.availQ) !! g.atDevice && ToSet(g.availQ) !! ToSet(used) && g.atDevice !! ToSet(used)
    && g.chains.Keys == ToSet(g.availQ) + g.atDevice + ToSet(used)
  }

  ghost predicate Inv(q: Queue, g: Track) {
    OwnOk(q, g) && RingsOk(q, g) && StagesOk(g)
  }

  // ---------------------------------------------------------------------------
  // How many chains there can be
  // ---------------------------------------------------------------------------

  lemma HeadsBelow(q: Queue, g: Track, h: nat)
    requires OwnOk(q, g) && h in g.chains
    ensures h < Size(q) && g.owner[h] == InChain(h) && |g.chains[h]| <= Size(q)
  {
    assert ChainOk(q, g, h);
    var c := g.chains[h];
    assert c[0] == h;
    DistinctBelow(c, Size(q));
  }

  lemma FreeBelow(q: Queue, g: Track)
    requires OwnOk(q, g)
    ensures |g.free| <= Size(q)
    ensures forall k :: 0 <= k < |g.free| ==> g.free[k] < Size(q) && g.owner[g.free[k]] == Unused
  {
    forall k: nat | k < |g.free| ensures g.free[k] < Size(q) && g.owner[g.free[k]] == Unused {
      assert LinkAt(q.desc, g.free, k);
      assert PlacedAt(g, g.free[k]);
      assert g.free[k] in g.free;
    }
    DistinctBelow(g.free, Size(q));
  }

  /** The three stages together never hold more chains than there are descriptors, and
      one fewer while a descriptor is free. */
  lemma StagesBounded(q: Queue, g: Track)
    requires OwnOk(q, g) && StagesOk(g)
    ensures |g.availQ| + |g.atDevice| + |UsedHeads(g)| == |g.chains.Keys| <= Size(q)
    ensures g.free != [] ==> |g.chains.Keys| < Size(q)
  {
    ToSetSize(g.availQ);
    ToSetSize(UsedHeads(g));
    forall h: nat | h in g.chains.Keys ensures h < Size(q) {
      HeadsBelow(q, g, h);
    }
    BelowSize(g.chains.Keys, Size(q));
    if g.free != [] {
      FreeBelow(q, g);
      var f := g.free[0];
      assert PlacedAt(g, f);
      BelowSize(g.chains.Keys + {f}, Size(q));
    }
  }

  lemma CountsApart(a: nat, b: nat, lo: nat, hi: nat)
    requires lo <= hi < lo + IDX_WRAP && a == lo % IDX_WRAP && b == hi % IDX_WRAP
    ensures (b - a) % IDX_WRAP == hi - lo && (a != b <==> lo != hi)
  {
    WrappedDistance(lo, hi, IDX_WRAP);
  }

  /** used.idx - last_used_idx modulo 65536 is the number of completions not reclaimed. */
  lemma UsedCountExact(q: Queue, g: Track)
    requires Inv(q, g)
    ensures UsedCount(q) == |g.usedQ|
    ensures HasUsed(q) <==> g.usedQ != []
  {
    CountsApart(q.lastUsedIdx, q.usedIdx, Reclaimed(g), |g.posted|);
  }

  // ---------------------------------------------------------------------------
  // A chain leaves the free list and is published
  // ---------------------------------------------------------------------------

  function Marked(owner: seq<Owner>, c: seq<nat>, o: Owner): (r: seq<Owner>)
    ensures |r| == |owner|
    ensures forall i :: 0 <= i < |owner| ==> r[i] == if i in c then o else owner[i]
  {
    seq(|owner|, i requires 0 <= i < |owner| => if i in c then o else owner[i])
  }

  /** The first n free descriptors become a published chain that carries `what`. */
  function Taken(g: Track, n: nat, what: Content): Track
    requires 1 <= n <= |g.free|
  {
    var c := g.free[..n];
    g.(free := g.free[n..], chains := g.chains[c[0] := c], owner := Marked(g.owner, c, InChain(c[0])),
       availQ := g.availQ + [c[0]], sent := g.sent[c[0] := what], requests := g.requests + [what])
  }

  lemma TakeOwn(q: Queue, g: Track, n: nat, what: Content, q': Queue)
    requires OwnOk(q, g) && 1 <= n <= |g.free| && Size(q') == Size(q)
    requires FreeOk(q', g.free[n..]) && Linked(q'.desc, g.free[..n])
    requires forall i: nat :: i < Size(q) && i !in g.free ==> q'.desc[i] == q.desc[i]
    ensures OwnOk(q', Taken(g, n, what))
  {
    var g', c, rest := Taken(g, n, what), g.free[..n], g.free[n..];
    assert g.free == c + rest;
    NoDupSplit(c, rest);
    FreeBelow(q, g);
    forall k | 0 <= k < |c| ensures c[k] < Size(q) && c[k] in c {
      assert c[k] == g.free[k];
    }
    assert c[0] in g.free && PlacedAt(g, c[0]);
    forall i: nat | i < Size(q) ensures PlacedAt(g', i) {
      assert PlacedAt(g, i);
      assert i in g.free <==> i in c || i in rest;
    }
    forall h: nat | h in g'.chains ensures ChainOk(q', g', h) {
      if h != c[0] {
        assert ChainOk(q, g, h);
        forall k: nat | k < |g.chains[h]| ensures g.chains[h][k] !in g.free {
          assert PlacedAt(g, g.chains[h][k]);
        }
        LinkedFrame(q.desc, q'.desc, g.chains[h]);
      }
    }
  }

  /** The cell an index selects is the one behind the queue it counts. */
  lemma IndexCell(idx: nat, count: nat, len: nat, n: nat)
    requires idx == count % IDX_WRAP && len <= count && 0 < n && IDX_WRAP % n == 0
    ensures idx % n == Cell(count - len, len, n)
    ensures (idx + 1) % IDX_WRAP == (count + 1) % IDX_WRAP
  {
    WrapThenCell(count, IDX_WRAP, n);
    ModAdd(count, 1, IDX_WRAP);
  }

  /** Publishing never lands on an entry the device has still to consume. */
  lemma PublishSparesPending(q: Queue, g: Track, j: nat)
    requires Inv(q, g) && g.free != [] && j < |g.availQ|
    ensures Cell(Consumed(g), j, Size(q)) != q.availIdx % Size(q)
  {
    assert |g.availQ| < Size(q) by { StagesBounded(q, g); }
    IndexCell(q.availIdx, |g.requests|, |g.availQ|, Size(q));
    ResiduesDiffer(Consumed(g) + j, Consumed(g) + |g.availQ|, Size(q));
  }

  lemma PublishRings(q: Queue, g: Track, q': Queue, n: nat, what: Content)
    requires OwnOk(q, g) && RingsOk(q, g) && StagesOk(g) && 1 <= n <= |g.free|
    requires SameRings(q, q')
    ensures RingsOk(Publish(q', g.free[0]), Taken(g, n, what))
  {
    var base, size, h := Consumed(g), Size(q), g.free[0];
    assert |g.availQ| < |q.avail| by { StagesBounded(q, g); }
    IndexCell(q.availIdx, |g.requests|, |g.availQ|, size);
    RingPush(q.avail, base, g.availQ, h);
    var r, g' := Publish(q', h), Taken(g, n, what);
    assert Consumed(g') == base && Reclaimed(g') == Reclaimed(g);
    assert r.avail == q.avail[Cell(base, |g.availQ|, size) := h];
  }

  lemma TakeStages(q: Queue, g: Track, n: nat, what: Content)
    requires OwnOk(q, g) && StagesOk(g) && 1 <= n <= |g.free|
    ensures StagesOk(Taken(g, n, what))
  {
    var g', h := Taken(g, n, what), g.free[0];
    FreeBelow(q, g);
    assert PlacedAt(g, h);
    assert h !in g.chains.Keys;
    assert ToSet(g'.availQ) == ToSet(g.availQ) + {h};
    NoDupJoin(g.availQ, [h]);
  }

  /** The free chain may be reordered as long as its members stay the same. */
  lemma ReorderOwn(q: Queue, g: Track, q': Queue)
    requires OwnOk(q, g) && Size(q') == Size(q) && FreeOk(q', Reversed(g.free))
    requires forall i: nat :: i < Size(q) && i !in g.free ==> q'.desc[i] == q.desc[i]
    ensures OwnOk(q', g.(free := Reversed(g.free)))
  {
    var g' := g.(free := Reversed(g.free));
    forall i: nat | i < Size(q) ensures PlacedAt(g', i) {
      assert PlacedAt(g, i);
      ReversedMembers(g.free, i);
    }
    forall h: nat | h in g'.chains ensures ChainOk(q', g', h) {
      assert ChainOk(q, g, h);
      forall k: nat | k < |g.chains[h]| ensures g.chains[h][k] !in g.free {
        assert PlacedAt(g, g.chains[h][k]);
      }
      LinkedFrame(q.desc, q'.desc, g.chains[h]);
    }
  }

  /** The 16-bit sum of the counts passes the free-descriptor test although the count
      itself does not; the loops then run dry and roll back. */
  predicate RollsBack(q: Queue, bufs: seq<Buffer>) {
    0 < |bufs| % IDX_WRAP <= q.numFree < |bufs|
  }

  function Kept(q: Queue, g: Track, bufs: seq<Buffer>): Track {
    if RollsBack(q, bufs) then g.(free := Reversed(g.free)) else g
  }

  /** virtq_add_buffers: it succeeds exactly when 1 <= count <= num_free; success
      publishes one chain that lists the buffers in order; failure publishes nothing and
      leaves the same descriptors free, in reverse order after a rollback. */
  ghost predicate AddOutcome(q: Queue, g: Track, bufs: seq<Buffer>, q': Queue, r: AddResult) {
    && (r.Added? <==> 1 <= |bufs| <= q.numFree)
    && (r.Added? ==>
          && |bufs| <= |g.free| && r.numFree == q.numFree - |bufs|
          && ChainHolds(q'.desc, g.free[..|bufs|], bufs)
          && Inv(q', Taken(g, |bufs|, Sent(bufs))))
    && (!r.Added? ==>
          && SameRings(q, q') && q'.numFree == q.numFree
          && Inv(q', Kept(q, g, bufs)))
    && Size(q') == Size(q) && (forall i: nat :: i < Size(q) && i !in g.free ==> q'.desc[i] == q.desc[i])
  }

  lemma AddSucceeds(q: Queue, g: Track, bufs: seq<Buffer>, b: Built)
    requires Inv(q, g) && 1 <= |bufs| <= |g.free| && BuildOutcome(q, g.free, [], [], bufs, b)
    ensures b.ok && b.head == g.free[0] && Shaped(b.q)
    ensures AddOutcome(q, g, bufs, Publish(b.q, b.head), Added(b.q.numFree))
  {
    var free, n := g.free, |bufs|;
    assert [] + free[..n] == free[..n] && [] + bufs == bufs;
    HoldsLinked(b.q.desc, free[..n], bufs);
    var what := Sent(bufs);
    TakeOwn(q, g, n, what, b.q);
    PublishRings(q, g, b.q, n, what);
    TakeStages(q, g, n, what);
    OwnAfterPublish(b.q, Taken(g, n, what), free[0]);
  }

  lemma AddRollsBack(q: Queue, g: Track, bufs: seq<Buffer>, b: Built)
    requires Inv(q, g) && |bufs| > |g.free| && BuildOutcome(q, g.free, [], [], bufs, b)
    ensures !b.ok && SameRings(q, b.q) && b.q.numFree == q.numFree
    ensures Inv(b.q, g.(free := Reversed(g.free)))
    ensures forall i: nat :: i < Size(q) && i !in g.free ==> b.q.desc[i] == q.desc[i]
  {
    assert [] + g.free == g.free;
    ReorderOwn(q, g, b.q);
  }

  lemma AddBuffersBuilds(q: Queue, g: Track, bufs: seq<Buffer>)
    requires Inv(q, g) && 0 < |bufs| % IDX_WRAP <= q.numFree
    ensures
      var b := BuildChain(q, INVALID, INVALID, bufs);
      && (1 <= |bufs| <= |g.free| ==>
            && b.ok && Shaped(b.q)
            && AddOutcome(q, g, bufs, Publish(b.q, b.head), Added(b.q.numFree)))
      && (|bufs| > |g.free| ==>
            && !b.ok && SameRings(q, b.q) && b.q.numFree == q.numFree
            && Inv(b.q, g.(free := Reversed(g.free)))
            && (forall i: nat :: i < Size(q) && i !in g.free ==> b.q.desc[i] == q.desc[i]))
  {
    FreeBelow(q, g);
    assert [] + g.free == g.free;
    BuildEffect(q, g.free, [], [], bufs);
    var b := BuildChain(q, INVALID, INVALID, bufs);
    if |bufs| > |g.free| {
      AddRollsBack(q, g, bufs, b);
    } else {
      AddSucceeds(q, g, bufs, b);
    }
  }

  /** For every request the two 16-bit counts can express. */
  lemma AddBuffersEffect(q: Queue, g: Track, bufs: seq<Buffer>)
    requires Inv(q, g) && |bufs| < 2 * IDX_WRAP - 1
    ensures AddOutcome(q, g, bufs, AddBuffers(q, bufs).0, AddBuffers(q, bufs).1)
    ensures AddBuffers(q, bufs).1 == EInval <==> |bufs| == 0 || |bufs| == 0x1_0000
  {
    var total := |bufs| % IDX_WRAP;
    FreeBelow(q, g);
    if total != 0 && total <= q.numFree {
      AddBuffersBuilds(q, g, bufs);
    } else {
      assert !(1 <= |bufs| <= q.numFree);
    }
  }

  lemma OwnAfterPublish(q: Queue, g: Track, head: nat)
    requires OwnOk(q, g) && Shaped(q)
    ensures OwnOk(Publish(q, head), g)
  {
    var r := Publish(q, head);
    forall h: nat | h in g.chains ensures ChainOk(r, g, h) {
      assert ChainOk(q, g, h);
    }
  }

  /** virtq_add_single takes the first free descriptor, or fails on an empty free chain. */
  lemma AddSingleEffect(q: Queue, g: Track, addr: nat, len: nat, flags: bv16)
    requires Inv(q, g)
    ensures
      var (q', idx) := AddSingle(q, addr, len, flags);
      if g.free == [] then q' == q && idx == INVALID
      else
        && idx == g.free[0] && idx < Size(q') && q'.desc[idx] == Desc(addr, len, flags, INVALID)
        && Inv(q', Taken(g, 1, Raw(addr, len, flags)))
        && forall i: nat :: i < Size(q) && i != idx ==> q'.desc[i] == q.desc[i]
  {
    if g.free != [] {
      var what := Raw(addr, len, flags);
      assert LinkAt(q.desc, g.free, 0);
      var idx, a := g.free[0], AllocDesc(q);
      var b := a.(desc := a.desc[idx := Desc(addr, len, flags, INVALID)]);
      SingleChain(q, g, b);
      TakeOwn(q, g, 1, what, b);
      PublishRings(q, g, b, 1, what);
      TakeStages(q, g, 1, what);
      OwnAfterPublish(b, Taken(g, 1, what), idx);
    }
  }

  lemma SingleChain(q: Queue, g: Track, b: Queue)
    requires OwnOk(q, g) && g.free != [] && Size(b) == Size(q) && g.free[0] < Size(q)
    requires b.freeHead == q.desc[g.free[0]].next && b.numFree == q.numFree - 1
    requires b.desc[g.free[0]].next == INVALID
    requires forall i: nat :: i < Size(q) && i != g.free[0] ==> b.desc[i] == q.desc[i]
    ensures FreeOk(b, g.free[1..]) && Linked(b.desc, g.free[..1])
    ensures forall i: nat :: i < Size(q) && i !in g.free ==> b.desc[i] == q.desc[i]
  {
    var free, rest, first := g.free, g.free[1..], g.free[..1];
    assert LinkAt(q.desc, free, 0);
    assert free == first + rest;
    NoDupSplit(first, rest);
    forall k: nat | k < |rest| ensures LinkAt(b.desc, rest, k) {
      assert LinkAt(q.desc, free, k + 1);
      assert rest[k] == free[k + 1] != free[0];
    }
    assert LinkAt(b.desc, first, 0);
    assert free[0] in free;
  }

  // ---------------------------------------------------------------------------
  // A completed chain returns to the free list
  // ---------------------------------------------------------------------------

  /** The next used element names a descriptor of the table. */
  predicate Genuine(g: Track) {
    g.usedQ != [] && g.usedQ[0].id < |g.owner|
  }

  predicate Reclaimable(g: Track) {
    Genuine(g) ==> g.usedQ[0].id in g.chains
  }

  /** The oldest completion is reclaimed; an id outside the table is passed over. */
  function Returned(g: Track): Track
    requires g.usedQ != [] && Reclaimable(g)
  {
    if !Genuine(g) then g.(usedQ := g.usedQ[1..])
    else
      var h := g.usedQ[0].id;
      var c := g.chains[h];
      g.(free := Reversed(c) + g.free, chains := g.chains - {h}, owner := Marked(g.owner, c, Unused),
         usedQ := g.usedQ[1..], sent := g.sent - {h}, got := g.got + [g.usedQ[0]])
  }

  lemma ReturnOwn(q: Queue, g: Track, q': Queue)
    requires OwnOk(q, g) && Genuine(g) && Reclaimable(g)
    requires FreeOk(q', Returned(g).free) && OnlyFreed(q, q', g.chains[g.usedQ[0].id])
    ensures OwnOk(q', Returned(g))
  {
    var h := g.usedQ[0].id;
    var g', c := Returned(g), g.chains[h];
    assert ChainOk(q, g, h);
    forall i: nat | i < Size(q) ensures PlacedAt(g', i) {
      assert PlacedAt(g, i);
      ReversedMembers(c, i);
      if i in g.chains && i != h {
        HeadsBelow(q, g, i);
      }
    }
    forall m: nat | m in g'.chains ensures ChainOk(q', g', m) {
      assert ChainOk(q, g, m);
      forall k: nat | k < |g.chains[m]| ensures g.chains[m][k] !in c {
        assert g.owner[g.chains[m][k]] == InChain(m);
      }
      LinkedFrame(q.desc, q'.desc, g.chains[m]);
    }
  }

  lemma ReturnStages(g: Track)
    requires StagesOk(g) && g.usedQ != []
    ensures Reclaimable(g) && StagesOk(Returned(g))
  {
    if Genuine(g) {
      var h, rest := g.usedQ[0].id, HeadsOf(g.usedQ[1..], |g.owner|);
      assert UsedHeads(g) == [h] + rest;
      NoDupSplit([h], rest);
      assert h in [h] && h in ToSet(UsedHeads(g));
      assert ToSet(UsedHeads(g)) == {h} + ToSet(rest);
      assert UsedHeads(Returned(g)) == rest;
    }
  }

  lemma ReturnRings(q: Queue, g: Track, q': Queue)
    requires RingsOk(q, g) && g.usedQ != [] && Reclaimable(g) && SameRings(q, q')
    ensures RingsOk(Advance(q'), Returned(g))
    ensures NextUsed(q) == g.usedQ[0]
  {
    var base := Reclaimed(g);
    WrapThenCell(base, IDX_WRAP, Size(q));
    ModAdd(base, 1, IDX_WRAP);
    RingPop(q.used, base, g.usedQ);
    assert Reclaimed(Returned(g)) == base + 1;
  }

  /** virtq_get_buffer returns the oldest completion not yet reclaimed and frees exactly
      its chain; it returns INVALID when there is none, or passes over an id outside the
      table. */
  lemma GetBufferEffect(q: Queue, g: Track)
    requires Inv(q, g)
    ensures
      var (q', head) := GetBuffer(q);
      if g.usedQ == [] then q' == q && head == INVALID
      else
        && NextUsed(q) == g.usedQ[0] && Reclaimable(g) && Inv(q', Returned(g))
        && (Genuine(g) ==>
              && head == g.usedQ[0].id
              && OnlyFreed(q, FreeChain(q, head), g.chains[head]) && q' == Advance(FreeChain(q, head))
              && q'.numFree == q.numFree + |g.chains[head]|)
        && (!Genuine(g) ==> head == INVALID && q' == Advance(q))
  {
    UsedCountExact(q, g);
    if g.usedQ != [] && !Genuine(g) {
      ReturnRings(q, g, q);
      OwnAfterAdvance(q, g);
      OwnKeptAside(Advance(q), Advance(q), g, Returned(g));
      ReturnStages(g);
    } else if g.usedQ != [] {
      var h := g.usedQ[0].id;
      ReturnStages(g);
      HeadsBelow(q, g, h);
      assert ChainOk(q, g, h);
      var c := g.chains[h];
      forall k: nat | k < |c| ensures c[k] !in g.free {
        assert PlacedAt(g, c[k]);
      }
      FreeChainFreesChain(q, c, g.free);
      var f := FreeChain(q, h);
      ReturnOwn(q, g, f);
      ReturnRings(q, g, f);
      OwnAfterAdvance(f, Returned(g));
    }
  }

  lemma OwnAfterAdvance(q: Queue, g: Track)
    requires OwnOk(q, g)
    ensures OwnOk(Advance(q), g)
  {
    var r := Advance(q);
    forall h: nat | h in g.chains ensures ChainOk(r, g, h) {
      assert ChainOk(q, g, h);
    }
  }

  // ---------------------------------------------------------------------------
  // The device
  // ---------------------------------------------------------------------------

  /** The device takes the next published chain. */
  function Fetched(g: Track): Track
    requires g.availQ != []
  {
    g.(availQ := g.availQ[1..], atDevice := g.atDevice + {g.availQ[0]})
  }

  /** What the device reads at its running index is the oldest chain it has not consumed. */
  lemma ConsumeEffect(q: Queue, g: Track)
    requires Inv(q, g) && g.availQ != []
    ensures DeviceReads(q, Consumed(g)) == g.availQ[0]
    ensures Inv(q, Fetched(g))
  {
    var g', h, rest := Fetched(g), g.availQ[0], g.availQ[1..];
    WrapThenCell(Consumed(g), IDX_WRAP, Size(q));
    RingPop(q.avail, Consumed(g), g.availQ);
    assert Consumed(g') == Consumed(g) + 1;
    assert g.availQ == [h] + rest;
    NoDupSplit([h], rest);
    assert h in [h] && h in ToSet(g.availQ);
    assert ToSet(g.availQ) == {h} + ToSet(rest);
    OwnKeptAside(q, q, g, g');
  }

  /** The device posts a used element. */
  function Posted(g: Track, e: UsedElem): Track {
    g.(atDevice := g.atDevice - {e.id}, usedQ := g.usedQ + [e], posted := g.posted + [e])
  }

  lemma PostRings(q: Queue, g: Track, e: UsedElem)
    requires RingsOk(q, g) && |g.usedQ| < Size(q)
    ensures RingsOk(DevicePosts(q, e), Posted(g, e))
  {
    var q', g', base := DevicePosts(q, e), Posted(g, e), Reclaimed(g);
    IndexCell(q.usedIdx, |g.posted|, |g.usedQ|, Size(q));
    RingPush(q.used, base, g.usedQ, e);
    assert Reclaimed(g') == base && Consumed(g') == Consumed(g);
  }

  /** The device returns a chain that it holds, or posts an id outside the table. */
  predicate Postable(g: Track, e: UsedElem) {
    e.id in g.atDevice || e.id >= |g.owner|
  }

  lemma PostStages(g: Track, e: UsedElem)
    requires StagesOk(g) && Postable(g, e) && forall h: nat :: h in g.chains ==> h < |g.owner|
    ensures StagesOk(Posted(g, e))
  {
    var g', used := Posted(g, e), UsedHeads(g);
    HeadsSnoc(g.usedQ, e, |g.owner|);
    if e.id < |g.owner| {
      assert UsedHeads(g') == used + [e.id];
      assert ToSet(used + [e.id]) == ToSet(used) + {e.id};
      assert e.id !in ToSet(used);
      NoDupJoin(used, [e.id]);
    } else {
      assert UsedHeads(g') == used + [] == used;
      assert e.id !in g.atDevice by {
        assert e.id in g.atDevice ==> e.id in g.chains;
      }
    }
  }

  /** Posting never overwrites a used element that the driver has not seen, as long as the
      device leaves the cells of those alone. */
  lemma PostEffect(q: Queue, g: Track, e: UsedElem)
    requires Inv(q, g) && Postable(g, e) && |g.usedQ| < Size(q)
    ensures Inv(DevicePosts(q, e), Posted(g, e))
  {
    forall h: nat | h in g.chains ensures h < |g.owner| {
      HeadsBelow(q, g, h);
    }
    PostRings(q, g, e);
    PostStages(g, e);
    OwnKeptAside(q, DevicePosts(q, e), g, Posted(g, e));
  }

  /** A device that posts only chains it holds finds a cell free for each of them. */
  lemma RoomForChains(q: Queue, g: Track, h: nat)
    requires Inv(q, g) && h in g.atDevice && |UsedHeads(g)| == |g.usedQ|
    ensures |g.usedQ| < Size(q)
  {
    StagesBounded(q, g);
    assert g.atDevice == (g.atDevice - {h}) + {h};
  }

  lemma OwnKeptAside(q: Queue, q': Queue, g: Track, g': Track)
    requires OwnOk(q, g) && q'.desc == q.desc && q'.freeHead == q.freeHead && q'.numFree == q.numFree
    requires g'.free == g.free && g'.chains == g.chains && g'.owner == g.owner
    ensures OwnOk(q', g')
  {
    forall i: nat | i < Size(q') ensures PlacedAt(g', i) {
      assert PlacedAt(g, i);
    }
    forall h: nat | h in g'.chains ensures ChainOk(q', g', h) {
      assert ChainOk(q, g, h);
    }
  }

  // ---------------------------------------------------------------------------
  // Whole runs
  // ---------------------------------------------------------------------------

  /** The sizes virtq_create accepts are the powers of two up to 1024, and each divides
      the index wrap. */
  lemma AcceptedSizes(n: bv16)
    ensures SizeAccepted(n) <==>
            || n == 1 || n == 2 || n == 4 || n == 8 || n == 16 || n == 32 || n == 64 || n == 128
            || n == 256 || n == 512 || n == 1024
    ensures SizeAccepted(n) ==> 1 <= n as nat <= MAX_SIZE && IDX_WRAP % (n as nat) == 0
  {
  }

  predicate Created(q: Queue) {
    && Shaped(q)
    && q.desc == InitDesc(Size(q)) && q.freeHead == 0 && q.numFree == Size(q)
    && q.availIdx == 0 && q.usedIdx == 0 && q.lastUsedIdx == 0
  }

  function InitTrack(n: nat): Track {
    Track(seq(n, i requires 0 <= i => i), map[], seq(n, i requires 0 <= i => Unused), [], {}, [], map[], [], [], [])
  }

  lemma CreatedInv(q: Queue)
    requires Created(q)
    ensures Inv(q, InitTrack(Size(q)))
  {
    var g := InitTrack(Size(q));
    InitFree(q);
    forall i: nat | i < Size(q) ensures PlacedAt(g, i) {
      assert g.free[i] == i;
    }
  }

  datatype Event =
    | Add(bufs: seq<Buffer>)
    | Single(addr: nat, len: nat, flags: bv16)
    | Get
    | Consume
    | Post(elem: UsedElem)

  datatype Config = Config(q: Queue, g: Track)

  /** One driver call or one device action; the device returns only chains it holds, may
      post ids outside the table, and does not overrun the used ring. */
  ghost predicate Step(a: Config, e: Event, b: Config) {
    && Shaped(a.q)
    && match e
       case Add(bufs) =>
         && |bufs| < 2 * IDX_WRAP - 1
         && var (q', r) := AddBuffers(a.q, bufs);
         && (r.Added? ==> 1 <= |bufs| <= |a.g.free|)
         && b == Config(q', if r.Added? then Taken(a.g, |bufs|, Sent(bufs)) else Kept(a.q, a.g, bufs))
       case Single(addr, len, flags) =>
         b == Config(AddSingle(a.q, addr, len, flags).0,
                     if a.g.free == [] then a.g else Taken(a.g, 1, Raw(addr, len, flags)))
       case Get =>
         && (a.g.usedQ != [] ==> Reclaimable(a.g))
         && b == Config(GetBuffer(a.q).0, if a.g.usedQ == [] then a.g else Returned(a.g))
       case Consume => a.g.availQ != [] && b == Config(a.q, Fetched(a.g))
       case Post(elem) =>
         && Postable(a.g, elem) && |a.g.usedQ| < Size(a.q)
         && b == Config(DevicePosts(a.q, elem), Posted(a.g, elem))
  }

  lemma StepInv(a: Config, e: Event, b: Config)
    requires Inv(a.q, a.g) && Step(a, e, b)
    ensures Inv(b.q, b.g)
  {
    match e
    case Add(bufs) => AddBuffersEffect(a.q, a.g, bufs);
    case Single(addr, len, flags) => AddSingleEffect(a.q, a.g, addr, len, flags);
    case Get => GetBufferEffect(a.q, a.g);
    case Consume => ConsumeEffect(a.q, a.g);
    case Post(elem) => PostEffect(a.q, a.g, elem);
  }

  /** Nothing in Step forbids a call the driver could make: each is possible in every
      state that satisfies the invariant. */
  lemma StepTotal(a: Config, e: Event) returns (b: Config)
    requires Inv(a.q, a.g)
    requires e.Add? ==> |e.bufs| < 2 * IDX_WRAP - 1
    requires e.Consume? ==> a.g.availQ != []
    requires e.Post? ==> Postable(a.g, e.elem) && |a.g.usedQ| < Size(a.q)
    ensures Step(a, e, b)
  {
    match e
    case Add(bufs) =>
      AddBuffersEffect(a.q, a.g, bufs);
      var (q', r) := AddBuffers(a.q, bufs);
      b := Config(q', if r.Added? then Taken(a.g, |bufs|, Sent(bufs)) else Kept(a.q, a.g, bufs));
    case Single(addr, len, flags) =>
      b := Config(AddSingle(a.q, addr, len, flags).0,
                  if a.g.free == [] then a.g else Taken(a.g, 1, Raw(addr, len, flags)));
    case Get =>
      GetBufferEffect(a.q, a.g);
      b := Config(GetBuffer(a.q).0, if a.g.usedQ == [] then a.g else Returned(a.g));
    case Consume => b := Config(a.q, Fetched(a.g));
    case Post(elem) => b := Config(DevicePosts(a.q, elem), Posted(a.g, elem));
  }

  ghost predicate Run(states: seq<Config>, events: seq<Event>) {
    && |states| == |events| + 1
    && Created(states[0].q) && states[0].g == InitTrack(Size(states[0].q))
    && forall k: nat :: k < |events| ==> Step(states[k], events[k], states[k + 1])
  }

  /** In every state of every run: descriptors are partitioned into the free chain and
      well-formed chains in flight, rings and indices are exact, num_free counts the free
      chain. */
  lemma {:induction false} InvInEveryRun(states: seq<Config>, events: seq<Event>, k: nat)
    requires Run(states, events) && k <= |events|
    ensures Inv(states[k].q, states[k].g)
  {
    if k == 0 {
      CreatedInv(states[0].q);
    } else {
      InvInEveryRun(states, events, k - 1);
      StepInv(states[k - 1], events[k - 1], states[k]);
    }
  }
}
