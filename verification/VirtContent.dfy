/**
 What the chains of a virtqueue carry, over whole runs: the device reads every request as
 it was given and in the order given, whatever is added, reclaimed or rolled back around
 it, and the driver is handed the completions as posted and in the order posted.
 */
module VirtContent {
  import opened Lists
  import opened VirtQueue
  import opened VirtChains
  import opened VirtRun

  // ---------------------------------------------------------------------------
  // The device's view of one chain
  // ---------------------------------------------------------------------------

  /** The buffers the device sees from a head: it follows `next` while F_NEXT is set. */
  function DeviceWalk(desc: seq<Desc>, idx: nat, fuel: nat): seq<Buffer>
    decreases fuel
  {
    if fuel == 0 || idx >= |desc| then []
    else
      var d := desc[idx];
      [Buffer(d.addr, d.len, d.flags & F_WRITE != 0)]
      + if d.flags & F_NEXT != 0 then DeviceWalk(desc, d.next, fuel - 1) else []
  }

  lemma FlagBits(b: Buffer)
    ensures WriteFlag(b) & F_NEXT == 0 && (WriteFlag(b) | F_NEXT) & F_NEXT != 0
    ensures b.writable <==> WriteFlag(b) & F_WRITE != 0
    ensures b.writable <==> (WriteFlag(b) | F_NEXT) & F_WRITE != 0
  {
  }

  /** Following a chain from its k-th descriptor yields the buffers from the k-th on. */
  lemma {:induction false} WalkReads(desc: seq<Desc>, c: seq<nat>, bufs: seq<Buffer>, k: nat, fuel: nat)
    requires ChainHolds(desc, c, bufs) && k < |c| && |c| - k <= fuel
    ensures DeviceWalk(desc, c[k], fuel) == bufs[k..]
    decreases |c| - k
  {
    assert HoldsAt(desc, c, bufs, k);
    FlagBits(bufs[k]);
    assert bufs[k..] == [bufs[k]] + bufs[k + 1..];
    if k + 1 < |c| {
      WalkReads(desc, c, bufs, k + 1, fuel - 1);
    }
  }

  lemma HoldsFrame(desc: seq<Desc>, desc': seq<Desc>, c: seq<nat>, bufs: seq<Buffer>)
    requires ChainHolds(desc, c, bufs) && |desc'| == |desc|
    requires forall k: nat :: k < |c| && c[k] < |desc| ==> desc'[c[k]] == desc[c[k]]
    ensures ChainHolds(desc', c, bufs)
  {
    forall k: nat | k < |c| ensures HoldsAt(desc', c, bufs, k) {
      assert HoldsAt(desc, c, bufs, k);
    }
  }

  // ---------------------------------------------------------------------------
  // The invariant
  // ---------------------------------------------------------------------------

  /** The chain from h still lists what it was published with. */
  ghost predicate Carries(q: Queue, g: Track, h: nat) {
    && h in g.chains && h in g.sent
    && match g.sent[h]
       case Sent(bufs) => ChainHolds(q.desc, g.chains[h], bufs)
       case Raw(addr, len, flags) =>
         g.chains[h] == [h] && h < Size(q) && q.desc[h] == Desc(addr, len, flags, INVALID)
  }

  ghost predicate CarriesAll(q: Queue, g: Track) {
    forall h: nat {:trigger Carries(q, g, h)} :: h in g.chains ==> Carries(q, g, h)
  }

  /** The j-th chain not consumed yet is the next request but j. */
  ghost predicate PendingAt(g: Track, j: nat)
    requires j < |g.availQ|
  {
    && Consumed(g) >= 0 && g.availQ[j] in g.sent
    && g.sent[g.availQ[j]] == g.requests[Consumed(g) + j]
  }

  ghost predicate InOrder(g: Track) {
    forall j: nat {:trigger PendingAt(g, j)} :: j < |g.availQ| ==> PendingAt(g, j)
  }

  /** What was posted with a valid id was handed to the caller or waits in the ring. */
  ghost predicate HandedOn(g: Track) {
    GenuineOf(g.posted, |g.owner|) == g.got + GenuineOf(g.usedQ, |g.owner|)
  }

  ghost predicate ContentOk(q: Queue, g: Track) {
    CarriesAll(q, g) && InOrder(g) && HandedOn(g)
  }

  // ---------------------------------------------------------------------------
  // Every step keeps it
  // ---------------------------------------------------------------------------

  /** A chain keeps its content when its descriptors do. */
  lemma CarriesFrame(q: Queue, g: Track, q': Queue, g': Track, h: nat)
    requires Carries(q, g, h) && Size(q') == Size(q)
    requires h in g'.chains && g'.chains[h] == g.chains[h] && h in g'.sent && g'.sent[h] == g.sent[h]
    requires forall k: nat :: k < |g.chains[h]| && g.chains[h][k] < Size(q) ==>
               q'.desc[g.chains[h][k]] == q.desc[g.chains[h][k]]
    ensures Carries(q', g', h)
  {
    match g.sent[h]
    case Sent(bufs) => HoldsFrame(q.desc, q'.desc, g.chains[h], bufs);
    case Raw(addr, len, flags) => assert g.chains[h][0] == h;
  }

  /** Nothing outside the free chain was written: every chain in flight is as before. */
  lemma SparedByFree(q: Queue, g: Track, q': Queue, g': Track, h: nat)
    requires OwnOk(q, g) && Carries(q, g, h) && Size(q') == Size(q)
    requires forall i: nat :: i < Size(q) && i !in g.free ==> q'.desc[i] == q.desc[i]
    requires h in g'.chains && g'.chains[h] == g.chains[h] && h in g'.sent && g'.sent[h] == g.sent[h]
    ensures Carries(q', g', h)
  {
    assert ChainOk(q, g, h);
    forall k: nat | k < |g.chains[h]| ensures g.chains[h][k] !in g.free {
      assert PlacedAt(g, g.chains[h][k]);
    }
    CarriesFrame(q, g, q', g', h);
  }

  lemma TakenInOrder(q: Queue, g: Track, n: nat, what: Content)
    requires OwnOk(q, g) && StagesOk(g) && Consumed(g) >= 0 && InOrder(g) && 1 <= n <= |g.free|
    ensures InOrder(Taken(g, n, what))
  {
    var g', first := Taken(g, n, what), g.free[0];
    FreeBelow(q, g);
    assert PlacedAt(g, first);
    forall j: nat | j < |g'.availQ| ensures PendingAt(g', j) {
      if j < |g.availQ| {
        assert PendingAt(g, j);
        assert g.availQ[j] in ToSet(g.availQ);
        assert g.availQ[j] in g.chains.Keys;
      }
    }
  }

  lemma TakenContent(q: Queue, g: Track, n: nat, what: Content, q': Queue)
    requires OwnOk(q, g) && StagesOk(g) && Consumed(g) >= 0 && ContentOk(q, g) && 1 <= n <= |g.free|
    requires Size(q') == Size(q) && forall i: nat :: i < Size(q) && i !in g.free ==> q'.desc[i] == q.desc[i]
    requires Carries(q', Taken(g, n, what), g.free[0])
    ensures ContentOk(q', Taken(g, n, what))
  {
    var g' := Taken(g, n, what);
    TakenInOrder(q, g, n, what);
    forall h: nat | h in g'.chains ensures Carries(q', g', h) {
      if h != g.free[0] {
        assert Carries(q, g, h);
        SparedByFree(q, g, q', g', h);
      }
    }
  }

  lemma AddContent(q: Queue, g: Track, bufs: seq<Buffer>)
    requires Inv(q, g) && ContentOk(q, g) && |bufs| < 2 * IDX_WRAP - 1
    ensures
      var (q', r) := AddBuffers(q, bufs);
      && (r.Added? ==> 1 <= |bufs| <= |g.free| && ContentOk(q', Taken(g, |bufs|, Sent(bufs))))
      && (!r.Added? ==> ContentOk(q', Kept(q, g, bufs)))
  {
    AddBuffersEffect(q, g, bufs);
    var (q', r) := AddBuffers(q, bufs);
    if r.Added? {
      assert Carries(q', Taken(g, |bufs|, Sent(bufs)), g.free[0]);
      TakenContent(q, g, |bufs|, Sent(bufs), q');
    } else {
      var g' := Kept(q, g, bufs);
      forall h: nat | h in g'.chains ensures Carries(q', g', h) {
        assert Carries(q, g, h);
        SparedByFree(q, g, q', g', h);
      }
      InOrderKept(g, g');
    }
  }

  lemma InOrderKept(g: Track, g': Track)
    requires InOrder(g) && g'.availQ == g.availQ && g'.requests == g.requests
    requires forall j: nat :: j < |g.availQ| && g.availQ[j] in g.sent ==>
               g.availQ[j] in g'.sent && g'.sent[g.availQ[j]] == g.sent[g.availQ[j]]
    ensures InOrder(g')
  {
    forall j: nat | j < |g'.availQ| ensures PendingAt(g', j) {
      assert PendingAt(g, j);
    }
  }

  lemma SingleContent(q: Queue, g: Track, addr: nat, len: nat, flags: bv16)
    requires Inv(q, g) && ContentOk(q, g)
    ensures ContentOk(AddSingle(q, addr, len, flags).0,
                      if g.free == [] then g else Taken(g, 1, Raw(addr, len, flags)))
  {
    AddSingleEffect(q, g, addr, len, flags);
    if g.free != [] {
      var (q', idx) := AddSingle(q, addr, len, flags);
      assert g.free[0] in g.free;
      assert g.free[..1] == [idx];
      assert Carries(q', Taken(g, 1, Raw(addr, len, flags)), idx);
      TakenContent(q, g, 1, Raw(addr, len, flags), q');
    }
  }

  lemma GetContent(q: Queue, g: Track)
    requires Inv(q, g) && ContentOk(q, g) && g.usedQ != []
    ensures Reclaimable(g) && ContentOk(GetBuffer(q).0, Returned(g))
  {
    GetBufferEffect(q, g);
    var q', g' := GetBuffer(q).0, Returned(g);
    forall h: nat | h in g'.chains ensures Carries(q', g', h) {
      assert Carries(q, g, h);
      if Genuine(g) {
        SparedByReturn(q, g, q', h);
      } else {
        CarriesFrame(q, g, q', g', h);
      }
    }
    forall j: nat | j < |g.availQ| ensures Genuine(g) ==> g.availQ[j] != g.usedQ[0].id {
      if Genuine(g) {
        assert UsedHeads(g)[0] == g.usedQ[0].id;
        assert g.availQ[j] in ToSet(g.availQ) && g.usedQ[0].id in ToSet(UsedHeads(g));
      }
    }
    InOrderKept(g, g');
    ReturnHands(g);
  }

  lemma SparedByReturn(q: Queue, g: Track, q': Queue, h: nat)
    requires OwnOk(q, g) && Genuine(g) && Reclaimable(g) && Carries(q, g, h) && Size(q') == Size(q)
    requires h != g.usedQ[0].id
    requires forall i: nat :: i < Size(q) && i !in g.chains[g.usedQ[0].id] ==> q'.desc[i] == q.desc[i]
    ensures Carries(q', Returned(g), h)
  {
    var f := g.usedQ[0].id;
    assert ChainOk(q, g, f) && ChainOk(q, g, h);
    forall k: nat | k < |g.chains[h]| ensures g.chains[h][k] !in g.chains[f] {
      assert g.owner[g.chains[h][k]] == InChain(h);
    }
    CarriesFrame(q, g, q', Returned(g), h);
  }

  lemma ReturnHands(g: Track)
    requires HandedOn(g) && g.usedQ != [] && Reclaimable(g)
    ensures HandedOn(Returned(g))
  {
    var n, rest := |g.owner|, GenuineOf(g.usedQ[1..], |g.owner|);
    if Genuine(g) {
      assert g.got + ([g.usedQ[0]] + rest) == g.got + [g.usedQ[0]] + rest;
    }
  }

  lemma ConsumeContent(q: Queue, g: Track)
    requires Inv(q, g) && ContentOk(q, g) && g.availQ != []
    ensures ContentOk(q, Fetched(g))
  {
    var g' := Fetched(g);
    forall h: nat | h in g'.chains ensures Carries(q, g', h) {
      assert Carries(q, g, h);
    }
    forall j: nat | j < |g'.availQ| ensures PendingAt(g', j) {
      assert PendingAt(g, j + 1);
    }
  }

  lemma PostContent(q: Queue, g: Track, e: UsedElem)
    requires Inv(q, g) && ContentOk(q, g)
    ensures ContentOk(DevicePosts(q, e), Posted(g, e))
  {
    var q', g' := DevicePosts(q, e), Posted(g, e);
    forall h: nat | h in g'.chains ensures Carries(q', g', h) {
      assert Carries(q, g, h);
    }
    InOrderKept(g, g');
    GenuineSnoc(g.posted, e, |g.owner|);
    GenuineSnoc(g.usedQ, e, |g.owner|);
    var tail := if e.id < |g.owner| then [e] else [];
    assert g.got + GenuineOf(g.usedQ, |g.owner|) + tail == g.got + (GenuineOf(g.usedQ, |g.owner|) + tail);
  }

  lemma StepContent(a: Config, e: Event, b: Config)
    requires Inv(a.q, a.g) && ContentOk(a.q, a.g) && Step(a, e, b)
    ensures ContentOk(b.q, b.g)
  {
    match e
    case Add(bufs) => AddContent(a.q, a.g, bufs);
    case Single(addr, len, flags) => SingleContent(a.q, a.g, addr, len, flags);
    case Get =>
      if a.g.usedQ == [] {
        UsedCountExact(a.q, a.g);
      } else {
        GetContent(a.q, a.g);
      }
    case Consume => ConsumeContent(a.q, a.g);
    case Post(elem) => PostContent(a.q, a.g, elem);
  }

  lemma {:induction false} ContentInEveryRun(states: seq<Config>, events: seq<Event>, k: nat)
    requires Run(states, events) && k <= |events|
    ensures Inv(states[k].q, states[k].g) && ContentOk(states[k].q, states[k].g)
  {
    InvInEveryRun(states, events, k);
    if k > 0 {
      ContentInEveryRun(states, events, k - 1);
      StepContent(states[k - 1], events[k - 1], states[k]);
    }
  }

  // ---------------------------------------------------------------------------
  // What that means for the device and for the caller
  // ---------------------------------------------------------------------------

  /** Whatever stage a chain is at, walking it from its head gives the buffers of its
      request. */
  lemma ChainsKeepRequests(states: seq<Config>, events: seq<Event>, k: nat, h: nat)
    requires Run(states, events) && k <= |events| && h in states[k].g.chains
    ensures h in states[k].g.sent
    ensures var s := states[k]; s.g.sent[h].Sent? ==> DeviceWalk(s.q.desc, h, Size(s.q)) == s.g.sent[h].bufs
  {
    ContentInEveryRun(states, events, k);
    var s := states[k];
    assert Carries(s.q, s.g, h);
    HeadsBelow(s.q, s.g, h);
    assert ChainOk(s.q, s.g, h);
    if s.g.sent[h].Sent? {
      WalkReads(s.q.desc, s.g.chains[h], s.g.sent[h].bufs, 0, Size(s.q));
    }
  }

  /** In every run, the head the device reads next starts a chain that lists the buffers of
      the request whose turn it is: requests reach the device complete and in order. */
  lemma RequestsInOrder(states: seq<Config>, events: seq<Event>, k: nat)
    requires Run(states, events) && k <= |events| && states[k].g.availQ != []
    ensures
      var s := states[k];
      && Shaped(s.q) && 0 <= Consumed(s.g) < |s.g.requests|
      && var head := DeviceReads(s.q, Consumed(s.g));
      && head < Size(s.q)
      && match s.g.requests[Consumed(s.g)]
         case Sent(bufs) => DeviceWalk(s.q.desc, head, Size(s.q)) == bufs
         case Raw(addr, len, flags) => s.q.desc[head] == Desc(addr, len, flags, INVALID)
  {
    ContentInEveryRun(states, events, k);
    var s := states[k];
    ConsumeEffect(s.q, s.g);
    assert PendingAt(s.g, 0);
    var h := s.g.availQ[0];
    assert h in ToSet(s.g.availQ) && h in s.g.chains.Keys;
    HeadsBelow(s.q, s.g, h);
    ChainsKeepRequests(states, events, k, h);
    assert Carries(s.q, s.g, h);
  }

  /** In every run, what virtq_get_buffer and each round of virtq_get_buffers_batch handed
      to the caller so far is what the device posted so far, ids outside the table left
      out, up to the elements still waiting in the ring: none lost, none twice, none out of
      order, each with its length. */
  lemma CompletionsInOrder(states: seq<Config>, events: seq<Event>, k: nat)
    requires Run(states, events) && k <= |events|
    ensures
      var s := states[k];
      && GenuineOf(s.g.posted, Size(s.q)) == s.g.got + GenuineOf(s.g.usedQ, Size(s.q))
      && UsedCount(s.q) == |s.g.usedQ|
      && (!HasUsed(s.q) ==> s.g.got == GenuineOf(s.g.posted, Size(s.q)))
  {
    ContentInEveryRun(states, events, k);
    UsedCountExact(states[k].q, states[k].g);
  }

  /** And one more call hands over the oldest of those, or skips it, with its length. */
  lemma NextHandedOver(states: seq<Config>, events: seq<Event>, k: nat)
    requires Run(states, events) && k < |events| && events[k].Get?
    ensures
      var s, t, head := states[k], states[k + 1], GetBuffer(states[k].q).1;
      && (head != INVALID ==> HasUsed(s.q) && t.g.got == s.g.got + [UsedElem(head, NextUsed(s.q).len)])
      && (head == INVALID ==> t.g.got == s.g.got)
  {
    InvInEveryRun(states, events, k);
    var s := states[k];
    UsedCountExact(s.q, s.g);
    GetBufferEffect(s.q, s.g);
  }
}
