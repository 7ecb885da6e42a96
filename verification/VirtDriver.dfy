/**
 The virtqueue as the driver updates it: descriptor table and rings are arrays, the free
 list head and the indices are fields.
 */
module VirtDriver {
  import opened Lists
  import opened VirtQueue
  import opened VirtChains
  import opened VirtRun

  class VirtQueueObject {
    const desc: array<Desc>
    const avail: array<nat>
    const used: array<UsedElem>
    var freeHead: nat
    var numFree: nat
    var availIdx: nat
    var usedIdx: nat
    var lastUsedIdx: nat

    ghost function View(): Queue
      reads this, desc, avail, used
    {
      Queue(desc[..], freeHead, numFree, avail[..], availIdx, used[..], usedIdx, lastUsedIdx)
    }

    /** virtq_create with a size it accepts, including virtq_init_free_list. */
    constructor (n: bv16)
      requires SizeAccepted(n)
      ensures fresh(desc) && fresh(avail) && fresh(used)
      ensures Created(View()) && Size(View()) == n as nat
    {
      AcceptedSizes(n);
      var size := n as nat;
      desc := new Desc[size](_ => Desc(0, 0, 0, 0));
      avail := new nat[size](_ => 0);
      used := new UsedElem[size](_ => UsedElem(0, 0));
      freeHead, numFree, availIdx, usedIdx, lastUsedIdx := 0, size, 0, 0, 0;
      new;
      var i := 0;
      while i < size
        invariant 0 <= i <= size
        invariant forall j :: 0 <= j < i ==> desc[j] == Desc(0, 0, 0, j + 1)
        invariant availIdx == 0 && usedIdx == 0
      {
        desc[i] := Desc(0, 0, 0, i + 1);
        i := i + 1;
      }
      desc[size - 1] := desc[size - 1].(next := INVALID);
      freeHead, numFree, lastUsedIdx := 0, size, 0;
      assert desc[..] == InitDesc(size);
    }

    method AllocOne() returns (idx: nat)
      requires numFree > 0 ==> freeHead < desc.Length
      modifies this, desc
      ensures if CanAlloc(old(View())) then idx == old(freeHead) && View() == AllocDesc(old(View()))
              else idx == INVALID && View() == old(View())
    {
      if numFree == 0 {
        return INVALID;
      }
      idx := freeHead;
      freeHead := desc[idx].next;
      numFree := numFree - 1;
      desc[idx] := desc[idx].(flags := 0);
      desc[idx] := desc[idx].(next := INVALID);
    }

    method FreeOne(idx: nat)
      modifies this, desc
      ensures View() == FreeDesc(old(View()), idx)
    {
      if idx >= desc.Length {
        return;
      }
      desc[idx] := Desc(0, 0, 0, freeHead);
      freeHead := idx;
      numFree := numFree + 1;
    }

    /** virtq_free_chain on the chain c.  The break on a count above the queue size is
        never taken. */
    method FreeAll(head: nat, ghost c: seq<nat>)
      requires desc.Length <= MAX_SIZE && Linked(desc[..], c) && NoDup(c) && c != [] && head == c[0]
      modifies this, desc
      ensures View() == FreeChain(old(View()), head)
      ensures View() == FreeSeq(old(View()), c)
    {
      ghost var q0 := View();
      ChainFits(q0, c);
      FreeLoopWalks(q0, c, 0);
      assert LinkAt(desc[..], c, 0);
      var idx, count := head, 0;
      ghost var rest := c;
      while idx != INVALID
        invariant count + |rest| <= desc.Length <= MAX_SIZE
        invariant Linked(desc[..], rest) && NoDup(rest) && idx == HeadOf(rest)
        invariant FreeSeq(View(), rest) == FreeSeq(q0, c)
        decreases |rest|
      {
        assert LinkAt(desc[..], rest, 0);
        ghost var before := desc[..];
        var next := desc[idx].next;
        FreeOne(idx);
        idx := next;
        count := count + 1;
        assert count <= desc.Length;
        RestLinked(before, desc[..], rest);
        rest := rest[1..];
      }
      assert rest != [] ==> LinkAt(desc[..], rest, 0);
      assert rest == [];
    }

    /** One pass of a loop of virtq_add_buffers, when a descriptor is left. */
    method AppendOne(head: nat, prev: nat, b: Buffer) returns (idx: nat)
      requires CanAlloc(View()) && (head != INVALID ==> prev < desc.Length)
      modifies this, desc
      ensures idx == old(freeHead) && View() == AppendDesc(old(View()), head, prev, b)
    {
      idx := AllocOne();
      desc[idx] := desc[idx].(addr := b.addr, len := b.len, flags := if b.writable then F_WRITE else 0);
      if head != INVALID {
        desc[prev] := desc[prev].(flags := desc[prev].flags | F_NEXT);
        desc[prev] := desc[prev].(next := idx);
      }
    }

    /** The state of the loops after k buffers: `free` and `bufs` are the initial free
        chain and all buffers. */
    ghost predicate Building(q0: Queue, free: seq<nat>, bufs: seq<Buffer>, k: nat, head: nat, prev: nat)
      reads this, desc, avail, used
    {
      && k <= |bufs| && k <= |free| && NoDup(free) && |free| <= Size(q0) <= MAX_SIZE && SameRings(q0, View())
      && FreeOk(View(), free[k..])
      && ChainHolds(desc[..], free[..k], bufs[..k])
      && head == HeadOf(free[..k]) && prev == LastOf(free[..k]) && (head != INVALID ==> prev < desc.Length)
      && BuildChain(View(), head, prev, bufs[k..]) == BuildChain(q0, INVALID, INVALID, bufs)
    }

    /** One pass of either loop: append the next buffer, or give everything back. */
    method AddOne(b: Buffer, head: nat, prev: nat,
                  ghost q0: Queue, ghost free: seq<nat>, ghost bufs: seq<Buffer>, ghost k: nat)
      returns (ok: bool, head': nat, prev': nat)
      requires Building(q0, free, bufs, k, head, prev) && k < |bufs| && bufs[k] == b
      modifies this, desc
      ensures ok ==> Building(q0, free, bufs, k + 1, head', prev')
      ensures !ok ==> var r := BuildChain(q0, INVALID, INVALID, bufs); !r.ok && View() == r.q
    {
      head', prev' := head, prev;
      if numFree == 0 {
        // virtq_alloc_desc returns INVALID: roll back
        assert free[..k] == free;
        if head != INVALID {
          HoldsLinked(desc[..], free[..k], bufs[..k]);
          FreeAll(head, free[..k]);
        }
        return false, head, prev;
      }
      var c, rest := free[..k], free[k..];
      assert c + rest == free;
      assert c != [] ==> HoldsAt(desc[..], c, bufs[..k], 0);
      AppendStep(View(), rest, c, bufs[..k], b);
      var idx := AppendOne(head, prev, b);
      if head == INVALID {
        head' := idx;
      }
      prev' := idx;
      NextBuilding(free, bufs, k);
      return true, head', prev';
    }

    /** The store into the available ring. */
    method PublishHead(head: nat)
      requires Shaped(View())
      modifies this, avail
      ensures View() == Publish(old(View()), head)
    {
      avail[availIdx % desc.Length] := head;
      availIdx := (availIdx + 1) % IDX_WRAP;
    }

    /** Either loop of virtq_add_buffers, over a list that starts at position k of the
        whole request. */
    method AddList(list: seq<(nat, nat)>, writable: bool, head: nat, prev: nat,
                   ghost q0: Queue, ghost free: seq<nat>, ghost bufs: seq<Buffer>, ghost k: nat)
      returns (ok: bool, head': nat, prev': nat)
      requires Building(q0, free, bufs, k, head, prev) && k + |list| <= |bufs|
      requires forall j :: 0 <= j < |list| ==> bufs[k + j] == Buffer(list[j].0, list[j].1, writable)
      modifies this, desc
      ensures ok ==> Building(q0, free, bufs, k + |list|, head', prev')
      ensures !ok ==> var r := BuildChain(q0, INVALID, INVALID, bufs); !r.ok && View() == r.q
    {
      ok, head', prev' := true, head, prev;
      var i := 0;
      while i < |list| && ok
        invariant 0 <= i <= |list|
        invariant ok ==> Building(q0, free, bufs, k + i, head', prev')
        invariant !ok ==> var r := BuildChain(q0, INVALID, INVALID, bufs); !r.ok && View() == r.q
      {
        ok, head', prev' := AddOne(Buffer(list[i].0, list[i].1, writable), head', prev', q0, free, bufs, k + i);
        i := i + 1;
      }
    }

    /** virtq_add_buffers.  `free` is the free chain at the call. */
    method AddRequest(outs: seq<(nat, nat)>, ins: seq<(nat, nat)>, ghost free: seq<nat>) returns (r: AddResult)
      requires Shaped(View()) && FreeOk(View(), free)
      requires |outs| < IDX_WRAP && |ins| < IDX_WRAP
      modifies this, desc, avail
      ensures (View(), r) == AddBuffers(old(View()), Buffers(outs, ins))
    {
      ghost var q0, bufs := View(), Buffers(outs, ins);
      var total := (|outs| + |ins|) % IDX_WRAP;
      if total == 0 {
        return EInval;
      }
      if numFree < total {
        return ENoMem;
      }
      BuildingStarts(free, bufs);
      ChainFits(q0, free);
      var ok, head, prev := AddList(outs, false, INVALID, INVALID, q0, free, bufs, 0);
      if !ok {
        return ENoMem;
      }
      ok, head, prev := AddList(ins, true, head, prev, q0, free, bufs, |outs|);
      if !ok {
        return ENoMem;
      }
      assert bufs[|outs| + |ins|..] == [];
      PublishHead(head);
      return Added(numFree);
    }

    /** virtq_add_single. */
    method AddSingleBuffer(addr: nat, len: nat, flags: bv16) returns (idx: nat)
      requires Shaped(View()) && (numFree > 0 ==> freeHead < desc.Length)
      modifies this, desc, avail
      ensures (View(), idx) == AddSingle(old(View()), addr, len, flags)
    {
      if numFree == 0 {
        return INVALID;
      }
      idx := AllocOne();
      desc[idx] := Desc(addr, len, flags, INVALID);
      PublishHead(idx);
    }

    /** virtq_get_buffer; an id outside the table is passed over. */
    method GetCompleted(ghost g: Track) returns (head: nat, len: nat)
      requires Inv(View(), g)
      modifies this, desc
      ensures (View(), head) == GetBuffer(old(View()))
      ensures head != INVALID ==> len == NextUsed(old(View())).len
    {
      if lastUsedIdx == usedIdx {
        return INVALID, 0;
      }
      var elem := used[lastUsedIdx % desc.Length];
      if elem.id >= desc.Length {
        lastUsedIdx := (lastUsedIdx + 1) % IDX_WRAP;
        return INVALID, 0;
      }
      head, len := elem.id, elem.len;
      UsedIsChain(View(), g);
      FreeAll(head, g.chains[head]);
      lastUsedIdx := (lastUsedIdx + 1) % IDX_WRAP;
    }

    /** Where the device may act while the driver runs.  Callers rely on nothing but this
        contract, which every sequence of device steps meets (DeviceRunMoves):
        `left` bounds how many elements are still to arrive. */
    method DeviceActs(ghost g: Track, ghost left: nat) returns (ghost g': Track, ghost arrived: seq<UsedElem>)
      requires Inv(View(), g)
      modifies this`usedIdx, used
      ensures Inv(View(), g') && DeviceMoved(g, g', arrived) && |arrived| <= left
    {
      g', arrived := g, [];
      NothingMoved(g);
    }

    method TakeOne(ghost g: Track) returns (head: nat, len: nat)
      requires Inv(View(), g) && g.usedQ != [] && Reclaimable(g)
      modifies this, desc
      ensures Inv(View(), Returned(g))
      ensures if Genuine(g) then head != INVALID && UsedElem(head, len) == g.usedQ[0] else head == INVALID
    {
      GetBufferEffect(View(), g);
      head, len := GetCompleted(g);
    }

    /** One round of virtq_get_buffers_batch, after the device may have acted: nothing when
        the ring is empty, else the next element is reclaimed or skipped. */
    method TakeNext(ghost g: Track, ghost left: nat)
      returns (found: bool, head: nat, len: nat, ghost more: seq<UsedElem>, ghost g': Track)
      requires Inv(View(), g)
      modifies this, desc, used
      ensures Inv(View(), g') && |more| <= left && |g'.usedQ| == |g.usedQ| + |more| - (if found then 1 else 0)
      ensures Round(g, more, found, head, len, g')
    {
      ghost var mid;
      mid, more := DeviceActs(g, left);
      UsedCountExact(View(), mid);
      if lastUsedIdx == usedIdx {
        return false, INVALID, 0, more, mid;
      }
      ReturnStages(mid);
      head, len := TakeOne(mid);
      RoundTakes(g, mid, more, head, len);
      return true, head, len, more, Returned(mid);
    }

    /** virtq_get_buffers_batch, with the device acting before every look at the ring: the
        heads and lengths of the valid elements, in order, at most `max` of them; it stops
        short of `max` only on an empty ring. */
    method GetBatch(max: nat, ghost g: Track, ghost coming: nat)
      returns (heads: seq<nat>, lens: seq<nat>, ghost taken: nat, ghost arrived: seq<UsedElem>, ghost g': Track)
      requires Inv(View(), g)
      modifies this, desc, used
      ensures Inv(View(), g')
      ensures |heads| == |lens| <= max && (|heads| < max ==> g'.usedQ == [])
      ensures Batched(g, g', taken, arrived, Pairs(heads, lens), desc.Length)
    {
      heads, lens, g', taken, arrived := [], [], g, 0, [];
      ghost var left: nat := coming;
      BatchStarts(g);
      while |heads| < max
        invariant Inv(View(), g')
        invariant |heads| == |lens| <= max
        invariant Batched(g, g', taken, arrived, Pairs(heads, lens), desc.Length)
        decreases left + |g'.usedQ|
      {
        ghost var before, more := g', [];
        var found, head, len;
        found, head, len, more, g' := TakeNext(g', left);
        BatchRound(g, before, g', taken, arrived, heads, lens, desc.Length, more, found, head, len);
        left, arrived := left - |more|, arrived + more;
        if !found {
          break;
        }
        if head != INVALID {
          heads, lens := heads + [head], lens + [len];
        }
        taken := taken + 1;
      }
    }

    /** virtq_get_stats. */
    method GetStats(ghost g: Track) returns (free: nat, pending: nat)
      requires Inv(View(), g)
      ensures free == |g.free| && pending == |g.usedQ|
    {
      UsedCountExact(View(), g);
      free := numFree;
      pending := (usedIdx - lastUsedIdx) % IDX_WRAP;
    }
  }

  /** The next completion, when its id is inside the table, names a well-formed chain. */
  lemma UsedIsChain(q: Queue, g: Track)
    requires Inv(q, g) && HasUsed(q) && NextUsed(q).id < Size(q)
    ensures
      var h := NextUsed(q).id;
      && h in g.chains
      && g.chains[h] != [] && g.chains[h][0] == h && Linked(q.desc, g.chains[h]) && NoDup(g.chains[h])
  {
    UsedCountExact(q, g);
    ReturnStages(g);
    ReturnRings(q, g, q);
    var h := g.usedQ[0].id;
    HeadsBelow(q, g, h);
    assert ChainOk(q, g, h);
  }

  // ---------------------------------------------------------------------------
  // The device beside a driver call
  // ---------------------------------------------------------------------------

  /** What device steps may change: it consumes published chains and posts elements. */
  ghost predicate DeviceMoved(g: Track, g': Track, arrived: seq<UsedElem>) {
    g' == g.(availQ := g'.availQ, atDevice := g'.atDevice, usedQ := g.usedQ + arrived, posted := g.posted + arrived)
  }

  lemma NothingMoved(g: Track)
    ensures DeviceMoved(g, g, [])
  {
    assert g.usedQ + [] == g.usedQ && g.posted + [] == g.posted;
  }

  lemma DeviceStepMoves(a: Config, e: Event, b: Config)
    requires Inv(a.q, a.g) && Step(a, e, b) && (e.Consume? || e.Post?)
    ensures Inv(b.q, b.g) && DeviceMoved(a.g, b.g, if e.Post? then [e.elem] else [])
    ensures b.q == a.q.(used := b.q.used, usedIdx := b.q.usedIdx)
  {
    StepInv(a, e, b);
    if e.Consume? {
      assert a.g.usedQ + [] == a.g.usedQ && a.g.posted + [] == a.g.posted;
    }
  }

  lemma MovesJoin(g: Track, g1: Track, g2: Track, a: seq<UsedElem>, b: seq<UsedElem>)
    requires DeviceMoved(g, g1, a) && DeviceMoved(g1, g2, b)
    ensures DeviceMoved(g, g2, a + b)
  {
    assert g.usedQ + a + b == g.usedQ + (a + b) && g.posted + a + b == g.posted + (a + b);
  }

  /** What a sequence of device steps posts. */
  function Arrivals(es: seq<Event>): seq<UsedElem> {
    if es == [] then []
    else Arrivals(es[..|es| - 1]) + if es[|es| - 1].Post? then [es[|es| - 1].elem] else []
  }

  ghost predicate DeviceStep(a: Config, e: Event, b: Config) {
    (e.Consume? || e.Post?) && Step(a, e, b)
  }

  /** The contract of DeviceActs, between two configurations. */
  ghost predicate MovedTo(a: Config, b: Config, arrived: seq<UsedElem>) {
    && Inv(b.q, b.g) && DeviceMoved(a.g, b.g, arrived)
    && b.q == a.q.(used := b.q.used, usedIdx := b.q.usedIdx)
  }

  lemma MovedToNext(a: Config, b: Config, arrived: seq<UsedElem>, e: Event, c: Config)
    requires MovedTo(a, b, arrived) && DeviceStep(b, e, c)
    ensures MovedTo(a, c, arrived + if e.Post? then [e.elem] else [])
  {
    DeviceStepMoves(b, e, c);
    MovesJoin(a.g, b.g, c.g, arrived, if e.Post? then [e.elem] else []);
  }

  /** Any number of device steps, one after another, meets the contract of DeviceActs. */
  lemma {:induction false} DeviceRunMoves(cs: seq<Config>, es: seq<Event>, k: nat)
    requires |cs| == |es| + 1 && k <= |es| && Inv(cs[0].q, cs[0].g)
    requires forall i: nat :: i < |es| ==> DeviceStep(cs[i], es[i], cs[i + 1])
    ensures MovedTo(cs[0], cs[k], Arrivals(es[..k]))
  {
    if k == 0 {
      NothingMoved(cs[0].g);
    } else {
      DeviceRunMoves(cs, es, k - 1);
      MovedToNext(cs[0], cs[k - 1], Arrivals(es[..k - 1]), es[k - 1], cs[k]);
      assert es[..k][..k - 1] == es[..k - 1];
    }
  }

  // ---------------------------------------------------------------------------
  // The batch loop
  // ---------------------------------------------------------------------------

  function Pairs(heads: seq<nat>, lens: seq<nat>): (r: seq<UsedElem>)
    requires |heads| == |lens|
    ensures |r| == |heads| && forall i :: 0 <= i < |r| ==> r[i] == UsedElem(heads[i], lens[i])
  {
    seq(|heads|, i requires 0 <= i < |heads| => UsedElem(heads[i], lens[i]))
  }

  lemma PairsSnoc(heads: seq<nat>, lens: seq<nat>, head: nat, len: nat)
    requires |heads| == |lens|
    ensures Pairs(heads + [head], lens + [len]) == Pairs(heads, lens) + [UsedElem(head, len)]
  {
  }

  /** After `taken` elements of those present at the call and arrived since. */
  ghost predicate Batched(g: Track, g': Track, taken: nat, arrived: seq<UsedElem>, done: seq<UsedElem>, size: nat) {
    var all := g.usedQ + arrived;
    && taken <= |all| && |g'.owner| == size
    && done == GenuineOf(all[..taken], size) && g'.usedQ == all[taken..]
    && g'.posted == g.posted + arrived && g'.got == g.got + done
  }

  lemma BatchStarts(g: Track)
    ensures Batched(g, g, 0, [], [], |g.owner|) && Pairs([], []) == []
  {
    assert g.usedQ + [] == g.usedQ && g.posted + [] == g.posted && g.got + [] == g.got;
  }

  lemma BatchGrows(g: Track, g1: Track, g2: Track, taken: nat, arrived: seq<UsedElem>, more: seq<UsedElem>,
                   done: seq<UsedElem>, size: nat)
    requires Batched(g, g1, taken, arrived, done, size) && DeviceMoved(g1, g2, more)
    ensures Batched(g, g2, taken, arrived + more, done, size)
  {
    var all := g.usedQ + arrived;
    assert g.usedQ + (arrived + more) == all + more;
    assert (all + more)[..taken] == all[..taken] && (all + more)[taken..] == all[taken..] + more;
    assert g.posted + (arrived + more) == g.posted + arrived + more;
  }

  /** The device moves from g to some state; then the next element, if any, is taken. */
  ghost predicate Round(g: Track, more: seq<UsedElem>, found: bool, head: nat, len: nat, g': Track) {
    exists mid: Track {:trigger DeviceMoved(g, mid, more)} ::
      && DeviceMoved(g, mid, more) && Reclaimable(mid) && found == (mid.usedQ != [])
      && g' == (if found then Returned(mid) else mid)
      && (if Genuine(mid) then head != INVALID && UsedElem(head, len) == mid.usedQ[0] else head == INVALID)
  }

  lemma RoundTakes(g: Track, mid: Track, more: seq<UsedElem>, head: nat, len: nat)
    requires DeviceMoved(g, mid, more) && Reclaimable(mid) && mid.usedQ != []
    requires if Genuine(mid) then head != INVALID && UsedElem(head, len) == mid.usedQ[0] else head == INVALID
    ensures Round(g, more, true, head, len, Returned(mid))
    ensures |Returned(mid).usedQ| == |g.usedQ| + |more| - 1
  {
  }

  lemma BatchTakes(g: Track, g': Track, taken: nat, arrived: seq<UsedElem>, done: seq<UsedElem>, size: nat)
    requires Batched(g, g', taken, arrived, done, size) && g'.usedQ != [] && Reclaimable(g')
    ensures Batched(g, Returned(g'), taken + 1, arrived, done + (if Genuine(g') then [g'.usedQ[0]] else []), size)
  {
    var all := g.usedQ + arrived;
    assert all[..taken + 1] == all[..taken] + [all[taken]];
    GenuineSnoc(all[..taken], all[taken], size);
    assert all[taken..][1..] == all[taken + 1..];
    assert g.got + done + [all[taken]] == g.got + (done + [all[taken]]);
    assert done + [] == done;
  }

  lemma BatchRound(g: Track, g1: Track, g2: Track, taken: nat, arrived: seq<UsedElem>, heads: seq<nat>, lens: seq<nat>,
                   size: nat, more: seq<UsedElem>, found: bool, head: nat, len: nat)
    requires |heads| == |lens| && Batched(g, g1, taken, arrived, Pairs(heads, lens), size)
    requires Round(g1, more, found, head, len, g2)
    ensures !found ==> g2.usedQ == [] && Batched(g, g2, taken, arrived + more, Pairs(heads, lens), size)
    ensures found && head == INVALID ==> Batched(g, g2, taken + 1, arrived + more, Pairs(heads, lens), size)
    ensures found && head != INVALID ==>
              Batched(g, g2, taken + 1, arrived + more, Pairs(heads + [head], lens + [len]), size)
  {
    var mid: Track :|
      && DeviceMoved(g1, mid, more) && Reclaimable(mid) && found == (mid.usedQ != [])
      && g2 == (if found then Returned(mid) else mid)
      && (if Genuine(mid) then head != INVALID && UsedElem(head, len) == mid.usedQ[0] else head == INVALID);
    var done := Pairs(heads, lens);
    BatchGrows(g, g1, mid, taken, arrived, more, done, size);
    if found {
      BatchTakes(g, mid, taken, arrived + more, done, size);
      PairsSnoc(heads, lens, head, len);
      assert done + [] == done;
    }
  }

  lemma BuildingStarts(free: seq<nat>, bufs: seq<Buffer>)
    ensures free[0..] == free && free[..0] == [] && bufs[0..] == bufs && bufs[..0] == []
  {
  }

  lemma NextBuilding(free: seq<nat>, bufs: seq<Buffer>, k: nat)
    requires k < |bufs| && k < |free|
    ensures free[..k] + [free[k..][0]] == free[..k + 1] && free[k..][1..] == free[k + 1..]
    ensures bufs[..k] + [bufs[k]] == bufs[..k + 1] && bufs[k..][1..] == bufs[k + 1..]
  {
  }

  lemma ChainFits(q: Queue, c: seq<nat>)
    requires Linked(q.desc, c) && NoDup(c)
    ensures |c| <= Size(q)
  {
    forall k: nat | k < |c| ensures c[k] < Size(q) {
      assert LinkAt(q.desc, c, k);
    }
    DistinctBelow(c, Size(q));
  }

  /** Freeing the head leaves the rest of the chain linked. */
  lemma RestLinked(desc: seq<Desc>, desc': seq<Desc>, c: seq<nat>)
    requires c != [] && Linked(desc, c) && NoDup(c) && |desc'| == |desc|
    requires forall i: nat :: i < |desc| && i != c[0] ==> desc'[i] == desc[i]
    ensures Linked(desc', c[1..]) && NoDup(c[1..]) && HeadOf(c[1..]) == NextOf(c, 0)
  {
    forall k: nat | k < |c[1..]| ensures LinkAt(desc', c[1..], k) {
      assert LinkAt(desc, c, k + 1);
    }
  }
}
