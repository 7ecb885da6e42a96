/**
 A split virtqueue (drivers/virtio/virtio_ring.c, section 2.6 of VIRTIO 1.1): the
 descriptor table, the available and used rings, and the driver's operations on them as
 functions of the queue's state.  Ring indices are 16-bit and wrap at 65536.
 */
module VirtQueue {

  const INVALID: nat := 0xFFFF
  const IDX_WRAP: nat := 0x1_0000
  const MAX_SIZE: nat := 1024

  const F_NEXT: bv16 := 1
  const F_WRITE: bv16 := 2

  datatype Desc = Desc(addr: nat, len: nat, flags: bv16, next: nat)

  datatype UsedElem = UsedElem(id: nat, len: nat)

  datatype Queue = Queue(
    desc: seq<Desc>,
    freeHead: nat,
    numFree: nat,
    avail: seq<nat>,
    availIdx: nat,
    used: seq<UsedElem>,
    usedIdx: nat,
    lastUsedIdx: nat)

  function Size(q: Queue): nat {
    |q.desc|
  }

  /** The size test of virtq_create. */
  predicate SizeAccepted(n: bv16) {
    n != 0 && n <= 1024 && n & (n - 1) == 0
  }

  /** Table and rings have one length, which divides the index wrap. */
  predicate Shaped(q: Queue) {
    && 1 <= Size(q) <= MAX_SIZE && IDX_WRAP % Size(q) == 0
    && |q.avail| == Size(q) && |q.used| == Size(q)
  }

  // ---------------------------------------------------------------------------
  // Descriptors
  // ---------------------------------------------------------------------------

  /** virtq_init_free_list on a table of n descriptors. */
  function InitDesc(n: nat): (r: seq<Desc>)
    ensures |r| == n
    ensures forall i :: 0 <= i < n ==> r[i] == Desc(0, 0, 0, if i + 1 < n then i + 1 else INVALID)
  {
    seq(n, i requires 0 <= i < n => Desc(0, 0, 0, if i + 1 < n then i + 1 else INVALID))
  }

  /** Everything but the descriptors and the free list. */
  predicate SameRings(q: Queue, r: Queue) {
    && Size(r) == Size(q) && r.avail == q.avail && r.availIdx == q.availIdx
    && r.used == q.used && r.usedIdx == q.usedIdx && r.lastUsedIdx == q.lastUsedIdx
  }

  predicate CanAlloc(q: Queue) {
    q.numFree > 0 && q.freeHead < Size(q)
  }

  /** virtq_alloc_desc, when a descriptor is free. */
  function AllocDesc(q: Queue): (r: Queue)
    requires CanAlloc(q)
    ensures SameRings(q, r)
  {
    var idx := q.freeHead;
    q.(freeHead := q.desc[idx].next, numFree := q.numFree - 1,
       desc := q.desc[idx := q.desc[idx].(flags := 0, next := INVALID)])
  }

  /** virtq_free_desc. */
  function FreeDesc(q: Queue, idx: nat): (r: Queue)
    ensures SameRings(q, r)
  {
    if idx >= Size(q) then q
    else q.(desc := q.desc[idx := Desc(0, 0, 0, q.freeHead)], freeHead := idx, numFree := q.numFree + 1)
  }

  /** The loop of virtq_free_chain, with its guard against endless chains.  An index
      outside the table ends the model's walk; in C it is an out-of-bounds access. */
  function FreeLoop(q: Queue, idx: nat, count: nat): (r: Queue)
    ensures SameRings(q, r)
    decreases Size(q) + 1 - count
  {
    if idx == INVALID || count > Size(q) || idx >= Size(q) then q
    else FreeLoop(FreeDesc(q, idx), q.desc[idx].next, count + 1)
  }

  /** virtq_free_chain. */
  function FreeChain(q: Queue, head: nat): (r: Queue)
    ensures SameRings(q, r)
  {
    if head >= Size(q) then q else FreeLoop(q, head, 0)
  }

  // ---------------------------------------------------------------------------
  // Adding buffers
  // ---------------------------------------------------------------------------

  datatype Buffer = Buffer(addr: nat, len: nat, writable: bool)

  /** The buffers of one request in chain order: out buffers, then in buffers. */
  function Buffers(outs: seq<(nat, nat)>, ins: seq<(nat, nat)>): (r: seq<Buffer>)
    ensures |r| == |outs| + |ins|
    ensures forall i :: 0 <= i < |outs| ==> r[i] == Buffer(outs[i].0, outs[i].1, false)
    ensures forall i :: 0 <= i < |ins| ==> r[|outs| + i] == Buffer(ins[i].0, ins[i].1, true)
  {
    seq(|outs|, i requires 0 <= i < |outs| => Buffer(outs[i].0, outs[i].1, false))
    + seq(|ins|, i requires 0 <= i < |ins| => Buffer(ins[i].0, ins[i].1, true))
  }

  function WriteFlag(b: Buffer): bv16 {
    if b.writable then F_WRITE else 0
  }

  /** One pass of either loop of virtq_add_buffers: allocate, fill, and link behind
      `prev` unless this is the first of the chain. */
  function AppendDesc(q: Queue, head: nat, prev: nat, b: Buffer): (r: Queue)
    requires CanAlloc(q) && (head != INVALID ==> prev < Size(q))
    ensures SameRings(q, r)
  {
    var idx := q.freeHead;
    var a := AllocDesc(q);
    var filled := a.(desc := a.desc[idx := a.desc[idx].(addr := b.addr, len := b.len, flags := WriteFlag(b))]);
    if head == INVALID then filled
    else
      var before := filled.desc[prev];
      filled.(desc := filled.desc[prev := before.(flags := before.flags | F_NEXT, next := idx)])
  }

  datatype Built = Built(q: Queue, head: nat, ok: bool)

  /** The two loops together; a failed allocation frees what was built so far. */
  function BuildChain(q: Queue, head: nat, prev: nat, bufs: seq<Buffer>): (r: Built)
    requires head != INVALID ==> prev < Size(q)
    ensures SameRings(q, r.q)
    decreases |bufs|
  {
    if bufs == [] then Built(q, head, true)
    else if !CanAlloc(q) then Built(if head != INVALID then FreeChain(q, head) else q, head, false)
    else
      var idx := q.freeHead;
      BuildChain(AppendDesc(q, head, prev, bufs[0]), if head == INVALID then idx else head, idx, bufs[1..])
  }

  /** The store into the available ring and the index increment. */
  function Publish(q: Queue, head: nat): Queue
    requires Shaped(q)
  {
    q.(avail := q.avail[q.availIdx % Size(q) := head], availIdx := (q.availIdx + 1) % IDX_WRAP)
  }

  datatype AddResult = Added(numFree: nat) | EInval | ENoMem

  /** virtq_add_buffers: the buffer count is a 16-bit sum. */
  function AddBuffers(q: Queue, bufs: seq<Buffer>): (Queue, AddResult)
    requires Shaped(q)
  {
    var total := |bufs| % IDX_WRAP;
    if total == 0 then (q, EInval)
    else if q.numFree < total then (q, ENoMem)
    else
      var b := BuildChain(q, INVALID, INVALID, bufs);
      if !b.ok then (b.q, ENoMem)
      else (Publish(b.q, b.head), Added(b.q.numFree))
  }

  /** virtq_add_single: a one-descriptor chain with caller-chosen flags; the result is the
      descriptor, or INVALID when none is free. */
  function AddSingle(q: Queue, addr: nat, len: nat, flags: bv16): (Queue, nat)
    requires Shaped(q)
  {
    if !CanAlloc(q) then (q, INVALID)
    else
      var idx := q.freeHead;
      var a := AllocDesc(q);
      (Publish(a.(desc := a.desc[idx := Desc(addr, len, flags, INVALID)]), idx), idx)
  }

  // ---------------------------------------------------------------------------
  // Reclaiming buffers
  // ---------------------------------------------------------------------------

  /** virtq_has_used, and the first test of virtq_get_buffer. */
  predicate HasUsed(q: Queue) {
    q.lastUsedIdx != q.usedIdx
  }

  function NextUsed(q: Queue): UsedElem
    requires Shaped(q)
  {
    q.used[q.lastUsedIdx % Size(q)]
  }

  function Advance(q: Queue): Queue {
    q.(lastUsedIdx := (q.lastUsedIdx + 1) % IDX_WRAP)
  }

  /** virtq_get_buffer: the head of the next completed chain, which is freed. */
  function GetBuffer(q: Queue): (Queue, nat)
    requires Shaped(q)
  {
    if !HasUsed(q) then (q, INVALID)
    else if NextUsed(q).id >= Size(q) then (Advance(q), INVALID)
    else (Advance(FreeChain(q, NextUsed(q).id)), NextUsed(q).id)
  }

  /** The used_count of virtq_get_stats, a 16-bit difference. */
  function UsedCount(q: Queue): nat {
    (q.usedIdx - q.lastUsedIdx) % IDX_WRAP
  }

  // ---------------------------------------------------------------------------
  // The device
  // ---------------------------------------------------------------------------

  /** The device reads the available ring at its own running index. */
  function DeviceReads(q: Queue, deviceIdx: nat): nat
    requires Shaped(q)
  {
    q.avail[deviceIdx % IDX_WRAP % Size(q)]
  }

  /** The device posts an element in the used ring. */
  function DevicePosts(q: Queue, e: UsedElem): Queue
    requires Shaped(q)
  {
    q.(used := q.used[q.usedIdx % Size(q) := e], usedIdx := (q.usedIdx + 1) % IDX_WRAP)
  }
}
