/**
 One producer in ringbuf_write and one consumer in ringbuf_read on the same IC2 ring,
 interleaved at single loads, single copied bytes and single index stores, under
 sequential consistency.  Either side may work with an index of the other that is already
 out of date.
 */
module Ic2Spsc {
  import opened Modular
  import opened Ic2Ring

  /** Where the producer is in ringbuf_write: before it, after loading head, or copying
      the bytes it decided to write (`done` of them so far). */
  datatype Producer =
    | WIdle
    | WHead(src: seq<Byte>, h: nat)
    | WCopy(out: seq<Byte>, h: nat, done: nat)

  /** Where the consumer is in ringbuf_read: before it, after loading head (when `seen`
      bytes had been published), or copying `count` bytes. */
  datatype Consumer =
    | RIdle
    | RHead(want: nat, h: nat, seen: nat)
    | RCopy(count: nat, t: nat, dst: seq<Byte>)

  /** `sent` are the bytes published by completed writes, `got` those returned by
      completed reads. */
  datatype State = State(
    buf: seq<Byte>, head: nat, tail: nat,
    producer: Producer, consumer: Consumer,
    sent: seq<Byte>, got: seq<Byte>)

  datatype Event =
    | WBegin(src: seq<Byte>) | WLoadTail | WCopyByte | WPublish
    | RBegin(want: nat) | RLoadTail | RCopyByte | RPublish

  predicate InRange(s: State) {
    s.head < |s.buf| && s.tail < |s.buf|
  }

  predicate Enabled(s: State, e: Event) {
    && InRange(s)
    && match e
       case WBegin(src) => s.producer.WIdle?
       case WLoadTail => s.producer.WHead? && s.producer.h < |s.buf|
       case WCopyByte =>
         s.producer.WCopy? && s.producer.h < |s.buf| && s.producer.done < |s.producer.out| <= |s.buf|
       case WPublish => s.producer.WCopy? && s.producer.done == |s.producer.out|
       case RBegin(want) => s.consumer.RIdle?
       case RLoadTail => s.consumer.RHead? && s.consumer.h < |s.buf|
       case RCopyByte =>
         s.consumer.RCopy? && s.consumer.t < |s.buf| && |s.consumer.dst| < s.consumer.count <= |s.buf|
       case RPublish => s.consumer.RCopy? && |s.consumer.dst| == s.consumer.count
  }

  function Step(s: State, e: Event): State
    requires Enabled(s, e)
  {
    var n := |s.buf|;
    match e
    case WBegin(src) => s.(producer := WHead(src, s.head))
    case WLoadTail =>
      var WHead(src, h) := s.producer;
      var m := Min(|src|, FreeSpace(h, s.tail, n));
      s.(producer := if m == 0 then WIdle else WCopy(src[..m], h, 0))
    case WCopyByte =>
      var WCopy(out, h, done) := s.producer;
      CopyCellCyclic(h, |out|, n, done);
      s.(buf := s.buf[CopyCell(h, |out|, n, done) := out[done]], producer := WCopy(out, h, done + 1))
    case WPublish =>
      var WCopy(out, h, _) := s.producer;
      s.(head := (h + |out|) % n, sent := s.sent + out, producer := WIdle)
    case RBegin(want) => s.(consumer := RHead(want, s.head, |s.sent|))
    case RLoadTail =>
      var RHead(want, h, _) := s.consumer;
      var m := Min(want, UsedSpace(h, s.tail, n));
      s.(consumer := if m == 0 then RIdle else RCopy(m, s.tail, []))
    case RCopyByte =>
      var RCopy(count, t, dst) := s.consumer;
      CopyCellCyclic(t, count, n, |dst|);
      s.(consumer := RCopy(count, t, dst + [s.buf[CopyCell(t, count, n, |dst|)]]))
    case RPublish =>
      var RCopy(count, t, dst) := s.consumer;
      s.(tail := (t + count) % n, got := s.got + dst, consumer := RIdle)
  }

  // ---------------------------------------------------------------------------
  // The invariant
  // ---------------------------------------------------------------------------

  /** The published and unread bytes are in their cells. */
  ghost predicate Stored(s: State) {
    && 1 <= |s.buf|
    && forall k: nat :: |s.got| <= k < |s.sent| ==> s.buf[k % |s.buf|] == s.sent[k]
  }

  ghost predicate ProducerOk(s: State)
    requires 1 <= |s.buf|
  {
    match s.producer
    case WIdle => true
    case WHead(_, h) => h == s.head
    case WCopy(out, h, done) =>
      && h == s.head && done <= |out| && 1 <= |out| <= |s.buf| - 1
      && |s.sent| + |out| < |s.got| + |s.buf|
      && forall i: nat :: i < done ==> s.buf[(|s.sent| + i) % |s.buf|] == out[i]
  }

  ghost predicate ConsumerOk(s: State)
    requires 1 <= |s.buf|
  {
    match s.consumer
    case RIdle => true
    case RHead(_, h, seen) => |s.got| <= seen <= |s.sent| && h == seen % |s.buf|
    case RCopy(count, t, dst) =>
      && t == s.tail && |dst| <= count && 1 <= count <= |s.buf| - 1
      && |s.got| + count <= |s.sent|
      && dst == s.sent[|s.got|..|s.got| + |dst|]
  }

  ghost predicate Inv(s: State) {
    && 1 <= |s.buf|
    && s.head == |s.sent| % |s.buf| && s.tail == |s.got| % |s.buf|
    && |s.got| <= |s.sent| < |s.got| + |s.buf|
    && s.got == s.sent[..|s.got|]
    && Stored(s) && ProducerOk(s) && ConsumerOk(s)
  }

  predicate Initial(s: State) {
    && 1 <= |s.buf| && s.head == 0 && s.tail == 0
    && s.producer == WIdle && s.consumer == RIdle && s.sent == [] && s.got == []
  }

  /** Cell j of a copy that starts at the residue of position p. */
  lemma CopyCellAt(p: nat, m: nat, n: nat, j: nat)
    requires 0 < n && j < m <= n
    ensures CopyCell(p % n, m, n, j) == (p + j) % n
  {
    CopyCellCyclic(p % n, m, n, j);
    CellIsMod(p % n, j, n);
    ModAdd(p, j, n);
  }

  lemma WLoadTailInv(s: State)
    requires Inv(s) && Enabled(s, WLoadTail)
    ensures Inv(Step(s, WLoadTail))
  {
    SpaceExact(|s.sent|, |s.got|, |s.buf|);
  }

  lemma WCopyByteInv(s: State)
    requires Inv(s) && Enabled(s, WCopyByte)
    ensures Inv(Step(s, WCopyByte))
  {
    var s', n, p := Step(s, WCopyByte), |s.buf|, |s.sent|;
    var WCopy(out, h, done) := s.producer;
    CopyCellAt(p, |out|, n, done);
    forall k: nat | |s.got| <= k < p + done ensures k % n != (p + done) % n {
      ResiduesDiffer(k, p + done, n);
    }
    forall i: nat | i < done ensures s'.buf[(p + i) % n] == out[i] {
      assert (p + i) % n != (p + done) % n by { assert |s.got| <= p + i < p + done; }
    }
  }

  lemma WPublishInv(s: State)
    requires Inv(s) && Enabled(s, WPublish)
    ensures Inv(Step(s, WPublish))
  {
    var s', n, p := Step(s, WPublish), |s.buf|, |s.sent|;
    var WCopy(out, h, done) := s.producer;
    ModAdd(p, |out|, n);
    forall k: nat | |s'.got| <= k < |s'.sent| ensures s'.buf[k % n] == s'.sent[k] {
      if k >= p {
        assert s.buf[(p + (k - p)) % n] == out[k - p];
      }
    }
  }

  lemma RLoadTailInv(s: State)
    requires Inv(s) && Enabled(s, RLoadTail)
    ensures Inv(Step(s, RLoadTail))
  {
    SpaceExact(s.consumer.seen, |s.got|, |s.buf|);
  }

  lemma RCopyByteInv(s: State)
    requires Inv(s) && Enabled(s, RCopyByte)
    ensures Inv(Step(s, RCopyByte))
  {
    var RCopy(count, t, dst) := s.consumer;
    CopyCellAt(|s.got|, count, |s.buf|, |dst|);
    var k := |s.got| + |dst|;
    assert s.sent[|s.got|..k + 1] == s.sent[|s.got|..k] + [s.sent[k]];
  }

  lemma RPublishInv(s: State)
    requires Inv(s) && Enabled(s, RPublish)
    ensures Inv(Step(s, RPublish))
  {
    ModAdd(|s.got|, s.consumer.count, |s.buf|);
    var s' := Step(s, RPublish);
    assert s.sent[..|s'.got|] == s.sent[..|s.got|] + s.sent[|s.got|..|s'.got|];
  }

  lemma StepInv(s: State, e: Event)
    requires Inv(s) && Enabled(s, e)
    ensures Inv(Step(s, e))
  {
    match e
    case WBegin(src) =>
    case WLoadTail => WLoadTailInv(s);
    case WCopyByte => WCopyByteInv(s);
    case WPublish => WPublishInv(s);
    case RBegin(want) =>
    case RLoadTail => RLoadTailInv(s);
    case RCopyByte => RCopyByteInv(s);
    case RPublish => RPublishInv(s);
  }

  // ---------------------------------------------------------------------------
  // Every interleaving
  // ---------------------------------------------------------------------------

  ghost predicate Run(states: seq<State>, events: seq<Event>) {
    && |states| == |events| + 1
    && Initial(states[0])
    && forall k: nat :: k < |events| ==> Enabled(states[k], events[k]) && states[k + 1] == Step(states[k], events[k])
  }

  lemma {:induction false} RunInv(states: seq<State>, events: seq<Event>, k: nat)
    requires Run(states, events) && k <= |events|
    ensures Inv(states[k])
  {
    if k > 0 {
      RunInv(states, events, k - 1);
      StepInv(states[k - 1], events[k - 1]);
    }
  }

  /** Everything the consumer has, including a read under way. */
  function Received(s: State): seq<Byte> {
    s.got + if s.consumer.RCopy? then s.consumer.dst else []
  }

  /** Bytes in flight, including a write under way. */
  function InFlight(s: State): int {
    |s.sent| - |s.got| + if s.producer.WCopy? then |s.producer.out| else 0
  }

  /** In every interleaving the bytes read are a prefix of the bytes written, and at most
      capacity - 1 bytes are in flight. */
  lemma PrefixInEveryRun(states: seq<State>, events: seq<Event>, k: nat)
    requires Run(states, events) && k <= |events|
    ensures Received(states[k]) <= states[k].sent
    ensures 0 <= InFlight(states[k]) <= |states[k].buf| - 1
  {
    RunInv(states, events, k);
  }

  /** No cell is copied in and out at the same time: while both sides copy, no cell of the
      write region is a cell of the read region. */
  lemma CopiesNeverMeet(states: seq<State>, events: seq<Event>, k: nat, i: nat, j: nat)
    requires Run(states, events) && k <= |events|
    requires states[k].producer.WCopy? && i < |states[k].producer.out|
    requires states[k].consumer.RCopy? && j < states[k].consumer.count
    ensures
      var s := states[k];
      var n := |s.buf|;
      && s.producer.h < n && s.consumer.t < n
      && CopyCell(s.producer.h, |s.producer.out|, n, i) != CopyCell(s.consumer.t, s.consumer.count, n, j)
  {
    RunInv(states, events, k);
    var s := states[k];
    var n := |s.buf|;
    CopyCellAt(|s.sent|, |s.producer.out|, n, i);
    CopyCellAt(|s.got|, s.consumer.count, n, j);
    ResiduesDiffer(|s.got| + j, |s.sent| + i, n);
  }

  function ProducerNext(s: State, src: seq<Byte>): Event {
    match s.producer
    case WIdle => WBegin(src)
    case WHead(_, _) => WLoadTail
    case WCopy(out, _, done) => if done < |out| then WCopyByte else WPublish
  }

  function ConsumerNext(s: State, want: nat): Event {
    match s.consumer
    case RIdle => RBegin(want)
    case RHead(_, _, _) => RLoadTail
    case RCopy(count, _, dst) => if |dst| < count then RCopyByte else RPublish
  }

  /** Neither side ever waits for the other: whatever the other has done, its next access is
      within bounds. */
  lemma NeitherSideWaits(states: seq<State>, events: seq<Event>, k: nat, src: seq<Byte>, want: nat)
    requires Run(states, events) && k <= |events|
    ensures Enabled(states[k], ProducerNext(states[k], src)) && Enabled(states[k], ConsumerNext(states[k], want))
  {
    RunInv(states, events, k);
  }
}
