/**
 The IC2 ring between one writer and one reader, against its calls: what the bytes written
 and read must be is computed from the sequence of events alone, and every interleaving
 delivers exactly that.
 */
module Ic2Calls {
  import opened Ic2Ring
  import opened Ic2Spsc

  // ---------------------------------------------------------------------------
  // What the calls ask for
  // ---------------------------------------------------------------------------

  datatype Kind = WriteCall | WriteLoad | ReadCall | ReadLoad

  predicate Is(e: Event, kind: Kind) {
    match kind
    case WriteCall => e.WBegin?
    case WriteLoad => e.WLoadTail?
    case ReadCall => e.RBegin?
    case ReadLoad => e.RLoadTail?
  }

  /** The place of the last event of a kind before k, or 0. */
  function Last(events: seq<Event>, k: nat, kind: Kind): (r: nat)
    requires k <= |events|
    ensures r <= k && (k > 0 ==> r < k)
  {
    if k == 0 then 0 else if Is(events[k - 1], kind) then k - 1 else Last(events, k - 1, kind)
  }

  /** The bytes that the writes completed before event k have put into a ring of n cells:
      of each, as many from the front of its argument as were free, with one cell left
      empty, when it had loaded both indices. */
  function Written(n: nat, events: seq<Event>, k: nat): seq<Byte>
    requires k <= |events|
    decreases k
  {
    if k == 0 then []
    else if !events[k - 1].WPublish? then Written(n, events, k - 1)
    else
      var call, load := Last(events, k - 1, WriteCall), Last(events, k - 1, WriteLoad);
      if !events[call].WBegin? then Written(n, events, k - 1)
      else
        var room := n - 1 - (|Written(n, events, call)| - ReadCount(n, events, load));
        Written(n, events, k - 1) + FirstBytes(events[call].src, room)
  }

  /** How many bytes the reads completed before event k have taken: of each, as many as it
      wanted and as were there when it had loaded both indices. */
  function ReadCount(n: nat, events: seq<Event>, k: nat): nat
    requires k <= |events|
    decreases k
  {
    if k == 0 then 0
    else if !events[k - 1].RPublish? then ReadCount(n, events, k - 1)
    else
      var call, load := Last(events, k - 1, ReadCall), Last(events, k - 1, ReadLoad);
      if !events[call].RBegin? then ReadCount(n, events, k - 1)
      else
        var there := |Written(n, events, call)| - ReadCount(n, events, load);
        ReadCount(n, events, k - 1) + Smaller(events[call].want, there)
  }

  function FirstBytes(src: seq<Byte>, room: int): seq<Byte> {
    if room >= |src| then src else if room > 0 then src[..room] else []
  }

  function Smaller(want: nat, there: int): nat {
    if there >= want then want else if there > 0 then there else 0
  }

  // ---------------------------------------------------------------------------
  // What the ring does
  // ---------------------------------------------------------------------------

  /** The call under way in the producer is the last one begun. */
  ghost predicate WriterAt(n: nat, events: seq<Event>, k: nat, s: State)
    requires k <= |events|
  {
    var call, load := Last(events, k, WriteCall), Last(events, k, WriteLoad);
    match s.producer
    case WIdle => true
    case WHead(src, h) =>
      k > 0 && events[call] == WBegin(src) && |Written(n, events, call)| == |s.sent|
    case WCopy(out, h, done) =>
      && k > 0 && events[call].WBegin? && |Written(n, events, call)| == |s.sent|
      && out == FirstBytes(events[call].src, n - 1 - (|s.sent| - ReadCount(n, events, load)))
  }

  ghost predicate ReaderAt(n: nat, events: seq<Event>, k: nat, s: State)
    requires k <= |events|
  {
    var call, load := Last(events, k, ReadCall), Last(events, k, ReadLoad);
    match s.consumer
    case RIdle => true
    case RHead(want, h, seen) => k > 0 && events[call] == RBegin(want) && |Written(n, events, call)| == seen
    case RCopy(count, t, dst) =>
      && k > 0 && events[call].RBegin?
      && count == Smaller(events[call].want, |Written(n, events, call)| - ReadCount(n, events, load))
  }

  ghost predicate CallsAt(n: nat, events: seq<Event>, k: nat, s: State)
    requires k <= |events|
  {
    && |s.buf| == n && s.sent == Written(n, events, k) && |s.got| == ReadCount(n, events, k)
    && WriterAt(n, events, k, s) && ReaderAt(n, events, k, s)
  }

  lemma WriteLoadRoom(s: State)
    requires Inv(s) && Enabled(s, WLoadTail)
    ensures
      var WHead(src, h) := s.producer;
      var out := FirstBytes(src, |s.buf| - 1 - (|s.sent| - |s.got|));
      Step(s, WLoadTail).producer == if out == [] then WIdle else WCopy(out, h, 0)
  {
    SpaceExact(|s.sent|, |s.got|, |s.buf|);
    var WHead(src, h) := s.producer;
    assert src[..|src|] == src;
  }

  lemma ReadLoadThere(s: State)
    requires Inv(s) && Enabled(s, RLoadTail)
    ensures
      var RHead(want, h, seen) := s.consumer;
      var count := Smaller(want, seen - |s.got|);
      Step(s, RLoadTail).consumer == if count == 0 then RIdle else RCopy(count, s.tail, [])
  {
    SpaceExact(s.consumer.seen, |s.got|, |s.buf|);
  }

  /** The totals change only with the two index stores, by what the calls under way ask. */
  lemma TotalsStep(n: nat, events: seq<Event>, k: nat, s: State)
    requires k < |events| && Inv(s) && Enabled(s, events[k]) && CallsAt(n, events, k, s)
    ensures
      var s' := Step(s, events[k]);
      |s'.buf| == n && s'.sent == Written(n, events, k + 1) && |s'.got| == ReadCount(n, events, k + 1)
  {
  }

  lemma WriterLoads(n: nat, events: seq<Event>, k: nat, s: State)
    requires k < |events| && events[k] == WLoadTail && Inv(s) && Enabled(s, events[k]) && CallsAt(n, events, k, s)
    ensures WriterAt(n, events, k + 1, Step(s, events[k]))
  {
    WriteLoadRoom(s);
    assert Last(events, k + 1, WriteLoad) == k;
    assert Last(events, k + 1, WriteCall) == Last(events, k, WriteCall);
  }

  lemma WriterStep(n: nat, events: seq<Event>, k: nat, s: State)
    requires k < |events| && Inv(s) && Enabled(s, events[k]) && CallsAt(n, events, k, s)
    ensures WriterAt(n, events, k + 1, Step(s, events[k]))
  {
    var call, load := Last(events, k, WriteCall), Last(events, k, WriteLoad);
    match events[k]
    case WBegin(src) =>
      assert Last(events, k + 1, WriteCall) == k;
    case WLoadTail => WriterLoads(n, events, k, s);
    case WPublish =>
    case _ =>
      assert Last(events, k + 1, WriteCall) == call && Last(events, k + 1, WriteLoad) == load;
  }

  lemma ReaderStep(n: nat, events: seq<Event>, k: nat, s: State)
    requires k < |events| && Inv(s) && Enabled(s, events[k]) && CallsAt(n, events, k, s)
    ensures ReaderAt(n, events, k + 1, Step(s, events[k]))
  {
    var call, load := Last(events, k, ReadCall), Last(events, k, ReadLoad);
    match events[k]
    case RBegin(want) =>
      assert Last(events, k + 1, ReadCall) == k;
    case RLoadTail =>
      ReadLoadThere(s);
      assert Last(events, k + 1, ReadLoad) == k && Last(events, k + 1, ReadCall) == call;
    case RPublish =>
    case _ =>
      assert Last(events, k + 1, ReadCall) == call && Last(events, k + 1, ReadLoad) == load;
  }

  /** In every interleaving, at every moment: the bytes published are those that the completed
      writes were given, in order and each cut to the room it found, and the bytes returned
      are the first of them, as many as the completed reads wanted and found. */
  lemma {:induction false} CallsInEveryRun(states: seq<State>, events: seq<Event>, k: nat)
    requires Run(states, events) && k <= |events|
    ensures
      var n, s := |states[0].buf|, states[k];
      && CallsAt(n, events, k, s)
      && s.sent == Written(n, events, k)
      && ReadCount(n, events, k) <= |Written(n, events, k)|
      && s.got == Written(n, events, k)[..ReadCount(n, events, k)]
  {
    RunInv(states, events, k);
    if k > 0 {
      CallsInEveryRun(states, events, k - 1);
      RunInv(states, events, k - 1);
      TotalsStep(|states[0].buf|, events, k - 1, states[k - 1]);
      WriterStep(|states[0].buf|, events, k - 1, states[k - 1]);
      ReaderStep(|states[0].buf|, events, k - 1, states[k - 1]);
    }
  }
}
