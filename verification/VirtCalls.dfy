/**
 What passes through a virtqueue, told from the calls of the driver and the actions of the
 device alone: which requests the device finds, and which completions the caller gets.
 */
module VirtCalls {
  import opened VirtQueue
  import opened VirtRun
  import opened VirtContent

  // ---------------------------------------------------------------------------
  // Requests and completions of a run
  // ---------------------------------------------------------------------------

  /** What a call publishes: a request of as many buffers as descriptors are free, or fewer. */
  function Published(q: Queue, e: Event): seq<Content> {
    match e
    case Add(bufs) => if 1 <= |bufs| <= q.numFree then [Sent(bufs)] else []
    case Single(addr, len, flags) => if q.numFree > 0 then [Raw(addr, len, flags)] else []
    case _ => []
  }

  /** What a call hands to its caller: the head it returns, with the length in the ring. */
  function Handed(q: Queue, e: Event): seq<UsedElem>
    requires Shaped(q)
  {
    if e == Get && GetBuffer(q).1 != 0xFFFF
    then [UsedElem(GetBuffer(q).1, q.used[q.lastUsedIdx % |q.desc|].len)] else []
  }

  ghost predicate AllShaped(states: seq<Config>) {
    forall k: nat :: k < |states| ==> Shaped(states[k].q)
  }

  ghost function Requested(states: seq<Config>, events: seq<Event>, k: nat): seq<Content>
    requires k <= |events| < |states|
  {
    if k == 0 then [] else Requested(states, events, k - 1) + Published(states[k - 1].q, events[k - 1])
  }

  ghost function HandedOver(states: seq<Config>, events: seq<Event>, k: nat): seq<UsedElem>
    requires k <= |events| < |states| && AllShaped(states)
  {
    if k == 0 then [] else HandedOver(states, events, k - 1) + Handed(states[k - 1].q, events[k - 1])
  }

  function Posts(events: seq<Event>, k: nat): seq<UsedElem>
    requires k <= |events|
  {
    if k == 0 then []
    else Posts(events, k - 1) + if events[k - 1].Post? then [events[k - 1].elem] else []
  }

  function Consumes(events: seq<Event>, k: nat): nat
    requires k <= |events|
  {
    if k == 0 then 0 else Consumes(events, k - 1) + if events[k - 1].Consume? then 1 else 0
  }

  // ---------------------------------------------------------------------------
  // The history of every run
  // ---------------------------------------------------------------------------

  lemma ShapedInEveryRun(states: seq<Config>, events: seq<Event>)
    requires Run(states, events)
    ensures AllShaped(states)
  {
    forall k: nat | k < |states| ensures Shaped(states[k].q) {
      InvInEveryRun(states, events, k);
    }
  }

  lemma RequestStep(a: Config, e: Event, b: Config)
    requires Inv(a.q, a.g) && Step(a, e, b)
    ensures b.g.requests == a.g.requests + Published(a.q, e)
    ensures Consumed(b.g) == Consumed(a.g) + if e.Consume? then 1 else 0
  {
    match e
    case Add(bufs) => AddBuffersEffect(a.q, a.g, bufs);
    case _ =>
  }

  lemma CompletionStep(a: Config, e: Event, b: Config)
    requires Inv(a.q, a.g) && Step(a, e, b)
    ensures b.g.posted == a.g.posted + if e.Post? then [e.elem] else []
    ensures b.g.got == a.g.got + Handed(a.q, e)
  {
    if e.Get? {
      GetBufferEffect(a.q, a.g);
    }
  }

  ghost predicate HistoryAt(states: seq<Config>, events: seq<Event>, k: nat, g: Track)
    requires k <= |events| < |states| && AllShaped(states)
  {
    && g.requests == Requested(states, events, k) && Consumed(g) == Consumes(events, k)
    && g.posted == Posts(events, k) && g.got == HandedOver(states, events, k)
  }

  lemma StepHolds(states: seq<Config>, events: seq<Event>, k: nat)
    requires Run(states, events) && k < |events|
    ensures Inv(states[k].q, states[k].g) && Step(states[k], events[k], states[k + 1])
    ensures events[k].Consume? ==> states[k].g.availQ != []
  {
    InvInEveryRun(states, events, k);
  }

  lemma HistoryStep(states: seq<Config>, events: seq<Event>, k: nat, a: Config, b: Config)
    requires k < |events| < |states| && AllShaped(states) && a == states[k]
    requires Inv(a.q, a.g) && Step(a, events[k], b) && HistoryAt(states, events, k, a.g)
    ensures HistoryAt(states, events, k + 1, b.g)
  {
    RequestStep(a, events[k], b);
    CompletionStep(a, events[k], b);
  }

  lemma {:induction false} HistoryInEveryRun(states: seq<Config>, events: seq<Event>, k: nat)
    requires Run(states, events) && k <= |events|
    ensures AllShaped(states) && HistoryAt(states, events, k, states[k].g)
  {
    ShapedInEveryRun(states, events);
    if k > 0 {
      HistoryInEveryRun(states, events, k - 1);
      StepHolds(states, events, k - 1);
      HistoryStep(states, events, k - 1, states[k - 1], states[k]);
    }
  }

  /** From the head in the n-th cell of the available ring the device reads the content. */
  predicate Offers(q: Queue, n: nat, what: Content) {
    && Shaped(q)
    && var head := q.avail[n % 0x1_0000 % |q.desc|];
    && head < |q.desc|
    && match what
       case Sent(bufs) => DeviceWalk(q.desc, head, |q.desc|) == bufs
       case Raw(addr, len, flags) => q.desc[head] == Desc(addr, len, flags, 0xFFFF)
  }

  lemma OffersNext(states: seq<Config>, events: seq<Event>, k: nat, g: Track)
    requires Run(states, events) && k <= |events| && g == states[k].g && g.availQ != []
    ensures 0 <= Consumed(g) < |g.requests| && Offers(states[k].q, Consumed(g), g.requests[Consumed(g)])
  {
    RequestsInOrder(states, events, k);
  }

  /** In every run, the n-th chain that the device takes from the available ring lists exactly
      the buffers of the n-th request that found enough free descriptors. */
  lemma DeviceGetsRequests(states: seq<Config>, events: seq<Event>, k: nat)
    requires Run(states, events) && k < |events| && events[k].Consume?
    ensures
      var n, requested := Consumes(events, k), Requested(states, events, k);
      n < |requested| && Offers(states[k].q, n, requested[n])
  {
    HistoryInEveryRun(states, events, k);
    StepHolds(states, events, k);
    OffersNext(states, events, k, states[k].g);
  }

  /** In every run the caller is handed the elements the device posted, without those whose id
      is outside the table, in order and each once; all of them once the ring is drained. */
  lemma CallerGetsPosts(states: seq<Config>, events: seq<Event>, k: nat)
    requires Run(states, events) && k <= |events|
    ensures AllShaped(states)
    ensures
      var q, genuine := states[k].q, GenuineOf(Posts(events, k), |states[k].q.desc|);
      && HandedOver(states, events, k) <= genuine
      && (q.lastUsedIdx == q.usedIdx ==> HandedOver(states, events, k) == genuine)
  {
    HistoryInEveryRun(states, events, k);
    CompletionsInOrder(states, events, k);
  }
}
