/**
 Synchronous messages through one endpoint (kernel/ipc/endpoint.c): any number of clients
 call ipc_msg_send, the owner calls ipc_msg_receive and ipc_msg_reply, anybody may destroy.
 Every call tests the endpoint ID before it takes the endpoint lock and does not test it
 again under the lock.  So a call is two steps: it is admitted, or refused for good, while
 the ID resolves; later it enters and does its locked part on whatever the endpoint is by
 then.  The wake-up half of a blocked receive, which reads the saved tag after the lock has
 been dropped, is a step of its own.
 */
module Rendezvous {

  type Bytes = seq<bv8>

  datatype EpState = Idle | Pending | Receiving | Replying

  datatype Server = Running | Blocked | Woken

  datatype Sender = NoSender | From(tid: nat)

  /** `open`: the ID resolves and the owner is recorded; `ownReply`: the reply will be
      written to the client's own buffer. */
  datatype Endpoint = Endpoint(
    open: bool, state: EpState, sender: Sender, savedTag: nat, sendBuf: Bytes, inbox: Bytes,
    recvCap: nat, replyCap: nat, ownReply: bool, blocked: set<nat>, server: Server)

  datatype Request = Request(client: nat, tag: nat, body: Bytes, replyCap: nat, fast: bool, temp: bool)

  datatype Receipt = Receipt(tag: nat, body: Bytes, cap: nat)

  datatype Answer = Answer(client: nat, body: Bytes, got: Bytes)

  /** `copied`: the kernel copy of the body succeeds; `temp`: a reply buffer can be allocated. */
  datatype Call =
    | Send(client: nat, tag: nat, body: Bytes, replyCap: nat, copied: bool, temp: bool)
    | Receive(cap: nat)
    | Reply(body: Bytes)
    | Destroy

  datatype Thread = Client(tid: nat) | Owner | Other(tid: nat)

  /** An endpoint, the calls admitted and not entered yet, and everything sent, received and
      replied so far. */
  datatype Trace = Trace(ep: Endpoint, calls: map<Thread, Call>,
    requests: seq<Request>, receipts: seq<Receipt>, answers: seq<Answer>)

  datatype Move = Admit(th: Thread, call: Call) | Enter(th: Thread) | Resume

  function Prefix(b: Bytes, n: nat): Bytes {
    if |b| <= n then b else b[..n]
  }

  predicate Runs(e: Endpoint, th: Thread) {
    match th
    case Client(c) => c !in e.blocked
    case Owner => e.server == Running
    case Other(_) => true
  }

  predicate Makes(th: Thread, call: Call) {
    match call
    case Send(c, _, _, _, _, _) => th == Client(c)
    case Destroy => true
    case _ => th == Owner
  }

  /** A call is made by a running thread that is in no other call. */
  predicate Enabled(t: Trace, mv: Move) {
    match mv
    case Admit(th, call) => th !in t.calls && Runs(t.ep, th) && Makes(th, call)
    case Enter(th) => th in t.calls
    case Resume => t.ep.server == Woken
  }

  function SendStep(t: Trace, ev: Call): Trace
    requires ev.Send?
  {
    var e := t.ep;
    if e.state == Receiving then
      var e' := e.(state := Replying, sender := From(ev.client), savedTag := ev.tag,
                   inbox := Prefix(ev.body, e.recvCap), replyCap := ev.replyCap,
                   ownReply := ev.replyCap == 0 || !ev.temp, blocked := e.blocked + {ev.client},
                   server := if e.server == Blocked && e.open then Woken else e.server);
      t.(ep := e', requests := t.requests + [Request(ev.client, ev.tag, ev.body, ev.replyCap, true, ev.temp)])
    else if ev.body != [] && !ev.copied then
      t.(ep := e.(state := Pending, sender := From(ev.client)))
    else
      var e' := e.(state := Pending, sender := From(ev.client), sendBuf := ev.body, replyCap := ev.replyCap,
                   ownReply := true, blocked := e.blocked + {ev.client});
      t.(ep := e', requests := t.requests + [Request(ev.client, ev.tag, ev.body, ev.replyCap, false, ev.temp)])
  }

  function ReceiveStep(t: Trace, cap: nat): Trace {
    var e := t.ep;
    if e.state == Pending && e.sender != NoSender then
      t.(ep := e.(state := Replying, recvCap := cap, sendBuf := []),
         receipts := t.receipts + [Receipt(e.savedTag, Prefix(e.sendBuf, cap), cap)])
    else
      t.(ep := e.(state := Receiving, recvCap := cap, server := Blocked))
  }

  function ReplyStep(t: Trace, body: Bytes): Trace {
    var e := t.ep;
    if e.state != Replying then t
    else
      var e' := e.(state := Pending, sender := NoSender, blocked := e.blocked - SenderSet(e));
      var to := if e.sender.From? then e.sender.tid else 0;
      t.(ep := e', answers := t.answers + [Answer(to, body, if e.ownReply then Prefix(body, e.replyCap) else [])])
  }

  /** The locked part of ipc_endpoint_destroy; the owner is woken only if still recorded. */
  function DestroyStep(t: Trace): Trace {
    var e := t.ep;
    t.(ep := e.(open := false, state := Idle, sender := NoSender, sendBuf := [], blocked := e.blocked - SenderSet(e),
                server := if e.server == Blocked && e.open then Woken else e.server))
  }

  /** The locked part of a call. */
  function Locked(t: Trace, call: Call): Trace {
    match call
    case Send(_, _, _, _, _, _) => SendStep(t, call)
    case Receive(cap) => ReceiveStep(t, cap)
    case Reply(body) => ReplyStep(t, body)
    case Destroy => DestroyStep(t)
  }

  function Next(t: Trace, mv: Move): Trace
    requires Enabled(t, mv)
  {
    var e := t.ep;
    match mv
    case Admit(th, call) => if e.open then t.(calls := t.calls[th := call]) else t
    case Enter(th) => Locked(t.(calls := t.calls - {th}), t.calls[th])
    case Resume =>
      t.(ep := e.(server := Running), receipts := t.receipts + [Receipt(e.savedTag, e.inbox, e.recvCap)])
  }

  function SenderSet(e: Endpoint): set<nat> {
    if e.sender == NoSender then {} else {e.sender.tid}
  }

  // ---------------------------------------------------------------------------
  // Who is blocked
  // ---------------------------------------------------------------------------

  /** The blocked clients are those the endpoint will wake, the owner is blocked only when
      nobody waits for it, and a destroyed endpoint holds nobody. */
  ghost predicate Paired(e: Endpoint) {
    && e.blocked == SenderSet(e)
    && (e.open <==> e.state != Idle)
    && (e.server == Blocked <==> e.state == Receiving)
    && (e.state == Receiving || e.state == Idle ==> e.sender == NoSender)
    && (e.state == Replying ==> e.sender != NoSender)
    && (e.server == Woken ==> e.state == Replying || e.state == Idle)
  }

  /** A thread between admission and entry still runs. */
  ghost predicate CallsOk(t: Trace) {
    forall th: Thread :: th in t.calls ==> Runs(t.ep, th) && Makes(th, t.calls[th])
  }

  lemma KeepsCalls(t: Trace, mv: Move)
    requires CallsOk(t) && Enabled(t, mv)
    ensures CallsOk(Next(t, mv))
  {
  }

  /** What the callers must respect: a call enters before the endpoint is destroyed, there
      is one request at a time, whose body can be copied, and the owner replies before it
      receives again. */
  predicate OrderlyCall(e: Endpoint, call: Call) {
    match call
    case Send(_, _, body, _, copied, _) =>
      e.open && e.sender == NoSender && (e.state == Receiving || body == [] || copied)
    case Receive(_) => e.open && e.state != Replying
    case _ => true
  }

  predicate Orderly(t: Trace, mv: Move)
    requires Enabled(t, mv)
  {
    mv.Enter? ==> OrderlyCall(t.ep, t.calls[mv.th])
  }

  lemma SendKeepsIff(t: Trace, call: Call)
    requires Paired(t.ep) && call.Send? && call.client !in t.ep.blocked
    ensures Paired(SendStep(t, call).ep) <==> OrderlyCall(t.ep, call)
  {
    var e, e' := t.ep, SendStep(t, call).ep;
    if e.sender.From? {
      assert e.sender.tid in e.blocked;
      assert e.sender.tid in e'.blocked && e'.sender == From(call.client);
    }
  }

  /** A step keeps the rendezvous exactly when it is orderly. */
  lemma KeepsPairedIff(t: Trace, mv: Move)
    requires Paired(t.ep) && CallsOk(t) && Enabled(t, mv)
    ensures Paired(Next(t, mv).ep) <==> Orderly(t, mv)
  {
    if mv.Enter? && t.calls[mv.th].Send? {
      SendKeepsIff(t.(calls := t.calls - {mv.th}), t.calls[mv.th]);
    }
  }

  /** Admission and entry with no other thread in between. */
  function CallNow(t: Trace, th: Thread, call: Call): Trace
    requires Enabled(t, Admit(th, call)) && t.ep.open
  {
    Next(Next(t, Admit(th, call)), Enter(th))
  }

  /** While a client waits, the owner can run, and its next calls release the client. */
  lemma OwnerReleasesClient(t: Trace, cap: nat, body: Bytes)
    requires Paired(t.ep) && CallsOk(t) && t.ep.blocked != {} && Owner !in t.calls
    ensures t.ep.server != Blocked && t.ep.open
    ensures
      var t1 := if t.ep.server == Woken then Next(t, Resume) else t;
      && Enabled(t1, Admit(Owner, Receive(cap)))
      && var t2 := if t1.ep.state == Pending then CallNow(t1, Owner, Receive(cap)) else t1;
      && Enabled(t2, Admit(Owner, Reply(body))) && t2.ep.open && CallNow(t2, Owner, Reply(body)).ep.blocked == {}
  {
  }

  /** Destroying a paired endpoint releases everybody who waits on it. */
  lemma DestroyReleases(t: Trace)
    requires Paired(t.ep)
    ensures var e := DestroyStep(t).ep; e.blocked == {} && e.server != Blocked && Paired(e)
  {
  }

  ghost predicate Steps(ts: seq<Trace>, mvs: seq<Move>) {
    && |ts| == |mvs| + 1
    && forall i: nat :: i < |mvs| ==> Enabled(ts[i], mvs[i]) && ts[i + 1] == Next(ts[i], mvs[i])
  }

  /** A blocked client that the endpoint no longer records is never released: not by a
      reply and not by destroying the endpoint. */
  lemma {:induction false} ForgottenForever(ts: seq<Trace>, mvs: seq<Move>, c: nat, k: nat)
    requires Steps(ts, mvs) && k <= |mvs| && CallsOk(ts[0])
    requires c in ts[0].ep.blocked && ts[0].ep.sender != From(c)
    ensures c in ts[k].ep.blocked && ts[k].ep.sender != From(c) && CallsOk(ts[k])
  {
    if k > 0 {
      ForgottenForever(ts, mvs, c, k - 1);
      KeepsCalls(ts[k - 1], mvs[k - 1]);
      assert Client(c) in ts[k - 1].calls ==> Runs(ts[k - 1].ep, Client(c));
    }
  }

  /** A second request that enters while one is outstanding strands the first client. */
  lemma SecondRequestStrands(ts: seq<Trace>, mvs: seq<Move>, c: nat, k: nat)
    requires Steps(ts, mvs) && 1 <= k <= |mvs| && Paired(ts[0].ep) && CallsOk(ts[0]) && ts[0].ep.sender == From(c)
    requires mvs[0].Enter? && ts[0].calls[mvs[0].th].Send?
    requires var call := ts[0].calls[mvs[0].th]; call.body == [] || call.copied
    ensures c in ts[k].ep.blocked && ts[k].ep.sender != From(c)
  {
    assert c in ts[0].ep.blocked;
    assert Runs(ts[0].ep, mvs[0].th);
    KeepsCalls(ts[0], mvs[0]);
    ForgottenForever(ts[1..], mvs[1..], c, k - 1);
  }

  /** Once the endpoint is destroyed and every admitted call has entered, whoever is blocked
      stays blocked, since every later call is refused. */
  lemma {:induction false} ClosedForever(ts: seq<Trace>, mvs: seq<Move>, k: nat)
    requires Steps(ts, mvs) && k <= |mvs| && !ts[0].ep.open && ts[0].calls == map[]
    ensures !ts[k].ep.open && ts[k].calls == map[] && ts[k].ep.blocked == ts[0].ep.blocked
    ensures ts[0].ep.server == Blocked ==> ts[k].ep.server == Blocked
  {
    if k > 0 {
      ClosedForever(ts, mvs, k - 1);
    }
  }

  // ---------------------------------------------------------------------------
  // What is delivered
  // ---------------------------------------------------------------------------

  /** The tag of the last request that found the owner already waiting. */
  function LastFastTag(tag0: nat, rs: seq<Request>): nat {
    if rs == [] then tag0
    else if rs[|rs| - 1].fast then rs[|rs| - 1].tag
    else LastFastTag(tag0, rs[..|rs| - 1])
  }

  ghost predicate ReceiptOk(tag0: nat, t: Trace, k: nat)
    requires k < |t.receipts| && k < |t.requests|
  {
    && t.receipts[k].body == Prefix(t.requests[k].body, t.receipts[k].cap)
    && t.receipts[k].tag == LastFastTag(tag0, t.requests[..k + 1])
  }

  predicate ToOwnBuffer(r: Request) {
    !r.fast || !r.temp || r.replyCap == 0
  }

  ghost predicate AnswerOk(t: Trace, k: nat)
    requires k < |t.answers| && k < |t.requests|
  {
    && t.answers[k].client == t.requests[k].client
    && t.answers[k].got == if ToOwnBuffer(t.requests[k]) then Prefix(t.answers[k].body, t.requests[k].replyCap) else []
  }

  /** The counts, and what the endpoint remembers of an outstanding request. */
  ghost predicate Outstanding(tag0: nat, t: Trace) {
    var e, n := t.ep, |t.requests|;
    && |t.answers| <= |t.receipts| <= n <= |t.answers| + 1
    && e.savedTag == LastFastTag(tag0, t.requests)
    && (e.sender != NoSender <==> n == |t.answers| + 1)
    && (e.sender != NoSender ==>
          && From(t.requests[n - 1].client) == e.sender
          && e.replyCap == t.requests[n - 1].replyCap && e.ownReply == ToOwnBuffer(t.requests[n - 1])
          && (|t.receipts| == n <==> e.state == Replying && e.server == Running)
          && (e.state == Pending ==> e.sendBuf == t.requests[n - 1].body)
          && (e.server == Woken ==> e.inbox == Prefix(t.requests[n - 1].body, e.recvCap)))
  }

  ghost predicate LogOk(tag0: nat, t: Trace) {
    && Outstanding(tag0, t)
    && (forall k: nat {:trigger ReceiptOk(tag0, t, k)} :: k < |t.receipts| ==> ReceiptOk(tag0, t, k))
    && (forall k: nat {:trigger AnswerOk(t, k)} :: k < |t.answers| ==> AnswerOk(t, k))
  }

  lemma OutstandingKept(tag0: nat, t: Trace, mv: Move)
    requires Paired(t.ep) && CallsOk(t) && Enabled(t, mv) && Orderly(t, mv) && Outstanding(tag0, t)
    requires Next(t, mv).ep.open
    ensures Outstanding(tag0, Next(t, mv))
  {
    var t' := Next(t, mv);
    if |t'.requests| > |t.requests| {
      assert t'.requests[..|t.requests|] == t.requests;
    }
  }

  lemma LogKept(tag0: nat, t: Trace, mv: Move)
    requires Paired(t.ep) && CallsOk(t) && Enabled(t, mv) && Orderly(t, mv) && LogOk(tag0, t)
    requires Next(t, mv).ep.open
    ensures LogOk(tag0, Next(t, mv))
  {
    var t' := Next(t, mv);
    OutstandingKept(tag0, t, mv);
    HistoryGrows(t, mv);
    forall k: nat | k < |t'.receipts| ensures ReceiptOk(tag0, t', k) {
      if k < |t.receipts| {
        assert ReceiptOk(tag0, t, k);
        assert t'.requests[..k + 1] == t.requests[..k + 1];
      } else {
        NewReceipt(tag0, t, mv, k);
      }
    }
    forall k: nat | k < |t'.answers| ensures AnswerOk(t', k) {
      if k < |t.answers| {
        assert AnswerOk(t, k);
      }
    }
  }

  lemma HistoryGrows(t: Trace, mv: Move)
    requires Enabled(t, mv)
    ensures t.requests <= Next(t, mv).requests && t.receipts <= Next(t, mv).receipts && t.answers <= Next(t, mv).answers
  {
  }

  lemma NewReceipt(tag0: nat, t: Trace, mv: Move, k: nat)
    requires Paired(t.ep) && CallsOk(t) && Enabled(t, mv) && Orderly(t, mv) && Outstanding(tag0, t)
    requires |t.receipts| <= k < |Next(t, mv).receipts| && Next(t, mv).ep.open
    ensures k < |Next(t, mv).requests| && ReceiptOk(tag0, Next(t, mv), k)
  {
    assert Next(t, mv).requests == t.requests == t.requests[..k + 1];
  }

  // ---------------------------------------------------------------------------
  // Runs
  // ---------------------------------------------------------------------------

  /** A newly created endpoint; the saved tag is whatever its slot last held. */
  predicate Created(t: Trace) {
    && t.ep.open && t.ep.state == Pending && t.ep.sender == NoSender && t.ep.blocked == {} && t.ep.server == Running
    && t.calls == map[] && t.requests == [] && t.receipts == [] && t.answers == []
  }

  ghost predicate OrderlyRun(ts: seq<Trace>, mvs: seq<Move>) {
    && Steps(ts, mvs) && Created(ts[0])
    && forall i: nat :: i < |mvs| ==> Orderly(ts[i], mvs[i])
  }

  /** In every orderly run the blocked clients are exactly the recorded one, and until the
      endpoint is destroyed the k-th receipt and the k-th answer are those of the k-th
      request: the body cut to the receiver's buffer, the tag of the latest fast request,
      and the reply in the client's own buffer unless a temporary one was put in its place. */
  lemma {:induction false} DeliveredInEveryRun(ts: seq<Trace>, mvs: seq<Move>, k: nat)
    requires OrderlyRun(ts, mvs) && k <= |mvs|
    ensures Paired(ts[k].ep) && CallsOk(ts[k])
    ensures ts[k].ep.open ==> LogOk(ts[0].ep.savedTag, ts[k])
  {
    if k > 0 {
      var t, mv := ts[k - 1], mvs[k - 1];
      DeliveredInEveryRun(ts, mvs, k - 1);
      KeepsPairedIff(t, mv);
      KeepsCalls(t, mv);
      if ts[k].ep.open {
        StaysClosed(t, mv);
        LogKept(ts[0].ep.savedTag, t, mv);
      }
    }
  }

  lemma StaysClosed(t: Trace, mv: Move)
    requires Enabled(t, mv)
    ensures !t.ep.open ==> !Next(t, mv).ep.open
  {
  }

  /** A request that arrives before its receiver is received with the right tag only if the
      last request that found the receiver waiting happened to carry the same one. */
  lemma TagArrivesIff(tag0: nat, t: Trace, k: nat)
    requires LogOk(tag0, t) && k < |t.receipts|
    ensures t.receipts[k].tag == t.requests[k].tag <==>
            t.requests[k].fast || t.requests[k].tag == LastFastTag(tag0, t.requests[..k])
  {
    assert ReceiptOk(tag0, t, k);
    assert t.requests[..k + 1][..k] == t.requests[..k];
  }

  /** Two calls, each admitted and entered before the next. */
  lemma TwoCalls(t: Trace, a: Thread, ca: Call, b: Thread, cb: Call) returns (ts: seq<Trace>, mvs: seq<Move>)
    requires Enabled(t, Admit(a, ca)) && t.ep.open
    requires var t2 := CallNow(t, a, ca); Enabled(t2, Admit(b, cb)) && t2.ep.open
    ensures mvs == [Admit(a, ca), Enter(a), Admit(b, cb), Enter(b)]
    ensures Steps(ts, mvs) && ts[0] == t && ts[2] == CallNow(t, a, ca) && ts[4] == CallNow(ts[2], b, cb)
    ensures ts[1].ep == t.ep && ts[1].calls == t.calls[a := ca] && ts[3].ep == ts[2].ep && ts[3].calls[b] == cb
  {
    var t2 := CallNow(t, a, ca);
    mvs := [Admit(a, ca), Enter(a), Admit(b, cb), Enter(b)];
    ts := [t, Next(t, mvs[0]), t2, Next(t2, mvs[2]), CallNow(t2, b, cb)];
  }

  /** From every newly created endpoint there is an orderly run that delivers a wrong tag:
      a request before its receive, with any tag but the one the slot happens to hold. */
  lemma TagGoesMissing(t: Trace, c: nat, tag: nat, cap: nat) returns (ts: seq<Trace>, mvs: seq<Move>)
    requires Created(t) && tag != t.ep.savedTag
    ensures OrderlyRun(ts, mvs) && ts[0] == t
    ensures var last := ts[|mvs|]; |last.receipts| == |last.requests| == 1 && last.requests[0].tag == tag
    ensures ts[|mvs|].receipts[0].tag == t.ep.savedTag != tag
  {
    ts, mvs := TwoCalls(t, Client(c), Send(c, tag, [], 0, true, true), Owner, Receive(cap));
    assert Orderly(ts[0], mvs[0]) && Orderly(ts[1], mvs[1]) && Orderly(ts[2], mvs[2]) && Orderly(ts[3], mvs[3]);
  }

  /** From every newly created endpoint there is a run in which a send or a receive, admitted
      before the endpoint is destroyed, enters after that: its thread is blocked with no
      call outstanding, so by ClosedForever for good. */
  lemma LateCallStrands(t: Trace, th: Thread, call: Call, k: nat) returns (ts: seq<Trace>, mvs: seq<Move>)
    requires Created(t) && Makes(th, call)
    requires call.Receive? || (call.Send? && (call.body == [] || call.copied))
    ensures Steps(ts, mvs) && ts[0] == t
    ensures var last := ts[|mvs|]; !last.ep.open && last.calls == map[] && !Runs(last.ep, th)
  {
    var other := Other(k);
    mvs := [Admit(th, call), Admit(other, Destroy), Enter(other), Enter(th)];
    var t1 := Next(t, mvs[0]);
    var t2 := Next(t1, mvs[1]);
    var t3 := Next(t2, mvs[2]);
    ts := [t, t1, t2, t3, Next(t3, mvs[3])];
    assert ts[4].calls == map[];
  }

  /** ipc_endpoint_create on the slot of a destroyed endpoint, for an owner that is in none of
      the admitted calls: those calls still lead to the slot. */
  function Recreated(t: Trace): Trace {
    t.(ep := t.ep.(open := true, state := Pending, sender := NoSender, server := Running),
       requests := [], receipts := [], answers := [])
  }

  /** From every newly created endpoint there is a run in which a message sent to it is
      received, body and all, by the owner of the next endpoint on its slot. */
  lemma MessageCrosses(t: Trace, send: Call, k: nat, cap: nat) returns (ts: seq<Trace>, mvs: seq<Move>, u: Trace)
    requires Created(t) && send.Send? && (send.body == [] || send.copied)
    ensures Steps(ts, mvs) && ts[0] == t && mvs != [] && mvs[0] == Admit(Client(send.client), send)
    ensures !ts[|mvs|].ep.open
    ensures Enabled(Recreated(ts[|mvs|]), Enter(Client(send.client)))
    ensures u == Next(Recreated(ts[|mvs|]), Enter(Client(send.client))) && Paired(u.ep)
    ensures Enabled(u, Admit(Owner, Receive(cap))) && u.ep.open
    ensures CallNow(u, Owner, Receive(cap)).receipts == [Receipt(t.ep.savedTag, Prefix(send.body, cap), cap)]
  {
    var client, other := Client(send.client), Other(k);
    mvs := [Admit(client, send), Admit(other, Destroy), Enter(other)];
    var t1 := Next(t, mvs[0]);
    var t2 := Next(t1, mvs[1]);
    ts := [t, t1, t2, Next(t2, mvs[2])];
    u := Next(Recreated(ts[3]), Enter(client));
  }

  // ---------------------------------------------------------------------------
  // The locked parts as the code performs them
  // ---------------------------------------------------------------------------

  /** An endpoint without its history. */
  function Alone(e: Endpoint): Trace {
    Trace(e, map[], [], [], [])
  }

  class EndpointObject {
    var open: bool
    var state: EpState
    var sender: Sender
    var savedTag: nat
    var sendBuf: Bytes
    var inbox: Bytes
    var recvCap: nat
    var replyCap: nat
    var ownReply: bool
    var blocked: set<nat>
    var server: Server

    ghost function View(): Endpoint
      reads this
    {
      Endpoint(open, state, sender, savedTag, sendBuf, inbox, recvCap, replyCap, ownReply, blocked, server)
    }

    /** The fast path of ipc_msg_send. */
    method SendFast(client: nat, tag: nat, body: Bytes, cap: nat, copied: bool, temp: bool)
      requires client !in blocked && state == Receiving
      modifies this
      ensures View() == SendStep(Alone(old(View())), Send(client, tag, body, cap, copied, temp)).ep
      ensures client in blocked
    {
      state, sender := Replying, From(client);
      inbox := if |body| > recvCap then body[..recvCap] else body;
      savedTag, replyCap, ownReply := tag, cap, true;
      if cap > 0 && temp {
        ownReply := false;
      }
      if open && server == Blocked {
        server := Woken;
      }
      blocked := blocked + {client};
    }

    /** ipc_msg_send by a running client that was admitted, from the lock on up to where it
        blocks (ok) or returns an error. */
    method SendMessage(client: nat, tag: nat, body: Bytes, cap: nat, copied: bool, temp: bool) returns (ok: bool)
      requires client !in blocked
      modifies this
      ensures View() == Locked(Alone(old(View())), Send(client, tag, body, cap, copied, temp)).ep
      ensures ok <==> client in blocked
      ensures sender == From(client)
      ensures old(state) == Receiving ==>
                && ok && state == Replying && savedTag == tag && replyCap == cap
                && inbox == if |body| <= recvCap then body else body[..recvCap]
      ensures old(state) != Receiving && ok ==> state == Pending && sendBuf == body && replyCap == cap
    {
      if state == Receiving {
        SendFast(client, tag, body, cap, copied, temp);
        return true;
      }
      state, sender := Pending, From(client);
      if body != [] && !copied {
        return false;
      }
      sendBuf := body;
      replyCap, ownReply := cap, true;
      blocked := blocked + {client};
      ok := true;
    }

    /** ipc_msg_receive by the running owner, admitted: a waiting request, or the owner blocks. */
    method ReceiveMessage(cap: nat) returns (r: seq<Receipt>)
      requires server == Running
      modifies this
      ensures View() == Locked(Alone(old(View())), Receive(cap)).ep
      ensures r == Locked(Alone(old(View())), Receive(cap)).receipts
    {
      r := [];
      recvCap := cap;
      if state == Pending && sender != NoSender {
        r := [Receipt(savedTag, Prefix(sendBuf, cap), cap)];
        sendBuf := [];
        state := Replying;
        return;
      }
      state, server := Receiving, Blocked;
    }

    /** ipc_msg_reply by the running owner, admitted. */
    method ReplyMessage(body: Bytes) returns (r: seq<Answer>)
      requires server == Running
      modifies this
      ensures View() == Locked(Alone(old(View())), Reply(body)).ep
      ensures r == Locked(Alone(old(View())), Reply(body)).answers
    {
      if state != Replying {
        return [];
      }
      state := Pending;
      var to := 0;
      var got := if ownReply then Prefix(body, replyCap) else [];
      if sender != NoSender {
        to := sender.tid;
        blocked := blocked - {to};
        sender := NoSender;
      }
      r := [Answer(to, body, got)];
    }

    /** ipc_endpoint_destroy, admitted: the recorded sender is woken, and a blocked owner if
        no destroy came before. */
    method DestroyNow()
      modifies this
      ensures View() == Locked(Alone(old(View())), Destroy).ep
      ensures old(Paired(View())) ==> blocked == {} && server != Blocked
    {
      sendBuf := [];
      if sender != NoSender {
        blocked := blocked - {sender.tid};
        sender := NoSender;
      }
      if open && server == Blocked {
        server := Woken;
      }
      open, state := false, Idle;
    }
  }
}
