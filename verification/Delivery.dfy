/**
 Messages through an endpoint against the calls that were made: what must be received and
 replied is computed from the moves of a run alone, and every orderly run delivers it.
 */
module Delivery {
  import opened Rendezvous

  // ---------------------------------------------------------------------------
  // What the calls ask for
  // ---------------------------------------------------------------------------

  /** The call with which a thread was last admitted before move k. */
  function LastCall(mvs: seq<Move>, k: nat, th: Thread): Call
    requires k <= |mvs|
  {
    if k == 0 then Destroy
    else if mvs[k - 1].Admit? && mvs[k - 1].th == th then mvs[k - 1].call
    else LastCall(mvs, k - 1, th)
  }

  /** The sends, the buffer sizes of the receives, and the bodies of the replies that had a
      received request to answer, in the order in which they took the lock. */
  datatype Asked = Asked(sends: seq<Request>, caps: seq<nat>, replies: seq<Bytes>)

  /** One more call takes the lock; a send is fast if more receives than sends have come. */
  function AskedAfter(a: Asked, call: Call): Asked {
    match call
    case Send(c, tag, body, replyCap, _, temp) =>
      a.(sends := a.sends + [Request(c, tag, body, replyCap, |a.caps| > |a.sends|, temp)])
    case Receive(cap) => a.(caps := a.caps + [cap])
    case Reply(body) =>
      if |a.replies| < |a.sends| && |a.replies| < |a.caps| then a.(replies := a.replies + [body]) else a
    case Destroy => a
  }

  function AskedBy(mvs: seq<Move>, k: nat): Asked
    requires k <= |mvs|
  {
    if k == 0 then Asked([], [], [])
    else if !mvs[k - 1].Enter? then AskedBy(mvs, k - 1)
    else AskedAfter(AskedBy(mvs, k - 1), LastCall(mvs, k - 1, mvs[k - 1].th))
  }

  // ---------------------------------------------------------------------------
  // What the endpoint does
  // ---------------------------------------------------------------------------

  /** The calls under way are those with which their threads were last admitted. */
  ghost predicate CallsAre(t: Trace, mvs: seq<Move>, k: nat)
    requires k <= |mvs|
  {
    forall th: Thread :: th in t.calls ==> t.calls[th] == LastCall(mvs, k, th)
  }

  lemma CallsStep(t: Trace, mvs: seq<Move>, k: nat)
    requires k < |mvs| && Enabled(t, mvs[k]) && CallsAre(t, mvs, k)
    ensures CallsAre(Next(t, mvs[k]), mvs, k + 1)
  {
  }

  /** Where the endpoint is in the exchange, by the counts of sends, receives and replies. */
  ghost predicate PhaseIs(e: Endpoint, a: Asked) {
    var s, r, p := |a.sends|, |a.caps|, |a.replies|;
    match e.state
    case Receiving => s == p && r == s + 1 && e.recvCap == a.caps[r - 1]
    case Pending => if e.sender == NoSender then s == r == p else s == r + 1 && r == p
    case Replying => s == r == p + 1 && e.recvCap == a.caps[r - 1]
    case Idle => false
  }

  ghost predicate LogIs(t: Trace, a: Asked) {
    && t.requests == a.sends && PhaseIs(t.ep, a) && |t.answers| == |a.replies|
    && |t.receipts| <= |a.caps| && (forall j :: 0 <= j < |t.receipts| ==> t.receipts[j].cap == a.caps[j])
    && (forall j :: 0 <= j < |t.answers| ==> t.answers[j].body == a.replies[j])
  }

  lemma LogStep(tag0: nat, t: Trace, mvs: seq<Move>, k: nat)
    requires k < |mvs| && Paired(t.ep) && CallsOk(t) && Enabled(t, mvs[k]) && Orderly(t, mvs[k])
    requires Outstanding(tag0, t) && CallsAre(t, mvs, k) && LogIs(t, AskedBy(mvs, k)) && Next(t, mvs[k]).ep.open
    ensures LogIs(Next(t, mvs[k]), AskedBy(mvs, k + 1))
  {
    var a := AskedBy(mvs, k);
    match mvs[k]
    case Enter(th) =>
      assert LastCall(mvs, k, th) == t.calls[th];
      assert Runs(t.ep, th) && Makes(th, t.calls[th]);
      EnterStep(tag0, t, th, a);
      assert AskedBy(mvs, k + 1) == AskedAfter(a, t.calls[th]);
    case _ =>
  }

  lemma EnterStep(tag0: nat, t: Trace, th: Thread, a: Asked)
    requires Paired(t.ep) && Enabled(t, Enter(th)) && Orderly(t, Enter(th)) && Outstanding(tag0, t) && LogIs(t, a)
    requires Runs(t.ep, th) && Makes(th, t.calls[th]) && Next(t, Enter(th)).ep.open
    ensures LogIs(Next(t, Enter(th)), AskedAfter(a, t.calls[th]))
  {
  }

  lemma {:induction false} AskedInEveryRun(ts: seq<Trace>, mvs: seq<Move>, k: nat)
    requires OrderlyRun(ts, mvs) && k <= |mvs|
    ensures CallsAre(ts[k], mvs, k)
    ensures ts[k].ep.open ==> LogIs(ts[k], AskedBy(mvs, k))
  {
    if k > 0 {
      var t, mv := ts[k - 1], mvs[k - 1];
      AskedInEveryRun(ts, mvs, k - 1);
      DeliveredInEveryRun(ts, mvs, k - 1);
      CallsStep(t, mvs, k - 1);
      if ts[k].ep.open {
        StaysClosed(t, mv);
        LogStep(ts[0].ep.savedTag, t, mvs, k - 1);
      }
    }
  }

  /** The j-th receipt: the body of the j-th send, cut to the buffer of the j-th receive. */
  ghost predicate ReceiptIs(tag0: nat, t: Trace, a: Asked, j: nat) {
    && j < |t.receipts| && j < |a.sends| && j < |a.caps|
    && var body, cap := a.sends[j].body, a.caps[j];
    && t.receipts[j].body == (if |body| <= cap then body else body[..cap])
    && t.receipts[j].tag == LastFastTag(tag0, a.sends[..j + 1])
  }

  /** The j-th answer: to the client of the j-th send, with the body of the j-th reply, cut to
      the client's buffer unless a temporary one took its place. */
  ghost predicate AnswerIs(t: Trace, a: Asked, j: nat) {
    && j < |t.answers| && j < |a.sends| && j < |a.replies|
    && var send, body := a.sends[j], a.replies[j];
    && t.answers[j].client == send.client && t.answers[j].body == body
    && t.answers[j].got ==
       (if send.fast && send.temp && send.replyCap > 0 then []
        else if |body| <= send.replyCap then body else body[..send.replyCap])
  }

  lemma ReceiptsAre(tag0: nat, t: Trace, a: Asked, j: nat)
    requires LogOk(tag0, t) && LogIs(t, a) && j < |t.receipts|
    ensures ReceiptIs(tag0, t, a, j)
  {
    assert ReceiptOk(tag0, t, j);
  }

  lemma AnswersAre(tag0: nat, t: Trace, a: Asked, j: nat)
    requires LogOk(tag0, t) && LogIs(t, a) && j < |t.answers|
    ensures AnswerIs(t, a, j)
  {
    assert AnswerOk(t, j);
  }

  function Met(a: Asked): nat {
    if |a.sends| < |a.caps| then |a.sends| else |a.caps|
  }

  lemma CountsAre(tag0: nat, t: Trace, a: Asked)
    requires Paired(t.ep) && Outstanding(tag0, t) && LogIs(t, a)
    ensures |t.receipts| + (if t.ep.server == Woken then 1 else 0) == Met(a)
    ensures |t.answers| == |a.replies| <= Met(a)
  {
  }

  /** In every orderly run, until the endpoint is destroyed: every send that has met its
      receive has been received, but for one whose receiver has yet to run; the j-th receipt
      carries what the j-th send sent to the j-th receive, and the j-th answer what the j-th
      reply gave the client of the j-th send. */
  lemma MessagesInEveryRun(ts: seq<Trace>, mvs: seq<Move>, k: nat)
    requires OrderlyRun(ts, mvs) && k <= |mvs| && ts[k].ep.open
    ensures
      var a, t, tag0 := AskedBy(mvs, k), ts[k], ts[0].ep.savedTag;
      && |t.receipts| + (if t.ep.server == Woken then 1 else 0) == Met(a)
      && |t.answers| == |a.replies| <= Met(a)
      && (forall j: nat {:trigger ReceiptIs(tag0, t, a, j)} :: j < |t.receipts| ==> ReceiptIs(tag0, t, a, j))
      && (forall j: nat {:trigger AnswerIs(t, a, j)} :: j < |t.answers| ==> AnswerIs(t, a, j))
  {
    AskedInEveryRun(ts, mvs, k);
    DeliveredInEveryRun(ts, mvs, k);
    var a, t, tag0 := AskedBy(mvs, k), ts[k], ts[0].ep.savedTag;
    CountsAre(tag0, t, a);
    forall j: nat | j < |t.receipts| ensures ReceiptIs(tag0, t, a, j) {
      ReceiptsAre(tag0, t, a, j);
    }
    forall j: nat | j < |t.answers| ensures AnswerIs(t, a, j) {
      AnswersAre(tag0, t, a, j);
    }
  }
}
