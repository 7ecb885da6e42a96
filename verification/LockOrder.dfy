/**
 CSpace locks: FIFO ticket locks (kernel/sched/spinlock.c) taken singly or in pairs by
 address order (cap_lock_dual, cap_unlock_dual), by any number of threads.

 Locks are numbered by address.  `next` and `serving` count every ticket ever issued and
 served; the 32-bit fields of the kernel hold them modulo 2^32, and the spin loop and the
 release guard compare only those residues.
 */
module LockOrder {
  import opened Lists
  import opened Modular

  const WORD: nat := 0x1_0000_0000

  /** What an operation locks: one CSpace, or a source and a destination. */
  datatype Request = Single(cs: nat) | Dual(a: nat, b: nat)

  /** The acquisitions of cap_lock_dual, in order. */
  function LockSeq(r: Request): seq<nat> {
    match r
    case Single(cs) => [cs]
    case Dual(a, b) => if a == b then [a] else if a < b then [a, b] else [b, a]
  }

  /** The releases of cap_unlock_dual, in order. */
  function UnlockSeq(r: Request): seq<nat> {
    match r
    case Single(cs) => [cs]
    case Dual(a, b) => if a == b then [a] else if a < b then [b, a] else [a, b]
  }

  /** A claim on a lock: the ticket drawn from it. */
  datatype Claim = Claim(lock: nat, ticket: nat)

  datatype Waiting = NoWait | Spin(claim: Claim)

  /** A thread: operations still to perform, locks held by the current one in order of
      acquisition, the ticket it spins on, and whether it has begun to release. */
  datatype Thread = Thread(todo: seq<Request>, held: seq<Claim>, waiting: Waiting, releasing: bool)

  /** A ticket lock; `queue` lists the threads whose tickets are issued but not yet
      finished, in ticket order. */
  datatype Lock = Lock(next: nat, serving: nat, queue: seq<nat>)

  datatype State = State(threads: seq<Thread>, locks: seq<Lock>)

  // ---------------------------------------------------------------------------
  // Steps
  // ---------------------------------------------------------------------------

  predicate RequestOk(s: State, r: Request) {
    forall k :: 0 <= k < |LockSeq(r)| ==> LockSeq(r)[k] < |s.locks|
  }

  predicate Unfinished(s: State, i: nat) {
    i < |s.threads| && s.threads[i].todo != []
  }

  /** ticket_lock_acquire, first half: fetch-and-add on next_ticket. */
  predicate CanDraw(s: State, i: nat) {
    && Unfinished(s, i)
    && var t := s.threads[i];
    && t.waiting.NoWait? && !t.releasing && |t.held| < |LockSeq(t.todo[0])|
    && LockSeq(t.todo[0])[|t.held|] < |s.locks|
  }

  function Draw(s: State, i: nat): State
    requires CanDraw(s, i)
  {
    var t := s.threads[i];
    var l := LockSeq(t.todo[0])[|t.held|];
    var lock := s.locks[l];
    s.(threads := s.threads[i := t.(waiting := Spin(Claim(l, lock.next)))],
       locks := s.locks[l := lock.(next := lock.next + 1, queue := lock.queue + [i])])
  }

  /** ticket_lock_acquire, second half: the spin loop sees its own ticket. */
  predicate CanEnter(s: State, i: nat) {
    && Unfinished(s, i)
    && s.threads[i].waiting.Spin?
    && var c := s.threads[i].waiting.claim;
    c.lock < |s.locks| && s.locks[c.lock].serving % WORD == c.ticket % WORD
  }

  function Enter(s: State, i: nat): State
    requires CanEnter(s, i)
  {
    var t := s.threads[i];
    s.(threads := s.threads[i := t.(held := t.held + [t.waiting.claim], waiting := NoWait)])
  }

  /** The critical section ends. */
  predicate CanFinishWork(s: State, i: nat) {
    && Unfinished(s, i)
    && var t := s.threads[i];
    t.waiting.NoWait? && !t.releasing && |t.held| == |LockSeq(t.todo[0])|
  }

  function FinishWork(s: State, i: nat): State
    requires CanFinishWork(s, i)
  {
    s.(threads := s.threads[i := s.threads[i].(releasing := true)])
  }

  /** ticket_lock_release of the next lock in unlock order; a lock that looks idle is
      left alone. */
  predicate CanRelease(s: State, i: nat) {
    && Unfinished(s, i)
    && var t := s.threads[i];
    && t.waiting.NoWait? && t.releasing && 0 < |t.held| <= |UnlockSeq(t.todo[0])|
    && UnlockSeq(t.todo[0])[|UnlockSeq(t.todo[0])| - |t.held|] < |s.locks|
  }

  function ReleasedLock(lock: Lock): Lock {
    if lock.serving % WORD == lock.next % WORD then lock
    else lock.(serving := lock.serving + 1, queue := if lock.queue == [] then [] else lock.queue[1..])
  }

  function Release(s: State, i: nat): State
    requires CanRelease(s, i)
  {
    var t := s.threads[i];
    var l := UnlockSeq(t.todo[0])[|UnlockSeq(t.todo[0])| - |t.held|];
    s.(threads := s.threads[i := t.(held := t.held[..|t.held| - 1])],
       locks := s.locks[l := ReleasedLock(s.locks[l])])
  }

  /** All locks released: on to the next operation. */
  predicate CanReturn(s: State, i: nat) {
    && Unfinished(s, i)
    && var t := s.threads[i];
    t.waiting.NoWait? && t.releasing && t.held == []
  }

  function Return(s: State, i: nat): State
    requires CanReturn(s, i)
  {
    var t := s.threads[i];
    s.(threads := s.threads[i := Thread(t.todo[1..], [], NoWait, false)])
  }

  predicate Enabled(s: State, i: nat) {
    CanDraw(s, i) || CanEnter(s, i) || CanFinishWork(s, i) || CanRelease(s, i) || CanReturn(s, i)
  }

  predicate Next(s: State, s': State, i: nat) {
    || (CanDraw(s, i) && s' == Draw(s, i))
    || (CanEnter(s, i) && s' == Enter(s, i))
    || (CanFinishWork(s, i) && s' == FinishWork(s, i))
    || (CanRelease(s, i) && s' == Release(s, i))
    || (CanReturn(s, i) && s' == Return(s, i))
  }

  /** Locks idle, every thread about to start its list of operations. */
  predicate Initial(s: State) {
    && |s.threads| < WORD
    && (forall i :: 0 <= i < |s.threads| ==>
          s.threads[i].held == [] && s.threads[i].waiting == NoWait && !s.threads[i].releasing)
    && (forall i, k :: 0 <= i < |s.threads| && 0 <= k < |s.threads[i].todo| ==> RequestOk(s, s.threads[i].todo[k]))
    && (forall l :: 0 <= l < |s.locks| ==> s.locks[l] == Lock(0, 0, []))
  }

  ghost predicate Run(states: seq<State>, who: seq<nat>) {
    && |states| == |who| + 1
    && Initial(states[0])
    && forall k: nat :: k < |who| ==> Next(states[k], states[k + 1], who[k])
  }

  // ---------------------------------------------------------------------------
  // The invariant
  // ---------------------------------------------------------------------------

  /** Thread i holds or spins on exactly this claim. */
  predicate Claims(t: Thread, c: Claim) {
    c in t.held || t.waiting == Spin(c)
  }

  /** The thread follows the lock order of its operation. */
  ghost predicate ThreadOk(s: State, i: nat)
    requires i < |s.threads|
  {
    var t := s.threads[i];
    && (forall k :: 0 <= k < |t.todo| ==> RequestOk(s, t.todo[k]))
    && (t.todo == [] ==> t.held == [] && t.waiting.NoWait? && !t.releasing)
    && (t.todo != [] ==>
          var need := LockSeq(t.todo[0]);
          && |t.held| <= |need|
          && (forall k :: 0 <= k < |t.held| ==> t.held[k].lock == need[k])
          && (t.waiting.Spin? ==> !t.releasing && |t.held| < |need| && t.waiting.claim.lock == need[|t.held|]))
  }

  /** The thread's claims are live tickets, those it holds are being served, and it
      stands at the matching place of each queue. */
  ghost predicate ClaimsOk(s: State, i: nat)
    requires i < |s.threads|
  {
    var t := s.threads[i];
    && (forall k :: 0 <= k < |t.held| ==>
          ClaimQueued(s, i, t.held[k]) && s.locks[t.held[k].lock].serving == t.held[k].ticket)
    && (t.waiting.Spin? ==> ClaimQueued(s, i, t.waiting.claim))
  }

  ghost predicate ClaimQueued(s: State, i: nat, c: Claim) {
    && c.lock < |s.locks|
    && var lock := s.locks[c.lock];
    && lock.serving <= c.ticket < lock.serving + |lock.queue|
    && lock.queue[c.ticket - lock.serving] == i
  }

  ghost predicate QueueOk(s: State, l: nat)
    requires l < |s.locks|
  {
    var lock := s.locks[l];
    && lock.next == lock.serving + |lock.queue|
    && NoDup(lock.queue)
    && (forall k :: 0 <= k < |lock.queue| ==>
          lock.queue[k] < |s.threads| && Claims(s.threads[lock.queue[k]], Claim(l, lock.serving + k)))
  }

  ghost predicate Inv(s: State) {
    && |s.threads| < WORD
    && (forall i: nat {:trigger ThreadOk(s, i)} :: i < |s.threads| ==> ThreadOk(s, i))
    && (forall i: nat {:trigger ClaimsOk(s, i)} :: i < |s.threads| ==> ClaimsOk(s, i))
    && (forall l: nat {:trigger QueueOk(s, l)} :: l < |s.locks| ==> QueueOk(s, l))
  }

  // ---------------------------------------------------------------------------
  // Queues are shorter than a word of tickets
  // ---------------------------------------------------------------------------

  lemma QueueShort(s: State, l: nat)
    requires Inv(s) && l < |s.locks|
    ensures |s.locks[l].queue| < WORD
  {
    assert QueueOk(s, l);
    DistinctBelow(s.locks[l].queue, |s.threads|);
  }

  // ---------------------------------------------------------------------------
  // Every step keeps the invariant
  // ---------------------------------------------------------------------------

  /** The locks of one operation are taken in strictly increasing address order, and
      released in the opposite order. */
  lemma LockSeqOrdered(r: Request)
    ensures forall a, b :: 0 <= a < b < |LockSeq(r)| ==> LockSeq(r)[a] < LockSeq(r)[b]
    ensures |UnlockSeq(r)| == |LockSeq(r)|
    ensures forall k :: 0 <= k < |LockSeq(r)| ==> UnlockSeq(r)[|LockSeq(r)| - 1 - k] == LockSeq(r)[k]
  {
  }

  lemma InitialInv(s: State)
    requires Initial(s)
    ensures Inv(s)
  {
  }

  lemma DrawClaims(s: State, i: nat, j: nat)
    requires Inv(s) && CanDraw(s, i) && j < |s.threads|
    ensures ThreadOk(Draw(s, i), j) && ClaimsOk(Draw(s, i), j)
  {
    var s' := Draw(s, i);
    var t := s.threads[j];
    var l := LockSeq(s.threads[i].todo[0])[|s.threads[i].held|];
    assert ThreadOk(s, j) && ClaimsOk(s, j);
    assert QueueOk(s, l);
    forall k | 0 <= k < |t.held| ensures ClaimQueued(s', j, t.held[k]) {
      assert ClaimQueued(s, j, t.held[k]);
    }
    if j != i && t.waiting.Spin? {
      assert ClaimQueued(s, j, t.waiting.claim);
      assert ClaimQueued(s', j, t.waiting.claim);
    }
  }

  /** A thread about to draw from a lock has no ticket of it. */
  lemma NotYetQueued(s: State, i: nat)
    requires Inv(s) && CanDraw(s, i)
    ensures i !in s.locks[LockSeq(s.threads[i].todo[0])[|s.threads[i].held|]].queue
  {
    var t := s.threads[i];
    var l := LockSeq(t.todo[0])[|t.held|];
    assert QueueOk(s, l) && ThreadOk(s, i);
    LockSeqOrdered(t.todo[0]);
    forall k | 0 <= k < |s.locks[l].queue| ensures s.locks[l].queue[k] != i {
      assert Claims(s.threads[s.locks[l].queue[k]], Claim(l, s.locks[l].serving + k));
    }
  }

  lemma DrawQueue(s: State, i: nat, m: nat)
    requires Inv(s) && CanDraw(s, i) && m < |s.locks|
    ensures QueueOk(Draw(s, i), m)
  {
    var t := s.threads[i];
    var l := LockSeq(t.todo[0])[|t.held|];
    assert QueueOk(s, m);
    if m == l {
      NotYetQueued(s, i);
    }
  }

  lemma DrawInv(s: State, i: nat)
    requires Inv(s) && CanDraw(s, i)
    ensures Inv(Draw(s, i))
  {
    var s' := Draw(s, i);
    forall j: nat | j < |s'.threads| ensures ThreadOk(s', j) && ClaimsOk(s', j) {
      DrawClaims(s, i, j);
    }
    forall m: nat | m < |s'.locks| ensures QueueOk(s', m) {
      DrawQueue(s, i, m);
    }
  }

  /** The residue test of the spin loop passes only for the ticket being served. */
  lemma EntersOwnTurn(s: State, i: nat)
    requires Inv(s) && CanEnter(s, i)
    ensures
      var c := s.threads[i].waiting.claim;
      s.locks[c.lock].serving == c.ticket
  {
    var c := s.threads[i].waiting.claim;
    assert ClaimsOk(s, i);
    QueueShort(s, c.lock);
    if s.locks[c.lock].serving < c.ticket {
      ResiduesDiffer(s.locks[c.lock].serving, c.ticket, WORD);
    }
  }

  lemma EnterInv(s: State, i: nat)
    requires Inv(s) && CanEnter(s, i)
    ensures Inv(Enter(s, i))
  {
    var s' := Enter(s, i);
    EntersOwnTurn(s, i);
    assert ThreadOk(s, i) && ClaimsOk(s, i);
    forall j: nat | j < |s'.threads| ensures ThreadOk(s', j) {
      assert ThreadOk(s, j);
    }
    forall j: nat | j < |s'.threads| ensures ClaimsOk(s', j) {
      assert ClaimsOk(s, j);
    }
    forall m: nat | m < |s'.locks| ensures QueueOk(s', m) {
      assert QueueOk(s, m);
    }
  }

  lemma FinishWorkInv(s: State, i: nat)
    requires Inv(s) && CanFinishWork(s, i)
    ensures Inv(FinishWork(s, i))
  {
    var s' := FinishWork(s, i);
    forall j: nat | j < |s'.threads| ensures ThreadOk(s', j) && ClaimsOk(s', j) {
      assert ThreadOk(s, j) && ClaimsOk(s, j);
    }
    forall m: nat | m < |s'.locks| ensures QueueOk(s', m) {
      assert QueueOk(s, m);
    }
  }

  lemma ReturnInv(s: State, i: nat)
    requires Inv(s) && CanReturn(s, i)
    ensures Inv(Return(s, i))
  {
    var s' := Return(s, i);
    assert ThreadOk(s, i);
    forall j: nat | j < |s'.threads| ensures ThreadOk(s', j) && ClaimsOk(s', j) {
      assert ThreadOk(s, j) && ClaimsOk(s, j);
    }
    forall m: nat | m < |s'.locks| ensures QueueOk(s', m) {
      assert QueueOk(s, m);
    }
  }

  /** A release acts on the lock acquired last, whose first ticket is the thread's own,
      and its idle guard does not fire. */
  lemma ReleasesOwnLock(s: State, i: nat)
    requires Inv(s) && CanRelease(s, i)
    ensures
      var t := s.threads[i];
      var l := UnlockSeq(t.todo[0])[|UnlockSeq(t.todo[0])| - |t.held|];
      var lock := s.locks[l];
      && t.held[|t.held| - 1] == Claim(l, lock.serving)
      && lock.queue != [] && lock.queue[0] == i
      && ReleasedLock(lock) == Lock(lock.next, lock.serving + 1, lock.queue[1..])
  {
    var t := s.threads[i];
    assert ThreadOk(s, i) && ClaimsOk(s, i);
    LockSeqOrdered(t.todo[0]);
    var l := LockSeq(t.todo[0])[|t.held| - 1];
    assert t.held[|t.held| - 1].lock == l;
    assert QueueOk(s, l);
    QueueShort(s, l);
    var lock := s.locks[l];
    ResiduesDiffer(lock.serving, lock.next, WORD);
  }

  lemma ReleaseClaims(s: State, i: nat, j: nat)
    requires Inv(s) && CanRelease(s, i) && j < |s.threads|
    ensures ThreadOk(Release(s, i), j) && ClaimsOk(Release(s, i), j)
  {
    var s' := Release(s, i);
    ReleasesOwnLock(s, i);
    var t := s.threads[j];
    var l := s.threads[i].held[|s.threads[i].held| - 1].lock;
    assert ThreadOk(s, j) && ClaimsOk(s, j);
    if j == i {
      LockSeqOrdered(t.todo[0]);
    }
    forall k | 0 <= k < |s'.threads[j].held|
      ensures ClaimQueued(s', j, t.held[k]) && s'.locks[t.held[k].lock].serving == t.held[k].ticket
    {
      assert ClaimQueued(s, j, t.held[k]);
      assert t.held[k].lock != l;
    }
    if t.waiting.Spin? {
      assert ClaimQueued(s, j, t.waiting.claim);
      assert ClaimQueued(s', j, t.waiting.claim);
    }
  }

  /** Dropping the last held claim leaves every other claim of the thread in place. */
  lemma ClaimSurvives(t: Thread, c: Claim)
    requires t.held != [] && Claims(t, c) && c != t.held[|t.held| - 1]
    ensures Claims(t.(held := t.held[..|t.held| - 1]), c)
  {
    if c in t.held {
      var k :| 0 <= k < |t.held| && t.held[k] == c;
      assert t.held[..|t.held| - 1][k] == c;
    }
  }

  /** Entry k of the old queue, if it is not the one being released, is still a claim. */
  lemma ReleaseQueueAt(s: State, i: nat, m: nat, k: nat)
    requires Inv(s) && CanRelease(s, i) && m < |s.locks| && k < |s.locks[m].queue|
    requires Claim(m, s.locks[m].serving + k) != s.threads[i].held[|s.threads[i].held| - 1]
    ensures
      var j := s.locks[m].queue[k];
      j < |Release(s, i).threads| && Claims(Release(s, i).threads[j], Claim(m, s.locks[m].serving + k))
  {
    assert QueueOk(s, m);
    var c := Claim(m, s.locks[m].serving + k);
    assert Claims(s.threads[s.locks[m].queue[k]], c);
    if s.locks[m].queue[k] == i {
      ClaimSurvives(s.threads[i], c);
    }
  }

  lemma ReleaseQueue(s: State, i: nat, m: nat)
    requires Inv(s) && CanRelease(s, i) && m < |s.locks|
    ensures QueueOk(Release(s, i), m)
  {
    var s' := Release(s, i);
    ReleasesOwnLock(s, i);
    var last := s.threads[i].held[|s.threads[i].held| - 1];
    assert QueueOk(s, m);
    var q, q' := s.locks[m].queue, s'.locks[m].queue;
    var shift := if m == last.lock then 1 else 0;
    assert q' == q[shift..];
    forall k | 0 <= k < |q'|
      ensures q'[k] < |s'.threads| && Claims(s'.threads[q'[k]], Claim(m, s'.locks[m].serving + k))
    {
      ReleaseQueueAt(s, i, m, k + shift);
    }
  }

  lemma ReleaseInv(s: State, i: nat)
    requires Inv(s) && CanRelease(s, i)
    ensures Inv(Release(s, i))
  {
    var s' := Release(s, i);
    forall j: nat | j < |s'.threads| ensures ThreadOk(s', j) && ClaimsOk(s', j) {
      ReleaseClaims(s, i, j);
    }
    forall m: nat | m < |s'.locks| ensures QueueOk(s', m) {
      ReleaseQueue(s, i, m);
    }
  }

  lemma NextInv(s: State, s': State, i: nat)
    requires Inv(s) && Next(s, s', i)
    ensures Inv(s')
  {
    if CanDraw(s, i) && s' == Draw(s, i) {
      DrawInv(s, i);
    } else if CanEnter(s, i) && s' == Enter(s, i) {
      EnterInv(s, i);
    } else if CanFinishWork(s, i) && s' == FinishWork(s, i) {
      FinishWorkInv(s, i);
    } else if CanRelease(s, i) && s' == Release(s, i) {
      ReleaseInv(s, i);
    } else {
      ReturnInv(s, i);
    }
  }

  lemma {:induction false} RunInv(states: seq<State>, who: seq<nat>, k: nat)
    requires Run(states, who) && k <= |who|
    ensures Inv(states[k])
  {
    if k == 0 {
      InitialInv(states[0]);
    } else {
      RunInv(states, who, k - 1);
      NextInv(states[k - 1], states[k], who[k - 1]);
    }
  }

  // ---------------------------------------------------------------------------
  // Results
  // ---------------------------------------------------------------------------

  predicate Holds(t: Thread, l: nat) {
    exists k :: 0 <= k < |t.held| && t.held[k].lock == l
  }

  /** No lock is ever held by two threads. */
  lemma MutualExclusion(states: seq<State>, who: seq<nat>, n: nat, i: nat, j: nat, l: nat)
    requires Run(states, who) && n <= |who|
    requires i < |states[n].threads| && j < |states[n].threads|
    requires Holds(states[n].threads[i], l) && Holds(states[n].threads[j], l)
    ensures i == j
  {
    RunInv(states, who, n);
    var s := states[n];
    assert ClaimsOk(s, i) && ClaimsOk(s, j);
  }

  lemma NotSpinningRuns(s: State, i: nat)
    requires Inv(s) && Unfinished(s, i) && s.threads[i].waiting.NoWait?
    ensures Enabled(s, i)
  {
    var t := s.threads[i];
    var need := LockSeq(t.todo[0]);
    assert ThreadOk(s, i);
    LockSeqOrdered(t.todo[0]);
    assert RequestOk(s, t.todo[0]);
    if t.releasing && t.held != [] {
      assert UnlockSeq(t.todo[0])[|need| - 1 - (|t.held| - 1)] == need[|t.held| - 1];
      assert CanRelease(s, i);
    }
  }

  /** From a thread spinning on lock l, walk up the lock order to one that can step. */
  lemma {:induction false} SomeoneRuns(s: State, i: nat) returns (j: nat)
    requires Inv(s) && Unfinished(s, i)
    ensures Enabled(s, j)
    decreases if s.threads[i].waiting.Spin? then |s.locks| - s.threads[i].waiting.claim.lock else |s.locks| + 1
  {
    var t := s.threads[i];
    assert ThreadOk(s, i) && ClaimsOk(s, i);
    LockSeqOrdered(t.todo[0]);
    if t.waiting.NoWait? {
      NotSpinningRuns(s, i);
      j := i;
    } else {
      var c := t.waiting.claim;
      var lock := s.locks[c.lock];
      if lock.serving == c.ticket {
        j := i;
      } else {
        var v := lock.queue[0];
        assert QueueOk(s, c.lock);
        assert Claims(s.threads[v], Claim(c.lock, lock.serving + 0));
        assert ThreadOk(s, v);
        LockSeqOrdered(s.threads[v].todo[0]);
        if s.threads[v].waiting == Spin(Claim(c.lock, lock.serving)) {
          j := v;
        } else if s.threads[v].waiting.NoWait? {
          NotSpinningRuns(s, v);
          j := v;
        } else {
          assert ClaimsOk(s, v);
          j := SomeoneRuns(s, v);
        }
      }
    }
  }

  /** No reachable state is a deadlock: while any thread has work left, some thread can
      step. */
  lemma DeadlockFree(states: seq<State>, who: seq<nat>, n: nat, i: nat)
    requires Run(states, who) && n <= |who| && Unfinished(states[n], i)
    ensures exists j: nat :: Enabled(states[n], j)
  {
    RunInv(states, who, n);
    var j := SomeoneRuns(states[n], i);
  }

  // ---------------------------------------------------------------------------
  // How long a run can be
  // ---------------------------------------------------------------------------

  /** The steps of one operation: draw, enter and release per lock, the work, the return. */
  function Cost(r: Request): nat {
    3 * |LockSeq(r)| + 2
  }

  function Costs(todo: seq<Request>): nat {
    if todo == [] then 0 else Cost(todo[0]) + Costs(todo[1..])
  }

  /** The steps that a thread has left in its current operation. */
  function CurrentLeft(t: Thread): int
    requires t.todo != []
  {
    if t.releasing then |t.held| + 1
    else 2 * (|LockSeq(t.todo[0])| - |t.held|) - (if t.waiting.Spin? then 1 else 0) + |LockSeq(t.todo[0])| + 2
  }

  function ThreadLeft(t: Thread): int {
    if t.todo == [] then 0 else CurrentLeft(t) + Costs(t.todo[1..])
  }

  function StepsLeft(threads: seq<Thread>): int {
    if threads == [] then 0 else ThreadLeft(threads[0]) + StepsLeft(threads[1..])
  }

  lemma {:induction false} StepsLeftUpdate(threads: seq<Thread>, i: nat, t: Thread)
    requires i < |threads|
    ensures StepsLeft(threads[i := t]) == StepsLeft(threads) - ThreadLeft(threads[i]) + ThreadLeft(t)
  {
    if i == 0 {
      assert threads[0 := t][1..] == threads[1..];
    } else {
      assert threads[i := t][1..] == threads[1..][i - 1 := t];
      StepsLeftUpdate(threads[1..], i - 1, t);
    }
  }

  lemma FreshThreadLeft(t: Thread)
    requires t.held == [] && t.waiting.NoWait? && !t.releasing
    ensures ThreadLeft(t) == Costs(t.todo)
  {
  }

  /** Every step, of whichever thread, is one of the steps that were left. */
  lemma StepCounts(s: State, s': State, i: nat)
    requires Inv(s) && Next(s, s', i)
    ensures StepsLeft(s'.threads) == StepsLeft(s.threads) - 1
  {
    assert i < |s.threads| && ThreadOk(s, i);
    var t, t' := s.threads[i], s'.threads[i];
    assert s'.threads == s.threads[i := t'];
    StepsLeftUpdate(s.threads, i, t');
    if CanReturn(s, i) && s' == Return(s, i) {
      FreshThreadLeft(t');
    }
    assert ThreadLeft(t') == ThreadLeft(t) - 1;
  }

  lemma {:induction false} StepsLeftNat(threads: seq<Thread>)
    requires forall t :: t in threads ==> t.todo != [] ==>
               |t.held| <= |LockSeq(t.todo[0])| && (t.waiting.Spin? ==> |t.held| < |LockSeq(t.todo[0])|)
    ensures StepsLeft(threads) >= 0
    ensures StepsLeft(threads) == 0 ==> forall t :: t in threads ==> t.todo == []
    decreases |threads|
  {
    if threads != [] {
      assert threads[0] in threads;
      assert forall t :: t in threads[1..] ==> t in threads;
      StepsLeftNat(threads[1..]);
    }
  }

  /** A run of any interleaving is as long as the number of steps it has used up, so no run
      is longer than the work that the threads set out with. */
  lemma {:induction false} RunLength(states: seq<State>, who: seq<nat>, k: nat)
    requires Run(states, who) && k <= |who|
    ensures StepsLeft(states[0].threads) == k + StepsLeft(states[k].threads)
    ensures k <= StepsLeft(states[0].threads)
  {
    if k > 0 {
      RunLength(states, who, k - 1);
      RunInv(states, who, k - 1);
      StepCounts(states[k - 1], states[k], who[k - 1]);
    }
    RunInv(states, who, k);
    var s := states[k];
    forall t | t in s.threads && t.todo != []
      ensures |t.held| <= |LockSeq(t.todo[0])| && (t.waiting.Spin? ==> |t.held| < |LockSeq(t.todo[0])|)
    {
      var i :| 0 <= i < |s.threads| && s.threads[i] == t;
      assert ThreadOk(s, i);
    }
    StepsLeftNat(s.threads);
  }

  /** Every run that cannot be continued has finished every thread, after exactly the steps
      that the threads set out with. */
  lemma MaximalRunsFinish(states: seq<State>, who: seq<nat>)
    requires Run(states, who) && forall j: nat :: !Enabled(states[|who|], j)
    ensures forall i :: 0 <= i < |states[|who|].threads| ==> states[|who|].threads[i].todo == []
    ensures |who| == StepsLeft(states[0].threads)
  {
    var s := states[|who|];
    forall i | 0 <= i < |s.threads| ensures s.threads[i].todo == [] {
      if s.threads[i].todo != [] {
        DeadlockFree(states, who, |who|, i);
        assert false;
      }
    }
    RunLength(states, who, |who|);
    NothingLeft(s.threads);
  }

  lemma {:induction false} NothingLeft(threads: seq<Thread>)
    requires forall i :: 0 <= i < |threads| ==> threads[i].todo == []
    ensures StepsLeft(threads) == 0
  {
    if threads != [] {
      NothingLeft(threads[1..]);
    }
  }
}
