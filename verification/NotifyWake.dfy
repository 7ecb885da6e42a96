/**
 Waking the waiter of a notification (kernel/ipc/notification.c): one thread that waits, any
 number of signallers and of threads that call try_wait.  Every access to a shared field -
 the signal word, the state, the waited mask, the waiter's identity, the waiter's thread
 state - is a step of its own, so all interleavings of the calls are runs.
 */
module NotifyWake {

  type Bits = set<nat>

  datatype Phase = Idle | Waiting | Pending

  /** The next access of a signaller that has set its bits: load the word, read the state,
      read the mask, read the waiter's identity, test and change its thread state, store
      PENDING. */
  datatype Signaller = Load | ReadPhase(cur: Bits) | ReadMask(cur: Bits) | ReadName | TestBlocked | Ready | Store

  /** The next access of ipc_notification_try_wait after a load that found bits. */
  datatype Taker = TakeBits(active: Bits) | StoreIdle

  /** The next access of ipc_notification_wait: clear what the first load found and store
      IDLE; or store WAITING, mask, identity and thread state and sleep; after waking, clear
      what the second load found, then mask, identity and state. */
  datatype Waiter =
    | Away
    | ClearFound(active: Bits)
    | StoreWaiting(mask: Bits)
    | StoreMask(mask: Bits)
    | StoreName(mask: Bits)
    | Block(mask: Bits)
    | Asleep(mask: Bits)
    | ClearWoken(active: Bits)
    | ClearMask
    | ClearName
    | Settle

  datatype Note = Note(
    signals: Bits, phase: Phase, waitedMask: Bits, named: bool, blocked: bool,
    waiter: Waiter, crew: map<nat, Signaller>, takers: map<nat, Taker>)

  datatype Move =
    | Signal(j: nat, bits: Bits)
    | StepSignaller(j: nat)
    | TryWait(i: nat, mask: Bits)
    | StepTaker(i: nat)
    | Wait(mask: Bits)
    | StepWaiter

  predicate Movable(n: Note, m: Move) {
    match m
    case Signal(j, bits) => bits != {} && j !in n.crew
    case StepSignaller(j) => j in n.crew
    case TryWait(i, mask) => mask != {} && i !in n.takers
    case StepTaker(i) => i in n.takers
    case Wait(mask) => mask != {} && n.waiter == Away
    case StepWaiter => n.waiter != Away && (n.waiter.Asleep? ==> !n.blocked)
  }

  function SignallerNext(n: Note, j: nat): Note
    requires j in n.crew
  {
    match n.crew[j]
    case Load => n.(crew := n.crew[j := ReadPhase(n.signals)])
    case ReadPhase(cur) => n.(crew := n.crew[j := if n.phase == Waiting then ReadMask(cur) else Store])
    case ReadMask(cur) => n.(crew := n.crew[j := if cur * n.waitedMask != {} then ReadName else Store])
    case ReadName => n.(crew := n.crew[j := if n.named then TestBlocked else Store])
    case TestBlocked => n.(crew := n.crew[j := if n.blocked then Ready else Store])
    case Ready => n.(blocked := false, crew := n.crew[j := Store])
    case Store => n.(phase := Pending, crew := n.crew - {j})
  }

  function TakerNext(n: Note, i: nat): Note
    requires i in n.takers
  {
    match n.takers[i]
    case TakeBits(active) =>
      var rest := n.signals - active;
      n.(signals := rest, takers := if rest == {} then n.takers[i := StoreIdle] else n.takers - {i})
    case StoreIdle => n.(phase := Idle, takers := n.takers - {i})
  }

  function WaiterNext(n: Note): Note {
    match n.waiter
    case Away => n
    case ClearFound(active) => n.(signals := n.signals - active, waiter := Settle)
    case StoreWaiting(mask) => n.(phase := Waiting, waiter := StoreMask(mask))
    case StoreMask(mask) => n.(waitedMask := mask, waiter := StoreName(mask))
    case StoreName(mask) => n.(named := true, waiter := Block(mask))
    case Block(mask) => n.(blocked := true, waiter := Asleep(mask))
    case Asleep(mask) => n.(waiter := ClearWoken(n.signals * mask))
    case ClearWoken(active) => n.(signals := n.signals - active, waiter := ClearMask)
    case ClearMask => n.(waitedMask := {}, waiter := ClearName)
    case ClearName => n.(named := false, waiter := Settle)
    case Settle => n.(phase := Idle, waiter := Away)
  }

  function Moved(n: Note, m: Move): Note
    requires Movable(n, m)
  {
    match m
    case Signal(j, bits) => n.(signals := n.signals + bits, crew := n.crew[j := Load])
    case StepSignaller(j) => SignallerNext(n, j)
    case TryWait(i, mask) =>
      if n.signals * mask == {} then n else n.(takers := n.takers[i := TakeBits(n.signals * mask)])
    case StepTaker(i) => TakerNext(n, i)
    case Wait(mask) =>
      var active := n.signals * mask;
      n.(waiter := if active != {} then ClearFound(active) else StoreWaiting(mask))
    case StepWaiter => WaiterNext(n)
  }

  /** The fields that only the waiter writes are as it left them. */
  predicate Kept(n: Note) {
    match n.waiter
    case StoreName(mask) => n.waitedMask == mask && mask != {}
    case Block(mask) => n.waitedMask == mask && n.named && mask != {}
    case Asleep(mask) => n.waitedMask == mask && n.named && mask != {}
    case StoreWaiting(mask) => mask != {}
    case StoreMask(mask) => mask != {}
    case _ => true
  }

  lemma KeepsKept(n: Note, m: Move)
    requires Kept(n) && Movable(n, m)
    ensures Kept(Moved(n, m))
  {
  }

  // ---------------------------------------------------------------------------
  // Deafness
  // ---------------------------------------------------------------------------

  predicate Sleeping(n: Note) {
    n.waiter.Asleep? && n.blocked
  }

  /** A signaller whose tests have all come out in favour of waking, or can only do so. */
  predicate Committed(n: Note, s: Signaller) {
    match s
    case ReadMask(cur) => cur * n.waitedMask != {}
    case ReadName => true
    case TestBlocked => true
    case Ready => true
    case _ => false
  }

  ghost predicate NoneCommitted(n: Note) {
    forall j: nat :: j in n.crew ==> !Committed(n, n.crew[j])
  }

  /** The state no longer says WAITING and nobody has read it in time. */
  ghost predicate Deaf(n: Note) {
    Sleeping(n) && n.phase != Waiting && NoneCommitted(n)
  }

  /** Running ms from n wakes the sleeper at some point. */
  predicate Wakes(n: Note, ms: seq<Move>)
    decreases |ms|
  {
    !Sleeping(n) || (ms != [] && Movable(n, ms[0]) && Wakes(Moved(n, ms[0]), ms[1..]))
  }

  /** Some continuation wakes the sleeper. */
  ghost predicate Wakeable(n: Note) {
    exists ms: seq<Move> :: WokenBy(n, ms)
  }

  predicate WokenBy(n: Note, ms: seq<Move>) {
    Wakes(n, ms)
  }

  lemma DeafStays(n: Note, m: Move)
    requires Kept(n) && Deaf(n) && Movable(n, m)
    ensures Deaf(Moved(n, m))
  {
  }

  /** A deaf sleeper is woken in no run, whatever is signalled. */
  lemma {:induction false} DeafForever(n: Note, ms: seq<Move>)
    requires Kept(n) && Deaf(n)
    ensures !Wakes(n, ms)
    decreases |ms|
  {
    if ms != [] && Movable(n, ms[0]) {
      KeepsKept(n, ms[0]);
      DeafStays(n, ms[0]);
      DeafForever(Moved(n, ms[0]), ms[1..]);
    }
  }

  function Left(s: Signaller): nat {
    match s
    case Load => 6
    case ReadPhase(_) => 5
    case ReadMask(_) => 4
    case ReadName => 3
    case TestBlocked => 2
    case Ready => 1
    case Store => 0
  }

  /** A committed signaller that runs on wakes the sleeper. */
  lemma {:induction false} CommittedWakes(n: Note, j: nat) returns (ms: seq<Move>)
    requires Kept(n) && Sleeping(n) && j in n.crew && Committed(n, n.crew[j])
    ensures Wakes(n, ms)
    decreases Left(n.crew[j])
  {
    var m := StepSignaller(j);
    var n' := Moved(n, m);
    if n.crew[j] == Ready {
      ms := [m];
      assert Wakes(n', []);
    } else {
      var rest := CommittedWakes(n', j);
      ms := [m] + rest;
    }
  }

  lemma FreshSignaller(crew: map<nat, Signaller>) returns (j: nat)
    ensures j !in crew
  {
    var keys := crew.Keys;
    j := 0;
    while j in keys
      invariant forall i: nat :: i < j ==> i in crew
      invariant keys == set i | i in crew.Keys && i >= j
      decreases keys
    {
      keys := keys - {j};
      j := j + 1;
    }
  }

  /** While the state says WAITING, one more signal of an awaited bit, undisturbed, wakes the
      sleeper. */
  lemma WaitingWakes(n: Note) returns (ms: seq<Move>)
    requires Kept(n) && Sleeping(n) && n.phase == Waiting
    ensures Wakes(n, ms)
  {
    var j := FreshSignaller(n.crew);
    var b :| b in n.waitedMask;
    var m1, m2 := Signal(j, {b}), StepSignaller(j);
    var n1 := Moved(n, m1);
    var n2 := Moved(n1, m2);
    var n3 := Moved(n2, m2);
    assert b in n2.crew[j].cur * n3.waitedMask;
    var rest := CommittedWakes(n3, j);
    ms := [m1, m2, m2] + rest;
    assert ms[1..][1..][1..] == rest;
  }

  /** A sleeper can still be woken, in some continuation, if and only if it is not deaf. */
  lemma WakeableIff(n: Note)
    requires Kept(n) && Sleeping(n)
    ensures Wakeable(n) <==> !Deaf(n)
  {
    if Deaf(n) {
      forall ms: seq<Move> ensures !WokenBy(n, ms) {
        DeafForever(n, ms);
      }
    } else if n.phase == Waiting {
      var ms := WaitingWakes(n);
      assert WokenBy(n, ms);
    } else {
      var j :| j in n.crew && Committed(n, n.crew[j]);
      var ms := CommittedWakes(n, j);
      assert WokenBy(n, ms);
    }
  }

  /** The steps after which a sleeper is deaf: a signaller's store of PENDING, try_wait's
      store of IDLE, and falling asleep after either has undone WAITING; each only when no
      committed signaller is left. */
  ghost predicate Deafens(n: Note, m: Move) {
    && NoneCommitted(n)
    && match m
       case StepSignaller(j) => Sleeping(n) && j in n.crew && n.crew[j] == Store
       case StepTaker(i) => Sleeping(n) && i in n.takers && n.takers[i] == StoreIdle
       case StepWaiter => n.waiter.Block? && n.phase != Waiting
       case _ => false
  }

  lemma GoesDeafIff(n: Note, m: Move)
    requires Kept(n) && Movable(n, m) && !Deaf(n)
    ensures Deaf(Moved(n, m)) <==> Deafens(n, m)
  {
    var n' := Moved(n, m);
    match m
    case StepSignaller(j) =>
      if Deafens(n, m) {
        assert forall i: nat :: i in n'.crew ==> i in n.crew && n'.crew[i] == n.crew[i];
      } else if Deaf(n') {
        StillCommitted(n, j);
      }
    case _ =>
      assert forall i: nat :: i in n.crew ==> i in n'.crew;
  }

  lemma StillCommitted(n: Note, j: nat)
    requires Kept(n) && j in n.crew && !Deaf(n) && Deaf(SignallerNext(n, j))
    ensures Deafens(n, StepSignaller(j))
  {
    var n' := SignallerNext(n, j);
    assert Committed(n, n.crew[j]) ==> j in n'.crew && (!n'.blocked || Committed(n', n'.crew[j]));
    forall i: nat | i in n.crew ensures !Committed(n, n.crew[i]) {
      if i != j {
        assert n'.crew[i] == n.crew[i];
      }
    }
  }

  // ---------------------------------------------------------------------------
  // Runs
  // ---------------------------------------------------------------------------

  const CREATED: Note := Note({}, Idle, {}, false, false, Away, map[], map[])

  ghost predicate Run(ns: seq<Note>, ms: seq<Move>) {
    && |ns| == |ms| + 1 && ns[0] == CREATED
    && forall k: nat :: k < |ms| ==> Movable(ns[k], ms[k]) && ns[k + 1] == Moved(ns[k], ms[k])
  }

  lemma {:induction false} KeptInEveryRun(ns: seq<Note>, ms: seq<Move>, k: nat)
    requires Run(ns, ms) && k <= |ms|
    ensures Kept(ns[k])
  {
    if k > 0 {
      KeptInEveryRun(ns, ms, k - 1);
      KeepsKept(ns[k - 1], ms[k - 1]);
    }
  }

  /** In every run, a sleeper can still be woken if and only if it is not deaf. */
  lemma WakeableInEveryRun(ns: seq<Note>, ms: seq<Move>, k: nat)
    requires Run(ns, ms) && k <= |ms| && Sleeping(ns[k])
    ensures Wakeable(ns[k]) <==> !Deaf(ns[k])
  {
    KeptInEveryRun(ns, ms, k);
    WakeableIff(ns[k]);
  }

  function Last(ns: seq<Note>): Note
    requires ns != []
  {
    ns[|ns| - 1]
  }

  lemma Then(ns: seq<Note>, ms: seq<Move>, m: Move) returns (ns': seq<Note>, ms': seq<Move>)
    requires Run(ns, ms) && Movable(Last(ns), m)
    ensures Run(ns', ms') && Last(ns') == Moved(Last(ns), m)
  {
    ns', ms' := ns + [Moved(Last(ns), m)], ms + [m];
  }

  /** The waiter's four stores, undisturbed. */
  lemma ThenSleeps(ns: seq<Note>, ms: seq<Move>, mask: Bits) returns (ns': seq<Note>, ms': seq<Move>)
    requires Run(ns, ms) && Last(ns).waiter == StoreWaiting(mask)
    ensures Run(ns', ms')
    ensures Last(ns') ==
            Last(ns).(phase := Waiting, waitedMask := mask, named := true, blocked := true, waiter := Asleep(mask))
  {
    ns', ms' := Then(ns, ms, StepWaiter);
    ns', ms' := Then(ns', ms', StepWaiter);
    ns', ms' := Then(ns', ms', StepWaiter);
    ns', ms' := Then(ns', ms', StepWaiter);
  }

  /** A signaller that reads the state before the waiter stores WAITING, and stores PENDING
      after it has gone to sleep, leaves it deaf with the very bit it waits for pending. */
  lemma RaceDeafens(b: nat) returns (ns: seq<Note>, ms: seq<Move>)
    ensures Run(ns, ms) && Deaf(Last(ns)) && Last(ns).waiter == Asleep({b}) && b in Last(ns).signals
  {
    var step := StepSignaller(0);
    ns, ms := Then([CREATED], [], Wait({b}));
    ns, ms := Then(ns, ms, Signal(0, {b}));
    ns, ms := Then(ns, ms, step);
    ns, ms := Then(ns, ms, step);
    ns, ms := ThenSleeps(ns, ms, {b});
    ns, ms := Then(ns, ms, step);
  }

  /** So does a signal of another bit, even undisturbed. */
  lemma OtherSignalDeafens(a: nat, b: nat) returns (ns: seq<Note>, ms: seq<Move>)
    requires a != b
    ensures Run(ns, ms) && Deaf(Last(ns)) && Last(ns).waiter == Asleep({a})
  {
    var step := StepSignaller(0);
    ns, ms := Then([CREATED], [], Wait({a}));
    ns, ms := ThenSleeps(ns, ms, {a});
    ns, ms := Then(ns, ms, Signal(0, {b}));
    ns, ms := Then(ns, ms, step);
    ns, ms := Then(ns, ms, step);
    assert Last(ns).crew[0] == ReadMask({b}) && {b} * {a} == {};
    ns, ms := Then(ns, ms, step);
    ns, ms := Then(ns, ms, step);
  }

  /** And a try_wait that takes the last pending bit. */
  lemma TryWaitDeafens(a: nat, b: nat) returns (ns: seq<Note>, ms: seq<Move>)
    requires a != b
    ensures Run(ns, ms) && Deaf(Last(ns)) && Last(ns).waiter == Asleep({a})
  {
    var step := StepSignaller(0);
    ns, ms := Then([CREATED], [], Signal(0, {b}));
    ns, ms := Then(ns, ms, step);
    ns, ms := Then(ns, ms, step);
    ns, ms := Then(ns, ms, step);
    assert Last(ns).signals == {b} && {b} * {a} == {} && {b} * {b} == {b};
    ns, ms := Then(ns, ms, Wait({a}));
    ns, ms := ThenSleeps(ns, ms, {a});
    ns, ms := Then(ns, ms, TryWait(0, {b}));
    ns, ms := Then(ns, ms, StepTaker(0));
    ns, ms := Then(ns, ms, StepTaker(0));
  }

  // ---------------------------------------------------------------------------
  // Callers that keep the waiter wakeable
  // ---------------------------------------------------------------------------

  predicate FallingAsleep(w: Waiter) {
    w.StoreWaiting? || w.StoreMask? || w.StoreName? || w.Block?
  }

  /** No call is under way when the waiter starts or while it falls asleep; while it sleeps
      every signal has a bit that it waits for and nobody calls try_wait. */
  predicate Calm(n: Note, m: Move) {
    match m
    case Wait(_) => n.crew == map[] && n.takers == map[]
    case Signal(_, bits) => !FallingAsleep(n.waiter) && (n.waiter.Asleep? ==> bits * n.waiter.mask != {})
    case TryWait(_, _) => !FallingAsleep(n.waiter) && !n.waiter.Asleep?
    case _ => true
  }

  /** A signaller that will find the sleeper and wake it. */
  predicate OnItsWay(n: Note, s: Signaller, mask: Bits) {
    match s
    case Load => n.signals * mask != {}
    case ReadPhase(cur) => cur * mask != {}
    case ReadMask(cur) => cur * mask != {}
    case Store => false
    case _ => true
  }

  ghost predicate CalmInv(n: Note) {
    && Kept(n)
    && (FallingAsleep(n.waiter) ==>
          && n.crew == map[] && n.takers == map[] && n.signals * n.waiter.mask == {}
          && (!n.waiter.StoreWaiting? ==> n.phase == Waiting))
    && (n.waiter.Asleep? ==> n.takers == map[])
    && (Sleeping(n) ==>
          && n.phase == Waiting
          && (forall j: nat :: j in n.crew ==> OnItsWay(n, n.crew[j], n.waiter.mask))
          && (n.signals * n.waiter.mask != {} ==> n.crew != map[]))
  }

  lemma CalmStep(n: Note, m: Move)
    requires CalmInv(n) && Movable(n, m) && Calm(n, m)
    ensures CalmInv(Moved(n, m))
  {
    KeepsKept(n, m);
    var n' := Moved(n, m);
    match m
    case Signal(j, bits) =>
      if Sleeping(n) {
        assert n'.signals * n.waiter.mask >= bits * n.waiter.mask;
        assert n'.signals * n.waiter.mask >= n.signals * n.waiter.mask;
        assert j in n'.crew;
      }
    case StepSignaller(j) =>
      assert Sleeping(n) && n'.blocked ==> j in n'.crew;
    case _ =>
  }

  /** In every calm run the sleeper is never deaf, no signaller gets past it, and somebody is
      on the way whenever a bit that it waits for is pending. */
  lemma {:induction false} CalmRunsWake(ns: seq<Note>, ms: seq<Move>, k: nat)
    requires Run(ns, ms) && k <= |ms|
    requires forall i: nat :: i < k ==> Calm(ns[i], ms[i])
    ensures CalmInv(ns[k]) && !Deaf(ns[k])
    ensures Sleeping(ns[k]) ==> forall j: nat :: j in ns[k].crew ==> ns[k].crew[j] != Store
    ensures Sleeping(ns[k]) && ns[k].signals * ns[k].waiter.mask != {} ==> ns[k].crew != map[]
  {
    if k > 0 {
      CalmRunsWake(ns, ms, k - 1);
      CalmStep(ns[k - 1], ms[k - 1]);
    }
  }

  /** Whichever signaller is on the way, it wakes the sleeper by itself. */
  lemma {:induction false} CalmSignalWakes(n: Note, j: nat) returns (ms: seq<Move>)
    requires CalmInv(n) && Sleeping(n) && j in n.crew
    ensures Wakes(n, ms) && forall k :: 0 <= k < |ms| ==> ms[k] == StepSignaller(j)
    decreases Left(n.crew[j])
  {
    var m := StepSignaller(j);
    CalmStep(n, m);
    var n' := Moved(n, m);
    if n.crew[j] == Ready {
      ms := [m];
      assert Wakes(n', []);
    } else {
      var rest := CalmSignalWakes(n', j);
      ms := [m] + rest;
    }
  }

  // ---------------------------------------------------------------------------
  // The calls, undisturbed
  // ---------------------------------------------------------------------------

  /** Signaller j alone, to its end. */
  function Finish(n: Note, j: nat): Note
    decreases if j in n.crew then Left(n.crew[j]) + 1 else 0
  {
    if j in n.crew then Finish(SignallerNext(n, j), j) else n
  }

  function FinishTaker(n: Note, i: nat): Note
    decreases if i !in n.takers then 0 else if n.takers[i] == StoreIdle then 1 else 2
  {
    if i in n.takers then FinishTaker(TakerNext(n, i), i) else n
  }

  function WaiterLeft(w: Waiter): nat {
    match w
    case Away => 0
    case Settle => 1
    case ClearName => 2
    case ClearMask => 3
    case ClearWoken(_) => 4
    case Asleep(_) => 5
    case Block(_) => 6
    case StoreName(_) => 7
    case StoreMask(_) => 8
    case StoreWaiting(_) => 9
    case ClearFound(_) => 2
  }

  /** The waiter alone, until it returns or sleeps. */
  function FinishWait(n: Note): Note
    decreases WaiterLeft(n.waiter)
  {
    if n.waiter == Away || Sleeping(n) then n
    else
      WaiterAdvances(n);
      FinishWait(WaiterNext(n))
  }

  lemma WaiterAdvances(n: Note)
    requires n.waiter != Away
    ensures WaiterLeft(WaiterNext(n).waiter) < WaiterLeft(n.waiter)
  {
  }

  /** A signaller about to store, alone. */
  lemma FinishStore(n: Note, crew: map<nat, Signaller>, j: nat)
    requires j !in crew && n.crew == crew[j := Store]
    ensures Finish(n, j) == n.(phase := Pending, crew := crew)
  {
    assert n.crew - {j} == crew;
  }

  /** A signaller that has found the waiter, alone. */
  lemma FinishWake(n: Note, crew: map<nat, Signaller>, j: nat)
    requires j !in crew && n.crew == crew[j := ReadName]
    ensures Finish(n, j) == n.(phase := Pending, blocked := n.blocked && !n.named, crew := crew)
  {
    var n1 := SignallerNext(n, j);
    assert n1.crew == crew[j := if n.named then TestBlocked else Store];
    if !n.named {
      FinishStore(n1, crew, j);
    } else {
      var n2 := SignallerNext(n1, j);
      assert n2.crew == crew[j := if n.blocked then Ready else Store];
      assert Finish(n, j) == Finish(n1, j) == Finish(n2, j);
      if n.blocked {
        var n3 := SignallerNext(n2, j);
        assert n3.crew == crew[j := Store] && Finish(n2, j) == Finish(n3, j);
        FinishStore(n3, crew, j);
      } else {
        FinishStore(n2, crew, j);
      }
    }
  }

  /** What a whole signal does when nothing interferes. */
  lemma SignalAlone(n: Note, bits: Bits, j: nat)
    requires bits != {} && j !in n.crew
    ensures
      var finds := n.phase == Waiting && (n.signals + bits) * n.waitedMask != {} && n.named;
      Finish(Moved(n, Signal(j, bits)), j) ==
      n.(signals := n.signals + bits, phase := Pending, blocked := n.blocked && !finds)
  {
    var n1 := Moved(n, Signal(j, bits));
    var n2 := SignallerNext(n1, j);
    assert n2.crew == n.crew[j := ReadPhase(n1.signals)];
    var n3 := SignallerNext(n2, j);
    assert Finish(n1, j) == Finish(n2, j) == Finish(n3, j);
    if n.phase != Waiting {
      assert n3.crew == n.crew[j := Store];
      FinishStore(n3, n.crew, j);
    } else {
      assert n3.crew == n.crew[j := ReadMask(n1.signals)];
      var n4 := SignallerNext(n3, j);
      assert Finish(n3, j) == Finish(n4, j);
      if n1.signals * n.waitedMask != {} {
        assert n4.crew == n.crew[j := ReadName];
        FinishWake(n4, n.crew, j);
      } else {
        assert n4.crew == n.crew[j := Store];
        FinishStore(n4, n.crew, j);
      }
    }
  }

  lemma TakeAlone(n: Note, mask: Bits, i: nat)
    requires mask != {} && i !in n.takers
    ensures
      var active := n.signals * mask;
      FinishTaker(Moved(n, TryWait(i, mask)), i) ==
      n.(signals := n.signals - active,
         phase := if active != {} && n.signals - active == {} then Idle else n.phase)
  {
    var active := n.signals * mask;
    var n1 := Moved(n, TryWait(i, mask));
    if active == {} {
      assert n.signals - active == n.signals;
    } else {
      var n2 := TakerNext(n1, i);
      assert FinishTaker(n1, i) == FinishTaker(n2, i);
      if n2.signals == {} {
        var n3 := TakerNext(n2, i);
        assert FinishTaker(n2, i) == n3 && n3.takers == n.takers;
      } else {
        assert n2.takers == n.takers;
      }
    }
  }

  lemma WaitAlone(n: Note, mask: Bits)
    requires n.waiter == Away && mask != {}
    ensures
      var active := n.signals * mask;
      FinishWait(Moved(n, Wait(mask))) ==
      if active != {} then n.(signals := n.signals - active, phase := Idle)
      else n.(phase := Waiting, waitedMask := mask, named := true, blocked := true, waiter := Asleep(mask))
  {
    var n1 := Moved(n, Wait(mask));
    var n2 := WaiterNext(n1);
    var n3 := WaiterNext(n2);
    if n.signals * mask == {} {
      var n4 := WaiterNext(n3);
      var n5 := WaiterNext(n4);
      assert FinishWait(n4) == n5 && FinishWait(n3) == n5 && FinishWait(n2) == n5;
    } else {
      assert FinishWait(n2) == n3;
    }
  }

  lemma ResumeAlone(n: Note)
    requires n.waiter.Asleep? && !n.blocked
    ensures FinishWait(n) ==
            n.(signals := n.signals - n.signals * n.waiter.mask, waitedMask := {}, named := false, phase := Idle,
               waiter := Away)
  {
    var n1 := WaiterNext(n);
    var n2 := WaiterNext(n1);
    var n3 := WaiterNext(n2);
    var n4 := WaiterNext(n3);
    var n5 := WaiterNext(n4);
    assert FinishWait(n4) == n5 && FinishWait(n3) == n5 && FinishWait(n2) == n5 && FinishWait(n1) == n5;
  }

  class NotificationObject {
    var signals: Bits
    var phase: Phase
    var waitedMask: Bits
    var named: bool
    var blocked: bool
    ghost var waiter: Waiter
    ghost const crew: map<nat, Signaller>
    ghost const takers: map<nat, Taker>

    ghost function View(): Note
      reads this
    {
      Note(signals, phase, waitedMask, named, blocked, waiter, crew, takers)
    }

    /** ipc_notification_signal. */
    method SignalNow(bits: Bits, ghost j: nat) returns (ok: bool)
      requires j !in crew
      modifies this
      ensures ok == (bits != {})
      ensures signals == old(signals) + bits
      ensures View() == if ok then Finish(Moved(old(View()), Signal(j, bits)), j) else old(View())
    {
      if bits == {} {
        return false;
      }
      ghost var n := View();
      signals := signals + bits;
      var cur := signals;
      if phase == Waiting && cur * waitedMask != {} {
        if named {
          if blocked {
            blocked := false;
          }
        }
        phase := Pending;
      } else {
        phase := Pending;
      }
      ok := true;
      SignalAlone(n, bits, j);
    }

    /** ipc_notification_try_wait. */
    method TryWaitNow(mask: Bits, ghost i: nat) returns (triggered: Bits)
      requires mask != {} && i !in takers
      modifies this
      ensures triggered == old(signals) * mask && signals == old(signals) - triggered
      ensures View() == FinishTaker(Moved(old(View()), TryWait(i, mask)), i)
    {
      TakeAlone(View(), mask, i);
      triggered := signals * mask;
      if triggered == {} {
        assert signals - triggered == signals;
        return;
      }
      signals := signals - triggered;
      if signals == {} {
        phase := Idle;
      }
    }

    /** ipc_notification_wait up to its return (with what it reports) or its sleep. */
    method WaitNow(mask: Bits) returns (triggered: Bits)
      requires mask != {} && waiter == Away
      modifies this
      ensures triggered == old(signals) * mask && signals == old(signals) - triggered
      ensures View() == FinishWait(Moved(old(View()), Wait(mask)))
      ensures triggered == {} ==> Sleeping(View()) && phase == Waiting
    {
      ghost var n := View();
      triggered := signals * mask;
      if triggered != {} {
        signals := signals - triggered;
        phase := Idle;
      } else {
        phase := Waiting;
        waitedMask := mask;
        named := true;
        blocked := true;
        waiter := Asleep(mask);
      }
      WaitAlone(n, mask);
    }

    /** The rest of ipc_notification_wait, once woken. */
    method ResumeNow(mask: Bits) returns (triggered: Bits)
      requires waiter == Asleep(mask) && !blocked
      modifies this
      ensures triggered == old(signals) * mask && signals == old(signals) - triggered
      ensures View() == FinishWait(old(View()))
    {
      ghost var n := View();
      triggered := signals * mask;
      signals := signals - triggered;
      waitedMask := {};
      named := false;
      phase := Idle;
      waiter := Away;
      ResumeAlone(n);
    }
  }
}
