/**
 Endpoint handles (kernel/ipc/endpoint.c): a table of slots, a stack of free indices, and
 32-bit IDs that carry a 16-bit generation above a 16-bit index.  Creation and destruction
 each advance the generation, skipping zero.

 A creation pops an index under one lock and fills the slot after that; a destruction
 tests the ID under no lock, wipes the slot under the endpoint's lock without testing
 again, and pushes the index under the first lock; a send or a receive tests and locks in
 the same way.  Each of these is a step, and the steps of any number of threads interleave.
 */
module EndpointIds {
  import opened Lists
  import opened Modular

  const ID_INVALID: nat := 0
  const HALF: nat := 0x1_0000
  /** Generations after the initial zero run through 1 .. 65535. */
  const CYCLE: nat := 0xFFFF

  /** `live`: the state is not IDLE. */
  datatype Slot = Slot(generation: nat, id: nat, live: bool)

  datatype Table = Table(slots: seq<Slot>, free: seq<nat>)

  datatype Option<T> = None | Some(value: T)

  function BumpGeneration(g: nat): nat {
    var next := (g + 1) % HALF;
    if next == 0 then 1 else next
  }

  function MakeId(generation: nat, idx: nat): nat {
    generation * HALF + idx
  }

  /** get_endpoint followed by endpoint_is_valid. */
  function Resolve(t: Table, id: nat): Option<nat> {
    var idx := id % HALF;
    if id == ID_INVALID || idx >= |t.slots| then None
    else if t.slots[idx].generation != id / HALF % HALF then None
    else if !t.slots[idx].live then None
    else Some(idx)
  }

  /** alloc_endpoint_index, when the stack is not empty. */
  function Popped(t: Table): Table
    requires t.free != []
  {
    t.(free := t.free[..|t.free| - 1])
  }

  /** The rest of ipc_endpoint_create. */
  function Filled(t: Table, idx: nat): Table
    requires idx < |t.slots|
  {
    var g := BumpGeneration(t.slots[idx].generation);
    t.(slots := t.slots[idx := Slot(g, MakeId(g, idx), true)])
  }

  /** The locked part of ipc_endpoint_destroy, whatever the slot holds by then. */
  function Wiped(t: Table, idx: nat): Table
    requires idx < |t.slots|
  {
    t.(slots := t.slots[idx := Slot(BumpGeneration(t.slots[idx].generation), ID_INVALID, false)])
  }

  /** The locked part of ipc_msg_send or ipc_msg_receive, whatever the slot holds by then: on
      every path the state is PENDING, RECEIVING or REPLYING after it. */
  function Entered(t: Table, idx: nat): Table
    requires idx < |t.slots|
  {
    t.(slots := t.slots[idx := t.slots[idx].(live := true)])
  }

  /** free_endpoint_index. */
  function Pushed(t: Table, idx: nat): Table {
    t.(free := t.free + [idx])
  }

  /** ipc_endpoint_create with no other thread in between: the new table and the ID,
      unless no index is free. */
  function Create(t: Table): (Table, Option<nat>)
    requires t.free != [] ==> t.free[|t.free| - 1] < |t.slots|
  {
    if t.free == [] then (t, None)
    else
      var idx := t.free[|t.free| - 1];
      var t' := Filled(Popped(t), idx);
      (t', Some(t'.slots[idx].id))
  }

  /** ipc_endpoint_destroy with no other thread in between, by a caller that passes the
      access check. */
  function Destroy(t: Table, id: nat): (Table, bool) {
    match Resolve(t, id)
    case None => (t, false)
    case Some(idx) => (Pushed(Wiped(t, idx), idx), true)
  }

  // ---------------------------------------------------------------------------
  // Generations
  // ---------------------------------------------------------------------------

  /** The generation of a slot after m increments. */
  function GenerationAfter(m: nat): nat {
    if m == 0 then 0 else 1 + (m - 1) % CYCLE
  }

  lemma BumpIsNext(m: nat)
    ensures BumpGeneration(GenerationAfter(m)) == GenerationAfter(m + 1)
    ensures GenerationAfter(m) <= CYCLE && (m > 0 ==> GenerationAfter(m) > 0)
  {
    if m > 0 {
      var r := (m - 1) % CYCLE;
      ModAdd(m - 1, 1, CYCLE);
      if r + 1 < CYCLE {
        ModUnique(r + 1, CYCLE, 0, r + 1);
      }
    }
  }

  /** Multiplying by two loses nothing modulo an odd cycle. */
  lemma TwiceInjective(d: nat)
    ensures (2 * d) % CYCLE == 0 <==> d % CYCLE == 0
  {
    var q, r := d / CYCLE, d % CYCLE;
    assert 2 * d == CYCLE * (2 * q) + 2 * r;
    ModShift(2 * r, 2 * q, CYCLE);
    if 2 * r < CYCLE {
      ModUnique(2 * r, CYCLE, 0, 2 * r);
    } else {
      ModUnique(2 * r, CYCLE, 1, 2 * r - CYCLE);
    }
  }

  /** The ID given out by the a-th creation (from 0) on slot idx. */
  function IdOf(idx: nat, a: nat): nat {
    MakeId(GenerationAfter(2 * a + 1), idx)
  }

  lemma SameResidue(x: nat, y: nat, n: nat)
    requires x <= y && n > 0
    ensures x % n == y % n <==> (y - x) % n == 0
  {
    ModAdd(x, y - x, n);
    var r, d := x % n, (y - x) % n;
    assert (r + (y - x)) % n == y % n;
    ModAdd(y - x, r, n);
    assert (d + r) % n == y % n;
    if d + r < n {
      ModUnique(d + r, n, 0, d + r);
    } else {
      ModUnique(d + r, n, 1, d + r - n);
    }
  }

  /** Two creations on one slot give the same ID exactly when a multiple of 65535 lies
      between them; so any 65535 consecutive creations give distinct IDs, and the next one
      repeats the first. */
  lemma IdsRepeatIff(idx: nat, a: nat, b: nat)
    requires a <= b
    ensures IdOf(idx, a) == IdOf(idx, b) <==> (b - a) % CYCLE == 0
  {
    SameResidue(2 * a, 2 * b, CYCLE);
    TwiceInjective(b - a);
    assert 2 * b - 2 * a == 2 * (b - a);
  }

  // ---------------------------------------------------------------------------
  // The table
  // ---------------------------------------------------------------------------

  /** A slot whose generation has advanced m times: live exactly at odd m. */
  ghost predicate SlotOk(t: Table, i: nat, m: nat)
    requires i < |t.slots|
  {
    && t.slots[i].generation == GenerationAfter(m)
    && t.slots[i].live == (m % 2 == 1)
    && t.slots[i].id == (if t.slots[i].live then MakeId(t.slots[i].generation, i) else ID_INVALID)
  }

  ghost predicate SlotsOk(t: Table, bumps: seq<nat>) {
    && |t.slots| == |bumps| <= HALF
    && forall i: nat {:trigger SlotOk(t, i, bumps[i])} :: i < |t.slots| ==> SlotOk(t, i, bumps[i])
  }

  lemma IdParts(g: nat, idx: nat)
    requires g < HALF && idx < HALF
    ensures MakeId(g, idx) % HALF == idx && MakeId(g, idx) / HALF % HALF == g
  {
    ModUnique(MakeId(g, idx), HALF, g, idx);
    ModUnique(g, HALF, 0, g);
  }

  /** An ID resolves exactly when it is the current ID of a live endpoint. */
  lemma ResolveExact(t: Table, bumps: seq<nat>, id: nat, i: nat)
    requires SlotsOk(t, bumps) && id < HALF * HALF && i < |t.slots|
    ensures Resolve(t, id) == Some(i) <==> t.slots[i].live && t.slots[i].id == id
  {
    assert SlotOk(t, i, bumps[i]);
    BumpIsNext(bumps[i]);
    var g := t.slots[i].generation;
    IdParts(g, i);
    ModUnique(id / HALF, HALF, 0, id / HALF);
    assert id == HALF * (id / HALF) + id % HALF;
  }

  /** A handle from the a-th creation on slot i is accepted exactly while some creation
      congruent to a modulo 65535 is live there: never between its own destruction and the
      65535th creation after it. */
  lemma StaleIdRejected(t: Table, bumps: seq<nat>, i: nat, a: nat)
    requires SlotsOk(t, bumps) && i < |t.slots| && 2 * a + 1 <= bumps[i]
    ensures Resolve(t, IdOf(i, a)) == Some(i) <==>
            bumps[i] % 2 == 1 && ((bumps[i] - 1) / 2 - a) % CYCLE == 0
  {
    assert SlotOk(t, i, bumps[i]);
    BumpIsNext(2 * a + 1);
    ResolveExact(t, bumps, IdOf(i, a), i);
    if bumps[i] % 2 == 1 {
      var b := (bumps[i] - 1) / 2;
      assert bumps[i] == 2 * b + 1;
      IdsRepeatIff(i, a, b);
    }
  }

  lemma Parity(m: nat)
    ensures m % 2 != 1 ==> m == 2 * (m / 2) && (m + 1) % 2 == 1
    ensures m % 2 == 1 ==> (m + 1) % 2 != 1
  {
  }

  /** The slot of creation number a. */
  lemma SlotFilled(t: Table, idx: nat, a: nat)
    requires idx < |t.slots| && t.slots[idx].generation == GenerationAfter(2 * a)
    ensures SlotOk(Filled(t, idx), idx, 2 * a + 1) && Filled(t, idx).slots[idx].id == IdOf(idx, a)
  {
    BumpIsNext(2 * a);
  }

  lemma SlotWiped(t: Table, idx: nat, m: nat)
    requires idx < |t.slots| && SlotOk(t, idx, m) && t.slots[idx].live
    ensures SlotOk(Wiped(t, idx), idx, m + 1)
  {
    BumpIsNext(m);
    Parity(m);
  }

  lemma OtherSlotsOk(t: Table, bumps: seq<nat>, t': Table, idx: nat)
    requires SlotsOk(t, bumps) && idx < |bumps| == |t'.slots| && SlotOk(t', idx, bumps[idx] + 1)
    requires forall i: nat :: i < |bumps| && i != idx ==> t'.slots[i] == t.slots[i]
    ensures SlotsOk(t', bumps[idx := bumps[idx] + 1])
  {
    var bumps' := bumps[idx := bumps[idx] + 1];
    forall i: nat | i < |t'.slots| ensures SlotOk(t', i, bumps'[i]) {
      assert SlotOk(t, i, bumps[i]);
    }
  }

  // ---------------------------------------------------------------------------
  // Interleaved calls
  // ---------------------------------------------------------------------------

  /** A thread between two steps: it popped an index, it passed the test of destroy or of a
      send or receive with some ID, or it wiped a slot whose index it will push. */
  datatype Pending =
    | Taken(idx: nat)
    | Destroying(idx: nat, id: nat)
    | Calling(idx: nat, id: nat)
    | Returning(idx: nat)

  /** The index is with the thread alone. */
  predicate Holding(p: Pending) {
    p.Taken? || p.Returning?
  }

  datatype State = State(table: Table, pend: map<nat, Pending>)

  datatype Move =
    | CreatePop(th: nat)
    | CreateFill(th: nat)
    | DestroyTest(th: nat, id: nat)
    | DestroyWipe(th: nat)
    | DestroyPush(th: nat)
    | CallTest(th: nat, id: nat)
    | CallEnter(th: nat)

  predicate Enabled(s: State, mv: Move) {
    match mv
    case CreatePop(th) => th !in s.pend
    case CreateFill(th) => th in s.pend && s.pend[th].Taken?
    case DestroyTest(th, _) => th !in s.pend
    case DestroyWipe(th) => th in s.pend && s.pend[th].Destroying?
    case DestroyPush(th) => th in s.pend && s.pend[th].Returning?
    case CallTest(th, _) => th !in s.pend
    case CallEnter(th) => th in s.pend && s.pend[th].Calling?
  }

  ghost predicate Bounded(s: State) {
    && (forall k :: 0 <= k < |s.table.free| ==> s.table.free[k] < |s.table.slots|)
    && (forall th: nat :: th in s.pend ==> s.pend[th].idx < |s.table.slots|)
  }

  ghost function Next(s: State, mv: Move): (s': State)
    requires Bounded(s) && Enabled(s, mv)
    ensures Bounded(s')
  {
    var t := s.table;
    match mv
    case CreatePop(th) =>
      if t.free == [] then s else State(Popped(t), s.pend[th := Taken(t.free[|t.free| - 1])])
    case CreateFill(th) => State(Filled(t, s.pend[th].idx), s.pend - {th})
    case DestroyTest(th, id) =>
      (match Resolve(t, id)
       case None => s
       case Some(idx) => State(t, s.pend[th := Destroying(idx, id)]))
    case DestroyWipe(th) => State(Wiped(t, s.pend[th].idx), s.pend[th := Returning(s.pend[th].idx)])
    case DestroyPush(th) => State(Pushed(t, s.pend[th].idx), s.pend - {th})
    case CallTest(th, id) =>
      (match Resolve(t, id)
       case None => s
       case Some(idx) => State(t, s.pend[th := Calling(idx, id)]))
    case CallEnter(th) => State(Entered(t, s.pend[th].idx), s.pend - {th})
  }

  /** Where an index is: in use, on the stack, or with one thread. */
  datatype Place = InUse | OnStack | HeldBy(th: nat)

  datatype Log = Log(bumps: seq<nat>, place: seq<Place>)

  ghost predicate PlaceOk(s: State, l: Log, i: nat)
    requires i < |s.table.slots| && i < |l.place|
  {
    match l.place[i]
    case InUse => s.table.slots[i].live && i !in s.table.free
    case OnStack => !s.table.slots[i].live && i in s.table.free
    case HeldBy(th) =>
      && !s.table.slots[i].live && i !in s.table.free
      && th in s.pend && Holding(s.pend[th]) && s.pend[th].idx == i
  }

  /** Each index is in exactly one place. */
  ghost predicate PlacesOk(s: State, l: Log) {
    && |l.place| == |s.table.slots|
    && NoDup(s.table.free) && Bounded(s)
    && (forall i: nat {:trigger PlaceOk(s, l, i)} :: i < |s.table.slots| ==> PlaceOk(s, l, i))
    && (forall th: nat :: th in s.pend && Holding(s.pend[th]) ==> l.place[s.pend[th].idx] == HeldBy(th))
  }

  ghost predicate Inv(s: State, l: Log) {
    SlotsOk(s.table, l.bumps) && PlacesOk(s, l)
  }

  ghost function NextLog(s: State, l: Log, mv: Move): Log
    requires Inv(s, l) && Enabled(s, mv)
  {
    match mv
    case CreatePop(th) =>
      if s.table.free == [] then l
      else l.(place := l.place[s.table.free[|s.table.free| - 1] := HeldBy(th)])
    case CreateFill(th) =>
      var i := s.pend[th].idx;
      Log(l.bumps[i := l.bumps[i] + 1], l.place[i := InUse])
    case DestroyTest(_, _) => l
    case CallTest(_, _) => l
    case CallEnter(_) => l
    case DestroyWipe(th) =>
      var i := s.pend[th].idx;
      Log(l.bumps[i := l.bumps[i] + 1], l.place[i := HeldBy(th)])
    case DestroyPush(th) => l.(place := l.place[s.pend[th].idx := OnStack])
  }

  /** Every index but one is where it was. */
  lemma OtherPlacesOk(s: State, l: Log, s': State, l': Log, i: nat, th: nat)
    requires PlacesOk(s, l) && |l'.place| == |s'.table.slots| == |s.table.slots| && i < |l.place|
    requires PlaceOk(s', l', i) && NoDup(s'.table.free) && Bounded(s')
    requires forall j: nat :: j < |l.place| && j != i ==>
               && l'.place[j] == l.place[j] && s'.table.slots[j] == s.table.slots[j]
               && (j in s'.table.free <==> j in s.table.free)
    requires s'.pend - {th} == s.pend - {th}
    requires th in s.pend && Holding(s.pend[th]) ==> s.pend[th].idx == i
    requires th in s'.pend && Holding(s'.pend[th]) ==> l'.place[s'.pend[th].idx] == HeldBy(th)
    requires l.place[i].HeldBy? ==> l.place[i].th == th
    ensures PlacesOk(s', l')
  {
    forall j: nat | j < |s'.table.slots| ensures PlaceOk(s', l', j) {
      if j != i {
        assert PlaceOk(s, l, j);
        if l.place[j].HeldBy? {
          var h := l.place[j].th;
          assert h != th;
          assert h in s.pend - {th} && h in s'.pend - {th} && (s'.pend - {th})[h] == (s.pend - {th})[h];
        }
      }
    }
    forall h: nat | h in s'.pend && Holding(s'.pend[h]) ensures l'.place[s'.pend[h].idx] == HeldBy(h) {
      if h != th {
        assert h in s'.pend - {th} && h in s.pend - {th} && (s'.pend - {th})[h] == (s.pend - {th})[h];
        assert l.place[s.pend[h].idx] == HeldBy(h);
      }
    }
  }

  lemma PopKeeps(s: State, l: Log, th: nat)
    requires Inv(s, l) && Enabled(s, CreatePop(th))
    ensures Inv(Next(s, CreatePop(th)), NextLog(s, l, CreatePop(th)))
  {
    var t := s.table;
    if t.free != [] {
      var i, rest := t.free[|t.free| - 1], t.free[..|t.free| - 1];
      assert t.free == rest + [i];
      NoDupSplit(rest, [i]);
      assert i in t.free && PlaceOk(s, l, i);
      var s', l' := Next(s, CreatePop(th)), NextLog(s, l, CreatePop(th));
      assert PlaceOk(s', l', i);
      OtherPlacesOk(s, l, s', l', i, th);
      forall j: nat | j < |t.slots| ensures SlotOk(s'.table, j, l'.bumps[j]) {
        assert SlotOk(t, j, l.bumps[j]);
      }
    }
  }

  /** Filling a popped slot gives out the next ID of that slot. */
  lemma FillKeeps(s: State, l: Log, th: nat)
    requires Inv(s, l) && Enabled(s, CreateFill(th))
    ensures Inv(Next(s, CreateFill(th)), NextLog(s, l, CreateFill(th)))
    ensures var i := s.pend[th].idx; Next(s, CreateFill(th)).table.slots[i].id == IdOf(i, l.bumps[i] / 2)
  {
    var i := s.pend[th].idx;
    var s', l' := Next(s, CreateFill(th)), NextLog(s, l, CreateFill(th));
    assert PlaceOk(s, l, i) && SlotOk(s.table, i, l.bumps[i]);
    Parity(l.bumps[i]);
    SlotFilled(s.table, i, l.bumps[i] / 2);
    OtherSlotsOk(s.table, l.bumps, s'.table, i);
    assert PlaceOk(s', l', i);
    OtherPlacesOk(s, l, s', l', i, th);
  }

  /** Threads that hold no index may come and go. */
  lemma VisitorKeeps(s: State, l: Log, s': State, th: nat)
    requires Inv(s, l) && s'.table == s.table && Bounded(s') && s'.pend - {th} == s.pend - {th}
    requires (th in s.pend ==> !Holding(s.pend[th])) && (th in s'.pend ==> !Holding(s'.pend[th]))
    ensures Inv(s', l)
  {
    assert forall h: nat :: h != th && h in s.pend ==> h in s.pend - {th} && (s.pend - {th})[h] == s.pend[h];
    assert forall h: nat :: h != th && h in s'.pend ==> h in s'.pend - {th} && (s'.pend - {th})[h] == s'.pend[h];
    forall j: nat | j < |s.table.slots| ensures PlaceOk(s', l, j) {
      assert PlaceOk(s, l, j);
    }
  }

  lemma TestKeeps(s: State, l: Log, th: nat, id: nat)
    requires Inv(s, l) && th !in s.pend
    ensures Inv(Next(s, DestroyTest(th, id)), l) && Inv(Next(s, CallTest(th, id)), l)
  {
    VisitorKeeps(s, l, Next(s, DestroyTest(th, id)), th);
    VisitorKeeps(s, l, Next(s, CallTest(th, id)), th);
  }

  lemma EnterKeeps(s: State, l: Log, th: nat)
    requires Inv(s, l) && Enabled(s, CallEnter(th)) && s.table.slots[s.pend[th].idx].live
    ensures Inv(Next(s, CallEnter(th)), l)
  {
    var s' := Next(s, CallEnter(th));
    assert s'.table.slots == s.table.slots;
    VisitorKeeps(s, l, s', th);
  }

  lemma WipeKeeps(s: State, l: Log, th: nat)
    requires Inv(s, l) && Enabled(s, DestroyWipe(th)) && s.table.slots[s.pend[th].idx].live
    ensures Inv(Next(s, DestroyWipe(th)), NextLog(s, l, DestroyWipe(th)))
  {
    var i := s.pend[th].idx;
    var s', l' := Next(s, DestroyWipe(th)), NextLog(s, l, DestroyWipe(th));
    assert PlaceOk(s, l, i) && SlotOk(s.table, i, l.bumps[i]);
    SlotWiped(s.table, i, l.bumps[i]);
    OtherSlotsOk(s.table, l.bumps, s'.table, i);
    assert PlaceOk(s', l', i);
    OtherPlacesOk(s, l, s', l', i, th);
  }

  lemma PushKeeps(s: State, l: Log, th: nat)
    requires Inv(s, l) && Enabled(s, DestroyPush(th))
    ensures Inv(Next(s, DestroyPush(th)), NextLog(s, l, DestroyPush(th)))
    ensures |s.table.free| < |s.table.slots|
  {
    var i := s.pend[th].idx;
    var s', l' := Next(s, DestroyPush(th)), NextLog(s, l, DestroyPush(th));
    assert PlaceOk(s, l, i);
    NoDupJoin(s.table.free, [i]);
    DistinctBelow(s'.table.free, |s.table.slots|);
    assert i in [i] && i in s'.table.free;
    assert PlaceOk(s', l', i);
    OtherPlacesOk(s, l, s', l', i, th);
    forall j: nat | j < |s.table.slots| ensures SlotOk(s'.table, j, l'.bumps[j]) {
      assert SlotOk(s.table, j, l.bumps[j]);
    }
  }

  /** Some account of the table puts every index in exactly one place. */
  ghost predicate Sound(s: State) {
    exists l: Log :: Inv(s, l)
  }

  /** The step is the locked part of a call that was admitted by an unlocked test. */
  predicate Acts(mv: Move) {
    mv.DestroyWipe? || mv.CallEnter?
  }

  /** What the code leaves to its callers: the slot that a destroy, send or receive tested is
      in use, by whatever endpoint, when its lock is taken. */
  predicate FindsLive(s: State, mv: Move)
    requires Enabled(s, mv)
  {
    Acts(mv) ==> s.pend[mv.th].idx < |s.table.slots| && s.table.slots[s.pend[mv.th].idx].live
  }

  lemma HeldOffStack(s: State, l: Log, th: nat)
    requires th in s.pend && Holding(s.pend[th])
    ensures PlacesOk(s, l) ==> s.pend[th].idx !in s.table.free
  {
    if PlacesOk(s, l) {
      assert PlaceOk(s, l, s.pend[th].idx);
    }
  }

  lemma HeldOnce(s: State, l: Log, th: nat, h: nat)
    requires th in s.pend && Holding(s.pend[th]) && h in s.pend && Holding(s.pend[h])
    requires s.pend[th].idx == s.pend[h].idx
    ensures PlacesOk(s, l) ==> th == h
  {
    if PlacesOk(s, l) {
      assert l.place[s.pend[th].idx] == HeldBy(th);
    }
  }

  /** A send or receive on a slot that is not in use leaves it in use and yet on the stack or
      with a thread. */
  lemma LateEnterBreaks(s: State, l: Log, th: nat, l': Log)
    requires Inv(s, l) && Enabled(s, CallEnter(th)) && !s.table.slots[s.pend[th].idx].live
    ensures !Inv(Next(s, CallEnter(th)), l')
  {
    var i, s' := s.pend[th].idx, Next(s, CallEnter(th));
    assert PlaceOk(s, l, i);
    if l.place[i].HeldBy? {
      HeldNotLive(s', l', l.place[i].th);
    } else {
      FreeNotLive(s', l', i);
    }
  }

  lemma HeldNotLive(s: State, l: Log, th: nat)
    requires th in s.pend && Holding(s.pend[th]) && Bounded(s)
    ensures PlacesOk(s, l) ==> !s.table.slots[s.pend[th].idx].live
  {
    if PlacesOk(s, l) {
      assert PlaceOk(s, l, s.pend[th].idx);
    }
  }

  lemma FreeNotLive(s: State, l: Log, i: nat)
    requires i in s.table.free && i < |s.table.slots|
    ensures PlacesOk(s, l) ==> !s.table.slots[i].live
  {
    if PlacesOk(s, l) {
      assert PlaceOk(s, l, i);
    }
  }

  lemma LateWipeBreaks(s: State, l: Log, th: nat, l': Log)
    requires Inv(s, l) && Enabled(s, DestroyWipe(th)) && !s.table.slots[s.pend[th].idx].live
    ensures !Inv(Next(s, DestroyWipe(th)), l')
  {
    var i, s' := s.pend[th].idx, Next(s, DestroyWipe(th));
    assert PlaceOk(s, l, i);
    HeldOffStack(s', l', th);
    if l.place[i].HeldBy? {
      HeldOnce(s', l', th, l.place[i].th);
    }
  }

  /** A step keeps each index in one place exactly when it is not the locked part of a call
      on a slot that is no longer in use. */
  lemma KeepsSoundIff(s: State, l: Log, mv: Move)
    requires Inv(s, l) && Enabled(s, mv)
    ensures Sound(Next(s, mv)) <==> FindsLive(s, mv)
    ensures FindsLive(s, mv) ==> Inv(Next(s, mv), NextLog(s, l, mv))
  {
    match mv
    case CreatePop(th) => PopKeeps(s, l, th);
    case CreateFill(th) => FillKeeps(s, l, th);
    case DestroyTest(th, id) => TestKeeps(s, l, th, id);
    case DestroyWipe(th) =>
      if FindsLive(s, mv) {
        WipeKeeps(s, l, th);
      } else {
        forall l': Log ensures !Inv(Next(s, mv), l') {
          LateWipeBreaks(s, l, th, l');
        }
      }
    case DestroyPush(th) => PushKeeps(s, l, th);
    case CallTest(th, id) => TestKeeps(s, l, th, id);
    case CallEnter(th) =>
      if FindsLive(s, mv) {
        EnterKeeps(s, l, th);
      } else {
        forall l': Log ensures !Inv(Next(s, mv), l') {
          LateEnterBreaks(s, l, th, l');
        }
      }
  }

  /** A creation that nobody interrupts gives out the next ID of the slot on top of the
      stack. */
  lemma CreateInv(s: State, l: Log, th: nat)
    requires Inv(s, l) && th !in s.pend
    ensures s.table.free == [] ==> Create(s.table) == (s.table, None)
    ensures s.table.free != [] ==>
      var idx := s.table.free[|s.table.free| - 1];
      && idx < |l.bumps| && Create(s.table).1 == Some(IdOf(idx, l.bumps[idx] / 2))
      && Inv(State(Create(s.table).0, s.pend), Log(l.bumps[idx := l.bumps[idx] + 1], l.place[idx := InUse]))
  {
    if s.table.free != [] {
      var idx := s.table.free[|s.table.free| - 1];
      PopKeeps(s, l, th);
      var s1, l1 := Next(s, CreatePop(th)), NextLog(s, l, CreatePop(th));
      FillKeeps(s1, l1, th);
      assert Next(s1, CreateFill(th)).pend == s.pend;
      assert l.place[idx := HeldBy(th)][idx := InUse] == l.place[idx := InUse];
    }
  }

  /** A destruction that nobody interrupts: exactly the IDs that resolve are destroyed, and
      the index goes back on the stack. */
  lemma DestroyInv(s: State, l: Log, th: nat, id: nat)
    requires Inv(s, l) && th !in s.pend
    ensures
      match Resolve(s.table, id)
      case None => Destroy(s.table, id) == (s.table, false)
      case Some(idx) =>
        && Destroy(s.table, id).1 && idx < |l.bumps| && Resolve(Destroy(s.table, id).0, id) == None
        && Inv(State(Destroy(s.table, id).0, s.pend), Log(l.bumps[idx := l.bumps[idx] + 1], l.place[idx := OnStack]))
  {
    if Resolve(s.table, id).Some? {
      var idx := Resolve(s.table, id).value;
      TestKeeps(s, l, th, id);
      var s1 := Next(s, DestroyTest(th, id));
      WipeKeeps(s1, l, th);
      var s2, l2 := Next(s1, DestroyWipe(th)), NextLog(s1, l, DestroyWipe(th));
      PushKeeps(s2, l2, th);
      assert Next(s2, DestroyPush(th)).pend == s.pend;
      assert l.place[idx := HeldBy(th)][idx := OnStack] == l.place[idx := OnStack];
    }
  }

  // ---------------------------------------------------------------------------
  // Runs
  // ---------------------------------------------------------------------------

  function InitTable(n: nat): Table {
    Table(seq(n, _ => Slot(0, ID_INVALID, false)), seq(n, i requires 0 <= i < n => n - 1 - i))
  }

  ghost predicate Run(n: nat, ss: seq<State>, mvs: seq<Move>) {
    && n <= HALF && |ss| == |mvs| + 1
    && ss[0] == State(InitTable(n), map[])
    && forall k: nat :: k < |mvs| ==> Bounded(ss[k]) && Enabled(ss[k], mvs[k]) && ss[k + 1] == Next(ss[k], mvs[k])
  }

  lemma InitInv(n: nat)
    requires n <= HALF
    ensures Inv(State(InitTable(n), map[]), Log(seq(n, _ => 0), seq(n, _ => OnStack)))
  {
    var s, l := State(InitTable(n), map[]), Log(seq(n, _ => 0), seq(n, _ => OnStack));
    forall i: nat | i < n ensures SlotOk(s.table, i, 0) && PlaceOk(s, l, i) {
      assert s.table.free[n - 1 - i] == i;
    }
  }

  /** In every state of every run in which the locked parts find their slots in use, be it by
      another endpoint, each index is in one place and the IDs of live endpoints are exactly
      those accepted. */
  lemma {:induction false} IdsInEveryRun(n: nat, ss: seq<State>, mvs: seq<Move>, k: nat) returns (l: Log)
    requires Run(n, ss, mvs) && k <= |mvs|
    requires forall j: nat :: j < |mvs| ==> FindsLive(ss[j], mvs[j])
    ensures Inv(ss[k], l)
    ensures forall id: nat, i: nat :: id < HALF * HALF && i < |ss[k].table.slots| ==>
              (Resolve(ss[k].table, id) == Some(i) <==> ss[k].table.slots[i].live && ss[k].table.slots[i].id == id)
  {
    if k == 0 {
      InitInv(n);
      l := Log(seq(n, _ => 0), seq(n, _ => OnStack));
    } else {
      var l0 := IdsInEveryRun(n, ss, mvs, k - 1);
      KeepsSoundIff(ss[k - 1], l0, mvs[k - 1]);
      l := NextLog(ss[k - 1], l0, mvs[k - 1]);
    }
    var t := ss[k].table;
    forall id: nat, i: nat | id < HALF * HALF && i < |t.slots|
      ensures Resolve(t, id) == Some(i) <==> t.slots[i].live && t.slots[i].id == id
    {
      ResolveExact(t, l.bumps, id, i);
    }
  }

  // ---------------------------------------------------------------------------
  // The arrays behind the table
  // ---------------------------------------------------------------------------

  class EndpointTable {
    const slots: array<Slot>
    const stack: array<nat>
    var freeCount: nat

    ghost predicate Valid()
      reads this, stack
    {
      && slots.Length == stack.Length && freeCount <= stack.Length
      && forall k :: 0 <= k < freeCount ==> stack[k] < slots.Length
    }

    ghost function View(): Table
      requires freeCount <= stack.Length
      reads this, slots, stack
    {
      Table(slots[..], stack[..freeCount])
    }

    /** ipc_endpoint_subsys_init. */
    constructor (n: nat)
      ensures Valid() && View() == InitTable(n) && fresh(slots) && fresh(stack)
    {
      slots := new Slot[n](_ => Slot(0, ID_INVALID, false));
      stack := new nat[n];
      freeCount := n;
      new;
      for i := 0 to n
        invariant slots.Length == stack.Length == n == freeCount
        invariant forall k :: 0 <= k < n ==> slots[k] == Slot(0, ID_INVALID, false)
        invariant forall k :: 0 <= k < i ==> stack[k] == n - 1 - k
      {
        stack[i] := n - 1 - i;
      }
    }

    /** get_endpoint followed by endpoint_is_valid. */
    method Lookup(id: nat) returns (r: Option<nat>)
      requires Valid()
      ensures r == Resolve(View(), id)
    {
      if id == ID_INVALID {
        return None;
      }
      var idx := id % HALF;
      if idx >= slots.Length || slots[idx].generation != id / HALF % HALF || !slots[idx].live {
        return None;
      }
      return Some(idx);
    }

    /** alloc_endpoint_index. */
    method PopIndex() returns (r: Option<nat>)
      requires Valid()
      modifies this`freeCount
      ensures Valid()
      ensures if old(View()).free == [] then r == None && View() == old(View())
              else r == Some(old(View()).free[old(freeCount) - 1]) && View() == Popped(old(View()))
    {
      if freeCount == 0 {
        return None;
      }
      freeCount := freeCount - 1;
      assert stack[..freeCount] == old(stack[..freeCount])[..freeCount];
      r := Some(stack[freeCount]);
    }

    /** free_endpoint_index, which tests nothing: the stack must have room. */
    method PushIndex(idx: nat)
      requires Valid() && idx < slots.Length && freeCount < stack.Length
      modifies this`freeCount, stack
      ensures Valid() && View() == Pushed(old(View()), idx)
    {
      stack[freeCount] := idx;
      freeCount := freeCount + 1;
      assert stack[..freeCount] == old(stack[..freeCount]) + [idx];
    }

    /** The rest of ipc_endpoint_create, on a popped index. */
    method FillSlot(idx: nat) returns (id: nat)
      requires Valid() && idx < slots.Length
      modifies slots
      ensures Valid() && View() == Filled(old(View()), idx) && id == slots[idx].id
    {
      var g := (slots[idx].generation + 1) % HALF;
      if g == 0 {
        g := 1;
      }
      slots[idx] := Slot(g, g * HALF + idx, true);
      id := g * HALF + idx;
    }

    /** The locked part of ipc_endpoint_destroy. */
    method WipeSlot(idx: nat)
      requires Valid() && idx < slots.Length
      modifies slots
      ensures Valid() && View() == Wiped(old(View()), idx)
    {
      var g := (slots[idx].generation + 1) % HALF;
      if g == 0 {
        g := 1;
      }
      slots[idx] := Slot(g, ID_INVALID, false);
    }

    /** ipc_endpoint_create with no other thread in between. */
    method CreateEndpoint() returns (r: Option<nat>)
      requires Valid()
      modifies this, slots
      ensures Valid() && (View(), r) == Create(old(View()))
    {
      var idx := PopIndex();
      if idx.None? {
        return None;
      }
      var id := FillSlot(idx.value);
      r := Some(id);
    }

    /** ipc_endpoint_destroy with no other thread in between. */
    method DestroyEndpoint(id: nat, ghost pend: map<nat, Pending>, ghost l: Log) returns (ok: bool)
      requires Valid() && Inv(State(View(), pend), l)
      modifies this, slots, stack
      ensures Valid() && (View(), ok) == Destroy(old(View()), id)
    {
      var found := Lookup(id);
      if found.None? {
        return false;
      }
      RoomToFree(State(View(), pend), l, found.value);
      WipeSlot(found.value);
      PushIndex(found.value);
      ok := true;
    }
  }

  /** While an endpoint is live the free stack has room for its index. */
  lemma RoomToFree(s: State, l: Log, idx: nat)
    requires Inv(s, l) && idx < |s.table.slots| && s.table.slots[idx].live
    ensures |s.table.free| < |s.table.slots|
  {
    assert PlaceOk(s, l, idx);
    NoDupJoin(s.table.free, [idx]);
    DistinctBelow(s.table.free + [idx], |s.table.slots|);
  }
}
