/**
 Interrupt handler registration (kernel/irq/irq.c): a table of interrupt lines, each with a
 list of handler entries drawn from one fixed pool.
 */
module Irq {
  import opened Lists

  const NULL_PTR: nat := 0
  const ID_INVALID: nat := 0
  const WORD: nat := 0x1_0000_0000

  datatype Status = Ok | EInval | EBusy | ENoMem

  datatype Entry = Entry(attachId: nat, shared: bool, handler: nat, arg: nat, notification: nat)

  datatype Line = Line(irq: nat, inUse: bool, masked: bool, handlers: seq<nat>)

  datatype Irqs = Irqs(lines: seq<Line>, entries: seq<Entry>, free: seq<nat>, nextId: nat, enabled: seq<bool>)

  datatype Attached = Id(id: nat) | Refused(status: Status)

  /** What irq_detach_by_id and irq_detach_by_handler look for. */
  datatype Key = ById(id: nat) | ByHandler(handler: nat, arg: nat)

  const RESET: Line := Line(0, false, false, [])

  function InitIrqs(lines: nat, entries: nat): Irqs {
    Irqs(seq(lines, _ => RESET), seq(entries, _ => Entry(ID_INVALID, false, NULL_PTR, NULL_PTR, ID_INVALID)),
         seq(entries, e => e), 1, seq(lines, _ => false))
  }

  predicate HandlersInPool(s: Irqs, i: nat)
    requires i < |s.lines|
  {
    forall k :: 0 <= k < |s.lines[i].handlers| ==> s.lines[i].handlers[k] < |s.entries|
  }

  /** Indices stay inside the arrays. */
  predicate Shaped(s: Irqs) {
    && |s.enabled| == |s.lines|
    && (forall i: nat {:trigger HandlersInPool(s, i)} :: i < |s.lines| ==> HandlersInPool(s, i))
    && (forall k :: 0 <= k < |s.free| ==> s.free[k] < |s.entries|)
  }

  // ---------------------------------------------------------------------------
  // The calls
  // ---------------------------------------------------------------------------

  predicate Clashes(e: Entry, arg: nat) {
    !e.shared || e.arg == arg
  }

  /** irq_check_shared_contract. */
  function Contract(s: Irqs, i: nat, shared: bool, arg: nat): Status
    requires i < |s.lines| && HandlersInPool(s, i)
  {
    var h := s.lines[i].handlers;
    if !s.lines[i].inUse then Ok
    else if !shared then EBusy
    else if arg == NULL_PTR then EInval
    else if exists k :: 0 <= k < |h| && Clashes(s.entries[h[k]], arg) then EBusy
    else Ok
  }

  function AttachTo(s: Irqs, i: nat, e: Entry): Irqs
    requires i < |s.lines| == |s.enabled| && s.free != [] && s.free[0] < |s.entries|
  {
    var line := s.lines[i];
    var h := line.handlers + [s.free[0]];
    s.(entries := s.entries[s.free[0] := e.(attachId := s.nextId)], free := s.free[1..],
       nextId := (s.nextId + 1) % WORD,
       lines := s.lines[i := if line.inUse then line.(handlers := h) else Line(i, true, false, h)],
       enabled := if line.inUse then s.enabled else s.enabled[i := true])
  }

  function Attach(s: Irqs, i: nat, e: Entry): (Irqs, Attached)
    requires Shaped(s)
  {
    if i >= |s.lines| || (e.handler == NULL_PTR && e.notification == ID_INVALID) then (s, Refused(EInval))
    else
      assert HandlersInPool(s, i);
      if Contract(s, i, e.shared, e.arg) != Ok then (s, Refused(Contract(s, i, e.shared, e.arg)))
      else if s.free == [] then (s, Refused(ENoMem))
      else (AttachTo(s, i, e), Id(s.nextId))
  }

  predicate KeyUsable(key: Key) {
    match key
    case ById(id) => id != ID_INVALID
    case ByHandler(handler, _) => handler != NULL_PTR
  }

  predicate Matches(e: Entry, key: Key) {
    match key
    case ById(id) => e.attachId == id
    case ByHandler(handler, arg) => e.handler == handler && e.arg == arg
  }

  /** The first position from k on whose entry matches, or the length of the list. */
  function FirstMatch(entries: seq<Entry>, h: seq<nat>, key: Key, k: nat): (r: nat)
    requires k <= |h| && forall j :: 0 <= j < |h| ==> h[j] < |entries|
    ensures k <= r <= |h| && (r < |h| ==> Matches(entries[h[r]], key))
    ensures forall j :: k <= j < r ==> !Matches(entries[h[j]], key)
    decreases |h| - k
  {
    if k == |h| || Matches(entries[h[k]], key) then k else FirstMatch(entries, h, key, k + 1)
  }

  /** irq_entry_free clears everything but the flags. */
  function Cleared(e: Entry): Entry {
    Entry(ID_INVALID, e.shared, NULL_PTR, NULL_PTR, ID_INVALID)
  }

  function Disabled(enabled: seq<bool>, line: nat): seq<bool> {
    if line < |enabled| then enabled[line := false] else enabled
  }

  function WithoutAt(h: seq<nat>, k: nat): seq<nat>
    requires k < |h|
  {
    h[..k] + h[k + 1..]
  }

  function DetachAt(s: Irqs, i: nat, k: nat): Irqs
    requires i < |s.lines| && k < |s.lines[i].handlers| && s.lines[i].handlers[k] < |s.entries|
  {
    var line := s.lines[i];
    var e, h := line.handlers[k], WithoutAt(line.handlers, k);
    s.(entries := s.entries[e := Cleared(s.entries[e])], free := s.free + [e],
       lines := s.lines[i := if h == [] then RESET else line.(handlers := h)],
       enabled := if h == [] then Disabled(s.enabled, line.irq) else s.enabled)
  }

  function Detach(s: Irqs, i: nat, key: Key): (Irqs, Status)
    requires Shaped(s)
  {
    if i >= |s.lines| || !KeyUsable(key) || !s.lines[i].inUse then (s, EInval)
    else
      assert HandlersInPool(s, i);
      var k := FirstMatch(s.entries, s.lines[i].handlers, key, 0);
      if k == |s.lines[i].handlers| then (s, EInval) else (DetachAt(s, i, k), Ok)
  }

  /** Every listed entry cleared, the others as they were. */
  function ClearAll(entries: seq<Entry>, h: seq<nat>): (r: seq<Entry>)
    ensures |r| == |entries|
    ensures forall e: nat :: e < |entries| ==> r[e] == if e in h then Cleared(entries[e]) else entries[e]
  {
    seq(|entries|, e requires 0 <= e < |entries| => if e in h then Cleared(entries[e]) else entries[e])
  }

  function DetachAll(s: Irqs, i: nat): (Irqs, Status)
    requires |s.enabled| == |s.lines|
  {
    if i >= |s.lines| || !s.lines[i].inUse then (s, EInval)
    else
      var h := s.lines[i].handlers;
      (s.(entries := ClearAll(s.entries, h), free := s.free + h, lines := s.lines[i := RESET],
          enabled := s.enabled[i := false]), Ok)
  }

  /** irq_mask and irq_unmask. */
  function SetMask(s: Irqs, i: nat, masked: bool): (Irqs, Status)
    requires |s.enabled| == |s.lines|
  {
    if i >= |s.lines| || !s.lines[i].inUse then (s, EInval)
    else (s.(lines := s.lines[i := s.lines[i].(masked := masked)], enabled := s.enabled[i := !masked]), Ok)
  }

  // ---------------------------------------------------------------------------
  // Invariants
  // ---------------------------------------------------------------------------

  /** Entry e sits in the list of line `owner[e]`, or in the free list when that is -1. */
  ghost predicate FreeHolds(s: Irqs, owner: seq<int>) {
    && |owner| == |s.entries| && NoDup(s.free)
    && forall e: nat :: e in s.free <==> e < |owner| && owner[e] == -1
  }

  ghost predicate LineHolds(s: Irqs, owner: seq<int>, i: nat)
    requires i < |s.lines|
  {
    && NoDup(s.lines[i].handlers)
    && forall e: nat :: e in s.lines[i].handlers <==> e < |owner| && owner[e] == i
  }

  /** Each entry of the pool is free or in exactly one list, once. */
  ghost predicate Partition(s: Irqs, owner: seq<int>) {
    && FreeHolds(s, owner)
    && forall i: nat {:trigger LineHolds(s, owner, i)} :: i < |s.lines| ==> LineHolds(s, owner, i)
  }

  ghost predicate MemberOk(s: Irqs, h: seq<nat>, k: nat)
    requires k < |h| && h[k] < |s.entries|
  {
    var e := s.entries[h[k]];
    && (e.handler != NULL_PTR || e.notification != ID_INVALID)
    && (|h| >= 2 ==> e.shared) && (k > 0 ==> e.arg != NULL_PTR)
  }

  /** Several handlers on a line all agreed to share it, and their arguments tell them apart. */
  ghost predicate Sharing(s: Irqs, h: seq<nat>)
    requires forall k :: 0 <= k < |h| ==> h[k] < |s.entries|
  {
    && (forall k: nat {:trigger MemberOk(s, h, k)} :: k < |h| ==> MemberOk(s, h, k))
    && forall j, k :: 0 <= j < k < |h| ==> s.entries[h[j]].arg != s.entries[h[k]].arg
  }

  /** A line is in use exactly while it has handlers, and the controller delivers it exactly
      while it is in use and not masked. */
  ghost predicate LineOk(s: Irqs, i: nat)
    requires i < |s.lines| == |s.enabled| && HandlersInPool(s, i)
  {
    var line := s.lines[i];
    && line.inUse == (line.handlers != [])
    && (if line.inUse then line.irq == i else line == RESET)
    && s.enabled[i] == (line.inUse && !line.masked)
    && Sharing(s, line.handlers)
  }

  ghost predicate LinesOk(s: Irqs) {
    Shaped(s) && forall i: nat {:trigger LineOk(s, i)} :: i < |s.lines| ==> HandlersInPool(s, i) && LineOk(s, i)
  }

  /** Entries in use carry distinct ids below the next one; free entries carry none. */
  ghost predicate IdsOk(s: Irqs) {
    && 1 <= s.nextId
    && (forall e: nat :: e < |s.entries| ==> s.entries[e].attachId < s.nextId)
    && (forall e: nat :: e < |s.entries| ==> (s.entries[e].attachId == ID_INVALID <==> e in s.free))
    && forall d: nat, e: nat :: d < e < |s.entries| && s.entries[d].attachId == s.entries[e].attachId ==>
          s.entries[d].attachId == ID_INVALID
  }

  lemma InitOk(lines: nat, entries: nat)
    ensures LinesOk(InitIrqs(lines, entries)) && IdsOk(InitIrqs(lines, entries))
    ensures Partition(InitIrqs(lines, entries), seq(entries, _ => -1))
  {
    var s := InitIrqs(lines, entries);
    forall e: nat | e < entries ensures e in s.free {
      assert s.free[e] == e;
    }
  }

  lemma AttachPartition(s: Irqs, owner: seq<int>, i: nat, e: Entry)
    requires Shaped(s) && Partition(s, owner) && i < |s.lines| && s.free != []
    ensures Shaped(AttachTo(s, i, e)) && Partition(AttachTo(s, i, e), owner[s.free[0] := i])
  {
    var x, s', owner' := s.free[0], AttachTo(s, i, e), owner[s.free[0] := i];
    assert s.free == [x] + s.free[1..];
    NoDupSplit([x], s.free[1..]);
    assert FreeHolds(s', owner');
    forall j: nat | j < |s.lines| ensures HandlersInPool(s', j) && LineHolds(s', owner', j) {
      assert HandlersInPool(s, j) && LineHolds(s, owner, j);
      NoDupJoin(s.lines[j].handlers, [x]);
    }
  }

  lemma AttachLinesOk(s: Irqs, owner: seq<int>, i: nat, e: Entry)
    requires LinesOk(s) && Partition(s, owner) && Attach(s, i, e).1.Id?
    ensures LinesOk(Attach(s, i, e).0)
  {
    var x, s' := s.free[0], AttachTo(s, i, e);
    AttachPartition(s, owner, i, e);
    forall j: nat | j < |s.lines| ensures HandlersInPool(s', j) && LineOk(s', j) {
      assert HandlersInPool(s, j) && LineOk(s, j) && LineHolds(s, owner, j) && HandlersInPool(s', j);
      assert x in s.free && x !in s.lines[j].handlers;
      var h, h' := s.lines[j].handlers, s'.lines[j].handlers;
      forall k: nat | k < |h'| ensures MemberOk(s', h', k) {
        assert k < |h| ==> MemberOk(s, h, k);
      }
    }
  }

  lemma AttachIdsOk(s: Irqs, i: nat, e: Entry)
    requires Shaped(s) && IdsOk(s) && NoDup(s.free) && Attach(s, i, e).1.Id? && s.nextId + 1 < WORD
    ensures IdsOk(Attach(s, i, e).0)
  {
    assert s.free == [s.free[0]] + s.free[1..];
    NoDupSplit([s.free[0]], s.free[1..]);
  }

  lemma DetachPartition(s: Irqs, owner: seq<int>, i: nat, k: nat)
    requires Shaped(s) && Partition(s, owner) && i < |s.lines| && k < |s.lines[i].handlers|
    requires s.lines[i].handlers[k] < |s.entries|
    ensures Shaped(DetachAt(s, i, k)) && Partition(DetachAt(s, i, k), owner[s.lines[i].handlers[k] := -1])
  {
    var h := s.lines[i].handlers;
    var x, s', owner' := h[k], DetachAt(s, i, k), owner[h[k] := -1];
    assert HandlersInPool(s, i) && LineHolds(s, owner, i);
    assert x in h;
    NoDupJoin(s.free, [x]);
    assert FreeHolds(s', owner');
    SplitAt(h, k);
    forall j: nat | j < |s.lines| ensures HandlersInPool(s', j) && LineHolds(s', owner', j) {
      assert HandlersInPool(s, j) && LineHolds(s, owner, j);
    }
  }

  lemma SplitAt(h: seq<nat>, k: nat)
    requires NoDup(h) && k < |h|
    ensures NoDup(WithoutAt(h, k))
    ensures forall e: nat :: e in WithoutAt(h, k) <==> e in h && e != h[k]
  {
    var r := WithoutAt(h, k);
    forall e: nat ensures e in r <==> e in h && e != h[k] {
      if e in h && e != h[k] {
        var j :| 0 <= j < |h| && h[j] == e;
        assert r[if j < k then j else j - 1] == e;
      }
    }
  }

  lemma DetachLinesOk(s: Irqs, owner: seq<int>, i: nat, k: nat)
    requires LinesOk(s) && Partition(s, owner) && i < |s.lines| && k < |s.lines[i].handlers|
    requires s.lines[i].handlers[k] < |s.entries|
    ensures LinesOk(DetachAt(s, i, k))
  {
    var x, s' := s.lines[i].handlers[k], DetachAt(s, i, k);
    DetachPartition(s, owner, i, k);
    assert LineHolds(s, owner, i) && x in s.lines[i].handlers && LineOk(s, i);
    forall j: nat | j < |s.lines| ensures HandlersInPool(s', j) && LineOk(s', j) {
      assert HandlersInPool(s, j) && LineOk(s, j) && LineHolds(s, owner, j) && HandlersInPool(s', j);
      var h, h' := s.lines[j].handlers, s'.lines[j].handlers;
      SharingShrinks(s, s', h, h', if j == i then k else |h|);
    }
  }

  /** Dropping one member, whose entry alone may change, keeps the sharing contract. */
  lemma SharingShrinks(s: Irqs, s': Irqs, h: seq<nat>, h': seq<nat>, k: nat)
    requires forall j :: 0 <= j < |h| ==> h[j] < |s.entries|
    requires Sharing(s, h) && NoDup(h) && |s'.entries| == |s.entries|
    requires h' == if k < |h| then WithoutAt(h, k) else h
    requires forall j :: 0 <= j < |h| && j != k ==> s'.entries[h[j]] == s.entries[h[j]]
    ensures (forall j :: 0 <= j < |h'| ==> h'[j] < |s.entries|) && Sharing(s', h')
  {
    forall j: nat | j < |h'| ensures h'[j] < |s.entries| && MemberOk(s', h', j) {
      assert MemberOk(s, h, if j < k then j else j + 1);
    }
  }

  lemma DetachIdsOk(s: Irqs, i: nat, k: nat)
    requires IdsOk(s) && i < |s.lines| && k < |s.lines[i].handlers| && s.lines[i].handlers[k] < |s.entries|
    ensures IdsOk(DetachAt(s, i, k))
  {
  }

  function AllFreed(owner: seq<int>, i: nat): (r: seq<int>)
    ensures |r| == |owner| && forall e: nat :: e < |r| ==> r[e] == if owner[e] == i then -1 else owner[e]
  {
    seq(|owner|, e requires 0 <= e < |owner| => if owner[e] == i then -1 else owner[e])
  }

  lemma DetachAllPartition(s: Irqs, owner: seq<int>, i: nat)
    requires Shaped(s) && Partition(s, owner) && i < |s.lines| && s.lines[i].inUse
    ensures Shaped(DetachAll(s, i).0) && Partition(DetachAll(s, i).0, AllFreed(owner, i))
  {
    var h, s', owner' := s.lines[i].handlers, DetachAll(s, i).0, AllFreed(owner, i);
    assert HandlersInPool(s, i) && LineHolds(s, owner, i);
    NoDupJoin(s.free, h);
    assert FreeHolds(s', owner');
    forall j: nat | j < |s.lines| ensures HandlersInPool(s', j) && LineHolds(s', owner', j) {
      assert HandlersInPool(s, j) && LineHolds(s, owner, j);
    }
  }

  lemma DetachAllLinesOk(s: Irqs, owner: seq<int>, i: nat)
    requires LinesOk(s) && Partition(s, owner) && i < |s.lines| && s.lines[i].inUse
    ensures LinesOk(DetachAll(s, i).0)
  {
    var s' := DetachAll(s, i).0;
    DetachAllPartition(s, owner, i);
    assert LineHolds(s, owner, i);
    forall j: nat | j < |s.lines| ensures HandlersInPool(s', j) && LineOk(s', j) {
      assert HandlersInPool(s, j) && LineOk(s, j) && LineHolds(s, owner, j) && HandlersInPool(s', j);
      var h := s.lines[j].handlers;
      if j != i {
        SharingShrinks(s, s', h, h, |h|);
      }
    }
  }

  lemma SetMaskOk(s: Irqs, owner: seq<int>, i: nat, masked: bool)
    requires LinesOk(s) && Partition(s, owner)
    ensures LinesOk(SetMask(s, i, masked).0) && Partition(SetMask(s, i, masked).0, owner)
  {
    var s' := SetMask(s, i, masked).0;
    forall j: nat | j < |s.lines| ensures HandlersInPool(s', j) && LineOk(s', j) && LineHolds(s', owner, j) {
      assert HandlersInPool(s, j) && LineOk(s, j) && LineHolds(s, owner, j) && HandlersInPool(s', j);
      var h := s.lines[j].handlers;
      SharingShrinks(s, s', h, h, |h|);
    }
  }

  // ---------------------------------------------------------------------------
  // Attaching and detaching
  // ---------------------------------------------------------------------------

  /** The id that an attach returns, or the handler and argument that it was given. */
  predicate Names(s: Irqs, e: Entry, key: Key) {
    KeyUsable(key) && Matches(e.(attachId := s.nextId), key)
  }

  /** A new entry is found by its id, and by its handler and argument, behind all others. */
  lemma AttachedIsFound(s: Irqs, owner: seq<int>, i: nat, e: Entry, key: Key)
    requires LinesOk(s) && IdsOk(s) && Partition(s, owner) && Attach(s, i, e).1.Id? && Names(s, e, key)
    ensures
      var s1, h := AttachTo(s, i, e), s.lines[i].handlers + [s.free[0]];
      && (forall k :: 0 <= k < |h| ==> h[k] < |s1.entries|)
      && s1.lines[i].inUse && s1.lines[i].handlers == h
      && FirstMatch(s1.entries, h, key, 0) == |h| - 1
  {
    var x, s1, h := s.free[0], AttachTo(s, i, e), s.lines[i].handlers;
    assert HandlersInPool(s, i) && LineHolds(s, owner, i) && LineOk(s, i);
    assert x in s.free && x !in h;
    assert Matches(s1.entries[(h + [x])[|h|]], key);
    forall k | 0 <= k < |h| ensures !Matches(s1.entries[(h + [x])[k]], key) {
      assert h[k] in h && s1.entries[h[k]] == s.entries[h[k]] && !Clashes(s.entries[h[k]], e.arg);
    }
  }

  /** Taking out again the entry that was put last. */
  lemma BackAsBefore(s: Irqs, i: nat, e: Entry)
    requires i < |s.lines| == |s.enabled| && s.free != [] && s.free[0] < |s.entries|
    requires HandlersInPool(s, i) && LineOk(s, i)
    ensures
      var back := DetachAt(AttachTo(s, i, e), i, |s.lines[i].handlers|);
      && back.lines == s.lines && back.enabled == s.enabled
      && back.free == s.free[1..] + [s.free[0]] && |back.entries| == |s.entries|
      && forall d: nat :: d < |s.entries| && d != s.free[0] ==> back.entries[d] == s.entries[d]
  {
    var h := s.lines[i].handlers;
    assert WithoutAt(h + [s.free[0]], |h|) == h;
  }

  /** Detaching by the id that an attach returned, or by its handler and argument, undoes it:
      every line and the controller are as before, and the entry is back in the pool, last. */
  lemma DetachUndoesAttach(s: Irqs, owner: seq<int>, i: nat, e: Entry, key: Key)
    requires LinesOk(s) && IdsOk(s) && Partition(s, owner) && Attach(s, i, e).1.Id? && Names(s, e, key)
    ensures Shaped(Attach(s, i, e).0)
    ensures
      var (back, status) := Detach(Attach(s, i, e).0, i, key);
      && status == Ok && back.lines == s.lines && back.enabled == s.enabled
      && back.free == s.free[1..] + [s.free[0]] && |back.entries| == |s.entries|
      && forall d: nat :: d < |s.entries| && d != s.free[0] ==> back.entries[d] == s.entries[d]
  {
    var x, s1, h := s.free[0], AttachTo(s, i, e), s.lines[i].handlers;
    AttachPartition(s, owner, i, e);
    AttachedIsFound(s, owner, i, e, key);
    assert LineOk(s, i);
    BackAsBefore(s, i, e);
  }

  /** An id that has been detached is refused on every line. */
  lemma DetachedIdRefused(s: Irqs, owner: seq<int>, i: nat, id: nat, j: nat)
    requires LinesOk(s) && IdsOk(s) && Partition(s, owner) && Detach(s, i, ById(id)).1 == Ok
    ensures Shaped(Detach(s, i, ById(id)).0)
    ensures Detach(Detach(s, i, ById(id)).0, j, ById(id)).1 == EInval
  {
    assert HandlersInPool(s, i);
    var k := FirstMatch(s.entries, s.lines[i].handlers, ById(id), 0);
    var s1 := Detach(s, i, ById(id)).0;
    DetachPartition(s, owner, i, k);
    if j < |s1.lines| {
      assert HandlersInPool(s1, j);
      var r := FirstMatch(s1.entries, s1.lines[j].handlers, ById(id), 0);
    }
  }

  // ---------------------------------------------------------------------------
  // Runs
  // ---------------------------------------------------------------------------

  datatype Op =
    | OpAttach(i: nat, entry: Entry)
    | OpDetach(i: nat, key: Key)
    | OpDetachAll(i: nat)
    | OpSetMask(i: nat, masked: bool)

  function Step(s: Irqs, op: Op): Irqs
    requires Shaped(s)
  {
    match op
    case OpAttach(i, entry) => Attach(s, i, entry).0
    case OpDetach(i, key) => Detach(s, i, key).0
    case OpDetachAll(i) => DetachAll(s, i).0
    case OpSetMask(i, masked) => SetMask(s, i, masked).0
  }

  lemma StepOk(s: Irqs, owner: seq<int>, op: Op) returns (owner': seq<int>)
    requires LinesOk(s) && Partition(s, owner)
    ensures LinesOk(Step(s, op)) && Partition(Step(s, op), owner')
  {
    owner' := owner;
    match op
    case OpAttach(i, entry) =>
      if Attach(s, i, entry).1.Id? {
        AttachLinesOk(s, owner, i, entry);
        AttachPartition(s, owner, i, entry);
        owner' := owner[s.free[0] := i];
      }
    case OpDetach(i, key) =>
      if Detach(s, i, key).1 == Ok {
        assert HandlersInPool(s, i);
        var k := FirstMatch(s.entries, s.lines[i].handlers, key, 0);
        DetachLinesOk(s, owner, i, k);
        DetachPartition(s, owner, i, k);
        owner' := owner[s.lines[i].handlers[k] := -1];
      }
    case OpDetachAll(i) =>
      if DetachAll(s, i).1 == Ok {
        DetachAllLinesOk(s, owner, i);
        DetachAllPartition(s, owner, i);
        owner' := AllFreed(owner, i);
      }
    case OpSetMask(i, masked) =>
      SetMaskOk(s, owner, i, masked);
  }

  lemma StepIds(s: Irqs, op: Op)
    requires LinesOk(s) && IdsOk(s) && NoDup(s.free) && s.nextId + 1 < WORD
    ensures IdsOk(Step(s, op)) && Step(s, op).nextId <= s.nextId + 1
  {
    match op
    case OpAttach(i, entry) =>
      if Attach(s, i, entry).1.Id? {
        AttachIdsOk(s, i, entry);
      }
    case OpDetach(i, key) =>
      if Detach(s, i, key).1 == Ok {
        assert HandlersInPool(s, i);
        DetachIdsOk(s, i, FirstMatch(s.entries, s.lines[i].handlers, key, 0));
      }
    case OpDetachAll(i) =>
    case OpSetMask(i, masked) =>
  }

  ghost predicate Run(lines: nat, entries: nat, states: seq<Irqs>, ops: seq<Op>) {
    && |states| == |ops| + 1 && states[0] == InitIrqs(lines, entries)
    && forall k: nat :: k < |ops| ==> Shaped(states[k]) ==> states[k + 1] == Step(states[k], ops[k])
  }

  /** In every state of every run: the pool is partitioned, a line is in use exactly while it
      has handlers, it is delivered exactly while it is in use and unmasked, several handlers
      share a line only by agreement and are told apart by their arguments; and until the id
      counter wraps, ids are distinct. */
  lemma {:induction false} LinesInEveryRun(lines: nat, entries: nat, states: seq<Irqs>, ops: seq<Op>, k: nat)
    returns (owner: seq<int>)
    requires Run(lines, entries, states, ops) && k <= |ops|
    ensures LinesOk(states[k]) && Partition(states[k], owner)
    ensures k + 2 < WORD ==> IdsOk(states[k]) && states[k].nextId <= k + 1
  {
    if k == 0 {
      InitOk(lines, entries);
      owner := seq(entries, _ => -1);
    } else {
      owner := LinesInEveryRun(lines, entries, states, ops, k - 1);
      if k + 2 < WORD {
        StepIds(states[k - 1], ops[k - 1]);
      }
      owner := StepOk(states[k - 1], owner, ops[k - 1]);
    }
  }

  // ---------------------------------------------------------------------------
  // The arrays behind it
  // ---------------------------------------------------------------------------

  class IrqTable {
    const lines: array<Line>
    const entries: array<Entry>
    const enabled: array<bool>
    var free: seq<nat>
    var nextId: nat

    ghost function View(): Irqs
      reads this, lines, entries, enabled
    {
      Irqs(lines[..], entries[..], free, nextId, enabled[..])
    }

    /** irq_subsys_init. */
    constructor (lineCount: nat, entryCount: nat)
      ensures View() == InitIrqs(lineCount, entryCount)
      ensures fresh(lines) && fresh(entries) && fresh(enabled)
    {
      lines := new Line[lineCount](_ => RESET);
      entries := new Entry[entryCount](_ => Entry(ID_INVALID, false, NULL_PTR, NULL_PTR, ID_INVALID));
      enabled := new bool[lineCount](_ => false);
      free := [];
      nextId := 1;
      new;
      for e := 0 to entryCount
        invariant free == seq(e, k => k) && nextId == 1
        invariant lines[..] == seq(lineCount, _ => RESET) && enabled[..] == seq(lineCount, _ => false)
        invariant entries[..] == seq(entryCount, _ => Entry(ID_INVALID, false, NULL_PTR, NULL_PTR, ID_INVALID))
      {
        free := free + [e];
      }
    }

    method CheckContract(i: nat, shared: bool, arg: nat) returns (status: Status)
      requires Shaped(View()) && i < lines.Length && HandlersInPool(View(), i)
      ensures status == Contract(View(), i, shared, arg)
    {
      if !lines[i].inUse {
        return Ok;
      }
      if !shared {
        return EBusy;
      }
      if arg == NULL_PTR {
        return EInval;
      }
      var h := lines[i].handlers;
      for k := 0 to |h|
        invariant forall j :: 0 <= j < k ==> !Clashes(entries[h[j]], arg)
      {
        if !entries[h[k]].shared || entries[h[k]].arg == arg {
          assert Clashes(entries[h[k]], arg);
          return EBusy;
        }
      }
      return Ok;
    }

    method AttachHandler(i: nat, e: Entry) returns (r: Attached)
      requires Shaped(View())
      modifies this, lines, entries, enabled
      ensures (View(), r) == Attach(old(View()), i, e)
    {
      if i >= lines.Length || (e.handler == NULL_PTR && e.notification == ID_INVALID) {
        return Refused(EInval);
      }
      assert HandlersInPool(View(), i);
      var status := CheckContract(i, e.shared, e.arg);
      if status != Ok {
        return Refused(status);
      }
      if free == [] {
        return Refused(ENoMem);
      }
      var x, first := free[0], !lines[i].inUse;
      free := free[1..];
      r := Id(nextId);
      entries[x] := e.(attachId := nextId);
      nextId := (nextId + 1) % WORD;
      lines[i] := lines[i].(handlers := lines[i].handlers + [x]);
      if first {
        lines[i] := lines[i].(irq := i, inUse := true, masked := false);
        enabled[i] := true;
      }
      ghost var s' := AttachTo(old(View()), i, e);
      assert lines[..] == s'.lines && entries[..] == s'.entries && enabled[..] == s'.enabled;
    }

    method Find(h: seq<nat>, key: Key) returns (k: nat)
      requires forall j :: 0 <= j < |h| ==> h[j] < entries.Length
      ensures k == FirstMatch(entries[..], h, key, 0)
    {
      k := 0;
      while k < |h| && !Matches(entries[h[k]], key)
        invariant k <= |h| && FirstMatch(entries[..], h, key, 0) == FirstMatch(entries[..], h, key, k)
      {
        k := k + 1;
      }
    }

    /** irq_entry_free. */
    method FreeEntry(x: nat)
      requires x < entries.Length
      modifies this`free, entries
      ensures entries[..] == old(entries[..])[x := Cleared(old(entries[x]))] && free == old(free) + [x]
    {
      entries[x] := Cleared(entries[x]);
      free := free + [x];
    }

    method DetachHandler(i: nat, key: Key) returns (status: Status)
      requires Shaped(View())
      modifies this, lines, entries, enabled
      ensures (View(), status) == Detach(old(View()), i, key)
    {
      if i >= lines.Length || !KeyUsable(key) || !lines[i].inUse {
        return EInval;
      }
      assert HandlersInPool(View(), i);
      var h := lines[i].handlers;
      var k := Find(h, key);
      if k == |h| {
        return EInval;
      }
      var x := h[k];
      lines[i] := lines[i].(handlers := h[..k] + h[k + 1..]);
      FreeEntry(x);
      if lines[i].handlers == [] {
        if lines[i].irq < enabled.Length {
          enabled[lines[i].irq] := false;
        }
        lines[i] := RESET;
      }
      status := Ok;
      ghost var s' := DetachAt(old(View()), i, k);
      assert lines[..] == s'.lines && entries[..] == s'.entries && enabled[..] == s'.enabled;
    }

    method FreeEntries(h: seq<nat>)
      requires forall k :: 0 <= k < |h| ==> h[k] < entries.Length
      modifies this`free, entries
      ensures entries[..] == ClearAll(old(entries[..]), h) && free == old(free) + h
    {
      for k := 0 to |h|
        invariant free == old(free) + h[..k]
        invariant entries[..] == ClearAll(old(entries[..]), h[..k])
      {
        assert h[..k + 1] == h[..k] + [h[k]];
        FreeEntry(h[k]);
      }
      assert h[..|h|] == h;
    }

    method DetachEvery(i: nat) returns (status: Status)
      requires Shaped(View())
      modifies this, lines, entries, enabled
      ensures (View(), status) == DetachAll(old(View()), i)
    {
      if i >= lines.Length || !lines[i].inUse {
        return EInval;
      }
      assert HandlersInPool(View(), i);
      enabled[i] := false;
      FreeEntries(lines[i].handlers);
      lines[i] := RESET;
      status := Ok;
      ghost var s' := DetachAll(old(View()), i).0;
      assert lines[..] == s'.lines && enabled[..] == s'.enabled;
    }

    method Mask(i: nat, masked: bool) returns (status: Status)
      requires Shaped(View())
      modifies lines, enabled
      ensures (View(), status) == SetMask(old(View()), i, masked)
      ensures status == Ok <==> i < lines.Length && old(lines[i].inUse)
      ensures status == Ok ==> lines[i].masked == masked && enabled[i] == !masked
    {
      if i >= lines.Length || !lines[i].inUse {
        return EInval;
      }
      enabled[i] := !masked;
      lines[i] := lines[i].(masked := masked);
      status := Ok;
    }
  }
}
