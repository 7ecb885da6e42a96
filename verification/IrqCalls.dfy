/**
 What the interrupt calls do, in the terms of their callers: exactly when each succeeds and
 everything it changes, and over whole runs which lines are delivered and whose handler,
 argument and notification each entry carries.
 */
module IrqCalls {
  import opened Lists
  import opened Irq

  // ---------------------------------------------------------------------------
  // Masking
  // ---------------------------------------------------------------------------

  predicate InUse(s: Irqs, i: nat) {
    i < |s.lines| && s.lines[i].inUse
  }

  /** Every line but i, with its delivery, is as before. */
  ghost predicate OtherLines(s: Irqs, i: nat, s': Irqs) {
    && |s'.lines| == |s.lines| && |s'.enabled| == |s.enabled|
    && (forall j: nat :: j < |s.lines| && j != i ==> s'.lines[j] == s.lines[j])
    && (forall j: nat :: j < |s.enabled| && j != i ==> s'.enabled[j] == s.enabled[j])
  }

  /** irq_mask stops the delivery of a line in use and irq_unmask resumes it; handlers,
      entries, pool and ids stay. */
  lemma MaskExact(s: Irqs, i: nat)
    requires |s.enabled| == |s.lines|
    ensures
      var (m, status) := SetMask(s, i, true);
      && (status == Ok <==> InUse(s, i)) && (status != Ok ==> status == EInval && m == s)
      && (status == Ok ==>
            && m.lines[i].masked && !m.enabled[i] && m.lines[i].inUse && m.lines[i].irq == s.lines[i].irq
            && m.lines[i].handlers == s.lines[i].handlers && OtherLines(s, i, m)
            && m.entries == s.entries && m.free == s.free && m.nextId == s.nextId)
    ensures
      var (u, status) := SetMask(s, i, false);
      && (status == Ok <==> InUse(s, i)) && (status != Ok ==> status == EInval && u == s)
      && (status == Ok ==>
            && !u.lines[i].masked && u.enabled[i] && u.lines[i].inUse && u.lines[i].irq == s.lines[i].irq
            && u.lines[i].handlers == s.lines[i].handlers && OtherLines(s, i, u)
            && u.entries == s.entries && u.free == s.free && u.nextId == s.nextId)
  {
  }

  // ---------------------------------------------------------------------------
  // Attaching
  // ---------------------------------------------------------------------------

  /** A further handler is accepted only if it and all handlers there agree to share the
      line, and its argument is not null and not that of another. */
  ghost predicate MayJoin(s: Irqs, i: nat, shared: bool, arg: nat)
    requires InUse(s, i) && HandlersInPool(s, i)
  {
    && shared && arg != NULL_PTR
    && forall k :: 0 <= k < |s.lines[i].handlers| ==>
         s.entries[s.lines[i].handlers[k]].shared && s.entries[s.lines[i].handlers[k]].arg != arg
  }

  lemma JoinsIff(s: Irqs, i: nat, shared: bool, arg: nat)
    requires i < |s.lines| && HandlersInPool(s, i)
    ensures Contract(s, i, shared, arg) == Ok <==> !s.lines[i].inUse || MayJoin(s, i, shared, arg)
    ensures Contract(s, i, shared, arg) == EInval <==> s.lines[i].inUse && shared && arg == NULL_PTR
    ensures Contract(s, i, shared, arg) in {Ok, EInval, EBusy}
  {
    var h := s.lines[i].handlers;
    if s.lines[i].inUse && shared && arg != NULL_PTR {
      if exists k :: 0 <= k < |h| && Clashes(s.entries[h[k]], arg) {
        var k :| 0 <= k < |h| && Clashes(s.entries[h[k]], arg);
        assert !(s.entries[h[k]].shared && s.entries[h[k]].arg != arg);
      } else {
        forall k | 0 <= k < |h| ensures s.entries[h[k]].shared && s.entries[h[k]].arg != arg {
          assert !Clashes(s.entries[h[k]], arg);
        }
      }
    }
  }

  /** The first free entry, filled with what the caller gave and the next id, goes behind the
      other handlers; the first handler puts the line into use, unmasked and delivered. */
  ghost predicate AttachedTo(s: Irqs, i: nat, e: Entry, s': Irqs)
    requires i < |s.lines| == |s.enabled| && s.free != [] && s.free[0] < |s.entries|
  {
    var x := s.free[0];
    && OtherLines(s, i, s') && s'.free == s.free[1..] && |s'.entries| == |s.entries|
    && s'.entries[x] == Entry(s.nextId, e.shared, e.handler, e.arg, e.notification)
    && (forall d: nat :: d < |s.entries| && d != x ==> s'.entries[d] == s.entries[d])
    && s'.nextId == (if s.nextId + 1 == 0x1_0000_0000 then 0 else s.nextId + 1)
    && s'.lines[i].handlers == s.lines[i].handlers + [x] && s'.lines[i].inUse
    && (if s.lines[i].inUse
        then s'.lines[i].masked == s.lines[i].masked && s'.enabled[i] == s.enabled[i]
             && s'.lines[i].irq == s.lines[i].irq
        else !s'.lines[i].masked && s'.enabled[i] && s'.lines[i].irq == i)
  }

  /** irq_attach: exactly when it is refused and why, and what it does. */
  lemma AttachExact(s: Irqs, i: nat, e: Entry)
    requires Shaped(s) && s.nextId < WORD
    ensures
      var (s', r) := Attach(s, i, e);
      var asked := i < |s.lines| && (e.handler != NULL_PTR || e.notification != ID_INVALID);
      var joins := asked && HandlersInPool(s, i) && (s.lines[i].inUse ==> MayJoin(s, i, e.shared, e.arg));
      && (r == Id(s.nextId) <==> joins && s.free != [])
      && (r == Refused(ENoMem) <==> joins && s.free == [])
      && (r == Refused(EInval) <==> !asked || (s.lines[i].inUse && e.shared && e.arg == NULL_PTR))
      && (r.Id? ==> r.id == s.nextId && AttachedTo(s, i, e, s')) && (!r.Id? ==> s' == s)
  {
    if i < |s.lines| {
      assert HandlersInPool(s, i);
      JoinsIff(s, i, e.shared, e.arg);
    }
  }

  // ---------------------------------------------------------------------------
  // Detaching
  // ---------------------------------------------------------------------------

  predicate Fits(e: Entry, key: Key) {
    match key
    case ById(id) => id != 0 && e.attachId == id
    case ByHandler(handler, arg) => handler != 0 && e.handler == handler && e.arg == arg
  }

  /** The entry at position k leaves the line for the end of the pool, wiped; with the last
      handler the line is reset and no longer delivered. */
  ghost predicate DetachedFrom(s: Irqs, i: nat, k: nat, s': Irqs)
    requires i < |s.lines| == |s.enabled| && k < |s.lines[i].handlers| && s.lines[i].handlers[k] < |s.entries|
  {
    var h := s.lines[i].handlers;
    var x := h[k];
    && OtherLines(s, i, s') && s'.free == s.free + [x] && s'.nextId == s.nextId && |s'.entries| == |s.entries|
    && s'.entries[x] == Entry(0, s.entries[x].shared, 0, 0, 0)
    && (forall d: nat :: d < |s.entries| && d != x ==> s'.entries[d] == s.entries[d])
    && s'.lines[i].handlers == h[..k] + h[k + 1..]
    && (if |h| == 1
        then !s'.lines[i].inUse && !s'.enabled[i]
        else s'.lines[i].inUse && s'.lines[i].masked == s.lines[i].masked && s'.enabled[i] == s.enabled[i]
             && s'.lines[i].irq == s.lines[i].irq)
  }

  /** irq_detach_by_id and irq_detach_by_handler take out the first handler that fits, and are
      refused exactly when none does. */
  lemma DetachExact(s: Irqs, i: nat, key: Key)
    requires LinesOk(s)
    ensures
      var (s', status) := Detach(s, i, key);
      && (status == Ok <==>
            InUse(s, i) && HandlersInPool(s, i)
            && exists k :: 0 <= k < |s.lines[i].handlers| && Fits(s.entries[s.lines[i].handlers[k]], key))
      && (status != Ok ==> status == EInval && s' == s)
  {
    if i < |s.lines| {
      assert HandlersInPool(s, i);
      var h := s.lines[i].handlers;
      var k := FirstMatch(s.entries, h, key, 0);
      if KeyUsable(key) && k < |h| {
        assert Fits(s.entries[h[k]], key);
      }
      forall j | 0 <= j < |h| && Fits(s.entries[h[j]], key) ensures KeyUsable(key) && k <= j {
        assert Matches(s.entries[h[j]], key);
      }
    }
  }

  lemma DetachTakesFirst(s: Irqs, i: nat, key: Key) returns (k: nat)
    requires LinesOk(s) && Detach(s, i, key).1 == Ok
    ensures InUse(s, i) && HandlersInPool(s, i) && k < |s.lines[i].handlers|
    ensures Fits(s.entries[s.lines[i].handlers[k]], key) && DetachedFrom(s, i, k, Detach(s, i, key).0)
    ensures forall j :: 0 <= j < k ==> !Fits(s.entries[s.lines[i].handlers[j]], key)
  {
    assert HandlersInPool(s, i) && LineOk(s, i);
    var h := s.lines[i].handlers;
    k := FirstMatch(s.entries, h, key, 0);
    forall j | 0 <= j < k ensures !Fits(s.entries[h[j]], key) {
      assert !Matches(s.entries[h[j]], key);
    }
    assert |WithoutAt(h, k)| == |h| - 1;
  }

  /** irq_detach_all frees every handler of a line in use, in order, and resets it. */
  lemma DetachAllExact(s: Irqs, i: nat)
    requires |s.enabled| == |s.lines|
    ensures
      var (s', status) := DetachAll(s, i);
      && (status == Ok <==> InUse(s, i)) && (status != Ok ==> status == EInval && s' == s)
      && (status == Ok ==>
            && OtherLines(s, i, s') && !s'.lines[i].inUse && s'.lines[i].handlers == [] && !s'.enabled[i]
            && s'.free == s.free + s.lines[i].handlers && s'.nextId == s.nextId && |s'.entries| == |s.entries|
            && forall d: nat :: d < |s.entries| ==>
                 s'.entries[d] == if d in s.lines[i].handlers then Entry(0, s.entries[d].shared, 0, 0, 0)
                                  else s.entries[d])
  {
  }

  // ---------------------------------------------------------------------------
  // Which lines are delivered
  // ---------------------------------------------------------------------------

  predicate Masks(op: Op, i: nat, masked: bool) {
    op == OpSetMask(i, masked)
  }

  /** Call j masked line i, which has been in use since, and nobody has unmasked it. */
  ghost predicate MaskedAt(states: seq<Irqs>, ops: seq<Op>, k: nat, i: nat, j: nat)
    requires |states| == |ops| + 1 && k <= |ops|
  {
    && j < k && Masks(ops[j], i, true)
    && (forall m: nat :: j <= m <= k ==> InUse(states[m], i))
    && (forall m: nat :: j < m < k ==> !Masks(ops[m], i, false))
  }

  ghost predicate MaskStands(states: seq<Irqs>, ops: seq<Op>, k: nat, i: nat)
    requires |states| == |ops| + 1 && k <= |ops|
  {
    exists j: nat :: MaskedAt(states, ops, k, i, j)
  }

  lemma MaskStandsNext(states: seq<Irqs>, ops: seq<Op>, k: nat, i: nat)
    requires |states| == |ops| + 1 && k < |ops| && InUse(states[k + 1], i)
    ensures MaskStands(states, ops, k + 1, i) <==>
            InUse(states[k], i) && !Masks(ops[k], i, false) && (Masks(ops[k], i, true) || MaskStands(states, ops, k, i))
  {
    if MaskStands(states, ops, k + 1, i) {
      var j: nat :| MaskedAt(states, ops, k + 1, i, j);
      assert InUse(states[k], i);
      assert j < k ==> MaskedAt(states, ops, k, i, j) && !Masks(ops[k], i, false);
    }
    if InUse(states[k], i) && !Masks(ops[k], i, false) {
      if Masks(ops[k], i, true) {
        assert MaskedAt(states, ops, k + 1, i, k);
      } else if MaskStands(states, ops, k, i) {
        var j: nat :| MaskedAt(states, ops, k, i, j);
        assert MaskedAt(states, ops, k + 1, i, j);
      }
    }
  }

  /** A step masks a line in use, unmasks it, or leaves its mask; a line that comes into use
      is not masked. */
  lemma MaskStep(s: Irqs, op: Op, i: nat)
    requires LinesOk(s) && LinesOk(Step(s, op)) && s.nextId < WORD && InUse(Step(s, op), i)
    ensures |Step(s, op).lines| == |s.lines|
    ensures Step(s, op).lines[i].masked <==>
            InUse(s, i) && !Masks(op, i, false) && (Masks(op, i, true) || s.lines[i].masked)
  {
    match op
    case OpAttach(l, e) => AttachExact(s, l, e);
    case OpDetach(l, key) =>
      if Detach(s, l, key).1 == Ok {
        var k := DetachTakesFirst(s, l, key);
      } else {
        DetachExact(s, l, key);
      }
    case OpDetachAll(l) => DetachAllExact(s, l);
    case OpSetMask(l, masked) => MaskExact(s, l);
  }

  lemma {:induction false} IdBelowWord(lines: nat, entries: nat, states: seq<Irqs>, ops: seq<Op>, k: nat)
    requires Run(lines, entries, states, ops) && k <= |ops|
    ensures states[k].nextId < WORD
  {
    if k > 0 {
      IdBelowWord(lines, entries, states, ops, k - 1);
      var owner := LinesInEveryRun(lines, entries, states, ops, k - 1);
    }
  }

  /** In every run a line in use is delivered if and only if no mask call on it since it came
      into use is later than the last unmask. */
  lemma {:induction false} DeliveredIff(lines: nat, entries: nat, states: seq<Irqs>, ops: seq<Op>, k: nat, i: nat)
    requires Run(lines, entries, states, ops) && k <= |ops|
    ensures InUse(states[k], i) ==>
              && |states[k].enabled| == |states[k].lines|
              && (states[k].lines[i].masked <==> MaskStands(states, ops, k, i))
              && (states[k].enabled[i] <==> !MaskStands(states, ops, k, i))
  {
    var owner := LinesInEveryRun(lines, entries, states, ops, k);
    if k > 0 && InUse(states[k], i) {
      DeliveredIff(lines, entries, states, ops, k - 1, i);
      var before := LinesInEveryRun(lines, entries, states, ops, k - 1);
      IdBelowWord(lines, entries, states, ops, k - 1);
      MaskStep(states[k - 1], ops[k - 1], i);
      MaskStandsNext(states, ops, k - 1, i);
      assert LineOk(states[k], i);
    }
  }

  // ---------------------------------------------------------------------------
  // Whose handler an entry is
  // ---------------------------------------------------------------------------

  predicate Listed(s: Irqs, i: nat, x: nat) {
    i < |s.lines| && x in s.lines[i].handlers
  }

  /** Call j attached what entry x on line i carries, and the entry has been there since. */
  ghost predicate AttachedAt(states: seq<Irqs>, ops: seq<Op>, k: nat, i: nat, x: nat, j: nat)
    requires |states| == |ops| + 1 && k <= |ops| && x < |states[k].entries|
  {
    && j < k && ops[j].OpAttach? && ops[j].i == i
    && (forall m: nat :: j < m <= k ==> Listed(states[m], i, x))
    && var e := ops[j].entry;
    && states[k].entries[x] == Entry(states[j].nextId, e.shared, e.handler, e.arg, e.notification)
  }

  ghost predicate SomeAttached(states: seq<Irqs>, ops: seq<Op>, k: nat, i: nat, x: nat)
    requires |states| == |ops| + 1 && k <= |ops| && x < |states[k].entries|
  {
    exists j: nat :: AttachedAt(states, ops, k, i, x, j)
  }

  /** An entry on a line is as before, or has just been attached there. */
  lemma EntryStep(s: Irqs, owner: seq<int>, op: Op, i: nat, x: nat)
    requires LinesOk(s) && Partition(s, owner) && s.nextId < WORD && Listed(Step(s, op), i, x)
    ensures |Step(s, op).entries| == |s.entries| && |Step(s, op).lines| == |s.lines| && x < |s.entries|
    ensures Listed(s, i, x) ==> Step(s, op).entries[x] == s.entries[x]
    ensures !Listed(s, i, x) ==>
              && op.OpAttach? && op.i == i
              && var e := op.entry;
                 Step(s, op).entries[x] == Entry(s.nextId, e.shared, e.handler, e.arg, e.notification)
  {
    var owner' := StepOk(s, owner, op);
    assert HandlersInPool(Step(s, op), i);
    match op
    case OpAttach(l, e) => AttachEntry(s, owner, l, e, i, x);
    case OpDetach(l, key) => DetachEntry(s, owner, l, key, i, x);
    case OpDetachAll(l) =>
      DetachAllExact(s, l);
      if InUse(s, l) {
        assert LineHolds(s, owner, l) && LineHolds(s, owner, i);
      }
    case OpSetMask(l, masked) => MaskExact(s, l);
  }

  lemma AttachEntry(s: Irqs, owner: seq<int>, l: nat, e: Entry, i: nat, x: nat)
    requires LinesOk(s) && Partition(s, owner) && s.nextId < WORD && Listed(Attach(s, l, e).0, i, x)
    requires x < |s.entries|
    ensures |Attach(s, l, e).0.entries| == |s.entries| && |Attach(s, l, e).0.lines| == |s.lines|
    ensures Listed(s, i, x) ==> Attach(s, l, e).0.entries[x] == s.entries[x]
    ensures !Listed(s, i, x) ==>
              l == i && Attach(s, l, e).0.entries[x] == Entry(s.nextId, e.shared, e.handler, e.arg, e.notification)
  {
    AttachExact(s, l, e);
    if Attach(s, l, e).1.Id? {
      assert s.free[0] in s.free && LineHolds(s, owner, i);
    }
  }

  lemma DetachEntry(s: Irqs, owner: seq<int>, l: nat, key: Key, i: nat, x: nat)
    requires LinesOk(s) && Partition(s, owner) && Listed(Detach(s, l, key).0, i, x)
    requires x < |Detach(s, l, key).0.entries|
    ensures |Detach(s, l, key).0.entries| == |s.entries| && |Detach(s, l, key).0.lines| == |s.lines|
    ensures Listed(s, i, x) && Detach(s, l, key).0.entries[x] == s.entries[x]
  {
    if Detach(s, l, key).1 == Ok {
      var k := DetachTakesFirst(s, l, key);
      assert LineHolds(s, owner, l) && LineHolds(s, owner, i);
      SplitAt(s.lines[l].handlers, k);
    }
  }

  /** In every run, every entry on a line carries exactly the sharing flag, handler, argument
      and notification of the attach call that put it there, and the id that call read. */
  lemma {:induction false} EntriesAreAsAttached(lines: nat, entries: nat, states: seq<Irqs>, ops: seq<Op>,
                                                k: nat, i: nat, x: nat)
    requires Run(lines, entries, states, ops) && k <= |ops| && Listed(states[k], i, x)
    ensures x < |states[k].entries| && SomeAttached(states, ops, k, i, x)
  {
    if k > 0 {
      var owner := LinesInEveryRun(lines, entries, states, ops, k - 1);
      IdBelowWord(lines, entries, states, ops, k - 1);
      EntryStep(states[k - 1], owner, ops[k - 1], i, x);
      if Listed(states[k - 1], i, x) {
        EntriesAreAsAttached(lines, entries, states, ops, k - 1, i, x);
        var j: nat :| AttachedAt(states, ops, k - 1, i, x, j);
        assert AttachedAt(states, ops, k, i, x, j);
      } else {
        assert AttachedAt(states, ops, k, i, x, k - 1);
      }
    }
  }
}
