/**
 Whole runs of the capability operations on one CSpace, from its creation.
 */
module CapRuns {
  import opened Lists
  import opened Capability
  import opened Forest
  import opened Revocation
  import opened RevokeStack
  import opened RevokeLoop
  import opened FreeList
  import Integrity

  datatype Op =
    | OpMint(slot: nat, kobjType: nat, kobjId: nat, rights: bv8, badge: nat)
    | OpCopy(src: nat, dst: nat, mask: bv8)
    | OpDerive(src: nat, dst: nat, rights: bv8, badge: nat)
    | OpMove(src: nat, dst: nat)
    | OpDelete(slot: nat)
    | OpRevoke(slot: nat)
    | OpSetInheritable(slot: nat, flag: bool)
    | OpAlloc

  /** A CSpace together with the bookkeeping of its slots: the free list, the slots that
      are FREE but on no list, how many moves and deletions have succeeded, and whether a
      revocation has stopped halfway. */
  datatype Tracked = Tracked(s: CSpace, list: seq<nat>, handed: set<nat>, drift: nat, torn: bool)

  function Filled(a: Tracked, outcome: (CSpace, Status), dst: nat): Tracked {
    if outcome.1 == Ok then a.(s := outcome.0, handed := a.handed - {dst}) else a
  }

  /** The tree below slot, or with -ENOMEM a part of it, released in the order `freed`. */
  ghost predicate Released(a: Tracked, slot: nat, freed: seq<nat>, b: Tracked) {
    && FreedSome(a.s, slot, freed, b.s)
    && b == a.(s := b.s, list := Reversed(freed) + a.list, torn := ToSet(freed) != Subtree(a.s.caps, slot))
  }

  /** cap_revoke: refused without effect, or some release. */
  ghost predicate RevokeStep(a: Tracked, slot: nat, b: Tracked) {
    if !RevokeAdmitted(a.s, slot) then b == a else exists freed :: Released(a, slot, freed, b)
  }

  /** Every outcome of cap_revoke, with any stack, is such a step; it tears the forest
      exactly when it returns -ENOMEM. */
  lemma OutcomeIsStep(a: Tracked, slot: nat, limit: nat, r: Status, freed: seq<nat>, lost: set<nat>, s: CSpace)
    requires ForestOk(a.s.caps) && !a.torn && RevokeOutcome(a.s, slot, limit, r, freed, lost, s)
    ensures
      var b := if !RevokeAdmitted(a.s, slot) then a
               else a.(s := s, list := Reversed(freed) + a.list, torn := r == ENoMem);
      b.s == s && RevokeStep(a, slot, b)
  {
    if RevokeAdmitted(a.s, slot) {
      if r == Ok {
        ExactlyIsSome(a.s, slot, freed, s);
      }
      assert Released(a, slot, freed, a.(s := s, list := Reversed(freed) + a.list, torn := r == ENoMem));
    }
  }

  ghost predicate Step(a: Tracked, op: Op, b: Tracked) {
    match op
    case OpMint(slot, t, id, r, g) => b == Filled(a, Mint(a.s, slot, t, id, r, g), slot)
    case OpCopy(src, dst, mask) => b == Filled(a, Copy(a.s, src, dst, mask), dst)
    case OpDerive(src, dst, r, g) => b == Filled(a, Derive(a.s, src, dst, r, g), dst)
    case OpMove(src, dst) =>
      var (s', st) := Move(a.s, src, dst);
      b == if st == Ok then a.(s := s', handed := a.handed - {dst} + {src}, drift := a.drift + 1) else a
    case OpDelete(slot) =>
      var (s', st) := Delete(a.s, slot);
      b == if st == Ok then a.(s := s', handed := a.handed + {slot}, drift := a.drift + 1) else a
    case OpRevoke(slot) => RevokeStep(a, slot, b)
    case OpSetInheritable(slot, flag) => b == a.(s := SetInheritable(a.s, slot, flag).0)
    case OpAlloc =>
      && (a.s.freeHead == SLOT_INVALID || a.s.freeHead < |a.s.caps|)
      && b == if a.list == [] then a
              else a.(s := Alloc(a.s).0, list := a.list[1..], handed := a.handed + {a.s.freeHead})
  }

  /** The caller fills only slots that cspace_alloc_slot gave out (or that a move or a
      deletion emptied), never one still on the free list. */
  predicate Disciplined(a: Tracked, op: Op) {
    match op
    case OpMint(slot, _, _, _, _) => slot in a.handed
    case OpCopy(_, dst, _) => dst in a.handed
    case OpDerive(_, dst, _, _) => dst in a.handed
    case OpMove(_, dst) => dst in a.handed
    case _ => true
  }

  ghost predicate Run(capacity: nat, id: nat, states: seq<Tracked>, ops: seq<Op>) {
    && 1 <= capacity <= MAX_CAPACITY
    && |states| == |ops| + 1
    && states[0] == Tracked(Init(capacity, id), seq(capacity - 1, i requires 0 <= i => i + 1), {}, 0, false)
    && forall k: nat {:trigger StepAt(states, ops, k)} :: k < |ops| ==> StepAt(states, ops, k)
  }

  ghost predicate StepAt(states: seq<Tracked>, ops: seq<Op>, k: nat)
    requires k < |ops| && |states| == |ops| + 1
  {
    !states[k].torn && Step(states[k], ops[k], states[k + 1])
  }

  // ---------------------------------------------------------------------------
  // One step
  // ---------------------------------------------------------------------------

  predicate Fills(op: Op) {
    op.OpMint? || op.OpCopy? || op.OpDerive?
  }

  function Target(op: Op): nat
    requires Fills(op)
  {
    if op.OpMint? then op.slot else op.dst
  }

  /** A cap placed in slot dst, without parent or derived from a VALID one. */
  ghost predicate Placed(a: Tracked, dst: nat, b: Tracked, t: nat, id: nat, r: bv8, g: nat, p: nat) {
    && CanInsert(a.s, dst, t, r, p)
    && DerivesFrom(a.s.caps, t, id, r, p)
    && b == a.(s := Insert(a.s, dst, t, id, r, g, p).0, handed := a.handed - {dst})
  }

  /** Mint, copy and derive either refuse without effect or place one cap. */
  lemma FillEffect(a: Tracked, op: Op, b: Tracked) returns (t: nat, id: nat, r: bv8, g: nat, p: nat)
    requires |a.s.caps| < SLOT_INVALID && Fills(op) && Step(a, op, b)
    ensures b == a || Placed(a, Target(op), b, t, id, r, g, p)
  {
    t, id, r, g, p := 0, 0, 0, 0, 0;
    match op
    case OpMint(slot, t', id', r', g') =>
      t, id, r, g, p := t', id', r', g', SLOT_INVALID;
    case OpCopy(src, dst, mask) =>
      if IsValid(a.s.caps, src) {
        var c := a.s.caps[src];
        t, id, g, p := c.kobjType, c.kobjId, c.badge, src;
        r := CopyRights(c, mask);
      }
    case OpDerive(src, dst, r', g') =>
      if IsValid(a.s.caps, src) {
        t, id, r, g, p := a.s.caps[src].kobjType, a.s.caps[src].kobjId, r', g', src;
      }
  }

  /** The order in which an admitted revocation released slots. */
  lemma RevokeEffect(a: Tracked, slot: nat, b: Tracked) returns (freed: seq<nat>)
    requires RevokeStep(a, slot, b) && RevokeAdmitted(a.s, slot)
    ensures Released(a, slot, freed, b)
    ensures !b.torn ==> TreeRevoked(a.s.caps, slot, freed, b.s.caps)
  {
    freed :| Released(a, slot, freed, b);
  }

  /** A step keeps the forest unless it is a revocation that stops halfway. */
  lemma StepKeepsForest(a: Tracked, op: Op, b: Tracked)
    requires ForestOk(a.s.caps) && !a.torn && Step(a, op, b)
    requires op.OpAlloc? ==> FreeChain(a.s, a.list)
    ensures b.torn ==> op.OpRevoke?
    ensures !b.torn ==> ForestOk(b.s.caps)
    ensures !b.torn && TypesOk(a.s.caps) ==> TypesOk(b.s.caps)
    ensures !b.torn && DepthExact(a.s.caps) && !op.OpDelete? ==> DepthExact(b.s.caps)
  {
    if Fills(op) {
      var t, id, r, g, p := FillEffect(a, op, b);
      if b != a {
        InsertKeepsForest(a.s, Target(op), t, id, r, g, p);
      }
    } else {
      match op
      case OpMove(src, dst) => MoveKeepsForest(a.s, src, dst);
      case OpDelete(slot) =>
        DeleteKeepsForest(a.s, slot);
        DeleteKeepsTypes(a.s, slot);
      case OpRevoke(slot) =>
        if RevokeAdmitted(a.s, slot) {
          var freed := RevokeEffect(a, slot, b);
          if !b.torn {
            RevokedForest(a.s.caps, slot, freed, b.s.caps);
            RevokedKeepsDiscipline(a.s.caps, slot, freed, b.s.caps);
          }
        }
      case OpSetInheritable(slot, flag) => FlagKeepsForest(a.s, slot, flag);
      case OpAlloc => AllocKeepsForest(a, b);
    }
  }

  lemma DeleteKeepsTypes(s: CSpace, slot: nat)
    requires ForestOk(s.caps)
    ensures TypesOk(s.caps) ==> TypesOk(Delete(s, slot).0.caps)
  {
    if TypesOk(s.caps) && Delete(s, slot).1 == Ok {
      var caps' := Delete(s, slot).0.caps;
      DeleteEffect(s, slot);
      forall i: nat | IsValid(caps', i) ensures RightsLegal(caps'[i].kobjType, caps'[i].rights) {
        assert caps'[i].kobjType == s.caps[i].kobjType && caps'[i].rights == s.caps[i].rights;
        assert IsValid(s.caps, i);
      }
    }
  }

  lemma FlagKeepsForest(s: CSpace, slot: nat, flag: bool)
    requires ForestOk(s.caps)
    ensures ForestOk(SetInheritable(s, slot, flag).0.caps)
    ensures TypesOk(s.caps) ==> TypesOk(SetInheritable(s, slot, flag).0.caps)
    ensures DepthExact(s.caps) ==> DepthExact(SetInheritable(s, slot, flag).0.caps)
  {
    var caps' := SetInheritable(s, slot, flag).0.caps;
    forall i: nat | IsValid(caps', i) ensures ParentOk(caps', i) && ChildrenOk(caps', i) {
      assert ParentOk(s.caps, i) && ChildrenOk(s.caps, i);
    }
  }

  lemma AllocKeepsForest(a: Tracked, b: Tracked)
    requires ForestOk(a.s.caps) && Step(a, OpAlloc, b) && FreeChain(a.s, a.list)
    ensures ForestOk(b.s.caps)
    ensures TypesOk(a.s.caps) ==> TypesOk(b.s.caps)
    ensures DepthExact(a.s.caps) ==> DepthExact(b.s.caps)
  {
    if a.list != [] {
      assert Linked(a.s, a.list, 0);
      var caps' := b.s.caps;
      forall i: nat | IsValid(caps', i) ensures ParentOk(caps', i) && ChildrenOk(caps', i) {
        assert ParentOk(a.s.caps, i) && ChildrenOk(a.s.caps, i);
      }
    }
  }

  lemma StepKeepsPartition(a: Tracked, op: Op, b: Tracked)
    requires ForestOk(a.s.caps) && Step(a, op, b) && Disciplined(a, op)
    requires Partition(a.s, a.list, a.handed)
    ensures Partition(b.s, b.list, b.handed)
  {
    if Fills(op) {
      var t, id, r, g, p := FillEffect(a, op, b);
      if b != a {
        InsertPartition(a.s, a.list, a.handed, Target(op), t, id, r, g, p);
      }
    } else {
      match op
      case OpMove(src, dst) => MoveStepPartition(a, src, dst, b);
      case OpDelete(slot) => DeleteStepPartition(a, slot, b);
      case OpRevoke(slot) =>
        if RevokeAdmitted(a.s, slot) {
          var freed := RevokeEffect(a, slot, b);
          RevokePartition(a.s, a.list, a.handed, slot, freed);
        }
      case OpSetInheritable(slot, flag) => FlagKeepsPartition(a, slot, flag);
      case OpAlloc => AllocPartition(a.s, a.list, a.handed);
    }
  }

  lemma MoveStepPartition(a: Tracked, src: nat, dst: nat, b: Tracked)
    requires ForestOk(a.s.caps) && Step(a, OpMove(src, dst), b) && dst in a.handed
    requires Partition(a.s, a.list, a.handed)
    ensures Partition(b.s, b.list, b.handed)
  {
    if Move(a.s, src, dst).1 == Ok {
      MoveEffect(a.s, src, dst);
      MovePartition(a.s, a.list, a.handed, src, dst, b.s);
    }
  }

  lemma DeleteStepPartition(a: Tracked, slot: nat, b: Tracked)
    requires ForestOk(a.s.caps) && Step(a, OpDelete(slot), b)
    requires Partition(a.s, a.list, a.handed)
    ensures Partition(b.s, b.list, b.handed)
  {
    if Delete(a.s, slot).1 == Ok {
      DeleteEffect(a.s, slot);
      DeletePartition(a.s, a.list, a.handed, slot, b.s);
    }
  }

  lemma FlagKeepsPartition(a: Tracked, slot: nat, flag: bool)
    requires Partition(a.s, a.list, a.handed)
    ensures Partition(SetInheritable(a.s, slot, flag).0, a.list, a.handed)
  {
    var s' := SetInheritable(a.s, slot, flag).0;
    forall i: nat | i < |s'.caps| ensures SlotPlaced(s', a.list, a.handed, i) {
      assert SlotPlaced(a.s, a.list, a.handed, i);
    }
    forall i: nat | i in a.list && i < |a.s.caps| ensures s'.caps[i] == a.s.caps[i] {
      assert SlotPlaced(a.s, a.list, a.handed, i);
    }
    ChainFrame(a.s, s', a.list);
  }

  lemma StepKeepsCount(a: Tracked, op: Op, b: Tracked)
    requires ForestOk(a.s.caps) && Step(a, op, b) && Counted(a.s, a.drift)
    requires op.OpAlloc? ==> Partition(a.s, a.list, a.handed)
    ensures Counted(b.s, b.drift)
  {
    if Fills(op) {
      var t, id, r, g, p := FillEffect(a, op, b);
      if b != a {
        InsertCounted(a.s, a.drift, Target(op), t, id, r, g, p);
      }
    } else {
      match op
      case OpMove(src, dst) =>
        if Move(a.s, src, dst).1 == Ok {
          MoveEffect(a.s, src, dst);
          MoveCounted(a.s, a.drift, src, dst, b.s);
        }
      case OpDelete(slot) =>
        if Delete(a.s, slot).1 == Ok {
          DeleteEffect(a.s, slot);
          DeleteCounted(a.s, a.drift, slot, b.s);
        }
      case OpRevoke(slot) =>
        if RevokeAdmitted(a.s, slot) {
          var freed := RevokeEffect(a, slot, b);
          RevokeCounted(a.s, a.drift, slot, freed);
        }
      case OpSetInheritable(slot, flag) =>
        assert ValidSlots(b.s.caps) == ValidSlots(a.s.caps);
      case OpAlloc => AllocPartition(a.s, a.list, a.handed);
    }
  }

  // ---------------------------------------------------------------------------
  // Whole runs
  // ---------------------------------------------------------------------------

  /** Every state of every run without slot allocation, whatever slots the callers choose:
      a forest with legal rights, and depths exact until the first deletion.  A run ends
      with a revocation that stops halfway; the counter is right even then. */
  lemma {:induction false} ForestInEveryRun(capacity: nat, id: nat, states: seq<Tracked>, ops: seq<Op>, k: nat)
    requires Run(capacity, id, states, ops) && k <= |ops|
    requires forall j :: 0 <= j < k ==> !ops[j].OpAlloc?
    ensures !states[k].torn ==> ForestOk(states[k].s.caps) && TypesOk(states[k].s.caps)
    ensures !states[k].torn && (forall j :: 0 <= j < k ==> !ops[j].OpDelete?) ==>
              DepthExact(states[k].s.caps) && Integrity.FailedSlots(states[k].s.caps) == {}
    ensures Counted(states[k].s, states[k].drift)
  {
    if k == 0 {
      InitIsForest(capacity, id);
      InitPartition(capacity, id);
    } else {
      ForestInEveryRun(capacity, id, states, ops, k - 1);
      assert StepAt(states, ops, k - 1);
      StepKeepsForest(states[k - 1], ops[k - 1], states[k]);
      StepKeepsCount(states[k - 1], ops[k - 1], states[k]);
    }
    if !states[k].torn {
      Integrity.CleanIffDepthExact(states[k].s.caps);
    }
  }

  /** Every state of every run in which callers fill only slots they were given: the
      forest holds, the free list, the VALID caps and the handed-out slots partition the
      table, and the counter is ahead of the VALID caps by the number of successful
      moves and deletions, so exact without them; without deletions the integrity check is
      clean.  A revocation that stops halfway ends the run; it loses the forest, not the
      partition and not the count. */
  lemma {:induction false} SlotsInEveryRun(capacity: nat, id: nat, states: seq<Tracked>, ops: seq<Op>, k: nat)
    requires Run(capacity, id, states, ops) && k <= |ops|
    requires forall j :: 0 <= j < k ==> Disciplined(states[j], ops[j])
    ensures !states[k].torn ==> ForestOk(states[k].s.caps) && TypesOk(states[k].s.caps)
    ensures Partition(states[k].s, states[k].list, states[k].handed)
    ensures Counted(states[k].s, states[k].drift)
    ensures !states[k].torn && (forall j :: 0 <= j < k ==> !ops[j].OpDelete?) ==>
              DepthExact(states[k].s.caps) && Integrity.FailedSlots(states[k].s.caps) == {}
    ensures (forall j :: 0 <= j < k ==> !ops[j].OpDelete? && !ops[j].OpMove?) ==>
              states[k].s.usedCount == |ValidSlots(states[k].s.caps)|
  {
    if k == 0 {
      InitIsForest(capacity, id);
      InitPartition(capacity, id);
    } else {
      SlotsInEveryRun(capacity, id, states, ops, k - 1);
      assert StepAt(states, ops, k - 1);
      StepKeepsForest(states[k - 1], ops[k - 1], states[k]);
      StepKeepsPartition(states[k - 1], ops[k - 1], states[k]);
      StepKeepsCount(states[k - 1], ops[k - 1], states[k]);
    }
    DriftIsMovesAndDeletes(states, ops, k);
    if !states[k].torn {
      Integrity.CleanIffDepthExact(states[k].s.caps);
    }
  }

  /** Only a move or a deletion lets the counter run ahead. */
  lemma {:induction false} DriftIsMovesAndDeletes(states: seq<Tracked>, ops: seq<Op>, k: nat)
    requires |states| == |ops| + 1 && k <= |ops| && states[0].drift == 0
    requires forall j: nat {:trigger StepAt(states, ops, j)} :: j < |ops| ==> StepAt(states, ops, j)
    ensures (forall j :: 0 <= j < k ==> !ops[j].OpDelete? && !ops[j].OpMove?) ==> states[k].drift == 0
  {
    if k > 0 {
      DriftIsMovesAndDeletes(states, ops, k - 1);
      assert StepAt(states, ops, k - 1);
    }
  }
}
