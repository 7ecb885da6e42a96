/**
 The inheritable flag over whole runs: which caps have it, and so which copies succeed.
 */
module CapFlags {
  import opened Capability
  import opened Revocation
  import opened RevokeLoop
  import opened CapRuns
  import opened CapPlaced

  /** Only VALID caps have the flag. */
  ghost predicate Clean(caps: seq<Cap>) {
    forall i: nat :: i < |caps| && caps[i].inheritable ==> caps[i].state.Valid?
  }

  // ---------------------------------------------------------------------------
  // What each operation does to state and flag
  // ---------------------------------------------------------------------------

  /** Everywhere but at x state and flag are as before. */
  ghost predicate SameFlags(caps: seq<Cap>, caps': seq<Cap>, x: nat) {
    && |caps'| == |caps|
    && forall i: nat :: i < |caps| && i != x ==>
         caps'[i].state == caps[i].state && caps'[i].inheritable == caps[i].inheritable
  }

  lemma InsertFlags(s: CSpace, slot: nat, kobjType: nat, kobjId: nat, rights: bv8, badge: nat, parent: nat)
    requires CanInsert(s, slot, kobjType, rights, parent)
    ensures
      var caps' := Insert(s, slot, kobjType, kobjId, rights, badge, parent).0.caps;
      && SameFlags(s.caps, caps', slot)
      && caps'[slot].state == Valid && caps'[slot].inheritable == s.caps[slot].inheritable
  {
  }

  lemma UnlinkFlags(caps: seq<Cap>, slot: nat)
    requires slot < |caps|
    ensures SameFlags(caps, Unlink(caps, slot), |caps|)
  {
  }

  lemma MoveIntoFlags(mid: CSpace, src: nat, dst: nat)
    requires src < |mid.caps| && dst < |mid.caps|
    ensures SameFlags(mid.caps, MoveInto(mid, src, dst).caps, src)
    ensures MoveInto(mid, src, dst).caps[src] == Cleared(SLOT_INVALID, SelfLinked)
  {
    var spliced := mid.caps[dst := mid.caps[dst].(children := mid.caps[src].children + mid.caps[dst].children)];
    var adopted := Reparent(spliced, spliced[dst].children, dst);
    assert SameFlags(mid.caps, adopted, src);
    UnlinkFlags(adopted, src);
  }

  lemma DeleteFlags(s: CSpace, slot: nat)
    requires Delete(s, slot).1 == Ok
    ensures SameFlags(s.caps, Delete(s, slot).0.caps, slot)
    ensures Delete(s, slot).0.caps[slot] == Cleared(SLOT_INVALID, SelfLinked)
  {
    UnlinkFlags(s.caps, slot);
  }

  // ---------------------------------------------------------------------------
  // One step
  // ---------------------------------------------------------------------------

  predicate Sets(op: Op, i: nat) {
    op.OpSetInheritable? && op.slot == i
  }

  /** A VALID cap has the flag that cap_set_inheritable just gave it or that it had before,
      and not if it was placed just now. */
  ghost predicate FlagAfter(caps: seq<Cap>, op: Op, caps': seq<Cap>, i: nat) {
    IsValid(caps', i) ==>
      (caps'[i].inheritable <==>
        IsValid(caps, i) && if Sets(op, i) then op.flag else caps[i].inheritable)
  }

  lemma FillFlags(a: Tracked, op: Op, b: Tracked, i: nat)
    requires Fills(op) && Step(a, op, b) && Clean(a.s.caps)
    ensures |b.s.caps| == |a.s.caps| && Clean(b.s.caps) && FlagAfter(a.s.caps, op, b.s.caps, i)
  {
    match op
    case OpMint(slot, t, id, r, g) =>
      if Mint(a.s, slot, t, id, r, g).1 == Ok {
        InsertFlags(a.s, slot, t, id, r, g, SLOT_INVALID);
      }
    case OpCopy(src, dst, mask) =>
      if Copy(a.s, src, dst, mask).1 == Ok {
        var c := a.s.caps[src];
        InsertFlags(a.s, dst, c.kobjType, c.kobjId, CopyRights(c, mask), c.badge, src);
      }
    case OpDerive(src, dst, r, g) =>
      if Derive(a.s, src, dst, r, g).1 == Ok {
        InsertFlags(a.s, dst, a.s.caps[src].kobjType, a.s.caps[src].kobjId, r, g, src);
      }
  }

  /** The source is cleared, the target is VALID without the flag, the rest as before. */
  ghost predicate FlagsMoved(caps: seq<Cap>, caps': seq<Cap>, src: nat, dst: nat) {
    && |caps'| == |caps| && dst < |caps| && src < |caps| && !caps[dst].state.Valid?
    && caps'[src].state == Free && !caps'[src].inheritable
    && caps'[dst].state == Valid && !caps'[dst].inheritable
    && forall i: nat :: i < |caps| && i != src && i != dst ==>
         caps'[i].state == caps[i].state && caps'[i].inheritable == caps[i].inheritable
  }

  lemma MoveFlags(s: CSpace, src: nat, dst: nat)
    requires Move(s, src, dst).1 == Ok && Clean(s.caps)
    ensures FlagsMoved(s.caps, Move(s, src, dst).0.caps, src, dst)
  {
    var c := s.caps[src];
    InsertFlags(s, dst, c.kobjType, c.kobjId, c.rights, c.badge, c.parentSlot);
    var mid := Insert(s, dst, c.kobjType, c.kobjId, c.rights, c.badge, c.parentSlot).0;
    MoveIntoFlags(mid, src, dst);
    JoinFlags(s.caps, mid.caps, MoveInto(mid, src, dst).caps, src, dst);
  }

  lemma JoinFlags(caps: seq<Cap>, mid: seq<Cap>, caps': seq<Cap>, src: nat, dst: nat)
    requires SameFlags(caps, mid, dst) && SameFlags(mid, caps', src) && src < |caps| && dst < |caps| && src != dst
    requires !caps[dst].state.Valid? && !caps[dst].inheritable && mid[dst].state == Valid && !mid[dst].inheritable
    requires caps'[src].state == Free && !caps'[src].inheritable
    ensures FlagsMoved(caps, caps', src, dst)
  {
  }

  lemma RevokeFlags(a: Tracked, slot: nat, b: Tracked, i: nat)
    requires RevokeStep(a, slot, b) && Clean(a.s.caps)
    ensures |b.s.caps| == |a.s.caps| && Clean(b.s.caps) && FlagAfter(a.s.caps, OpRevoke(slot), b.s.caps, i)
  {
    if RevokeAdmitted(a.s, slot) {
      var freed := RevokeEffect(a, slot, b);
    }
  }

  lemma StepFlags(a: Tracked, op: Op, b: Tracked, i: nat)
    requires Step(a, op, b) && Clean(a.s.caps) && |a.s.caps| < SLOT_INVALID
    ensures |b.s.caps| == |a.s.caps| && Clean(b.s.caps) && FlagAfter(a.s.caps, op, b.s.caps, i)
  {
    match op
    case OpMove(src, dst) =>
      if Move(a.s, src, dst).1 == Ok {
        MoveFlags(a.s, src, dst);
      }
    case OpDelete(slot) =>
      if Delete(a.s, slot).1 == Ok {
        DeleteFlags(a.s, slot);
      }
    case OpRevoke(slot) => RevokeFlags(a, slot, b, i);
    case OpSetInheritable(slot, flag) =>
    case OpAlloc =>
    case _ => FillFlags(a, op, b, i);
  }

  // ---------------------------------------------------------------------------
  // Whole runs
  // ---------------------------------------------------------------------------

  /** Call j set the flag of slot i; the cap has stayed VALID since and no later call to
      cap_set_inheritable named it. */
  ghost predicate SetSince(states: seq<Tracked>, ops: seq<Op>, k: nat, i: nat, j: nat)
    requires |states| == |ops| + 1 && k <= |ops|
  {
    && j < k && Sets(ops[j], i) && ops[j].flag
    && (forall m: nat :: j <= m <= k ==> IsValid(states[m].s.caps, i))
    && (forall m: nat :: j < m < k ==> !Sets(ops[m], i))
  }

  ghost predicate LastSetOn(states: seq<Tracked>, ops: seq<Op>, k: nat, i: nat)
    requires |states| == |ops| + 1 && k <= |ops|
  {
    exists j: nat :: SetSince(states, ops, k, i, j)
  }

  lemma LastSetNext(states: seq<Tracked>, ops: seq<Op>, k: nat, i: nat)
    requires |states| == |ops| + 1 && k < |ops| && IsValid(states[k + 1].s.caps, i)
    ensures LastSetOn(states, ops, k + 1, i) <==>
            IsValid(states[k].s.caps, i) && if Sets(ops[k], i) then ops[k].flag else LastSetOn(states, ops, k, i)
  {
    if LastSetOn(states, ops, k + 1, i) {
      var j: nat :| SetSince(states, ops, k + 1, i, j);
      assert IsValid(states[k].s.caps, i);
      assert j < k ==> SetSince(states, ops, k, i, j) && !Sets(ops[k], i);
    }
    if IsValid(states[k].s.caps, i) {
      if Sets(ops[k], i) && ops[k].flag {
        assert SetSince(states, ops, k + 1, i, k);
      } else if !Sets(ops[k], i) && LastSetOn(states, ops, k, i) {
        var j: nat :| SetSince(states, ops, k, i, j);
        assert SetSince(states, ops, k + 1, i, j);
      }
    }
  }

  /** In every run, whatever slots the callers choose: a VALID cap is inheritable if and only
      if the last cap_set_inheritable on its slot since it was placed there set the flag. */
  lemma {:induction false} FlagExact(capacity: nat, id: nat, states: seq<Tracked>, ops: seq<Op>, k: nat, i: nat)
    requires Run(capacity, id, states, ops) && k <= |ops|
    ensures Clean(states[k].s.caps) && |states[k].s.caps| == capacity
    ensures IsValid(states[k].s.caps, i) ==> (states[k].s.caps[i].inheritable <==> LastSetOn(states, ops, k, i))
  {
    if k > 0 {
      FlagExact(capacity, id, states, ops, k - 1, i);
      assert StepAt(states, ops, k - 1);
      StepFlags(states[k - 1], ops[k - 1], states[k], i);
      if IsValid(states[k].s.caps, i) {
        LastSetNext(states, ops, k - 1, i);
      }
    }
  }

  /** In every run a copy, with the rights that its mask leaves, succeeds if and only if its
      source may grant, the flag was last set on it since it was placed, it is less than 8
      deep, the target is FREE and those rights are legal; otherwise it changes nothing. */
  lemma CopySucceedsIff(capacity: nat, id: nat, states: seq<Tracked>, ops: seq<Op>, k: nat,
                        src: nat, dst: nat, mask: bv8, rights: bv8)
    requires Run(capacity, id, states, ops) && k <= |ops|
    requires src < |states[k].s.caps| ==> Masked(states[k].s.caps[src].rights, mask, rights)
    ensures
      var s := states[k].s;
      && (Copy(s, src, dst, mask).1 == Ok <==>
            && IsValid(s.caps, src) && Has(s.caps[src].rights, GRANT) && LastSetOn(states, ops, k, src)
            && FreeSlot(s, dst) && s.caps[src].deriveDepth < 8 && RightsLegal(s.caps[src].kobjType, rights))
      && (Copy(s, src, dst, mask).1 != Ok ==> Copy(s, src, dst, mask).0 == s)
  {
    FlagExact(capacity, id, states, ops, k, src);
    CopyExact(states[k].s, src, dst, mask, rights);
  }

  /** In every run, until cap_set_inheritable is called, every cap_copy is refused and
      changes nothing, whatever its arguments. */
  lemma CopyNeverSucceeds(capacity: nat, id: nat, states: seq<Tracked>, ops: seq<Op>, k: nat,
                          src: nat, dst: nat, mask: bv8)
    requires Run(capacity, id, states, ops) && k <= |ops|
    requires forall j :: 0 <= j < k ==> !ops[j].OpSetInheritable?
    ensures forall i: nat :: i < |states[k].s.caps| ==> !states[k].s.caps[i].inheritable
    ensures Copy(states[k].s, src, dst, mask).1 != Ok && Copy(states[k].s, src, dst, mask).0 == states[k].s
  {
    FlagExact(capacity, id, states, ops, k, src);
    forall i: nat | i < |states[k].s.caps| ensures !states[k].s.caps[i].inheritable {
      FlagExact(capacity, id, states, ops, k, i);
    }
  }

  /** In every run a cap that has just been moved is not inheritable, whatever it was. */
  lemma MoveDropsFlag(capacity: nat, id: nat, states: seq<Tracked>, ops: seq<Op>, k: nat)
    requires Run(capacity, id, states, ops) && k < |ops|
    requires ops[k].OpMove? && Move(states[k].s, ops[k].src, ops[k].dst).1 == Ok
    ensures IsValid(states[k + 1].s.caps, ops[k].dst) && !states[k + 1].s.caps[ops[k].dst].inheritable
  {
    FlagExact(capacity, id, states, ops, k, ops[k].dst);
    assert StepAt(states, ops, k);
    MoveFlags(states[k].s, ops[k].src, ops[k].dst);
  }
}
