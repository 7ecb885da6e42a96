/**
 What mint, copy, derive, move and delete put into the table, in the terms of their callers:
 exactly when each succeeds, every field of the cap it places, and over whole runs that each
 VALID cap still is what the call that placed it asked for.
 */
module CapPlaced {
  import opened Capability
  import opened Forest
  import opened Revocation
  import opened RevokeLoop
  import opened CapRuns

  // ---------------------------------------------------------------------------
  // Rights, right by right
  // ---------------------------------------------------------------------------

  predicate OneRight(right: bv8) {
    right in {1, 2, 4, 8, 16, 32, 64, 128}
  }

  predicate Has(rights: bv8, right: bv8) {
    rights & right != 0
  }

  /** `rights` are those of `from` that the mask lets through; a zero mask lets all through. */
  ghost predicate Masked(from: bv8, mask: bv8, rights: bv8) {
    forall right: bv8 {:trigger Has(rights, right)} ::
      OneRight(right) ==> (Has(rights, right) <==> Has(from, right) && (mask == 0 || Has(mask, right)))
  }

  ghost predicate Within(rights: bv8, from: bv8) {
    forall right: bv8 {:trigger Has(rights, right)} :: OneRight(right) && Has(rights, right) ==> Has(from, right)
  }

  lemma SameBits(a: bv8, b: bv8)
    requires forall right: bv8 {:trigger Has(a, right)} :: OneRight(right) ==> (Has(a, right) <==> Has(b, right))
    ensures a == b
  {
    assert Has(a, 1) == Has(b, 1) && Has(a, 2) == Has(b, 2) && Has(a, 4) == Has(b, 4) && Has(a, 8) == Has(b, 8);
    assert Has(a, 16) == Has(b, 16) && Has(a, 32) == Has(b, 32) && Has(a, 64) == Has(b, 64);
    assert Has(a, 128) == Has(b, 128);
  }

  lemma MaskBit(from: bv8, mask: bv8, right: bv8)
    requires OneRight(right)
    ensures Has(from & mask, right) <==> Has(from, right) && Has(mask, right)
  {
  }

  /** The mask leaves exactly one set of rights, the one cap_copy computes. */
  lemma MaskedIsCopyRights(c: Cap, mask: bv8, rights: bv8)
    ensures Masked(c.rights, mask, rights) <==> rights == CopyRights(c, mask)
  {
    var own := CopyRights(c, mask);
    forall right: bv8 | OneRight(right)
      ensures Has(own, right) <==> Has(c.rights, right) && (mask == 0 || Has(mask, right))
    {
      MaskBit(c.rights, mask, right);
    }
    if Masked(c.rights, mask, rights) {
      SameBits(rights, own);
    }
  }

  lemma WithinIsSubset(rights: bv8, from: bv8)
    ensures Within(rights, from) <==> Subset(rights, from)
  {
    if Within(rights, from) {
      forall right: bv8 | OneRight(right) ensures Has(rights & from, right) <==> Has(rights, right) {
        MaskBit(rights, from, right);
        assert Has(rights, right) ==> Has(from, right);
      }
      SameBits(rights & from, rights);
    } else {
      var right: bv8 :| OneRight(right) && Has(rights, right) && !Has(from, right);
      MaskBit(rights, from, right);
    }
  }

  // ---------------------------------------------------------------------------
  // Placing one cap
  // ---------------------------------------------------------------------------

  predicate FreeSlot(s: CSpace, slot: nat) {
    slot < |s.caps| && s.caps[slot].state == Free
  }

  /** Nothing but these fields of this slot, the parent's list and the counter changed. */
  ghost predicate PlacedIn(s: CSpace, slot: nat, t: nat, id: nat, r: bv8, g: nat, parent: nat, s': CSpace) {
    && slot < |s.caps| == |s'.caps|
    && (parent != SLOT_INVALID ==> parent < |s.caps| && parent != slot)
    && var c := s'.caps[slot];
    && c.state == Valid && c.kobjType == t && c.kobjId == id && c.rights == r && c.badge == g
    && c.parentSlot == parent && c.children == [] && c.cspaceRoot == s.rootSlot
    && c.deriveDepth == (if parent == SLOT_INVALID then 0 else s.caps[parent].deriveDepth + 1)
    && (parent != SLOT_INVALID ==>
          s'.caps[parent] == s.caps[parent].(children := s.caps[parent].children + [slot]))
    && (forall i: nat :: i < |s.caps| && i != slot && i != parent ==> s'.caps[i] == s.caps[i])
    && s'.usedCount == s.usedCount + 1 && s'.freeHead == s.freeHead && s'.rootSlot == s.rootSlot
  }

  /** cap_mint: the root cap must be VALID and may write and grant, the slot must be FREE and
      the rights legal for the type; then exactly the given cap is placed, without parent. */
  lemma MintExact(s: CSpace, slot: nat, t: nat, id: nat, r: bv8, g: nat)
    requires |s.caps| < SLOT_INVALID
    ensures
      var (s', status) := Mint(s, slot, t, id, r, g);
      var rooted := s.rootSlot < |s.caps| && s.caps[s.rootSlot].state == Valid;
      var entitled := rooted && Has(s.caps[s.rootSlot].rights, WRITE) && Has(s.caps[s.rootSlot].rights, GRANT);
      && (status == Ok <==> entitled && FreeSlot(s, slot) && RightsLegal(t, r))
      && (status == ENoEnt <==> slot != SLOT_INVALID && t < 14 && !rooted)
      && (status == EAcces <==> slot != SLOT_INVALID && t < 14 && rooted && !entitled)
      && status in {Ok, ENoEnt, EAcces, EInval}
      && (status == Ok ==> PlacedIn(s, slot, t, id, r, g, SLOT_INVALID, s'))
      && (status != Ok ==> s' == s)
  {
    if IsValid(s.caps, s.rootSlot) {
      RootRights(s.caps[s.rootSlot].rights);
    }
  }

  lemma RootRights(rights: bv8)
    ensures Subset(WRITE | GRANT, rights) <==> Has(rights, WRITE) && Has(rights, GRANT)
  {
  }

  /** Whether a cap may have a child in this slot with these rights. */
  predicate CanBear(s: CSpace, src: nat, dst: nat, rights: bv8)
    requires src < |s.caps|
  {
    FreeSlot(s, dst) && s.caps[src].deriveDepth < 8 && RightsLegal(s.caps[src].kobjType, rights)
  }

  /** cap_copy, with the rights that the mask leaves: the source must be VALID, may grant and
      be inheritable; the copy has its type, object and badge, and is its child. */
  lemma CopyExact(s: CSpace, src: nat, dst: nat, mask: bv8, rights: bv8)
    requires |s.caps| < SLOT_INVALID
    requires src < |s.caps| ==> Masked(s.caps[src].rights, mask, rights)
    ensures
      var (s', status) := Copy(s, src, dst, mask);
      var named := src != SLOT_INVALID && dst != SLOT_INVALID;
      var found := src < |s.caps| && s.caps[src].state == Valid;
      var entitled := found && Has(s.caps[src].rights, GRANT) && s.caps[src].inheritable;
      && (status == Ok <==> named && entitled && CanBear(s, src, dst, rights))
      && (status == ENoEnt <==> named && !found)
      && (status == EAcces <==> named && found && !entitled)
      && status in {Ok, ENoEnt, EAcces, EInval}
      && (status == Ok ==>
            PlacedIn(s, dst, s.caps[src].kobjType, s.caps[src].kobjId, rights, s.caps[src].badge, src, s'))
      && (status != Ok ==> s' == s)
  {
    if IsValid(s.caps, src) {
      MaskedIsCopyRights(s.caps[src], mask, rights);
      MaskWithin(s.caps[src].rights, mask);
    }
  }

  lemma MaskWithin(rights: bv8, mask: bv8)
    ensures Subset(rights & mask, rights) && Subset(rights, rights)
  {
  }

  /** cap_derive: the source must be VALID and may grant; the rights must be some but not all
      of its own; the child has its type and object, and the badge given. */
  lemma DeriveExact(s: CSpace, src: nat, dst: nat, rights: bv8, badge: nat)
    requires |s.caps| < SLOT_INVALID
    ensures
      var (s', status) := Derive(s, src, dst, rights, badge);
      var named := src != SLOT_INVALID && dst != SLOT_INVALID;
      var found := src < |s.caps| && s.caps[src].state == Valid;
      var entitled := found && Has(s.caps[src].rights, GRANT) && Within(rights, s.caps[src].rights);
      && (status == Ok <==>
            named && entitled && rights != s.caps[src].rights && CanBear(s, src, dst, rights))
      && (status == ENoEnt <==> named && !found)
      && (status == EAcces <==> named && found && !entitled)
      && status in {Ok, ENoEnt, EAcces, EInval}
      && (status == Ok ==> PlacedIn(s, dst, s.caps[src].kobjType, s.caps[src].kobjId, rights, badge, src, s'))
      && (status != Ok ==> s' == s)
  {
    if src < |s.caps| {
      WithinIsSubset(rights, s.caps[src].rights);
    }
  }

  /** On a forest with legal rights cap_move succeeds exactly for a VALID source that may
      grant and a FREE target. */
  lemma MoveSucceedsIff(s: CSpace, src: nat, dst: nat)
    requires ForestOk(s.caps) && TypesOk(s.caps)
    ensures
      var (s', status) := Move(s, src, dst);
      var named := src != SLOT_INVALID && dst != SLOT_INVALID;
      var found := src < |s.caps| && s.caps[src].state == Valid;
      && (status == Ok <==> named && found && Has(s.caps[src].rights, GRANT) && FreeSlot(s, dst))
      && (status == ENoEnt <==> named && !found)
      && (status == EAcces <==> named && found && !Has(s.caps[src].rights, GRANT))
      && (status != Ok ==> s' == s)
  {
    if IsValid(s.caps, src) {
      assert ParentOk(s.caps, src);
    }
  }

  /** cap_delete and cap_set_inheritable succeed exactly on a VALID cap. */
  lemma DeleteSucceedsIff(s: CSpace, slot: nat, flag: bool)
    requires |s.caps| < SLOT_INVALID
    ensures Delete(s, slot).1 == Ok <==> slot < |s.caps| && s.caps[slot].state == Valid
    ensures SetInheritable(s, slot, flag).1 == Ok <==> slot < |s.caps| && s.caps[slot].state == Valid
    ensures Delete(s, slot).1 != Ok ==>
              Delete(s, slot) == (s, if slot == SLOT_INVALID then EInval else ENoEnt) == SetInheritable(s, slot, flag)
  {
  }

  // ---------------------------------------------------------------------------
  // Over whole runs
  // ---------------------------------------------------------------------------

  /** Type, object, rights and badge. */
  predicate SameCap(c: Cap, d: Cap) {
    c.kobjType == d.kobjType && c.kobjId == d.kobjId && c.rights == d.rights && c.badge == d.badge
  }

  /** The cap that the call asked for in slot i. */
  ghost predicate AskedFor(s: CSpace, op: Op, i: nat, c: Cap) {
    match op
    case OpMint(slot, t, id, r, g) =>
      i == slot && c.kobjType == t && c.kobjId == id && c.rights == r && c.badge == g
    case OpCopy(src, dst, mask) =>
      && i == dst && IsValid(s.caps, src)
      && c.kobjType == s.caps[src].kobjType && c.kobjId == s.caps[src].kobjId && c.badge == s.caps[src].badge
      && Masked(s.caps[src].rights, mask, c.rights)
    case OpDerive(src, dst, r, g) =>
      && i == dst && IsValid(s.caps, src)
      && c.kobjType == s.caps[src].kobjType && c.kobjId == s.caps[src].kobjId && c.rights == r && c.badge == g
    case OpMove(src, dst) => i == dst && IsValid(s.caps, src) && SameCap(c, s.caps[src])
    case _ => false
  }

  /** A step keeps what a VALID cap is, and a cap that appears is the one asked for. */
  ghost predicate CapAfter(s: CSpace, op: Op, caps': seq<Cap>, i: nat) {
    IsValid(caps', i) ==>
      if IsValid(s.caps, i) then SameCap(caps'[i], s.caps[i]) else AskedFor(s, op, i, caps'[i])
  }

  lemma FillCaps(a: Tracked, op: Op, b: Tracked, i: nat)
    requires Fills(op) && Step(a, op, b) && |a.s.caps| < SLOT_INVALID
    ensures |b.s.caps| == |a.s.caps| && CapAfter(a.s, op, b.s.caps, i)
  {
    match op
    case OpMint(slot, t, id, r, g) => MintExact(a.s, slot, t, id, r, g);
    case OpCopy(src, dst, mask) =>
      if src < |a.s.caps| {
        var rights := CopyRights(a.s.caps[src], mask);
        MaskedIsCopyRights(a.s.caps[src], mask, rights);
        CopyExact(a.s, src, dst, mask, rights);
      }
    case OpDerive(src, dst, r, g) => DeriveExact(a.s, src, dst, r, g);
  }

  /** Splicing, reparenting and unlinking leave type, object, rights and badge alone. */
  ghost predicate SameCaps(caps: seq<Cap>, caps': seq<Cap>, x: nat) {
    && |caps'| == |caps|
    && forall i: nat :: i < |caps| && i != x ==> caps'[i].state == caps[i].state && SameCap(caps'[i], caps[i])
  }

  lemma UnlinkSameCaps(caps: seq<Cap>, slot: nat)
    requires slot < |caps|
    ensures SameCaps(caps, Unlink(caps, slot), |caps|)
  {
  }

  lemma MoveIntoSameCaps(mid: CSpace, src: nat, dst: nat)
    requires src < |mid.caps| && dst < |mid.caps|
    ensures SameCaps(mid.caps, MoveInto(mid, src, dst).caps, src)
    ensures MoveInto(mid, src, dst).caps[src].state == Free
  {
    var spliced := mid.caps[dst := mid.caps[dst].(children := mid.caps[src].children + mid.caps[dst].children)];
    var adopted := Reparent(spliced, spliced[dst].children, dst);
    assert SameCaps(mid.caps, adopted, src);
    UnlinkSameCaps(adopted, src);
  }

  lemma InsertSameCaps(s: CSpace, slot: nat, t: nat, id: nat, r: bv8, g: nat, p: nat)
    requires CanInsert(s, slot, t, r, p)
    ensures
      var caps' := Insert(s, slot, t, id, r, g, p).0.caps;
      && SameCaps(s.caps, caps', slot) && caps'[slot].state == Valid
      && caps'[slot].kobjType == t && caps'[slot].kobjId == id && caps'[slot].rights == r && caps'[slot].badge == g
  {
  }

  lemma MoveCaps(a: Tracked, src: nat, dst: nat, b: Tracked, i: nat)
    requires Step(a, OpMove(src, dst), b)
    ensures |b.s.caps| == |a.s.caps| && CapAfter(a.s, OpMove(src, dst), b.s.caps, i)
  {
    if Move(a.s, src, dst).1 == Ok {
      var c := a.s.caps[src];
      InsertSameCaps(a.s, dst, c.kobjType, c.kobjId, c.rights, c.badge, c.parentSlot);
      var mid := Insert(a.s, dst, c.kobjType, c.kobjId, c.rights, c.badge, c.parentSlot).0;
      MoveIntoSameCaps(mid, src, dst);
      assert IsValid(b.s.caps, i) ==> i != src && mid.caps[i].state == Valid && SameCap(b.s.caps[i], mid.caps[i]);
    }
  }

  lemma StepCaps(a: Tracked, op: Op, b: Tracked, i: nat)
    requires Step(a, op, b) && |a.s.caps| < SLOT_INVALID
    ensures |b.s.caps| == |a.s.caps| && CapAfter(a.s, op, b.s.caps, i)
  {
    match op
    case OpMove(src, dst) => MoveCaps(a, src, dst, b, i);
    case OpDelete(slot) =>
      if Delete(a.s, slot).1 == Ok {
        UnlinkSameCaps(a.s.caps, slot);
      }
    case OpRevoke(slot) =>
      if RevokeAdmitted(a.s, slot) {
        var freed := RevokeEffect(a, slot, b);
      }
    case OpSetInheritable(slot, flag) =>
    case OpAlloc =>
    case _ => FillCaps(a, op, b, i);
  }

  /** Call j placed the cap that is in slot i now. */
  ghost predicate PlacedAt(states: seq<Tracked>, ops: seq<Op>, k: nat, i: nat, j: nat)
    requires |states| == |ops| + 1 && k <= |ops| && i < |states[k].s.caps|
  {
    && j < k && !IsValid(states[j].s.caps, i)
    && (forall m: nat :: j < m <= k ==> IsValid(states[m].s.caps, i))
    && AskedFor(states[j].s, ops[j], i, states[k].s.caps[i])
  }

  ghost predicate Placed(states: seq<Tracked>, ops: seq<Op>, k: nat, i: nat)
    requires |states| == |ops| + 1 && k <= |ops| && i < |states[k].s.caps|
  {
    exists j: nat :: PlacedAt(states, ops, k, i, j)
  }

  /** The root cap as cspace_create_root_cap made it. */
  predicate IsRootCap(c: Cap, id: nat) {
    c.kobjType == 3 && c.kobjId == id && c.rights == READ | WRITE | GRANT | REVOKE && c.badge == 0
  }

  /** In every run, whatever slots the callers choose: a VALID cap has exactly the type,
      object, rights and badge that the call which placed it asked for, or it is the root cap
      of the CSpace. */
  lemma {:induction false} CapsAreAsAsked(capacity: nat, id: nat, states: seq<Tracked>, ops: seq<Op>, k: nat, i: nat)
    requires Run(capacity, id, states, ops) && k <= |ops|
    ensures |states[k].s.caps| == capacity
    ensures IsValid(states[k].s.caps, i) ==>
              Placed(states, ops, k, i) || (i == 0 && IsRootCap(states[k].s.caps[i], id))
  {
    if k > 0 {
      CapsAreAsAsked(capacity, id, states, ops, k - 1, i);
      assert StepAt(states, ops, k - 1);
      StepCaps(states[k - 1], ops[k - 1], states[k], i);
      if IsValid(states[k].s.caps, i) {
        if !IsValid(states[k - 1].s.caps, i) {
          assert PlacedAt(states, ops, k, i, k - 1);
        } else if Placed(states, ops, k - 1, i) {
          var j: nat :| PlacedAt(states, ops, k - 1, i, j);
          assert PlacedAt(states, ops, k, i, j);
        }
      }
    }
  }

  /** In every run, what each mint, copy and derive does to the whole table. */
  lemma FillsInEveryRun(capacity: nat, id: nat, states: seq<Tracked>, ops: seq<Op>, k: nat, rights: bv8)
    requires Run(capacity, id, states, ops) && k < |ops| && Fills(ops[k])
    requires
      var op, caps := ops[k], states[k].s.caps;
      op.OpCopy? && op.src < |caps| ==> Masked(caps[op.src].rights, op.mask, rights)
    ensures
      var s, s' := states[k].s, states[k + 1].s;
      match ops[k]
      case OpMint(slot, t, obj, r, g) =>
        if IsValid(s.caps, s.rootSlot) && Has(s.caps[s.rootSlot].rights, WRITE) && Has(s.caps[s.rootSlot].rights, GRANT)
           && FreeSlot(s, slot) && RightsLegal(t, r)
        then PlacedIn(s, slot, t, obj, r, g, SLOT_INVALID, s') else s' == s
      case OpCopy(src, dst, mask) =>
        if IsValid(s.caps, src) && Has(s.caps[src].rights, GRANT) && s.caps[src].inheritable
           && CanBear(s, src, dst, rights)
        then PlacedIn(s, dst, s.caps[src].kobjType, s.caps[src].kobjId, rights, s.caps[src].badge, src, s') else s' == s
      case OpDerive(src, dst, r, g) =>
        if IsValid(s.caps, src) && Has(s.caps[src].rights, GRANT) && Within(r, s.caps[src].rights)
           && r != s.caps[src].rights && CanBear(s, src, dst, r)
        then PlacedIn(s, dst, s.caps[src].kobjType, s.caps[src].kobjId, r, g, src, s') else s' == s
      case _ => true
  {
    CapsAreAsAsked(capacity, id, states, ops, k, 0);
    assert StepAt(states, ops, k);
    match ops[k]
    case OpMint(slot, t, obj, r, g) => MintExact(states[k].s, slot, t, obj, r, g);
    case OpCopy(src, dst, mask) => CopyExact(states[k].s, src, dst, mask, rights);
    case OpDerive(src, dst, r, g) => DeriveExact(states[k].s, src, dst, r, g);
  }
}
