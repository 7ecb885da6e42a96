/**
 The derivation forest of one CSpace: what every capability operation keeps, and the
 meaning of the parent links (ancestors, subtrees).
 */
module Forest {
  import opened Lists
  import opened Capability

  // ---------------------------------------------------------------------------
  // The invariant
  // ---------------------------------------------------------------------------

  /** A non-root cap hangs below a VALID cap for the same kernel object that lists it,
      holds at least its rights, and was derived less deeply. */
  ghost predicate ParentOk(caps: seq<Cap>, i: nat)
    requires i < |caps|
  {
    var c := caps[i];
    && c.deriveDepth <= MAX_DERIVE_DEPTH
    && (c.parentSlot != SLOT_INVALID ==>
          && IsValid(caps, c.parentSlot)
          && var p := caps[c.parentSlot];
          && i in p.children
          && p.deriveDepth < c.deriveDepth
          && Subset(c.rights, p.rights)
          && p.kobjType == c.kobjType
          && p.kobjId == c.kobjId)
  }

  /** The children list names each child once, and each names this slot as parent. */
  ghost predicate ChildrenOk(caps: seq<Cap>, i: nat)
    requires i < |caps|
  {
    && NoDup(caps[i].children)
    && forall k: nat :: k in caps[i].children ==> IsValid(caps, k) && caps[k].parentSlot == i
  }

  ghost predicate ForestOk(caps: seq<Cap>) {
    && |caps| < SLOT_INVALID
    && (forall i: nat {:trigger ParentOk(caps, i)} :: IsValid(caps, i) ==> ParentOk(caps, i))
    && (forall i: nat {:trigger ChildrenOk(caps, i)} :: IsValid(caps, i) ==> ChildrenOk(caps, i))
  }

  /** Every VALID cap holds rights its object type permits. */
  ghost predicate TypesOk(caps: seq<Cap>) {
    forall i: nat :: IsValid(caps, i) ==> RightsLegal(caps[i].kobjType, caps[i].rights)
  }

  /** The stronger depth discipline that cap_integrity_check tests: roots at depth 0,
      every other cap exactly one below its parent. */
  ghost predicate DepthExact(caps: seq<Cap>) {
    forall i: nat :: IsValid(caps, i) ==>
      if caps[i].parentSlot == SLOT_INVALID then caps[i].deriveDepth == 0
      else IsValid(caps, caps[i].parentSlot) && caps[i].deriveDepth == caps[caps[i].parentSlot].deriveDepth + 1
  }

  // ---------------------------------------------------------------------------
  // Ancestors and subtrees
  // ---------------------------------------------------------------------------

  /** Following parent links from n reaches t.  The depth test makes the walk finite on
      any table; in a forest it always passes. */
  predicate Below(caps: seq<Cap>, t: nat, n: nat)
    decreases if n < |caps| then caps[n].deriveDepth else 0
  {
    && IsValid(caps, n)
    && (n == t ||
        (var p := caps[n].parentSlot;
         p < |caps| && caps[p].deriveDepth < caps[n].deriveDepth && Below(caps, t, p)))
  }

  /** The cap in slot t and everything derived from it, directly or not. */
  function Subtree(caps: seq<Cap>, t: nat): set<nat> {
    set n: nat | n < |caps| && Below(caps, t, n)
  }

  /** How many caps lie strictly above n. */
  function Ancestors(caps: seq<Cap>, n: nat): nat
    requires n < |caps|
    decreases caps[n].deriveDepth
  {
    var p := caps[n].parentSlot;
    if p < |caps| && caps[p].deriveDepth < caps[n].deriveDepth then 1 + Ancestors(caps, p) else 0
  }

  lemma {:induction false} AncestorsWithinDepth(caps: seq<Cap>, n: nat)
    requires ForestOk(caps) && IsValid(caps, n)
    ensures Ancestors(caps, n) <= caps[n].deriveDepth <= MAX_DERIVE_DEPTH
    ensures DepthExact(caps) ==> Ancestors(caps, n) == caps[n].deriveDepth
    decreases caps[n].deriveDepth
  {
    assert ParentOk(caps, n);
    var p := caps[n].parentSlot;
    if p != SLOT_INVALID {
      AncestorsWithinDepth(caps, p);
    }
  }

  /** Rights never grow along any derivation path, and the object never changes. */
  lemma {:induction false} RightsShrinkBelow(caps: seq<Cap>, t: nat, n: nat)
    requires ForestOk(caps) && Below(caps, t, n)
    ensures IsValid(caps, t)
    ensures Subset(caps[n].rights, caps[t].rights)
    ensures caps[n].kobjType == caps[t].kobjType && caps[n].kobjId == caps[t].kobjId
    decreases caps[n].deriveDepth
  {
    assert ParentOk(caps, n);
    if n != t {
      RightsShrinkBelow(caps, t, caps[n].parentSlot);
    }
  }

  lemma {:induction false} BelowIsDeeper(caps: seq<Cap>, t: nat, n: nat)
    requires Below(caps, t, n) && n != t
    ensures t < |caps| && caps[t].deriveDepth < caps[n].deriveDepth
    decreases caps[n].deriveDepth
  {
    var p := caps[n].parentSlot;
    if p != t {
      BelowIsDeeper(caps, t, p);
    }
  }

  /** No two distinct caps lie below each other: the parent relation has no cycle. */
  lemma Acyclic(caps: seq<Cap>, a: nat, b: nat)
    requires Below(caps, a, b) && Below(caps, b, a)
    ensures a == b
  {
    if a != b {
      BelowIsDeeper(caps, a, b);
      BelowIsDeeper(caps, b, a);
    }
  }

  lemma ParentIsNoChild(caps: seq<Cap>, i: nat)
    requires ForestOk(caps) && IsValid(caps, i)
    ensures caps[i].parentSlot !in caps[i].children && i !in caps[i].children && i != caps[i].parentSlot
  {
    assert ParentOk(caps, i) && ChildrenOk(caps, i);
    var p := caps[i].parentSlot;
    assert p != SLOT_INVALID ==> ParentOk(caps, p);
  }

  // ---------------------------------------------------------------------------
  // Sequences of slots
  // ---------------------------------------------------------------------------

  // ---------------------------------------------------------------------------
  // Initial state and insertion
  // ---------------------------------------------------------------------------

  lemma InitIsForest(capacity: nat, id: nat)
    requires 1 <= capacity <= MAX_CAPACITY
    ensures ForestOk(Init(capacity, id).caps)
    ensures DepthExact(Init(capacity, id).caps)
    ensures TypesOk(Init(capacity, id).caps)
  {
    assert Subset(READ | WRITE | GRANT | REVOKE, AllowedRights(KOBJ_CSPACE));
    assert (READ | WRITE | GRANT | REVOKE) & READ == READ;
  }

  ghost predicate DerivesFrom(caps: seq<Cap>, kobjType: nat, kobjId: nat, rights: bv8, parent: nat) {
    IsValid(caps, parent) ==>
      Subset(rights, caps[parent].rights) && kobjType == caps[parent].kobjType && kobjId == caps[parent].kobjId
  }

  lemma InsertKeepsForest(s: CSpace, slot: nat, kobjType: nat, kobjId: nat, rights: bv8, badge: nat, parent: nat)
    requires ForestOk(s.caps) && DerivesFrom(s.caps, kobjType, kobjId, rights, parent)
    ensures ForestOk(Insert(s, slot, kobjType, kobjId, rights, badge, parent).0.caps)
    ensures DepthExact(s.caps) ==> DepthExact(Insert(s, slot, kobjType, kobjId, rights, badge, parent).0.caps)
    ensures TypesOk(s.caps) ==> TypesOk(Insert(s, slot, kobjType, kobjId, rights, badge, parent).0.caps)
  {
    if CanInsert(s, slot, kobjType, rights, parent) {
      var caps' := Insert(s, slot, kobjType, kobjId, rights, badge, parent).0.caps;
      forall i: nat | IsValid(caps', i) ensures ParentOk(caps', i) {
        assert i == slot || ParentOk(s.caps, i);
      }
      forall i: nat | IsValid(caps', i) ensures ChildrenOk(caps', i) {
        assert i == slot || ChildrenOk(s.caps, i);
      }
    }
  }

  // ---------------------------------------------------------------------------
  // Deletion
  // ---------------------------------------------------------------------------

  lemma UnlinkInserted(s: CSpace, slot: nat, kobjType: nat, kobjId: nat, rights: bv8, badge: nat, parent: nat)
    requires ForestOk(s.caps) && |s.caps| < SLOT_INVALID && CanInsert(s, slot, kobjType, rights, parent)
    ensures
      var caps' := Insert(s, slot, kobjType, kobjId, rights, badge, parent).0.caps;
      Unlink(caps', slot) == s.caps[slot := caps'[slot]] && caps'[slot].children == []
  {
    if parent != SLOT_INVALID {
      assert ChildrenOk(s.caps, parent);
      WithoutLast(s.caps[parent].children, slot);
    }
  }

  /** Deleting a cap that was just inserted restores every other entry; only the counter
      remembers the insertion. */
  lemma DeleteUndoesInsert(s: CSpace, slot: nat, kobjType: nat, kobjId: nat, rights: bv8, badge: nat, parent: nat)
    requires ForestOk(s.caps) && |s.caps| < SLOT_INVALID && CanInsert(s, slot, kobjType, rights, parent)
    ensures
      var inserted := Insert(s, slot, kobjType, kobjId, rights, badge, parent).0;
      var (back, status) := Delete(inserted, slot);
      && status == Ok && back.caps == s.caps[slot := Cleared(SLOT_INVALID, SelfLinked)]
      && back.usedCount == s.usedCount + 1 && back.freeHead == s.freeHead
  {
    UnlinkInserted(s, slot, kobjType, kobjId, rights, badge, parent);
    var inserted := Insert(s, slot, kobjType, kobjId, rights, badge, parent).0;
    var unlinked := s.caps[slot := inserted.caps[slot]];
    assert Reparent(unlinked, [], SLOT_INVALID) == unlinked;
  }

  /** A deletion, entry by entry: the cap is cleared, its children become roots, its
      parent forgets it, and every other entry is untouched. */
  function DeletedEntry(s: CSpace, slot: nat, i: nat): Cap
    requires slot < |s.caps| && i < |s.caps|
  {
    var c := s.caps[slot];
    if i == slot then Cleared(SLOT_INVALID, SelfLinked)
    else if i == c.parentSlot then s.caps[i].(children := Without(s.caps[i].children, slot))
    else if i in c.children then s.caps[i].(parentSlot := SLOT_INVALID)
    else s.caps[i]
  }

  ghost predicate Deleted(s: CSpace, slot: nat, caps': seq<Cap>) {
    && IsValid(s.caps, slot)
    && |caps'| == |s.caps|
    && forall i: nat :: i < |s.caps| ==> caps'[i] == DeletedEntry(s, slot, i)
  }

  ghost predicate DeleteOutcome(s: CSpace, slot: nat, s': CSpace) {
    Deleted(s, slot, s'.caps) && s' == s.(caps := s'.caps)
  }

  lemma DeleteEffect(s: CSpace, slot: nat)
    requires ForestOk(s.caps) && Delete(s, slot).1 == Ok
    ensures DeleteOutcome(s, slot, Delete(s, slot).0)
  {
    assert ParentOk(s.caps, slot) && ChildrenOk(s.caps, slot);
    var c := s.caps[slot];
    if c.parentSlot != SLOT_INVALID {
      assert ParentOk(s.caps, c.parentSlot);
      assert c.parentSlot !in c.children;
    }
  }

  lemma DeletedParentOk(s: CSpace, slot: nat, caps': seq<Cap>, i: nat)
    requires ForestOk(s.caps) && Deleted(s, slot, caps') && IsValid(caps', i)
    ensures ParentOk(caps', i)
  {
    assert caps'[i] == DeletedEntry(s, slot, i);
    assert ParentOk(s.caps, i);
    var p := s.caps[i].parentSlot;
    if p != SLOT_INVALID && i !in s.caps[slot].children {
      assert p != slot && caps'[p] == DeletedEntry(s, slot, p);
      assert ChildrenOk(s.caps, p);
      WithoutProps(s.caps[p].children, slot);
      assert ParentOk(caps', i);
    } else if i in s.caps[slot].children {
      ParentIsNoChild(s.caps, slot);
      assert ParentOk(caps', i);
    }
  }

  lemma DeletedChildrenOk(s: CSpace, slot: nat, caps': seq<Cap>, i: nat)
    requires ForestOk(s.caps) && Deleted(s, slot, caps') && IsValid(caps', i)
    ensures ChildrenOk(caps', i)
  {
    assert caps'[i] == DeletedEntry(s, slot, i);
    assert ChildrenOk(s.caps, i) && ChildrenOk(s.caps, slot) && ParentOk(s.caps, slot);
    WithoutProps(s.caps[i].children, slot);
    forall k: nat | k in caps'[i].children ensures IsValid(caps', k) && caps'[k].parentSlot == i {
      assert k in s.caps[i].children && k != slot;
      assert caps'[k] == DeletedEntry(s, slot, k);
    }
  }

  lemma DeletedForest(s: CSpace, slot: nat, caps': seq<Cap>)
    requires ForestOk(s.caps) && Deleted(s, slot, caps')
    ensures ForestOk(caps')
  {
    forall i: nat | IsValid(caps', i) ensures ParentOk(caps', i) {
      DeletedParentOk(s, slot, caps', i);
    }
    forall i: nat | IsValid(caps', i) ensures ChildrenOk(caps', i) {
      DeletedChildrenOk(s, slot, caps', i);
    }
  }

  lemma DeleteKeepsForest(s: CSpace, slot: nat)
    requires ForestOk(s.caps)
    ensures ForestOk(Delete(s, slot).0.caps)
  {
    if Delete(s, slot).1 == Ok {
      DeleteEffect(s, slot);
      DeletedForest(s, slot, Delete(s, slot).0.caps);
    }
  }

  // ---------------------------------------------------------------------------
  // Move
  // ---------------------------------------------------------------------------

  /** A move, entry by entry: the cap arrives unchanged except for its slot, its depth
      and its inheritable flag, its children follow it, its parent lists the new slot
      instead of the old one, and every other entry is untouched. */
  function MovedEntry(s: CSpace, src: nat, dst: nat, i: nat): Cap
    requires src < |s.caps| && dst < |s.caps| && i < |s.caps|
  {
    var c := s.caps[src];
    var depth := if c.parentSlot < |s.caps| then s.caps[c.parentSlot].deriveDepth + 1 else 0;
    if i == src then Cleared(SLOT_INVALID, SelfLinked)
    else if i == dst then
      c.(deriveDepth := depth, inheritable := s.caps[dst].inheritable, cspaceRoot := s.rootSlot,
         freeNext := SelfLinked)
    else if i == c.parentSlot then s.caps[i].(children := Without(s.caps[i].children + [dst], src))
    else if i in c.children then s.caps[i].(parentSlot := dst)
    else s.caps[i]
  }

  ghost predicate Moved(s: CSpace, src: nat, dst: nat, caps': seq<Cap>) {
    && IsValid(s.caps, src) && dst < |s.caps| && s.caps[dst].state.Free?
    && |caps'| == |s.caps|
    && forall i: nat :: i < |s.caps| ==> caps'[i] == MovedEntry(s, src, dst, i)
  }

  ghost predicate MoveOutcome(s: CSpace, src: nat, dst: nat, s': CSpace) {
    && Moved(s, src, dst, s'.caps)
    && s' == s.(caps := s'.caps, usedCount := s.usedCount + 1)
  }

  lemma MoveEffectAt(s: CSpace, mid: CSpace, src: nat, dst: nat, i: nat)
    requires IsValid(s.caps, src) && dst < |s.caps| && s.caps[dst].state.Free? && i < |s.caps| < SLOT_INVALID
    requires
      var c := s.caps[src];
      && c.parentSlot !in c.children && src !in c.children && dst !in c.children && src != c.parentSlot
      && (c.parentSlot != SLOT_INVALID ==> IsValid(s.caps, c.parentSlot))
      && Insert(s, dst, c.kobjType, c.kobjId, c.rights, c.badge, c.parentSlot) == (mid, Ok)
    ensures |MoveInto(mid, src, dst).caps| == |s.caps|
    ensures MoveInto(mid, src, dst).caps[i] == MovedEntry(s, src, dst, i)
  {
    var c := s.caps[src];
    assert mid.caps[src] == c;
    var spliced := mid.caps[dst := mid.caps[dst].(children := c.children + [])];
    assert c.children + [] == c.children;
    var adopted := Reparent(spliced, c.children, dst);
    assert adopted[src] == c;
  }

  lemma MoveEffect(s: CSpace, src: nat, dst: nat)
    requires ForestOk(s.caps) && Move(s, src, dst).1 == Ok
    ensures MoveOutcome(s, src, dst, Move(s, src, dst).0)
  {
    var c := s.caps[src];
    assert ParentOk(s.caps, src) && ChildrenOk(s.caps, src);
    ParentIsNoChild(s.caps, src);
    var mid := Insert(s, dst, c.kobjType, c.kobjId, c.rights, c.badge, c.parentSlot).0;
    forall i: nat | i < |s.caps|
      ensures Move(s, src, dst).0.caps[i] == MovedEntry(s, src, dst, i)
    {
      MoveEffectAt(s, mid, src, dst, i);
    }
    MoveEffectAt(s, mid, src, dst, 0);
  }

  /** The parent's list after a move holds the new slot instead of the old one. */
  lemma MoveParentChildren(s: CSpace, src: nat, dst: nat)
    requires ForestOk(s.caps) && IsValid(s.caps, src) && dst < |s.caps| && s.caps[dst].state.Free?
    requires s.caps[src].parentSlot != SLOT_INVALID
    ensures IsValid(s.caps, s.caps[src].parentSlot)
    ensures
      var kids := s.caps[s.caps[src].parentSlot].children;
      && NoDup(Without(kids + [dst], src))
      && forall k: nat :: k in Without(kids + [dst], src) <==> (k in kids && k != src) || k == dst
  {
    assert ParentOk(s.caps, src);
    var p := s.caps[src].parentSlot;
    assert ChildrenOk(s.caps, p);
    WithoutProps(s.caps[p].children + [dst], src);
  }

  lemma MovedChildrenOk(s: CSpace, src: nat, dst: nat, caps': seq<Cap>, i: nat)
    requires ForestOk(s.caps) && Moved(s, src, dst, caps') && IsValid(caps', i)
    ensures ChildrenOk(caps', i)
  {
    var c := s.caps[src];
    assert ParentOk(s.caps, src) && ChildrenOk(s.caps, src);
    ParentIsNoChild(s.caps, src);
    if i == dst {
    } else if i == c.parentSlot {
      MoveParentChildren(s, src, dst);
      assert ChildrenOk(s.caps, i);
      ParentIsNoChild(s.caps, i);
    } else {
      assert ChildrenOk(s.caps, i);
    }
  }

  /** A child that follows its parent to the new slot. */
  lemma MovedChildParentOk(s: CSpace, src: nat, dst: nat, caps': seq<Cap>, i: nat)
    requires ForestOk(s.caps) && Moved(s, src, dst, caps') && i in s.caps[src].children
    ensures i < |caps'| && ParentOk(caps', i)
  {
    ParentIsNoChild(s.caps, src);
    assert ChildrenOk(s.caps, src);
    assert ParentOk(s.caps, i) && ParentOk(s.caps, src);
    assert caps'[i] == MovedEntry(s, src, dst, i);
    assert caps'[dst] == MovedEntry(s, src, dst, dst);
  }

  /** The moved cap and its siblings, j being the slot the cap came from. */
  lemma MovedNearParentOk(s: CSpace, src: nat, dst: nat, caps': seq<Cap>, i: nat, j: nat)
    requires ForestOk(s.caps) && Moved(s, src, dst, caps') && IsValid(caps', i)
    requires j == (if i == dst then src else i) && i !in s.caps[src].children
    requires IsValid(s.caps, j) && s.caps[j].parentSlot == s.caps[src].parentSlot
    ensures ParentOk(caps', i)
  {
    assert caps'[i] == MovedEntry(s, src, dst, i);
    assert ParentOk(s.caps, j) && ParentOk(s.caps, src);
    var p := s.caps[src].parentSlot;
    if p != SLOT_INVALID {
      ParentIsNoChild(s.caps, src);
      MoveParentChildren(s, src, dst);
      assert caps'[p] == MovedEntry(s, src, dst, p);
    }
  }

  lemma OnlyChildrenPoint(caps: seq<Cap>, p: nat, i: nat)
    requires ForestOk(caps) && IsValid(caps, i) && caps[i].parentSlot != SLOT_INVALID
    requires p < |caps| && i !in caps[p].children
    ensures caps[i].parentSlot != p
  {
    assert ParentOk(caps, i);
  }

  /** A cap elsewhere, whose parent is neither the moved cap nor its parent. */
  lemma MovedFarParentOk(s: CSpace, src: nat, dst: nat, caps': seq<Cap>, i: nat)
    requires ForestOk(s.caps) && Moved(s, src, dst, caps') && IsValid(caps', i)
    requires i != dst && i !in s.caps[src].children && s.caps[i].parentSlot != s.caps[src].parentSlot
    ensures ParentOk(caps', i)
  {
    assert caps'[i] == MovedEntry(s, src, dst, i);
    assert ParentOk(s.caps, i) && ParentOk(s.caps, src);
    var p := s.caps[i].parentSlot;
    if p != SLOT_INVALID {
      OnlyChildrenPoint(s.caps, src, i);
      assert caps'[p] == MovedEntry(s, src, dst, p);
    }
  }

  lemma MovedParentOk(s: CSpace, src: nat, dst: nat, caps': seq<Cap>, i: nat)
    requires ForestOk(s.caps) && Moved(s, src, dst, caps') && IsValid(caps', i)
    ensures ParentOk(caps', i)
  {
    if i in s.caps[src].children {
      MovedChildParentOk(s, src, dst, caps', i);
    } else if i == dst || s.caps[i].parentSlot == s.caps[src].parentSlot {
      MovedNearParentOk(s, src, dst, caps', i, if i == dst then src else i);
    } else {
      MovedFarParentOk(s, src, dst, caps', i);
    }
  }

  lemma MovedForest(s: CSpace, src: nat, dst: nat, caps': seq<Cap>)
    requires ForestOk(s.caps) && Moved(s, src, dst, caps')
    ensures ForestOk(caps')
  {
    forall i: nat | IsValid(caps', i) ensures ParentOk(caps', i) {
      MovedParentOk(s, src, dst, caps', i);
    }
    forall i: nat | IsValid(caps', i) ensures ChildrenOk(caps', i) {
      MovedChildrenOk(s, src, dst, caps', i);
    }
  }

  lemma MovedDepthExact(s: CSpace, src: nat, dst: nat, caps': seq<Cap>)
    requires ForestOk(s.caps) && Moved(s, src, dst, caps') && DepthExact(s.caps)
    ensures DepthExact(caps')
  {
    assert ParentOk(s.caps, src) && ChildrenOk(s.caps, src);
    forall i: nat | IsValid(caps', i)
      ensures if caps'[i].parentSlot == SLOT_INVALID then caps'[i].deriveDepth == 0
              else IsValid(caps', caps'[i].parentSlot)
                   && caps'[i].deriveDepth == caps'[caps'[i].parentSlot].deriveDepth + 1
    {
      assert i == dst || ParentOk(s.caps, i);
    }
  }

  lemma MovedTypesOk(s: CSpace, src: nat, dst: nat, caps': seq<Cap>)
    requires Moved(s, src, dst, caps') && TypesOk(s.caps)
    ensures TypesOk(caps')
  {
    forall i: nat | IsValid(caps', i) ensures RightsLegal(caps'[i].kobjType, caps'[i].rights) {
      var j := if i == dst then src else i;
      assert caps'[i].kobjType == s.caps[j].kobjType && caps'[i].rights == s.caps[j].rights;
    }
  }

  lemma MoveKeepsForest(s: CSpace, src: nat, dst: nat)
    requires ForestOk(s.caps)
    ensures ForestOk(Move(s, src, dst).0.caps)
    ensures DepthExact(s.caps) ==> DepthExact(Move(s, src, dst).0.caps)
    ensures TypesOk(s.caps) ==> TypesOk(Move(s, src, dst).0.caps)
  {
    var (s', status) := Move(s, src, dst);
    if status == Ok {
      MoveEffect(s, src, dst);
      MovedForest(s, src, dst, s'.caps);
      if DepthExact(s.caps) {
        MovedDepthExact(s, src, dst, s'.caps);
      }
      if TypesOk(s.caps) {
        MovedTypesOk(s, src, dst, s'.caps);
      }
    }
  }
}
