/**
 Slot accounting of one CSpace: the free list threaded through the table, the slots
 handed out but not yet filled, and the use counter.
 */
module FreeList {
  import opened Lists
  import opened Capability
  import opened Forest
  import opened Revocation

  function NextLink(list: seq<nat>, k: nat): Link
    requires k < |list|
  {
    if k + 1 < |list| then To(list[k + 1]) else Null
  }

  ghost predicate Linked(s: CSpace, list: seq<nat>, k: nat)
    requires k < |list|
  {
    && list[k] < |s.caps|
    && s.caps[list[k]].state.Free?
    && s.caps[list[k]].freeNext == NextLink(list, k)
  }

  /** Following the links from freeHead visits exactly `list`, without repetition, and
      every entry on it is FREE. */
  ghost predicate FreeChain(s: CSpace, list: seq<nat>) {
    && |s.caps| < SLOT_INVALID
    && NoDup(list)
    && s.freeHead == (if list == [] then SLOT_INVALID else list[0])
    && (forall k: nat {:trigger Linked(s, list, k)} :: k < |list| ==> Linked(s, list, k))
  }

  /** Slot i is exactly one of: VALID, on the free list, or handed out. */
  ghost predicate SlotPlaced(s: CSpace, list: seq<nat>, handed: set<nat>, i: nat)
    requires i < |s.caps|
  {
    if s.caps[i].state.Valid? then i !in list && i !in handed
    else s.caps[i].state.Free? && (i in list <==> i !in handed)
  }

  ghost predicate Partition(s: CSpace, list: seq<nat>, handed: set<nat>) {
    && FreeChain(s, list)
    && (forall i: nat :: i in handed ==> i < |s.caps|)
    && (forall i: nat {:trigger SlotPlaced(s, list, handed, i)} :: i < |s.caps| ==> SlotPlaced(s, list, handed, i))
  }

  /** The counter exceeds the number of VALID caps by `drift`. */
  ghost predicate Counted(s: CSpace, drift: nat) {
    s.usedCount == |ValidSlots(s.caps)| + drift
  }

  // ---------------------------------------------------------------------------
  // Chains
  // ---------------------------------------------------------------------------

  /** The list is determined by the table. */
  lemma {:induction false} ChainUniqueAt(s: CSpace, a: seq<nat>, b: seq<nat>, k: nat)
    requires FreeChain(s, a) && FreeChain(s, b) && k < |a|
    ensures k < |b| && a[k] == b[k]
  {
    if k > 0 {
      ChainUniqueAt(s, a, b, k - 1);
      assert Linked(s, a, k - 1) && Linked(s, b, k - 1);
    } else {
      assert Linked(s, a, 0);
    }
  }

  lemma ChainUnique(s: CSpace, a: seq<nat>, b: seq<nat>)
    requires FreeChain(s, a) && FreeChain(s, b)
    ensures a == b
  {
    if |a| > 0 { ChainUniqueAt(s, a, b, |a| - 1); }
    if |b| > 0 { ChainUniqueAt(s, b, a, |b| - 1); }
    forall k: nat | k < |a| ensures a[k] == b[k] {
      ChainUniqueAt(s, a, b, k);
    }
  }

  /** Entries on the list and the head unchanged: still the same list. */
  lemma ChainFrame(s: CSpace, s': CSpace, list: seq<nat>)
    requires FreeChain(s, list) && |s'.caps| == |s.caps| && s'.freeHead == s.freeHead
    requires forall i: nat :: i in list && i < |s.caps| ==> s'.caps[i] == s.caps[i]
    ensures FreeChain(s', list)
  {
    forall k: nat | k < |list| ensures Linked(s', list, k) {
      assert Linked(s, list, k);
      assert list[k] in list;
    }
  }

  lemma InitPartition(capacity: nat, id: nat)
    requires 1 <= capacity <= MAX_CAPACITY
    ensures Partition(Init(capacity, id), seq(capacity - 1, i requires 0 <= i => i + 1), {})
    ensures Counted(Init(capacity, id), 0)
  {
    var s := Init(capacity, id);
    var list := seq(capacity - 1, i requires 0 <= i => i + 1);
    assert ValidSlots(s.caps) == {0};
    forall k: nat | k < |list| ensures Linked(s, list, k) {
    }
    forall i: nat | i < |s.caps| ensures SlotPlaced(s, list, {}, i) {
      assert i > 0 ==> list[i - 1] == i;
    }
  }

  /** cspace_alloc_slot hands out the head of the list, and fails only on an empty one. */
  lemma AllocPartition(s: CSpace, list: seq<nat>, handed: set<nat>)
    requires Partition(s, list, handed)
    ensures s.freeHead != SLOT_INVALID ==> s.freeHead < |s.caps|
    ensures list == [] ==> Alloc(s) == (s, ENoMem)
    ensures list != [] ==> Alloc(s).1 == Ok && Partition(Alloc(s).0, list[1..], handed + {s.freeHead})
    ensures ValidSlots(Alloc(s).0.caps) == ValidSlots(s.caps)
  {
    if list != [] {
      assert Linked(s, list, 0);
      var s', tail := Alloc(s).0, list[1..];
      assert list == [list[0]] + tail;
      NoDupSplit([list[0]], tail);
      assert list[0] !in tail by { assert list[0] in [list[0]]; }
      assert tail != [] ==> Linked(s, list, 1);
      forall k: nat | k < |tail| ensures Linked(s', tail, k) {
        assert Linked(s, list, k + 1);
        assert tail[k] in tail;
      }
      forall i: nat | i < |s'.caps| ensures SlotPlaced(s', tail, handed + {list[0]}, i) {
        assert SlotPlaced(s, list, handed, i);
      }
    }
  }

  // ---------------------------------------------------------------------------
  // Filling and emptying slots
  // ---------------------------------------------------------------------------

  /** Filling a slot that was handed out makes it VALID. */
  lemma InsertPartition(s: CSpace, list: seq<nat>, handed: set<nat>,
                        slot: nat, kobjType: nat, kobjId: nat, rights: bv8, badge: nat, parent: nat)
    requires Partition(s, list, handed) && slot in handed
    requires CanInsert(s, slot, kobjType, rights, parent)
    ensures Partition(Insert(s, slot, kobjType, kobjId, rights, badge, parent).0, list, handed - {slot})
  {
    var s' := Insert(s, slot, kobjType, kobjId, rights, badge, parent).0;
    assert SlotPlaced(s, list, handed, slot);
    forall i: nat | i in list && i < |s.caps| ensures s'.caps[i] == s.caps[i] {
      assert SlotPlaced(s, list, handed, i);
    }
    ChainFrame(s, s', list);
    forall i: nat | i < |s'.caps| ensures SlotPlaced(s', list, handed - {slot}, i) {
      assert SlotPlaced(s, list, handed, i);
    }
  }

  lemma InsertCounted(s: CSpace, drift: nat,
                      slot: nat, kobjType: nat, kobjId: nat, rights: bv8, badge: nat, parent: nat)
    requires Counted(s, drift) && CanInsert(s, slot, kobjType, rights, parent)
    ensures Counted(Insert(s, slot, kobjType, kobjId, rights, badge, parent).0, drift)
  {
    var s' := Insert(s, slot, kobjType, kobjId, rights, badge, parent).0;
    assert forall i: nat :: i < |s.caps| ==> (s'.caps[i].state.Valid? <==> i == slot || s.caps[i].state.Valid?);
    assert ValidSlots(s'.caps) == ValidSlots(s.caps) + {slot};
    assert slot !in ValidSlots(s.caps);
  }

  /** Filling a slot keeps the free list intact exactly when the slot was not on it. */
  lemma InsertKeepsChainIff(s: CSpace, list: seq<nat>,
                            slot: nat, kobjType: nat, kobjId: nat, rights: bv8, badge: nat, parent: nat)
    requires FreeChain(s, list) && CanInsert(s, slot, kobjType, rights, parent)
    ensures (exists after :: FreeChain(Insert(s, slot, kobjType, kobjId, rights, badge, parent).0, after))
       <==> slot !in list
  {
    var s' := Insert(s, slot, kobjType, kobjId, rights, badge, parent).0;
    if slot !in list {
      forall i: nat | i in list && i < |s.caps| ensures s'.caps[i] == s.caps[i] {
        var k: nat :| k < |list| && list[k] == i;
        assert Linked(s, list, k);
      }
      ChainFrame(s, s', list);
    } else {
      var k: nat :| k < |list| && list[k] == slot;
      forall after | FreeChain(s', after) ensures false {
        ChainMeets(s, s', list, after, slot, k, k);
      }
    }
  }

  /** Two tables that agree on FREE entries up to the k-th: their lists agree that far. */
  lemma {:induction false} ChainMeets(s: CSpace, s': CSpace, list: seq<nat>, after: seq<nat>,
                                      slot: nat, at: nat, k: nat)
    requires FreeChain(s, list) && FreeChain(s', after)
    requires |s'.caps| == |s.caps| && s'.freeHead == s.freeHead
    requires forall i: nat :: i < |s.caps| && s.caps[i].state.Free? && i != slot ==> s'.caps[i] == s.caps[i]
    requires k <= at < |list| && list[at] == slot
    ensures k < |after| && after[k] == list[k] && Linked(s', after, k)
  {
    if k > 0 {
      ChainMeets(s, s', list, after, slot, at, k - 1);
      assert Linked(s, list, k - 1) && Linked(s', after, k - 1);
    } else {
      assert Linked(s, list, 0);
    }
  }

  /** A move swaps the two slots' roles; the counter runs ahead by one. */
  lemma MovePartition(s: CSpace, list: seq<nat>, handed: set<nat>, src: nat, dst: nat, s': CSpace)
    requires ForestOk(s.caps) && Partition(s, list, handed) && dst in handed && MoveOutcome(s, src, dst, s')
    ensures Partition(s', list, handed - {dst} + {src})
  {
    assert SlotPlaced(s, list, handed, src) && SlotPlaced(s, list, handed, dst);
    assert ParentOk(s.caps, src) && ChildrenOk(s.caps, src);
    forall i: nat | i in list && i < |s.caps| ensures s'.caps[i] == s.caps[i] {
      assert SlotPlaced(s, list, handed, i);
    }
    ChainFrame(s, s', list);
    forall i: nat | i < |s'.caps| ensures SlotPlaced(s', list, handed - {dst} + {src}, i) {
      assert SlotPlaced(s, list, handed, i);
    }
  }

  lemma MoveCounted(s: CSpace, drift: nat, src: nat, dst: nat, s': CSpace)
    requires Counted(s, drift) && MoveOutcome(s, src, dst, s')
    ensures Counted(s', drift + 1)
  {
    var before, after := ValidSlots(s.caps), ValidSlots(s'.caps);
    assert forall i: nat :: i < |s'.caps| ==> s'.caps[i] == MovedEntry(s, src, dst, i);
    assert after == before - {src} + {dst};
    assert src in before && dst !in before;
  }

  /** A deleted slot goes back to nobody; the counter stays one too high. */
  lemma DeletePartition(s: CSpace, list: seq<nat>, handed: set<nat>, slot: nat, s': CSpace)
    requires ForestOk(s.caps) && Partition(s, list, handed) && DeleteOutcome(s, slot, s')
    ensures Partition(s', list, handed + {slot})
  {
    assert SlotPlaced(s, list, handed, slot);
    assert ParentOk(s.caps, slot) && ChildrenOk(s.caps, slot);
    forall i: nat | i in list && i < |s.caps| ensures s'.caps[i] == s.caps[i] {
      assert SlotPlaced(s, list, handed, i);
    }
    ChainFrame(s, s', list);
    forall i: nat | i < |s'.caps| ensures SlotPlaced(s', list, handed + {slot}, i) {
      assert SlotPlaced(s, list, handed, i);
    }
  }

  lemma DeleteCounted(s: CSpace, drift: nat, slot: nat, s': CSpace)
    requires Counted(s, drift) && DeleteOutcome(s, slot, s')
    ensures Counted(s', drift + 1)
  {
    var before, after := ValidSlots(s.caps), ValidSlots(s'.caps);
    assert forall i: nat :: i < |s'.caps| ==> s'.caps[i] == DeletedEntry(s, slot, i);
    assert after == before - {slot};
    assert slot in before;
  }

  // ---------------------------------------------------------------------------
  // Revocation
  // ---------------------------------------------------------------------------

  /** Each released slot links to the one released before it, the first to the old head. */
  lemma {:induction false} FreeAllLinks(s: CSpace, freed: seq<nat>, k: nat)
    requires |s.caps| < SLOT_INVALID && InTable(s, freed) && NoDup(freed) && k < |freed|
    ensures FreeAll(s, freed).caps[freed[k]].freeNext ==
            if k == 0 then LinkTo(s.freeHead) else To(freed[k - 1])
    decreases |freed|
  {
    var init, cur := freed[..|freed| - 1], freed[|freed| - 1];
    if k < |init| {
      FreeAllLinks(s, init, k);
      assert init[k] == freed[k] != cur;
    } else if init != [] {
      assert FreeAll(s, init).freeHead == freed[k - 1];
    }
  }

  /** Revoked slots are stacked on the free list in order of release, also when the
      revocation stopped halfway. */
  lemma RevokePartition(s: CSpace, list: seq<nat>, handed: set<nat>, t: nat, freed: seq<nat>)
    requires ForestOk(s.caps) && Partition(s, list, handed)
    requires NoDup(freed) && InTable(s, freed) && PartRevoked(s.caps, t, freed, FreeAll(s, freed).caps)
    ensures Partition(FreeAll(s, freed), Reversed(freed) + list, handed)
  {
    var s', list' := FreeAll(s, freed), Reversed(freed) + list;
    var now := s'.caps;
    forall i: nat | i < |now| ensures SlotPlaced(s', list', handed, i) {
      assert SlotPlaced(s, list, handed, i);
      assert i in freed ==> i in Subtree(s.caps, t) by { assert i in freed <==> i in ToSet(freed); }
      ReversedMembers(freed, i);
    }
    forall i: nat | i in list && i < |s.caps| ensures i !in freed && now[i] == s.caps[i] {
      assert SlotPlaced(s, list, handed, i);
      assert i in freed <==> i in ToSet(freed);
      assert ParentOk(s.caps, t);
    }
    RevokeChain(s, list, freed);
  }

  /** What release j left in its slot: a free entry that leads to the one before. */
  predicate Stacked(s: CSpace, s': CSpace, freed: seq<nat>, j: nat)
    requires j < |freed|
  {
    && freed[j] < |s.caps| == |s'.caps|
    && s'.caps[freed[j]].state.Free?
    && s'.caps[freed[j]].freeNext == if j == 0 then LinkTo(s.freeHead) else To(freed[j - 1])
  }

  /** The link at position k of the stacked list, given the links of its two parts. */
  lemma StackedLink(s: CSpace, s': CSpace, list: seq<nat>, freed: seq<nat>, k: nat)
    requires FreeChain(s, list) && freed != [] && k < |freed| + |list| && |s'.caps| == |s.caps|
    requires forall j: nat :: j < |list| && list[j] < |s.caps| ==> s'.caps[list[j]] == s.caps[list[j]]
    requires k < |freed| ==> Stacked(s, s', freed, |freed| - 1 - k)
    ensures Linked(s', Reversed(freed) + list, k)
  {
    if k < |freed| {
      assert list != [] ==> Linked(s, list, 0);
    } else {
      assert Linked(s, list, k - |freed|);
    }
  }

  lemma StackedChain(s: CSpace, s': CSpace, list: seq<nat>, freed: seq<nat>)
    requires FreeChain(s, list) && NoDup(freed) && freed != [] && |s'.caps| == |s.caps|
    requires s'.freeHead == freed[|freed| - 1]
    requires forall j: nat :: j < |freed| ==> Stacked(s, s', freed, j)
    requires forall i: nat :: i in list && i < |s.caps| ==> i !in freed && s'.caps[i] == s.caps[i]
    ensures FreeChain(s', Reversed(freed) + list)
  {
    forall j: nat | j < |list| ensures list[j] < |s.caps| && list[j] !in freed && s'.caps[list[j]] == s.caps[list[j]] {
      assert Linked(s, list, j);
      assert list[j] in list;
    }
    ReversedNoDup(freed, list);
    forall k: nat | k < |freed| + |list| ensures Linked(s', Reversed(freed) + list, k) {
      StackedLink(s, s', list, freed, k);
    }
  }

  lemma RevokeChain(s: CSpace, list: seq<nat>, freed: seq<nat>)
    requires FreeChain(s, list) && NoDup(freed) && InTable(s, freed) && freed != []
    requires forall i: nat :: i in list && i < |s.caps| ==> i !in freed && FreeAll(s, freed).caps[i] == s.caps[i]
    requires forall i: nat :: i in freed && i < |s.caps| ==> FreeAll(s, freed).caps[i].state.Free?
    ensures FreeChain(FreeAll(s, freed), Reversed(freed) + list)
  {
    var s' := FreeAll(s, freed);
    forall j: nat | j < |freed| ensures Stacked(s, s', freed, j) {
      FreeAllLinks(s, freed, j);
      assert freed[j] in freed;
    }
    StackedChain(s, s', list, freed);
  }

  /** The counter falls by the number of released slots, which is the size of the tree when
      the revocation is complete. */
  lemma RevokeCounted(s: CSpace, drift: nat, t: nat, freed: seq<nat>)
    requires Counted(s, drift)
    requires NoDup(freed) && InTable(s, freed) && PartRevoked(s.caps, t, freed, FreeAll(s, freed).caps)
    ensures Counted(FreeAll(s, freed), drift)
    ensures FreeAll(s, freed).usedCount == s.usedCount - |freed|
    ensures ToSet(freed) == Subtree(s.caps, t) ==>
              FreeAll(s, freed).usedCount == s.usedCount - |Subtree(s.caps, t)|
  {
    PartLeaves(s.caps, t, freed, FreeAll(s, freed).caps);
    ToSetSize(freed);
    SubsetSize(ToSet(freed), ValidSlots(s.caps));
  }
}
