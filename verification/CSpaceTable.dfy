/**
 The capability table of one CSpace as the kernel updates it: an array of entries, the
 head of the free list and the use counter, changed in place by each operation.  The
 caller holds the CSpace lock, so each method is one atomic step.
 */
module CSpaceTable {
  import opened Lists
  import opened Capability
  import opened Forest
  import opened Revocation
  import opened RevokeStack
  import opened RevokeLoop
  import opened Integrity
  import opened CapPlaced

  /** One line of the rights matrix. */
  datatype TypeRights = TypeRights(kobjType: nat, allowed: bv8, mandatory: bv8)

  const RIGHTS_TABLE: seq<TypeRights> := [
    TypeRights(0, READ | WRITE | GRANT | REVOKE, READ),
    TypeRights(1, READ | WRITE | GRANT, READ),
    TypeRights(2, READ | WRITE | GRANT, READ),
    TypeRights(3, READ | WRITE | GRANT | REVOKE, READ),
    TypeRights(4, READ | WRITE | EXECUTE | GRANT, READ),
    TypeRights(5, READ | WRITE | EXECUTE, READ),
    TypeRights(6, READ | GRANT, READ),
    TypeRights(7, READ | WRITE | EXECUTE | GRANT, READ),
    TypeRights(8, READ | WRITE | GRANT | REVOKE, READ),
    TypeRights(9, READ | WRITE | GRANT, READ),
    TypeRights(10, READ | WRITE | GRANT, READ),
    TypeRights(11, READ | WRITE | GRANT | REVOKE, READ),
    TypeRights(12, READ | WRITE | EXECUTE | GRANT | REVOKE, READ),
    TypeRights(13, READ | WRITE | EXECUTE | GRANT | REVOKE, READ)
  ]

  lemma RightsTableMatches()
    ensures |RIGHTS_TABLE| == KOBJ_TYPE_COUNT
    ensures forall i: nat :: i < KOBJ_TYPE_COUNT ==> RIGHTS_TABLE[i] == TypeRights(i, AllowedRights(i), READ)
  {
  }

  /** cap_validate_rights_for_type: a search of the matrix, then the two subset tests. */
  method ValidateRights(kobjType: nat, rights: bv8) returns (r: Status)
    ensures r == if RightsLegal(kobjType, rights) then Ok else EInval
  {
    if kobjType >= KOBJ_TYPE_COUNT {
      return EInval;
    }
    RightsTableMatches();
    var i := 0;
    while i < |RIGHTS_TABLE| && RIGHTS_TABLE[i].kobjType != kobjType
      invariant 0 <= i <= kobjType
    {
      i := i + 1;
    }
    var entry := RIGHTS_TABLE[i];
    if rights & entry.allowed != rights {
      return EInval;
    }
    if rights & entry.mandatory != entry.mandatory {
      return EInval;
    }
    return Ok;
  }

  class CSpaceObject {
    const table: array<Cap>
    var freeHead: nat
    var usedCount: nat
    var rootSlot: nat

    ghost function View(): CSpace
      reads this, table
    {
      CSpace(table[..], freeHead, usedCount, rootSlot)
    }

    /** cspace_create: clear the table, thread slots 1.. onto the free list, then place
        the root cap in slot 0. */
    constructor (capacity: nat, id: nat)
      requires 1 <= capacity <= MAX_CAPACITY
      ensures fresh(table)
      ensures View() == Init(capacity, id)
    {
      table := new Cap[capacity](_ => Cleared(0, SelfLinked));
      freeHead, usedCount, rootSlot := SLOT_INVALID, 0, SLOT_INVALID;
      new;
      var i := 1;
      while i < capacity
        invariant 1 <= i <= capacity
        invariant table[0] == Cleared(0, SelfLinked)
        invariant forall j: nat :: 1 <= j < i ==> table[j] == InitCap(capacity, id, j)
        invariant forall j: nat :: i <= j < capacity ==> table[j] == Cleared(0, SelfLinked)
      {
        table[i] := table[i].(freeNext := if i + 1 < capacity then To(i + 1) else Null);
        i := i + 1;
      }
      freeHead := if capacity > 1 then 1 else SLOT_INVALID;
      table[0] := table[0].(state := Valid, kobjType := KOBJ_CSPACE, rights := READ | WRITE | GRANT | REVOKE,
                            badge := 0, kobjId := id, parentSlot := SLOT_INVALID, cspaceRoot := 0,
                            deriveDepth := 0, children := [], freeNext := SelfLinked);
      rootSlot, usedCount := 0, 1;
      assert table[..] == Init(capacity, id).caps;
    }

    method AllocSlot() returns (r: Status, slot: nat)
      requires freeHead != SLOT_INVALID ==> freeHead < table.Length
      modifies this, table
      ensures View() == Alloc(old(View())).0 && r == Alloc(old(View())).1
      ensures r == Ok ==> slot == old(freeHead)
    {
      slot := SLOT_INVALID;
      if freeHead == SLOT_INVALID {
        return ENoMem, slot;
      }
      slot := freeHead;
      match table[slot].freeNext {
        case To(next) => freeHead := next;
        case _ => freeHead := SLOT_INVALID;
      }
      table[slot] := Cleared(0, Null);
      r := Ok;
    }

    method InsertLocked(slot: nat, kobjType: nat, kobjId: nat, rights: bv8, badge: nat, parent: nat)
      returns (r: Status)
      modifies this, table
      ensures (View(), r) == Insert(old(View()), slot, kobjType, kobjId, rights, badge, parent)
    {
      if slot >= table.Length || !table[slot].state.Free? {
        return EInval;
      }
      var legal := ValidateRights(kobjType, rights);
      if legal != Ok {
        return EInval;
      }
      var depth := 0;
      if parent != SLOT_INVALID {
        if parent >= table.Length || !table[parent].state.Valid? {
          return EInval;
        }
        if table[parent].deriveDepth >= MAX_DERIVE_DEPTH {
          return EInval;
        }
        depth := table[parent].deriveDepth + 1;
      }
      table[slot] := table[slot].(state := Valid, kobjType := kobjType, rights := rights, badge := badge,
                                  kobjId := kobjId, parentSlot := parent, cspaceRoot := rootSlot,
                                  deriveDepth := depth, children := [], freeNext := SelfLinked);
      if parent != SLOT_INVALID {
        table[parent] := table[parent].(children := table[parent].children + [slot]);
      }
      usedCount := usedCount + 1;
      return Ok;
    }

    method MintCap(slot: nat, kobjType: nat, kobjId: nat, rights: bv8, badge: nat) returns (r: Status)
      modifies this, table
      ensures (View(), r) == Mint(old(View()), slot, kobjType, kobjId, rights, badge)
      ensures r == Ok && table.Length <= MAX_CAPACITY ==>
                PlacedIn(old(View()), slot, kobjType, kobjId, rights, badge, SLOT_INVALID, View())
    {
      ghost var s := View();
      if table.Length <= MAX_CAPACITY {
        MintExact(s, slot, kobjType, kobjId, rights, badge);
      }
      if slot == SLOT_INVALID || kobjType >= KOBJ_TYPE_COUNT {
        return EInval;
      }
      if !(rootSlot < table.Length && table[rootSlot].state.Valid?) {
        return ENoEnt;
      }
      if (WRITE | GRANT) & table[rootSlot].rights != WRITE | GRANT {
        return EAcces;
      }
      r := InsertLocked(slot, kobjType, kobjId, rights, badge, SLOT_INVALID);
    }

    /** The checks cap_copy makes before it inserts, in the source's order. */
    method CheckCopy(src: nat, dst: nat, mask: bv8) returns (r: Status)
      ensures r == CopyCheck(View(), src, dst, mask)
    {
      if src == SLOT_INVALID || dst == SLOT_INVALID {
        return EInval;
      }
      if !(src < table.Length && table[src].state.Valid?) {
        return ENoEnt;
      }
      var cap := table[src];
      if cap.rights & GRANT == 0 || !cap.inheritable {
        return EAcces;
      }
      if !Subset(CopyRights(cap, mask), cap.rights) {
        return EAcces;
      }
      return Ok;
    }

    method CopyCap(src: nat, dst: nat, mask: bv8) returns (r: Status)
      modifies this, table
      ensures (View(), r) == Copy(old(View()), src, dst, mask)
      ensures
        r == Ok && table.Length <= MAX_CAPACITY ==>
          && src < table.Length && dst < table.Length
          && var cap, rights := old(table[src]), table[dst].rights;
          && Masked(cap.rights, mask, rights)
          && PlacedIn(old(View()), dst, cap.kobjType, cap.kobjId, rights, cap.badge, src, View())
    {
      ghost var s := View();
      if table.Length <= MAX_CAPACITY && src < table.Length {
        MaskedIsCopyRights(s.caps[src], mask, CopyRights(s.caps[src], mask));
        CopyExact(s, src, dst, mask, CopyRights(s.caps[src], mask));
      }
      r := CheckCopy(src, dst, mask);
      if r == Ok {
        var cap := table[src];
        r := InsertLocked(dst, cap.kobjType, cap.kobjId, CopyRights(cap, mask), cap.badge, src);
      }
    }

    /** The checks cap_derive makes before it inserts, in the source's order. */
    method CheckDerive(src: nat, dst: nat, rights: bv8) returns (r: Status)
      ensures r == DeriveCheck(View(), src, dst, rights)
    {
      if src == SLOT_INVALID || dst == SLOT_INVALID {
        return EInval;
      }
      if !(src < table.Length && table[src].state.Valid?) {
        return ENoEnt;
      }
      var cap := table[src];
      if cap.rights & GRANT == 0 || rights & cap.rights != rights {
        return EAcces;
      }
      if rights == cap.rights {
        return EInval;
      }
      return Ok;
    }

    method DeriveCap(src: nat, dst: nat, rights: bv8, badge: nat) returns (r: Status)
      modifies this, table
      ensures (View(), r) == Derive(old(View()), src, dst, rights, badge)
      ensures
        r == Ok && table.Length <= MAX_CAPACITY ==>
          && src < table.Length && dst < table.Length
          && var cap := old(table[src]);
          PlacedIn(old(View()), dst, cap.kobjType, cap.kobjId, rights, badge, src, View())
    {
      ghost var s := View();
      if table.Length <= MAX_CAPACITY {
        DeriveExact(s, src, dst, rights, badge);
      }
      r := CheckDerive(src, dst, rights);
      if r == Ok {
        var cap := table[src];
        r := InsertLocked(dst, cap.kobjType, cap.kobjId, rights, badge, src);
      }
    }

    /** list_del_init on the sibling node of `slot`: out of its parent's children list. */
    method UnlinkSibling(slot: nat)
      requires slot < table.Length
      modifies table
      ensures table[..] == Unlink(old(table[..]), slot)
    {
      var p := table[slot].parentSlot;
      if p < table.Length {
        table[p] := table[p].(children := Without(table[p].children, slot));
      }
    }

    /** The loop over a children list that rewrites each child's parent slot. */
    method ReparentAll(kids: seq<nat>, parent: nat)
      requires forall k :: 0 <= k < |kids| ==> kids[k] < table.Length
      modifies table
      ensures table[..] == Reparent(old(table[..]), kids, parent)
    {
      var k := 0;
      while k < |kids|
        invariant 0 <= k <= |kids|
        invariant forall i: nat :: i < table.Length ==>
                    table[i] == if i in kids[..k] then old(table[i]).(parentSlot := parent) else old(table[i])
      {
        table[kids[k]] := table[kids[k]].(parentSlot := parent);
        assert kids[..k + 1] == kids[..k] + [kids[k]];
        k := k + 1;
      }
      assert kids[..k] == kids;
    }

    method MoveCap(src: nat, dst: nat) returns (r: Status)
      requires ForestOk(table[..])
      modifies this, table
      ensures (View(), r) == Move(old(View()), src, dst)
    {
      if src == SLOT_INVALID || dst == SLOT_INVALID {
        return EInval;
      }
      if !(src < table.Length && table[src].state.Valid?) {
        return ENoEnt;
      }
      var cap := table[src];
      if cap.rights & GRANT == 0 {
        return EAcces;
      }
      r := InsertLocked(dst, cap.kobjType, cap.kobjId, cap.rights, cap.badge, cap.parentSlot);
      if r != Ok {
        return;
      }
      ghost var inserted := View();
      assert inserted.caps[src] == cap by { ParentIsNoChild(old(table[..]), src); }
      table[dst] := table[dst].(children := table[src].children + table[dst].children);
      assert ChildrenOk(old(table[..]), src);
      assert forall k :: 0 <= k < |cap.children| ==> cap.children[k] in cap.children;
      ReparentAll(table[dst].children, dst);
      UnlinkSibling(src);
      table[src] := Cleared(SLOT_INVALID, SelfLinked);
      assert table[..] == MoveInto(inserted, src, dst).caps;
    }

    method DeleteCap(slot: nat) returns (r: Status)
      requires ForestOk(table[..])
      modifies this, table
      ensures (View(), r) == Delete(old(View()), slot)
    {
      if slot == SLOT_INVALID {
        return EInval;
      }
      if !(slot < table.Length && table[slot].state.Valid?) {
        return ENoEnt;
      }
      var kids := table[slot].children;
      assert ChildrenOk(table[..], slot);
      ParentIsNoChild(table[..], slot);
      assert forall k :: 0 <= k < |kids| ==> kids[k] in kids;
      UnlinkSibling(slot);
      ReparentAll(table[slot].children, SLOT_INVALID);
      table[slot] := Cleared(SLOT_INVALID, SelfLinked);
      return Ok;
    }

    /** Pushes children onto the explicit stack until it is full. */
    method PushChildren(stack: array<nat>, top: nat, kids: seq<nat>) returns (top': nat, overflow: bool)
      requires top <= stack.Length
      modifies stack
      ensures top <= top' <= stack.Length && top' - top <= |kids|
      ensures stack[..top'] == old(stack[..top]) + kids[..top' - top]
      ensures overflow <==> top' - top < |kids|
      ensures overflow ==> top' == stack.Length
    {
      top', overflow := top, false;
      var k := 0;
      while k < |kids| && !overflow
        invariant 0 <= k <= |kids| && top <= top' <= stack.Length && top' - top <= |kids|
        invariant stack[..top'] == old(stack[..top]) + kids[..top' - top]
        invariant if overflow then top' - top < |kids| && top' == stack.Length else top' - top == k
        decreases |kids| - k, !overflow
      {
        if top' < stack.Length {
          stack[top'] := kids[k];
          top' := top' + 1;
          assert stack[..top'] == stack[..top' - 1] + [kids[k]];
          k := k + 1;
        } else {
          overflow := true;
        }
      }
    }

    /** One visited cap: unlink it, clear it, push its slot on the free list. */
    method ReleaseSlot(cur: nat)
      requires cur < table.Length
      modifies this, table
      ensures View() == FreeOne(old(View()), cur)
    {
      UnlinkSibling(cur);
      table[cur] := Cleared(SLOT_INVALID, SelfLinked);
      if freeHead != SLOT_INVALID {
        table[cur] := table[cur].(freeNext := To(freeHead));
      } else {
        table[cur] := table[cur].(freeNext := Null);
      }
      freeHead := cur;
      if usedCount > 0 {
        usedCount := usedCount - 1;
      }
    }

    /** cap_revoke with a stack of `limit` cells.  `freed` is the order of release, `lost`
        the children a full stack turned away. */
    method RevokeCap(slot: nat, limit: nat) returns (r: Status, ghost freed: seq<nat>, ghost lost: set<nat>)
      requires ForestOk(table[..]) && 1 <= limit
      modifies this, table
      ensures RevokeOutcome(old(View()), slot, limit, r, freed, lost, View())
    {
      freed, lost := [], {};
      if slot == SLOT_INVALID {
        return EInval, freed, lost;
      }
      if !(slot < table.Length && table[slot].state.Valid?) {
        return ENoEnt, freed, lost;
      }
      if table[slot].rights & REVOKE == 0 {
        return EAcces, freed, lost;
      }
      r, freed, lost := RevokeTree(slot, limit);
      LoopEnds(old(View()), slot, limit, freed, lost, View());
    }

    /** The loop of cap_revoke, once the checks have passed. */
    method RevokeTree(slot: nat, limit: nat) returns (r: Status, ghost freed: seq<nat>, ghost lost: set<nat>)
      requires ForestOk(table[..]) && 1 <= limit && IsValid(table[..], slot)
      modifies this, table
      ensures LoopInv(old(View()), slot, limit, freed, [], lost, View())
      ensures r == if lost == {} then Ok else ENoMem
    {
      ghost var s0 := View();
      freed, lost := [], {};
      var stack := new nat[limit];
      stack[0] := slot;
      var top, overflow := 1, false;
      LoopStarts(s0, slot, limit);
      assert stack[..top] == [slot];
      while top > 0
        invariant 0 <= top <= limit
        invariant LoopInv(s0, slot, limit, freed, stack[..top], lost, View())
        invariant overflow <==> lost != {}
        decreases Subtree(s0.caps, slot) - ToSet(freed)
      {
        var more;
        top, more, freed, lost := VisitTop(stack, top, s0, slot, freed, lost);
        overflow := overflow || more;
      }
      assert stack[..top] == [];
      r := if overflow then ENoMem else Ok;
    }

    /** One round: pop a slot, push its children, release it. */
    method VisitTop(stack: array<nat>, top: nat, ghost s0: CSpace, ghost t: nat,
                    ghost freed: seq<nat>, ghost lost: set<nat>)
      returns (top': nat, more: bool, ghost freed': seq<nat>, ghost lost': set<nat>)
      requires 0 < top <= stack.Length
      requires LoopInv(s0, t, stack.Length, freed, stack[..top], lost, View())
      modifies this, table, stack
      ensures top' <= stack.Length
      ensures LoopInv(s0, t, stack.Length, freed', stack[..top'], lost', View())
      ensures (lost' == {} <==> lost == {} && !more)
      ensures Subtree(s0.caps, t) - ToSet(freed') < Subtree(s0.caps, t) - ToSet(freed)
    {
      ghost var s, rest, cur := View(), stack[..top - 1], stack[top - 1];
      assert stack[..top] == rest + [cur];
      // the source skips a slot that is no longer VALID; that never happens
      LoopTop(s0, t, stack.Length, freed, stack[..top], lost, s);
      top', more := PopAndRelease(stack, top);
      ghost var kids, k := s.caps[cur].children, top' - |rest|;
      freed', lost' := freed + [cur], lost + ToSet(kids[k..]);
      LoopRound(s0, t, stack.Length, freed, rest, cur, lost, s, k, stack[..top'], lost', View());
    }

    method PopAndRelease(stack: array<nat>, top: nat) returns (top': nat, more: bool)
      requires 0 < top <= stack.Length && stack[top - 1] < table.Length
      modifies this, table, stack
      ensures
        var rest, cur := old(stack[..top - 1]), old(stack[top - 1]);
        var kids := old(table[cur]).children;
        && |rest| <= top' <= stack.Length && top' - |rest| <= |kids|
        && stack[..top'] == rest + kids[..top' - |rest|]
        && (more <==> top' - |rest| < |kids|) && (more ==> top' == stack.Length)
        && View() == FreeOne(old(View()), cur)
    {
      var cur := stack[top - 1];
      ghost var s := View();
      top', more := PushChildren(stack, top - 1, table[cur].children);
      assert View() == s;
      ghost var stack' := stack[..top'];
      ReleaseSlot(cur);
      assert stack[..top'] == stack';
    }

    /** Check b of the self-check: the loop over one children list. */
    method CheckChildren(i: nat) returns (ok: bool)
      requires i < table.Length && ListsInTable(table[..])
      ensures ok <==> ChildrenCheck(table[..], i)
    {
      var kids := table[i].children;
      var k := 0;
      while k < |kids|
        invariant 0 <= k <= |kids|
        invariant forall j :: 0 <= j < k ==> ChildCheck(table[..], i, kids[j])
      {
        var child := kids[k];
        assert child in kids && table[..][i].children[k] < table.Length;
        if table[child].parentSlot != child && table[child].parentSlot != i {
          assert !ChildCheck(table[..], i, child);
          return false;
        }
        k := k + 1;
      }
      return true;
    }

    /** The parent part of the self-check. */
    method CheckParent(i: nat) returns (ok: bool)
      requires i < table.Length
      ensures ok <==> ParentCheck(table[..], i)
    {
      var cap := table[i];
      if cap.parentSlot != SLOT_INVALID {
        if cap.parentSlot >= table.Length || !table[cap.parentSlot].state.Valid? {
          return false;
        }
        var parent := table[cap.parentSlot];
        if cap.deriveDepth != parent.deriveDepth + 1 {
          return false;
        }
        return cap.rights & parent.rights == cap.rights;
      }
      return cap.deriveDepth == 0;
    }

    /** cap_integrity_check: total, passed and failed counts over all VALID caps. */
    method CheckIntegrity() returns (total: nat, passed: int, failed: nat)
      requires ListsInTable(table[..])
      ensures total == |ValidSlots(table[..])|
      ensures failed == |FailedSlots(table[..])|
      ensures passed == total - failed
    {
      total, failed := 0, 0;
      var i := 0;
      while i < table.Length
        invariant 0 <= i <= table.Length
        invariant total == |ValidBelow(table[..], i)| && failed == |FailedBelow(table[..], i)|
      {
        CountNext(table[..], i);
        if table[i].state.Valid? {
          total := total + 1;
          var ok := CheckParent(i);
          if ok {
            var legal := ValidateRights(table[i].kobjType, table[i].rights);
            ok := legal == Ok;
          }
          if ok {
            ok := CheckChildren(i);
          }
          if !ok {
            failed := failed + 1;
          }
        }
        i := i + 1;
      }
      CountAll(table[..]);
      passed := total - failed;
    }
  }
}
