/**
 Capability descriptors, the rights matrix, and the capability operations of one
 CSpace as functions on its state (kernel/cap/capability.c, kernel/cap/cspace.c).

 An intrusive children list is a sequence of slots; the list.h operations on it are
 append, removal of one slot, and splice.  The sibling link doubles as the link of the
 free list, and that use of it is the field `freeNext`.
 */
module Capability {
  import opened Lists

  const SLOT_INVALID: nat := 0xFFFF_FFFF
  const MAX_DERIVE_DEPTH: nat := 8
  const MAX_CAPACITY: nat := 256
  const KOBJ_CSPACE: nat := 3
  const KOBJ_TYPE_COUNT: nat := 14

  const READ: bv8 := 1
  const WRITE: bv8 := 2
  const EXECUTE: bv8 := 4
  const GRANT: bv8 := 8
  const REVOKE: bv8 := 16

  datatype Status = Ok | EInval | ENoEnt | EAcces | ENoMem

  datatype CapState = Free | Valid | Revoked

  /** The free-list use of `sibling.next`: a NULL, a pointer to another table entry,
      or the self-link that INIT_LIST_HEAD leaves behind. */
  datatype Link = Null | To(slot: nat) | SelfLinked

  datatype Cap = Cap(
    state: CapState,
    kobjType: nat,
    rights: bv8,
    badge: nat,
    kobjId: nat,
    parentSlot: nat,
    cspaceRoot: nat,
    deriveDepth: nat,
    inheritable: bool,
    children: seq<nat>,
    freeNext: Link)

  datatype CSpace = CSpace(caps: seq<Cap>, freeHead: nat, usedCount: nat, rootSlot: nat)

  // ---------------------------------------------------------------------------
  // Rights
  // ---------------------------------------------------------------------------

  predicate Subset(a: bv8, b: bv8) {
    a & b == a
  }

  function AllowedRights(kobjType: nat): bv8 {
    match kobjType
    case 0 | 3 | 8 | 11 => READ | WRITE | GRANT | REVOKE
    case 1 | 2 | 9 | 10 => READ | WRITE | GRANT
    case 4 | 7 => READ | WRITE | EXECUTE | GRANT
    case 5 => READ | WRITE | EXECUTE
    case 6 => READ | GRANT
    case 12 | 13 => READ | WRITE | EXECUTE | GRANT | REVOKE
    case _ => 0
  }

  /** What the rights matrix permits: a known type, rights within its allowed set,
      and READ, the one right every type makes mandatory. */
  predicate RightsLegal(kobjType: nat, rights: bv8) {
    kobjType < KOBJ_TYPE_COUNT && Subset(rights, AllowedRights(kobjType)) && rights & READ == READ
  }

  // ---------------------------------------------------------------------------
  // Table access
  // ---------------------------------------------------------------------------

  /** cspace_lookup: the slot is in range and holds a VALID cap. */
  predicate IsValid(caps: seq<Cap>, i: nat) {
    i < |caps| && caps[i].state.Valid?
  }

  function ValidSlots(caps: seq<Cap>): set<nat> {
    set i: nat | i < |caps| && caps[i].state.Valid?
  }

  /** What memset plus the two list initialisations leave in a released entry. */
  function Cleared(parentSlot: nat, link: Link): Cap {
    Cap(Free, 0, 0, 0, 0, parentSlot, 0, 0, false, [], link)
  }

  function LinkTo(head: nat): Link {
    if head == SLOT_INVALID then Null else To(head)
  }

  /** Takes `slot` out of the children list it is on, if its entry names a parent. */
  function Unlink(caps: seq<Cap>, slot: nat): (r: seq<Cap>)
    requires slot < |caps|
    ensures |r| == |caps|
  {
    var p := caps[slot].parentSlot;
    if p < |caps| then caps[p := caps[p].(children := Without(caps[p].children, slot))] else caps
  }

  /** Rewrites parent_slot of every listed slot. */
  function Reparent(caps: seq<Cap>, kids: seq<nat>, parent: nat): (r: seq<Cap>)
    ensures |r| == |caps|
    ensures forall i :: 0 <= i < |caps| ==>
              r[i] == if i in kids then caps[i].(parentSlot := parent) else caps[i]
  {
    seq(|caps|, i requires 0 <= i < |caps| => if i in kids then caps[i].(parentSlot := parent) else caps[i])
  }

  // ---------------------------------------------------------------------------
  // Operations
  // ---------------------------------------------------------------------------

  predicate CanInsert(s: CSpace, slot: nat, kobjType: nat, rights: bv8, parent: nat) {
    && slot < |s.caps|
    && s.caps[slot].state.Free?
    && RightsLegal(kobjType, rights)
    && (parent != SLOT_INVALID ==>
          IsValid(s.caps, parent) && s.caps[parent].deriveDepth < MAX_DERIVE_DEPTH)
  }

  /** cap_insert_locked: `inheritable` is not among the fields it writes. */
  function Insert(s: CSpace, slot: nat, kobjType: nat, kobjId: nat, rights: bv8, badge: nat, parent: nat)
    : (r: (CSpace, Status))
    ensures |r.0.caps| == |s.caps|
  {
    if !CanInsert(s, slot, kobjType, rights, parent) then (s, EInval) else
    var depth := if parent == SLOT_INVALID then 0 else s.caps[parent].deriveDepth + 1;
    var cap := Cap(Valid, kobjType, rights, badge, kobjId, parent, s.rootSlot, depth,
                   s.caps[slot].inheritable, [], SelfLinked);
    var filled := s.caps[slot := cap];
    var linked := if parent == SLOT_INVALID then filled
                  else filled[parent := filled[parent].(children := filled[parent].children + [slot])];
    (s.(caps := linked, usedCount := s.usedCount + 1), Ok)
  }

  function Mint(s: CSpace, slot: nat, kobjType: nat, kobjId: nat, rights: bv8, badge: nat): (CSpace, Status) {
    if slot == SLOT_INVALID || kobjType >= KOBJ_TYPE_COUNT then (s, EInval)
    else if !IsValid(s.caps, s.rootSlot) then (s, ENoEnt)
    else if !Subset(WRITE | GRANT, s.caps[s.rootSlot].rights) then (s, EAcces)
    else Insert(s, slot, kobjType, kobjId, rights, badge, SLOT_INVALID)
  }

  function CopyRights(cap: Cap, mask: bv8): bv8 {
    if mask != 0 then cap.rights & mask else cap.rights
  }

  function CopyCheck(s: CSpace, src: nat, dst: nat, mask: bv8): Status {
    if src == SLOT_INVALID || dst == SLOT_INVALID then EInval
    else if !IsValid(s.caps, src) then ENoEnt
    else if s.caps[src].rights & GRANT == 0 || !s.caps[src].inheritable then EAcces
    else if !Subset(CopyRights(s.caps[src], mask), s.caps[src].rights) then EAcces
    else Ok
  }

  function Copy(s: CSpace, src: nat, dst: nat, mask: bv8): (CSpace, Status) {
    var check := CopyCheck(s, src, dst, mask);
    if check != Ok then (s, check)
    else
      var cap := s.caps[src];
      Insert(s, dst, cap.kobjType, cap.kobjId, CopyRights(cap, mask), cap.badge, src)
  }

  function DeriveCheck(s: CSpace, src: nat, dst: nat, rights: bv8): Status {
    if src == SLOT_INVALID || dst == SLOT_INVALID then EInval
    else if !IsValid(s.caps, src) then ENoEnt
    else if s.caps[src].rights & GRANT == 0 || !Subset(rights, s.caps[src].rights) then EAcces
    else if rights == s.caps[src].rights then EInval
    else Ok
  }

  function Derive(s: CSpace, src: nat, dst: nat, rights: bv8, badge: nat): (CSpace, Status) {
    var check := DeriveCheck(s, src, dst, rights);
    if check != Ok then (s, check)
    else
      var cap := s.caps[src];
      Insert(s, dst, cap.kobjType, cap.kobjId, rights, badge, src)
  }

  /** cap_move after its checks: insert beside the source, splice the children over,
      unlink the source and clear it.  The counter is not lowered again and the source
      slot does not return to the free list. */
  function MoveInto(inserted: CSpace, src: nat, dst: nat): CSpace
    requires src < |inserted.caps| && dst < |inserted.caps|
  {
    var kids := inserted.caps[src].children;
    var spliced := inserted.caps[dst := inserted.caps[dst].(children := kids + inserted.caps[dst].children)];
    var adopted := Reparent(spliced, spliced[dst].children, dst);
    var unlinked := Unlink(adopted, src);
    inserted.(caps := unlinked[src := Cleared(SLOT_INVALID, SelfLinked)])
  }

  function Move(s: CSpace, src: nat, dst: nat): (CSpace, Status) {
    if src == SLOT_INVALID || dst == SLOT_INVALID then (s, EInval)
    else if !IsValid(s.caps, src) then (s, ENoEnt)
    else
      var cap := s.caps[src];
      if cap.rights & GRANT == 0 then (s, EAcces)
      else
        var (inserted, status) := Insert(s, dst, cap.kobjType, cap.kobjId, cap.rights, cap.badge, cap.parentSlot);
        if status != Ok then (s, status) else (MoveInto(inserted, src, dst), Ok)
  }

  /** cap_delete: the children lose their parent but keep their depth; neither the
      counter nor the free list is touched. */
  function Delete(s: CSpace, slot: nat): (CSpace, Status) {
    if slot == SLOT_INVALID then (s, EInval)
    else if !IsValid(s.caps, slot) then (s, ENoEnt)
    else
      var unlinked := Unlink(s.caps, slot);
      var orphaned := Reparent(unlinked, unlinked[slot].children, SLOT_INVALID);
      (s.(caps := orphaned[slot := Cleared(SLOT_INVALID, SelfLinked)]), Ok)
  }

  /** cspace_alloc_slot.  In C a head whose link is neither NULL nor a pointer into the table
      gives a head outside it; the model then takes the list to end.  On a well-formed free
      list (FreeList.FreeChain) there is no such link. */
  function Alloc(s: CSpace): (CSpace, Status)
    requires s.freeHead != SLOT_INVALID ==> s.freeHead < |s.caps|
  {
    if s.freeHead == SLOT_INVALID then (s, ENoMem)
    else
      var next := match s.caps[s.freeHead].freeNext { case To(n) => n case _ => SLOT_INVALID };
      (s.(caps := s.caps[s.freeHead := Cleared(0, Null)], freeHead := next), Ok)
  }

  /** cap_set_inheritable on a VALID cap. */
  function SetInheritable(s: CSpace, slot: nat, flag: bool): (CSpace, Status) {
    if slot == SLOT_INVALID then (s, EInval)
    else if !IsValid(s.caps, slot) then (s, ENoEnt)
    else (s.(caps := s.caps[slot := s.caps[slot].(inheritable := flag)]), Ok)
  }

  /** cspace_init_cap_table followed by cspace_create_root_cap. */
  function InitCap(capacity: nat, id: nat, i: nat): Cap {
    if i == 0 then
      Cap(Valid, KOBJ_CSPACE, READ | WRITE | GRANT | REVOKE, 0, id, SLOT_INVALID, 0, 0, false, [], SelfLinked)
    else
      Cleared(0, if i + 1 < capacity then To(i + 1) else Null)
  }

  function Init(capacity: nat, id: nat): CSpace
    requires 1 <= capacity
  {
    CSpace(seq(capacity, i requires 0 <= i => InitCap(capacity, id, i)),
           if capacity > 1 then 1 else SLOT_INVALID, 1, 0)
  }
}
