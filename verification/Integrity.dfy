/**
 The self-check cap_integrity_check: what each failure means, and that it is silent on
 a forest exactly when every depth is exact.
 */
module Integrity {
  import opened Lists
  import opened Capability
  import opened Forest

  /** Checks a, c and d: the parent is VALID, one level up, and holds the cap's rights;
      a cap without parent is at level 0. */
  predicate ParentCheck(caps: seq<Cap>, i: nat)
    requires i < |caps|
  {
    var c := caps[i];
    if c.parentSlot != SLOT_INVALID then
      && IsValid(caps, c.parentSlot)
      && c.deriveDepth == caps[c.parentSlot].deriveDepth + 1
      && Subset(c.rights, caps[c.parentSlot].rights)
    else c.deriveDepth == 0
  }

  /** Check b on one child; a child that names itself as parent passes too. */
  predicate ChildCheck(caps: seq<Cap>, i: nat, child: nat) {
    child < |caps| ==> caps[child].parentSlot == child || caps[child].parentSlot == i
  }

  predicate ChildrenCheck(caps: seq<Cap>, i: nat)
    requires i < |caps|
  {
    forall child :: child in caps[i].children ==> ChildCheck(caps, i, child)
  }

  predicate CheckPasses(caps: seq<Cap>, i: nat)
    requires i < |caps|
  {
    && ParentCheck(caps, i)
    && RightsLegal(caps[i].kobjType, caps[i].rights)
    && ChildrenCheck(caps, i)
  }

  function FailedSlots(caps: seq<Cap>): set<nat> {
    set i: nat | i < |caps| && caps[i].state.Valid? && !CheckPasses(caps, i)
  }

  predicate Fails(caps: seq<Cap>, i: nat) {
    i < |caps| && caps[i].state.Valid? && !CheckPasses(caps, i)
  }

  function FailedBelow(caps: seq<Cap>, n: nat): set<nat> {
    set i: nat | i < n && Fails(caps, i)
  }

  function ValidBelow(caps: seq<Cap>, n: nat): set<nat> {
    set i: nat | i < n && IsValid(caps, i)
  }

  /** Children lists link entries of this table. */
  predicate ListsInTable(caps: seq<Cap>) {
    forall i, k :: 0 <= i < |caps| && 0 <= k < |caps[i].children| ==> caps[i].children[k] < |caps|
  }

  lemma CountNext(caps: seq<Cap>, n: nat)
    ensures |ValidBelow(caps, n + 1)| == |ValidBelow(caps, n)| + if IsValid(caps, n) then 1 else 0
    ensures |FailedBelow(caps, n + 1)| == |FailedBelow(caps, n)| + if Fails(caps, n) then 1 else 0
  {
    assert ValidBelow(caps, n + 1) == ValidBelow(caps, n) + if IsValid(caps, n) then {n} else {};
    assert FailedBelow(caps, n + 1) == FailedBelow(caps, n) + if Fails(caps, n) then {n} else {};
  }

  lemma CountAll(caps: seq<Cap>)
    ensures ValidBelow(caps, |caps|) == ValidSlots(caps) && FailedBelow(caps, |caps|) == FailedSlots(caps)
  {
  }

  /** On a forest the check is silent exactly when every depth is one below the parent's. */
  lemma CleanIffDepthExact(caps: seq<Cap>)
    requires ForestOk(caps) && TypesOk(caps)
    ensures FailedSlots(caps) == {} <==> DepthExact(caps)
  {
    forall i: nat | IsValid(caps, i)
      ensures CheckPasses(caps, i) <==>
              if caps[i].parentSlot == SLOT_INVALID then caps[i].deriveDepth == 0
              else IsValid(caps, caps[i].parentSlot)
                   && caps[i].deriveDepth == caps[caps[i].parentSlot].deriveDepth + 1
    {
      assert ParentOk(caps, i) && ChildrenOk(caps, i);
    }
    if DepthExact(caps) {
      forall i: nat | i < |caps| && caps[i].state.Valid? ensures CheckPasses(caps, i) {
        assert IsValid(caps, i);
      }
    } else {
      var i: nat :| IsValid(caps, i) &&
        !(if caps[i].parentSlot == SLOT_INVALID then caps[i].deriveDepth == 0
          else IsValid(caps, caps[i].parentSlot)
               && caps[i].deriveDepth == caps[caps[i].parentSlot].deriveDepth + 1);
      assert i in FailedSlots(caps);
    }
  }

  /** A silent check on any table, forest or not: every VALID cap reaches a root after
      exactly deriveDepth parent links. */
  lemma {:induction false} CleanMeansLevelled(caps: seq<Cap>, n: nat)
    requires FailedSlots(caps) == {} && IsValid(caps, n) && |caps| < SLOT_INVALID
    ensures Ancestors(caps, n) == caps[n].deriveDepth
    decreases caps[n].deriveDepth
  {
    assert n !in FailedSlots(caps);
    if caps[n].parentSlot != SLOT_INVALID {
      CleanMeansLevelled(caps, caps[n].parentSlot);
    }
  }

  /** The entry k parent links up. */
  function Up(caps: seq<Cap>, n: nat, k: nat): nat
    decreases k
  {
    if k == 0 || n >= |caps| then n else Up(caps, caps[n].parentSlot, k - 1)
  }

  /** And each of those links leads to a VALID cap, one level up, with at least its rights. */
  lemma {:induction false} CleanMeansConfined(caps: seq<Cap>, n: nat, k: nat)
    requires FailedSlots(caps) == {} && IsValid(caps, n) && k <= caps[n].deriveDepth
    ensures
      var up := Up(caps, n, k);
      && IsValid(caps, up) && caps[up].deriveDepth == caps[n].deriveDepth - k
      && caps[n].rights & caps[up].rights == caps[n].rights
      && (caps[up].parentSlot == SLOT_INVALID <==> k == caps[n].deriveDepth)
    decreases k
  {
    assert n !in FailedSlots(caps);
    if k > 0 {
      var p := caps[n].parentSlot;
      CleanMeansConfined(caps, p, k - 1);
      SubsetChain(caps[n].rights, caps[p].rights, caps[Up(caps, p, k - 1)].rights);
    }
  }

  lemma SubsetChain(a: bv8, b: bv8, c: bv8)
    requires Subset(a, b) && Subset(b, c)
    ensures a & c == a
  {
  }

  /** After a deletion in a clean forest, the check reports exactly the orphaned children. */
  lemma DeleteFailures(s: CSpace, slot: nat)
    requires ForestOk(s.caps) && TypesOk(s.caps) && DepthExact(s.caps) && Delete(s, slot).1 == Ok
    ensures FailedSlots(Delete(s, slot).0.caps) == ToSet(s.caps[slot].children)
  {
    DeleteEffect(s, slot);
    var caps' := Delete(s, slot).0.caps;
    DeletedForest(s, slot, caps');
    forall i: nat | i < |caps'|
      ensures caps'[i].state.Valid? && !CheckPasses(caps', i) <==> i in s.caps[slot].children
    {
      DeleteFailureAt(s, slot, caps', i);
    }
    assert ChildrenOk(s.caps, slot);
  }

  lemma DeleteFailureAt(s: CSpace, slot: nat, caps': seq<Cap>, i: nat)
    requires ForestOk(s.caps) && TypesOk(s.caps) && DepthExact(s.caps) && Deleted(s, slot, caps')
    requires ForestOk(caps') && i < |caps'|
    ensures caps'[i].state.Valid? && !CheckPasses(caps', i) <==> i in s.caps[slot].children
  {
    if i in s.caps[slot].children {
      OrphanFails(s, slot, caps', i);
    } else if IsValid(caps', i) {
      OthersPass(s, slot, caps', i);
    }
  }

  lemma OrphanFails(s: CSpace, slot: nat, caps': seq<Cap>, i: nat)
    requires ForestOk(s.caps) && Deleted(s, slot, caps') && i in s.caps[slot].children && i < |caps'|
    ensures caps'[i].state.Valid? && !ParentCheck(caps', i)
  {
    assert ChildrenOk(s.caps, slot);
    ParentIsNoChild(s.caps, slot);
    assert ParentOk(s.caps, i);
    assert caps'[i] == DeletedEntry(s, slot, i);
  }

  lemma OthersPass(s: CSpace, slot: nat, caps': seq<Cap>, i: nat)
    requires ForestOk(s.caps) && TypesOk(s.caps) && DepthExact(s.caps) && Deleted(s, slot, caps')
    requires ForestOk(caps') && IsValid(caps', i) && i !in s.caps[slot].children
    ensures CheckPasses(caps', i)
  {
    assert ParentOk(caps', i) && ChildrenOk(caps', i);
    assert caps'[i] == DeletedEntry(s, slot, i);
    assert IsValid(s.caps, i);
    var p := s.caps[i].parentSlot;
    assert caps'[i].parentSlot == p && caps'[i].deriveDepth == s.caps[i].deriveDepth;
    if p != SLOT_INVALID {
      assert caps'[p] == DeletedEntry(s, slot, p);
    }
    assert ParentCheck(caps', i);
    assert caps'[i].kobjType == s.caps[i].kobjType && caps'[i].rights == s.caps[i].rights;
  }
}
