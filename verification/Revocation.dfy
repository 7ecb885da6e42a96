/**
 Cascading revocation as a walk over the derivation forest: what the worklist of
 cap_revoke keeps, what it frees, and exactly when its bounded stack overflows.
 */
module Revocation {
  import opened Lists
  import opened Capability
  import opened Forest

  predicate RevokeAdmitted(s: CSpace, slot: nat) {
    slot != SLOT_INVALID && IsValid(s.caps, slot) && s.caps[slot].rights & REVOKE != 0
  }

  // ---------------------------------------------------------------------------
  // Releasing slots
  // ---------------------------------------------------------------------------

  /** One round of the loop, minus the worklist: unlink the cap, clear it, push its slot
      on the free list, lower the counter (which saturates at zero). */
  function FreeOne(s: CSpace, cur: nat): (r: CSpace)
    requires cur < |s.caps|
    ensures |r.caps| == |s.caps|
  {
    s.(caps := Unlink(s.caps, cur)[cur := Cleared(SLOT_INVALID, LinkTo(s.freeHead))],
       freeHead := cur,
       usedCount := if s.usedCount > 0 then s.usedCount - 1 else 0)
  }

  ghost predicate InTable(s: CSpace, slots: seq<nat>) {
    forall k :: 0 <= k < |slots| ==> slots[k] < |s.caps|
  }

  /** Releasing a sequence of slots, first to last. */
  ghost function FreeAll(s: CSpace, slots: seq<nat>): (r: CSpace)
    requires InTable(s, slots)
    ensures |r.caps| == |s.caps|
    ensures r.rootSlot == s.rootSlot
    ensures slots != [] ==> r.freeHead == slots[|slots| - 1]
    ensures r.usedCount == if s.usedCount >= |slots| then s.usedCount - |slots| else 0
  {
    if slots == [] then s
    else FreeOne(FreeAll(s, slots[..|slots| - 1]), slots[|slots| - 1])
  }

  lemma FreeAllPush(s: CSpace, slots: seq<nat>, cur: nat)
    requires InTable(s, slots) && cur < |s.caps|
    ensures InTable(s, slots + [cur])
    ensures FreeAll(s, slots + [cur]) == FreeOne(FreeAll(s, slots), cur)
  {
    assert (slots + [cur])[..|slots|] == slots;
  }

  // ---------------------------------------------------------------------------
  // The walk
  // ---------------------------------------------------------------------------

  ghost predicate ParentFreed(caps: seq<Cap>, freed: seq<nat>, n: nat) {
    n < |caps| && caps[n].parentSlot in freed
  }

  /** The state of the worklist for the tree below t, on the original table: `freed` in
      order of release, `stack` still to visit, `lost` the children a full stack turned
      away. */
  ghost predicate Walk(caps: seq<Cap>, tree: set<nat>, t: nat, freed: seq<nat>, stack: seq<nat>, lost: set<nat>) {
    && NoDup(freed) && NoDup(stack)
    && (forall n: nat :: n in freed ==> n in tree && (n == t || ParentFreed(caps, freed, n)))
    && (forall n: nat :: n in stack ==> n in tree && n !in freed && n !in lost)
    && (forall n: nat :: n in stack ==> n == t || ParentFreed(caps, freed, n))
    && (forall n: nat :: n in lost ==> n in tree && n !in freed && ParentFreed(caps, freed, n))
    && (forall n: nat :: n in tree && ParentFreed(caps, freed, n) ==>
          n == t || n in freed || n in stack || n in lost)
    && (if freed == [] then stack == [t] && lost == {} else t in freed)
  }

  /** A subtree is closed under children, and under parents short of its top. */
  lemma SubtreeClosed(caps: seq<Cap>, t: nat, n: nat)
    requires ForestOk(caps) && IsValid(caps, t) && n in Subtree(caps, t)
    ensures IsValid(caps, n)
    ensures forall c: nat :: c in caps[n].children ==> c in Subtree(caps, t) && c != t && caps[c].parentSlot == n
    ensures n != t ==> caps[n].parentSlot in Subtree(caps, t) && caps[n].parentSlot != n
    ensures caps[t].parentSlot !in Subtree(caps, t)
  {
    assert ChildrenOk(caps, n) && ParentOk(caps, n) && ParentOk(caps, t);
    forall c: nat | c in caps[n].children ensures c in Subtree(caps, t) && c != t && caps[c].parentSlot == n {
      assert ParentOk(caps, c);
      if c == t {
        Acyclic(caps, n, t);
      }
    }
    var p := caps[t].parentSlot;
    if p in Subtree(caps, t) {
      Acyclic(caps, p, t);
    }
  }

  /** The children of the cap being visited are met for the first time. */
  lemma ChildrenAreNew(caps: seq<Cap>, t: nat, freed: seq<nat>, stack: seq<nat>, cur: nat, lost: set<nat>, c: nat)
    requires ForestOk(caps) && IsValid(caps, t)
    requires Walk(caps, Subtree(caps, t), t, freed, stack, lost)
    requires cur in stack && cur < |caps| && c in caps[cur].children
    ensures c in Subtree(caps, t) && c != t && caps[c].parentSlot == cur
    ensures c !in freed && c !in stack && c !in lost && c != cur
  {
    SubtreeClosed(caps, t, cur);
    assert !ParentFreed(caps, freed, c);
    assert c != cur by { ParentIsNoChild(caps, cur); }
  }

  lemma WalkStep(caps: seq<Cap>, t: nat, freed: seq<nat>, rest: seq<nat>, cur: nat, k: nat, lost: set<nat>)
    requires ForestOk(caps) && IsValid(caps, t)
    requires Walk(caps, Subtree(caps, t), t, freed, rest + [cur], lost)
    requires cur < |caps| && k <= |caps[cur].children|
    ensures
      var kids := caps[cur].children;
      Walk(caps, Subtree(caps, t), t, freed + [cur], rest + kids[..k], lost + ToSet(kids[k..]))
  {
    var tree := Subtree(caps, t);
    var kids := caps[cur].children;
    assert cur in rest + [cur];
    var pushed, dropped := kids[..k], kids[k..];
    assert kids == pushed + dropped;
    assert IsValid(caps, cur);
    assert ChildrenOk(caps, cur);
    NoDupSplit(pushed, dropped);
    NoDupSplit(rest, [cur]);
    forall c: nat | c in kids
      ensures c in tree && c != t && caps[c].parentSlot == cur
      ensures c !in freed && c !in rest + [cur] && c !in lost && c != cur
    {
      ChildrenAreNew(caps, t, freed, rest + [cur], cur, lost, c);
    }
    NoDupJoin(freed, [cur]);
    assert forall c: nat :: c in pushed ==> c in kids && c !in rest + [cur];
    NoDupJoin(rest, pushed);
    forall n: nat | n in tree && caps[n].parentSlot == cur ensures n in kids {
      assert ParentOk(caps, n);
    }
    WalkFrontier(caps, tree, t, freed, rest, cur, lost, pushed, dropped);
  }

  /** The set-level content of one step, once the list manipulations are settled. */
  lemma WalkFrontier(caps: seq<Cap>, tree: set<nat>, t: nat, freed: seq<nat>, rest: seq<nat>, cur: nat,
                     lost: set<nat>, pushed: seq<nat>, dropped: seq<nat>)
    requires Walk(caps, tree, t, freed, rest + [cur], lost)
    requires forall n: nat :: n in tree ==> n < |caps|
    requires NoDup(freed + [cur]) && NoDup(rest + pushed) && cur !in rest
    requires forall c: nat :: c in dropped ==> c !in pushed
    requires forall n: nat :: n in tree && caps[n].parentSlot == cur ==> n in pushed || n in dropped
    requires forall c: nat :: c in pushed || c in dropped ==>
               c in tree && caps[c].parentSlot == cur && c !in freed && c !in rest && c !in lost && c != cur
    ensures Walk(caps, tree, t, freed + [cur], rest + pushed, lost + ToSet(dropped))
  {
    assert cur in rest + [cur];
    var freed', stack', lost' := freed + [cur], rest + pushed, lost + ToSet(dropped);
    forall n: nat | n in tree && ParentFreed(caps, freed', n)
      ensures n == t || n in freed' || n in stack' || n in lost'
    {
      assert caps[n].parentSlot == cur || ParentFreed(caps, freed, n);
    }
    forall n: nat | n in freed' ensures n in tree && (n == t || ParentFreed(caps, freed', n)) {
      assert n in freed || n in rest + [cur];
    }
    forall n: nat | n in stack'
      ensures n in tree && n !in freed' && n !in lost' && (n == t || ParentFreed(caps, freed', n))
    {
      assert n in pushed || n in rest + [cur];
    }
    if freed == [] {
      assert (rest + [cur])[|rest|] == cur;
      assert t in freed';
    }
  }

  /** With nothing left to visit and nothing turned away, the walk has freed the tree. */
  lemma {:induction false} WalkReaches(caps: seq<Cap>, t: nat, freed: seq<nat>, n: nat)
    requires ForestOk(caps) && IsValid(caps, t) && n in Subtree(caps, t)
    requires Walk(caps, Subtree(caps, t), t, freed, [], {})
    ensures n in freed
    decreases caps[n].deriveDepth
  {
    if n != t {
      SubtreeClosed(caps, t, n);
      WalkReaches(caps, t, freed, caps[n].parentSlot);
      assert ParentFreed(caps, freed, n);
    }
  }

  lemma WalkDone(caps: seq<Cap>, t: nat, freed: seq<nat>)
    requires ForestOk(caps) && IsValid(caps, t)
    requires Walk(caps, Subtree(caps, t), t, freed, [], {})
    ensures ToSet(freed) == Subtree(caps, t)
  {
    forall n: nat | n in Subtree(caps, t) ensures n in freed {
      WalkReaches(caps, t, freed, n);
    }
  }

  // ---------------------------------------------------------------------------
  // The table during the walk
  // ---------------------------------------------------------------------------

  /** A cap that is still in the table: untouched, except that the parent of t forgets t. */
  function Survivor(caps: seq<Cap>, t: nat, i: nat): Cap
    requires t < |caps| && i < |caps|
  {
    if i == caps[t].parentSlot then caps[i].(children := Without(caps[i].children, t)) else caps[i]
  }

  ghost predicate Entries(caps: seq<Cap>, t: nat, freed: seq<nat>, now: seq<Cap>)
    requires t < |caps|
  {
    && |now| == |caps|
    && forall i: nat :: i < |caps| ==>
         now[i] == if i in freed then Cleared(SLOT_INVALID, now[i].freeNext)
                   else if freed == [] then caps[i]
                   else Survivor(caps, t, i)
  }

  lemma EntriesStep(caps: seq<Cap>, t: nat, freed: seq<nat>, stack: seq<nat>, lost: set<nat>, cur: nat, s: CSpace)
    requires ForestOk(caps) && IsValid(caps, t)
    requires Walk(caps, Subtree(caps, t), t, freed, stack, lost) && cur in stack
    requires Entries(caps, t, freed, s.caps)
    ensures cur < |s.caps| && s.caps[cur] == caps[cur]
    ensures Entries(caps, t, freed + [cur], FreeOne(s, cur).caps)
  {
    SubtreeClosed(caps, t, cur);
    var p := caps[cur].parentSlot;
    assert ParentOk(caps, t);
    var now := FreeOne(s, cur).caps;
    if cur == t {
      assert freed == [];
    } else {
      assert p in freed by { assert ParentFreed(caps, freed, cur); }
      assert Unlink(s.caps, cur) == s.caps;
    }
  }

  // ---------------------------------------------------------------------------
  // The table after a complete revocation
  // ---------------------------------------------------------------------------

  ghost predicate TreeRevoked(caps: seq<Cap>, t: nat, freed: seq<nat>, now: seq<Cap>) {
    && IsValid(caps, t)
    && ToSet(freed) == Subtree(caps, t)
    && Entries(caps, t, freed, now)
  }

  /** The cap and some of what was derived from it, released. */
  ghost predicate PartRevoked(caps: seq<Cap>, t: nat, freed: seq<nat>, now: seq<Cap>) {
    && IsValid(caps, t) && t in freed
    && ToSet(freed) <= Subtree(caps, t)
    && Entries(caps, t, freed, now)
  }

  lemma WholeIsPart(caps: seq<Cap>, t: nat, freed: seq<nat>, now: seq<Cap>)
    requires TreeRevoked(caps, t, freed, now)
    ensures PartRevoked(caps, t, freed, now)
  {
    assert t in Subtree(caps, t);
    assert t in ToSet(freed);
  }

  lemma PartLeaves(caps: seq<Cap>, t: nat, freed: seq<nat>, now: seq<Cap>)
    requires PartRevoked(caps, t, freed, now)
    ensures ValidSlots(now) == ValidSlots(caps) - ToSet(freed) && ToSet(freed) <= ValidSlots(caps)
  {
    forall i: nat | i < |caps| ensures i in ValidSlots(now) <==> i in ValidSlots(caps) - ToSet(freed) {
      assert i in freed <==> i in ToSet(freed);
    }
  }

  /** A cap outside the tree keeps its parent, and its children outside the tree. */
  lemma OutsideStaysOutside(caps: seq<Cap>, t: nat, i: nat)
    requires ForestOk(caps) && IsValid(caps, t) && IsValid(caps, i) && i !in Subtree(caps, t)
    ensures caps[i].parentSlot !in Subtree(caps, t)
    ensures forall k: nat :: k in caps[i].children ==> k == t || k !in Subtree(caps, t)
    ensures t in caps[i].children <==> caps[t].parentSlot == i
  {
    assert ParentOk(caps, i) && ChildrenOk(caps, i) && ParentOk(caps, t);
    if caps[i].parentSlot in Subtree(caps, t) {
      SubtreeClosed(caps, t, caps[i].parentSlot);
    }
    forall k: nat | k in caps[i].children && k in Subtree(caps, t) ensures k == t {
      SubtreeClosed(caps, t, k);
    }
  }

  lemma RevokedChildrenOk(caps: seq<Cap>, t: nat, freed: seq<nat>, now: seq<Cap>, i: nat)
    requires ForestOk(caps) && TreeRevoked(caps, t, freed, now) && IsValid(now, i)
    ensures ChildrenOk(now, i)
  {
    assert i !in ToSet(freed);
    OutsideStaysOutside(caps, t, i);
    assert ChildrenOk(caps, i);
    WithoutProps(caps[i].children, t);
    forall k: nat | k in now[i].children ensures IsValid(now, k) && now[k].parentSlot == i {
      assert t in Subtree(caps, t);
      assert k in caps[i].children && k != t;
      assert k !in ToSet(freed);
    }
  }

  lemma RevokedParentOk(caps: seq<Cap>, t: nat, freed: seq<nat>, now: seq<Cap>, i: nat)
    requires ForestOk(caps) && TreeRevoked(caps, t, freed, now) && IsValid(now, i)
    ensures ParentOk(now, i)
  {
    assert i !in ToSet(freed);
    OutsideStaysOutside(caps, t, i);
    assert ParentOk(caps, i);
    var p := caps[i].parentSlot;
    if p != SLOT_INVALID {
      assert p !in ToSet(freed);
      assert t in Subtree(caps, t);
      assert ChildrenOk(caps, p);
      WithoutProps(caps[p].children, t);
    }
  }

  /** Revocation keeps the forest, and takes exactly the tree out of it. */
  lemma RevokedForest(caps: seq<Cap>, t: nat, freed: seq<nat>, now: seq<Cap>)
    requires ForestOk(caps) && TreeRevoked(caps, t, freed, now)
    ensures ForestOk(now)
    ensures ValidSlots(now) == ValidSlots(caps) - Subtree(caps, t)
  {
    forall i: nat | IsValid(now, i) ensures ParentOk(now, i) {
      RevokedParentOk(caps, t, freed, now, i);
    }
    forall i: nat | IsValid(now, i) ensures ChildrenOk(now, i) {
      RevokedChildrenOk(caps, t, freed, now, i);
    }
    assert forall i: nat :: i in freed <==> i in ToSet(freed);
  }

  lemma RevokedKeepsDiscipline(caps: seq<Cap>, t: nat, freed: seq<nat>, now: seq<Cap>)
    requires ForestOk(caps) && TreeRevoked(caps, t, freed, now)
    ensures DepthExact(caps) ==> DepthExact(now)
    ensures TypesOk(caps) ==> TypesOk(now)
  {
    forall i: nat | IsValid(now, i)
      ensures IsValid(caps, i) && now[i] == caps[i].(children := now[i].children)
      ensures caps[i].parentSlot < |now| && IsValid(caps, caps[i].parentSlot) ==>
                && IsValid(now, caps[i].parentSlot)
                && now[caps[i].parentSlot].deriveDepth == caps[caps[i].parentSlot].deriveDepth
    {
      assert i !in ToSet(freed);
      OutsideStaysOutside(caps, t, i);
      assert caps[i].parentSlot !in ToSet(freed);
    }
  }
}
