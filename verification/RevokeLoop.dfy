/**
 The invariant of the loop in cap_revoke, and one round of it.
 */
module RevokeLoop {
  import opened Lists
  import opened Capability
  import opened Forest
  import opened Revocation
  import opened RevokeStack

  ghost predicate StackInv(caps: seq<Cap>, t: nat, limit: nat, stack: seq<nat>, lost: set<nat>) {
    && ForestOk(caps) && IsValid(caps, t) && caps[t].deriveDepth <= MAX_DERIVE_DEPTH
    && AtDepth(caps, stack, caps[t].deriveDepth)
    && if lost == {} then Peak(caps, t) > limit <==> PeakList(caps, stack, caps[t].deriveDepth) > limit
       else Peak(caps, t) > limit
  }

  ghost predicate LoopInv(s0: CSpace, t: nat, limit: nat, freed: seq<nat>, stack: seq<nat>, lost: set<nat>, s: CSpace) {
    && ForestOk(s0.caps) && IsValid(s0.caps, t)
    && Walk(s0.caps, Subtree(s0.caps, t), t, freed, stack, lost)
    && StackInv(s0.caps, t, limit, stack, lost)
    && InTable(s0, freed) && s == FreeAll(s0, freed)
    && Entries(s0.caps, t, freed, s.caps)
  }

  lemma StackStarts(caps: seq<Cap>, t: nat, limit: nat)
    requires ForestOk(caps) && IsValid(caps, t)
    ensures StackInv(caps, t, limit, [t], {})
  {
    assert ParentOk(caps, t);
    PeakOfOne(caps, [t], t);
  }

  lemma LoopStarts(s0: CSpace, t: nat, limit: nat)
    requires ForestOk(s0.caps) && IsValid(s0.caps, t)
    ensures LoopInv(s0, t, limit, [], [t], {}, s0)
  {
    StackStarts(s0.caps, t, limit);
    assert t in Subtree(s0.caps, t);
  }

  lemma RoundShrinks(tree: set<nat>, freed: seq<nat>, cur: nat)
    requires cur in tree && cur !in freed
    ensures tree - ToSet(freed + [cur]) < tree - ToSet(freed)
  {
    assert ToSet(freed + [cur]) == ToSet(freed) + {cur};
    assert cur in tree - ToSet(freed);
  }

  lemma StackRound(caps: seq<Cap>, t: nat, limit: nat, rest: seq<nat>, cur: nat, k: nat, lost: set<nat>)
    requires StackInv(caps, t, limit, rest + [cur], lost) && cur < |caps|
    requires
      var kids := caps[cur].children;
      k <= |kids| && (k == |kids| ==> |rest| + |kids| <= limit) && (k < |kids| ==> |rest| + k == limit)
    ensures StackInv(caps, t, limit, rest + caps[cur].children[..k], lost + ToSet(caps[cur].children[k..]))
  {
    var kids, low := caps[cur].children, caps[t].deriveDepth;
    PeakStep(caps, rest, cur, low);
    assert kids == kids[..k] + kids[k..];
    assert rest + kids == (rest + kids[..k]) + kids[k..];
    AtDepthSplit(caps, rest + kids[..k], kids[k..], low);
    if k == |kids| {
      assert kids[..k] == kids;
      assert ToSet(kids[k..]) == {};
      assert lost + ToSet(kids[k..]) == lost;
    } else {
      assert kids[k..][0] in ToSet(kids[k..]);
    }
  }

  /** One round, from rest + [cur] to the stack it leaves. */
  lemma LoopRound(s0: CSpace, t: nat, limit: nat, freed: seq<nat>, rest: seq<nat>, cur: nat, lost: set<nat>, s: CSpace,
                  k: nat, stack': seq<nat>, lost': set<nat>, s': CSpace)
    requires LoopInv(s0, t, limit, freed, rest + [cur], lost, s)
    requires cur < |s0.caps| == |s.caps| && s' == FreeOne(s, cur)
    requires k <= |s0.caps[cur].children|
    requires
      var kids := s0.caps[cur].children;
      && stack' == rest + kids[..k]
      && lost' == lost + ToSet(kids[k..])
      && (if k == |kids| then |stack'| <= limit else |stack'| == limit)
    ensures LoopInv(s0, t, limit, freed + [cur], stack', lost', s')
    ensures lost' == {} <==> lost == {} && k == |s0.caps[cur].children|
    ensures Subtree(s0.caps, t) - ToSet(freed + [cur]) < Subtree(s0.caps, t) - ToSet(freed)
  {
    WalkStep(s0.caps, t, freed, rest, cur, k, lost);
    StackRound(s0.caps, t, limit, rest, cur, k, lost);
    assert cur in rest + [cur];
    EntriesStep(s0.caps, t, freed, rest + [cur], lost, cur, s);
    FreeAllPush(s0, freed, cur);
    RoundShrinks(Subtree(s0.caps, t), freed, cur);
    var dropped := s0.caps[cur].children[k..];
    assert dropped != [] ==> dropped[0] in ToSet(dropped);
  }

  /** The popped cap is VALID, untouched, and not yet freed. */
  lemma LoopTop(s0: CSpace, t: nat, limit: nat, freed: seq<nat>, stack: seq<nat>, lost: set<nat>, s: CSpace)
    requires LoopInv(s0, t, limit, freed, stack, lost, s) && stack != []
    ensures
      var cur := stack[|stack| - 1];
      && cur < |s.caps| == |s0.caps| && s.caps[cur] == s0.caps[cur] && s.caps[cur].state.Valid?
      && cur in Subtree(s0.caps, t) && cur !in freed
  {
    var cur := stack[|stack| - 1];
    assert cur in stack;
    EntriesStep(s0.caps, t, freed, stack, lost, cur, s);
  }

  // ---------------------------------------------------------------------------
  // The outcome
  // ---------------------------------------------------------------------------

  /** The state after releasing exactly the cap and everything derived from it, in the
      order `freed`: entries of the tree are cleared and stacked on the free list, the
      counter drops by the size of the tree, the parent forgets the cap. */
  ghost predicate FreedExactly(s0: CSpace, t: nat, freed: seq<nat>, s: CSpace) {
    && NoDup(freed) && InTable(s0, freed)
    && s == FreeAll(s0, freed)
    && TreeRevoked(s0.caps, t, freed, s.caps)
  }

  /** The state after releasing the cap and part of its tree, in the order `freed`. */
  ghost predicate FreedSome(s0: CSpace, t: nat, freed: seq<nat>, s: CSpace) {
    && NoDup(freed) && InTable(s0, freed)
    && s == FreeAll(s0, freed)
    && PartRevoked(s0.caps, t, freed, s.caps)
  }

  lemma ExactlyIsSome(s0: CSpace, t: nat, freed: seq<nat>, s: CSpace)
    requires FreedExactly(s0, t, freed, s)
    ensures FreedSome(s0, t, freed, s) && ToSet(freed) == Subtree(s0.caps, t)
  {
    WholeIsPart(s0.caps, t, freed, s.caps);
  }

  /** Caps of the tree that are still VALID although their parent's slot is FREE. */
  ghost predicate Stranded(s0: CSpace, t: nat, lost: set<nat>, s: CSpace) {
    && lost != {}
    && forall n: nat :: n in lost ==>
         && n in Subtree(s0.caps, t) && IsValid(s.caps, n)
         && s.caps[n].parentSlot < |s.caps| && s.caps[s.caps[n].parentSlot].state.Free?
  }

  ghost predicate OutsideUntouched(s0: CSpace, t: nat, s: CSpace)
    requires t < |s0.caps|
  {
    && |s.caps| == |s0.caps|
    && forall i: nat :: i < |s0.caps| && i !in Subtree(s0.caps, t) ==>
         s.caps[i] == Survivor(s0.caps, t, i)
  }

  /** What cap_revoke does on a forest, in every case. */
  ghost predicate RevokeOutcome(s0: CSpace, t: nat, limit: nat, r: Status, freed: seq<nat>, lost: set<nat>, s: CSpace)
    requires ForestOk(s0.caps)
  {
    if !RevokeAdmitted(s0, t) then
      // refused: nothing changes
      && s == s0
      && r == (if t == SLOT_INVALID then EInval else if !IsValid(s0.caps, t) then ENoEnt else EAcces)
    else
      // success exactly when the walk fits the stack
      && r == (if Peak(s0.caps, t) <= limit then Ok else ENoMem)
      && (r == Ok ==> FreedExactly(s0, t, freed, s) && ForestOk(s.caps))
      && (r == ENoMem ==>
            && FreedSome(s0, t, freed, s) && ToSet(freed) < Subtree(s0.caps, t)
            && Stranded(s0, t, lost, s) && !ForestOk(s.caps))
      && OutsideUntouched(s0, t, s)
  }

  lemma LostAreStranded(s0: CSpace, t: nat, limit: nat, freed: seq<nat>, lost: set<nat>, s: CSpace, n: nat)
    requires LoopInv(s0, t, limit, freed, [], lost, s) && n in lost
    ensures n in Subtree(s0.caps, t) && IsValid(s.caps, n) && !ParentOk(s.caps, n)
    ensures s.caps[n].parentSlot < |s.caps| && s.caps[s.caps[n].parentSlot].state.Free?
  {
    SubtreeClosed(s0.caps, t, n);
    assert ParentFreed(s0.caps, freed, n);
    assert s0.caps[n].parentSlot in Subtree(s0.caps, t);
  }

  /** An empty stack: the whole tree is gone and no cell was missing, or some VALID cap
      is left under a freed parent. */
  lemma LoopEnds(s0: CSpace, t: nat, limit: nat, freed: seq<nat>, lost: set<nat>, s: CSpace)
    requires LoopInv(s0, t, limit, freed, [], lost, s) && RevokeAdmitted(s0, t)
    ensures RevokeOutcome(s0, t, limit, if lost == {} then Ok else ENoMem, freed, lost, s)
  {
    assert lost == {} <==> Peak(s0.caps, t) <= limit;
    if lost == {} {
      WalkDone(s0.caps, t, freed);
      RevokedForest(s0.caps, t, freed, s.caps);
    } else {
      forall n: nat | n in lost
        ensures n in Subtree(s0.caps, t) && IsValid(s.caps, n) && !ParentOk(s.caps, n)
        ensures s.caps[n].parentSlot < |s.caps| && s.caps[s.caps[n].parentSlot].state.Free?
      {
        LostAreStranded(s0, t, limit, freed, lost, s, n);
      }
    }
    assert freed != [] by { assert [] != [t]; }
    assert ToSet(freed) <= Subtree(s0.caps, t);
    assert forall n: nat :: n in lost ==> n !in ToSet(freed);
  }
}
