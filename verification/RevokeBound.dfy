/**
 The stack bound of cap_revoke is exact: a tree of at most limit + 1 caps never
 overflows, and some run builds a star of limit + 2 caps on which it does.  The kernel's
 limit is REVOKE_STACK_SIZE = 128 cells, so 129 caps are safe and 130 need not be.
 */
module RevokeBound {
  import opened Lists
  import opened Capability
  import opened Forest
  import opened Revocation
  import opened RevokeStack
  import opened RevokeLoop
  import opened CapRuns
  import opened FreeList

  const REVOKE_STACK_SIZE: nat := 128

  /** A tree of at most limit + 1 caps is always revoked completely. */
  lemma SmallTreesFit(s0: CSpace, t: nat, limit: nat, r: Status, freed: seq<nat>, lost: set<nat>, s: CSpace)
    requires ForestOk(s0.caps) && RevokeAdmitted(s0, t) && RevokeOutcome(s0, t, limit, r, freed, lost, s)
    requires |Subtree(s0.caps, t)| <= limit + 1
    ensures r == Ok && FreedExactly(s0, t, freed, s)
  {
    PeakBound(s0.caps, t);
  }

  /** The root in slot 0 with n children in slots 1 to n, the rest of the table fresh. */
  ghost predicate StarShape(s: CSpace, capacity: nat, n: nat) {
    && n < |s.caps| == capacity
    && s.freeHead == (if n + 1 < capacity then n + 1 else SLOT_INVALID)
    && s.caps[0].state.Valid? && s.caps[0].rights == READ | WRITE | GRANT | REVOKE
    && s.caps[0].kobjType == KOBJ_CSPACE && s.caps[0].deriveDepth == 0 && s.caps[0].parentSlot == SLOT_INVALID
    && |s.caps[0].children| == n && (forall k: nat :: k < n ==> s.caps[0].children[k] == k + 1)
    && (forall i: nat :: 1 <= i <= n ==> IsValid(s.caps, i) && s.caps[i].parentSlot == 0 && s.caps[i].deriveDepth == 1)
    && (forall i: nat :: n < i < capacity ==> s.caps[i] == InitCap(capacity, 0, i))
  }

  lemma ExtendRun(capacity: nat, states: seq<Tracked>, ops: seq<Op>, op: Op, b: Tracked)
    requires Run(capacity, 0, states, ops) && !states[|ops|].torn && Step(states[|ops|], op, b)
    ensures Run(capacity, 0, states + [b], ops + [op])
  {
    forall k: nat | k < |ops + [op]| ensures StepAt(states + [b], ops + [op], k) {
      if k < |ops| {
        assert StepAt(states, ops, k);
      }
    }
  }

  /** cspace_alloc_slot then cap_derive of a READ-only cap: one more child. */
  lemma GrowStar(s: CSpace, capacity: nat, n: nat)
    requires StarShape(s, capacity, n) && n + 1 < capacity <= MAX_CAPACITY
    ensures
      var (s', st) := Derive(Alloc(s).0, 0, n + 1, READ, 0);
      st == Ok && StarShape(s', capacity, n + 1)
  {
    var a := Alloc(s).0;
    assert READ & (READ | WRITE | GRANT | REVOKE) == READ;
    assert (READ | WRITE | GRANT | REVOKE) & GRANT != 0;
    assert READ != READ | WRITE | GRANT | REVOKE;
    assert RightsLegal(KOBJ_CSPACE, READ);
    assert DeriveCheck(a, 0, n + 1, READ) == Ok;
  }

  /** Some run builds the star, filling only slots it was given. */
  lemma {:induction false} BuildStar(capacity: nat, n: nat) returns (states: seq<Tracked>, ops: seq<Op>)
    requires n < capacity <= MAX_CAPACITY
    ensures Run(capacity, 0, states, ops)
    ensures StarShape(states[|ops|].s, capacity, n)
    ensures |states[|ops|].list| == capacity - 1 - n && !states[|ops|].torn
    ensures forall j :: 0 <= j < |ops| ==> Disciplined(states[j], ops[j])
  {
    if n == 0 {
      states, ops := [Tracked(Init(capacity, 0), seq(capacity - 1, i requires 0 <= i => i + 1), {}, 0, false)], [];
    } else {
      var states0, ops0 := BuildStar(capacity, n - 1);
      var a := states0[|ops0|];
      var b := a.(s := Alloc(a.s).0, list := a.list[1..], handed := a.handed + {a.s.freeHead});
      var c := Filled(b, Derive(b.s, 0, n, READ, 0), n);
      GrowStar(a.s, capacity, n - 1);
      ExtendRun(capacity, states0, ops0, OpAlloc, b);
      var op := OpDerive(0, n, READ, 0);
      ExtendRun(capacity, states0 + [b], ops0 + [OpAlloc], op, c);
      states, ops := states0 + [b] + [c], ops0 + [OpAlloc] + [op];
    }
  }

  lemma StarTree(s: CSpace, capacity: nat, n: nat)
    requires StarShape(s, capacity, n) && capacity <= MAX_CAPACITY
    ensures |Subtree(s.caps, 0)| == n + 1
  {
    var kids := s.caps[0].children;
    forall i: nat | i < capacity ensures i in Subtree(s.caps, 0) <==> i == 0 || i in kids {
      assert Below(s.caps, 0, 0);
      if 1 <= i <= n {
        assert IsValid(s.caps, i) && kids[i - 1] == i;
      }
    }
    assert Subtree(s.caps, 0) == {0} + ToSet(kids);
    ToSetSize(kids);
  }

  /** One cap above the bound: for every limit there is a reachable CSpace whose root has
      exactly limit + 2 caps in its tree, and revoking it fails. */
  lemma BoundIsTight(capacity: nat, limit: nat) returns (states: seq<Tracked>, ops: seq<Op>)
    requires limit + 2 <= capacity <= MAX_CAPACITY
    ensures Run(capacity, 0, states, ops) && ForestOk(states[|ops|].s.caps)
    ensures RevokeAdmitted(states[|ops|].s, 0) && |Subtree(states[|ops|].s.caps, 0)| == limit + 2
    ensures forall r, freed, lost, s :: RevokeOutcome(states[|ops|].s, 0, limit, r, freed, lost, s) ==> r == ENoMem
  {
    states, ops := BuildStar(capacity, limit + 1);
    SlotsInEveryRun(capacity, 0, states, ops, |ops|);
    StarTree(states[|ops|].s, capacity, limit + 1);
    assert (READ | WRITE | GRANT | REVOKE) & REVOKE != 0;
  }

  /** With the kernel's stack every tree of 129 caps is revoked. */
  lemma KernelTreesFit(s0: CSpace, t: nat, r: Status, freed: seq<nat>, lost: set<nat>, s: CSpace)
    requires ForestOk(s0.caps) && RevokeAdmitted(s0, t)
    requires RevokeOutcome(s0, t, REVOKE_STACK_SIZE, r, freed, lost, s) && |Subtree(s0.caps, t)| <= 129
    ensures r == Ok && FreedExactly(s0, t, freed, s)
  {
    SmallTreesFit(s0, t, REVOKE_STACK_SIZE, r, freed, lost, s);
  }

  /** And a full-sized CSpace can hold a tree of 130 caps that is not. */
  lemma KernelBoundIsTight() returns (states: seq<Tracked>, ops: seq<Op>)
    ensures Run(MAX_CAPACITY, 0, states, ops) && ForestOk(states[|ops|].s.caps)
    ensures RevokeAdmitted(states[|ops|].s, 0) && |Subtree(states[|ops|].s.caps, 0)| == 130
    ensures forall r, freed, lost, s ::
              RevokeOutcome(states[|ops|].s, 0, REVOKE_STACK_SIZE, r, freed, lost, s) ==> r == ENoMem
  {
    states, ops := BoundIsTight(MAX_CAPACITY, REVOKE_STACK_SIZE);
  }
}
