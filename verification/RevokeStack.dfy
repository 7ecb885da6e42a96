/**
 How much stack the worklist of cap_revoke needs: exactly Peak cells below the cap it
 starts from, always fewer than there are caps in the tree.
 */
module RevokeStack {
  import opened Lists
  import opened Capability
  import opened Forest

  function Max(a: nat, b: nat): nat {
    if a < b then b else a
  }

  ghost predicate AtDepth(caps: seq<Cap>, slots: seq<nat>, low: nat) {
    forall k :: 0 <= k < |slots| ==> IsValid(caps, slots[k]) && low <= caps[slots[k]].deriveDepth
  }

  lemma ChildrenDeeper(caps: seq<Cap>, n: nat)
    requires ForestOk(caps) && IsValid(caps, n)
    ensures AtDepth(caps, caps[n].children, caps[n].deriveDepth + 1)
    ensures caps[n].deriveDepth <= MAX_DERIVE_DEPTH
  {
    assert ChildrenOk(caps, n) && ParentOk(caps, n);
    forall k | 0 <= k < |caps[n].children|
      ensures IsValid(caps, caps[n].children[k]) && caps[n].deriveDepth < caps[caps[n].children[k]].deriveDepth
    {
      assert caps[n].children[k] in caps[n].children;
      assert ParentOk(caps, caps[n].children[k]);
    }
  }

  /** The most stack cells in use at once while n and everything below it is visited,
      counted from the moment n has been popped. */
  ghost function Peak(caps: seq<Cap>, n: nat): nat
    requires ForestOk(caps) && IsValid(caps, n)
    decreases MAX_DERIVE_DEPTH + 2 - caps[n].deriveDepth, 0, 0
  {
    ChildrenDeeper(caps, n);
    Max(|caps[n].children|, PeakList(caps, caps[n].children, caps[n].deriveDepth + 1))
  }

  /** The same for a stack of slots, visited from the top; `low` only bounds the recursion. */
  ghost function PeakList(caps: seq<Cap>, slots: seq<nat>, low: nat): nat
    requires ForestOk(caps) && AtDepth(caps, slots, low) && low <= MAX_DERIVE_DEPTH + 1
    decreases MAX_DERIVE_DEPTH + 2 - low, 1, |slots|
  {
    if slots == [] then 0 else
    var top := |slots| - 1;
    Max(top + Peak(caps, slots[top]), PeakList(caps, slots[..top], low))
  }

  lemma {:induction false} PeakListBound(caps: seq<Cap>, slots: seq<nat>, low: nat, high: nat)
    requires ForestOk(caps) && AtDepth(caps, slots, high) && low <= high <= MAX_DERIVE_DEPTH + 1
    ensures AtDepth(caps, slots, low)
    ensures PeakList(caps, slots, low) == PeakList(caps, slots, high)
    decreases |slots|
  {
    if slots != [] {
      PeakListBound(caps, slots[..|slots| - 1], low, high);
    }
  }

  lemma AtDepthSplit(caps: seq<Cap>, a: seq<nat>, b: seq<nat>, low: nat)
    ensures AtDepth(caps, a + b, low) <==> AtDepth(caps, a, low) && AtDepth(caps, b, low)
  {
    if AtDepth(caps, a + b, low) {
      assert forall k :: 0 <= k < |a| ==> (a + b)[k] == a[k];
      assert forall k :: 0 <= k < |b| ==> (a + b)[|a| + k] == b[k];
    }
  }

  lemma {:induction false} PeakListAppend(caps: seq<Cap>, rest: seq<nat>, kids: seq<nat>, low: nat)
    requires ForestOk(caps) && low <= MAX_DERIVE_DEPTH + 1
    requires AtDepth(caps, rest, low) && AtDepth(caps, kids, low)
    ensures AtDepth(caps, rest + kids, low)
    ensures PeakList(caps, rest + kids, low) ==
            if kids == [] then PeakList(caps, rest, low)
            else Max(|rest| + PeakList(caps, kids, low), PeakList(caps, rest, low))
    decreases |kids|
  {
    AtDepthSplit(caps, rest, kids, low);
    if kids == [] {
      assert rest + kids == rest;
    } else {
      var init := kids[..|kids| - 1];
      assert (rest + kids)[..|rest + kids| - 1] == rest + init;
      PeakListAppend(caps, rest, init, low);
    }
  }

  lemma PeakListPush(caps: seq<Cap>, rest: seq<nat>, cur: nat, low: nat)
    requires ForestOk(caps) && AtDepth(caps, rest + [cur], low) && low <= MAX_DERIVE_DEPTH + 1
    ensures IsValid(caps, cur) && AtDepth(caps, rest, low)
    ensures PeakList(caps, rest + [cur], low) == Max(|rest| + Peak(caps, cur), PeakList(caps, rest, low))
  {
    AtDepthSplit(caps, rest, [cur], low);
    var slots := rest + [cur];
    assert slots[|slots| - 1] == cur && slots[..|slots| - 1] == rest;
  }

  lemma PeakOfOne(caps: seq<Cap>, slots: seq<nat>, t: nat)
    requires ForestOk(caps) && IsValid(caps, t) && slots == [t] && caps[t].deriveDepth <= MAX_DERIVE_DEPTH
    ensures AtDepth(caps, slots, caps[t].deriveDepth)
    ensures PeakList(caps, slots, caps[t].deriveDepth) == Peak(caps, t)
  {
    assert slots[|slots| - 1] == t && slots[..|slots| - 1] == [];
  }

  /** Popping cur from rest + [cur] and pushing its children: the need of the whole
      stack is what this round uses, or what the new stack still needs. */
  lemma PeakStep(caps: seq<Cap>, rest: seq<nat>, cur: nat, low: nat)
    requires ForestOk(caps) && AtDepth(caps, rest + [cur], low) && low <= MAX_DERIVE_DEPTH + 1
    ensures IsValid(caps, cur) && AtDepth(caps, rest + caps[cur].children, low)
    ensures PeakList(caps, rest + [cur], low)
         == Max(|rest| + |caps[cur].children|, PeakList(caps, rest + caps[cur].children, low))
  {
    PeakListPush(caps, rest, cur, low);
    assert low <= caps[cur].deriveDepth by { assert (rest + [cur])[|rest|] == cur; }
    ChildrenDeeper(caps, cur);
    PeakListBound(caps, caps[cur].children, low, caps[cur].deriveDepth + 1);
    PeakListAppend(caps, rest, caps[cur].children, low);
  }

  // ---------------------------------------------------------------------------
  // Peak against the size of the tree
  // ---------------------------------------------------------------------------

  /** Everything below one of the slots. */
  function Cover(caps: seq<Cap>, slots: seq<nat>): set<nat> {
    if slots == [] then {} else Cover(caps, slots[..|slots| - 1]) + Subtree(caps, slots[|slots| - 1])
  }

  /** The trees below the slots do not overlap. */
  ghost predicate Apart(caps: seq<Cap>, slots: seq<nat>) {
    forall i, j :: 0 <= i < j < |slots| ==> Subtree(caps, slots[i]) !! Subtree(caps, slots[j])
  }

  /** Two caps above the same cap are above one another. */
  lemma {:induction false} BelowLinear(caps: seq<Cap>, a: nat, b: nat, x: nat)
    requires Below(caps, a, x) && Below(caps, b, x)
    ensures Below(caps, a, b) || Below(caps, b, a)
    decreases caps[x].deriveDepth
  {
    if x != a && x != b {
      BelowLinear(caps, a, b, caps[x].parentSlot);
    }
  }

  lemma SiblingsApart(caps: seq<Cap>, n: nat)
    requires ForestOk(caps) && IsValid(caps, n)
    ensures Apart(caps, caps[n].children)
  {
    var kids := caps[n].children;
    assert ChildrenOk(caps, n);
    ParentIsNoChild(caps, n);
    forall i, j, x: nat | 0 <= i < j < |kids| && x in Subtree(caps, kids[i]) && x in Subtree(caps, kids[j])
      ensures false
    {
      var a, b := kids[i], kids[j];
      assert a in kids && b in kids;
      BelowLinear(caps, a, b, x);
      assert ParentOk(caps, a) && ParentOk(caps, b);
      if Below(caps, a, b) {
        Acyclic(caps, a, n);
      } else {
        Acyclic(caps, b, n);
      }
    }
  }

  lemma {:induction false} CoverMembers(caps: seq<Cap>, slots: seq<nat>, x: nat)
    ensures x in Cover(caps, slots) <==> exists k :: 0 <= k < |slots| && x in Subtree(caps, slots[k])
  {
    if slots != [] {
      var init := slots[..|slots| - 1];
      CoverMembers(caps, init, x);
      assert forall k :: 0 <= k < |init| ==> init[k] == slots[k];
    }
  }

  lemma {:induction false} CoverBound(caps: seq<Cap>, slots: seq<nat>, low: nat)
    requires ForestOk(caps) && AtDepth(caps, slots, low) && low <= MAX_DERIVE_DEPTH + 1 && Apart(caps, slots)
    ensures |slots| <= |Cover(caps, slots)|
    ensures PeakList(caps, slots, low) <= |Cover(caps, slots)|
    decreases MAX_DERIVE_DEPTH + 2 - low, 1, |slots|
  {
    if slots != [] {
      var init, top := slots[..|slots| - 1], slots[|slots| - 1];
      CoverBound(caps, init, low);
      PeakBound(caps, top);
      assert Cover(caps, init) !! Subtree(caps, top) by {
        forall x: nat | x in Cover(caps, init) ensures x !in Subtree(caps, top) {
          CoverMembers(caps, init, x);
        }
      }
    }
  }

  /** The walk below n never holds as many pending slots as there are caps in the tree. */
  lemma {:induction false} PeakBound(caps: seq<Cap>, n: nat)
    requires ForestOk(caps) && IsValid(caps, n)
    ensures Peak(caps, n) < |Subtree(caps, n)|
    decreases MAX_DERIVE_DEPTH + 2 - caps[n].deriveDepth, 0, 0
  {
    var kids := caps[n].children;
    ChildrenDeeper(caps, n);
    SiblingsApart(caps, n);
    CoverBound(caps, kids, caps[n].deriveDepth + 1);
    forall x: nat | x in Cover(caps, kids) ensures x in Subtree(caps, n) && x != n {
      CoverMembers(caps, kids, x);
      var k :| 0 <= k < |kids| && x in Subtree(caps, kids[k]);
      BelowChild(caps, n, kids[k], x);
    }
    SubsetSize(Cover(caps, kids), Subtree(caps, n) - {n});
  }

  lemma {:induction false} BelowChild(caps: seq<Cap>, n: nat, c: nat, x: nat)
    requires ForestOk(caps) && IsValid(caps, n) && c in caps[n].children && Below(caps, c, x)
    ensures Below(caps, n, x) && x != n
    decreases caps[x].deriveDepth
  {
    assert ChildrenOk(caps, n) && ParentOk(caps, c);
    if x != c {
      BelowIsDeeper(caps, c, x);
      BelowChild(caps, n, c, caps[x].parentSlot);
    }
  }
}
