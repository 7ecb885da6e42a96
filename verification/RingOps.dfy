/**
 Insertion and deletion of caps on the pointers of the children lists: the lists that the
 code links and unlinks are the sequences of the model.
 */
module RingOps {
  import opened Lists
  import opened Capability
  import opened Forest
  import opened RevokeRings
  import Rings

  // ---------------------------------------------------------------------------
  // Lists that keep apart
  // ---------------------------------------------------------------------------

  /** Children lists repeat nothing and name their parent. */
  ghost predicate Listed(caps: seq<Cap>) {
    forall i: nat {:trigger ChildrenOk(caps, i)} :: IsValid(caps, i) ==> ChildrenOk(caps, i)
  }

  function ListOf(caps: seq<Cap>, i: nat): seq<nat>
    requires i < |caps|
  {
    [Head(i)] + Nodes(caps[i].children)
  }

  lemma HeadNode(caps: seq<Cap>, i: nat, x: nat)
    requires i < |caps|
    ensures Head(x) in ListOf(caps, i) <==> x == i
    ensures Node(x) in ListOf(caps, i) <==> x in caps[i].children
  {
    NodesMember(caps[i].children, x);
  }

  lemma Apart(caps: seq<Cap>, i: nat, j: nat, x: nat)
    requires Listed(caps) && IsValid(caps, i) && IsValid(caps, j) && i != j && x in ListOf(caps, i)
    ensures x !in ListOf(caps, j)
  {
    assert ChildrenOk(caps, i) && ChildrenOk(caps, j);
    if x == Head(i) {
      HeadNode(caps, j, i);
    } else {
      var k :| 0 <= k < |caps[i].children| && x == Node(caps[i].children[k]);
      HeadNode(caps, j, caps[i].children[k]);
    }
  }

  /** Nothing of i's is written: neither its list nor, for a root, its node. */
  ghost predicate Away(caps: seq<Cap>, i: nat, touched: seq<nat>)
    requires i < |caps|
  {
    && (forall x: nat :: x in ListOf(caps, i) ==> x !in touched)
    && (caps[i].parentSlot == SLOT_INVALID ==> Node(i) !in touched)
  }

  lemma AwayFromList(caps: seq<Cap>, i: nat, j: nat)
    requires Listed(caps) && IsValid(caps, i) && IsValid(caps, j) && i != j && |caps| < SLOT_INVALID
    ensures Away(caps, i, ListOf(caps, j))
  {
    forall x: nat | x in ListOf(caps, i) ensures x !in ListOf(caps, j) {
      Apart(caps, i, j, x);
    }
    assert ChildrenOk(caps, j);
    HeadNode(caps, j, i);
  }

  /** The two nodes of a slot that is on no list of i's. */
  lemma AwayFromSlot(caps: seq<Cap>, i: nat, slot: nat)
    requires i < |caps| && i != slot && slot !in caps[i].children
    ensures Away(caps, i, [Head(slot), Node(slot)])
  {
    HeadNode(caps, i, slot);
  }

  lemma ListKept(l: Links, l': Links, caps: seq<Cap>, caps': seq<Cap>, i: nat, touched: seq<nat>)
    requires i < |caps| == |caps'| && RingOf(l, caps, i) && Confined(l, l', touched) && Away(caps, i, touched)
    requires caps'[i].children == caps[i].children
    requires caps'[i].parentSlot == SLOT_INVALID ==> caps[i].parentSlot == SLOT_INVALID
    ensures RingOf(l', caps', i)
  {
    ListPart(l, l', caps, i, touched);
    RootKept(l, l', caps, i, touched);
  }

  lemma ListPart(l: Links, l': Links, caps: seq<Cap>, i: nat, touched: seq<nat>)
    requires i < |caps| && Rings.Ring(l, ListOf(caps, i)) && Confined(l, l', touched)
    requires forall x: nat :: x in ListOf(caps, i) ==> x !in touched
    ensures Rings.Ring(l', ListOf(caps, i))
  {
    var r := ListOf(caps, i);
    forall k: nat | k < |r| ensures SameAt(l, l', r[k]) {
      assert Rings.LinkedAt(l, r, k) && r[k] in r;
    }
    RingFrame(l, l', r);
  }

  lemma OutsideIsConfined(l: Links, l': Links, touched: seq<nat>)
    requires Rings.SameOutside(l, l', touched)
    ensures Confined(l, l', touched)
  {
  }

  // ---------------------------------------------------------------------------
  // Insertion
  // ---------------------------------------------------------------------------

  /** The two INIT_LIST_HEAD calls. */
  function Initialised(l: Links, slot: nat): Links
    requires Rings.In(l, Head(slot)) && Rings.In(l, Node(slot))
  {
    Rings.Reset(Rings.Reset(l, Head(slot)), Node(slot))
  }

  lemma InitialisedAlone(l: Links, slot: nat)
    requires Rings.In(l, Head(slot)) && Rings.In(l, Node(slot))
    ensures
      var l' := Initialised(l, slot);
      && Rings.Holds(l', Head(slot), []) && Rings.Holds(l', Node(slot), [])
      && Confined(l, l', [Head(slot), Node(slot)])
  {
    var l', h, n := Initialised(l, slot), Head(slot), Node(slot);
    assert Rings.LinkedAt(l', [h] + [], 0) && Rings.LinkedAt(l', [n] + [], 0);
  }

  /** list_add_tail, where it can follow the pointers. */
  function AddedTail(l: Links, x: nat, h: nat): Links {
    if Rings.In(l, x) && Rings.In(l, h) && Rings.In(l, l.prev[h]) then Rings.AddTail(l, x, h) else l
  }

  function InsertLinks(l: Links, slot: nat, parent: nat): Links
    requires Rings.In(l, Head(slot)) && Rings.In(l, Node(slot))
  {
    var r := Initialised(l, slot);
    if parent == SLOT_INVALID then r else AddedTail(r, Node(slot), Head(parent))
  }

  /** A slot is on the list of no cap. */
  ghost predicate OffLists(caps: seq<Cap>, slot: nat) {
    forall i: nat :: IsValid(caps, i) ==> slot !in caps[i].children
  }

  lemma FreeOffLists(caps: seq<Cap>, slot: nat)
    requires Listed(caps) && !IsValid(caps, slot)
    ensures OffLists(caps, slot)
  {
    forall i: nat | IsValid(caps, i) ensures slot !in caps[i].children {
      assert ChildrenOk(caps, i);
    }
  }

  /** The list of the parent takes the new node at its end. */
  lemma ParentTakes(l: Links, caps: seq<Cap>, slot: nat, p: nat)
    requires Listed(caps) && IsValid(caps, p) && RingOf(l, caps, p) && slot != p && slot !in caps[p].children
    requires Rings.Holds(l, Node(slot), [])
    ensures Rings.Holds(AddedTail(l, Node(slot), Head(p)), Head(p), Nodes(caps[p].children + [slot]))
    ensures Confined(l, AddedTail(l, Node(slot), Head(p)), ListOf(caps, p) + [Node(slot)])
  {
    var cs, x := Nodes(caps[p].children), Node(slot);
    HeadNode(caps, p, slot);
    assert Rings.LinkedAt(l, [x] + [], 0);
    Rings.AddTailAppends(l, Head(p), cs, x);
    assert Nodes(caps[p].children + [slot]) == cs + [x];
    assert [Head(p)] + cs + [x] == ListOf(caps, p) + [x];
  }

  lemma InsertRings(l: Links, s: CSpace, slot: nat, t: nat, id: nat, r: bv8, g: nat, p: nat)
    requires Listed(s.caps) && |s.caps| < SLOT_INVALID && TableRings(l, s.caps) && CanInsert(s, slot, t, r, p)
    requires Rings.In(l, Head(slot)) && Rings.In(l, Node(slot))
    ensures TableRings(InsertLinks(l, slot, p), Insert(s, slot, t, id, r, g, p).0.caps)
  {
    var caps, caps' := s.caps, Insert(s, slot, t, id, r, g, p).0.caps;
    var l1, l' := Initialised(l, slot), InsertLinks(l, slot, p);
    InitialisedAlone(l, slot);
    FreeOffLists(caps, slot);
    var fresh0 := [Head(slot), Node(slot)];
    forall i: nat | IsValid(caps, i) ensures RingOf(l1, caps, i) {
      assert RingOf(l, caps, i);
      AwayFromSlot(caps, i, slot);
      ListKept(l, l1, caps, caps, i, fresh0);
    }
    if p != SLOT_INVALID {
      assert RingOf(l1, caps, p);
      ParentTakes(l1, caps, slot, p);
      forall i: nat | IsValid(caps', i) ensures RingOf(l', caps', i) {
        InsertedList(l1, l', caps, caps', slot, p, i);
      }
    } else {
      forall i: nat | IsValid(caps', i) ensures RingOf(l', caps', i) {
        assert i != slot ==> RingOf(l1, caps, i);
      }
    }
  }

  lemma InsertedList(l: Links, l': Links, caps: seq<Cap>, caps': seq<Cap>, slot: nat, p: nat, i: nat)
    requires Listed(caps) && |caps'| == |caps| < SLOT_INVALID && IsValid(caps, p) && !IsValid(caps, slot)
    requires OffLists(caps, slot) && IsValid(caps', i) && (i == slot || IsValid(caps, i))
    requires i != slot ==> RingOf(l, caps, i)
    requires Rings.Holds(l, Head(slot), [])
    requires Confined(l, l', ListOf(caps, p) + [Node(slot)])
    requires Rings.Holds(l', Head(p), Nodes(caps[p].children + [slot]))
    requires caps'[p].children == caps[p].children + [slot]
    requires i == slot ==> caps'[i].children == [] && caps'[i].parentSlot == p
    requires i != slot ==> caps'[i].parentSlot == caps[i].parentSlot
    requires i != slot && i != p ==> caps'[i].children == caps[i].children
    ensures RingOf(l', caps', i)
  {
    var touched := ListOf(caps, p) + [Node(slot)];
    HeadNode(caps, p, slot);
    if i == slot {
      assert Rings.LinkedAt(l, [Head(slot)] + [], 0);
      RingFrame(l, l', [Head(slot)] + []);
      assert Nodes([]) == [];
    } else if i == p {
      assert ChildrenOk(caps, p);
      HeadNode(caps, p, p);
      RootKept(l, l', caps, i, touched);
    } else {
      AwayFromList(caps, i, p);
      HeadNode(caps, i, slot);
      ListKept(l, l', caps, caps', i, touched);
    }
  }

  /** The node of a root is on no list, not even its own. */
  lemma RootKept(l: Links, l': Links, caps: seq<Cap>, i: nat, touched: seq<nat>)
    requires i < |caps| && RingOf(l, caps, i) && Confined(l, l', touched)
    requires caps[i].parentSlot == SLOT_INVALID ==> Node(i) !in touched
    ensures caps[i].parentSlot == SLOT_INVALID ==> Rings.Holds(l', Node(i), [])
  {
    if caps[i].parentSlot == SLOT_INVALID {
      assert Rings.LinkedAt(l, [Node(i)] + [], 0);
      RingFrame(l, l', [Node(i)] + []);
    }
  }

  lemma InsertListed(s: CSpace, slot: nat, t: nat, id: nat, r: bv8, g: nat, p: nat)
    requires Listed(s.caps) && CanInsert(s, slot, t, r, p)
    ensures Listed(Insert(s, slot, t, id, r, g, p).0.caps)
  {
    var caps, caps' := s.caps, Insert(s, slot, t, id, r, g, p).0.caps;
    FreeOffLists(caps, slot);
    forall i: nat | IsValid(caps', i) ensures ChildrenOk(caps', i) {
      if i != slot {
        assert ChildrenOk(caps, i);
        NoDupJoin(caps[i].children, [slot]);
      }
    }
  }

  // ---------------------------------------------------------------------------
  // Leaving the parent's list
  // ---------------------------------------------------------------------------

  function LeaveParent(l: Links, slot: nat, parent: nat): Links {
    if parent == SLOT_INVALID then l else Rings.Unlink(l, Node(slot))
  }

  function ParentList0(caps: seq<Cap>, slot: nat): seq<nat>
    requires slot < |caps|
  {
    if caps[slot].parentSlot < |caps| then ListOf(caps, caps[slot].parentSlot) else []
  }

  lemma SplitWithout(cs: seq<nat>, x: nat) returns (a: seq<nat>, b: seq<nat>)
    requires NoDup(cs) && x in cs
    ensures cs == a + [x] + b && Without(cs, x) == a + b
  {
    a, b := MinusOne(cs, {}, x);
    MinusNone(cs);
    MinusIsWithout(cs, {} + {x}, x);
  }

  /** list_del_init on the node of a member. */
  lemma MemberLeaves(l: Links, h: nat, cs: seq<nat>, x: nat)
    requires NoDup(cs) && x in cs && Rings.Holds(l, h, Nodes(cs))
    ensures
      var l' := Rings.Unlink(l, Node(x));
      && Rings.Holds(l', h, Nodes(Without(cs, x))) && Rings.Holds(l', Node(x), [])
      && Confined(l, l', [h] + Nodes(cs))
  {
    var a, b := SplitWithout(cs, x);
    NodesSplit(a, x, b);
    NodeLeaves(l, Rings.Unlink(l, Node(x)), h, Nodes(a), Node(x), Nodes(b));
  }

  lemma NodeLeaves(l: Links, l': Links, h: nat, a: seq<nat>, x: nat, b: seq<nat>)
    requires Rings.Holds(l, h, a + [x] + b) && l' == Rings.Unlink(l, x)
    ensures Rings.Holds(l', h, a + b) && Rings.Holds(l', x, []) && Confined(l, l', [h] + (a + [x] + b))
  {
    Rings.UnlinkRemoves(l, h, a, x, b);
    assert [h] + a + [x] + b == [h] + (a + [x] + b);
    OutsideIsConfined(l, l', [h] + (a + [x] + b));
    assert [x] + [] == [x];
  }

  lemma ParentForgets(l: Links, caps: seq<Cap>, slot: nat)
    requires Listed(caps) && |caps| < SLOT_INVALID && IsValid(caps, slot) && RingOf(l, caps, slot)
    requires
      var p := caps[slot].parentSlot;
      p == SLOT_INVALID || (IsValid(caps, p) && slot in caps[p].children && RingOf(l, caps, p))
    ensures
      var l', p := LeaveParent(l, slot, caps[slot].parentSlot), caps[slot].parentSlot;
      && Confined(l, l', ParentList0(caps, slot)) && Rings.Holds(l', Node(slot), [])
      && (p < |caps| ==> Rings.Holds(l', Head(p), Nodes(Without(caps[p].children, slot))))
  {
    var p := caps[slot].parentSlot;
    if p != SLOT_INVALID {
      assert ChildrenOk(caps, p);
      MemberLeaves(l, Head(p), caps[p].children, slot);
    }
  }

  // ---------------------------------------------------------------------------
  // Deletion
  // ---------------------------------------------------------------------------

  /** list_del_init on each of the nodes, first to last. */
  function UnlinkAll(l: Links, xs: seq<nat>): Links
    decreases |xs|
  {
    if xs == [] then l else UnlinkAll(Rings.Unlink(l, xs[0]), xs[1..])
  }

  lemma ConfinedJoin(l: Links, m: Links, l': Links, a: seq<nat>, b: seq<nat>, c: seq<nat>)
    requires Confined(l, m, a) && Confined(m, l', b)
    requires forall x: nat :: x !in c ==> x !in a && x !in b
    ensures Confined(l, l', c)
  {
    forall x: nat | Rings.In(l, x) && x !in c ensures SameAt(l, l', x) {
      assert SameAt(l, m, x) && SameAt(m, l', x);
    }
  }

  lemma SecondApart(h: nat, x: nat, rest: seq<nat>)
    requires NoDup([h] + ([x] + rest))
    ensures x !in [h] + rest
  {
    var r := [h] + ([x] + rest);
    assert r[0] == h && r[1] == x;
    forall k: nat | k < |rest| ensures rest[k] != x {
      assert r[k + 2] == rest[k];
    }
  }

  lemma FirstLeaves(l: Links, h: nat, x: nat, rest: seq<nat>)
    requires Rings.Holds(l, h, [x] + rest)
    ensures
      var u := Rings.Unlink(l, x);
      Rings.Holds(u, h, rest) && Rings.Holds(u, x, []) && Confined(l, u, [h] + ([x] + rest))
  {
    var none: seq<nat> := [];
    assert none + [x] + rest == [x] + rest && none + rest == rest;
    Rings.UnlinkRemoves(l, h, none, x, rest);
    assert [h] + none + [x] + rest == [h] + ([x] + rest) && [x] + none == [x];
    OutsideIsConfined(l, Rings.Unlink(l, x), [h] + ([x] + rest));
  }

  lemma {:induction false} UnlinkAllEmpties(l: Links, h: nat, cs: seq<nat>)
    requires Rings.Holds(l, h, cs)
    ensures
      var l' := UnlinkAll(l, cs);
      && Rings.Holds(l', h, []) && Confined(l, l', [h] + cs)
      && forall k: nat :: k < |cs| ==> Rings.Holds(l', cs[k], [])
    decreases |cs|
  {
    if cs != [] {
      var x, rest := cs[0], cs[1..];
      assert cs == [x] + rest;
      FirstLeaves(l, h, x, rest);
      SecondApart(h, x, rest);
      var u := Rings.Unlink(l, x);
      UnlinkAllEmpties(u, h, rest);
      var l' := UnlinkAll(u, rest);
      ConfinedJoin(l, u, l', [h] + cs, [h] + rest, [h] + cs);
      AloneKept(u, l', x, [h] + rest);
      forall k: nat | k < |cs| ensures Rings.Holds(l', cs[k], []) {
        assert k > 0 ==> cs[k] == rest[k - 1];
      }
    }
  }

  lemma AloneKept(l: Links, l': Links, x: nat, touched: seq<nat>)
    requires Rings.Holds(l, x, []) && Confined(l, l', touched) && x !in touched
    ensures Rings.Holds(l', x, [])
  {
    assert Rings.LinkedAt(l, [x] + [], 0);
    RingFrame(l, l', [x] + []);
  }

  function DeleteLinks(l: Links, caps: seq<Cap>, slot: nat): Links
    requires slot < |caps|
  {
    var d := UnlinkAll(LeaveParent(l, slot, caps[slot].parentSlot), Nodes(caps[slot].children));
    if Rings.In(d, Head(slot)) && Rings.In(d, Node(slot)) then Initialised(d, slot) else d
  }

  /** The lists that a deletion writes. */
  function DeleteTouches(caps: seq<Cap>, slot: nat): seq<nat>
    requires slot < |caps|
  {
    ParentList0(caps, slot) + ListOf(caps, slot) + [Head(slot), Node(slot)]
  }

  /** What is unlinked by a deletion, before the entry is cleared. */
  lemma DeleteUnlinks(l: Links, caps: seq<Cap>, slot: nat)
    requires ForestOk(caps) && TableRings(l, caps) && IsValid(caps, slot)
    ensures
      var l1 := LeaveParent(l, slot, caps[slot].parentSlot);
      var l2, p := UnlinkAll(l1, Nodes(caps[slot].children)), caps[slot].parentSlot;
      && Confined(l, l1, ParentList0(caps, slot)) && Confined(l1, l2, ListOf(caps, slot))
      && Rings.In(l2, Head(slot)) && Rings.In(l2, Node(slot))
      && (p < |caps| ==> Rings.Holds(l1, Head(p), Nodes(Without(caps[p].children, slot))))
      && forall k: nat :: k < |caps[slot].children| ==> Rings.Holds(l2, Nodes(caps[slot].children)[k], [])
  {
    var p := caps[slot].parentSlot;
    assert ParentOk(caps, slot) && RingOf(l, caps, slot) && ChildrenOk(caps, slot);
    assert p != SLOT_INVALID ==> RingOf(l, caps, p) && p != slot;
    var l1 := LeaveParent(l, slot, p);
    ParentForgets(l, caps, slot);
    if p != SLOT_INVALID {
      AwayFromList(caps, slot, p);
      ListPart(l, l1, caps, slot, ParentList0(caps, slot));
    }
    UnlinkAllEmpties(l1, Head(slot), Nodes(caps[slot].children));
    var l2 := UnlinkAll(l1, Nodes(caps[slot].children));
    assert Rings.LinkedAt(l2, [Head(slot)] + [], 0) && Rings.LinkedAt(l1, [Node(slot)] + [], 0);
  }

  lemma DeleteConfined(l: Links, l1: Links, l2: Links, l': Links, caps: seq<Cap>, slot: nat)
    requires slot < |caps| && Confined(l, l1, ParentList0(caps, slot)) && Confined(l1, l2, ListOf(caps, slot))
    requires Confined(l2, l', [Head(slot), Node(slot)])
    ensures Confined(l, l', DeleteTouches(caps, slot))
  {
    var a, b, c := ParentList0(caps, slot), ListOf(caps, slot), [Head(slot), Node(slot)];
    ConfinedJoin(l, l1, l2, a, b, a + b);
    ConfinedJoin(l, l2, l', a + b, c, a + b + c);
  }

  lemma KidsAlone(l2: Links, l': Links, kids: seq<nat>, slot: nat, c: nat)
    requires Confined(l2, l', [Head(slot), Node(slot)]) && c in kids && c != slot
    requires forall k: nat :: k < |kids| ==> Rings.Holds(l2, Nodes(kids)[k], [])
    ensures Rings.Holds(l', Node(c), [])
  {
    var k: nat :| k < |kids| && kids[k] == c;
    assert Nodes(kids)[k] == Node(c);
    AloneKept(l2, l', Node(c), [Head(slot), Node(slot)]);
  }

  lemma DeleteSteps(l: Links, caps: seq<Cap>, slot: nat)
    requires ForestOk(caps) && TableRings(l, caps) && IsValid(caps, slot)
    ensures
      var l', p := DeleteLinks(l, caps, slot), caps[slot].parentSlot;
      && Confined(l, l', DeleteTouches(caps, slot))
      && (p < |caps| ==> Rings.Holds(l', Head(p), Nodes(Without(caps[p].children, slot))))
      && forall c: nat :: c in caps[slot].children ==> Rings.Holds(l', Node(c), [])
  {
    var p, kids := caps[slot].parentSlot, caps[slot].children;
    DeleteUnlinks(l, caps, slot);
    var l1 := LeaveParent(l, slot, p);
    var l2 := UnlinkAll(l1, Nodes(kids));
    InitialisedAlone(l2, slot);
    var l' := Initialised(l2, slot);
    DeleteConfined(l, l1, l2, l', caps, slot);
    ParentIsNoChild(caps, slot);
    forall c: nat | c in kids ensures Rings.Holds(l', Node(c), []) {
      KidsAlone(l2, l', kids, slot, c);
    }
    if p < |caps| {
      assert ParentOk(caps, slot);
      DeleteParent(l1, l2, l', caps, slot);
    }
  }

  /** The parent's list once the slot has left it. */
  lemma DeleteParent(l1: Links, l2: Links, l': Links, caps: seq<Cap>, slot: nat)
    requires ForestOk(caps) && IsValid(caps, slot) && IsValid(caps, caps[slot].parentSlot)
    requires
      var p := caps[slot].parentSlot;
      && Rings.Holds(l1, Head(p), Nodes(Without(caps[p].children, slot)))
      && Confined(l1, l2, ListOf(caps, slot)) && Confined(l2, l', [Head(slot), Node(slot)])
    ensures
      var p := caps[slot].parentSlot;
      Rings.Holds(l', Head(p), Nodes(Without(caps[p].children, slot)))
  {
    var p := caps[slot].parentSlot;
    assert ChildrenOk(caps, p) && ChildrenOk(caps, slot);
    ParentIsNoChild(caps, slot);
    var cs := Without(caps[p].children, slot);
    var r, touched := [Head(p)] + Nodes(cs), ListOf(caps, slot) + [Head(slot), Node(slot)];
    WithoutProps(caps[p].children, slot);
    forall k: nat | k < |r| ensures SameAt(l1, l', r[k]) {
      assert Rings.LinkedAt(l1, r, k);
      HeadNode(caps, slot, p);
      if k > 0 {
        assert r[k] == Node(cs[k - 1]) && cs[k - 1] in cs;
        HeadNode(caps, slot, cs[k - 1]);
      }
    }
    RingFrame(l1, l', r);
  }

  /** cap_delete on the pointers leaves the lists of the table that the model says. */
  lemma DeleteRings(l: Links, s: CSpace, slot: nat)
    requires ForestOk(s.caps) && TableRings(l, s.caps) && Delete(s, slot).1 == Ok
    ensures TableRings(DeleteLinks(l, s.caps, slot), Delete(s, slot).0.caps)
  {
    var caps, caps', l' := s.caps, Delete(s, slot).0.caps, DeleteLinks(l, s.caps, slot);
    DeleteEffect(s, slot);
    DeleteSteps(l, caps, slot);
    forall i: nat | IsValid(caps', i) ensures RingOf(l', caps', i) {
      assert caps'[i] == DeletedEntry(s, slot, i);
      assert RingOf(l, caps, i);
      DeletedList(l, l', s, slot, caps', i);
    }
  }

  lemma DeletedList(l: Links, l': Links, s: CSpace, slot: nat, caps': seq<Cap>, i: nat)
    requires ForestOk(s.caps) && Deleted(s, slot, caps') && IsValid(caps', i) && RingOf(l, s.caps, i)
    requires Confined(l, l', DeleteTouches(s.caps, slot))
    requires
      var p := s.caps[slot].parentSlot;
      && (p < |s.caps| ==> Rings.Holds(l', Head(p), Nodes(Without(s.caps[p].children, slot))))
      && forall c: nat :: c in s.caps[slot].children ==> Rings.Holds(l', Node(c), [])
    ensures RingOf(l', caps', i)
  {
    var caps, p := s.caps, s.caps[slot].parentSlot;
    assert caps'[i] == DeletedEntry(s, slot, i);
    assert ParentOk(caps, slot) && ChildrenOk(caps, slot) && ChildrenOk(caps, i) && ParentOk(caps, i);
    if i == p {
      DeleteAwayNode(caps, slot, p);
      RootKept(l, l', caps, p, DeleteTouches(caps, slot));
    } else {
      DeleteAwayList(caps, slot, i);
      ListPart(l, l', caps, i, DeleteTouches(caps, slot));
      if i !in caps[slot].children && caps[i].parentSlot == SLOT_INVALID {
        DeleteAwayNode(caps, slot, i);
        RootKept(l, l', caps, i, DeleteTouches(caps, slot));
      }
    }
  }

  /** The node of a root, other than the slot, is not written. */
  lemma DeleteAwayNode(caps: seq<Cap>, slot: nat, i: nat)
    requires ForestOk(caps) && IsValid(caps, slot) && IsValid(caps, i) && i != slot
    ensures caps[i].parentSlot == SLOT_INVALID ==> Node(i) !in DeleteTouches(caps, slot)
  {
    var p := caps[slot].parentSlot;
    assert ParentOk(caps, slot) && ChildrenOk(caps, slot);
    HeadNode(caps, slot, i);
    if p < |caps| {
      assert ChildrenOk(caps, p);
      HeadNode(caps, p, i);
    }
  }

  lemma DeleteAwayList(caps: seq<Cap>, slot: nat, i: nat)
    requires ForestOk(caps) && IsValid(caps, slot) && IsValid(caps, i) && i != slot && i != caps[slot].parentSlot
    ensures forall x: nat :: x in ListOf(caps, i) ==> x !in DeleteTouches(caps, slot)
  {
    var p := caps[slot].parentSlot;
    assert ParentOk(caps, slot) && ChildrenOk(caps, i);
    AwayFromList(caps, i, slot);
    HeadNode(caps, i, slot);
    if p < |caps| {
      AwayFromList(caps, i, p);
    }
  }
}
