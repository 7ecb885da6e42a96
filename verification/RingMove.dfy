/**
 The move of a cap on the pointers of the children lists: insert beside the source, splice
 the children over, unlink the source, clear it.
 */
module RingMove {
  import opened Lists
  import opened Capability
  import opened Forest
  import opened RevokeRings
  import opened RingOps
  import Rings

  /** list_splice, which does nothing with an empty list. */
  function Spliced(l: Links, from: nat, h: nat): Links {
    if Rings.In(l, from) && Rings.In(l, h) && l.next[from] != from
       && Rings.In(l, l.next[from]) && Rings.In(l, l.prev[from]) && Rings.In(l, l.next[h])
    then Rings.Splice(l, from, h) else l
  }

  function MoveLinks(l: Links, src: nat, dst: nat, parent: nat): Links
    requires Rings.In(l, Head(dst)) && Rings.In(l, Node(dst))
  {
    var spliced := Spliced(InsertLinks(l, dst, parent), Head(src), Head(dst));
    var left := LeaveParent(spliced, src, parent);
    if Rings.In(left, Head(src)) && Rings.In(left, Node(src)) then Initialised(left, src) else left
  }

  // ---------------------------------------------------------------------------
  // After the insertion
  // ---------------------------------------------------------------------------

  /** The table between insertion and splice: dst beside src, without children. */
  ghost predicate Beside(caps: seq<Cap>, src: nat, dst: nat) {
    && Listed(caps) && |caps| < SLOT_INVALID && IsValid(caps, src) && IsValid(caps, dst) && src != dst
    && caps[dst].children == [] && caps[dst].parentSlot == caps[src].parentSlot
    && var p := caps[src].parentSlot;
    && (p == SLOT_INVALID ||
          (IsValid(caps, p) && p != src && p != dst && src in caps[p].children && dst in caps[p].children))
  }

  lemma SpliceList(l: Links, from: nat, cs: seq<nat>, h: nat)
    requires Rings.Holds(l, from, cs) && Rings.Holds(l, h, [])
    requires forall x: nat :: x in [from] + cs ==> x != h
    ensures
      var l' := Spliced(l, from, h);
      && Rings.Holds(l', h, cs) && Rings.Holds(l', from, []) && Confined(l, l', [from] + cs + [h])
  {
    assert Rings.LinkedAt(l, [from] + cs, 0) && Rings.LinkedAt(l, [h] + [], 0);
    Rings.RingPrev(l, [from] + cs, 0);
    if cs != [] {
      assert ([from] + cs)[1] != ([from] + cs)[0];
      Rings.SpliceJoins(l, from, cs, h, []);
      assert cs + [] == cs && [from] + cs + [h] + [] == [from] + cs + [h];
    }
  }

  lemma SpliceStep(l: Links, caps: seq<Cap>, src: nat, dst: nat)
    requires Beside(caps, src, dst) && TableRings(l, caps)
    ensures
      var l' := Spliced(l, Head(src), Head(dst));
      && Rings.Holds(l', Head(dst), Nodes(caps[src].children))
      && Confined(l, l', ListOf(caps, src) + [Head(dst)])
  {
    assert RingOf(l, caps, src) && RingOf(l, caps, dst) && Nodes([]) == [];
    HeadNode(caps, src, dst);
    SpliceList(l, Head(src), Nodes(caps[src].children), Head(dst));
  }

  function MoveTouches(caps: seq<Cap>, src: nat, dst: nat): seq<nat>
    requires src < |caps|
  {
    ListOf(caps, src) + [Head(dst)] + ParentList0(caps, src) + [Head(src), Node(src)]
  }

  /** The source leaves its parent's list, on which the target is. */
  lemma LeaveStep(l: Links, m: Links, caps: seq<Cap>, src: nat, dst: nat)
    requires Beside(caps, src, dst) && TableRings(l, caps) && Confined(l, m, ListOf(caps, src) + [Head(dst)])
    ensures
      var l', p := LeaveParent(m, src, caps[src].parentSlot), caps[src].parentSlot;
      && Confined(m, l', ParentList0(caps, src))
      && (p < |caps| ==> Rings.Holds(l', Head(p), Nodes(Without(caps[p].children, src))))
  {
    var p := caps[src].parentSlot;
    if p != SLOT_INVALID {
      assert RingOf(l, caps, p) && ChildrenOk(caps, p);
      AwayFromList(caps, p, src);
      HeadNode(caps, p, dst);
      ListPart(l, m, caps, p, ListOf(caps, src) + [Head(dst)]);
      MemberLeaves(m, Head(p), caps[p].children, src);
    }
  }

  lemma OwnNodes(l: Links, m: Links, caps: seq<Cap>, src: nat)
    requires IsValid(caps, src) && TableRings(l, caps) && |m.next| == |l.next| && |m.prev| == |l.prev|
    requires
      var p := caps[src].parentSlot;
      p == SLOT_INVALID || (IsValid(caps, p) && src in caps[p].children)
    ensures Rings.In(m, Head(src)) && Rings.In(m, Node(src))
  {
    var p := caps[src].parentSlot;
    assert RingOf(l, caps, src);
    assert Rings.LinkedAt(l, ListOf(caps, src), 0);
    if p == SLOT_INVALID {
      assert Rings.LinkedAt(l, [Node(src)] + [], 0);
    } else {
      assert RingOf(l, caps, p);
      var k: nat :| k < |caps[p].children| && caps[p].children[k] == src;
      assert Rings.LinkedAt(l, ListOf(caps, p), k + 1) && ListOf(caps, p)[k + 1] == Node(src);
    }
  }

  /** All writes after the insertion, and what the two lists that change then hold. */
  lemma MoveSteps(l: Links, caps: seq<Cap>, src: nat, dst: nat)
    requires Beside(caps, src, dst) && TableRings(l, caps)
    ensures
      var p := caps[src].parentSlot;
      var left := LeaveParent(Spliced(l, Head(src), Head(dst)), src, p);
      && Rings.In(left, Head(src)) && Rings.In(left, Node(src))
      && var l' := Initialised(left, src);
      && Confined(l, l', MoveTouches(caps, src, dst))
      && Rings.Holds(l', Head(dst), Nodes(caps[src].children))
      && (p < |caps| ==> Rings.Holds(l', Head(p), Nodes(Without(caps[p].children, src))))
  {
    var p, m := caps[src].parentSlot, Spliced(l, Head(src), Head(dst));
    var left, own := LeaveParent(m, src, p), [Head(src), Node(src)];
    SpliceStep(l, caps, src, dst);
    LeaveStep(l, m, caps, src, dst);
    OwnNodes(l, left, caps, src);
    InitialisedAlone(left, src);
    var l', all := Initialised(left, src), MoveTouches(caps, src, dst);
    ConfinedJoin(l, m, left, ListOf(caps, src) + [Head(dst)], ParentList0(caps, src), all);
    ConfinedJoin(l, left, l', all, own, all);
    MovedTarget(m, left, l', caps, src, dst);
    if p != SLOT_INVALID {
      MovedParent(left, l', caps, src, dst);
    }
  }

  lemma ChildrenAway(caps: seq<Cap>, src: nat, dst: nat, x: nat)
    requires Beside(caps, src, dst) && x in [Head(dst)] + Nodes(caps[src].children)
    ensures x !in ParentList0(caps, src) + [Head(src), Node(src)]
  {
    var p := caps[src].parentSlot;
    assert ChildrenOk(caps, src);
    if x == Head(dst) {
      if p < |caps| {
        HeadNode(caps, p, dst);
      }
    } else {
      var k: nat :| k < |caps[src].children| && x == Node(caps[src].children[k]);
      var c := caps[src].children[k];
      assert c in caps[src].children;
      if p < |caps| {
        assert ChildrenOk(caps, p);
        HeadNode(caps, p, c);
      }
    }
  }

  lemma MovedTarget(m: Links, left: Links, l': Links, caps: seq<Cap>, src: nat, dst: nat)
    requires Beside(caps, src, dst) && Rings.Holds(m, Head(dst), Nodes(caps[src].children))
    requires Confined(m, left, ParentList0(caps, src)) && Confined(left, l', [Head(src), Node(src)])
    ensures Rings.Holds(l', Head(dst), Nodes(caps[src].children))
  {
    var r, touched := [Head(dst)] + Nodes(caps[src].children), ParentList0(caps, src) + [Head(src), Node(src)];
    ConfinedJoin(m, left, l', ParentList0(caps, src), [Head(src), Node(src)], touched);
    forall k: nat | k < |r| ensures SameAt(m, l', r[k]) {
      assert Rings.LinkedAt(m, r, k) && r[k] in r;
      ChildrenAway(caps, src, dst, r[k]);
    }
    RingFrame(m, l', r);
  }

  lemma MovedParent(left: Links, l': Links, caps: seq<Cap>, src: nat, dst: nat)
    requires Beside(caps, src, dst) && caps[src].parentSlot < |caps|
    requires Confined(left, l', [Head(src), Node(src)])
    requires
      var p := caps[src].parentSlot;
      Rings.Holds(left, Head(p), Nodes(Without(caps[p].children, src)))
    ensures
      var p := caps[src].parentSlot;
      Rings.Holds(l', Head(p), Nodes(Without(caps[p].children, src)))
  {
    var p := caps[src].parentSlot;
    assert ChildrenOk(caps, p);
    var cs := Without(caps[p].children, src);
    WithoutProps(caps[p].children, src);
    NodesMember(cs, src);
    ParentList(left, l', Head(p), Nodes(cs), src);
  }

  // ---------------------------------------------------------------------------
  // The whole move
  // ---------------------------------------------------------------------------

  lemma InsertedBeside(s: CSpace, src: nat, dst: nat)
    requires ForestOk(s.caps) && Move(s, src, dst).1 == Ok
    ensures
      var c := s.caps[src];
      var mid := Insert(s, dst, c.kobjType, c.kobjId, c.rights, c.badge, c.parentSlot).0.caps;
      && CanInsert(s, dst, c.kobjType, c.rights, c.parentSlot) && Beside(mid, src, dst)
      && mid[src].children == c.children && mid[src].parentSlot == c.parentSlot
      && (c.parentSlot < |s.caps| ==> mid[c.parentSlot].children == s.caps[c.parentSlot].children + [dst])
      && forall i: nat :: IsValid(s.caps, i) ==>
           && IsValid(mid, i) && mid[i].parentSlot == s.caps[i].parentSlot
           && (i != c.parentSlot ==> mid[i].children == s.caps[i].children)
  {
    var c := s.caps[src];
    assert ParentOk(s.caps, src) && ChildrenOk(s.caps, src);
    ParentIsNoChild(s.caps, src);
    InsertListed(s, dst, c.kobjType, c.kobjId, c.rights, c.badge, c.parentSlot);
  }

  /** The list of a cap other than src, dst and their parent is not written. */
  lemma MoveAway(caps: seq<Cap>, src: nat, dst: nat, i: nat)
    requires Beside(caps, src, dst) && IsValid(caps, i) && i != src && i != dst
    ensures i != caps[src].parentSlot ==> forall x: nat :: x in ListOf(caps, i) ==> x !in MoveTouches(caps, src, dst)
    ensures caps[i].parentSlot == SLOT_INVALID ==> Node(i) !in MoveTouches(caps, src, dst)
  {
    var p := caps[src].parentSlot;
    assert ChildrenOk(caps, src) && ChildrenOk(caps, i);
    AwayFromList(caps, i, src);
    HeadNode(caps, i, dst);
    HeadNode(caps, i, src);
    if p < |caps| {
      assert ChildrenOk(caps, p);
      HeadNode(caps, p, i);
      if i != p {
        AwayFromList(caps, i, p);
      }
    }
  }

  lemma TargetNode(l: Links, l': Links, caps: seq<Cap>, src: nat, dst: nat)
    requires Beside(caps, src, dst) && RingOf(l, caps, dst) && Confined(l, l', MoveTouches(caps, src, dst))
    ensures caps[dst].parentSlot == SLOT_INVALID ==> Rings.Holds(l', Node(dst), [])
  {
    assert ChildrenOk(caps, src);
    HeadNode(caps, src, dst);
    RootKept(l, l', caps, dst, MoveTouches(caps, src, dst));
  }

  /** cap_move on the pointers leaves the lists of the table that the model says. */
  lemma MoveRings(l: Links, s: CSpace, src: nat, dst: nat)
    requires ForestOk(s.caps) && TableRings(l, s.caps) && Move(s, src, dst).1 == Ok
    requires Rings.In(l, Head(dst)) && Rings.In(l, Node(dst))
    ensures TableRings(MoveLinks(l, src, dst, s.caps[src].parentSlot), Move(s, src, dst).0.caps)
  {
    var c := s.caps[src];
    var mid := Insert(s, dst, c.kobjType, c.kobjId, c.rights, c.badge, c.parentSlot).0.caps;
    var l1, l' := InsertLinks(l, dst, c.parentSlot), MoveLinks(l, src, dst, c.parentSlot);
    InsertedBeside(s, src, dst);
    InsertRings(l, s, dst, c.kobjType, c.kobjId, c.rights, c.badge, c.parentSlot);
    MoveSteps(l1, mid, src, dst);
    MoveEffect(s, src, dst);
    var caps' := Move(s, src, dst).0.caps;
    forall i: nat | IsValid(caps', i) ensures RingOf(l', caps', i) {
      assert caps'[i] == MovedEntry(s, src, dst, i);
      assert i == dst || IsValid(s.caps, i);
      assert RingOf(l1, mid, i);
      MovedList(l1, l', s, src, dst, mid, caps', i);
    }
  }

  lemma MovedList(l: Links, l': Links, s: CSpace, src: nat, dst: nat, mid: seq<Cap>, caps': seq<Cap>, i: nat)
    requires ForestOk(s.caps) && Moved(s, src, dst, caps') && Beside(mid, src, dst) && |mid| == |s.caps|
    requires IsValid(caps', i) && IsValid(mid, i) && RingOf(l, mid, i)
    requires Confined(l, l', MoveTouches(mid, src, dst))
    requires
      var c := s.caps[src];
      && mid[src].children == c.children && mid[src].parentSlot == c.parentSlot
      && (c.parentSlot < |mid| ==> mid[c.parentSlot].children == s.caps[c.parentSlot].children + [dst])
      && (i != dst ==> mid[i].parentSlot == s.caps[i].parentSlot)
      && (i != dst && i != c.parentSlot ==> mid[i].children == s.caps[i].children)
      && Rings.Holds(l', Head(dst), Nodes(c.children))
      && (c.parentSlot < |mid| ==> Rings.Holds(l', Head(c.parentSlot), Nodes(Without(mid[c.parentSlot].children, src))))
    ensures RingOf(l', caps', i)
  {
    assert caps'[i] == MovedEntry(s, src, dst, i);
    var touched := MoveTouches(mid, src, dst);
    if i == dst {
      TargetNode(l, l', mid, src, dst);
    } else {
      MoveAway(mid, src, dst, i);
      RootKept(l, l', mid, i, touched);
      if i != mid[src].parentSlot {
        ListPart(l, l', mid, i, touched);
      }
    }
  }
}
