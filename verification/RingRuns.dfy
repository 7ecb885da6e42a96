/**
 Whole runs of the capability operations with the pointers of the children lists beside the
 table: in every run the pointers form the lists that the model keeps as sequences.
 */
module RingRuns {
  import opened Lists
  import opened Capability
  import opened Forest
  import opened Revocation
  import opened RevokeLoop
  import opened CapRuns
  import opened RevokeRings
  import opened RingOps
  import opened RingMove
  import FreeList
  import Rings

  /** A head and a node for every table entry. */
  predicate Sized(l: Links, caps: seq<Cap>) {
    |l.next| == |l.prev| == 2 * |caps|
  }

  /** The writes of cap_insert_locked for a cap that is placed, none for one that is refused. */
  ghost predicate FillLinks(l: Links, a: Tracked, done: bool, dst: nat, parent: nat, l': Links) {
    if done then dst < |a.s.caps| && Sized(l, a.s.caps) && l' == InsertLinks(l, dst, parent) else l' == l
  }

  /** The list writes that go with each operation. */
  ghost predicate LinkStep(a: Tracked, op: Op, b: Tracked, l: Links, l': Links) {
    match op
    case OpMint(slot, t, id, r, g) => FillLinks(l, a, Mint(a.s, slot, t, id, r, g).1 == Ok, slot, SLOT_INVALID, l')
    case OpCopy(src, dst, mask) => FillLinks(l, a, Copy(a.s, src, dst, mask).1 == Ok, dst, src, l')
    case OpDerive(src, dst, r, g) => FillLinks(l, a, Derive(a.s, src, dst, r, g).1 == Ok, dst, src, l')
    case OpMove(src, dst) =>
      if Move(a.s, src, dst).1 == Ok then
        && dst < |a.s.caps| && Sized(l, a.s.caps)
        && l' == MoveLinks(l, src, dst, a.s.caps[src].parentSlot)
      else l' == l
    case OpDelete(slot) => l' == if Delete(a.s, slot).1 == Ok then DeleteLinks(l, a.s.caps, slot) else l
    case OpRevoke(slot) => if RevokeAdmitted(a.s, slot) then RevokeLinks(a, slot, b, l, l') else l' == l
    case OpSetInheritable(_, _) => l' == l
    case OpAlloc =>
      if a.list == [] then l' == l else Confined(l, l', [Head(a.s.freeHead), Node(a.s.freeHead)])
  }

  ghost predicate RevokeLinks(a: Tracked, slot: nat, b: Tracked, l: Links, l': Links) {
    exists freed: seq<nat>, links: seq<nat> ::
      Released(a, slot, freed, b) && |links| == |freed| && ReleasesTo(l, freed, links, l')
  }

  predicate ReleasesTo(l: Links, freed: seq<nat>, links: seq<nat>, l': Links)
    requires |links| == |freed|
  {
    l' == ReleaseAll(l, freed, links)
  }

  // ---------------------------------------------------------------------------
  // One step
  // ---------------------------------------------------------------------------

  lemma {:induction false} UnlinkAllSized(l: Links, xs: seq<nat>)
    ensures |UnlinkAll(l, xs).next| == |l.next| && |UnlinkAll(l, xs).prev| == |l.prev|
    decreases |xs|
  {
    if xs != [] {
      UnlinkAllSized(Rings.Unlink(l, xs[0]), xs[1..]);
    }
  }

  lemma {:induction false} ReleaseAllSized(l: Links, freed: seq<nat>, links: seq<nat>)
    requires |links| == |freed|
    ensures |ReleaseAll(l, freed, links).next| == |l.next| && |ReleaseAll(l, freed, links).prev| == |l.prev|
    decreases |freed|
  {
    if freed != [] {
      ReleaseAllSized(l, freed[..|freed| - 1], links[..|freed| - 1]);
    }
  }

  predicate SameSize(l: Links, l': Links) {
    |l'.next| == |l.next| && |l'.prev| == |l.prev|
  }

  lemma InsertSized(l: Links, slot: nat, parent: nat)
    requires Rings.In(l, Head(slot)) && Rings.In(l, Node(slot))
    ensures SameSize(l, InsertLinks(l, slot, parent))
  {
  }

  lemma MoveSized(l: Links, src: nat, dst: nat, parent: nat)
    requires Rings.In(l, Head(dst)) && Rings.In(l, Node(dst))
    ensures SameSize(l, MoveLinks(l, src, dst, parent))
  {
    InsertSized(l, dst, parent);
    var spliced := Spliced(InsertLinks(l, dst, parent), Head(src), Head(dst));
    assert SameSize(l, spliced);
    assert SameSize(l, LeaveParent(spliced, src, parent));
  }

  lemma DeleteSized(l: Links, caps: seq<Cap>, slot: nat)
    requires slot < |caps|
    ensures SameSize(l, DeleteLinks(l, caps, slot))
  {
    var left := LeaveParent(l, slot, caps[slot].parentSlot);
    assert SameSize(l, left);
    UnlinkAllSized(left, Nodes(caps[slot].children));
  }

  lemma RevokeSized(a: Tracked, slot: nat, b: Tracked, l: Links, l': Links)
    requires RevokeLinks(a, slot, b, l, l')
    ensures SameSize(l, l')
  {
    var freed: seq<nat>, links: seq<nat> :|
      Released(a, slot, freed, b) && |links| == |freed| && ReleasesTo(l, freed, links, l');
    ReleaseAllSized(l, freed, links);
  }

  lemma FillSized(l: Links, a: Tracked, done: bool, dst: nat, parent: nat, l': Links)
    requires FillLinks(l, a, done, dst, parent, l')
    ensures SameSize(l, l')
  {
    if done {
      InsertSized(l, dst, parent);
    }
  }

  lemma StepSized(a: Tracked, op: Op, b: Tracked, l: Links, l': Links)
    requires LinkStep(a, op, b, l, l')
    ensures SameSize(l, l')
  {
    match op
    case OpMint(slot, t, id, r, g) => FillSized(l, a, Mint(a.s, slot, t, id, r, g).1 == Ok, slot, SLOT_INVALID, l');
    case OpCopy(src, dst, mask) => FillSized(l, a, Copy(a.s, src, dst, mask).1 == Ok, dst, src, l');
    case OpDerive(src, dst, r, g) => FillSized(l, a, Derive(a.s, src, dst, r, g).1 == Ok, dst, src, l');
    case OpMove(src, dst) =>
      if Move(a.s, src, dst).1 == Ok {
        MoveSized(l, src, dst, a.s.caps[src].parentSlot);
      }
    case OpDelete(slot) =>
      if Delete(a.s, slot).1 == Ok {
        DeleteSized(l, a.s.caps, slot);
      }
    case OpRevoke(slot) =>
      if RevokeAdmitted(a.s, slot) {
        RevokeSized(a, slot, b, l, l');
      }
    case OpSetInheritable(_, _) =>
    case OpAlloc =>
  }

  lemma FillStep(a: Tracked, op: Op, b: Tracked, l: Links, l': Links)
    requires ForestOk(a.s.caps) && Fills(op) && Step(a, op, b) && Sized(l, a.s.caps) && TableRings(l, a.s.caps)
    requires LinkStep(a, op, b, l, l')
    ensures TableRings(l', b.s.caps)
  {
    match op
    case OpMint(slot, t, id, r, g) =>
      if Mint(a.s, slot, t, id, r, g).1 == Ok {
        InsertRings(l, a.s, slot, t, id, r, g, SLOT_INVALID);
      }
    case OpCopy(src, dst, mask) =>
      if Copy(a.s, src, dst, mask).1 == Ok {
        var c := a.s.caps[src];
        InsertRings(l, a.s, dst, c.kobjType, c.kobjId, CopyRights(c, mask), c.badge, src);
      }
    case OpDerive(src, dst, r, g) =>
      if Derive(a.s, src, dst, r, g).1 == Ok {
        InsertRings(l, a.s, dst, a.s.caps[src].kobjType, a.s.caps[src].kobjId, r, g, src);
      }
  }

  lemma RevokeStepRings(a: Tracked, slot: nat, b: Tracked, l: Links, l': Links)
    requires ForestOk(a.s.caps) && TableRings(l, a.s.caps) && RevokeAdmitted(a.s, slot)
    requires RevokeLinks(a, slot, b, l, l') && !b.torn
    ensures TableRings(l', b.s.caps)
  {
    var freed: seq<nat>, links: seq<nat> :|
      Released(a, slot, freed, b) && |links| == |freed| && ReleasesTo(l, freed, links, l');
    RevokeKeepsRings(l, a.s, slot, freed, b.s, links);
  }

  /** A flag or a free entry is no part of any list. */
  lemma SameListsKept(l: Links, l': Links, caps: seq<Cap>, caps': seq<Cap>, f: nat)
    requires Listed(caps) && TableRings(l, caps) && |caps'| == |caps| && !IsValid(caps, f)
    requires Confined(l, l', [Head(f), Node(f)])
    requires forall i: nat :: IsValid(caps', i) ==>
               IsValid(caps, i) && caps'[i].children == caps[i].children && caps'[i].parentSlot == caps[i].parentSlot
    ensures TableRings(l', caps')
  {
    FreeOffLists(caps, f);
    forall i: nat | IsValid(caps', i) ensures RingOf(l', caps', i) {
      assert RingOf(l, caps, i);
      AwayFromSlot(caps, i, f);
      ListKept(l, l', caps, caps', i, [Head(f), Node(f)]);
    }
  }

  lemma AllocStep(a: Tracked, b: Tracked, l: Links, l': Links)
    requires ForestOk(a.s.caps) && TableRings(l, a.s.caps) && Step(a, OpAlloc, b) && LinkStep(a, OpAlloc, b, l, l')
    requires FreeList.FreeChain(a.s, a.list)
    ensures TableRings(l', b.s.caps)
  {
    if a.list != [] {
      assert FreeList.Linked(a.s, a.list, 0);
      SameListsKept(l, l', a.s.caps, b.s.caps, a.s.freeHead);
    }
  }

  /** Every operation leaves the lists of the table that the model says, unless it is a
      revocation that stops halfway. */
  lemma StepKeepsRings(a: Tracked, op: Op, b: Tracked, l: Links, l': Links)
    requires ForestOk(a.s.caps) && Step(a, op, b) && Sized(l, a.s.caps) && TableRings(l, a.s.caps)
    requires LinkStep(a, op, b, l, l') && (op.OpAlloc? ==> FreeList.FreeChain(a.s, a.list)) && !b.torn
    ensures TableRings(l', b.s.caps)
  {
    match op
    case OpMove(src, dst) =>
      if Move(a.s, src, dst).1 == Ok {
        MoveRings(l, a.s, src, dst);
      }
    case OpDelete(slot) =>
      if Delete(a.s, slot).1 == Ok {
        DeleteRings(l, a.s, slot);
      }
    case OpRevoke(slot) =>
      if RevokeAdmitted(a.s, slot) {
        RevokeStepRings(a, slot, b, l, l');
      }
    case OpSetInheritable(slot, flag) => FlagStep(a, slot, flag, b, l);
    case OpAlloc => AllocStep(a, b, l, l');
    case _ => FillStep(a, op, b, l, l');
  }

  lemma FlagStep(a: Tracked, slot: nat, flag: bool, b: Tracked, l: Links)
    requires TableRings(l, a.s.caps) && Step(a, OpSetInheritable(slot, flag), b)
    ensures TableRings(l, b.s.caps)
  {
    forall i: nat | IsValid(b.s.caps, i) ensures RingOf(l, b.s.caps, i) {
      assert RingOf(l, a.s.caps, i);
    }
  }

  // ---------------------------------------------------------------------------
  // Whole runs
  // ---------------------------------------------------------------------------

  ghost predicate LinkStepAt(states: seq<Tracked>, ops: seq<Op>, ls: seq<Links>, k: nat)
    requires k < |ops| && |states| == |ls| == |ops| + 1
  {
    LinkStep(states[k], ops[k], states[k + 1], ls[k], ls[k + 1])
  }

  /** A run with its list writes, from the two initialised nodes of the root cap. */
  ghost predicate LinkRun(capacity: nat, id: nat, states: seq<Tracked>, ops: seq<Op>, ls: seq<Links>) {
    && Run(capacity, id, states, ops) && |ls| == |states|
    && Sized(ls[0], states[0].s.caps) && Rings.Holds(ls[0], Head(0), []) && Rings.Holds(ls[0], Node(0), [])
    && forall k: nat {:trigger LinkStepAt(states, ops, ls, k)} :: k < |ops| ==> LinkStepAt(states, ops, ls, k)
  }

  lemma InitRings(capacity: nat, id: nat, l: Links)
    requires 1 <= capacity <= MAX_CAPACITY && Rings.Holds(l, Head(0), []) && Rings.Holds(l, Node(0), [])
    ensures TableRings(l, Init(capacity, id).caps)
  {
    var caps := Init(capacity, id).caps;
    forall i: nat | IsValid(caps, i) ensures RingOf(l, caps, i) {
      assert i == 0 && Nodes([]) == [];
    }
  }

  lemma StepLength(a: Tracked, op: Op, b: Tracked)
    requires Step(a, op, b)
    ensures |b.s.caps| == |a.s.caps|
  {
    if op.OpRevoke? && RevokeAdmitted(a.s, op.slot) {
      var freed := RevokeEffect(a, op.slot, b);
    }
  }

  /** In every run of all operations in which callers fill only slots they were given, until
      a revocation stops halfway, the pointers that list_add_tail, list_del_init and
      list_splice leave behind form exactly the children lists of the model, and no other
      cap's list is ever disturbed. */
  lemma {:induction false} RingsInEveryRun(capacity: nat, id: nat, states: seq<Tracked>, ops: seq<Op>,
                                           ls: seq<Links>, k: nat)
    requires LinkRun(capacity, id, states, ops, ls) && k <= |ops|
    requires forall j :: 0 <= j < k ==> Disciplined(states[j], ops[j])
    ensures Sized(ls[k], states[k].s.caps)
    ensures !states[k].torn ==> TableRings(ls[k], states[k].s.caps)
  {
    if k == 0 {
      InitRings(capacity, id, ls[0]);
    } else {
      RingsInEveryRun(capacity, id, states, ops, ls, k - 1);
      SlotsInEveryRun(capacity, id, states, ops, k - 1);
      assert StepAt(states, ops, k - 1) && LinkStepAt(states, ops, ls, k - 1);
      var a, b := states[k - 1], states[k];
      StepSized(a, ops[k - 1], b, ls[k - 1], ls[k]);
      StepLength(a, ops[k - 1], b);
      if !b.torn {
        StepKeepsRings(a, ops[k - 1], b, ls[k - 1], ls[k]);
      }
    }
  }
}
