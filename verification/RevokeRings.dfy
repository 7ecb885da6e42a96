/**
 cap_revoke on the pointers of the children lists.  Every table entry has a list head and a
 node of its own; releasing an entry unlinks its node, resets both and then uses the node's
 `next` for the free list.  The lists of deeper caps are drained in between, so that at any
 time the children of released caps hang from heads that no longer lead to all of them.
 */
module RevokeRings {
  import opened Lists
  import opened Capability
  import opened Forest
  import opened Revocation
  import opened RevokeLoop
  import Rings

  type Links = Rings.Links

  function Head(i: nat): nat {
    2 * i
  }

  function Node(i: nat): nat {
    2 * i + 1
  }

  function Nodes(cs: seq<nat>): (r: seq<nat>)
    ensures |r| == |cs| && forall k :: 0 <= k < |cs| ==> r[k] == Node(cs[k])
  {
    seq(|cs|, k requires 0 <= k < |cs| => Node(cs[k]))
  }

  lemma NodesMember(cs: seq<nat>, x: nat)
    ensures Node(x) in Nodes(cs) <==> x in cs
    ensures Head(x) !in Nodes(cs)
  {
    if x in cs {
      var k :| 0 <= k < |cs| && cs[k] == x;
      assert Nodes(cs)[k] == Node(x);
    }
  }

  lemma NodesSplit(a: seq<nat>, x: nat, b: seq<nat>)
    ensures Nodes(a + [x] + b) == Nodes(a) + [Node(x)] + Nodes(b) && Nodes(a + b) == Nodes(a) + Nodes(b)
  {
  }

  // ---------------------------------------------------------------------------
  // Children that are not released yet
  // ---------------------------------------------------------------------------

  function Minus(cs: seq<nat>, done: set<nat>): seq<nat> {
    if cs == [] then []
    else if cs[0] in done then Minus(cs[1..], done)
    else [cs[0]] + Minus(cs[1..], done)
  }

  lemma {:induction false} MinusMember(cs: seq<nat>, done: set<nat>, x: nat)
    ensures x in Minus(cs, done) <==> x in cs && x !in done
  {
    if cs != [] {
      MinusMember(cs[1..], done, x);
    }
  }

  lemma {:induction false} MinusOther(cs: seq<nat>, done: set<nat>, x: nat)
    requires x !in cs
    ensures Minus(cs, done + {x}) == Minus(cs, done)
  {
    if cs != [] {
      MinusOther(cs[1..], done, x);
    }
  }

  lemma {:induction false} MinusNone(cs: seq<nat>)
    ensures Minus(cs, {}) == cs
  {
    if cs != [] {
      MinusNone(cs[1..]);
    }
  }

  lemma {:induction false} MinusAll(cs: seq<nat>, done: set<nat>)
    requires forall x: nat :: x in cs ==> x in done
    ensures Minus(cs, done) == []
  {
    if cs != [] {
      assert cs[0] in cs;
      assert forall x: nat :: x in cs[1..] ==> x in cs;
      MinusAll(cs[1..], done);
    }
  }

  /** Releasing one more child takes it out of the middle. */
  lemma {:induction false} MinusOne(cs: seq<nat>, done: set<nat>, x: nat) returns (a: seq<nat>, b: seq<nat>)
    requires NoDup(cs) && x in cs && x !in done
    ensures Minus(cs, done) == a + [x] + b && Minus(cs, done + {x}) == a + b
  {
    var rest := cs[1..];
    if cs[0] == x {
      assert x !in rest;
      MinusOther(rest, done, x);
      a, b := [], Minus(rest, done);
      assert [] + [x] + b == [x] + b && [] + b == b;
    } else {
      a, b := MinusOne(rest, done, x);
      if cs[0] !in done {
        assert [cs[0]] + (a + [x] + b) == ([cs[0]] + a) + [x] + b && [cs[0]] + (a + b) == ([cs[0]] + a) + b;
        a := [cs[0]] + a;
      }
    }
  }

  lemma {:induction false} MinusIsWithout(cs: seq<nat>, done: set<nat>, t: nat)
    requires NoDup(cs) && t in done && forall x: nat :: x in cs && x != t ==> x !in done
    ensures Minus(cs, done) == Without(cs, t)
  {
    if cs != [] {
      var rest := cs[1..];
      assert forall x: nat :: x in rest ==> x in cs;
      assert cs[0] in cs && cs[0] !in rest;
      if cs[0] == t {
        MinusUntouched(rest, done);
      } else {
        MinusIsWithout(rest, done, t);
      }
    }
  }

  lemma {:induction false} MinusUntouched(cs: seq<nat>, done: set<nat>)
    requires forall x: nat :: x in cs ==> x !in done
    ensures Minus(cs, done) == cs
  {
    if cs != [] {
      assert cs[0] in cs;
      assert forall x: nat :: x in cs[1..] ==> x in cs;
      MinusUntouched(cs[1..], done);
    }
  }

  // ---------------------------------------------------------------------------
  // The lists of a table, and of a table being drained
  // ---------------------------------------------------------------------------

  ghost predicate RingOf(l: Links, caps: seq<Cap>, i: nat)
    requires i < |caps|
  {
    && Rings.Holds(l, Head(i), Nodes(caps[i].children))
    && (caps[i].parentSlot == SLOT_INVALID ==> Rings.Holds(l, Node(i), []))
  }

  /** Every VALID cap's list holds the nodes of its children, in order; the node of a cap
      without parent is on no list. */
  ghost predicate TableRings(l: Links, caps: seq<Cap>) {
    forall i: nat {:trigger RingOf(l, caps, i)} :: IsValid(caps, i) ==> RingOf(l, caps, i)
  }

  /** The head still leads to itself or to the first, and from itself or from the last. */
  predicate EndsOk(l: Links, h: nat, cs: seq<nat>) {
    && Rings.In(l, h)
    && (l.next[h] == h || l.next[h] == Rings.Right(h, cs))
    && (l.prev[h] == h || l.prev[h] == Rings.Left(h, cs))
  }

  /** With the caps in `done` released: their remaining children hang from them, the lists of
      all others are intact. */
  ghost predicate DrainedAt(l: Links, caps: seq<Cap>, done: set<nat>, i: nat)
    requires i < |caps|
  {
    var cs := Nodes(Minus(caps[i].children, done));
    if i in done then
      && Rings.Hanging(l, Head(i), cs) && EndsOk(l, Head(i), cs)
      && Rings.In(l, Node(i)) && l.prev[Node(i)] == Node(i)
    else
      && Rings.Holds(l, Head(i), cs)
      && (caps[i].parentSlot == SLOT_INVALID ==> Rings.Holds(l, Node(i), []))
  }

  ghost predicate Draining(l: Links, caps: seq<Cap>, done: set<nat>) {
    forall i: nat {:trigger DrainedAt(l, caps, done, i)} :: IsValid(caps, i) ==> DrainedAt(l, caps, done, i)
  }

  lemma DrainingStarts(l: Links, caps: seq<Cap>)
    requires TableRings(l, caps)
    ensures Draining(l, caps, {})
  {
    forall i: nat | IsValid(caps, i) ensures DrainedAt(l, caps, {}, i) {
      assert RingOf(l, caps, i);
      MinusNone(caps[i].children);
    }
  }

  // ---------------------------------------------------------------------------
  // Frames
  // ---------------------------------------------------------------------------

  predicate SameAt(l: Links, l': Links, x: nat) {
    Rings.In(l, x) && Rings.In(l', x) && l'.next[x] == l.next[x] && l'.prev[x] == l.prev[x]
  }

  lemma RingFrame(l: Links, l': Links, r: seq<nat>)
    requires Rings.Ring(l, r) && forall k: nat :: k < |r| ==> SameAt(l, l', r[k])
    ensures Rings.Ring(l', r)
  {
    forall k: nat | k < |r| ensures Rings.LinkedAt(l', r, k) {
      assert Rings.LinkedAt(l, r, k) && SameAt(l, l', r[k]) && SameAt(l, l', Rings.At(r, k + 1));
    }
  }

  lemma HangingFrame(l: Links, l': Links, h: nat, cs: seq<nat>)
    requires Rings.Hanging(l, h, cs) && EndsOk(l, h, cs) && SameAt(l, l', h)
    requires forall k: nat :: k < |cs| ==> SameAt(l, l', cs[k])
    ensures Rings.Hanging(l', h, cs) && EndsOk(l', h, cs)
  {
    forall k: nat | k < |cs| ensures Rings.HangsAt(l', h, cs, k) {
      assert Rings.HangsAt(l, h, cs, k) && SameAt(l, l', cs[k]);
    }
  }

  // ---------------------------------------------------------------------------
  // One release
  // ---------------------------------------------------------------------------

  /** list_del_init on the node, INIT_LIST_HEAD on head and node, and the free-list link. */
  function Release(l: Links, cur: nat, link: nat): Links
    requires Rings.In(l, Head(cur)) && Rings.In(l, Node(cur))
  {
    var u := Rings.Unlink(l, Node(cur));
    Rings.SetNext(Rings.Reset(Rings.Reset(u, Head(cur)), Node(cur)), Node(cur), link)
  }

  lemma ReleaseWrites(l: Links, cur: nat, link: nat)
    requires Rings.In(l, Head(cur)) && Rings.In(l, Node(cur))
    ensures
      var u, l' := Rings.Unlink(l, Node(cur)), Release(l, cur, link);
      && |l'.next| == |u.next| == |l.next| && |l'.prev| == |u.prev| == |l.prev|
      && (forall x: nat :: Rings.In(l, x) && x != Head(cur) && x != Node(cur) ==> SameAt(u, l', x))
      && l'.next[Head(cur)] == l'.prev[Head(cur)] == Head(cur) && l'.prev[Node(cur)] == Node(cur)
  {
  }

  /** The part of the lists that one release may write. */
  ghost function Touched(caps: seq<Cap>, done: set<nat>, cur: nat): seq<nat>
    requires cur < |caps|
  {
    var p := caps[cur].parentSlot;
    [Head(cur), Node(cur)] + if p < |caps| then [Head(p)] + Nodes(Minus(caps[p].children, done)) else []
  }

  /** Nothing outside is written. */
  ghost predicate Confined(l: Links, l': Links, touched: seq<nat>) {
    && |l'.next| == |l.next| && |l'.prev| == |l.prev|
    && forall x: nat :: Rings.In(l, x) && x !in touched ==> SameAt(l, l', x)
  }

  /** The head of the released entry and its children. */
  lemma ReleasedOwn(l: Links, l': Links, h: nat, cs: seq<nat>)
    requires Rings.Holds(l, h, cs) && Rings.In(l', h) && l'.next[h] == l'.prev[h] == h
    requires forall k: nat :: k < |cs| ==> SameAt(l, l', cs[k])
    ensures Rings.Hanging(l', h, cs) && EndsOk(l', h, cs)
  {
    Rings.ResetHangs(l, h, cs);
    forall k: nat | k < |cs| ensures Rings.HangsAt(l', h, cs, k) {
      assert Rings.HangsAt(Rings.Reset(l, h), h, cs, k) && SameAt(l, l', cs[k]);
      assert ([h] + cs)[k + 1] == cs[k] && ([h] + cs)[0] == h;
    }
  }

  /** Unlinking the node of a cap whose parent may have been released. */
  ghost predicate Unlinked(l: Links, u: Links, caps: seq<Cap>, done: set<nat>, cur: nat)
    requires cur < |caps|
  {
    var p := caps[cur].parentSlot;
    && Confined(l, u, Touched(caps, done, cur))
    && (p < |caps| ==>
          var cs := Nodes(Minus(caps[p].children, done + {cur}));
          if p in done then Rings.Hanging(u, Head(p), cs) && EndsOk(u, Head(p), cs) else Rings.Holds(u, Head(p), cs))
  }

  lemma UnlinkAlone(l: Links, x: nat)
    requires Rings.Holds(l, x, [])
    ensures Rings.In(l, x) && Rings.Unlink(l, x) == l
  {
    assert Rings.LinkedAt(l, [x] + [], 0);
    var u := Rings.Unlink(l, x);
    assert u.next == l.next && u.prev == l.prev;
  }

  lemma UnlinkHanging(l: Links, h: nat, a: seq<nat>, x: nat, b: seq<nat>)
    requires Rings.Hanging(l, h, a + [x] + b) && EndsOk(l, h, a + [x] + b)
    ensures
      var u := Rings.Unlink(l, x);
      && Rings.Hanging(u, h, a + b) && EndsOk(u, h, a + b) && Rings.SameOutside(l, u, [h] + a + [x] + b)
  {
    Rings.HangingShrinks(l, h, a, x, b);
  }

  lemma ParentAfter(l: Links, caps: seq<Cap>, done: set<nat>, cur: nat)
    requires ForestOk(caps) && Draining(l, caps, done) && IsValid(caps, cur) && cur !in done
    ensures Rings.In(l, Node(cur)) && Unlinked(l, Rings.Unlink(l, Node(cur)), caps, done, cur)
  {
    assert ParentOk(caps, cur) && DrainedAt(l, caps, done, cur);
    var p, u := caps[cur].parentSlot, Rings.Unlink(l, Node(cur));
    if p == SLOT_INVALID {
      UnlinkAlone(l, Node(cur));
    } else {
      assert ChildrenOk(caps, p) && DrainedAt(l, caps, done, p);
      var a, b := MinusOne(caps[p].children, done, cur);
      NodesSplit(a, cur, b);
      if p in done {
        UnlinkHanging(l, Head(p), Nodes(a), Node(cur), Nodes(b));
        assert Rings.HangsAt(l, Head(p), Nodes(a + [cur] + b), |a|);
      } else {
        Rings.UnlinkRemoves(l, Head(p), Nodes(a), Node(cur), Nodes(b));
      }
      TouchedRing(l, u, Head(p), Nodes(a), Node(cur), Nodes(b), Touched(caps, done, cur));
    }
  }

  lemma TouchedRing(l: Links, u: Links, h: nat, a: seq<nat>, x: nat, b: seq<nat>, touched: seq<nat>)
    requires Rings.SameOutside(l, u, [h] + a + [x] + b)
    requires forall y: nat :: y in [h] + (a + [x] + b) ==> y in touched
    ensures Confined(l, u, touched)
  {
    assert [h] + a + [x] + b == [h] + (a + [x] + b);
  }

  /** The lists of caps that are neither released now nor the parent of one that is. */
  lemma Untouched(caps: seq<Cap>, done: set<nat>, cur: nat, i: nat)
    requires ForestOk(caps) && IsValid(caps, cur) && cur !in done && IsValid(caps, i)
    requires i != cur && i != caps[cur].parentSlot
    ensures Minus(caps[i].children, done + {cur}) == Minus(caps[i].children, done)
    ensures forall x: nat :: x in [Head(i)] + Nodes(Minus(caps[i].children, done)) ==> x !in Touched(caps, done, cur)
    ensures i in done || caps[i].parentSlot == SLOT_INVALID ==> Node(i) !in Touched(caps, done, cur)
  {
    var p := caps[cur].parentSlot;
    assert ChildrenOk(caps, i) && ParentOk(caps, cur);
    MinusOther(caps[i].children, done, cur);
    if p < |caps| {
      assert ChildrenOk(caps, p);
      MinusMember(caps[p].children, done, i);
      NodesMember(Minus(caps[p].children, done), i);
    }
    forall k: nat | k < |Minus(caps[i].children, done)|
      ensures Node(Minus(caps[i].children, done)[k]) !in Touched(caps, done, cur)
    {
      ChildUntouched(caps, done, cur, i, Minus(caps[i].children, done)[k]);
    }
  }

  lemma ChildUntouched(caps: seq<Cap>, done: set<nat>, cur: nat, i: nat, c: nat)
    requires ForestOk(caps) && IsValid(caps, cur) && IsValid(caps, i)
    requires i != caps[cur].parentSlot && c in Minus(caps[i].children, done)
    ensures Node(c) !in Touched(caps, done, cur)
  {
    var p := caps[cur].parentSlot;
    assert ChildrenOk(caps, i) && ParentOk(caps, cur);
    MinusMember(caps[i].children, done, c);
    if p < |caps| {
      assert ChildrenOk(caps, p);
      MinusMember(caps[p].children, done, c);
      NodesMember(Minus(caps[p].children, done), c);
    }
  }

  lemma ReleaseConfined(l: Links, caps: seq<Cap>, done: set<nat>, cur: nat, link: nat)
    requires ForestOk(caps) && Draining(l, caps, done) && IsValid(caps, cur) && cur !in done
    ensures Rings.In(l, Head(cur)) && Rings.In(l, Node(cur))
    ensures Confined(l, Release(l, cur, link), Touched(caps, done, cur))
  {
    assert DrainedAt(l, caps, done, cur);
    assert Rings.LinkedAt(l, [Head(cur)] + Nodes(Minus(caps[cur].children, done)), 0);
    ParentAfter(l, caps, done, cur);
    ReleaseWrites(l, cur, link);
  }

  lemma OtherAfter(l: Links, caps: seq<Cap>, done: set<nat>, cur: nat, l': Links, i: nat)
    requires ForestOk(caps) && IsValid(caps, cur) && cur !in done && IsValid(caps, i)
    requires i != cur && i != caps[cur].parentSlot && DrainedAt(l, caps, done, i)
    requires Confined(l, l', Touched(caps, done, cur))
    ensures DrainedAt(l', caps, done + {cur}, i)
  {
    Untouched(caps, done, cur, i);
    var cs := Nodes(Minus(caps[i].children, done));
    var r := [Head(i)] + cs;
    if i in done {
      forall k: nat | k < |cs| ensures SameAt(l, l', cs[k]) {
        assert Rings.HangsAt(l, Head(i), cs, k) && r[k + 1] == cs[k] && cs[k] in r;
      }
      assert Head(i) in r;
      HangingFrame(l, l', Head(i), cs);
    } else {
      forall k: nat | k < |r| ensures SameAt(l, l', r[k]) {
        assert Rings.LinkedAt(l, r, k) && r[k] in r;
      }
      RingFrame(l, l', r);
      if caps[i].parentSlot == SLOT_INVALID {
        assert Rings.LinkedAt(l, [Node(i)] + [], 0);
        RingFrame(l, l', [Node(i)] + []);
      }
    }
  }

  lemma OwnAfter(l: Links, caps: seq<Cap>, done: set<nat>, cur: nat, link: nat)
    requires ForestOk(caps) && Draining(l, caps, done) && IsValid(caps, cur) && cur !in done
    requires Rings.In(l, Head(cur)) && Rings.In(l, Node(cur))
    ensures DrainedAt(Release(l, cur, link), caps, done + {cur}, cur)
  {
    ReleaseConfined(l, caps, done, cur, link);
    ReleaseWrites(l, cur, link);
    assert DrainedAt(l, caps, done, cur) && ChildrenOk(caps, cur) && ParentOk(caps, cur);
    MinusOther(caps[cur].children, done, cur);
    var l', cs := Release(l, cur, link), Nodes(Minus(caps[cur].children, done));
    forall k: nat | k < |cs| ensures SameAt(l, l', cs[k]) {
      assert Rings.LinkedAt(l, [Head(cur)] + cs, k + 1) && ([Head(cur)] + cs)[k + 1] == cs[k];
      ChildUntouched(caps, done, cur, cur, Minus(caps[cur].children, done)[k]);
    }
    ReleasedOwn(l, l', Head(cur), cs);
  }

  /** The parent's list, from the unlinking to the end of the release. */
  lemma ParentList(u: Links, l': Links, h: nat, cs: seq<nat>, cur: nat)
    requires |l'.next| == |u.next| && |l'.prev| == |u.prev|
    requires forall x: nat :: Rings.In(u, x) && x != Head(cur) && x != Node(cur) ==> SameAt(u, l', x)
    requires Head(cur) !in [h] + cs && Node(cur) !in [h] + cs
    ensures Rings.Hanging(u, h, cs) && EndsOk(u, h, cs) ==> Rings.Hanging(l', h, cs) && EndsOk(l', h, cs)
    ensures Rings.Holds(u, h, cs) ==> Rings.Holds(l', h, cs)
  {
    var r := [h] + cs;
    assert h in r;
    if Rings.Hanging(u, h, cs) && EndsOk(u, h, cs) {
      forall k: nat | k < |cs| ensures SameAt(u, l', cs[k]) {
        assert Rings.HangsAt(u, h, cs, k) && r[k + 1] == cs[k] && cs[k] in r;
      }
      HangingFrame(u, l', h, cs);
    }
    if Rings.Holds(u, h, cs) {
      forall k: nat | k < |r| ensures SameAt(u, l', r[k]) {
        assert Rings.LinkedAt(u, r, k) && r[k] in r;
      }
      RingFrame(u, l', r);
    }
  }

  lemma ParentDrained(l: Links, caps: seq<Cap>, done: set<nat>, cur: nat, link: nat)
    requires ForestOk(caps) && Draining(l, caps, done) && IsValid(caps, cur) && cur !in done
    requires caps[cur].parentSlot < |caps|
    requires Rings.In(l, Head(cur)) && Rings.In(l, Node(cur))
    ensures DrainedAt(Release(l, cur, link), caps, done + {cur}, caps[cur].parentSlot)
  {
    var p := caps[cur].parentSlot;
    assert ParentOk(caps, cur);
    ParentIsNoChild(caps, cur);
    assert DrainedAt(l, caps, done, p);
    ParentAfter(l, caps, done, cur);
    ReleaseWrites(l, cur, link);
    var u, l', rest := Rings.Unlink(l, Node(cur)), Release(l, cur, link), Minus(caps[p].children, done + {cur});
    MinusMember(caps[p].children, done + {cur}, cur);
    NodesMember(rest, cur);
    ParentList(u, l', Head(p), Nodes(rest), cur);
    ReleaseConfined(l, caps, done, cur, link);
    ParentNode(l, l', caps, done, cur);
  }

  /** The parent's own node is not on the list that the release writes. */
  lemma ParentNode(l: Links, l': Links, caps: seq<Cap>, done: set<nat>, cur: nat)
    requires ForestOk(caps) && IsValid(caps, cur) && caps[cur].parentSlot < |caps|
    requires Confined(l, l', Touched(caps, done, cur)) && DrainedAt(l, caps, done, caps[cur].parentSlot)
    ensures
      var p := caps[cur].parentSlot;
      && (p in done ==> Rings.In(l', Node(p)) && l'.prev[Node(p)] == Node(p))
      && (p !in done && caps[p].parentSlot == SLOT_INVALID ==> Rings.Holds(l', Node(p), []))
  {
    var p := caps[cur].parentSlot;
    NotOwnChild(caps, done, cur);
    if p !in done && caps[p].parentSlot == SLOT_INVALID {
      assert Rings.LinkedAt(l, [Node(p)] + [], 0);
      RingFrame(l, l', [Node(p)] + []);
    }
  }

  lemma NotOwnChild(caps: seq<Cap>, done: set<nat>, cur: nat)
    requires ForestOk(caps) && IsValid(caps, cur) && caps[cur].parentSlot < |caps|
    ensures Node(caps[cur].parentSlot) !in Touched(caps, done, cur)
  {
    var p := caps[cur].parentSlot;
    assert ParentOk(caps, cur);
    ParentIsNoChild(caps, p);
    MinusMember(caps[p].children, done, p);
    NodesMember(Minus(caps[p].children, done), p);
  }

  /** Releasing any cap, before or after its children but once, keeps the rest in order. */
  lemma ReleaseKeeps(l: Links, caps: seq<Cap>, done: set<nat>, cur: nat, link: nat)
    requires ForestOk(caps) && Draining(l, caps, done) && IsValid(caps, cur) && cur !in done
    ensures Rings.In(l, Head(cur)) && Rings.In(l, Node(cur))
    ensures Draining(Release(l, cur, link), caps, done + {cur})
  {
    ReleaseConfined(l, caps, done, cur, link);
    var l' := Release(l, cur, link);
    forall i: nat | IsValid(caps, i) ensures DrainedAt(l', caps, done + {cur}, i) {
      if i == cur {
        OwnAfter(l, caps, done, cur, link);
      } else if i == caps[cur].parentSlot {
        assert ParentOk(caps, cur);
        ParentDrained(l, caps, done, cur, link);
      } else {
        assert DrainedAt(l, caps, done, i);
        OtherAfter(l, caps, done, cur, l', i);
      }
    }
  }

  // ---------------------------------------------------------------------------
  // The whole walk
  // ---------------------------------------------------------------------------

  /** Releasing a sequence of slots, first to last; `links` are the free-list links. */
  function ReleaseAll(l: Links, freed: seq<nat>, links: seq<nat>): Links
    requires |links| == |freed|
  {
    if freed == [] then l
    else
      var n := |freed| - 1;
      var m := ReleaseAll(l, freed[..n], links[..n]);
      if Rings.In(m, Head(freed[n])) && Rings.In(m, Node(freed[n])) then Release(m, freed[n], links[n]) else m
  }

  /** In every order of release, at every moment: the children not yet released hang from
      their released parents and all other lists are intact. */
  lemma {:induction false} WalkDrains(l: Links, caps: seq<Cap>, freed: seq<nat>, links: seq<nat>)
    requires ForestOk(caps) && TableRings(l, caps) && |links| == |freed| && NoDup(freed)
    requires forall k: nat :: k < |freed| ==> IsValid(caps, freed[k])
    ensures Draining(ReleaseAll(l, freed, links), caps, ToSet(freed))
    decreases |freed|
  {
    if freed == [] {
      DrainingStarts(l, caps);
      assert ToSet(freed) == {};
    } else {
      var n := |freed| - 1;
      var before, cur := freed[..n], freed[n];
      assert freed == before + [cur];
      NoDupSplit(before, [cur]);
      WalkDrains(l, caps, before, links[..n]);
      assert cur !in ToSet(before);
      ReleaseKeeps(ReleaseAll(l, before, links[..n]), caps, ToSet(before), cur, links[n]);
      assert ToSet(freed) == ToSet(before) + {cur};
    }
  }

  /** A list from which nothing hangs any more is empty. */
  lemma NothingHangs(l: Links, h: nat)
    requires Rings.Hanging(l, h, []) && EndsOk(l, h, [])
    ensures Rings.Holds(l, h, [])
  {
    assert [h] + [] == [h];
    assert Rings.LinkedAt(l, [h], 0);
  }

  /** Outside the tree, what is left of a children list is the list in the new table. */
  lemma OutsideList(caps: seq<Cap>, t: nat, done: set<nat>, i: nat)
    requires ForestOk(caps) && IsValid(caps, t) && IsValid(caps, i) && i !in Subtree(caps, t)
    requires t in done && done <= Subtree(caps, t)
    ensures Minus(caps[i].children, done) == Survivor(caps, t, i).children
  {
    OutsideStaysOutside(caps, t, i);
    assert ChildrenOk(caps, i) && ParentOk(caps, t);
    if i == caps[t].parentSlot {
      MinusIsWithout(caps[i].children, done, t);
    } else {
      MinusUntouched(caps[i].children, done);
    }
  }

  /** After any revocation, complete or not, the lists of all caps outside the tree are those
      of the new table. */
  lemma OutsideRingsKept(l: Links, s0: CSpace, t: nat, freed: seq<nat>, s: CSpace, links: seq<nat>, i: nat)
    requires ForestOk(s0.caps) && TableRings(l, s0.caps) && FreedSome(s0, t, freed, s) && |links| == |freed|
    requires IsValid(s0.caps, i) && i !in Subtree(s0.caps, t)
    ensures IsValid(s.caps, i) && RingOf(ReleaseAll(l, freed, links), s.caps, i)
  {
    FreedAreValid(s0, t, freed, s);
    WalkDrains(l, s0.caps, freed, links);
    assert DrainedAt(ReleaseAll(l, freed, links), s0.caps, ToSet(freed), i);
    assert t in ToSet(freed) && i !in ToSet(freed);
    assert i !in freed;
    OutsideList(s0.caps, t, ToSet(freed), i);
  }

  lemma FreedAreValid(s0: CSpace, t: nat, freed: seq<nat>, s: CSpace)
    requires ForestOk(s0.caps) && FreedSome(s0, t, freed, s)
    ensures forall k: nat :: k < |freed| ==> IsValid(s0.caps, freed[k])
  {
    forall k: nat | k < |freed| ensures IsValid(s0.caps, freed[k]) {
      assert freed[k] in ToSet(freed);
      SubtreeClosed(s0.caps, t, freed[k]);
    }
  }

  lemma ReleasedAlone(l: Links, s0: CSpace, t: nat, freed: seq<nat>, s: CSpace, links: seq<nat>, i: nat)
    requires ForestOk(s0.caps) && TableRings(l, s0.caps) && FreedExactly(s0, t, freed, s) && |links| == |freed|
    requires i in freed
    ensures
      var l' := ReleaseAll(l, freed, links);
      Rings.Holds(l', Head(i), []) && Rings.In(l', Node(i)) && l'.prev[Node(i)] == Node(i)
  {
    ExactlyIsSome(s0, t, freed, s);
    FreedAreValid(s0, t, freed, s);
    WalkDrains(l, s0.caps, freed, links);
    assert i in ToSet(freed);
    SubtreeClosed(s0.caps, t, i);
    var l' := ReleaseAll(l, freed, links);
    assert DrainedAt(l', s0.caps, ToSet(freed), i);
    MinusAll(s0.caps[i].children, ToSet(freed));
    assert Nodes([]) == [];
    NothingHangs(l', Head(i));
  }

  /** A complete cap_revoke on the pointers does what the model says it does on sequences:
      whatever the order of release, afterwards the lists are those of the new table, every
      released entry has an empty list, and its node is off all lists. */
  lemma RevokeKeepsRings(l: Links, s0: CSpace, t: nat, freed: seq<nat>, s: CSpace, links: seq<nat>)
    requires ForestOk(s0.caps) && TableRings(l, s0.caps) && FreedExactly(s0, t, freed, s) && |links| == |freed|
    ensures
      var l' := ReleaseAll(l, freed, links);
      && TableRings(l', s.caps)
      && forall i: nat :: i in freed ==>
           Rings.Holds(l', Head(i), []) && Rings.In(l', Node(i)) && l'.prev[Node(i)] == Node(i)
  {
    var l' := ReleaseAll(l, freed, links);
    ExactlyIsSome(s0, t, freed, s);
    forall i: nat | IsValid(s.caps, i) ensures RingOf(l', s.caps, i) {
      assert i !in freed && i !in ToSet(freed);
      OutsideRingsKept(l, s0, t, freed, s, links, i);
    }
    forall i: nat | i in freed
      ensures Rings.Holds(l', Head(i), []) && Rings.In(l', Node(i)) && l'.prev[Node(i)] == Node(i)
    {
      ReleasedAlone(l, s0, t, freed, s, links, i);
    }
  }
}
