/**
 The intrusive lists of include/kernel/list.h, pointer by pointer: what the operations do to
 a list, what becomes of its members when its head is reset before they are unlinked, and
 what cap_revoke leaves behind when its stack overflows.
 */
module Rings {
  import opened Lists

  /** The `next` and `prev` fields of all list nodes. */
  datatype Links = Links(next: seq<nat>, prev: seq<nat>)

  predicate In(l: Links, x: nat) {
    x < |l.next| == |l.prev|
  }

  function SetNext(l: Links, x: nat, v: nat): Links
    requires In(l, x)
  {
    l.(next := l.next[x := v])
  }

  function SetPrev(l: Links, x: nat, v: nat): Links
    requires In(l, x)
  {
    l.(prev := l.prev[x := v])
  }

  /** INIT_LIST_HEAD. */
  function Reset(l: Links, x: nat): Links
    requires In(l, x)
  {
    SetPrev(SetNext(l, x, x), x, x)
  }

  /** list_add_tail. */
  function AddTail(l: Links, x: nat, h: nat): Links
    requires In(l, x) && In(l, h) && In(l, l.prev[h])
  {
    var p := l.prev[h];
    SetNext(SetPrev(SetNext(SetPrev(l, h, x), x, h), x, p), p, x)
  }

  /** list_del_init. */
  function Unlink(l: Links, x: nat): Links {
    if In(l, x) && In(l, l.next[x]) && In(l, l.prev[x]) then
      Reset(SetNext(SetPrev(l, l.next[x], l.prev[x]), l.prev[x], l.next[x]), x)
    else l
  }

  /** list_splice of a list that is not empty. */
  function Splice(l: Links, from: nat, h: nat): Links
    requires In(l, from) && In(l, h) && In(l, l.next[from]) && In(l, l.prev[from]) && In(l, l.next[h])
  {
    var first, last, second := l.next[from], l.prev[from], l.next[h];
    var l1 := SetPrev(SetPrev(l, first, h), second, last);
    Reset(SetNext(SetNext(l1, last, second), h, first), from)
  }

  // ---------------------------------------------------------------------------
  // Lists as sequences
  // ---------------------------------------------------------------------------

  function At(r: seq<nat>, k: nat): nat
    requires k <= |r| && r != []
  {
    if k < |r| then r[k] else r[0]
  }

  predicate LinkedAt(l: Links, r: seq<nat>, k: nat)
    requires k < |r|
  {
    && In(l, r[k]) && In(l, At(r, k + 1))
    && l.next[r[k]] == At(r, k + 1) && l.prev[At(r, k + 1)] == r[k]
  }

  /** The nodes of r, each linked to the next and the last to the first. */
  ghost predicate Ring(l: Links, r: seq<nat>) {
    r != [] && NoDup(r) && forall k: nat {:trigger LinkedAt(l, r, k)} :: k < |r| ==> LinkedAt(l, r, k)
  }

  /** The list with head h holds the nodes cs, in order. */
  ghost predicate Holds(l: Links, h: nat, cs: seq<nat>) {
    Ring(l, [h] + cs)
  }

  ghost predicate SameOutside(l: Links, l': Links, r: seq<nat>) {
    && |l'.next| == |l.next| && |l'.prev| == |l.prev|
    && forall x: nat :: In(l, x) && x !in r ==> l'.next[x] == l.next[x] && l'.prev[x] == l.prev[x]
  }

  /** The node before position k of a ring is its prev. */
  lemma RingPrev(l: Links, r: seq<nat>, k: nat)
    requires Ring(l, r) && k < |r|
    ensures In(l, r[k]) && In(l, l.prev[r[k]])
    ensures l.prev[r[k]] == if k == 0 then r[|r| - 1] else r[k - 1]
  {
    assert LinkedAt(l, r, if k == 0 then |r| - 1 else k - 1);
  }

  /** list_add_tail appends. */
  lemma AddTailAppends(l: Links, h: nat, cs: seq<nat>, x: nat)
    requires Holds(l, h, cs) && In(l, x) && x !in [h] + cs
    ensures In(l, h) && In(l, l.prev[h]) && Holds(AddTail(l, x, h), h, cs + [x])
    ensures SameOutside(l, AddTail(l, x, h), [h] + cs + [x])
  {
    var r := [h] + cs;
    var last := r[|r| - 1];
    RingPrev(l, r, 0);
    assert LinkedAt(l, r, |r| - 1);
    var l', r' := AddTail(l, x, h), r + [x];
    assert [h] + (cs + [x]) == r';
    NoDupJoin(r, [x]);
    forall k: nat | k < |r'| ensures LinkedAt(l', r', k) {
      if k + 1 < |r| {
        assert LinkedAt(l, r, k);
      }
    }
    assert last in r;
  }

  /** list_del_init takes a node out of the list it is on. */
  lemma UnlinkRemoves(l: Links, h: nat, a: seq<nat>, x: nat, b: seq<nat>)
    requires Holds(l, h, a + [x] + b)
    ensures In(l, x) && In(l, l.next[x]) && In(l, l.prev[x])
    ensures
      var l' := Unlink(l, x);
      Holds(l', h, a + b) && Ring(l', [x]) && SameOutside(l, l', [h] + a + [x] + b)
  {
    var r, r' := [h] + (a + [x] + b), [h] + (a + b);
    var m := |a| + 1;
    assert r[m] == x && LinkedAt(l, r, m);
    RingPrev(l, r, m);
    var l' := Unlink(l, x);
    assert r == ([h] + a) + [x] + b && r' == ([h] + a) + b;
    NoDupSplit([h] + a + [x], b);
    NoDupSplit([h] + a, [x]);
    NoDupJoin([h] + a, b);
    forall k: nat | k < |r'| ensures LinkedAt(l', r', k) {
      assert LinkedAt(l, r, if k < m then k else k + 1);
      assert k + 1 == m ==> LinkedAt(l, r, m);
    }
    assert LinkedAt(l', [x], 0);
  }

  /** What list_splice writes. */
  lemma SpliceWrites(l: Links, from: nat, cs: seq<nat>, h: nat, ds: seq<nat>)
    requires Holds(l, from, cs) && cs != [] && Holds(l, h, ds)
    requires forall x: nat :: x in [from] + cs ==> x !in [h] + ds
    ensures In(l, from) && In(l, h) && In(l, l.next[from]) && In(l, l.prev[from]) && In(l, l.next[h])
    ensures
      var l', last, second := Splice(l, from, h), cs[|cs| - 1], At([h] + ds, 1);
      && In(l, cs[0]) && In(l, last) && In(l, second)
      && l'.next == l.next[last := second][h := cs[0]][from := from]
      && l'.prev == l.prev[cs[0] := h][second := last][from := from]
  {
    var r, q := [from] + cs, [h] + ds;
    assert LinkedAt(l, r, 0) && LinkedAt(l, q, 0);
    RingPrev(l, r, 0);
    assert from in r && h in q;
  }

  lemma SpliceFrame(l: Links, from: nat, cs: seq<nat>, h: nat, ds: seq<nat>)
    requires Holds(l, from, cs) && cs != [] && Holds(l, h, ds)
    requires forall x: nat :: x in [from] + cs ==> x !in [h] + ds
    ensures In(l, from) && In(l, h) && In(l, l.next[from]) && In(l, l.prev[from]) && In(l, l.next[h])
    ensures SameOutside(l, Splice(l, from, h), [from] + cs + [h] + ds)
  {
    SpliceWrites(l, from, cs, h, ds);
    var all := [from] + cs + [h] + ds;
    assert all[0] == from && all[1] == cs[0] && all[|cs|] == cs[|cs| - 1] && all[|cs| + 1] == h;
    assert ds != [] ==> all[|cs| + 2] == ds[0];
  }

  lemma JoinDistinct(from: nat, cs: seq<nat>, h: nat, ds: seq<nat>)
    requires NoDup([from] + cs) && NoDup([h] + ds)
    requires forall x: nat :: x in [from] + cs ==> x !in [h] + ds
    ensures NoDup([h] + (cs + ds)) && from !in [h] + (cs + ds)
  {
    NoDupSplit([from], cs);
    NoDupSplit([h], ds);
    assert forall x: nat :: x in cs ==> x in [from] + cs;
    assert forall x: nat :: x in ds ==> x in [h] + ds;
    assert h in [h] + ds && from in [from] + cs && from in [from];
    NoDupJoin(cs, ds);
    NoDupJoin([h], cs + ds);
  }

  /** list_splice puts one list in front of another and empties it. */
  lemma SpliceJoins(l: Links, from: nat, cs: seq<nat>, h: nat, ds: seq<nat>)
    requires Holds(l, from, cs) && cs != [] && Holds(l, h, ds)
    requires forall x: nat :: x in [from] + cs ==> x !in [h] + ds
    ensures In(l, from) && In(l, h) && In(l, l.next[from]) && In(l, l.prev[from]) && In(l, l.next[h])
    ensures Holds(Splice(l, from, h), h, cs + ds) && Holds(Splice(l, from, h), from, [])
    ensures SameOutside(l, Splice(l, from, h), [from] + cs + [h] + ds)
  {
    SpliceFrame(l, from, cs, h, ds);
    SpliceWrites(l, from, cs, h, ds);
    JoinDistinct(from, cs, h, ds);
    var l', j := Splice(l, from, h), [h] + (cs + ds);
    forall k: nat | k < |j| ensures LinkedAt(l', j, k) {
      SpliceLink(l, l', from, cs, h, ds, k);
    }
    assert LinkedAt(l', [from], 0);
    assert [from] + [] == [from];
  }

  lemma SpliceLink(l: Links, l': Links, from: nat, cs: seq<nat>, h: nat, ds: seq<nat>, k: nat)
    requires Holds(l, from, cs) && cs != [] && Holds(l, h, ds) && In(l, from) && In(l, h)
    requires In(l, cs[0]) && In(l, cs[|cs| - 1]) && In(l, At([h] + ds, 1))
    requires l'.next == l.next[cs[|cs| - 1] := At([h] + ds, 1)][h := cs[0]][from := from]
    requires l'.prev == l.prev[cs[0] := h][At([h] + ds, 1) := cs[|cs| - 1]][from := from]
    requires NoDup([h] + (cs + ds)) && from !in [h] + (cs + ds) && k < |[h] + (cs + ds)|
    ensures LinkedAt(l', [h] + (cs + ds), k)
  {
    var j, r, q := [h] + (cs + ds), [from] + cs, [h] + ds;
    var k1 := if k + 1 < |j| then k + 1 else 0;
    assert j[k] in j && j[k1] in j;
    assert j[0] == h && j[1] == cs[0] && j[|cs|] == cs[|cs| - 1] && (ds != [] ==> j[|cs| + 1] == ds[0]);
    if 0 < k < |cs| {
      assert LinkedAt(l, r, k) && r[k] == j[k] && r[k + 1] == j[k + 1];
    } else if k > |cs| {
      assert LinkedAt(l, q, k - |cs|) && q[k - |cs|] == j[k];
    }
  }

  // ---------------------------------------------------------------------------
  // Draining a list whose head has been reset
  // ---------------------------------------------------------------------------

  predicate HangsAt(l: Links, h: nat, cs: seq<nat>, k: nat)
    requires k < |cs|
  {
    && In(l, cs[k])
    && l.prev[cs[k]] == (if k == 0 then h else cs[k - 1])
    && l.next[cs[k]] == (if k + 1 < |cs| then cs[k + 1] else h)
  }

  /** The members of cs are still chained between two visits to h, whatever h says. */
  ghost predicate Hanging(l: Links, h: nat, cs: seq<nat>) {
    && In(l, h) && NoDup([h] + cs)
    && forall k: nat {:trigger HangsAt(l, h, cs, k)} :: k < |cs| ==> HangsAt(l, h, cs, k)
  }

  /** list_del_init on the first k members, from the last of them to the first: the order in
      which the stack of cap_revoke gives them back. */
  function Drain(l: Links, cs: seq<nat>, k: nat): Links
    requires k <= |cs|
    decreases k
  {
    if k == 0 then l else Drain(Unlink(l, cs[k - 1]), cs, k - 1)
  }

  function Left(h: nat, a: seq<nat>): nat {
    if a == [] then h else a[|a| - 1]
  }

  function Right(h: nat, b: seq<nat>): nat {
    if b == [] then h else b[0]
  }

  /** What unlinking x writes. */
  lemma UnlinkWrites(l: Links, h: nat, a: seq<nat>, x: nat, b: seq<nat>)
    requires Hanging(l, h, a + [x] + b)
    ensures
      var p, n := Left(h, a), Right(h, b);
      && In(l, x) && In(l, p) && In(l, n)
      && Unlink(l, x) == Links(l.next[p := n][x := x], l.prev[n := p][x := x])
  {
    var cs := a + [x] + b;
    assert cs[|a|] == x && HangsAt(l, h, cs, |a|);
    assert a != [] ==> HangsAt(l, h, cs, |a| - 1) && cs[|a| - 1] == a[|a| - 1];
    assert b != [] ==> HangsAt(l, h, cs, |a| + 1) && cs[|a| + 1] == b[0];
  }

  lemma ShrunkAt(l: Links, l': Links, h: nat, a: seq<nat>, x: nat, b: seq<nat>, k: nat)
    requires Hanging(l, h, a + [x] + b) && k < |a + b| && In(l, x) && In(l, Left(h, a)) && In(l, Right(h, b))
    requires l' == Links(l.next[Left(h, a) := Right(h, b)][x := x], l.prev[Right(h, b) := Left(h, a)][x := x])
    ensures HangsAt(l', h, a + b, k)
  {
    var cs, cs', m := a + [x] + b, a + b, if k < |a| then k else k + 1;
    var all := [h] + cs;
    assert HangsAt(l, h, cs, m) && cs[m] == cs'[k];
    assert all[m + 1] == cs'[k] && all[|a| + 1] == x && all[0] == h;
    assert a != [] ==> all[|a|] == Left(h, a);
    assert b != [] ==> all[|a| + 2] == Right(h, b);
  }

  /** One removal, of the member x between a and b. */
  lemma HangingShrinks(l: Links, h: nat, a: seq<nat>, x: nat, b: seq<nat>)
    requires Hanging(l, h, a + [x] + b)
    ensures Hanging(Unlink(l, x), h, a + b)
    ensures
      var l' := Unlink(l, x);
      && In(l', x) && l'.next[x] == x && l'.prev[x] == x && SameOutside(l, l', [h] + a + [x] + b)
      && l'.next[h] == (if a == [] then Right(h, b) else l.next[h])
      && l'.prev[h] == (if b == [] then Left(h, a) else l.prev[h])
  {
    var l', all := Unlink(l, x), [h] + (a + [x] + b);
    UnlinkWrites(l, h, a, x, b);
    assert all == ([h] + a) + [x] + b && [h] + (a + b) == ([h] + a) + b;
    NoDupSplit([h] + a + [x], b);
    NoDupSplit([h] + a, [x]);
    NoDupJoin([h] + a, b);
    assert all[0] == h && all[|a| + 1] == x && (a != [] ==> all[|a|] == Left(h, a));
    assert b != [] ==> all[|a| + 2] == Right(h, b);
    forall k: nat | k < |a + b| ensures HangsAt(l', h, a + b, k) {
      ShrunkAt(l, l', h, a, x, b, k);
    }
  }

  /** Draining the first k members leaves the others hanging, and tells what h then says. */
  lemma {:induction false} DrainLeaves(l: Links, h: nat, cs: seq<nat>, k: nat, b: seq<nat>)
    requires k <= |cs| && Hanging(l, h, cs[..k] + b)
    ensures
      var l' := Drain(l, cs, k);
      && Hanging(l', h, b) && SameOutside(l, l', [h] + cs[..k] + b)
      && (forall x: nat :: x in cs[..k] ==> In(l', x) && l'.next[x] == x && l'.prev[x] == x)
      && l'.next[h] == (if k == 0 then l.next[h] else if b == [] then h else b[0])
      && l'.prev[h] == (if k == 0 || b != [] then l.prev[h] else h)
    decreases k
  {
    if k == 0 {
      assert cs[..k] + b == b;
    } else {
      var a, x := cs[..k - 1], cs[k - 1];
      assert cs[..k] == a + [x];
      HangingShrinks(l, h, a, x, b);
      var l1 := Unlink(l, x);
      DrainLeaves(l1, h, cs, k - 1, b);
      assert x !in [h] + a + b by {
        assert [h] + (a + [x] + b) == ([h] + a) + [x] + b;
        NoDupSplit([h] + a + [x], b);
        NoDupSplit([h] + a, [x]);
      }
    }
  }

  /** Resetting the head of a list leaves its members hanging from it. */
  lemma ResetHangs(l: Links, h: nat, cs: seq<nat>)
    requires Holds(l, h, cs)
    ensures In(l, h) && Hanging(Reset(l, h), h, cs)
  {
    var r := [h] + cs;
    RingPrev(l, r, 0);
    forall k: nat | k < |cs| ensures HangsAt(Reset(l, h), h, cs, k) {
      assert LinkedAt(l, r, k + 1);
      RingPrev(l, r, k + 1);
      assert r[k + 1] == cs[k] && cs[k] != h;
    }
  }

  /** When a full stack turned the children from number k on away, their nodes still lead to
      the head of the released cap, and if any was taken that head leads to them. */
  lemma DrainResidue(l: Links, h: nat, cs: seq<nat>, k: nat)
    requires Holds(l, h, cs) && k < |cs|
    ensures In(l, h)
    ensures
      var l' := Drain(Reset(l, h), cs, k);
      && In(l', h) && In(l', cs[k]) && In(l', cs[|cs| - 1])
      && l'.prev[cs[k]] == h && l'.next[cs[|cs| - 1]] == h
      && l'.next[h] == if k == 0 then h else cs[k]
  {
    ResetHangs(l, h, cs);
    assert cs[..k] + cs[k..] == cs;
    DrainLeaves(Reset(l, h), h, cs, k, cs[k..]);
    var l' := Drain(Reset(l, h), cs, k);
    assert HangsAt(l', h, cs[k..], 0) && HangsAt(l', h, cs[k..], |cs| - 1 - k);
  }

  /** Unlinking such a left-over node later writes into the list of whatever cap has the
      slot by then: the list is no longer the sequence it was. */
  lemma ResidueCorrupts(l: Links, h: nat, ds: seq<nat>, c: nat)
    requires Holds(l, h, ds) && In(l, c) && c !in [h] + ds && l.prev[c] == h && In(l, l.next[c])
    requires ds == [] ==> l.next[c] != h
    requires ds != [] ==> l.next[c] != ds[0]
    ensures !Holds(Unlink(l, c), h, ds)
  {
    var r := [h] + ds;
    assert LinkedAt(l, r, 0);
    var l' := Unlink(l, c);
    assert !LinkedAt(l', r, 0);
  }
}
