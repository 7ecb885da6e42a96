/**
 The pointer structure itself: rb_left_rotate, rb_right_rotate, rb_insert_fixup, rb_insert
 and rb_next, run on an array of nodes.
 */
module RbHeap {
  import opened RbTree
  import opened RbInsert

  lemma {:induction false} AtTop(h: Heap, x: int, c: Context, t: Tree)
    requires At(h, x, c, t)
    ensures At(h, h.root, Top, Whole(c, t))
    decreases c
  {
    if c.Hole? {
      AtUp(h, x, c, t);
      AtTop(h, c.id, c.up, Join(c.id, c.red, c.side, t, c.sibling));
    }
  }

  /** A change to a node outside the tree is not seen. */
  lemma AtFrame(h: Heap, h': Heap, x: int, c: Context, t: Tree)
    requires At(h, x, c, t) && |h'.nodes| == |h.nodes| && h'.root == h.root
    requires forall i: nat :: i < |h.nodes| && i in ContextIds(c) + Ids(t) ==> h'.nodes[i] == h.nodes[i]
    ensures At(h', x, c, t)
  {
    HoldsFrame(h, h', x, ParentOf(c), t);
    AroundFrame(h, h', x, ParentOf(c), c);
  }

  /** x has been put into the order s, behind everything that is not greater. */
  ghost predicate Inserted(keys: seq<int>, s: seq<nat>, x: nat, s': seq<nat>)
    requires x < |keys|
  {
    exists k: nat :: k <= |s| && s' == s[..k] + [x] + s[k..] &&
                     AtMost(keys, s[..k], keys[x]) && AtLeast(keys, s[k..], keys[x] + 1)
  }

  function Depth(c: Context): nat {
    if c == Top then 0 else 1 + Depth(c.up)
  }

  /** What the loop reads around a node whose parent is red. */
  lemma Neighbours(h: Heap, n: int, c: Context, t: Tree)
    requires At(h, n, c, t) && c.Hole? && c.up.Hole? && t.Tree?
    ensures In(h, n) && In(h, c.id) && In(h, c.up.id)
    ensures h.nodes[n].parent == c.id && h.nodes[c.id].parent == c.up.id
    ensures
      var s := c.up.side;
      var u := Kid(h.nodes[c.up.id], Other(s));
      && s == (if h.nodes[c.up.id].left == c.id then Left else Right)
      && (n == Kid(h.nodes[c.id], Other(s)) <==> c.side != s)
      && (u == NIL <==> c.up.sibling == Leaf)
      && (u != NIL ==> u == c.up.sibling.id && In(h, u) && h.nodes[u].red == c.up.sibling.red)
  {
    var pt, g := Join(c.id, c.red, c.side, t, c.sibling), c.up;
    AtDown(h, n, c, t, Left);
    AtUp(h, n, c, t);
    AtUp(h, c.id, g, pt);
    if g.sibling.Tree? {
      AtDown(h, g.id, g.up, Join(g.id, g.red, g.side, pt, g.sibling), Other(g.side));
    }
  }

  /** The loop guard reads the parent, and its colour. */
  predicate Guarded(h: Heap, x: int, c: Context) {
    && In(h, x) && h.nodes[x].parent == ParentOf(c)
    && (c.Hole? ==> In(h, c.id) && h.nodes[c.id].red == c.red)
  }

  lemma GuardReads(h: Heap, x: int, c: Context, t: Tree)
    requires At(h, x, c, t) && t.Tree?
    ensures Guarded(h, x, c)
  {
    AtDown(h, x, c, t, Left);
    if c.Hole? {
      AtUp(h, x, c, t);
    }
  }

  class RbNodes {
    const nodes: array<Node>
    var root: int

    ghost function View(): Heap
      reads this, nodes
    {
      Heap(nodes[..], root)
    }

    constructor (n: nat)
      ensures fresh(nodes) && nodes.Length == n && At(View(), root, Top, Leaf)
    {
      nodes := new Node[n](_ => Node(NIL, NIL, NIL, true));
      root := NIL;
    }

    /** rb_left_rotate and rb_right_rotate. */
    method RotateAt(n: int, s: Side)
      requires Rotatable(View(), n, s)
      modifies this, nodes
      ensures View() == Rotate(old(View()), n, s)
    {
      var m := Kid(nodes[n], Other(s));
      if m == NIL {
        return;
      }
      var b, p := Kid(nodes[m], s), nodes[n].parent;
      SetKidOf(n, Other(s), b);
      if b != NIL {
        nodes[b] := nodes[b].(parent := n);
      }
      nodes[m] := nodes[m].(parent := p);
      if p == NIL {
        root := m;
      } else if n == Kid(nodes[p], s) {
        SetKidOf(p, s, m);
      } else {
        SetKidOf(p, Other(s), m);
      }
      SetKidOf(m, s, n);
      nodes[n] := nodes[n].(parent := m);
    }

    method SetKidOf(x: int, s: Side, v: int)
      requires In(View(), x)
      modifies nodes
      ensures View() == SetKid(old(View()), x, s, v)
    {
      nodes[x] := if s == Left then nodes[x].(left := v) else nodes[x].(right := v);
    }

    method SetRedOf(x: int, red: bool)
      requires In(View(), x)
      modifies nodes
      ensures View() == SetRed(old(View()), x, red)
    {
      nodes[x] := nodes[x].(red := red);
    }

    /** One round of the loop in rb_insert_fixup. */
    method FixOnce(n: int, ghost c: Context, ghost t: Tree) returns (n': int)
      requires At(View(), n, c, t) && TopRed(c) && c.up.Hole? && t.Tree?
      modifies this, nodes
      ensures At(View(), n', FixRound(c, t).0, FixRound(c, t).1)
    {
      Neighbours(View(), n, c, t);
      var p := nodes[n].parent;
      var g := nodes[p].parent;
      var s := if p == nodes[g].left then Left else Right;
      var u := Kid(nodes[g], Other(s));
      if u != NIL && nodes[u].red {
        RecolorRound(View(), n, c, t);
        SetRedOf(p, false);
        SetRedOf(u, false);
        SetRedOf(g, true);
        return g;
      }
      n' := Rise(n, p, g, s, c, t);
    }

    method Rise(n: int, p: int, g: int, s: Side, ghost c: Context, ghost t: Tree) returns (n': int)
      requires At(View(), n, c, t) && TopRed(c) && c.up.Hole? && t.Tree? && !IsRed(c.up.sibling)
      requires p == c.id && g == c.up.id && s == c.up.side
      modifies this, nodes
      ensures At(View(), n', FixRound(c, t).0, FixRound(c, t).1)
    {
      Neighbours(View(), n, c, t);
      AtUp(View(), n, c, t);
      ghost var pt := Join(c.id, c.red, c.side, t, c.sibling);
      if n == Kid(nodes[p], Other(s)) {
        RotateReaches(View(), p, c.up, pt, s);
        RotateKeepsTree(View(), p, c.up, pt, s);
        RotateAt(p, s);
        AfterTurn(View(), p, c.up, pt, s);
        Lift(nodes[p].parent, g, s, c.up, Rotated(pt, s));
        return p;
      }
      Lift(p, g, s, c.up, pt);
      return n;
    }

    /** The last two colours and the last rotation. */
    method Lift(p: int, g: int, s: Side, ghost gc: Context, ghost top: Tree)
      requires At(View(), p, gc, top) && gc.Hole? && g == gc.id && s == gc.side && top.Tree?
      modifies this, nodes
      ensures In(View(), p)
      ensures At(View(), Kid(nodes[p], s),
                 Hole(top.id, false, s, Join(g, true, s, Sub(top, Other(s)), gc.sibling), gc.up), Sub(top, s))
    {
      RiseRound(View(), p, gc, top);
      SetRedOf(p, false);
      SetRedOf(g, true);
      RotateAt(g, Other(s));
    }

    /** rb_insert_fixup: the tree becomes red-black again, in the same order. */
    method Fixup(n: int, ghost c0: Context, ghost t0: Tree) returns (ghost r: Tree)
      requires At(View(), n, c0, t0) && Fixable(c0, t0)
      modifies this, nodes
      ensures At(View(), root, Top, r) && RedBlack(r) && Inorder(r) == Inorder(Whole(c0, t0))
    {
      var x := n;
      ghost var c, t := c0, t0;
      GuardReads(View(), x, c, t);
      while nodes[x].parent != NIL && nodes[nodes[x].parent].red
        invariant At(View(), x, c, t) && Fixable(c, t) && Inorder(Whole(c, t)) == Inorder(Whole(c0, t0))
        invariant Guarded(View(), x, c)
        decreases if TopRed(c) then Depth(c) else 0
      {
        x, c, t := FixMore(x, c, t);
      }
      r := Finish(x, c, t);
    }

    method FixMore(x: int, ghost c: Context, ghost t: Tree) returns (x': int, ghost c': Context, ghost t': Tree)
      requires At(View(), x, c, t) && Fixable(c, t) && TopRed(c)
      modifies this, nodes
      ensures At(View(), x', c', t') && Fixable(c', t') && Inorder(Whole(c', t')) == Inorder(Whole(c, t))
      ensures Guarded(View(), x', c') && (TopRed(c') ==> Depth(c') < Depth(c))
    {
      RoundKeepsFixable(c, t);
      RoundKeepsOrder(c, t);
      x' := FixOnce(x, c, t);
      c', t' := FixRound(c, t).0, FixRound(c, t).1;
      GuardReads(View(), x', c', t');
    }

    /** The root is always made black. */
    method Finish(x: int, ghost c: Context, ghost t: Tree) returns (ghost r: Tree)
      requires At(View(), x, c, t) && Fixable(c, t) && !TopRed(c)
      modifies this, nodes
      ensures At(View(), root, Top, r) && RedBlack(r) && Inorder(r) == Inorder(Whole(c, t))
    {
      WholeBalanced(c, t);
      AtTop(View(), x, c, t);
      r := Blacken(Whole(c, t));
      SameInorder(Whole(c, t));
      if root != NIL {
        AtRecolor(View(), root, Top, Whole(c, t), false);
        SetRedOf(root, false);
      }
    }

    /** rb_insert, with nodes compared by their keys. */
    method Insert(keys: seq<int>, x: nat, ghost t: Tree) returns (ghost r: Tree)
      requires At(View(), root, Top, t) && RedBlack(t) && Sorted(keys, Inorder(t))
      requires x < nodes.Length && x < |keys| && x !in Ids(t)
      modifies this, nodes
      ensures At(View(), root, Top, r) && RedBlack(r)
      ensures Inserted(keys, Inorder(t), x, Inorder(r)) && Sorted(keys, Inorder(r))
    {
      nodes[x] := Node(NIL, NIL, NIL, true);
      AtFrame(old(View()), View(), root, Top, t);
      var parent;
      ghost var c;
      parent, c := FindPlace(keys, x, t);
      Attach(keys, x, parent, c);
      NewLeafFixable(c, x);
      r := Fixup(x, c, Tree(x, true, Leaf, Leaf));
      InsertedAt(keys, x, c, t, r);
    }

    /** The search in rb_insert: the empty place of x, and its owner. */
    method FindPlace(keys: seq<int>, x: nat, ghost t: Tree) returns (parent: int, ghost c: Context)
      requires At(View(), root, Top, t) && RedBlack(t) && Sorted(keys, Inorder(t)) && x < |keys| && x !in Ids(t)
      ensures At(View(), NIL, c, Leaf) && parent == ParentOf(c) && x !in ContextIds(c)
      ensures PlaceOf(keys, x, c) && Whole(c, Leaf) == t && Fits(c, 0)
      ensures c.Hole? ==> c.id < |keys| && c.side == if keys[x] < keys[c.id] then Left else Right
    {
      ghost var u := t;
      c := Top;
      parent := NIL;
      var current := root;
      while current != NIL
        invariant At(View(), current, c, u) && parent == ParentOf(c) && x !in ContextIds(c) + Ids(u)
        invariant PlaceOf(keys, x, c) && Whole(c, u) == t
        invariant Balanced(u) && Fits(c, BlackHeight(u)) && (IsRed(u) ==> c.Hole? && !c.red)
        invariant c.Hole? ==> c.id < |keys| && c.side == if keys[x] < keys[c.id] then Left else Right
        decreases u
      {
        DescendKeepsPlace(keys, x, c, u);
        ghost var s := if keys[x] < keys[u.id] then Left else Right;
        AtDown(View(), current, c, u, s);
        DescendFits(c, u, s);
        Parts(u, s);
        parent := current;
        current := if keys[x] < keys[current] then nodes[current].left else nodes[current].right;
        c, u := Step(c, u, s), Sub(u, s);
      }
    }

    /** rb_minimum: the first node of a subtree. */
    method Minimum(x: int, ghost c0: Context, ghost t0: Tree) returns (m: int)
      requires At(View(), x, c0, t0) && t0.Tree?
      ensures m == Inorder(t0)[0]
    {
      ghost var c, t := c0, t0;
      m := x;
      AtDown(View(), m, c, t, Left);
      while nodes[m].left != NIL
        invariant At(View(), m, c, t) && t.Tree? && In(View(), m) && m == t.id
        invariant nodes[m].left == NIL <==> t.left == Leaf
        invariant Inorder(t)[0] == Inorder(t0)[0]
        decreases t
      {
        AtDown(View(), m, c, t, Left);
        c, t := Step(c, t, Left), t.left;
        m := nodes[m].left;
        AtDown(View(), m, c, t, Left);
      }
    }

    /** rb_next: the node that follows t in the order of the whole tree, if there is one. */
    method Next(n: int, ghost c0: Context, ghost t0: Tree) returns (m: int)
      requires At(View(), n, c0, t0) && t0.Tree?
      ensures
        var rest := Inorder(t0.right) + After(c0);
        && Inorder(Whole(c0, t0)) == Before(c0) + Inorder(t0.left) + [t0.id] + rest
        && m == if rest == [] then NIL else rest[0]
    {
      WholeInorder(c0, t0);
      Regroup(Before(c0), Inorder(t0.left), [t0.id], Inorder(t0.right), After(c0));
      AtDown(View(), n, c0, t0, Right);
      if nodes[n].right != NIL {
        m := Minimum(nodes[n].right, Step(c0, t0, Right), t0.right);
        return;
      }
      m := Climb(n, c0, t0);
    }

    method Climb(n: int, ghost c0: Context, ghost t0: Tree) returns (m: int)
      requires At(View(), n, c0, t0) && t0.Tree?
      ensures m == if After(c0) == [] then NIL else After(c0)[0]
    {
      ghost var c, t := c0, t0;
      var x := n;
      GuardReads(View(), x, c, t);
      m := nodes[x].parent;
      if c.Hole? {
        AtUp(View(), x, c, t);
      }
      while m != NIL && x == nodes[m].right
        invariant At(View(), x, c, t) && t.Tree? && m == ParentOf(c) && After(c) == After(c0)
        invariant c.Hole? ==> In(View(), c.id) && (x == nodes[c.id].right <==> c.side == Right)
        decreases c
      {
        AtUp(View(), x, c, t);
        c, t := c.up, Join(c.id, c.red, c.side, t, c.sibling);
        x := m;
        m := nodes[m].parent;
        if c.Hole? {
          AtUp(View(), x, c, t);
        }
      }
    }

    method Attach(keys: seq<int>, x: nat, parent: int, ghost c: Context)
      requires At(View(), NIL, c, Leaf) && parent == ParentOf(c) && x < nodes.Length && x < |keys|
      requires x !in ContextIds(c) && nodes[x] == Node(NIL, NIL, NIL, true)
      requires c.Hole? ==> c.id < |keys| && c.side == if keys[x] < keys[c.id] then Left else Right
      modifies this, nodes
      ensures At(View(), x, c, Tree(x, true, Leaf, Leaf))
    {
      if parent != NIL {
        AtUp(View(), NIL, c, Leaf);
        assert c.id in ContextIds(c);
      }
      nodes[x] := nodes[x].(parent := parent);
      if parent == NIL {
        root := x;
      } else if keys[x] < keys[parent] {
        nodes[parent] := nodes[parent].(left := x);
      } else {
        nodes[parent] := nodes[parent].(right := x);
      }
      AttachAt(old(View()), View(), x, c);
    }
  }

  lemma AfterTurn(h: Heap, p: int, g: Context, pt: Tree, s: Side)
    requires pt.Tree? && Sub(pt, Other(s)).Tree? && p == pt.id && At(h, Sub(pt, Other(s)).id, g, Rotated(pt, s))
    ensures In(h, p) && h.nodes[p].parent == Sub(pt, Other(s)).id
  {
    AtDown(h, Sub(pt, Other(s)).id, g, Rotated(pt, s), s);
    AtDown(h, p, Step(g, Rotated(pt, s), s), Sub(Rotated(pt, s), s), s);
  }

  lemma SameInorder(t: Tree)
    ensures Inorder(Blacken(t)) == Inorder(t)
  {
  }

  lemma InsertedAt(keys: seq<int>, x: nat, c: Context, t: Tree, r: Tree)
    requires x < |keys| && PlaceOf(keys, x, c) && Whole(c, Leaf) == t && Sorted(keys, Inorder(t))
    requires Inorder(r) == Inorder(Whole(c, Tree(x, true, Leaf, Leaf)))
    ensures Inserted(keys, Inorder(t), x, Inorder(r)) && Sorted(keys, Inorder(r))
  {
    var leaf := Tree(x, true, Leaf, Leaf);
    WholeInorder(c, Leaf);
    WholeInorder(c, leaf);
    var a, b, s := Before(c), After(c), Inorder(t);
    assert s == a + b && s[..|a|] == a && s[|a|..] == b;
    assert Inorder(leaf) == [x];
    PlaceSorted(keys, x, c);
  }
}
