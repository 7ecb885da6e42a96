/**
 Insertion into a red-black tree (kernel/mm/rbtree.c): the search for the place, and the
 loop that recolours and rotates its way up.
 */
module RbInsert {
  import opened RbTree

  // ---------------------------------------------------------------------------
  // Red-black trees
  // ---------------------------------------------------------------------------

  predicate IsRed(t: Tree) {
    t.Tree? && t.red
  }

  function BlackHeight(t: Tree): nat {
    match t
    case Leaf => 0
    case Tree(_, red, l, _) => BlackHeight(l) + if red then 0 else 1
  }

  /** No red node has a red child, and all paths down cross equally many black nodes. */
  predicate Balanced(t: Tree) {
    match t
    case Leaf => true
    case Tree(_, red, l, r) =>
      && Balanced(l) && Balanced(r) && BlackHeight(l) == BlackHeight(r)
      && (red ==> !IsRed(l) && !IsRed(r))
  }

  predicate RedBlack(t: Tree) {
    Balanced(t) && !IsRed(t)
  }

  function Blacken(t: Tree): Tree {
    if t == Leaf then Leaf else t.(red := false)
  }

  predicate TopRed(c: Context) {
    c.Hole? && c.red
  }

  /** The context is that of a red-black tree once its hole holds a tree of black height k;
      in particular a red node has a black parent. */
  predicate Fits(c: Context, k: nat)
    decreases c
  {
    match c
    case Top => true
    case Hole(_, red, _, sibling, up) =>
      && Balanced(sibling) && BlackHeight(sibling) == k
      && (red ==> !IsRed(sibling) && up.Hole? && !up.red)
      && Fits(up, if red then k else k + 1)
  }

  /** The loop's situation: a red node, in itself fine, in a context that may be red too. */
  predicate Fixable(c: Context, t: Tree) {
    IsRed(t) && Balanced(t) && Fits(c, BlackHeight(t))
  }

  function Height(t: Tree): nat {
    if t == Leaf then 0
    else if Height(t.left) < Height(t.right) then 1 + Height(t.right)
    else 1 + Height(t.left)
  }

  function Pow2(n: nat): nat {
    if n == 0 then 1 else 2 * Pow2(n - 1)
  }

  lemma {:induction false} BlackHeightBound(t: Tree)
    requires Balanced(t)
    ensures Height(t) <= 2 * BlackHeight(t) + if IsRed(t) then 1 else 0
    ensures Pow2(BlackHeight(t)) <= |Inorder(t)| + 1
  {
    if t.Tree? {
      BlackHeightBound(t.left);
      BlackHeightBound(t.right);
    }
  }

  /** A red-black tree of n nodes has a height of at most 2 log2(n + 1). */
  lemma HeightBound(t: Tree)
    requires RedBlack(t)
    ensures exists k: nat :: Height(t) <= 2 * k && Pow2(k) <= |Inorder(t)| + 1
  {
    BlackHeightBound(t);
  }

  // ---------------------------------------------------------------------------
  // One round of the loop, on trees
  // ---------------------------------------------------------------------------

  function FixRound(c: Context, t: Tree): (Context, Tree)
    requires TopRed(c) && c.up.Hole? && t.Tree?
  {
    var g := c.up;
    var s := g.side;
    if IsRed(g.sibling) then
      (g.up, Join(g.id, true, s, Join(c.id, false, c.side, t, c.sibling), Blacken(g.sibling)))
    else if c.side == s then
      (Hole(c.id, false, s, Join(g.id, true, s, c.sibling, g.sibling), g.up), t)
    else
      (Hole(t.id, false, s, Join(g.id, true, s, Sub(t, Other(s)), g.sibling), g.up),
       Join(c.id, true, s, c.sibling, Sub(t, s)))
  }

  lemma JoinBalanced(id: nat, red: bool, s: Side, x: Tree, y: Tree)
    ensures Balanced(Join(id, red, s, x, y)) <==>
            && Balanced(x) && Balanced(y) && BlackHeight(x) == BlackHeight(y) && (red ==> !IsRed(x) && !IsRed(y))
    ensures Balanced(Join(id, red, s, x, y)) ==>
            BlackHeight(Join(id, red, s, x, y)) == BlackHeight(x) + if red then 0 else 1
  {
  }

  lemma SubBalanced(t: Tree, s: Side)
    requires Balanced(t) && t.Tree?
    ensures Balanced(Sub(t, s)) && BlackHeight(t) == BlackHeight(Sub(t, s)) + if t.red then 0 else 1
    ensures t.red ==> !IsRed(Sub(t, s))
  {
  }

  /** A round keeps the situation fixable, climbs, or reaches a black parent. */
  lemma RoundKeepsFixable(c: Context, t: Tree)
    requires Fixable(c, t) && TopRed(c)
    ensures c.up.Hole? && Fixable(FixRound(c, t).0, FixRound(c, t).1)
    ensures !TopRed(FixRound(c, t).0) || FixRound(c, t).0 == c.up.up
  {
    var g := c.up;
    var s := g.side;
    assert Fits(g, BlackHeight(t));
    SubBalanced(t, s);
    SubBalanced(t, Other(s));
    if IsRed(g.sibling) {
      JoinBalanced(c.id, false, c.side, t, c.sibling);
      JoinBalanced(g.id, true, s, Join(c.id, false, c.side, t, c.sibling), Blacken(g.sibling));
    } else if c.side == s {
      JoinBalanced(g.id, true, s, c.sibling, g.sibling);
    } else {
      JoinBalanced(g.id, true, s, Sub(t, Other(s)), g.sibling);
      JoinBalanced(c.id, true, s, c.sibling, Sub(t, s));
    }
  }

  lemma JoinInorder(id: nat, red: bool, red': bool, s: Side, x: Tree, x': Tree, y: Tree, y': Tree)
    requires Inorder(x) == Inorder(x') && Inorder(y) == Inorder(y')
    ensures Inorder(Join(id, red, s, x, y)) == Inorder(Join(id, red', s, x', y'))
  {
  }

  /** The subtree at the grandparent, before a round and after it. */
  lemma RoundOrder(c: Context, t: Tree)
    requires TopRed(c) && c.up.Hole? && t.Tree? && !IsRed(c.up.sibling)
    ensures
      var (c', t') := FixRound(c, t);
      Inorder(Join(c'.id, false, c.up.side, t', c'.sibling)) ==
      Inorder(Join(c.up.id, c.up.red, c.up.side, Join(c.id, c.red, c.side, t, c.sibling), c.up.sibling))
  {
    var g, c', t' := c.up, FixRound(c, t).0, FixRound(c, t).1;
    var s, p := g.side, Join(c.id, c.red, c.side, t, c.sibling);
    var p' := if c.side == s then p else Rotated(p, s);
    if c.side != s {
      RotatedInorder(p, s);
    }
    var g' := Join(g.id, g.red, s, p', g.sibling);
    var inner := Join(g.id, g.red, s, Sub(p', Other(s)), g.sibling);
    JoinInorder(g.id, g.red, g.red, s, p, p', g.sibling, g.sibling);
    RotatedInorder(g', Other(s));
    assert Rotated(g', Other(s)) == Join(p'.id, p'.red, s, Sub(p', s), inner);
    assert c'.id == p'.id && t' == Sub(p', s);
    JoinInorder(g.id, g.red, true, s, Sub(p', Other(s)), Sub(p', Other(s)), g.sibling, g.sibling);
    JoinInorder(p'.id, p'.red, false, s, t', t', inner, c'.sibling);
  }

  /** A round does not change the order of the nodes. */
  lemma RoundKeepsOrder(c: Context, t: Tree)
    requires TopRed(c) && c.up.Hole? && t.Tree?
    ensures Inorder(Whole(FixRound(c, t).0, FixRound(c, t).1)) == Inorder(Whole(c, t))
  {
    var g, c', t' := c.up, FixRound(c, t).0, FixRound(c, t).1;
    var s, p := g.side, Join(c.id, c.red, c.side, t, c.sibling);
    var before := Join(g.id, g.red, s, p, g.sibling);
    var after := if IsRed(g.sibling) then t' else Join(c'.id, false, s, t', c'.sibling);
    assert Whole(c, t) == Whole(g, p) == Whole(g.up, before);
    assert Whole(c', t') == Whole(g.up, after);
    if IsRed(g.sibling) {
      JoinInorder(c.id, true, false, c.side, t, t, c.sibling, c.sibling);
      JoinInorder(g.id, g.red, true, s, p, Join(c.id, false, c.side, t, c.sibling), g.sibling, Blacken(g.sibling));
    } else {
      RoundOrder(c, t);
    }
    WholeInorder(g.up, before);
    WholeInorder(g.up, after);
  }

  /** Once the parent is not red, the tree is red-black but for the colour of its root. */
  lemma {:induction false} WholeBalanced(c: Context, t: Tree)
    requires Balanced(t) && Fits(c, BlackHeight(t)) && (TopRed(c) ==> !IsRed(t))
    ensures Balanced(Whole(c, t)) && RedBlack(Blacken(Whole(c, t)))
    decreases c
  {
    if c.Hole? {
      JoinBalanced(c.id, c.red, c.side, t, c.sibling);
      WholeBalanced(c.up, Join(c.id, c.red, c.side, t, c.sibling));
    }
  }

  // ---------------------------------------------------------------------------
  // One round of the loop, on the heap
  // ---------------------------------------------------------------------------

  lemma AtUp(h: Heap, x: int, c: Context, t: Tree)
    requires At(h, x, c, t) && c.Hole?
    ensures In(h, c.id) && At(h, c.id, c.up, Join(c.id, c.red, c.side, t, c.sibling))
    ensures h.nodes[c.id].red == c.red && h.nodes[c.id].parent == ParentOf(c.up)
    ensures Kid(h.nodes[c.id], c.side) == x && (t.Tree? ==> Kid(h.nodes[c.id], Other(c.side)) != x)
    ensures c.sibling.Tree? ==> Kid(h.nodes[c.id], Other(c.side)) == c.sibling.id
    ensures c.sibling == Leaf ==> Kid(h.nodes[c.id], Other(c.side)) == NIL
  {
    assert Around(h, c.id, h.nodes[c.id].parent, c.up);
    HoldsJoin(h, c.id, ParentOf(c.up), c.red, c.side, t, c.sibling);
    Parts(Join(c.id, c.red, c.side, t, c.sibling), c.side);
    if c.sibling.Tree? && t.Tree? {
      assert c.sibling.id in ContextIds(c) && t.id in Ids(t);
    }
  }

  lemma AtDown(h: Heap, x: int, c: Context, t: Tree, s: Side)
    requires At(h, x, c, t) && t.Tree?
    ensures In(h, x) && x == t.id && h.nodes[x].parent == ParentOf(c) && h.nodes[x].red == t.red
    ensures At(h, Kid(h.nodes[x], s), Hole(t.id, t.red, s, Sub(t, Other(s)), c), Sub(t, s))
  {
    HoldsSub(h, x, ParentOf(c), t, s);
    HoldsSub(h, x, ParentOf(c), t, Other(s));
    Parts(t, s);
  }

  lemma AtRecolor(h: Heap, x: int, c: Context, t: Tree, red: bool)
    requires At(h, x, c, t) && t.Tree?
    ensures In(h, x) && At(SetRed(h, x, red), x, c, t.(red := red))
  {
    var h' := SetRed(h, x, red);
    HoldsFrame(h, h', h.nodes[x].left, x, t.left);
    HoldsFrame(h, h', h.nodes[x].right, x, t.right);
    AroundFrame(h, h', x, ParentOf(c), c);
  }

  /** The red-uncle case: three colours change and the trouble moves to the grandparent. */
  lemma RecolorRound(h: Heap, n: int, c: Context, t: Tree)
    requires At(h, n, c, t) && TopRed(c) && c.up.Hole? && t.Tree? && IsRed(c.up.sibling)
    ensures In(h, c.id) && In(h, c.up.id) && In(h, c.up.sibling.id)
    ensures
      var h' := SetRed(SetRed(SetRed(h, c.id, false), c.up.sibling.id, false), c.up.id, true);
      At(h', c.up.id, FixRound(c, t).0, FixRound(c, t).1)
  {
    var g := c.up;
    var p, u := Join(c.id, true, c.side, t, c.sibling), g.sibling;
    var s, p' := g.side, p.(red := false);
    AtUp(h, n, c, t);
    AtRecolor(h, c.id, g, p, false);
    var h1 := SetRed(h, c.id, false);
    AtUp(h1, c.id, g, p');
    var gt := Join(g.id, g.red, s, p', u);
    AtDown(h1, g.id, g.up, gt, Other(s));
    var gc := Hole(g.id, g.red, Other(s), p', g.up);
    AtRecolor(h1, u.id, gc, u, false);
    var h2 := SetRed(h1, u.id, false);
    AtUp(h2, u.id, gc, Blacken(u));
    AtRecolor(h2, g.id, g.up, Join(g.id, g.red, s, p', Blacken(u)), true);
  }

  /** The last rotation: the node y on the inner side s of g goes black and rises above g. */
  lemma RiseRound(h: Heap, y: int, g: Context, p: Tree)
    requires At(h, y, g, p) && g.Hole? && p.Tree?
    ensures In(h, y) && In(h, g.id)
    ensures
      var s, h' := g.side, SetRed(SetRed(h, y, false), g.id, true);
      && Rotatable(h', g.id, Other(s))
      && var h'' := Rotate(h', g.id, Other(s));
         && In(h'', y)
         && At(h'', Kid(h''.nodes[y], s),
               Hole(p.id, false, s, Join(g.id, true, s, Sub(p, Other(s)), g.sibling), g.up), Sub(p, s))
  {
    var s, p' := g.side, p.(red := false);
    AtRecolor(h, y, g, p, false);
    var h1 := SetRed(h, y, false);
    AtUp(h1, y, g, p');
    AtRecolor(h1, g.id, g.up, Join(g.id, g.red, s, p', g.sibling), true);
    var h2, gt := SetRed(h1, g.id, true), Join(g.id, true, s, p', g.sibling);
    assert Other(Other(s)) == s && Sub(gt, s) == p';
    RotateKeepsTree(h2, g.id, g.up, gt, Other(s));
    var h3, r := Rotate(h2, g.id, Other(s)), Rotated(gt, Other(s));
    assert r == Join(p.id, false, s, Sub(p, s), Join(g.id, true, s, Sub(p, Other(s)), g.sibling));
    AtDown(h3, y, g.up, r, s);
  }

  // ---------------------------------------------------------------------------
  // The place of a new node
  // ---------------------------------------------------------------------------

  /** Node numbers in order of their keys. */
  predicate Sorted(keys: seq<int>, s: seq<nat>) {
    && (forall i :: 0 <= i < |s| ==> s[i] < |keys|)
    && forall i, j :: 0 <= i < j < |s| ==> keys[s[i]] <= keys[s[j]]
  }

  predicate AtMost(keys: seq<int>, s: seq<nat>, k: int) {
    forall i :: 0 <= i < |s| ==> s[i] < |keys| && keys[s[i]] <= k
  }

  predicate AtLeast(keys: seq<int>, s: seq<nat>, k: int) {
    forall i :: 0 <= i < |s| ==> s[i] < |keys| && k <= keys[s[i]]
  }

  /** Everything before the hole is at most the key of x, everything after it is more. */
  predicate PlaceOf(keys: seq<int>, x: nat, c: Context)
    requires x < |keys|
  {
    AtMost(keys, Before(c), keys[x]) && AtLeast(keys, After(c), keys[x] + 1)
  }

  function Step(c: Context, t: Tree, s: Side): Context
    requires t.Tree?
  {
    Hole(t.id, t.red, s, Sub(t, Other(s)), c)
  }

  lemma SortedAround(keys: seq<int>, a: seq<nat>, i: nat, b: seq<nat>)
    requires Sorted(keys, a + [i] + b)
    ensures i < |keys| && AtMost(keys, a, keys[i]) && AtLeast(keys, b, keys[i])
  {
    var s := a + [i] + b;
    assert s[|a|] == i;
    assert forall k :: 0 <= k < |a| ==> s[k] == a[k];
    assert forall k :: 0 <= k < |b| ==> s[|a| + 1 + k] == b[k];
  }

  lemma AtMostSplit(keys: seq<int>, a: seq<nat>, b: seq<nat>, k: int)
    ensures AtMost(keys, a + b, k) <==> AtMost(keys, a, k) && AtMost(keys, b, k)
    ensures AtLeast(keys, a + b, k) <==> AtLeast(keys, a, k) && AtLeast(keys, b, k)
  {
    assert forall i :: 0 <= i < |b| ==> (a + b)[|a| + i] == b[i];
    assert forall i :: 0 <= i < |a| ==> (a + b)[i] == a[i];
  }

  /** Going down on the side that the keys tell keeps the place of x in the hole. */
  lemma DescendKeepsPlace(keys: seq<int>, x: nat, c: Context, t: Tree)
    requires x < |keys| && t.Tree? && PlaceOf(keys, x, c) && Sorted(keys, Inorder(Whole(c, t)))
    ensures t.id < |keys|
    ensures
      var s := if keys[x] < keys[t.id] then Left else Right;
      PlaceOf(keys, x, Step(c, t, s)) && Whole(Step(c, t, s), Sub(t, s)) == Whole(c, t)
  {
    WholeInorder(c, t);
    var a, b, l, r := Before(c), After(c), Inorder(t.left), Inorder(t.right);
    Regroup(a, l, [t.id], r, b);
    SortedAround(keys, a + l, t.id, r + b);
    var k := keys[t.id];
    AtMostSplit(keys, a, l, k);
    AtMostSplit(keys, r, b, k);
    AtMostSplit(keys, a + l, [t.id], k);
    AtMostSplit(keys, [t.id] + r, b, keys[x] + 1);
    AtMostSplit(keys, [t.id], r, keys[x] + 1);
  }

  lemma PlaceSorted(keys: seq<int>, x: nat, c: Context)
    requires x < |keys| && PlaceOf(keys, x, c) && Sorted(keys, Before(c) + After(c))
    ensures Sorted(keys, Before(c) + [x] + After(c))
  {
    var a, b := Before(c), After(c);
    var s, s' := a + b, a + [x] + b;
    forall i, j | 0 <= i < j < |s'| ensures s'[i] < |keys| && s'[j] < |keys| && keys[s'[i]] <= keys[s'[j]] {
      if i < |a| && j > |a| {
        assert s[i] == s'[i] && s[j - 1] == s'[j];
      } else if j < |a| {
        assert s[i] == s'[i] && s[j] == s'[j];
      } else if i > |a| {
        assert s[i - 1] == s'[i] && s[j - 1] == s'[j];
      }
    }
    assert |s'| == 1 ==> s'[0] == x;
    forall i | 0 <= i < |s'| ensures s'[i] < |keys| {
      if i != |a| {
        assert s'[i] == if i < |a| then a[i] else b[i - |a| - 1];
      }
    }
  }

  /** A black node, or nothing, fits in a context; a new red leaf is fixable there. */
  lemma NewLeafFixable(c: Context, x: nat)
    requires Fits(c, 0)
    ensures Fixable(c, Tree(x, true, Leaf, Leaf))
  {
  }

  lemma DescendFits(c: Context, t: Tree, s: Side)
    requires t.Tree? && Balanced(t) && Fits(c, BlackHeight(t)) && (IsRed(t) ==> c.Hole? && !c.red)
    ensures Fits(Step(c, t, s), BlackHeight(Sub(t, s))) && Balanced(Sub(t, s))
    ensures IsRed(Sub(t, s)) ==> !t.red
  {
    SubBalanced(t, s);
    SubBalanced(t, Other(s));
  }

  /** Filling the empty hole with a new red node. */
  lemma AttachAt(h: Heap, h': Heap, x: nat, c: Context)
    requires At(h, NIL, c, Leaf) && In(h, x) && x !in ContextIds(c) && |h'.nodes| == |h.nodes|
    requires h'.nodes[x] == Node(ParentOf(c), NIL, NIL, true)
    requires h'.root == if c == Top then x else h.root
    requires c.Hole? ==> In(h, c.id) && h'.nodes[c.id] == SetKid(h, c.id, c.side, x).nodes[c.id]
    requires forall i: nat :: i < |h.nodes| && i != x && i != ParentOf(c) ==> h'.nodes[i] == h.nodes[i]
    ensures At(h', x, c, Tree(x, true, Leaf, Leaf))
  {
    AroundReplace(h, h', NIL, x, ParentOf(c), c);
  }
}
