/**
 Red-black tree nodes (include/kernel/rbtree.h): records linked by parent and child
 pointers, here indices into a heap of nodes.  The left and right forms of each operation
 mirror each other, so both are written once, with the side as a parameter.
 */
module RbTree {

  const NIL: int := -1

  datatype Side = Left | Right

  function Other(s: Side): Side {
    if s == Left then Right else Left
  }

  datatype Node = Node(parent: int, left: int, right: int, red: bool)

  datatype Heap = Heap(nodes: seq<Node>, root: int)

  predicate In(h: Heap, x: int) {
    0 <= x < |h.nodes|
  }

  function Kid(n: Node, s: Side): int {
    if s == Left then n.left else n.right
  }

  function SetKid(h: Heap, x: int, s: Side, v: int): Heap
    requires In(h, x)
  {
    var n := h.nodes[x];
    h.(nodes := h.nodes[x := if s == Left then n.(left := v) else n.(right := v)])
  }

  function SetParent(h: Heap, x: int, v: int): Heap
    requires In(h, x)
  {
    h.(nodes := h.nodes[x := h.nodes[x].(parent := v)])
  }

  function SetRed(h: Heap, x: int, red: bool): Heap
    requires In(h, x)
  {
    h.(nodes := h.nodes[x := h.nodes[x].(red := red)])
  }

  /** The child link, or the root pointer, through which p holds the node that was x. */
  function Replace(h: Heap, p: int, s: Side, x: int, v: int): Heap
    requires p == NIL || In(h, p)
  {
    if p == NIL then h.(root := v)
    else if Kid(h.nodes[p], s) == x then SetKid(h, p, s, v)
    else SetKid(h, p, Other(s), v)
  }

  /** The pointers that a rotation at n follows are null or valid. */
  predicate Rotatable(h: Heap, n: int, s: Side) {
    && In(h, n)
    && var m := Kid(h.nodes[n], Other(s));
       m != NIL ==>
         && In(h, m) && m != n
         && (Kid(h.nodes[m], s) == NIL || In(h, Kid(h.nodes[m], s)))
         && (h.nodes[n].parent == NIL || In(h, h.nodes[n].parent))
  }

  /** rb_left_rotate for Left, rb_right_rotate for Right. */
  function Rotate(h: Heap, n: int, s: Side): Heap
    requires Rotatable(h, n, s)
  {
    var m := Kid(h.nodes[n], Other(s));
    if m == NIL then h
    else
      var b := Kid(h.nodes[m], s);
      var h1 := SetKid(h, n, Other(s), b);
      var h2 := if b == NIL then h1 else SetParent(h1, b, n);
      var p := h.nodes[n].parent;
      var h3 := Replace(SetParent(h2, m, p), p, s, n, m);
      SetParent(SetKid(h3, m, s, n), n, m)
  }

  // ---------------------------------------------------------------------------
  // Trees, and trees with a hole
  // ---------------------------------------------------------------------------

  datatype Tree = Leaf | Tree(id: nat, red: bool, left: Tree, right: Tree)

  /** A tree with a hole on side s of its node id, whose other subtree is `sibling`. */
  datatype Context = Top | Hole(id: nat, red: bool, side: Side, sibling: Tree, up: Context)

  /** The tree with x on side s and y on the other. */
  function Join(id: nat, red: bool, s: Side, x: Tree, y: Tree): Tree {
    if s == Left then Tree(id, red, x, y) else Tree(id, red, y, x)
  }

  function Sub(t: Tree, s: Side): Tree
    requires t.Tree?
  {
    if s == Left then t.left else t.right
  }

  function Whole(c: Context, t: Tree): Tree
    decreases c
  {
    match c
    case Top => t
    case Hole(id, red, s, sibling, up) => Whole(up, Join(id, red, s, t, sibling))
  }

  function Inorder(t: Tree): seq<nat> {
    match t
    case Leaf => []
    case Tree(id, _, l, r) => Inorder(l) + [id] + Inorder(r)
  }

  /** What comes before and after the hole, in order. */
  function Before(c: Context): seq<nat> {
    match c
    case Top => []
    case Hole(id, _, s, sibling, up) => if s == Left then Before(up) else Before(up) + Inorder(sibling) + [id]
  }

  function After(c: Context): seq<nat> {
    match c
    case Top => []
    case Hole(id, _, s, sibling, up) => if s == Left then [id] + Inorder(sibling) + After(up) else After(up)
  }

  lemma Regroup(a: seq<nat>, b: seq<nat>, c: seq<nat>, d: seq<nat>, e: seq<nat>)
    ensures a + (b + c + d) + e == (a + b + c) + d + e == a + b + (c + d + e) == (a + b) + c + (d + e)
  {
  }

  lemma {:induction false} WholeInorder(c: Context, t: Tree)
    ensures Inorder(Whole(c, t)) == Before(c) + Inorder(t) + After(c)
    decreases c
  {
    match c
    case Top =>
    case Hole(id, red, s, sibling, up) =>
      WholeInorder(up, Join(id, red, s, t, sibling));
      if s == Left {
        Regroup(Before(up), Inorder(t), [id], Inorder(sibling), After(up));
      } else {
        Regroup(Before(up), Inorder(sibling), [id], Inorder(t), After(up));
      }
  }

  ghost function Ids(t: Tree): set<nat> {
    match t
    case Leaf => {}
    case Tree(id, _, l, r) => {id} + Ids(l) + Ids(r)
  }

  ghost function ContextIds(c: Context): set<nat> {
    match c
    case Top => {}
    case Hole(id, _, _, sibling, up) => {id} + Ids(sibling) + ContextIds(up)
  }

  ghost predicate Distinct(t: Tree) {
    match t
    case Leaf => true
    case Tree(id, _, l, r) => id !in Ids(l) && id !in Ids(r) && Ids(l) !! Ids(r) && Distinct(l) && Distinct(r)
  }

  ghost predicate ContextDistinct(c: Context) {
    match c
    case Top => true
    case Hole(id, _, _, sibling, up) =>
      && id !in Ids(sibling) && id !in ContextIds(up) && Ids(sibling) !! ContextIds(up)
      && Distinct(sibling) && ContextDistinct(up)
  }

  /** The parts of a tree split at a hole share no node. */
  ghost predicate Apart(c: Context, t: Tree) {
    ContextDistinct(c) && Distinct(t) && ContextIds(c) !! Ids(t)
  }

  // ---------------------------------------------------------------------------
  // The heap holds a tree
  // ---------------------------------------------------------------------------

  /** Pointer x, whose parent is p, leads to tree t with every parent pointer right. */
  ghost predicate Holds(h: Heap, x: int, p: int, t: Tree)
    decreases t
  {
    match t
    case Leaf => x == NIL
    case Tree(id, red, l, r) =>
      && x == id && In(h, id) && h.nodes[id].parent == p && h.nodes[id].red == red
      && Holds(h, h.nodes[id].left, id, l) && Holds(h, h.nodes[id].right, id, r)
  }

  /** The rest of the tree, around a hole that contains x and belongs to p. */
  ghost predicate Around(h: Heap, x: int, p: int, c: Context)
    decreases c
  {
    match c
    case Top => p == NIL && h.root == x
    case Hole(id, red, s, sibling, up) =>
      && p == id && In(h, id) && Kid(h.nodes[id], s) == x && h.nodes[id].red == red
      && Holds(h, Kid(h.nodes[id], Other(s)), id, sibling)
      && Around(h, id, h.nodes[id].parent, up)
  }

  function ParentOf(c: Context): int {
    if c == Top then NIL else c.id
  }

  /** The heap holds Whole(c, t), and x points at the part t. */
  ghost predicate At(h: Heap, x: int, c: Context, t: Tree) {
    Apart(c, t) && Holds(h, x, ParentOf(c), t) && Around(h, x, ParentOf(c), c)
  }

  lemma {:induction false} HoldsFrame(h: Heap, h': Heap, x: int, p: int, t: Tree)
    requires Holds(h, x, p, t) && |h'.nodes| == |h.nodes|
    requires forall i: nat :: i in Ids(t) && i < |h.nodes| ==> h'.nodes[i] == h.nodes[i]
    ensures Holds(h', x, p, t)
    decreases t
  {
    if t.Tree? {
      HoldsFrame(h, h', h.nodes[t.id].left, t.id, t.left);
      HoldsFrame(h, h', h.nodes[t.id].right, t.id, t.right);
    }
  }

  /** Moving a tree under another parent changes the parent pointer of its root only. */
  lemma HoldsReparent(h: Heap, h': Heap, x: int, p: int, p': int, t: Tree)
    requires Holds(h, x, p, t) && Distinct(t) && |h'.nodes| == |h.nodes|
    requires forall i: nat :: i in Ids(t) && i < |h.nodes| ==>
               h'.nodes[i] == if i == x then h.nodes[i].(parent := p') else h.nodes[i]
    ensures Holds(h', x, p', t)
  {
    if t.Tree? {
      HoldsFrame(h, h', h.nodes[t.id].left, t.id, t.left);
      HoldsFrame(h, h', h.nodes[t.id].right, t.id, t.right);
    }
  }

  lemma {:induction false} AroundFrame(h: Heap, h': Heap, x: int, p: int, c: Context)
    requires Around(h, x, p, c) && |h'.nodes| == |h.nodes| && h'.root == h.root
    requires forall i: nat :: i in ContextIds(c) && i < |h.nodes| ==> h'.nodes[i] == h.nodes[i]
    ensures Around(h', x, p, c)
    decreases c
  {
    if c.Hole? {
      HoldsFrame(h, h', Kid(h.nodes[c.id], Other(c.side)), c.id, c.sibling);
      AroundFrame(h, h', c.id, h.nodes[c.id].parent, c.up);
    }
  }

  /** Filling the hole with another node changes one link of its owner only. */
  lemma AroundReplace(h: Heap, h': Heap, x: int, x': int, p: int, c: Context)
    requires Around(h, x, p, c) && ContextDistinct(c) && |h'.nodes| == |h.nodes|
    requires h'.root == if c == Top then x' else h.root
    requires forall i: nat :: i in ContextIds(c) && i < |h.nodes| ==>
               h'.nodes[i] == if i == p then SetKid(h, i, c.side, x').nodes[i] else h.nodes[i]
    ensures Around(h', x', p, c)
  {
    if c.Hole? {
      HoldsFrame(h, h', Kid(h.nodes[c.id], Other(c.side)), c.id, c.sibling);
      AroundFrame(h, h', c.id, h.nodes[c.id].parent, c.up);
    }
  }

  // ---------------------------------------------------------------------------
  // Rotations
  // ---------------------------------------------------------------------------

  /** The rotated tree: the child on the other side rises above the root. */
  function Rotated(t: Tree, s: Side): Tree
    requires t.Tree? && Sub(t, Other(s)).Tree?
  {
    var m := Sub(t, Other(s));
    Join(m.id, m.red, s, Join(t.id, t.red, s, Sub(t, s), Sub(m, s)), Sub(m, Other(s)))
  }

  lemma RotatedInorder(t: Tree, s: Side)
    requires t.Tree? && Sub(t, Other(s)).Tree?
    ensures Inorder(Rotated(t, s)) == Inorder(t)
  {
    if s == Left {
      var m := t.right;
      assert Inorder(Rotated(t, s)) == (Inorder(t.left) + [t.id] + Inorder(m.left)) + [m.id] + Inorder(m.right);
    } else {
      var m := t.left;
      assert Inorder(Rotated(t, s)) == Inorder(m.left) + [m.id] + (Inorder(m.right) + [t.id] + Inorder(t.right));
    }
  }

  /** The heap holds t at x below p, with the child on side s named. */
  lemma HoldsSub(h: Heap, x: int, p: int, t: Tree, s: Side)
    requires Holds(h, x, p, t) && t.Tree?
    ensures In(h, x) && x == t.id && h.nodes[x].parent == p && Holds(h, Kid(h.nodes[x], s), x, Sub(t, s))
  {
  }

  lemma HoldsJoin(h: Heap, x: int, p: int, red: bool, s: Side, t: Tree, u: Tree)
    requires In(h, x) && h.nodes[x].parent == p && h.nodes[x].red == red
    requires Holds(h, Kid(h.nodes[x], s), x, t) && Holds(h, Kid(h.nodes[x], Other(s)), x, u)
    ensures Holds(h, x, p, Join(x, red, s, t, u))
  {
  }

  /** What a rotation writes, when the nodes it touches are distinct. */
  predicate RotateWrites(h: Heap, h': Heap, n: int, m: int, b: int, s: Side, c: Context)
    requires In(h, n) && In(h, m)
  {
    var p := ParentOf(c);
    && |h'.nodes| == |h.nodes| && h'.root == (if c == Top then m else h.root)
    && Kid(h'.nodes[n], s) == Kid(h.nodes[n], s) && Kid(h'.nodes[n], Other(s)) == b
    && h'.nodes[n].parent == m && h'.nodes[n].red == h.nodes[n].red
    && Kid(h'.nodes[m], s) == n && Kid(h'.nodes[m], Other(s)) == Kid(h.nodes[m], Other(s))
    && h'.nodes[m].parent == p && h'.nodes[m].red == h.nodes[m].red
    && forall i: nat :: i < |h.nodes| && i != n && i != m ==>
         h'.nodes[i] == if i == b then h.nodes[i].(parent := n)
                        else if i == p then SetKid(h, i, c.side, m).nodes[i]
                        else h.nodes[i]
  }

  lemma Parts(t: Tree, s: Side)
    requires t.Tree?
    ensures Ids(t) == {t.id} + Ids(Sub(t, s)) + Ids(Sub(t, Other(s)))
    ensures Distinct(t) <==>
            && t.id !in Ids(Sub(t, s)) && t.id !in Ids(Sub(t, Other(s)))
            && Ids(Sub(t, s)) !! Ids(Sub(t, Other(s))) && Distinct(Sub(t, s)) && Distinct(Sub(t, Other(s)))
  {
  }

  /** The nodes that a rotation at x touches are distinct and lie where it looks. */
  lemma RotateReaches(h: Heap, x: int, c: Context, t: Tree, s: Side)
    requires At(h, x, c, t) && t.Tree? && Sub(t, Other(s)).Tree?
    ensures Rotatable(h, x, s) && In(h, Sub(t, Other(s)).id)
    ensures
      var m, p := Sub(t, Other(s)).id, ParentOf(c);
      var b := Kid(h.nodes[m], s);
      && h.nodes[x].parent == p && Kid(h.nodes[x], Other(s)) == m && m != x && b != x && b != m
      && p != x && p != m && h.nodes[m].parent == x && (b != NIL ==> In(h, b) && b != p && h.nodes[b].parent == m)
      && (c.Hole? ==> In(h, p) && Kid(h.nodes[p], c.side) == x && Kid(h.nodes[p], Other(c.side)) != x)
  {
    var mt := Sub(t, Other(s));
    HoldsSub(h, x, ParentOf(c), t, Other(s));
    HoldsSub(h, mt.id, x, mt, s);
    Parts(t, s);
    Parts(mt, s);
    if Sub(mt, s).Tree? {
      assert Sub(mt, s).id in Ids(Sub(mt, s));
    }
    if c.Hole? {
      assert c.id in ContextIds(c);
      if c.sibling.Tree? {
        assert c.sibling.id in ContextIds(c);
      }
    }
  }

  lemma ReplaceAt(h: Heap, s: Side, x: int, v: int, c: Context)
    requires c.Hole? ==> In(h, c.id) && Kid(h.nodes[c.id], c.side) == x && Kid(h.nodes[c.id], Other(c.side)) != x
    ensures Replace(h, ParentOf(c), s, x, v) == if c == Top then h.(root := v) else SetKid(h, c.id, c.side, v)
  {
  }

  lemma RotateEffect(h: Heap, x: int, c: Context, t: Tree, s: Side)
    requires At(h, x, c, t) && t.Tree? && Sub(t, Other(s)).Tree?
    ensures Rotatable(h, x, s)
    ensures
      var m := Sub(t, Other(s)).id;
      In(h, m) && RotateWrites(h, Rotate(h, x, s), x, m, Kid(h.nodes[m], s), s, c)
  {
    RotateReaches(h, x, c, t, s);
    var m, p := Sub(t, Other(s)).id, ParentOf(c);
    var b := Kid(h.nodes[m], s);
    var h1 := SetKid(h, x, Other(s), b);
    var h2 := if b == NIL then h1 else SetParent(h1, b, x);
    ReplaceAt(SetParent(h2, m, p), s, x, m, c);
  }

  /** A rotation leaves alone a subtree that it does not touch. */
  lemma RotateFrame(h: Heap, x: int, c: Context, t: Tree, s: Side, y: int, q: int, u: Tree)
    requires At(h, x, c, t) && t.Tree? && Sub(t, Other(s)).Tree? && Rotatable(h, x, s) && Holds(h, y, q, u)
    requires In(h, Sub(t, Other(s)).id) && t.id !in Ids(u) && Sub(t, Other(s)).id !in Ids(u)
    requires forall i: nat :: i in Ids(u) ==> i != Kid(h.nodes[Sub(t, Other(s)).id], s) && i !in ContextIds(c)
    ensures Holds(Rotate(h, x, s), y, q, u)
  {
    RotateEffect(h, x, c, t, s);
    assert c.Hole? ==> c.id in ContextIds(c);
    HoldsFrame(h, Rotate(h, x, s), y, q, u);
  }

  /** The subtree that changes its parent. */
  lemma RotateHoldsMiddle(h: Heap, x: int, c: Context, t: Tree, s: Side)
    requires At(h, x, c, t) && t.Tree? && Sub(t, Other(s)).Tree?
    ensures Rotatable(h, x, s) && In(h, Sub(t, Other(s)).id)
    ensures Holds(Rotate(h, x, s), Kid(h.nodes[Sub(t, Other(s)).id], s), x, Sub(Sub(t, Other(s)), s))
  {
    RotateEffect(h, x, c, t, s);
    RotatedParts(c, t, s);
    var m := Sub(t, Other(s));
    HoldsSub(h, x, ParentOf(c), t, Other(s));
    HoldsSub(h, m.id, x, m, s);
    assert c.Hole? ==> c.id in ContextIds(c);
    HoldsReparent(h, Rotate(h, x, s), Kid(h.nodes[m.id], s), m.id, x, Sub(m, s));
  }

  /** The two subtrees that do not. */
  lemma RotateHoldsOuter(h: Heap, x: int, c: Context, t: Tree, s: Side)
    requires At(h, x, c, t) && t.Tree? && Sub(t, Other(s)).Tree?
    ensures Rotatable(h, x, s) && In(h, Sub(t, Other(s)).id)
    ensures
      var m, h' := Sub(t, Other(s)), Rotate(h, x, s);
      && Holds(h', Kid(h.nodes[x], s), x, Sub(t, s))
      && Holds(h', Kid(h.nodes[m.id], Other(s)), m.id, Sub(m, Other(s)))
  {
    RotateEffect(h, x, c, t, s);
    RotatedParts(c, t, s);
    var m := Sub(t, Other(s));
    HoldsSub(h, x, ParentOf(c), t, s);
    HoldsSub(h, x, ParentOf(c), t, Other(s));
    HoldsSub(h, m.id, x, m, s);
    HoldsSub(h, m.id, x, m, Other(s));
    assert Kid(h.nodes[m.id], s) != NIL ==> Kid(h.nodes[m.id], s) in Ids(Sub(m, s));
    RotateFrame(h, x, c, t, s, Kid(h.nodes[x], s), x, Sub(t, s));
    RotateFrame(h, x, c, t, s, Kid(h.nodes[m.id], Other(s)), m.id, Sub(m, Other(s)));
  }

  lemma RotateHolds(h: Heap, x: int, c: Context, t: Tree, s: Side)
    requires At(h, x, c, t) && t.Tree? && Sub(t, Other(s)).Tree?
    ensures Rotatable(h, x, s) && Holds(Rotate(h, x, s), Sub(t, Other(s)).id, ParentOf(c), Rotated(t, s))
  {
    RotateEffect(h, x, c, t, s);
    RotateHoldsMiddle(h, x, c, t, s);
    RotateHoldsOuter(h, x, c, t, s);
    HoldsRed(h, x, ParentOf(c), t, Other(s));
    var m, h' := Sub(t, Other(s)), Rotate(h, x, s);
    var inner := Join(x, t.red, s, Sub(t, s), Sub(m, s));
    HoldsJoin(h', x, m.id, t.red, s, Sub(t, s), Sub(m, s));
    HoldsJoin(h', m.id, ParentOf(c), m.red, s, inner, Sub(m, Other(s)));
  }

  lemma HoldsRed(h: Heap, x: int, p: int, t: Tree, s: Side)
    requires Holds(h, x, p, t) && t.Tree? && Sub(t, s).Tree?
    ensures In(h, t.id) && h.nodes[t.id].red == t.red
    ensures In(h, Sub(t, s).id) && h.nodes[Sub(t, s).id].red == Sub(t, s).red
  {
  }

  lemma RotateAround(h: Heap, x: int, c: Context, t: Tree, s: Side)
    requires At(h, x, c, t) && t.Tree? && Sub(t, Other(s)).Tree?
    ensures Rotatable(h, x, s) && Around(Rotate(h, x, s), Sub(t, Other(s)).id, ParentOf(c), c)
  {
    RotateReaches(h, x, c, t, s);
    RotateEffect(h, x, c, t, s);
    RotatedParts(c, t, s);
    var mt := Sub(t, Other(s));
    HoldsSub(h, x, ParentOf(c), t, Other(s));
    HoldsSub(h, mt.id, x, mt, s);
    assert Sub(mt, s).Tree? ==> Sub(mt, s).id in Ids(Sub(mt, s));
    AroundReplace(h, Rotate(h, x, s), x, mt.id, ParentOf(c), c);
  }

  /** On any well-formed pointer tree a rotation at t leaves a well-formed pointer tree, with
      t rotated in place, everything around it as it was, and the same order. */
  lemma RotateKeepsTree(h: Heap, x: int, c: Context, t: Tree, s: Side)
    requires At(h, x, c, t) && t.Tree? && Sub(t, Other(s)).Tree?
    ensures Rotatable(h, x, s) && At(Rotate(h, x, s), Sub(t, Other(s)).id, c, Rotated(t, s))
    ensures Inorder(Whole(c, Rotated(t, s))) == Inorder(Whole(c, t))
  {
    RotateHolds(h, x, c, t, s);
    RotateAround(h, x, c, t, s);
    RotatedParts(c, t, s);
    RotatedInorder(t, s);
    WholeInorder(c, t);
    WholeInorder(c, Rotated(t, s));
  }

  /** The parts of t around a rotation are pairwise disjoint, and so are those after it. */
  lemma RotatedParts(c: Context, t: Tree, s: Side)
    requires Apart(c, t) && t.Tree? && Sub(t, Other(s)).Tree?
    ensures
      var m := Sub(t, Other(s));
      var x, y, z := Sub(t, s), Sub(m, s), Sub(m, Other(s));
      && t.id != m.id && t.id !in Ids(x) + Ids(y) + Ids(z) + ContextIds(c)
      && m.id !in Ids(x) + Ids(y) + Ids(z) + ContextIds(c)
      && Ids(x) !! Ids(y) && Ids(x) !! Ids(z) && Ids(y) !! Ids(z)
      && ContextIds(c) !! Ids(x) && ContextIds(c) !! Ids(y) && ContextIds(c) !! Ids(z)
    ensures Distinct(Sub(Sub(t, Other(s)), s)) && Apart(c, Rotated(t, s)) && Ids(Rotated(t, s)) == Ids(t)
  {
    var m := Sub(t, Other(s));
    var inner := Join(t.id, t.red, s, Sub(t, s), Sub(m, s));
    Parts(t, s);
    Parts(m, s);
    Parts(inner, s);
    Parts(Rotated(t, s), s);
    assert Sub(Rotated(t, s), s) == inner && Sub(Rotated(t, s), Other(s)) == Sub(m, Other(s));
  }

  /** Two rotations that write back each other's links. */
  lemma WritesBack(h: Heap, h1: Heap, h2: Heap, x: int, m: int, b: int, s: Side, c: Context)
    requires In(h, x) && In(h, m) && x != m && b != x && b != m && ParentOf(c) != x && ParentOf(c) != m
    requires b != NIL ==> In(h, b) && b != ParentOf(c) && h.nodes[b].parent == m
    requires h.nodes[x].parent == ParentOf(c) && h.nodes[m].parent == x
    requires Kid(h.nodes[x], Other(s)) == m && Kid(h.nodes[m], s) == b
    requires if c == Top then h.root == x else In(h, c.id) && Kid(h.nodes[c.id], c.side) == x
    requires RotateWrites(h, h1, x, m, b, s, c) && RotateWrites(h1, h2, m, x, b, Other(s), c)
    ensures h2 == h
  {
    SameNode(h2.nodes[x], h.nodes[x], s);
    SameNode(h2.nodes[m], h.nodes[m], s);
    assert h2.nodes == h.nodes;
  }

  /** Rotating back at the risen node restores every pointer. */
  lemma RotateBack(h: Heap, x: int, c: Context, t: Tree, s: Side)
    requires At(h, x, c, t) && t.Tree? && Sub(t, Other(s)).Tree?
    ensures
      var m := Sub(t, Other(s)).id;
      Rotatable(h, x, s) && Rotatable(Rotate(h, x, s), m, Other(s)) && Rotate(Rotate(h, x, s), m, Other(s)) == h
  {
    RotateKeepsTree(h, x, c, t, s);
    RotateReaches(h, x, c, t, s);
    RotateEffect(h, x, c, t, s);
    var m, h1 := Sub(t, Other(s)).id, Rotate(h, x, s);
    assert Other(Other(s)) == s && Sub(Rotated(t, s), s).id == x;
    RotateEffect(h1, m, c, Rotated(t, s), Other(s));
    WritesBack(h, h1, Rotate(h1, m, Other(s)), x, m, Kid(h.nodes[m], s), s, c);
  }

  lemma SameNode(a: Node, b: Node, s: Side)
    requires a.parent == b.parent && a.red == b.red
    requires Kid(a, s) == Kid(b, s) && Kid(a, Other(s)) == Kid(b, Other(s))
    ensures a == b
  {
  }
}
