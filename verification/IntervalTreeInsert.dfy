/**
 * The pure steps of the insertion fix-up and what each keeps.
 */
module IntervalTreeInsert {
  import opened IntervalTreeShape

  // A red subtree sits in a red-black context, except that its parent may be red too.
  ghost predicate InsertInv(c: Ctx, t: Tree, h: int) {
    && IsRed(t) && NoRedRed(t) && BlackHeight(t, h) && CtxBlackHeight(c, h) && CtxNoRedRed(c, false)
    && MaxOK(t) && CtxMaxOK(c, MaxOf(t))
  }

  function Sibling(c: Ctx): Tree
    requires !c.Top?
  {
    if c.InLeft? then c.right else c.left
  }

  // The same fork seen from its other branch.
  function Across(c: Ctx, t: Tree): Ctx
    requires !c.Top?
  {
    if c.InLeft? then InRight(t, c.n, c.red, c.max, c.up) else InLeft(c.n, c.red, c.max, t, c.up)
  }

  lemma SeenAcross(e: Ends, h: Heap, c: Ctx, t: Tree)
    requires Seen(e, h, c, t) && !c.Top?
    ensures Seen(e, h, Across(c, t), Sibling(c))
  {
    SeenUp(e, h, c, t);
    if c.InLeft? { SeenRight(e, h, c.up, Join(c, t)); } else { SeenLeft(e, h, c.up, Join(c, t)); }
  }

  // The parent's left link tells which child a node is.
  lemma SeenSide(e: Ends, h: Heap, c: Ctx, t: Tree)
    requires Seen(e, h, c, t) && !c.Top?
    ensures c.n in h && h[c.n].left == (if c.InLeft? then Ptr(e, t) else Ptr(e, c.left))
    ensures h[c.n].right == (if c.InLeft? then Ptr(e, c.right) else Ptr(e, t))
    ensures h[c.n].parent == ParentOf(e, c.up) && h[c.n].red == c.red
    ensures t.Node? || Sibling(c).Node? ==> (h[c.n].left == Ptr(e, t) <==> c.InLeft?)
    ensures t.Node? || Sibling(c).Node? ==> (h[c.n].right == Ptr(e, t) <==> c.InRight?)
  {
    var s := Sibling(c);
    assert s.Node? ==> s.n in Nodes(s) && s.n !in Nodes(t);
    assert t.Node? ==> t.n in Nodes(t);
  }

  // ---------- red uncle ----------

  function Recoloured(c: Ctx, t: Tree): Tree
    requires !c.Top? && !c.up.Top? && Sibling(c.up).Node?
  {
    var parent, uncle := Painted(Join(c, t), false), Painted(Sibling(c.up), false);
    if c.up.InLeft? then Node(parent, c.up.n, true, c.up.max, uncle)
    else Node(uncle, c.up.n, true, c.up.max, parent)
  }

  lemma RecolouredInv(c: Ctx, t: Tree, h: int)
    requires InsertInv(c, t, h) && !c.Top? && c.red && !c.up.Top? && IsRed(Sibling(c.up))
    ensures InsertInv(c.up.up, Recoloured(c, t), h + 1)
    ensures InOrder(Plug(c.up.up, Recoloured(c, t))) == InOrder(Plug(c, t))
  {
    var g, p, r := c.up, Join(c, t), Recoloured(c, t);
    assert CtxNoRedRed(g, true) && CtxMaxOK(g, c.max) && CtxBlackHeight(g, h);
    assert !g.red && MaxOK(Painted(p, false)) && MaxOK(Painted(Sibling(g), false));
    assert InOrder(r) == InOrder(Join(g, p));
    assert Plug(c, t) == Plug(g, p) == Plug(g.up, Join(g, p));
    InOrderPlug(g.up, r);
    InOrderPlug(g.up, Join(g, p));
  }

  // ---------- black uncle ----------

  // A zigzag is turned into a line: the parent becomes the child.
  function Straight(c: Ctx, t: Tree): (Ctx, Tree)
    requires t.Node? && !c.Top?
  {
    if c.InRight? then
      var r := RotatedLeft(Join(c, t)); (InLeft(r.n, r.red, r.max, r.right, c.up), r.left)
    else
      var r := RotatedRight(Join(c, t)); (InRight(r.left, r.n, r.red, r.max, c.up), r.right)
  }

  lemma StraightInv(c: Ctx, t: Tree, h: int)
    requires InsertInv(c, t, h) && !c.Top? && c.red
    ensures var (d, u) := Straight(c, t);
      && InsertInv(d, u, h) && d.red && d.up == c.up && d.InLeft? == c.InRight?
      && InOrder(Plug(d, u)) == InOrder(Plug(c, t))
  {
    var p := Join(c, t);
    var r := if c.InRight? then RotatedLeft(p) else RotatedRight(p);
    if c.InRight? { RotatedLeftSame(p); } else { RotatedRightSame(p); }
    InOrderPlug(c.up, p);
    InOrderPlug(c.up, r);
  }

  // On a line the parent is blackened, the grandparent reddened and rotated down.
  function Grandparent(c: Ctx, t: Tree): Tree
    requires !c.Top? && !c.up.Top?
  {
    var p := Painted(Join(c, t), false);
    if c.up.InLeft? then Node(p, c.up.n, true, c.up.max, c.up.right) else Node(c.up.left, c.up.n, true, c.up.max, p)
  }

  function Lifted(c: Ctx, t: Tree): Ctx
    requires !c.Top? && !c.up.Top? && c.InLeft? == c.up.InLeft?
  {
    if c.InLeft? then
      var r := RotatedRight(Grandparent(c, t)); InLeft(r.n, r.red, r.max, r.right, c.up.up)
    else
      var r := RotatedLeft(Grandparent(c, t)); InRight(r.left, r.n, r.red, r.max, c.up.up)
  }

  lemma LiftedInv(c: Ctx, t: Tree, h: int)
    requires InsertInv(c, t, h) && !c.Top? && c.red && !c.up.Top? && !IsRed(Sibling(c.up))
    requires c.InLeft? == c.up.InLeft?
    ensures InsertInv(Lifted(c, t), t, h) && !Lifted(c, t).red
    ensures InOrder(Plug(Lifted(c, t), t)) == InOrder(Plug(c, t))
  {
    var g := Grandparent(c, t);
    var r := if c.InLeft? then RotatedRight(g) else RotatedLeft(g);
    assert CtxNoRedRed(c.up, true) && CtxMaxOK(c.up, c.max) && CtxBlackHeight(c.up, h);
    assert MaxOK(Painted(Join(c, t), false)) && MaxOK(g) && MaxOf(g) == c.up.max;
    if c.InLeft? { RotatedRightSame(g); } else { RotatedLeftSame(g); }
    InOrderPlug(c.up.up, Join(c.up, Join(c, t)));
    InOrderPlug(c.up.up, r);
    assert InOrder(g) == InOrder(Join(c.up, Join(c, t)));
    assert Join(Lifted(c, t), t) == r;
    assert Plug(Lifted(c, t), t) == Plug(c.up.up, r);
  }

  // ---------- the descent to a leaf ----------

  lemma SortedSplit(l: seq<IntervalTreeNode>, n: IntervalTreeNode, r: seq<IntervalTreeNode>)
    requires Sorted(l + [n] + r)
    ensures Sorted(l) && Sorted(r)
    ensures (forall m <- l :: m.key <= n.key) && (forall m <- r :: n.key <= m.key)
  {
    var s, k := l + [n] + r, |l|;
    assert s[k] == n;
    forall i, j | 0 <= i < j < k
      ensures l[i].key <= l[j].key
    {
      assert s[i] == l[i] && s[j] == l[j];
    }
    forall i, j | 0 <= i < j < |r|
      ensures r[i].key <= r[j].key
    {
      assert s[k + 1 + i] == r[i] && s[k + 1 + j] == r[j];
    }
    forall m | m in l
      ensures m.key <= n.key
    {
      var i :| 0 <= i < k && l[i] == m;
      assert s[i] == m;
    }
    forall m | m in r
      ensures n.key <= m.key
    {
      var i :| 0 <= i < |r| && r[i] == m;
      assert s[k + 1 + i] == m;
    }
  }

  // In a sorted subtree, the halves are sorted on their own side of the top.
  lemma InOrderSplit(t: Tree)
    requires t.Node? && Sorted(InOrder(t))
    ensures Sorted(InOrder(t.left)) && Sorted(InOrder(t.right))
    ensures forall n <- InOrder(t.left) :: n.key <= t.n.key
    ensures forall n <- InOrder(t.right) :: t.n.key <= n.key
  {
    SortedSplit(InOrder(t.left), t.n, InOrder(t.right));
  }

  // The hole of c is where an interval starting at `key` belongs.
  ghost predicate Brackets(c: Ctx, key: int) {
    (forall n <- Before(c) :: n.key <= key) && (forall n <- After(c) :: n.key > key)
    && (!c.Top? ==> (c.InLeft? <==> c.n.key > key))
  }

  ghost function Below(c: Ctx, t: Tree, key: int): (Ctx, Tree)
    requires t.Node?
  {
    if t.n.key > key then (InLeft(t.n, t.red, t.max, t.right, c), t.left)
    else (InRight(t.left, t.n, t.red, t.max, c), t.right)
  }

  lemma Descend(e: Ends, h: Heap, c: Ctx, t: Tree, key: int)
    requires Seen(e, h, c, t) && t.Node? && Sorted(InOrder(t)) && Brackets(c, key)
    ensures var (d, u) := Below(c, t, key);
      && Seen(e, h, d, u) && Sorted(InOrder(u)) && Brackets(d, key) && d.n == t.n
      && Plug(d, u) == Plug(c, t) && t.n in h
      && h[t.n].left == Ptr(e, t.left) && h[t.n].right == Ptr(e, t.right)
  {
    InOrderSplit(t);
    if t.n.key > key { SeenLeft(e, h, c, t); } else { SeenRight(e, h, c, t); }
  }

  lemma LeafFilled(e: Ends, h: Heap, k: Heap, c: Ctx, z: IntervalTreeNode)
    requires Seen(e, h, c, Leaf) && z !in CtxNodes(c) && z != e.root && z != e.nil && Stores(z) && ParentOf(e, c) in h
    requires z in k && k[z] == Fields(e.nil, e.nil, ParentOf(e, c), k[z].red, k[z].max)
    requires var p := ParentOf(e, c);
      p in k && k[p] == if c.InRight? then h[p].(right := z) else h[p].(left := z)
    requires Agree(h, k, h.Keys - {ParentOf(e, c), z})
    ensures Seen(e, k, c, Node(Leaf, z, k[z].red, k[z].max, Leaf))
  {
    CtxLinkedRefilled(e, h, k, c, e.nil, z);
  }

  // Nodes outside the tree may change, or join the heap, freely.
  lemma SeenKept(e: Ends, h: Heap, k: Heap, c: Ctx, t: Tree)
    requires Seen(e, h, c, t) && Agree(h, k, CtxNodes(c) + Nodes(t) + {e.root})
    ensures Seen(e, k, c, t)
  {
    LinkedKept(e, h, k, t, ParentOf(e, c));
    CtxLinkedKept(e, h, k, c, Ptr(e, t));
  }

  lemma {:induction false} NodesKnown(e: Ends, h: Heap, t: Tree, p: IntervalTreeNode)
    requires Linked(e, h, t, p)
    ensures Nodes(t) <= h.Keys
  {
    if t.Node? {
      NodesKnown(e, h, t.left, t.n);
      NodesKnown(e, h, t.right, t.n);
    }
  }

  lemma {:induction false} CtxNodesKnown(e: Ends, h: Heap, c: Ctx, child: IntervalTreeNode)
    requires CtxLinked(e, h, c, child)
    ensures CtxNodes(c) <= h.Keys && e.root in h
  {
    match c
    case Top =>
    case InLeft(n, red, max, r, up) => NodesKnown(e, h, r, n); CtxNodesKnown(e, h, up, n);
    case InRight(l, n, red, max, up) => NodesKnown(e, h, l, n); CtxNodesKnown(e, h, up, n);
  }

  // ---------- the whole insertion ----------

  // Linking a new red node into a hole of a valid tree, maxima refreshed above it.
  lemma InsertStart(c: Ctx, z: IntervalTreeNode)
    requires RedBlack(Plug(c, Leaf)) && MaxOK(Plug(c, Leaf))
    ensures InsertInv(Refreshed(c, z.high), Node(Leaf, z, true, z.high, Leaf), 0)
    ensures InOrder(Plug(Refreshed(c, z.high), Node(Leaf, z, true, z.high, Leaf))) == Before(c) + [z] + After(c)
    ensures InOrder(Plug(c, Leaf)) == Before(c) + After(c)
  {
    var h := RedBlackUnplug(c, Leaf);
    MaxOKPlug(c, Leaf);
    CtxSidesMaxOK(c, MaxOf(Leaf));
    RefreshedMaxOK(c, z.high);
    RefreshedSame(c, z.high);
    InOrderPlug(c, Leaf);
    InOrderPlug(Refreshed(c, z.high), Node(Leaf, z, true, z.high, Leaf));
  }

  lemma InsertEnd(c: Ctx, t: Tree, h: int)
    requires InsertInv(c, t, h) && (c.Top? || !c.red)
    ensures Plug(c, t).Node? && RedBlack(Painted(Plug(c, t), false)) && MaxOK(Painted(Plug(c, t), false))
  {
    MaxOKPlug(c, t);
    if c.Top? {
      var u := Painted(t, false);
      assert BlackHeight(u, h + 1);
    } else {
      RedBlackPlug(c, t, h);
      InOrderPlug(c, t);
      assert Painted(Plug(c, t), false) == Plug(c, t);
    }
  }

  // new is old with n put behind every node that starts no later.
  ghost predicate InsertedIn(old': seq<IntervalTreeNode>, new': seq<IntervalTreeNode>, n: IntervalTreeNode) {
    exists k :: 0 <= k <= |old'| && InsertedAt(old', new', n, k)
  }

  ghost predicate InsertedAt(old': seq<IntervalTreeNode>, new': seq<IntervalTreeNode>, n: IntervalTreeNode, k: int)
    requires 0 <= k <= |old'|
  {
    && new' == old'[..k] + [n] + old'[k..]
    && (forall i :: 0 <= i < k ==> old'[i].key <= n.key)
    && (forall i :: k <= i < |old'| ==> old'[i].key > n.key)
  }

  lemma BracketsInsert(c: Ctx, n: IntervalTreeNode)
    requires Brackets(c, n.key) && Sorted(Before(c) + After(c))
    ensures InsertedIn(Before(c) + After(c), Before(c) + [n] + After(c), n)
    ensures Sorted(Before(c) + [n] + After(c))
  {
    var a, b := Before(c), After(c);
    var s, k := a + b, |a|;
    assert s[..k] == a && s[k..] == b;
    assert forall i :: 0 <= i < k ==> s[i] == a[i];
    assert forall i :: k <= i < |s| ==> s[i] == b[i - k];
    assert InsertedAt(s, a + [n] + b, n, k);
    SortedInserted(s, n, k);
  }

  lemma SortedInserted(s: seq<IntervalTreeNode>, n: IntervalTreeNode, k: int)
    requires Sorted(s) && 0 <= k <= |s|
    requires (forall i :: 0 <= i < k ==> s[i].key <= n.key) && (forall i :: k <= i < |s| ==> s[i].key > n.key)
    ensures Sorted(s[..k] + [n] + s[k..])
  {
    var w := s[..k] + [n] + s[k..];
    assert forall i :: 0 <= i < |w| ==> w[i] == if i < k then s[i] else if i == k then n else s[i - 1];
  }

  // ---------- repainting next to the point of view ----------

  function CtxPainted(c: Ctx, red: bool): Ctx
    requires !c.Top?
  {
    if c.InLeft? then InLeft(c.n, red, c.max, c.right, c.up) else InRight(c.left, c.n, red, c.max, c.up)
  }

  function WithSibling(c: Ctx, s: Tree): Ctx
    requires !c.Top?
  {
    if c.InLeft? then InLeft(c.n, c.red, c.max, s, c.up) else InRight(s, c.n, c.red, c.max, c.up)
  }

  lemma SeenBack(e: Ends, h: Heap, c: Ctx, t: Tree)
    requires !c.Top? && Seen(e, h, c.up, Join(c, t))
    ensures Seen(e, h, c, t)
  {
    if c.InLeft? { SeenLeft(e, h, c.up, Join(c, t)); } else { SeenRight(e, h, c.up, Join(c, t)); }
  }
}
