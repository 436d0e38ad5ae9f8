/**
 * The pure steps of a deletion: splicing a node out, putting a successor in another
 * node's place, and the cases of the fix-up of a missing black node.
 */
module IntervalTreeDelete {
  import opened IntervalTreeShape
  import opened IntervalTreeInsert

  // ---------- contexts on contexts ----------

  // The context p with c above it.
  function Append(p: Ctx, c: Ctx): Ctx {
    match p
    case Top => c
    case InLeft(n, red, max, r, up) => InLeft(n, red, max, r, Append(up, c))
    case InRight(l, n, red, max, up) => InRight(l, n, red, max, Append(up, c))
  }

  lemma {:induction false} PlugAppend(p: Ctx, c: Ctx, t: Tree)
    ensures Plug(Append(p, c), t) == Plug(c, Plug(p, t))
    decreases p
  {
    if !p.Top? { PlugAppend(p.up, c, Join(p, t)); }
  }

  lemma {:induction false} SeenUpPath(e: Ends, h: Heap, p: Ctx, c: Ctx, t: Tree)
    requires Seen(e, h, Append(p, c), t)
    ensures Seen(e, h, c, Plug(p, t))
    decreases p
  {
    if !p.Top? {
      SeenUp(e, h, Append(p, c), t);
      SeenUpPath(e, h, p.up, c, Join(p, t));
    }
  }

  lemma {:induction false} SeenDownPath(e: Ends, h: Heap, p: Ctx, c: Ctx, t: Tree)
    requires Seen(e, h, c, Plug(p, t))
    ensures Seen(e, h, Append(p, c), t)
    decreases p
  {
    if !p.Top? {
      SeenDownPath(e, h, p.up, c, Join(p, t));
      SeenBack(e, h, Append(p, c), t);
    }
  }

  // Where a node is.
  lemma {:induction false} Locate(c: Ctx, t: Tree, z: IntervalTreeNode) returns (d: Ctx, u: Tree)
    requires z in Nodes(t)
    ensures Plug(d, u) == Plug(c, t) && u.Node? && u.n == z
    decreases t
  {
    if t.n == z {
      d, u := c, t;
    } else if z in Nodes(t.left) {
      d, u := Locate(InLeft(t.n, t.red, t.max, t.right, c), t.left, z);
    } else {
      d, u := Locate(InRight(t.left, t.n, t.red, t.max, c), t.right, z);
    }
  }

  // A path of left turns only, and the seat of the smallest node at its end.
  predicate Leftmost(p: Ctx) {
    p.Top? || (p.InLeft? && Leftmost(p.up))
  }

  // ---------- splicing a node with at most one child out ----------

  function OnlyChild(t: Tree): Tree
    requires t.Node?
  {
    if t.left.Leaf? then t.right else t.left
  }

  lemma SplicedSeen(e: Ends, h: Heap, k: Heap, c: Ctx, t: Tree)
    requires Seen(e, h, c, t) && t.Node? && (t.left.Leaf? || t.right.Leaf?)
    requires var p, x := ParentOf(e, c), OnlyChild(t);
      && p in k && k[p] == (if c.InRight? then h[p].(right := Ptr(e, x)) else h[p].(left := Ptr(e, x)))
      && (x.Node? ==> x.n in h && x.n in k && k[x.n] == h[x.n].(parent := p))
      && Agree(h, k, h.Keys - {p, Ptr(e, x)})
    ensures Seen(e, k, c, OnlyChild(t))
  {
    var p, x := ParentOf(e, c), OnlyChild(t);
    assert Linked(e, h, x, t.n) && Nodes(x) <= Nodes(t);
    LinkedMoved(e, h, k, x, t.n, p);
    CtxLinkedRefilled(e, h, k, c, t.n, Ptr(e, x));
  }

  // ---------- one node taking another's place ----------

  function Renamed(t: Tree, y: IntervalTreeNode, red: bool, max: int): Tree
    requires t.Node?
  {
    Node(t.left, y, red, max, t.right)
  }

  lemma RenamedPlaced(e: Ends, c: Ctx, t: Tree, y: IntervalTreeNode, red: bool, max: int)
    requires Placed(e, c, t) && t.Node? && y !in Nodes(t) && y !in CtxNodes(c) && y != e.root && y != e.nil
    ensures Placed(e, c, Renamed(t, y, red, max))
  {
  }

  lemma RenamedSeen(e: Ends, h: Heap, k: Heap, c: Ctx, t: Tree, y: IntervalTreeNode)
    requires Seen(e, h, c, t) && t.Node? && Stores(y)
    requires y !in Nodes(t) && y !in CtxNodes(c) && y != e.root && y != e.nil
    requires var p, l, r := ParentOf(e, c), t.left, t.right;
      && y in k && k[y] == Fields(Ptr(e, l), Ptr(e, r), p, k[y].red, k[y].max)
      && p in k && k[p] == (if c.InRight? then h[p].(right := y) else h[p].(left := y))
      && (l.Node? ==> l.n in h && l.n in k && k[l.n] == h[l.n].(parent := y))
      && (r.Node? ==> r.n in h && r.n in k && k[r.n] == h[r.n].(parent := y))
      && Agree(h, k, h.Keys - {p, y, Ptr(e, l), Ptr(e, r)})
    ensures Seen(e, k, c, Renamed(t, y, k[y].red, k[y].max))
  {
    hide CtxApart, Stores;
    LinkedMoved(e, h, k, t.left, t.n, y);
    LinkedMoved(e, h, k, t.right, t.n, y);
    CtxLinkedRefilled(e, h, k, c, t.n, y);
    RenamedPlaced(e, c, t, y, k[y].red, k[y].max);
  }

  // ---------- the fix-up: one black node is missing below the context ----------

  function Blackened(t: Tree): Tree { if t.Leaf? then t else Painted(t, false) }

  ghost predicate DeleteInv(c: Ctx, t: Tree, h: int) {
    && BlackHeight(t, h) && CtxBlackHeight(c, h + 1) && NoRedRed(Blackened(t)) && CtxNoRedRed(c, false)
    && MaxOK(t) && CtxMaxOK(c, MaxOf(t))
  }

  lemma {:induction false} BlackHeightNat(t: Tree, h: int)
    requires BlackHeight(t, h)
    ensures h >= 0 && (t.Node? && !t.red ==> h > 0)
  {
    if t.Node? { BlackHeightNat(t.left, h - Black(t.red)); }
  }

  // The sibling of a subtree that lacks a black node is a node.
  lemma SiblingNode(c: Ctx, t: Tree, h: int)
    requires DeleteInv(c, t, h) && !c.Top?
    ensures Sibling(c).Node?
    ensures IsRed(Sibling(c)) ==> Sibling(c).left.Node? && Sibling(c).right.Node?
  {
    BlackHeightNat(t, h);
    if IsRed(Sibling(c)) {
      assert BlackHeight(Sibling(c).left, h + 1) && BlackHeight(Sibling(c).right, h + 1);
    }
  }

  // The child of a sibling on the side of t, and the one away from it.
  function Near(c: Ctx): Tree
    requires !c.Top? && Sibling(c).Node?
  {
    if c.InLeft? then Sibling(c).left else Sibling(c).right
  }

  function Far(c: Ctx): Tree
    requires !c.Top? && Sibling(c).Node?
  {
    if c.InLeft? then Sibling(c).right else Sibling(c).left
  }

  lemma NephewsOK(c: Ctx, t: Tree, h: int)
    requires DeleteInv(c, t, h) && !IsRed(t) && !c.Top? && Sibling(c).Node? && !IsRed(Sibling(c))
    ensures BlackHeight(Near(c), h) && BlackHeight(Far(c), h) && NoRedRed(Near(c)) && NoRedRed(Far(c)) && NoRedRed(t)
    ensures MaxOK(Sibling(c)) && MaxOK(Near(c)) && MaxOK(Far(c))
    ensures CtxBlackHeight(c.up, h + 1 + Black(c.red)) && CtxMaxOK(c.up, c.max)
    ensures CtxNoRedRed(c.up, c.red) && CtxNoRedRed(c.up, false)
  {
    assert BlackHeight(Sibling(c), h + 1) && NoRedRed(Sibling(c));
    assert t.Node? ==> Blackened(t) == t;
  }

  function Rotated(c: Ctx, t: Tree): Tree
    requires !c.Top? && Sibling(c).Node?
  {
    if c.InLeft? then RotatedLeft(Join(c, t)) else RotatedRight(Join(c, t))
  }

  lemma RotatedSame(c: Ctx, t: Tree)
    requires !c.Top? && Sibling(c).Node?
    ensures InOrder(Plug(c.up, Rotated(c, t))) == InOrder(Plug(c, t))
    ensures MaxOK(Join(c, t)) ==> MaxOK(Rotated(c, t)) && MaxOf(Rotated(c, t)) == c.max
  {
    if c.InLeft? { RotatedLeftSame(Join(c, t)); } else { RotatedRightSame(Join(c, t)); }
    InOrderPlug(c.up, Join(c, t));
    InOrderPlug(c.up, Rotated(c, t));
  }

  // Case 1, red sibling: it is blackened, the parent reddened and rotated down.
  function Swapped(c: Ctx): Ctx
    requires !c.Top? && Sibling(c).Node?
  {
    WithSibling(CtxPainted(c, true), Painted(Sibling(c), false))
  }

  function Lowered(c: Ctx, t: Tree): Ctx
    requires !c.Top? && Sibling(c).Node?
  {
    var r := Rotated(Swapped(c), t);
    if c.InLeft? then
      InLeft(r.left.n, r.left.red, r.left.max, r.left.right, InLeft(r.n, r.red, r.max, r.right, c.up))
    else
      InRight(r.right.left, r.right.n, r.right.red, r.right.max, InRight(r.left, r.n, r.red, r.max, c.up))
  }

  lemma LoweredInv(c: Ctx, t: Tree, h: int)
    requires DeleteInv(c, t, h) && !IsRed(t) && !c.Top? && IsRed(Sibling(c))
    ensures var d := Lowered(c, t); DeleteInv(d, t, h) && !IsRed(Sibling(d))
  {
    SiblingNode(c, t, h);
    var s, w, d := Swapped(c), Sibling(c), Lowered(c, t);
    assert BlackHeight(w.left, h + 1) && BlackHeight(w.right, h + 1) && NoRedRed(w.left) && NoRedRed(w.right);
    assert CtxBlackHeight(c.up, h + 2) && CtxBlackHeight(d.up, h + 1) && CtxBlackHeight(d, h + 1);
    assert CtxNoRedRed(c.up, false) && CtxNoRedRed(d.up, true) && CtxNoRedRed(d, false);
    LoweredMax(c, t);
  }

  lemma LoweredMax(c: Ctx, t: Tree)
    requires MaxOK(t) && CtxMaxOK(c, MaxOf(t)) && !c.Top? && Sibling(c).Node?
    ensures CtxMaxOK(Lowered(c, t), MaxOf(t))
  {
    var s, d := Swapped(c), Lowered(c, t);
    assert MaxOK(Sibling(c)) && MaxOK(Sibling(s)) && MaxOK(Join(s, t)) && MaxOf(Join(s, t)) == c.max;
    RotatedSame(s, t);
    var r := Rotated(s, t);
    assert MaxOK(r.left) && MaxOK(r.right);
  }

  lemma LoweredSame(c: Ctx, t: Tree)
    requires !c.Top? && Sibling(c).Node?
    ensures var d := Lowered(c, t);
      && d.red && d.n == c.n && !d.up.Top? && d.up.up == c.up && d.InLeft? == c.InLeft?
      && InOrder(Plug(d, t)) == InOrder(Plug(c, t))
  {
    var s, d := Swapped(c), Lowered(c, t);
    RotatedSame(s, t);
    assert Join(d.up, Join(d, t)) == Rotated(s, t);
    InOrderPlug(s, t);
    InOrderPlug(c, t);
  }

  // Case 2, no red nephew: the sibling is reddened and the parent lacks the black node.
  function Pushed(c: Ctx, t: Tree): Tree
    requires !c.Top? && Sibling(c).Node?
  {
    Join(WithSibling(c, Painted(Sibling(c), true)), t)
  }

  lemma PushedInv(c: Ctx, t: Tree, h: int)
    requires DeleteInv(c, t, h) && !IsRed(t) && !c.Top? && Sibling(c).Node? && !IsRed(Sibling(c))
    requires !IsRed(Near(c)) && !IsRed(Far(c))
    ensures DeleteInv(c.up, Pushed(c, t), h + Black(c.red))
  {
    NephewsOK(c, t, h);
    PushedTree(c, t, h);
  }

  lemma PushedTree(c: Ctx, t: Tree, h: int)
    requires !c.Top? && Sibling(c).Node? && !IsRed(Near(c)) && !IsRed(Far(c))
    requires BlackHeight(t, h) && BlackHeight(Near(c), h) && BlackHeight(Far(c), h)
    requires NoRedRed(t) && NoRedRed(Near(c)) && NoRedRed(Far(c))
    requires MaxOK(Sibling(c)) && MaxOK(Join(c, t))
    ensures var p := Pushed(c, t);
      && BlackHeight(p, h + Black(c.red)) && NoRedRed(Blackened(p)) && MaxOK(p) && MaxOf(p) == c.max
  {
    var w := Painted(Sibling(c), true);
    assert BlackHeight(w, h) && NoRedRed(w) && MaxOK(w);
  }

  lemma PushedSame(c: Ctx, t: Tree)
    requires !c.Top? && Sibling(c).Node?
    ensures InOrder(Plug(c.up, Pushed(c, t))) == InOrder(Plug(c, t))
  {
    InOrderPlug(WithSibling(c, Painted(Sibling(c), true)), t);
    InOrderPlug(c, t);
  }

  // Case 3, only the near nephew red: it becomes the sibling, with a red far child.
  function Turned(c: Ctx): Ctx
    requires !c.Top? && Sibling(c).Node? && Near(c).Node?
  {
    var s, near := Sibling(c), Painted(Near(c), false);
    WithSibling(c, if c.InLeft? then RotatedRight(Node(near, s.n, true, s.max, s.right))
                   else RotatedLeft(Node(s.left, s.n, true, s.max, near)))
  }

  lemma TurnedSibling(c: Ctx, h: int)
    requires !c.Top? && Sibling(c).Node? && Near(c).Node? && Near(c).red
    requires BlackHeight(Near(c), h) && BlackHeight(Far(c), h) && NoRedRed(Near(c)) && NoRedRed(Far(c))
        && !IsRed(Far(c))
    requires MaxOK(Sibling(c))
    ensures var v := Sibling(Turned(c));
      && v.Node? && !v.red && BlackHeight(v, h + 1) && NoRedRed(v)
      && IsRed(Far(Turned(c))) && MaxOK(v) && MaxOf(v) == MaxOf(Sibling(c))
  {
    var s, n, near := Sibling(c), Near(c), Painted(Near(c), false);
    assert BlackHeight(n.left, h) && BlackHeight(n.right, h) && NoRedRed(n.left) && NoRedRed(n.right);
    var w := if c.InLeft? then Node(near, s.n, true, s.max, s.right) else Node(s.left, s.n, true, s.max, near);
    assert MaxOK(n) && MaxOK(near) && MaxOK(w);
    if c.InLeft? { RotatedRightSame(w); } else { RotatedLeftSame(w); }
  }

  lemma TurnedInv(c: Ctx, t: Tree, h: int)
    requires DeleteInv(c, t, h) && !IsRed(t) && !c.Top? && Sibling(c).Node? && !IsRed(Sibling(c))
    requires IsRed(Near(c)) && !IsRed(Far(c))
    ensures var d := Turned(c); DeleteInv(d, t, h) && !IsRed(Sibling(d)) && IsRed(Far(d))
  {
    NephewsOK(c, t, h);
    TurnedSibling(c, h);
  }

  lemma TurnedSame(c: Ctx, t: Tree)
    requires !c.Top? && Sibling(c).Node? && Near(c).Node?
    ensures var d := Turned(c);
      && d.red == c.red && d.n == c.n && d.up == c.up && d.InLeft? == c.InLeft? && Sibling(d).Node? && Far(d).Node?
      && InOrder(Plug(d, t)) == InOrder(Plug(c, t))
  {
    var s, near := Sibling(c), Painted(Near(c), false);
    var w := if c.InLeft? then Node(near, s.n, true, s.max, s.right) else Node(s.left, s.n, true, s.max, near);
    assert InOrder(w) == InOrder(s);
    if c.InLeft? { RotatedRightSame(w); } else { RotatedLeftSame(w); }
    InOrderPlug(Turned(c), t);
    InOrderPlug(c, t);
  }

  // Case 4, far nephew red: the sibling takes the parent's colour and place.
  function Settling(c: Ctx): Ctx
    requires !c.Top? && Sibling(c).Node? && Far(c).Node?
  {
    var s, far := Sibling(c), Painted(Far(c), false);
    WithSibling(CtxPainted(c, false),
      if c.InLeft? then Node(s.left, s.n, c.red, s.max, far) else Node(far, s.n, c.red, s.max, s.right))
  }

  function Settled(c: Ctx, t: Tree): Tree
    requires !c.Top? && Sibling(c).Node? && Far(c).Node?
  {
    Rotated(Settling(c), t)
  }

  lemma SettledInv(c: Ctx, t: Tree, h: int)
    requires DeleteInv(c, t, h) && !IsRed(t) && !c.Top? && Sibling(c).Node? && !IsRed(Sibling(c)) && IsRed(Far(c))
    ensures RedBlack(Plug(c.up, Settled(c, t))) && MaxOK(Plug(c.up, Settled(c, t)))
  {
    NephewsOK(c, t, h);
    SettledColours(c, t, h);
    SettledMax(c, t);
    RedBlackPlug(c.up, Settled(c, t), h + 1 + Black(c.red));
    MaxOKPlug(c.up, Settled(c, t));
  }

  lemma SettledColours(c: Ctx, t: Tree, h: int)
    requires !c.Top? && Sibling(c).Node? && IsRed(Far(c))
    requires BlackHeight(t, h) && BlackHeight(Near(c), h) && BlackHeight(Far(c), h)
    requires NoRedRed(t) && NoRedRed(Near(c)) && NoRedRed(Far(c)) && !IsRed(t)
    ensures var r := Settled(c, t); BlackHeight(r, h + 1 + Black(c.red)) && NoRedRed(r) && IsRed(r) == c.red
  {
    var r, far := Settled(c, t), Painted(Far(c), false);
    assert BlackHeight(far, h + 1) && NoRedRed(far);
    if c.InLeft? {
      assert r.left == Node(t, c.n, false, r.left.max, Near(c)) && r.right == far && r.red == c.red;
      assert BlackHeight(r.left, h + 1) && NoRedRed(r.left);
    } else {
      assert r.right == Node(Near(c), c.n, false, r.right.max, t) && r.left == far && r.red == c.red;
      assert BlackHeight(r.right, h + 1) && NoRedRed(r.right);
    }
  }

  lemma SettledMax(c: Ctx, t: Tree)
    requires !c.Top? && Sibling(c).Node? && Far(c).Node?
    requires MaxOK(t) && MaxOK(Sibling(c)) && c.max == MaxOf(Join(c, t)) && MaxOK(Join(c, t))
    ensures MaxOK(Settled(c, t)) && MaxOf(Settled(c, t)) == c.max
  {
    var s := Settling(c);
    assert MaxOK(Painted(Far(c), false)) && MaxOK(Sibling(s));
    assert MaxOK(Join(s, t)) && MaxOf(Join(s, t)) == c.max;
    RotatedSame(s, t);
  }

  lemma SettledSame(c: Ctx, t: Tree)
    requires !c.Top? && Sibling(c).Node? && Far(c).Node?
    ensures InOrder(Plug(c.up, Settled(c, t))) == InOrder(Plug(c, t))
  {
    var s := Settling(c);
    assert InOrder(Sibling(s)) == InOrder(Sibling(c));
    RotatedSame(s, t);
    InOrderPlug(s, t);
    InOrderPlug(c, t);
  }

  lemma {:induction false} OutermostBlack(e: Ends, h: Heap, c: Ctx, child: IntervalTreeNode, red: bool)
    requires CtxLinked(e, h, c, child) && CtxNoRedRed(c, red) && !c.Top?
    ensures Outermost(c) in CtxNodes(c) && Outermost(c) in h && !h[Outermost(c)].red
  {
    if !c.up.Top? { OutermostBlack(e, h, c.up, c.n, c.red); }
  }

  lemma {:induction false} CtxRootLeft(e: Ends, h: Heap, c: Ctx, child: IntervalTreeNode)
    requires CtxLinked(e, h, c, child)
    ensures e.root in h && h[e.root].left == if c.Top? then child else Outermost(c)
  {
    if !c.Top? { CtxRootLeft(e, h, c.up, c.n); }
  }

  // Blackening a red node, or stopping at the top, ends the fix-up.
  lemma BlackenedOK(c: Ctx, t: Tree, h: int)
    requires DeleteInv(c, t, h) && (IsRed(t) || c.Top?)
    ensures RedBlack(Plug(c, Blackened(t))) && MaxOK(Plug(c, Blackened(t)))
    ensures InOrder(Plug(c, Blackened(t))) == InOrder(Plug(c, t))
  {
    var b := Blackened(t);
    if IsRed(t) {
      RedBlackPlug(c, b, h + 1);
    } else {
      assert t.Node? ==> b == t;
      RedBlackPlug(c, b, h);
    }
    MaxOKPlug(c, b);
    InOrderPlug(c, b);
    InOrderPlug(c, t);
  }

  // ---------- the whole deletion ----------

  // The context of y with z's seat, a fork further up, taken over by y.
  function Reseated(p: Ctx, l: Tree, y: IntervalTreeNode, red: bool, max: int, c: Ctx): Ctx {
    Append(p, InRight(l, y, red, max, c))
  }

  lemma {:induction false} ReseatedSame(p: Ctx, l: Tree, z: IntervalTreeNode, y: IntervalTreeNode, red: bool, max: int,
                                        max': int, c: Ctx)
    requires Leftmost(p)
    ensures forall h :: CtxBlackHeight(Reseated(p, l, z, red, max, c), h)
                        ==> CtxBlackHeight(Reseated(p, l, y, red, max', c), h)
    ensures forall r :: CtxNoRedRed(Reseated(p, l, z, red, max, c), r)
                        ==> CtxNoRedRed(Reseated(p, l, y, red, max', c), r)
    ensures SidesMaxOK(Reseated(p, l, z, red, max, c)) ==> SidesMaxOK(Reseated(p, l, y, red, max', c))
    ensures Before(Reseated(p, l, z, red, max, c)) == Before(c) + InOrder(l) + [z]
    ensures After(Reseated(p, l, z, red, max, c)) == After(Reseated(p, l, y, red, max', c))
  {
    if !p.Top? { ReseatedSame(p.up, l, z, y, red, max, max', c); }
  }

  // Colours and maxima once the node of t, red or black, is spliced out of c.
  lemma SplicedInv(c: Ctx, t: Tree) returns (h: int)
    requires RedBlack(Plug(c, t)) && MaxOK(Plug(c, t)) && t.Node? && (t.left.Leaf? || t.right.Leaf?)
    ensures BlackHeight(OnlyChild(t), h) && NoRedRed(OnlyChild(t)) && MaxOK(OnlyChild(t)) && SidesMaxOK(c)
    ensures if t.red then CtxBlackHeight(c, h) && !IsRed(OnlyChild(t)) else CtxBlackHeight(c, h + 1)
    ensures CtxNoRedRed(c, false)
  {
    h := RedBlackUnplug(c, t);
    MaxOKPlug(c, t);
    CtxSidesMaxOK(c, MaxOf(t));
    h := h - Black(t.red);
  }

  // After the maxima are refreshed: balanced if the spliced node was red, else one short.
  lemma SplicedFix(c: Ctx, x: Tree, red: bool, h: int)
    requires BlackHeight(x, h) && NoRedRed(x) && MaxOK(x) && SidesMaxOK(c) && CtxNoRedRed(c, false)
    requires if red then CtxBlackHeight(c, h) && !IsRed(x) else CtxBlackHeight(c, h + 1)
    ensures var d := Refreshed(c, MaxOf(x));
      && InOrder(Plug(d, x)) == Before(c) + InOrder(x) + After(c)
      && (red ==> RedBlack(Plug(d, x)) && MaxOK(Plug(d, x)))
      && (!red ==> DeleteInv(d, x, h))
  {
    var d := Refreshed(c, MaxOf(x));
    RefreshedSame(c, MaxOf(x));
    RefreshedMaxOK(c, MaxOf(x));
    MaxOKPlug(d, x);
    InOrderPlug(d, x);
    if red { RedBlackPlug(d, x, h); }
  }

  // new is old without its k-th node, which is z.
  ghost predicate RemovedFrom(old': seq<IntervalTreeNode>, new': seq<IntervalTreeNode>, z: IntervalTreeNode) {
    exists k :: 0 <= k < |old'| && old'[k] == z && new' == old'[..k] + old'[k + 1..]
  }

  lemma CutOut(a: seq<IntervalTreeNode>, z: IntervalTreeNode, b: seq<IntervalTreeNode>)
    ensures RemovedFrom(a + [z] + b, a + b, z)
  {
    var s, k := a + [z] + b, |a|;
    assert s[..k] == a && s[k + 1..] == b && s[k] == z;
  }

  lemma RemovedSorted(s: seq<IntervalTreeNode>, w: seq<IntervalTreeNode>, z: IntervalTreeNode)
    requires Sorted(s) && RemovedFrom(s, w, z)
    ensures Sorted(w)
  {
    var k :| 0 <= k < |s| && s[k] == z && w == s[..k] + s[k + 1..];
    SortedCut(s, k);
  }

  lemma SortedCut(s: seq<IntervalTreeNode>, k: nat)
    requires Sorted(s) && k < |s|
    ensures Sorted(s[..k] + s[k + 1..])
  {
    var w := s[..k] + s[k + 1..];
    assert forall i :: 0 <= i < |w| ==> w[i] == if i < k then s[i] else s[i + 1];
  }

  lemma SpliceOrder(c: Ctx, t: Tree)
    requires t.Node? && (t.left.Leaf? || t.right.Leaf?) && Sorted(InOrder(Plug(c, t)))
    ensures RemovedFrom(InOrder(Plug(c, t)), Before(c) + InOrder(OnlyChild(t)) + After(c), t.n)
    ensures Sorted(Before(c) + InOrder(OnlyChild(t)) + After(c))
  {
    InOrderPlug(c, t);
    RemovedHere(Before(c), InOrder(t.left), t.n, InOrder(t.right), After(c));
    RemovedSorted(InOrder(Plug(c, t)), Before(c) + InOrder(OnlyChild(t)) + After(c), t.n);
  }

  lemma RemovedHere(a: seq<IntervalTreeNode>, l: seq<IntervalTreeNode>, z: IntervalTreeNode, r: seq<IntervalTreeNode>,
                    b: seq<IntervalTreeNode>)
    ensures l == [] ==> RemovedFrom(a + (l + [z] + r) + b, a + r + b, z)
    ensures r == [] ==> RemovedFrom(a + (l + [z] + r) + b, a + l + b, z)
  {
    assert a + (l + [z] + r) + b == (a + l) + [z] + (r + b);
    CutOut(a + l, z, r + b);
    assert l == [] ==> (a + l) + (r + b) == a + r + b;
    assert r == [] ==> (a + l) + (r + b) == a + l + b;
  }

  lemma ReseatOrder(p: Ctx, l: Tree, z: IntervalTreeNode, red: bool, max: int, c: Ctx, t: Tree)
    requires Leftmost(p) && t.Node? && t.left.Leaf?
    requires Sorted(InOrder(Plug(Reseated(p, l, z, red, max, c), t)))
    ensures var s := Before(c) + InOrder(l) + [t.n] + InOrder(t.right) + After(Reseated(p, l, z, red, max, c));
      RemovedFrom(InOrder(Plug(Reseated(p, l, z, red, max, c), t)), s, z) && Sorted(s)
  {
    var d := Reseated(p, l, z, red, max, c);
    ReseatedSame(p, l, z, z, red, max, max, c);
    InOrderPlug(d, t);
    var u, r, q := Before(c) + InOrder(l), InOrder(t.right), After(d);
    RegroupSeat(u, z, t.n, r, q);
    CutOut(u, z, [t.n] + r + q);
    RemovedSorted(InOrder(Plug(d, t)), u + [t.n] + r + q, z);
  }

  lemma RegroupSeat<T>(u: seq<T>, z: T, y: T, r: seq<T>, q: seq<T>)
    ensures (u + [z]) + ([] + [y] + r) + q == u + [z] + ([y] + r + q)
    ensures u + [y] + r + q == u + ([y] + r + q)
  {
  }

  // The path nodes of a context, one of them repainted.
  function Recolour(c: Ctx, y: IntervalTreeNode, red: bool): Ctx {
    match c
    case Top => Top
    case InLeft(n, r, max, t, up) => InLeft(n, if n == y then red else r, max, t, Recolour(up, y, red))
    case InRight(t, n, r, max, up) => InRight(t, n, if n == y then red else r, max, Recolour(up, y, red))
  }

  predicate OnPath(c: Ctx, y: IntervalTreeNode) {
    !c.Top? && (c.n == y || OnPath(c.up, y))
  }

  lemma {:induction false} OnPathNode(c: Ctx, y: IntervalTreeNode)
    requires OnPath(c, y)
    ensures y in CtxNodes(c)
  {
    if c.n != y { OnPathNode(c.up, y); }
  }

  lemma {:induction false} RecolourAbsent(c: Ctx, y: IntervalTreeNode, red: bool)
    requires y !in CtxNodes(c)
    ensures Recolour(c, y, red) == c
  {
    if !c.Top? { RecolourAbsent(c.up, y, red); }
  }

  lemma {:induction false} RecolourRefreshed(c: Ctx, y: IntervalTreeNode, red: bool, m: int)
    ensures Recolour(Refreshed(c, m), y, red) == Refreshed(Recolour(c, y, red), m)
  {
    match c
    case Top =>
    case InLeft(n, _, _, r, up) => RecolourRefreshed(up, y, red, NewMax(m, n.high, MaxOf(r)));
    case InRight(l, n, _, _, up) => RecolourRefreshed(up, y, red, NewMax(MaxOf(l), n.high, m));
  }

  lemma {:induction false} RecolourReseated(p: Ctx, l: Tree, y: IntervalTreeNode, red: bool, red': bool, max: int,
      c: Ctx)
    requires y !in CtxNodes(p) && y !in CtxNodes(c)
    ensures Recolour(Reseated(p, l, y, red, max, c), y, red') == Reseated(p, l, y, red', max, c)
    ensures OnPath(Reseated(p, l, y, red, max, c), y)
  {
    if p.Top? {
      RecolourAbsent(c, y, red');
    } else {
      RecolourReseated(p.up, l, y, red, red', max, c);
    }
  }

  lemma {:induction false} OnPathRefreshed(c: Ctx, y: IntervalTreeNode, m: int)
    requires OnPath(c, y)
    ensures OnPath(Refreshed(c, m), y)
  {
    if c.n != y {
      if c.InLeft? { OnPathRefreshed(c.up, y, NewMax(m, c.n.high, MaxOf(c.right))); }
      else { OnPathRefreshed(c.up, y, NewMax(MaxOf(c.left), c.n.high, m)); }
    }
  }

  lemma {:induction false} PathRedWritten(e: Ends, h: Heap, k: Heap, c: Ctx, child: IntervalTreeNode,
      y: IntervalTreeNode, red: bool)
    requires CtxLinked(e, h, c, child) && CtxApart(c) && e.root !in CtxNodes(c) && OnPath(c, y)
    requires y in h && y in k && k[y] == h[y].(red := red) && Agree(h, k, h.Keys - {y})
    ensures CtxLinked(e, k, Recolour(c, y, red), child)
    ensures CtxNodes(Recolour(c, y, red)) == CtxNodes(c) && CtxApart(Recolour(c, y, red))
  {
    if c.n == y {
      RecolourAbsent(c.up, y, red);
      CtxLinkedKept(e, h, k, c.up, y);
    } else {
      OnPathNode(c.up, y);
      PathRedWritten(e, h, k, c.up, c.n, y, red);
    }
    if c.InLeft? { LinkedKept(e, h, k, c.right, c.n); } else { LinkedKept(e, h, k, c.left, c.n); }
  }

  lemma PathRedSeen(e: Ends, h: Heap, k: Heap, c: Ctx, t: Tree, y: IntervalTreeNode, red: bool)
    requires Seen(e, h, c, t) && OnPath(c, y)
    requires y in h && y in k && k[y] == h[y].(red := red) && Agree(h, k, h.Keys - {y})
    ensures Seen(e, k, Recolour(c, y, red), t)
  {
    hide Apart, CtxApart, Stores, Linked, CtxLinked;
    OnPathNode(c, y);
    PathRedWritten(e, h, k, c, Ptr(e, t), y, red);
    LinkedKept(e, h, k, t, ParentOf(e, c));
  }

  // ---------- the next node in order ----------

  lemma {:induction false} LeftmostFirst(p: Ctx, u: Tree)
    requires Leftmost(p) && u.Node? && u.left.Leaf?
    ensures InOrder(Plug(p, u)) != [] && InOrder(Plug(p, u))[0] == u.n
  {
    InOrderPlug(p, u);
    LeftmostBefore(p);
  }

  lemma {:induction false} LeftmostBefore(p: Ctx)
    requires Leftmost(p)
    ensures Before(p) == []
  {
    if !p.Top? { LeftmostBefore(p.up); }
  }

  function FirstOr(s: seq<IntervalTreeNode>, d: IntervalTreeNode): IntervalTreeNode {
    if s == [] then d else s[0]
  }

  lemma {:induction false} AppendNodes(p: Ctx, c: Ctx)
    ensures CtxNodes(Append(p, c)) == CtxNodes(p) + CtxNodes(c)
  {
    if !p.Top? { AppendNodes(p.up, c); }
  }

  // A node taken out of the right subtree of z is nowhere in the rest.
  lemma SpliceOutside(e: Ends, p: Ctx, l: Tree, z: IntervalTreeNode, red: bool, max: int, c: Ctx, t: Tree, x: Tree)
    requires Placed(e, Reseated(p, l, z, red, max, c), t) && t.Node? && (x == t.left || x == t.right)
    ensures t.n !in Nodes(Node(l, z, red, max, Plug(p, x))) && t.n !in CtxNodes(c) && t.n != e.root && t.n != e.nil
    ensures t.n !in CtxNodes(p) && z != t.n
  {
    AppendNodes(p, InRight(l, z, red, max, c));
    NodesPlug(p, x);
  }

  // The colour, maximum and order bookkeeping of a successor y = t.n taking z's place.
  lemma ReseatedFix(p: Ctx, l: Tree, z: IntervalTreeNode, red: bool, max: int, c: Ctx, t: Tree) returns (h: int)
    requires Leftmost(p) && t.Node? && t.left.Leaf? && t.n !in CtxNodes(p) && t.n !in CtxNodes(c)
    requires RedBlack(Plug(Reseated(p, l, z, red, max, c), t)) && MaxOK(Plug(Reseated(p, l, z, red, max, c), t))
    ensures var y, m := t.n, MaxOf(t.right);
      var d := Refreshed(Reseated(p, l, y, t.red, -MAX_TIME, c), m);
      var f := Recolour(d, y, red);
      && OnPath(d, y) && f == Refreshed(Reseated(p, l, y, red, -MAX_TIME, c), m)
      && InOrder(Plug(f, t.right)) == Before(c) + InOrder(l) + [y] + InOrder(t.right)
          + After(Reseated(p, l, z, red, max, c))
      && (t.red ==> RedBlack(Plug(f, t.right)) && MaxOK(Plug(f, t.right)))
      && (!t.red ==> DeleteInv(f, t.right, h))
  {
    h := SplicedInv(Reseated(p, l, z, red, max, c), t);
    var y, v := t.n, t.right;
    var d, f := Reseated(p, l, y, t.red, -MAX_TIME, c), Reseated(p, l, y, red, -MAX_TIME, c);
    RecolourReseated(p, l, y, t.red, red, -MAX_TIME, c);
    RecolourRefreshed(d, y, red, MaxOf(v));
    OnPathRefreshed(d, y, MaxOf(v));
    ReseatedSame(p, l, z, y, red, max, -MAX_TIME, c);
    ReseatedSame(p, l, y, y, red, -MAX_TIME, -MAX_TIME, c);
    SplicedFix(f, v, t.red, h);
  }

  lemma {:induction false} PlugNode(c: Ctx, t: Tree)
    ensures Plug(c, t).Leaf? <==> c.Top? && t.Leaf?
    decreases c
  {
    if !c.Top? { PlugNode(c.up, Join(c, t)); }
  }
}
