module IntervalTrees {
  import opened Basics
  import opened IntervalTreeShape
  import opened IntervalTreeInsert
  import opened IntervalTreeDelete
  import opened IntervalTreeQuery

  // An entry of the query's stack.
  datatype RecursionNode = RecursionNode(startNode: IntervalTreeNode?, parentIndex: nat, tryRightBranch: bool)

  class IntervalTree {
    const root: IntervalTreeNode
    const nil: IntervalTreeNode
    ghost var tree: Tree
    ghost var repr: set<IntervalTreeNode>

    ghost const ends := Ends(root, nil)

    ghost function Snap(): Heap
      reads this`repr, repr
    {
      map n | n in repr :: Fields(n.left, n.right, n.parent, n.red, n.max_high)
    }

    ghost predicate Sentinels()
      reads this`repr, root, nil
    {
      root in repr && nil !in repr && !root.red && !nil.red && nil.max_high == -MAX_TIME && root.stored == null
    }

    // The heap holds the tree Plug(c, t), seen from the subtree t.
    ghost predicate At(c: Ctx, t: Tree)
      reads this`repr, repr, root, nil
    {
      Sentinels() && Seen(ends, Snap(), c, t)
    }

    // The stack of the query, kept from one query to the next and doubled when full; entry 0
    // stays at the bottom.
    var recursionNodeStack: seq<RecursionNode>
    var recursionNodeStackTop: nat
    var currentParent: nat

    constructor ()
      ensures Valid() && StackReady() && tree == Leaf
      ensures fresh(repr) && fresh(root) && fresh(nil)
    {
      nil := new IntervalTreeNode.Sentinel(-MAX_TIME);
      root := new IntervalTreeNode.Sentinel(MAX_TIME);
      tree := Leaf;
      repr := {root};
      recursionNodeStack := seq(128, _ => RecursionNode(null, 0, false));
      recursionNodeStackTop := 1;
      currentParent := 0;
      new;
      root.parent, root.left, root.right := nil, nil, nil;
      assert BlackHeight(tree, 0);
    }

    ghost predicate StackReady()
      reads this`recursionNodeStack, this`recursionNodeStackTop
    {
      recursionNodeStackTop == 1 && |recursionNodeStack| >= 1
    }

    // ---------- rotations ----------

    method LeftRotate(x: IntervalTreeNode)
      requires Sentinels()
      requires x in repr && x.right in repr && x.parent in repr && x.right.left in repr + {nil}
      requires x != x.right && x != x.parent && x.right != x.parent && x.right.left !in {x, x.right, x.parent}
      requires x.left !in {x, x.right} && x.right.right !in {x, x.right}
      modifies repr
      ensures var y, p, b := old(x.right), old(x.parent), old(x.right.left);
        && x.left == old(x.left) && x.right == b && x.parent == y && x.red == old(x.red)
        && x.max_high == NewMax(old(x.left.max_high), x.high, old(b.max_high))
        && y.left == x && y.right == old(y.right) && y.parent == p && y.red == old(y.red)
        && y.max_high == NewMax(x.max_high, y.high, old(y.right.max_high))
        && (if old(p.left) == x then p.left == y && p.right == old(p.right) else p.left == old(p.left) && p.right == y)
        && p.parent == old(p.parent) && p.red == old(p.red) && p.max_high == old(p.max_high)
        && (b != nil ==> b.left == old(b.left) && b.right == old(b.right) && b.parent == x && b.red == old(b.red)
                         && b.max_high == old(b.max_high))
        && forall n :: n in repr - {x, y, p, b} ==>
             n.left == old(n.left) && n.right == old(n.right) && n.parent == old(n.parent)
             && n.red == old(n.red) && n.max_high == old(n.max_high)
    {
      var y := x.right;
      x.right := y.left;
      if y.left != nil {
        y.left.parent := x;
      }
      y.parent := x.parent;
      if x == x.parent.left {
        x.parent.left := y;
      } else {
        x.parent.right := y;
      }
      y.left := x;
      x.parent := y;
      x.max_high := Max(x.left.max_high, Max(x.right.max_high, x.high));
      y.max_high := Max(x.max_high, Max(y.right.max_high, y.high));
    }

    method RightRotate(y: IntervalTreeNode)
      requires Sentinels()
      requires y in repr && y.left in repr && y.parent in repr && y.left.right in repr + {nil}
      requires y != y.left && y != y.parent && y.left != y.parent && y.left.right !in {y, y.left, y.parent}
      requires y.right !in {y, y.left} && y.left.left !in {y, y.left}
      modifies repr
      ensures var x, p, b := old(y.left), old(y.parent), old(y.left.right);
        && y.right == old(y.right) && y.left == b && y.parent == x && y.red == old(y.red)
        && y.max_high == NewMax(old(b.max_high), y.high, old(y.right.max_high))
        && x.right == y && x.left == old(x.left) && x.parent == p && x.red == old(x.red)
        && x.max_high == NewMax(old(x.left.max_high), x.high, y.max_high)
        && (if old(p.left) == y then p.left == x && p.right == old(p.right) else p.left == old(p.left) && p.right == x)
        && p.parent == old(p.parent) && p.red == old(p.red) && p.max_high == old(p.max_high)
        && (b != nil ==> b.left == old(b.left) && b.right == old(b.right) && b.parent == y && b.red == old(b.red)
                         && b.max_high == old(b.max_high))
        && forall n :: n in repr - {x, y, p, b} ==>
             n.left == old(n.left) && n.right == old(n.right) && n.parent == old(n.parent)
             && n.red == old(n.red) && n.max_high == old(n.max_high)
    {
      var x := y.left;
      y.left := x.right;
      if nil != x.right {
        x.right.parent := y;
      }
      x.parent := y.parent;
      if y == y.parent.left {
        y.parent.left := x;
      } else {
        y.parent.right := x;
      }
      x.right := y;
      y.parent := x;
      y.max_high := Max(y.left.max_high, Max(y.right.max_high, y.high));
      x.max_high := Max(x.left.max_high, Max(y.max_high, x.high));
    }

    // The rotations at a subtree of the whole tree.
    method LeftRotateAt(x: IntervalTreeNode, ghost c: Ctx, ghost t: Tree)
      requires At(c, t) && t.Node? && t.n == x && t.right.Node?
      modifies repr
      ensures At(c, RotatedLeft(t))
    {
      ghost var h := Snap();
      SeenLeftParts(ends, h, c, t);
      LeftRotate(x);
      assert LeftRotated(ends, h, Snap(), c, t);
      LeftRotatedSeen(ends, h, Snap(), c, t);
    }

    method RightRotateAt(y: IntervalTreeNode, ghost c: Ctx, ghost t: Tree)
      requires At(c, t) && t.Node? && t.n == y && t.left.Node?
      modifies repr
      ensures At(c, RotatedRight(t))
    {
      ghost var h := Snap();
      SeenRightParts(ends, h, c, t);
      RightRotate(y);
      assert RightRotated(ends, h, Snap(), c, t);
      RightRotatedSeen(ends, h, Snap(), c, t);
    }

    // ---------- maxima on the way up ----------

    method FixMaxHigh(x: IntervalTreeNode, ghost c: Ctx, ghost t: Tree)
      requires At(c, t) && t.Node? && t.n == x
      modifies x`max_high
      ensures At(c, t.(max := NewMax(MaxOf(t.left), t.n.high, MaxOf(t.right))))
    {
      ghost var h := Snap();
      assert Linked(ends, h, t.left, t.n) && Linked(ends, h, t.right, t.n);
      x.max_high := Max(x.high, Max(x.left.max_high, x.right.max_high));
      TopWritten(ends, h, Snap(), c, t, t.(max := NewMax(MaxOf(t.left), t.n.high, MaxOf(t.right))));
    }

    method FixupMaxHigh(x0: IntervalTreeNode, ghost c0: Ctx, ghost t: Tree)
      requires At(c0, t) && x0 == ParentOf(ends, c0)
      modifies repr`max_high
      ensures At(Refreshed(c0, MaxOf(t)), t)
    {
      var x := x0;
      ghost var c, u := c0, t;
      while x != root
        invariant At(c, u) && x == ParentOf(ends, c)
        invariant Plug(Refreshed(c, MaxOf(u)), u) == Plug(Refreshed(c0, MaxOf(t)), t)
        decreases c
      {
        SeenUp(ends, Snap(), c, u);
        u := Join(c, u);
        c := c.up;
        FixMaxHigh(x, c, u);
        u := u.(max := NewMax(MaxOf(u.left), u.n.high, MaxOf(u.right)));
        x := x.parent;
      }
      SeenDown(ends, Snap(), Refreshed(c0, MaxOf(t)), t);
    }

    // ---------- colours ----------

    method Paint(x: IntervalTreeNode, red: bool, ghost c: Ctx, ghost t: Tree)
      requires At(c, t) && t.Node? && t.n == x
      modifies x`red
      ensures At(c, Painted(t, red))
    {
      ghost var h := Snap();
      x.red := red;
      TopWritten(ends, h, Snap(), c, t, Painted(t, red));
    }

    method PaintParent(p: IntervalTreeNode, red: bool, ghost c: Ctx, ghost t: Tree)
      requires At(c, t) && !c.Top? && p == c.n
      modifies p`red
      ensures At(CtxPainted(c, red), t)
    {
      SeenUp(ends, Snap(), c, t);
      Paint(p, red, c.up, Join(c, t));
      SeenBack(ends, Snap(), CtxPainted(c, red), t);
    }

    method PaintSibling(s: IntervalTreeNode, red: bool, ghost c: Ctx, ghost t: Tree)
      requires At(c, t) && !c.Top? && Sibling(c).Node? && s == Sibling(c).n
      modifies s`red
      ensures At(WithSibling(c, Painted(Sibling(c), red)), t)
    {
      SeenAcross(ends, Snap(), c, t);
      Paint(s, red, Across(c, t), Sibling(c));
      SeenAcross(ends, Snap(), Across(c, t), Painted(Sibling(c), red));
    }

    // ---------- insertion ----------

    method RecursiveInsert(z: IntervalTreeNode) returns (ghost c: Ctx)
      requires At(Top, tree) && Sorted(InOrder(tree)) && Spare(z)
      modifies repr
      ensures Plug(c, Leaf) == tree && Brackets(c, z.key)
      ensures At(c, Node(Leaf, z, old(z.red), old(z.max_high), Leaf))
    {
      hide Linked, CtxLinked, Apart, CtxApart, Stores, Sorted, Brackets;
      ghost var h := Snap();
      z.left, z.right := nil, nil;
      SeenKept(ends, h, Snap(), Top, tree);
      var y;
      y, c := FindParent(z);
      NodesPlug(c, Leaf);
      LinkLeaf(z, y, c);
    }

    method FindParent(z: IntervalTreeNode) returns (y: IntervalTreeNode, ghost c: Ctx)
      requires At(Top, tree) && Sorted(InOrder(tree))
      ensures At(c, Leaf) && Plug(c, Leaf) == tree && Brackets(c, z.key) && y == ParentOf(ends, c)
    {
      y, c := root, Top;
      var x := root.left;
      ghost var h, t := Snap(), tree;
      assert Seen(ends, h, c, t);
      while x != nil
        invariant Seen(ends, h, c, t) && Plug(c, t) == tree && x == Ptr(ends, t) && y == ParentOf(ends, c)
        invariant Sorted(InOrder(t)) && Brackets(c, z.key)
        decreases t
      {
        Descend(ends, h, c, t, z.key);
        y := x;
        if x.key > z.key {
          x := x.left;
        } else {
          x := x.right;
        }
        ghost var below := Below(c, t, z.key);
        c, t := below.0, below.1;
      }
    }

    method LinkLeaf(z: IntervalTreeNode, y: IntervalTreeNode, ghost c: Ctx)
      requires At(c, Leaf) && y == ParentOf(ends, c)
      requires z in repr && z !in CtxNodes(c) && z != root && Stores(z)
      requires z.left == z.right == nil && (!c.Top? ==> (c.InLeft? <==> y.key > z.key))
      modifies repr
      ensures At(c, Node(Leaf, z, old(z.red), old(z.max_high), Leaf))
    {
      ghost var h := Snap();
      NodesInRepr(c, Leaf);
      z.parent := y;
      if y == root || y.key > z.key {
        y.left := z;
      } else {
        y.right := z;
      }
      LeafFilled(ends, h, Snap(), c, z);
    }

    // A node on the inner side of its parent p changes places with it.
    method StraightenLeft(p: IntervalTreeNode, ghost c: Ctx, ghost t: Tree)
      requires At(c, t) && t.Node? && c.InRight? && p == c.n
      modifies repr
      ensures At(Straight(c, t).0, Straight(c, t).1)
    {
      SeenUp(ends, Snap(), c, t);
      LeftRotateAt(p, c.up, Join(c, t));
      SeenLeft(ends, Snap(), c.up, RotatedLeft(Join(c, t)));
    }

    method StraightenRight(p: IntervalTreeNode, ghost c: Ctx, ghost t: Tree)
      requires At(c, t) && t.Node? && c.InLeft? && p == c.n
      modifies repr
      ensures At(Straight(c, t).0, Straight(c, t).1)
    {
      SeenUp(ends, Snap(), c, t);
      RightRotateAt(p, c.up, Join(c, t));
      SeenRight(ends, Snap(), c.up, RotatedRight(Join(c, t)));
    }

    // Red uncle: the colours of parent, uncle and grandparent are swapped.
    method RecolourUncle(p: IntervalTreeNode, y: IntervalTreeNode, g: IntervalTreeNode, ghost c: Ctx, ghost t: Tree)
      requires At(c, t) && !c.Top? && !c.up.Top? && Sibling(c.up).Node?
      requires p == c.n && y == Sibling(c.up).n && g == c.up.n
      modifies p`red, y`red, g`red
      ensures At(c.up.up, Recoloured(c, t))
    {
      PaintParent(p, false, c, t);
      ghost var d := CtxPainted(c, false);
      ghost var u := Join(d, t);
      SeenUp(ends, Snap(), d, t);
      PaintSibling(y, false, d.up, u);
      ghost var f := WithSibling(d.up, Painted(Sibling(d.up), false));
      PaintParent(g, true, f, u);
      SeenUp(ends, Snap(), CtxPainted(f, true), u);
    }

    method BlackenLine(p: IntervalTreeNode, g: IntervalTreeNode, ghost c: Ctx, ghost t: Tree)
      requires At(c, t) && !c.Top? && !c.up.Top? && p == c.n && g == c.up.n
      modifies p`red, g`red
      ensures At(c.up.up, Grandparent(c, t))
    {
      PaintParent(p, false, c, t);
      ghost var d := CtxPainted(c, false);
      ghost var u := Join(d, t);
      SeenUp(ends, Snap(), d, t);
      PaintParent(g, true, d.up, u);
      SeenUp(ends, Snap(), CtxPainted(d.up, true), u);
    }

    // Black uncle, node and parent on the same side.
    method RotateLine(p: IntervalTreeNode, g: IntervalTreeNode, ghost c: Ctx, ghost t: Tree)
      requires At(c, t) && !c.Top? && !c.up.Top? && p == c.n && g == c.up.n && c.InLeft? == c.up.InLeft?
      modifies repr
      ensures At(Lifted(c, t), t)
    {
      NodesInRepr(c, t);
      BlackenLine(p, g, c, t);
      ghost var r := Grandparent(c, t);
      if g.left == p {
        RightRotateAt(g, c.up.up, r);
        SeenLeft(ends, Snap(), c.up.up, RotatedRight(r));
      } else {
        LeftRotateAt(g, c.up.up, r);
        SeenRight(ends, Snap(), c.up.up, RotatedLeft(r));
      }
    }

    lemma NodesInRepr(c: Ctx, t: Tree)
      requires At(c, t)
      ensures CtxNodes(c) + Nodes(t) <= repr
    {
      NodesKnown(ends, Snap(), t, ParentOf(ends, c));
      CtxNodesKnown(ends, Snap(), c, Ptr(ends, t));
    }

    ghost predicate Valid()
      reads this, repr, root, nil
    {
      At(Top, tree) && Sorted(InOrder(tree)) && MaxOK(tree) && RedBlack(tree)
    }

    // One round of the fix-up below a red parent.
    method InsertFixupStep(x0: IntervalTreeNode, ghost c0: Ctx, ghost t0: Tree, ghost h0: int)
      returns (x: IntervalTreeNode, ghost c: Ctx, ghost t: Tree, ghost h: int)
      requires At(c0, t0) && InsertInv(c0, t0, h0) && x0 == t0.n && !c0.Top? && c0.red
      modifies repr
      ensures At(c, t) && InsertInv(c, t, h) && x == t.n
      ensures InOrder(Plug(c, t)) == InOrder(Plug(c0, t0))
      ensures Depth(c) < Depth(c0) || c.Top? || !c.red
    {
      x, c, t, h := x0, c0, t0, h0;
      Ancestors(c, t, h);
      if x.parent == x.parent.parent.left {
        var y := x.parent.parent.right;
        if y.red {
          RecolouredInv(c, t, h);
          RecolourUncle(x.parent, y, x.parent.parent, c, t);
          x := x.parent.parent;
          c, t, h := c.up.up, Recoloured(c, t), h + 1;
        } else {
          if x == x.parent.right {
            x := x.parent;
            StraightInv(c, t, h);
            StraightenLeft(x, c, t);
            c, t := Straight(c, t).0, Straight(c, t).1;
          }
          LiftedInv(c, t, h);
          Ancestors(c, t, h);
          RotateLine(x.parent, x.parent.parent, c, t);
          c := Lifted(c, t);
        }
      } else {
        var y := x.parent.parent.left;
        if y.red {
          RecolouredInv(c, t, h);
          RecolourUncle(x.parent, y, x.parent.parent, c, t);
          x := x.parent.parent;
          c, t, h := c.up.up, Recoloured(c, t), h + 1;
        } else {
          if x == x.parent.left {
            x := x.parent;
            StraightInv(c, t, h);
            StraightenRight(x, c, t);
            c, t := Straight(c, t).0, Straight(c, t).1;
          }
          LiftedInv(c, t, h);
          Ancestors(c, t, h);
          RotateLine(x.parent, x.parent.parent, c, t);
          c := Lifted(c, t);
        }
      }
    }

    // Below a red parent there is a black grandparent, and the links say on which sides.
    lemma Ancestors(c: Ctx, t: Tree, h: int)
      requires At(c, t) && InsertInv(c, t, h) && !c.Top? && c.red
      ensures t.n in repr && t.n.parent == c.n && c.n in repr && !c.up.Top? && c.n.parent == c.up.n && c.up.n in repr
      ensures (c.n.left == t.n <==> c.InLeft?) && (c.n.right == t.n <==> c.InRight?)
      ensures (c.up.n.left == c.n <==> c.up.InLeft?)
      ensures (if c.up.InLeft? then c.up.n.right else c.up.n.left) == Ptr(ends, Sibling(c.up))
      ensures Ptr(ends, Sibling(c.up)).red == IsRed(Sibling(c.up))
      ensures Sibling(c.up).Node? ==> Sibling(c.up).n in repr
    {
      assert CtxNoRedRed(c.up, true);
      SeenSide(ends, Snap(), c, t);
      SeenUp(ends, Snap(), c, t);
      SeenSide(ends, Snap(), c.up, Join(c, t));
      NodesInRepr(c, t);
      SeenAcross(ends, Snap(), c.up, Join(c, t));
    }

    // The new node is linked in red, with the maxima above it refreshed.
    method InsertRed(x: IntervalTreeNode) returns (ghost c: Ctx, ghost t: Tree, ghost s: seq<IntervalTreeNode>)
      requires Valid() && Spare(x) && x.max_high == x.high && !x.red
      modifies repr
      ensures At(c, t) && InsertInv(c, t, 0) && x == t.n
      ensures InOrder(Plug(c, t)) == s && Sorted(s) && InsertedIn(InOrder(tree), s, x)
    {
      c := RecursiveInsert(x);
      t := Node(Leaf, x, false, x.high, Leaf);
      FixupMaxHigh(x.parent, c, t);
      InsertStart(c, x);
      BracketsInsert(c, x);
      s := Before(c) + [x] + After(c);
      c := Refreshed(c, x.high);
      Paint(x, true, c, t);
      t := Painted(t, true);
    }

    method Insert(new_interval: Interval) returns (new_node: IntervalTreeNode)
      requires Valid()
      modifies this`repr, this`tree, repr
      ensures Valid() && fresh(new_node) && new_node.stored == new_interval
      ensures repr == old(repr) + {new_node}
      ensures InsertedIn(InOrder(old(tree)), InOrder(tree), new_node)
    {
      new_node := new IntervalTreeNode.Store(new_interval);
      Adopt(new_node);
      InsertNode(new_node);
    }

    ghost method SetTree(u: Tree)
      requires At(Top, u)
      modifies this`tree
      ensures tree == u && At(Top, tree)
    {
      tree := u;
    }

    // A node of the footprint that is not in the tree.
    ghost predicate Spare(x: IntervalTreeNode)
      reads this`repr, this`tree
    {
      x in repr && x !in Nodes(tree) && x != root && x != nil && Stores(x)
    }

    ghost method Adopt(x: IntervalTreeNode)
      requires Valid() && x !in repr && x != nil && Stores(x)
      modifies this`repr
      ensures Valid() && repr == old(repr) + {x} && Spare(x)
    {
      ghost var h := Snap();
      NodesInRepr(Top, tree);
      repr := repr + {x};
      SeenKept(ends, h, Snap(), Top, tree);
    }

    method InsertNode(x: IntervalTreeNode)
      requires Valid() && Spare(x) && x.max_high == x.high && !x.red
      modifies this`tree, repr
      ensures Valid() && InsertedIn(InOrder(old(tree)), InOrder(tree), x)
    {
      ghost var c, t, s := InsertRed(x);
      ghost var u := InsertFixup(x, c, t, s);
      SetTree(u);
    }

    method InsertFixup(x0: IntervalTreeNode, ghost c0: Ctx, ghost t0: Tree, ghost s: seq<IntervalTreeNode>)
      returns (ghost u: Tree)
      requires At(c0, t0) && InsertInv(c0, t0, 0) && x0 == t0.n && InOrder(Plug(c0, t0)) == s
      modifies repr
      ensures At(Top, u) && RedBlack(u) && MaxOK(u) && InOrder(u) == s
    {
      var x := x0;
      ghost var c, t, h := c0, t0, 0;
      while x.parent.red
        invariant At(c, t) && InsertInv(c, t, h) && x == t.n && InOrder(Plug(c, t)) == s
        decreases if c.Top? || !c.red then 0 else 1 + Depth(c)
      {
        x, c, t, h := InsertFixupStep(x, c, t, h);
      }
      InsertEnd(c, t, h);
      BlackenRoot(c, t);
      u := Painted(Plug(c, t), false);
    }

    method BlackenRoot(ghost c: Ctx, ghost t: Tree)
      requires At(c, t) && Plug(c, t).Node?
      modifies repr
      ensures At(Top, Painted(Plug(c, t), false))
    {
      SeenTop(ends, Snap(), c, t);
      ghost var u := Plug(c, t);
      assert Snap()[root].left == u.n;
      NodesInRepr(Top, u);
      Paint(root.left, false, Top, u);
    }

    // ---------- the deletion fix-up, case by case ----------

    method PaintLeftNephew(n: IntervalTreeNode, red: bool, ghost c: Ctx, ghost t: Tree)
      requires At(c, t) && !c.Top? && Sibling(c).Node? && Sibling(c).left.Node? && n == Sibling(c).left.n
      modifies n`red
      ensures var s := Sibling(c); At(WithSibling(c, Node(Painted(s.left, red), s.n, s.red, s.max, s.right)), t)
    {
      ghost var s, d := Sibling(c), Across(c, t);
      SeenAcross(ends, Snap(), c, t);
      SeenLeft(ends, Snap(), d, s);
      Paint(n, red, InLeft(s.n, s.red, s.max, s.right, d), s.left);
      SeenUp(ends, Snap(), InLeft(s.n, s.red, s.max, s.right, d), Painted(s.left, red));
      SeenAcross(ends, Snap(), d, Node(Painted(s.left, red), s.n, s.red, s.max, s.right));
    }

    method PaintRightNephew(n: IntervalTreeNode, red: bool, ghost c: Ctx, ghost t: Tree)
      requires At(c, t) && !c.Top? && Sibling(c).Node? && Sibling(c).right.Node? && n == Sibling(c).right.n
      modifies n`red
      ensures var s := Sibling(c); At(WithSibling(c, Node(s.left, s.n, s.red, s.max, Painted(s.right, red))), t)
    {
      ghost var s, d := Sibling(c), Across(c, t);
      SeenAcross(ends, Snap(), c, t);
      SeenRight(ends, Snap(), d, s);
      Paint(n, red, InRight(s.left, s.n, s.red, s.max, d), s.right);
      SeenUp(ends, Snap(), InRight(s.left, s.n, s.red, s.max, d), Painted(s.right, red));
      SeenAcross(ends, Snap(), d, Node(s.left, s.n, s.red, s.max, Painted(s.right, red)));
    }

    method LowerLeft(p: IntervalTreeNode, w: IntervalTreeNode, ghost c: Ctx, ghost t: Tree)
      requires At(c, t) && c.InLeft? && Sibling(c).Node? && p == c.n && w == Sibling(c).n
      modifies repr
      ensures At(Lowered(c, t), t)
    {
      NodesInRepr(c, t);
      PaintSibling(w, false, c, t);
      PaintParent(p, true, WithSibling(c, Painted(Sibling(c), false)), t);
      ghost var s := Swapped(c);
      SeenUp(ends, Snap(), s, t);
      LeftRotateAt(p, c.up, Join(s, t));
      ghost var r := Rotated(s, t);
      SeenLeft(ends, Snap(), c.up, r);
      SeenLeft(ends, Snap(), InLeft(r.n, r.red, r.max, r.right, c.up), r.left);
    }

    method LowerRight(p: IntervalTreeNode, w: IntervalTreeNode, ghost c: Ctx, ghost t: Tree)
      requires At(c, t) && c.InRight? && Sibling(c).Node? && p == c.n && w == Sibling(c).n
      modifies repr
      ensures At(Lowered(c, t), t)
    {
      NodesInRepr(c, t);
      PaintSibling(w, false, c, t);
      PaintParent(p, true, WithSibling(c, Painted(Sibling(c), false)), t);
      ghost var s := Swapped(c);
      SeenUp(ends, Snap(), s, t);
      RightRotateAt(p, c.up, Join(s, t));
      ghost var r := Rotated(s, t);
      SeenRight(ends, Snap(), c.up, r);
      SeenRight(ends, Snap(), InRight(r.left, r.n, r.red, r.max, c.up), r.right);
    }

    method TurnLeft(w: IntervalTreeNode, ghost c: Ctx, ghost t: Tree)
      requires At(c, t) && c.InLeft? && Sibling(c).Node? && Near(c).Node? && w == Sibling(c).n && w.left == Near(c).n
      modifies repr
      ensures At(Turned(c), t)
    {
      NodesInRepr(c, t);
      PaintLeftNephew(w.left, false, c, t);
      ghost var s := Sibling(c);
      ghost var d := WithSibling(c, Node(Painted(s.left, false), s.n, s.red, s.max, s.right));
      PaintSibling(w, true, d, t);
      d := WithSibling(d, Painted(Sibling(d), true));
      SeenAcross(ends, Snap(), d, t);
      RightRotateAt(w, Across(d, t), Sibling(d));
      SeenAcross(ends, Snap(), Across(d, t), RotatedRight(Sibling(d)));
    }

    method TurnRight(w: IntervalTreeNode, ghost c: Ctx, ghost t: Tree)
      requires At(c, t) && c.InRight? && Sibling(c).Node? && Near(c).Node? && w == Sibling(c).n && w.right == Near(c).n
      modifies repr
      ensures At(Turned(c), t)
    {
      NodesInRepr(c, t);
      PaintRightNephew(w.right, false, c, t);
      ghost var s := Sibling(c);
      ghost var d := WithSibling(c, Node(s.left, s.n, s.red, s.max, Painted(s.right, false)));
      PaintSibling(w, true, d, t);
      d := WithSibling(d, Painted(Sibling(d), true));
      SeenAcross(ends, Snap(), d, t);
      LeftRotateAt(w, Across(d, t), Sibling(d));
      SeenAcross(ends, Snap(), Across(d, t), RotatedLeft(Sibling(d)));
    }

    method SettleLeft(p: IntervalTreeNode, w: IntervalTreeNode, ghost c: Ctx, ghost t: Tree)
      requires At(c, t) && c.InLeft? && Sibling(c).Node? && Far(c).Node? && p == c.n && w == Sibling(c).n
          && w.right == Far(c).n
      requires p.red == c.red
      modifies repr
      ensures At(c.up, Settled(c, t))
    {
      NodesInRepr(c, t);
      ghost var s := Sibling(c);
      PaintSibling(w, p.red, c, t);
      ghost var d := WithSibling(c, Painted(s, c.red));
      PaintParent(p, false, d, t);
      d := CtxPainted(d, false);
      PaintRightNephew(w.right, false, d, t);
      SeenUp(ends, Snap(), Settling(c), t);
      LeftRotateAt(p, c.up, Join(Settling(c), t));
    }

    method SettleRight(p: IntervalTreeNode, w: IntervalTreeNode, ghost c: Ctx, ghost t: Tree)
      requires At(c, t) && c.InRight? && Sibling(c).Node? && Far(c).Node? && p == c.n && w == Sibling(c).n
          && w.left == Far(c).n
      requires p.red == c.red
      modifies repr
      ensures At(c.up, Settled(c, t))
    {
      NodesInRepr(c, t);
      ghost var s := Sibling(c);
      PaintSibling(w, p.red, c, t);
      ghost var d := WithSibling(c, Painted(s, c.red));
      PaintParent(p, false, d, t);
      d := CtxPainted(d, false);
      PaintLeftNephew(w.left, false, d, t);
      SeenUp(ends, Snap(), Settling(c), t);
      RightRotateAt(p, c.up, Join(Settling(c), t));
    }

    // x is the node (or nil) below which a black node is missing.
    ghost predicate Deficit(x: IntervalTreeNode, c: Ctx, t: Tree, h: int)
      reads this`repr, repr, root, nil
    {
      At(c, t) && DeleteInv(c, t, h) && x == Ptr(ends, t) && (t.Leaf? ==> nil.parent == ParentOf(ends, c))
    }

    // `top` was topmost when the fix-up began, and still is as long as it goes on.
    ghost predicate Topmost(x: IntervalTreeNode, top: IntervalTreeNode, c: Ctx) {
      top == if c.Top? then x else Outermost(c)
    }

    // A fix-up that restored the balance by a rotation ends with x at the old topmost node.
    ghost predicate Balanced(x: IntervalTreeNode, top: IntervalTreeNode, c: Ctx, t: Tree)
      reads this`repr, repr, root, nil, top
    {
      x == top && At(c, t) && RedBlack(Plug(c, t)) && MaxOK(Plug(c, t)) && top in repr && !top.red
    }

    lemma Family(x: IntervalTreeNode, c: Ctx, t: Tree, h: int)
      requires Deficit(x, c, t, h) && !c.Top?
      ensures x.parent == c.n && c.n in repr && (c.n.left == x <==> c.InLeft?) && c.n.red == c.red
      ensures Sibling(c).Node? && Sibling(c).n in repr && Sibling(c).n.red == Sibling(c).red
      ensures (if c.InLeft? then c.n.right else c.n.left) == Sibling(c).n
      ensures Sibling(c).n.left == Ptr(ends, Sibling(c).left) && Sibling(c).n.right == Ptr(ends, Sibling(c).right)
      ensures Sibling(c).n.left.red == IsRed(Sibling(c).left) && Sibling(c).n.right.red == IsRed(Sibling(c).right)
    {
      SiblingNode(c, t, h);
      SeenSide(ends, Snap(), c, t);
      NodesInRepr(c, t);
      SeenAcross(ends, Snap(), c, t);
      var s := Sibling(c);
      assert Linked(ends, Snap(), s.left, s.n) && Linked(ends, Snap(), s.right, s.n);
    }

    // The topmost node is black again after a rotation at c.n.
    lemma TopBlack(top: IntervalTreeNode, c: Ctx, t: Tree)
      requires !c.Top? && Sibling(c).Node? && Far(c).Node? && At(c.up, Settled(c, t))
      requires RedBlack(Plug(c.up, Settled(c, t))) && (top == c.n || top == Outermost(c))
      ensures top in repr && !top.red
    {
      NodesInRepr(c.up, Settled(c, t));
      var r := Settled(c, t);
      var h := RedBlackUnplug(c.up, r);
      if top == c.n {
        assert Linked(ends, Snap(), r.left, r.n) && Linked(ends, Snap(), r.right, r.n);
      } else {
        OutermostBlack(ends, Snap(), c.up, r.n, IsRed(r));
      }
    }

    // One round at a left child with a black sibling.
    method FixupLeft(x: IntervalTreeNode, top: IntervalTreeNode, ghost c0: Ctx, ghost t0: Tree, ghost h0: int)
      returns (x': IntervalTreeNode, ghost c: Ctx, ghost t: Tree, ghost h: int, ghost done: bool)
      requires Deficit(x, c0, t0, h0) && !IsRed(t0) && c0.InLeft? && !IsRed(Sibling(c0))
      requires top == c0.n || top == Outermost(c0)
      modifies repr
      ensures InOrder(Plug(c, t)) == InOrder(Plug(c0, t0))
      ensures !done ==> Deficit(x', c, t, h) && c == c0.up && IsRed(t) == c0.red && x' == c0.n
      ensures done ==> Balanced(x', top, c, t)
    {
      x', c, t, h := x, c0, t0, h0;
      Family(x, c, t, h);
      var w := x.parent.right;
      if !w.right.red && !w.left.red {
        PushedInv(c, t, h);
        PushedSame(c, t);
        PaintSibling(w, true, c, t);
        SeenUp(ends, Snap(), WithSibling(c, Painted(Sibling(c), true)), t);
        x' := x.parent;
        c, t, h := c.up, Pushed(c, t), h + Black(c.red);
        done := false;
      } else {
        if !w.right.red {
          TurnedInv(c, t, h);
          TurnedSame(c, t);
          TurnLeft(w, c, t);
          c := Turned(c);
          Family(x, c, t, h);
          w := x.parent.right;
        }
        SettledInv(c, t, h);
        SettledSame(c, t);
        SettleLeft(x.parent, w, c, t);
        TopBlack(top, c, t);
        c, t := c.up, Settled(c, t);
        x' := top;
        done := true;
      }
    }

    method FixupRight(x: IntervalTreeNode, top: IntervalTreeNode, ghost c0: Ctx, ghost t0: Tree, ghost h0: int)
      returns (x': IntervalTreeNode, ghost c: Ctx, ghost t: Tree, ghost h: int, ghost done: bool)
      requires Deficit(x, c0, t0, h0) && !IsRed(t0) && c0.InRight? && !IsRed(Sibling(c0))
      requires top == c0.n || top == Outermost(c0)
      modifies repr
      ensures InOrder(Plug(c, t)) == InOrder(Plug(c0, t0))
      ensures !done ==> Deficit(x', c, t, h) && c == c0.up && IsRed(t) == c0.red && x' == c0.n
      ensures done ==> Balanced(x', top, c, t)
    {
      x', c, t, h := x, c0, t0, h0;
      Family(x, c, t, h);
      var w := x.parent.left;
      if !w.right.red && !w.left.red {
        PushedInv(c, t, h);
        PushedSame(c, t);
        PaintSibling(w, true, c, t);
        SeenUp(ends, Snap(), WithSibling(c, Painted(Sibling(c), true)), t);
        x' := x.parent;
        c, t, h := c.up, Pushed(c, t), h + Black(c.red);
        done := false;
      } else {
        if !w.left.red {
          TurnedInv(c, t, h);
          TurnedSame(c, t);
          TurnRight(w, c, t);
          c := Turned(c);
          Family(x, c, t, h);
          w := x.parent.left;
        }
        SettledInv(c, t, h);
        SettledSame(c, t);
        SettleRight(x.parent, w, c, t);
        TopBlack(top, c, t);
        c, t := c.up, Settled(c, t);
        x' := top;
        done := true;
      }
    }

    // One round of the loop, on whichever side x hangs.
    method DeleteFixupStep(x: IntervalTreeNode, top: IntervalTreeNode, ghost c0: Ctx, ghost t0: Tree, ghost h0: int)
      returns (x': IntervalTreeNode, ghost c: Ctx, ghost t: Tree, ghost h: int, ghost done: bool)
      requires Deficit(x, c0, t0, h0) && !IsRed(t0) && !c0.Top? && top == Outermost(c0)
      modifies repr
      ensures InOrder(Plug(c, t)) == InOrder(Plug(c0, t0))
      ensures !done ==> Deficit(x', c, t, h) && (IsRed(t) || (Topmost(x', top, c) && Depth(c) < Depth(c0)))
      ensures done ==> Balanced(x', top, c, t)
    {
      c, t, h := c0, t0, h0;
      Family(x, c, t, h);
      if x == x.parent.left {
        var w := x.parent.right;
        if w.red {
          LoweredInv(c, t, h);
          LoweredSame(c, t);
          LowerLeft(x.parent, w, c, t);
          c := Lowered(c, t);
        }
        x', c, t, h, done := FixupLeft(x, top, c, t, h);
      } else {
        var w := x.parent.left;
        if w.red {
          LoweredInv(c, t, h);
          LoweredSame(c, t);
          LowerRight(x.parent, w, c, t);
          c := Lowered(c, t);
        }
        x', c, t, h, done := FixupRight(x, top, c, t, h);
      }
    }

    method DeleteFixup(x0: IntervalTreeNode, ghost c0: Ctx, ghost t0: Tree, ghost h0: int) returns (ghost u: Tree)
      requires Deficit(x0, c0, t0, h0)
      modifies repr, nil
      ensures At(Top, u) && RedBlack(u) && MaxOK(u) && InOrder(u) == InOrder(Plug(c0, t0))
    {
      var x := x0;
      var root_left_node := root.left;
      ghost var c, t, h, done := c0, t0, h0, false;
      RootLeft(c, t);
      while !x.red && root_left_node != x
        invariant !done ==> Deficit(x, c, t, h) && (IsRed(t) || Topmost(x, root_left_node, c))
        invariant done ==> Balanced(x, root_left_node, c, t)
        invariant InOrder(Plug(c, t)) == InOrder(Plug(c0, t0))
        decreases if done || IsRed(t) then 0 else 1 + Depth(c)
      {
        x, c, t, h, done := DeleteFixupStep(x, root_left_node, c, t, h);
      }
      if !done && !c.Top? {
        OutermostBlack(ends, Snap(), c, Ptr(ends, t), false);
      }
      u := FinishDelete(x, c, t, h, done);
    }

    method FinishDelete(x: IntervalTreeNode, ghost c: Ctx, ghost t: Tree, ghost h: int, ghost done: bool)
        returns (ghost u: Tree)
      requires done ==> Balanced(x, x, c, t)
      requires !done ==> Deficit(x, c, t, h) && (IsRed(t) || c.Top?)
      modifies repr, nil
      ensures At(Top, u) && RedBlack(u) && MaxOK(u) && InOrder(u) == InOrder(Plug(c, t))
    {
      ghost var snap := Snap();
      x.red := false;
      if done {
        u := Plug(c, t);
        assert Snap() == snap;
        SeenTop(ends, snap, c, t);
      } else {
        u := Plug(c, Blackened(t));
        BlackenedOK(c, t, h);
        if t.Node? {
          TopWritten(ends, snap, Snap(), c, t, Painted(t, false));
        } else {
          assert Snap() == snap;
        }
        SeenTop(ends, Snap(), c, Blackened(t));
      }
    }

    // The topmost node hangs left of the root sentinel.
    lemma RootLeft(c: Ctx, t: Tree)
      requires At(c, t)
      ensures root.left == if c.Top? then Ptr(ends, t) else Outermost(c)
    {
      CtxRootLeft(ends, Snap(), c, Ptr(ends, t));
    }

    // ---------- deletion ----------

    method GetMinimum(x0: IntervalTreeNode, ghost c: Ctx, ghost t: Tree)
      returns (x: IntervalTreeNode, ghost p: Ctx, ghost u: Tree)
      requires At(c, t) && t.Node? && x0 == t.n
      ensures At(Append(p, c), u) && Leftmost(p) && Plug(p, u) == t && u.Node? && u.left.Leaf? && x == u.n
    {
      x, p, u := x0, Top, t;
      ghost var h := Snap();
      while x.left != nil
        invariant Seen(ends, h, Append(p, c), u) && Leftmost(p) && Plug(p, u) == t && u.Node? && x == u.n
        decreases u
      {
        SeenLeft(ends, h, Append(p, c), u);
        x := x.left;
        p, u := InLeft(u.n, u.red, u.max, u.right, p), u.left;
      }
    }

    // y, which has at most one child, is taken out; x is that child or nil.
    method Splice(y: IntervalTreeNode, x: IntervalTreeNode, ghost c: Ctx, ghost t: Tree)
      requires At(c, t) && t.Node? && (t.left.Leaf? || t.right.Leaf?) && y == t.n && x == Ptr(ends, OnlyChild(t))
      modifies repr, nil
      ensures At(c, OnlyChild(t)) && x.parent == ParentOf(ends, c)
      ensures y.red == t.red
    {
      hide Linked, CtxLinked, Apart, CtxApart, Stores;
      ghost var h := Snap();
      NodesInRepr(c, t);
      SpliceParts(c, t);
      x.parent := y.parent;
      if root == x.parent {
        root.left := x;
      } else {
        if y == y.parent.left {
          y.parent.left := x;
        } else {
          y.parent.right := x;
        }
      }
      SplicedSeen(ends, h, Snap(), c, t);
    }

    lemma SpliceParts(c: Ctx, t: Tree)
      requires At(c, t) && t.Node? && (t.left.Leaf? || t.right.Leaf?)
      ensures var y, x, p := t.n, OnlyChild(t), ParentOf(ends, c);
        && y.parent == p && p != y && p in repr && p != nil && Ptr(ends, x) != y && Ptr(ends, x) != p
        && (p.left == y <==> !c.InRight?) && (x.Node? ==> x.n in repr) && (p == root <==> c.Top?) && y.red == t.red
    {
      var x := OnlyChild(t);
      assert Linked(ends, Snap(), x, t.n) && (x.Node? ==> x.n in Nodes(x));
      NodesInRepr(c, t);
      if !c.Top? {
        assert c.n in CtxNodes(c);
        SeenSide(ends, Snap(), c, t);
      }
    }

    // The node after x in key order; after the last one, the root sentinel.
    method GetSuccessor(x0: IntervalTreeNode, ghost c0: Ctx, ghost t0: Tree)
      returns (y: IntervalTreeNode, ghost p: Ctx, ghost u: Tree)
      requires At(c0, t0) && t0.Node? && x0 == t0.n
      ensures y == FirstOr(InOrder(t0.right) + After(c0), root)
      ensures t0.right.Node? ==>
        && At(Append(p, InRight(t0.left, x0, t0.red, t0.max, c0)), u)
        && Leftmost(p) && Plug(p, u) == t0.right && u.Node? && u.left.Leaf? && y == u.n
    {
      p, u := Top, Leaf;
      if nil != x0.right {
        ghost var d := InRight(t0.left, x0, t0.red, t0.max, c0);
        SeenRight(ends, Snap(), c0, t0);
        y, p, u := GetMinimum(x0.right, d, t0.right);
        LeftmostFirst(p, u);
      } else {
        var x := x0;
        ghost var c, t := c0, t0;
        y := x.parent;
        while y != nil && x == y.right
          invariant At(c, t) && t.Node? && x == t.n && y == ParentOf(ends, c) && After(c) == After(c0)
          decreases c
        {
          NextUp(c, t);
          c, t := c.up, Join(c, t);
          x := y;
          y := y.parent;
        }
        NextUp(c, t);
      }
    }

    lemma NextUp(c: Ctx, t: Tree)
      requires At(c, t) && t.Node?
      ensures ParentOf(ends, c).right == t.n <==> c.InRight?
      ensures !c.Top? ==> At(c.up, Join(c, t)) && c.n.parent == ParentOf(ends, c.up)
      ensures c.InRight? ==> After(c) == After(c.up)
      ensures !c.InRight? ==> FirstOr(After(c), root) == ParentOf(ends, c)
    {
      if !c.Top? {
        SeenSide(ends, Snap(), c, t);
        SeenUp(ends, Snap(), c, t);
      }
    }

    // y takes over the links to and from z, which has a left child.
    method TakeLinks(z: IntervalTreeNode, y: IntervalTreeNode)
      requires root in repr && nil !in repr && z in repr && y in repr && z.parent in repr && z.left in repr
      requires z.right in repr + {nil}
      requires z != y && z.parent !in {z, y, z.left, z.right} && z.left !in {z, y, z.right} && z.right !in {z, y}
      modifies repr, nil
      ensures var l, r, p := old(z.left), old(z.right), old(z.parent);
        && y.left == l && y.right == r && y.parent == p && y.red == old(y.red) && y.max_high == -MAX_TIME
        && (if old(p.left) == z then p.left == y && p.right == old(p.right) else p.left == old(p.left) && p.right == y)
        && p.parent == old(p.parent) && p.red == old(p.red) && p.max_high == old(p.max_high)
        && l.left == old(l.left) && l.right == old(l.right) && l.parent == y && l.red == old(l.red)
            && l.max_high == old(l.max_high)
        && r.left == old(r.left) && r.right == old(r.right) && r.parent == y && r.red == old(r.red)
            && r.max_high == old(r.max_high)
        && (r != nil ==> nil.parent == old(nil.parent) && nil.red == old(nil.red) && nil.max_high == old(nil.max_high))
        && forall n :: n in repr - {y, p, l, r} ==>
             n.left == old(n.left) && n.right == old(n.right) && n.parent == old(n.parent)
             && n.red == old(n.red) && n.max_high == old(n.max_high)
    {
      y.max_high := -MAX_TIME;
      y.left := z.left;
      y.right := z.right;
      y.parent := z.parent;
      z.right.parent := y;
      z.left.parent := y;
      if z == z.parent.left {
        z.parent.left := y;
      } else {
        z.parent.right := y;
      }
    }

    // y, which is not in the tree, takes the place of its node z, which has a left child.
    method TakeSeat(z: IntervalTreeNode, y: IntervalTreeNode, ghost c: Ctx, ghost t: Tree)
      requires At(c, t) && t.Node? && t.left.Node? && z == t.n
      requires y in repr && y !in Nodes(t) && y !in CtxNodes(c) && y != root && Stores(y)
      modifies repr, nil
      ensures At(c, Renamed(t, y, old(y.red), -MAX_TIME))
      ensures nil.parent == if t.right.Leaf? then y else old(nil.parent)
      ensures z.red == t.red && y.red == old(y.red)
    {
      ghost var h := Snap();
      SeatParts(c, t);
      assert y !in {t.left.n, Ptr(ends, t.right), ParentOf(ends, c)};
      TakeLinks(z, y);
      RenamedSeen(ends, h, Snap(), c, t, y);
    }

    lemma SeatParts(c: Ctx, t: Tree)
      requires At(c, t) && t.Node? && t.left.Node?
      ensures var z, l, r, p := t.n, t.left, t.right, ParentOf(ends, c);
        && z in repr && z.left == l.n && z.right == Ptr(ends, r) && z.parent == p && p in repr && l.n in repr
            && z.red == t.red
        && (r.Node? ==> r.n in repr && r.n != p && r.n != z && r.n != l.n)
        && p != z && p != l.n && l.n != z && (p.left == z <==> !c.InRight?)
    {
      var l, r := t.left, t.right;
      assert l.n in Nodes(l) && (r.Node? ==> r.n in Nodes(r));
      NodesInRepr(c, t);
      if !c.Top? {
        assert c.n in CtxNodes(c);
        SeenSide(ends, Snap(), c, t);
      }
    }

    // The node y with at most one child leaves the tree for good.
    method RemoveThin(y: IntervalTreeNode, x: IntervalTreeNode, ghost c: Ctx, ghost t: Tree) returns (ghost u: Tree)
      requires At(c, t) && t.Node? && (t.left.Leaf? || t.right.Leaf?) && y == t.n && x == Ptr(ends, OnlyChild(t))
      requires RedBlack(Plug(c, t)) && MaxOK(Plug(c, t))
      modifies repr, nil
      ensures At(Top, u) && RedBlack(u) && MaxOK(u)
      ensures InOrder(u) == Before(c) + InOrder(OnlyChild(t)) + After(c)
    {
      ghost var h := SplicedInv(c, t);
      Splice(y, x, c, t);
      ghost var v := OnlyChild(t);
      FixupMaxHigh(x.parent, c, v);
      SplicedFix(c, v, t.red, h);
      ghost var d := Refreshed(c, MaxOf(v));
      if !y.red {
        u := DeleteFixup(x, d, v, h);
      } else {
        u := Plug(d, v);
        SeenTop(ends, Snap(), d, v);
      }
    }

    // The successor y of z, at the left end of z's right subtree, is spliced out there ...
    method SpliceSuccessor(y: IntervalTreeNode, x: IntervalTreeNode, ghost p: Ctx, ghost f: Ctx, ghost t: Tree)
      requires At(Append(p, f), t) && t.Node? && t.left.Leaf? && f.InRight? && y == t.n && x == Ptr(ends, t.right)
      modifies repr, nil
      ensures At(f.up, Join(f, Plug(p, t.right))) && x.parent == ParentOf(ends, Append(p, f)) && y.red == t.red
    {
      Splice(y, x, Append(p, f), t);
      SeenUpPath(ends, Snap(), p, f, t.right);
      SeenUp(ends, Snap(), f, Plug(p, t.right));
    }

    // ... and takes z's place.
    method SeatSuccessor(z: IntervalTreeNode, y: IntervalTreeNode, ghost p: Ctx, ghost f: Ctx, ghost x: Tree)
      requires f.InRight? && f.left.Node? && z == f.n && At(f.up, Join(f, Plug(p, x)))
      requires y in repr && y !in Nodes(Join(f, Plug(p, x))) && y !in CtxNodes(f.up) && y != root && Stores(y)
      requires x.Leaf? ==> nil.parent == ParentOf(ends, Append(p, f))
      modifies repr, nil
      ensures var d := Reseated(p, f.left, y, old(y.red), -MAX_TIME, f.up);
        && At(d, x) && z.red == f.red && y.red == old(y.red) && Ptr(ends, x).parent == ParentOf(ends, d)
    {
      ghost var r, g := Join(f, Plug(p, x)), InRight(f.left, y, y.red, -MAX_TIME, f.up);
      TakeSeat(z, y, f.up, r);
      SeenRight(ends, Snap(), f.up, Renamed(r, y, g.red, -MAX_TIME));
      SeenDownPath(ends, Snap(), p, g, x);
      PlugNode(p, x);
    }

    // y, an ancestor of the hole, gets z's colour.
    method PaintOnPath(y: IntervalTreeNode, red: bool, ghost c: Ctx, ghost t: Tree)
      requires At(c, t) && OnPath(c, y)
      modifies y`red
      ensures At(Recolour(c, y, red), t)
    {
      hide Linked, CtxLinked, Apart, CtxApart, Stores;
      ghost var h := Snap();
      OnPathNode(c, y);
      NodesInRepr(c, t);
      y.red := red;
      PathRedSeen(ends, h, Snap(), c, t, y, red);
    }

    method ReplaceBySuccessor(z: IntervalTreeNode, y: IntervalTreeNode, x: IntervalTreeNode,
                              ghost p: Ctx, ghost f: Ctx, ghost t: Tree)
      requires At(Append(p, f), t) && f.InRight? && f.left.Node? && t.Node? && t.left.Leaf?
      requires z == f.n && y == t.n && x == Ptr(ends, t.right)
      modifies repr, nil
      ensures var d := Reseated(p, f.left, y, t.red, -MAX_TIME, f.up);
        At(d, t.right) && x.parent == ParentOf(ends, d) && z.red == f.red && y.red == t.red
    {
      SpliceOutside(ends, p, f.left, z, f.red, f.max, f.up, t, t.right);
      NodesInRepr(Append(p, f), t);
      SpliceSuccessor(y, x, p, f, t);
      SeatSuccessor(z, y, p, f, t.right);
    }

    method RemoveBySuccessor(z: IntervalTreeNode, y: IntervalTreeNode, x: IntervalTreeNode,
                             ghost p: Ctx, ghost f: Ctx, ghost t: Tree) returns (ghost u: Tree)
      requires f.InRight? && f.left.Node? && Leftmost(p) && t.Node? && t.left.Leaf? && At(Append(p, f), t)
      requires z == f.n && y == t.n && x == Ptr(ends, t.right)
      requires RedBlack(Plug(Append(p, f), t)) && MaxOK(Plug(Append(p, f), t))
      modifies repr, nil
      ensures At(Top, u) && RedBlack(u) && MaxOK(u)
      ensures InOrder(u) == Before(f.up) + InOrder(f.left) + [y] + InOrder(t.right) + After(Append(p, f))
    {
      hide RedBlack, MaxOK, Linked, CtxLinked, Stores;
      SpliceOutside(ends, p, f.left, z, f.red, f.max, f.up, t, t.right);
      ghost var h := ReseatedFix(p, f.left, z, f.red, f.max, f.up, t);
      ReplaceBySuccessor(z, y, x, p, f, t);
      ghost var d := Reseated(p, f.left, y, t.red, -MAX_TIME, f.up);
      FixupMaxHigh(x.parent, d, t.right);
      u := FinishSuccessor(x, y, z.red, Refreshed(d, MaxOf(t.right)), t.right, h);
    }

    method FinishSuccessor(x: IntervalTreeNode, y: IntervalTreeNode, red: bool, ghost d: Ctx, ghost v: Tree,
        ghost h: int)
      returns (ghost u: Tree)
      requires At(d, v) && OnPath(d, y) && x == Ptr(ends, v) && x.parent == ParentOf(ends, d)
      requires y.red ==> RedBlack(Plug(Recolour(d, y, red), v)) && MaxOK(Plug(Recolour(d, y, red), v))
      requires !y.red ==> DeleteInv(Recolour(d, y, red), v, h)
      modifies repr, nil
      ensures At(Top, u) && RedBlack(u) && MaxOK(u) && InOrder(u) == InOrder(Plug(Recolour(d, y, red), v))
    {
      OnPathNode(d, y);
      NodesInRepr(d, v);
      ghost var f := Recolour(d, y, red);
      if !y.red {
        PaintOnPath(y, red, d, v);
        u := DeleteFixup(x, f, v, h);
      } else {
        PaintOnPath(y, red, d, v);
        u := Plug(f, v);
        SeenTop(ends, Snap(), f, v);
      }
    }

    method DeleteNode(z: IntervalTreeNode) returns (node_to_delete: Interval)
      requires Valid() && z in Nodes(tree)
      modifies this`tree, repr, nil
      ensures Valid() && node_to_delete == z.stored && RemovedFrom(InOrder(old(tree)), InOrder(tree), z)
    {
      ghost var c, t := Locate(Top, tree, z);
      SeenDown(ends, Snap(), c, t);
      node_to_delete := z.stored;
      ghost var u := DeleteAt(z, c, t);
      SetTree(u);
    }

    method DeleteAt(z: IntervalTreeNode, ghost c: Ctx, ghost t: Tree) returns (ghost u: Tree)
      requires At(c, t) && t.Node? && z == t.n
      requires RedBlack(Plug(c, t)) && MaxOK(Plug(c, t)) && Sorted(InOrder(Plug(c, t)))
      modifies repr, nil
      ensures At(Top, u) && RedBlack(u) && MaxOK(u) && Sorted(InOrder(u))
          && RemovedFrom(InOrder(Plug(c, t)), InOrder(u), z)
    {
      hide RedBlack, MaxOK, Sorted, CtxLinked;
      ghost var p, v := Top, t;
      var y := z;
      if z.left != nil && z.right != nil {
        y, p, v := GetSuccessor(z, c, t);
      }
      var x := if y.left == nil then y.right else y.left;
      if y != z {
        PlugAppend(p, InRight(t.left, z, t.red, t.max, c), v);
        ReseatOrder(p, t.left, z, t.red, t.max, c, v);
        u := RemoveBySuccessor(z, y, x, p, InRight(t.left, z, t.red, t.max, c), v);
      } else {
        SpliceOrder(c, t);
        u := RemoveThin(y, x, c, t);
      }
    }

    // ---------- deletion by interval ----------

    // Depth first, the first node that stores ivl; nil if there is none.
    method RecursiveSearch(node: IntervalTreeNode, ivl: Interval, ghost t: Tree, ghost p: IntervalTreeNode)
      returns (r: IntervalTreeNode)
      requires Sentinels() && Linked(ends, Snap(), t, p) && node == Ptr(ends, t) && nil !in Nodes(t)
      ensures r != nil ==> r in Nodes(t) && r.stored == ivl
      ensures r == nil ==> NotStored(InOrder(t), ivl)
      decreases t
    {
      if node != nil {
        if node.stored == ivl {
          return node;
        }
        var left := RecursiveSearch(node.left, ivl, t.left, t.n);
        if left != nil {
          return left;
        }
        var right := RecursiveSearch(node.right, ivl, t.right, t.n);
        if right != nil {
          return right;
        }
      }
      return nil;
    }

    ghost predicate NotStored(s: seq<IntervalTreeNode>, ivl: Interval) {
      forall i :: 0 <= i < |s| ==> s[i].stored != ivl
    }

    // Removes the first node that stores this very interval; without one, nothing changes.
    // The search starts at the root sentinel, which stores nothing and has the tree on its left.
    method DeleteInterval(ivl: Interval) returns (ghost found: bool, ghost z: IntervalTreeNode)
      requires Valid()
      modifies this`tree, repr, nil
      ensures Valid()
      ensures found ==> z.stored == ivl && RemovedFrom(InOrder(old(tree)), InOrder(tree), z)
      ensures !found ==> tree == old(tree) && NotStored(InOrder(tree), ivl)
    {
      ghost var h := Snap();
      assert h[root] == Fields(Ptr(ends, tree), nil, nil, false, MAX_TIME);
      var node := RecursiveSearch(root.left, ivl, tree, root);
      if node == nil {
        node := RecursiveSearch(root.right, ivl, Leaf, root);
      }
      z, found := node, node != nil;
      if node != nil {
        var _ := DeleteNode(node);
      }
    }

    // ---------- queries ----------

    // The array holds the frames of st above its bottom entry, each under its parent.
    ghost predicate OnStack(st: seq<Frame>)
      reads this`recursionNodeStack, this`recursionNodeStackTop
    {
      && Frames(st) && recursionNodeStackTop == |st| + 1 <= |recursionNodeStack|
      && forall i :: 0 <= i < |st| ==> recursionNodeStack[i + 1] == RecursionNode(st[i].tree.n, i, st[i].flagged)
    }

    method Raise(ghost st: seq<Frame>)
      requires OnStack(st) && currentParent == |st|
      modifies this`recursionNodeStack
      ensures OnStack(Flagged(st))
    {
      recursionNodeStack := recursionNodeStack[
        currentParent := recursionNodeStack[currentParent].(tryRightBranch := true)];
    }

    method Push(x: IntervalTreeNode, ghost t: Tree, ghost st: seq<Frame>)
      requires OnStack(st) && currentParent == |st| && t.Node? && x == t.n
      modifies this`recursionNodeStack, this`recursionNodeStackTop, this`currentParent
      ensures OnStack(st + [Frame(t, false)]) && currentParent == |st| + 1
    {
      if recursionNodeStackTop == |recursionNodeStack| {
        recursionNodeStack := recursionNodeStack + seq(|recursionNodeStack|, _ => RecursionNode(null, 0, false));
      }
      recursionNodeStack := recursionNodeStack[recursionNodeStackTop := RecursionNode(x, currentParent, false)];
      currentParent := recursionNodeStackTop;
      recursionNodeStackTop := recursionNodeStackTop + 1;
    }

    // One node of the walk: report it if it overlaps, then go left or right.
    method Step(x: IntervalTreeNode, low: int, high: int, ghost h: Heap, ghost t: Tree, ghost st: seq<Frame>)
      returns (hit: seq<Interval>, x': IntervalTreeNode, ghost t': Tree, ghost st': seq<Frame>)
      requires OnStack(st) && currentParent == |st| && t.Node? && x == t.n
      requires Sentinels() && h == Snap() && InHeap(ends, h, t)
      modifies this`recursionNodeStack, this`recursionNodeStackTop, this`currentParent
      ensures OnStack(st') && currentParent == |st'| && x' == Ptr(ends, t') && Stepped(t, st, low, high, hit, t', st')
    {
      InHeapParts(ends, h, t);
      hit, st' := [], st;
      if Overlap(low, high, x.key, x.high) {
        hit := [x.stored];
        Raise(st);
        st' := Flagged(st);
      }
      if x.left.max_high >= low {
        Push(x, t, st');
        x' := x.left;
        t', st' := t.left, st' + [Frame(t, false)];
      } else {
        x' := x.right;
        t' := t.right;
      }
    }

    // A finished branch is left; its right-hand neighbour is tried if the flag is up.
    method Pop(ghost h: Heap, ghost st: seq<Frame>)
      returns (x': IntervalTreeNode, run: bool, ghost t': Tree, ghost st': seq<Frame>)
      requires OnStack(st) && st != [] && h == Snap() && Walking(ends, h, Leaf, st)
      modifies this`recursionNodeStack, this`recursionNodeStackTop, this`currentParent
      ensures OnStack(st') && x' == Ptr(ends, t') && run == (x' != nil) && (run ==> currentParent == |st'|)
      ensures Popped(st, t', st')
    {
      x', run, t', st' := nil, false, Leaf, st[..|st| - 1];
      InHeapParts(ends, h, st[|st| - 1].tree);
      recursionNodeStackTop := recursionNodeStackTop - 1;
      var top := recursionNodeStack[recursionNodeStackTop];
      if top.tryRightBranch {
        x' := top.startNode.right;
        currentParent := top.parentIndex;
        Raise(st');
        t', st' := st[|st| - 1].tree.right, Flagged(st');
        run := x' != nil;
      }
    }

    // Finished branches are left until a right branch is worth trying.
    method Unwind(x: IntervalTreeNode, low: int, high: int, ghost h: Heap, ghost t: Tree, ghost st: seq<Frame>)
      returns (x': IntervalTreeNode, run: bool, ghost t': Tree, ghost st': seq<Frame>)
      requires OnStack(st) && h == Snap() && Walking(ends, h, t, st) && x == Ptr(ends, t) && currentParent == |st|
      modifies this`recursionNodeStack, this`recursionNodeStackTop, this`currentParent
      ensures OnStack(st') && Walking(ends, h, t', st') && x' == Ptr(ends, t') && run == (x' != nil)
      ensures if run then currentParent == |st'| else st' == []
      ensures Ahead(t, st, low, high) == Ahead(t', st', low, high) && Left(t', st') <= Left(t, st)
    {
      x', t', st' := x, t, st;
      run := x' != nil;
      while !run && recursionNodeStackTop > 1
        invariant OnStack(st') && Walking(ends, h, t', st') && x' == Ptr(ends, t') && run == (x' != nil)
        invariant run ==> currentParent == |st'|
        invariant Ahead(t, st, low, high) == Ahead(t', st', low, high) && Left(t', st') <= Left(t, st)
        decreases recursionNodeStackTop
      {
        ghost var was := st';
        x', run, t', st' := Pop(h, st');
        PoppedOK(ends, h, was, low, high, t', st');
      }
    }

    method Query(low: Time, high: Time) returns (result: seq<Interval>)
      requires Valid() && StackReady()
      modifies this`recursionNodeStack, this`recursionNodeStackTop, this`currentParent
      ensures StackReady() && result == Visit(tree, low, high)
      ensures low > -MAX_TIME && Proper(InOrder(tree)) ==> result == Hits(PreOrder(tree), low, high)
    {
      currentParent := 0;
      ghost var h := Snap();
      assert h[root].left == Ptr(ends, tree);
      assert tree.Node? ==> h[tree.n].parent == root && tree.n in Nodes(tree);
      result := Walk(root.left, low, high, h, tree);
      if low > -MAX_TIME && Proper(InOrder(tree)) {
        VisitIsScan(tree, low, high);
      }
    }

    method Walk(x0: IntervalTreeNode, low: int, high: int, ghost h: Heap, ghost t0: Tree)
        returns (result: seq<Interval>)
      requires StackReady() && currentParent == 0 && Sentinels() && h == Snap() && InHeap(ends, h, t0)
          && x0 == Ptr(ends, t0)
      modifies this`recursionNodeStack, this`recursionNodeStackTop, this`currentParent
      ensures StackReady() && result == Visit(t0, low, high)
    {
      AheadAlone(t0, low, high);
      hide Visit, Resume, Ahead;
      result := [];
      var x := x0;
      var run := x != nil;
      ghost var t, st := t0, [];
      while run
        invariant OnStack(st) && Walking(ends, h, t, st) && x == Ptr(ends, t) && run == (x != nil)
        invariant if run then currentParent == |st| else st == []
        invariant result + Ahead(t, st, low, high) == Visit(t0, low, high)
        decreases Left(t, st)
      {
        var hit;
        ghost var t1, st1 := t, st;
        hit, x, t, st := Step(x, low, high, h, t, st);
        SteppedOK(ends, h, t1, st1, low, high, hit, t, st);
        Associative(result, hit, Ahead(t, st, low, high));
        result := result + hit;
        x, run, t, st := Unwind(x, low, high, h, t, st);
      }
    }
  }
}
