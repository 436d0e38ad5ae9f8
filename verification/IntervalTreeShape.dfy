/**
 * The pure side of the interval tree: the shape of a red-black tree of nodes, the
 * path from a node up to the root (a zipper context), and the invariants of both.
 * Node objects occur here only as identities; their link, colour and maximum fields
 * live in the heap and are tied to these values in IntervalTrees.
 */
module IntervalTreeShape {
  import opened Basics

  // The largest simulation time, in ticks of the signed 64-bit clock.
  const MAX_TIME: int := 0x7FFF_FFFF_FFFF_FFFF

  type Time = t: int | -MAX_TIME <= t <= MAX_TIME

  // A closed interval of simulation times. Identity matters: deletion is by pointer.
  class Interval {
    const low: Time
    const high: Time

    constructor (low: Time, high: Time)
      ensures this.low == low && this.high == high
    {
      this.low, this.high := low, high;
    }
  }

  // A node of the tree, or one of its two sentinels (which store no interval).
  class IntervalTreeNode {
    const stored: Interval?
    const key: Time
    const high: Time
    var max_high: int
    var red: bool
    var left: IntervalTreeNode
    var right: IntervalTreeNode
    var parent: IntervalTreeNode

    constructor Sentinel(bound: Time)
      ensures stored == null && key == high == max_high == bound
      ensures !red && left == right == parent == this
    {
      stored, key, high, max_high := null, bound, bound, bound;
      red := false;
      left, right, parent := this, this, this;
    }

    constructor Store(interval: Interval)
      ensures stored == interval && key == interval.low && high == max_high == interval.high
      ensures !red
    {
      stored, key, high, max_high := interval, interval.low, interval.high, interval.high;
      red := false;
      left, right, parent := this, this, this;
    }
  }

  // The fields of one node that the tree rewrites, and a snapshot of many.
  datatype Fields = Fields(left: IntervalTreeNode, right: IntervalTreeNode, parent: IntervalTreeNode,
                           red: bool, max: int)
  type Heap = map<IntervalTreeNode, Fields>

  // The two sentinels: nil stands for every leaf, root hangs above the tree.
  datatype Ends = Ends(root: IntervalTreeNode, nil: IntervalTreeNode)

  datatype Tree =
    | Leaf
    | Node(left: Tree, n: IntervalTreeNode, red: bool, max: int, right: Tree)

  // The surroundings of a subtree: the nodes above it, innermost first, each with the
  // subtree on its other side.
  datatype Ctx =
    | Top
    | InLeft(n: IntervalTreeNode, red: bool, max: int, right: Tree, up: Ctx)
    | InRight(left: Tree, n: IntervalTreeNode, red: bool, max: int, up: Ctx)

  function Plug(c: Ctx, t: Tree): Tree {
    match c
    case Top => t
    case InLeft(n, red, max, r, up) => Plug(up, Node(t, n, red, max, r))
    case InRight(l, n, red, max, up) => Plug(up, Node(l, n, red, max, t))
  }

  function Depth(c: Ctx): nat {
    if c.Top? then 0 else 1 + Depth(c.up)
  }

  // The node at the far end of a context, just below the root sentinel.
  function Outermost(c: Ctx): IntervalTreeNode
    requires !c.Top?
  {
    if c.up.Top? then c.n else Outermost(c.up)
  }

  // ---------- nodes in key order ----------

  function InOrder(t: Tree): seq<IntervalTreeNode> {
    if t.Leaf? then [] else InOrder(t.left) + [t.n] + InOrder(t.right)
  }

  function Before(c: Ctx): seq<IntervalTreeNode> {
    match c
    case Top => []
    case InLeft(_, _, _, _, up) => Before(up)
    case InRight(l, n, _, _, up) => Before(up) + InOrder(l) + [n]
  }

  function After(c: Ctx): seq<IntervalTreeNode> {
    match c
    case Top => []
    case InLeft(n, _, _, r, up) => [n] + InOrder(r) + After(up)
    case InRight(_, _, _, _, up) => After(up)
  }

  lemma Regroup<T>(p: seq<T>, a: seq<T>, n: T, b: seq<T>, q: seq<T>)
    ensures p + (a + [n] + b) + q == p + a + ([n] + b + q)
    ensures p + (a + [n] + b) + q == p + a + [n] + b + q
  {
  }

  lemma {:induction false} InOrderPlug(c: Ctx, t: Tree)
    ensures InOrder(Plug(c, t)) == Before(c) + InOrder(t) + After(c)
  {
    match c
    case Top =>
    case InLeft(n, red, max, r, up) =>
      InOrderPlug(up, Node(t, n, red, max, r));
      Regroup(Before(up), InOrder(t), n, InOrder(r), After(up));
    case InRight(l, n, red, max, up) =>
      InOrderPlug(up, Node(l, n, red, max, t));
      Regroup(Before(up), InOrder(l), n, InOrder(t), After(up));
  }

  ghost predicate Sorted(s: seq<IntervalTreeNode>) {
    forall i, j :: 0 <= i < j < |s| ==> s[i].key <= s[j].key
  }

  // ---------- identities ----------

  ghost function Nodes(t: Tree): set<IntervalTreeNode> {
    if t.Leaf? then {} else Nodes(t.left) + {t.n} + Nodes(t.right)
  }

  ghost function CtxNodes(c: Ctx): set<IntervalTreeNode> {
    match c
    case Top => {}
    case InLeft(n, _, _, r, up) => {n} + Nodes(r) + CtxNodes(up)
    case InRight(l, n, _, _, up) => Nodes(l) + {n} + CtxNodes(up)
  }

  ghost predicate Apart(t: Tree) {
    t.Node? ==>
      && t.n !in Nodes(t.left) && t.n !in Nodes(t.right) && Nodes(t.left) !! Nodes(t.right)
      && Apart(t.left) && Apart(t.right)
  }

  ghost predicate CtxApart(c: Ctx) {
    match c
    case Top => true
    case InLeft(n, _, _, r, up) =>
      n !in Nodes(r) && n !in CtxNodes(up) && Nodes(r) !! CtxNodes(up) && Apart(r) && CtxApart(up)
    case InRight(l, n, _, _, up) =>
      n !in Nodes(l) && n !in CtxNodes(up) && Nodes(l) !! CtxNodes(up) && Apart(l) && CtxApart(up)
  }

  ghost function Elems<T>(s: seq<T>): set<T> {
    if s == [] then {} else {s[0]} + Elems(s[1..])
  }

  lemma {:induction false} ElemsConcat<T>(a: seq<T>, b: seq<T>)
    ensures Elems(a + b) == Elems(a) + Elems(b)
  {
    if a == [] {
      assert a + b == b;
    } else {
      assert (a + b)[1..] == a[1..] + b;
      ElemsConcat(a[1..], b);
    }
  }

  lemma {:induction false} InOrderNodes(t: Tree)
    ensures Elems(InOrder(t)) == Nodes(t)
  {
    if t.Node? {
      InOrderNodes(t.left);
      InOrderNodes(t.right);
      ElemsConcat(InOrder(t.left) + [t.n], InOrder(t.right));
      ElemsConcat(InOrder(t.left), [t.n]);
      assert Elems([t.n]) == {t.n};
    }
  }

  lemma {:induction false} NodesPlug(c: Ctx, t: Tree)
    ensures Nodes(Plug(c, t)) == CtxNodes(c) + Nodes(t)
  {
    match c
    case Top =>
    case InLeft(n, red, max, r, up) => NodesPlug(up, Node(t, n, red, max, r));
    case InRight(l, n, red, max, up) => NodesPlug(up, Node(l, n, red, max, t));
  }

  // ---------- the subtree maximum ----------

  function Max(a: int, b: int): int { if a < b then b else a }

  // The maximum a parent reads from a child pointer; the nil sentinel reports -MAX_TIME.
  function MaxOf(t: Tree): int { if t.Leaf? then -MAX_TIME else t.max }

  function NewMax(l: int, high: int, r: int): int { Max(l, Max(r, high)) }

  ghost predicate MaxOK(t: Tree) {
    t.Node? ==>
      t.max == NewMax(MaxOf(t.left), t.n.high, MaxOf(t.right)) && MaxOK(t.left) && MaxOK(t.right)
  }

  // The maxima of a context are right for a hole whose subtree has maximum m.
  ghost predicate CtxMaxOK(c: Ctx, m: int) {
    match c
    case Top => true
    case InLeft(n, _, max, r, up) => max == NewMax(m, n.high, MaxOf(r)) && MaxOK(r) && CtxMaxOK(up, max)
    case InRight(l, n, _, max, up) => max == NewMax(MaxOf(l), n.high, m) && MaxOK(l) && CtxMaxOK(up, max)
  }

  // The maxima of the side trees are right, whatever the path's own are.
  ghost predicate SidesMaxOK(c: Ctx) {
    match c
    case Top => true
    case InLeft(_, _, _, r, up) => MaxOK(r) && SidesMaxOK(up)
    case InRight(l, _, _, _, up) => MaxOK(l) && SidesMaxOK(up)
  }

  // The context after its path's maxima are recomputed bottom up.
  function Refreshed(c: Ctx, m: int): Ctx {
    match c
    case Top => Top
    case InLeft(n, red, _, r, up) =>
      var max := NewMax(m, n.high, MaxOf(r)); InLeft(n, red, max, r, Refreshed(up, max))
    case InRight(l, n, red, _, up) =>
      var max := NewMax(MaxOf(l), n.high, m); InRight(l, n, red, max, Refreshed(up, max))
  }

  lemma {:induction false} MaxOKPlug(c: Ctx, t: Tree)
    ensures MaxOK(Plug(c, t)) <==> MaxOK(t) && CtxMaxOK(c, MaxOf(t))
  {
    match c
    case Top =>
    case InLeft(n, red, max, r, up) => MaxOKPlug(up, Node(t, n, red, max, r));
    case InRight(l, n, red, max, up) => MaxOKPlug(up, Node(l, n, red, max, t));
  }

  lemma {:induction false} RefreshedMaxOK(c: Ctx, m: int)
    requires SidesMaxOK(c)
    ensures CtxMaxOK(Refreshed(c, m), m)
  {
    match c
    case Top =>
    case InLeft(n, _, _, r, up) => RefreshedMaxOK(up, NewMax(m, n.high, MaxOf(r)));
    case InRight(l, n, _, _, up) => RefreshedMaxOK(up, NewMax(MaxOf(l), n.high, m));
  }

  lemma {:induction false} CtxSidesMaxOK(c: Ctx, m: int)
    requires CtxMaxOK(c, m)
    ensures SidesMaxOK(c)
  {
    if !c.Top? { CtxSidesMaxOK(c.up, c.max); }
  }

  // Recomputing maxima touches neither order, identity nor colour.
  lemma {:induction false} RefreshedSame(c: Ctx, m: int)
    ensures Before(Refreshed(c, m)) == Before(c) && After(Refreshed(c, m)) == After(c)
    ensures CtxNodes(Refreshed(c, m)) == CtxNodes(c) && Depth(Refreshed(c, m)) == Depth(c)
    ensures CtxApart(c) ==> CtxApart(Refreshed(c, m))
    ensures forall h :: CtxBlackHeight(c, h) ==> CtxBlackHeight(Refreshed(c, m), h)
    ensures forall red :: CtxNoRedRed(c, red) ==> CtxNoRedRed(Refreshed(c, m), red)
  {
    match c
    case Top =>
    case InLeft(n, _, _, r, up) => RefreshedSame(up, NewMax(m, n.high, MaxOf(r)));
    case InRight(l, n, _, _, up) => RefreshedSame(up, NewMax(MaxOf(l), n.high, m));
  }

  // ---------- colours ----------

  function Black(red: bool): int { if red then 0 else 1 }

  predicate IsRed(t: Tree) { t.Node? && t.red }

  // Every path from t down to a leaf passes exactly h black nodes.
  ghost predicate BlackHeight(t: Tree, h: int) {
    if t.Leaf? then h == 0
    else BlackHeight(t.left, h - Black(t.red)) && BlackHeight(t.right, h - Black(t.red))
  }

  // Every path through the context's side trees has the black count of one through a
  // hole of black height h.
  ghost predicate CtxBlackHeight(c: Ctx, h: int) {
    match c
    case Top => true
    case InLeft(_, red, _, r, up) => BlackHeight(r, h) && CtxBlackHeight(up, h + Black(red))
    case InRight(l, _, red, _, up) => BlackHeight(l, h) && CtxBlackHeight(up, h + Black(red))
  }

  ghost predicate NoRedRed(t: Tree) {
    t.Node? ==>
      NoRedRed(t.left) && NoRedRed(t.right) && (t.red ==> !IsRed(t.left) && !IsRed(t.right))
  }

  // No red node of the context has a red child, the hole counting as a node of colour
  // `red`; the topmost node is black.
  ghost predicate CtxNoRedRed(c: Ctx, red: bool) {
    match c
    case Top => !red
    case InLeft(_, cred, _, r, up) =>
      NoRedRed(r) && (cred ==> !red && !IsRed(r)) && CtxNoRedRed(up, cred)
    case InRight(l, _, cred, _, up) =>
      NoRedRed(l) && (cred ==> !red && !IsRed(l)) && CtxNoRedRed(up, cred)
  }

  ghost predicate RedBlack(t: Tree) {
    NoRedRed(t) && !IsRed(t) && exists h :: BlackHeight(t, h)
  }

  lemma {:induction false} BlackHeightPlug(c: Ctx, t: Tree, h: int) returns (k: int)
    requires BlackHeight(t, h) && CtxBlackHeight(c, h)
    ensures BlackHeight(Plug(c, t), k)
  {
    match c
    case Top => k := h;
    case InLeft(n, red, max, r, up) => k := BlackHeightPlug(up, Node(t, n, red, max, r), h + Black(red));
    case InRight(l, n, red, max, up) => k := BlackHeightPlug(up, Node(l, n, red, max, t), h + Black(red));
  }

  lemma {:induction false} NoRedRedPlug(c: Ctx, t: Tree)
    requires NoRedRed(t) && CtxNoRedRed(c, IsRed(t))
    ensures NoRedRed(Plug(c, t)) && !IsRed(Plug(c, t))
  {
    match c
    case Top =>
    case InLeft(n, red, max, r, up) => NoRedRedPlug(up, Node(t, n, red, max, r));
    case InRight(l, n, red, max, up) => NoRedRedPlug(up, Node(l, n, red, max, t));
  }

  lemma RedBlackPlug(c: Ctx, t: Tree, h: int)
    requires BlackHeight(t, h) && CtxBlackHeight(c, h) && NoRedRed(t) && CtxNoRedRed(c, IsRed(t))
    ensures RedBlack(Plug(c, t))
  {
    var k := BlackHeightPlug(c, t, h);
    NoRedRedPlug(c, t);
  }

  // The converse: every subtree of a red-black tree has a black height its context fits.
  lemma {:induction false} RedBlackUnplug(c: Ctx, t: Tree) returns (h: int)
    requires RedBlack(Plug(c, t))
    ensures BlackHeight(t, h) && CtxBlackHeight(c, h) && NoRedRed(t) && CtxNoRedRed(c, IsRed(t))
  {
    match c
    case Top => h :| BlackHeight(t, h);
    case InLeft(n, red, max, r, up) =>
      h := RedBlackUnplug(up, Node(t, n, red, max, r));
      h := h - Black(red);
    case InRight(l, n, red, max, up) =>
      h := RedBlackUnplug(up, Node(l, n, red, max, t));
      h := h - Black(red);
  }

  // ---------- what balance buys: a logarithmic height ----------

  function Height(t: Tree): nat {
    if t.Leaf? then 0 else 1 + if Height(t.left) < Height(t.right) then Height(t.right) else Height(t.left)
  }

  lemma {:induction false} BlackHeightBounds(t: Tree, h: int)
    requires BlackHeight(t, h) && NoRedRed(t)
    ensures 0 <= h && Height(t) <= 2 * h + (if IsRed(t) then 1 else 0)
    ensures Pow2(h) <= |InOrder(t)| + 1
  {
    if t.Node? {
      BlackHeightBounds(t.left, h - Black(t.red));
      BlackHeightBounds(t.right, h - Black(t.red));
    }
  }

  // A red-black tree of k nodes has height at most 2 log2(k + 1).
  lemma LogarithmicHeight(t: Tree)
    requires RedBlack(t)
    ensures exists h: nat :: Height(t) <= 2 * h && Pow2(h) <= |InOrder(t)| + 1
  {
    var h :| BlackHeight(t, h);
    BlackHeightBounds(t, h);
  }

  // ---------- a heap against a shape ----------

  ghost function Ptr(e: Ends, t: Tree): IntervalTreeNode {
    if t.Leaf? then e.nil else t.n
  }

  ghost function ParentOf(e: Ends, c: Ctx): IntervalTreeNode {
    if c.Top? then e.root else c.n
  }

  ghost predicate Stores(n: IntervalTreeNode) {
    n.stored != null && n.key == n.stored.low && n.high == n.stored.high
  }

  // The fields of t's nodes are those t says, hanging below the node p.
  ghost predicate Linked(e: Ends, h: Heap, t: Tree, p: IntervalTreeNode) {
    t.Node? ==>
      && t.n in h && Stores(t.n)
      && h[t.n] == Fields(Ptr(e, t.left), Ptr(e, t.right), p, t.red, t.max)
      && Linked(e, h, t.left, t.n) && Linked(e, h, t.right, t.n)
  }

  // The fields of c's nodes and of the root sentinel are those c says, with `child` in the hole.
  ghost predicate CtxLinked(e: Ends, h: Heap, c: Ctx, child: IntervalTreeNode) {
    match c
    case Top => e.root in h && h[e.root] == Fields(child, e.nil, e.nil, false, MAX_TIME)
    case InLeft(n, red, max, r, up) =>
      && n in h && Stores(n) && h[n] == Fields(child, Ptr(e, r), ParentOf(e, up), red, max)
      && Linked(e, h, r, n) && CtxLinked(e, h, up, n)
    case InRight(l, n, red, max, up) =>
      && n in h && Stores(n) && h[n] == Fields(Ptr(e, l), child, ParentOf(e, up), red, max)
      && Linked(e, h, l, n) && CtxLinked(e, h, up, n)
  }

  ghost predicate Placed(e: Ends, c: Ctx, t: Tree) {
    && e.root != e.nil
    && e.root !in CtxNodes(c) && e.nil !in CtxNodes(c) && e.root !in Nodes(t) && e.nil !in Nodes(t)
    && CtxNodes(c) !! Nodes(t) && Apart(t) && CtxApart(c)
  }

  // The heap holds the tree Plug(c, t), seen from the subtree t.
  ghost predicate Seen(e: Ends, h: Heap, c: Ctx, t: Tree) {
    Placed(e, c, t) && Linked(e, h, t, ParentOf(e, c)) && CtxLinked(e, h, c, Ptr(e, t))
  }

  // h and k agree on every node of s that h knows.
  ghost predicate Agree(h: Heap, k: Heap, s: set<IntervalTreeNode>) {
    forall n :: n in s && n in h ==> n in k && k[n] == h[n]
  }

  lemma {:induction false} LinkedKept(e: Ends, h: Heap, k: Heap, t: Tree, p: IntervalTreeNode)
    requires Linked(e, h, t, p) && Agree(h, k, Nodes(t))
    ensures Linked(e, k, t, p)
  {
    if t.Node? {
      LinkedKept(e, h, k, t.left, t.n);
      LinkedKept(e, h, k, t.right, t.n);
    }
  }

  lemma {:induction false} CtxLinkedKept(e: Ends, h: Heap, k: Heap, c: Ctx, child: IntervalTreeNode)
    requires CtxLinked(e, h, c, child) && Agree(h, k, CtxNodes(c) + {e.root})
    ensures CtxLinked(e, k, c, child)
  {
    match c
    case Top =>
    case InLeft(n, red, max, r, up) =>
      LinkedKept(e, h, k, r, n);
      CtxLinkedKept(e, h, k, up, n);
    case InRight(l, n, red, max, up) =>
      LinkedKept(e, h, k, l, n);
      CtxLinkedKept(e, h, k, up, n);
  }

  // Only t's topmost node was written, and only its parent link.
  lemma LinkedMoved(e: Ends, h: Heap, k: Heap, t: Tree, p: IntervalTreeNode, q: IntervalTreeNode)
    requires Linked(e, h, t, p) && Apart(t)
    requires t.Node? ==> t.n in k && k[t.n] == h[t.n].(parent := q) && Agree(h, k, Nodes(t) - {t.n})
    ensures Linked(e, k, t, q)
  {
    if t.Node? {
      LinkedKept(e, h, k, t.left, t.n);
      LinkedKept(e, h, k, t.right, t.n);
    }
  }

  // Only the innermost node of c (or the root sentinel) was written, and only its child link.
  lemma CtxLinkedRefilled(e: Ends, h: Heap, k: Heap, c: Ctx, a: IntervalTreeNode, b: IntervalTreeNode)
    requires CtxLinked(e, h, c, a) && CtxApart(c) && e.root !in CtxNodes(c)
    requires ParentOf(e, c) in k && Agree(h, k, CtxNodes(c) + {e.root} - {ParentOf(e, c)})
    requires var p := ParentOf(e, c); k[p] == if c.InRight? then h[p].(right := b) else h[p].(left := b)
    ensures CtxLinked(e, k, c, b)
  {
    match c
    case Top =>
    case InLeft(n, red, max, r, up) =>
      LinkedKept(e, h, k, r, n);
      CtxLinkedKept(e, h, k, up, n);
    case InRight(l, n, red, max, up) =>
      LinkedKept(e, h, k, l, n);
      CtxLinkedKept(e, h, k, up, n);
  }

  // ---------- moving the point of view ----------

  lemma SeenLeft(e: Ends, h: Heap, c: Ctx, t: Tree)
    requires Seen(e, h, c, t) && t.Node?
    ensures Seen(e, h, InLeft(t.n, t.red, t.max, t.right, c), t.left)
  {
  }

  lemma SeenRight(e: Ends, h: Heap, c: Ctx, t: Tree)
    requires Seen(e, h, c, t) && t.Node?
    ensures Seen(e, h, InRight(t.left, t.n, t.red, t.max, c), t.right)
  {
  }

  function Painted(t: Tree, red: bool): (u: Tree)
    requires t.Node?
    ensures InOrder(u) == InOrder(t) && (MaxOK(u) <==> MaxOK(t)) && MaxOf(u) == MaxOf(t)
  {
    Node(t.left, t.n, red, t.max, t.right)
  }

  // The subtree one step up.
  function Join(c: Ctx, t: Tree): (u: Tree)
    requires !c.Top?
    ensures u.Node? && u.n == c.n && Plug(c, t) == Plug(c.up, u)
  {
    if c.InLeft? then Node(t, c.n, c.red, c.max, c.right) else Node(c.left, c.n, c.red, c.max, t)
  }

  lemma SeenUp(e: Ends, h: Heap, c: Ctx, t: Tree)
    requires Seen(e, h, c, t) && !c.Top?
    ensures Seen(e, h, c.up, Join(c, t))
  {
  }

  lemma {:induction false} SeenTop(e: Ends, h: Heap, c: Ctx, t: Tree)
    requires Seen(e, h, c, t)
    ensures Seen(e, h, Top, Plug(c, t))
    decreases c
  {
    if !c.Top? {
      SeenUp(e, h, c, t);
      SeenTop(e, h, c.up, Join(c, t));
    }
  }

  lemma {:induction false} SeenDown(e: Ends, h: Heap, c: Ctx, t: Tree)
    requires Seen(e, h, Top, Plug(c, t))
    ensures Seen(e, h, c, t)
    decreases c
  {
    if !c.Top? {
      var u := Join(c, t);
      assert Plug(c, t) == Plug(c.up, u);
      SeenDown(e, h, c.up, u);
      if c.InLeft? { SeenLeft(e, h, c.up, u); } else { SeenRight(e, h, c.up, u); }
    }
  }

  // ---------- rotations ----------

  function RotatedLeft(t: Tree): Tree
    requires t.Node? && t.right.Node?
  {
    var y := t.right;
    var max := NewMax(MaxOf(t.left), t.n.high, MaxOf(y.left));
    Node(Node(t.left, t.n, t.red, max, y.left), y.n, y.red, NewMax(max, y.n.high, MaxOf(y.right)), y.right)
  }

  function RotatedRight(t: Tree): Tree
    requires t.Node? && t.left.Node?
  {
    var x := t.left;
    var max := NewMax(MaxOf(x.right), t.n.high, MaxOf(t.right));
    Node(x.left, x.n, x.red, NewMax(MaxOf(x.left), x.n.high, max), Node(x.right, t.n, t.red, max, t.right))
  }

  // The pointer q leads to t's top, whose maximum the heap knows.
  ghost predicate Leads(e: Ends, h: Heap, q: IntervalTreeNode, t: Tree) {
    q == Ptr(e, t) && (t.Node? ==> t.n in h && h[t.n].max == t.max && t.n != e.nil)
  }

  // Which nodes a left rotation reads and writes, and that they are different ones.
  ghost predicate LeftParts(e: Ends, h: Heap, c: Ctx, t: Tree) {
    && t.Node? && t.right.Node?
    && var x, y, b, p := t.n, t.right.n, t.right.left, ParentOf(e, c);
    && x in h && y in h && p in h && x != y && x != p && y != p && x != e.nil && y != e.nil
    && (b.Node? ==> b.n != x && b.n != y && b.n != p)
    && h[x].right == y && h[x].parent == p && (c.InRight? <==> h[p].left != x)
    && Leads(e, h, h[x].left, t.left) && Leads(e, h, h[y].left, b) && Leads(e, h, h[y].right, t.right.right)
    && Ptr(e, t.left) !in {x, y} && Ptr(e, t.right.right) !in {x, y}
  }

  lemma SeenLeftParts(e: Ends, h: Heap, c: Ctx, t: Tree)
    requires Seen(e, h, c, t) && t.Node? && t.right.Node?
    ensures LeftParts(e, h, c, t)
  {
    var y := t.right;
    assert Linked(e, h, y, t.n) && Linked(e, h, t.left, t.n);
    assert Linked(e, h, y.left, y.n) && Linked(e, h, y.right, y.n);
    assert Apart(y) && t.n !in Nodes(y) && y.n !in Nodes(y.left) && y.n !in Nodes(y.right);
    assert !c.Top? ==> c.n in CtxNodes(c);
  }

  // What a left rotation leaves of the snapshot h.
  ghost predicate LeftRotated(e: Ends, h: Heap, k: Heap, c: Ctx, t: Tree)
    requires LeftParts(e, h, c, t)
  {
    var x, y, b, p, r := t.n, t.right.n, t.right.left, ParentOf(e, c), RotatedLeft(t);
    && x in k && y in k && p in k
    && k[x] == Fields(Ptr(e, t.left), Ptr(e, b), y, h[x].red, r.left.max)
    && k[y] == Fields(x, Ptr(e, t.right.right), p, h[y].red, r.max)
    && k[p] == (if c.InRight? then h[p].(right := y) else h[p].(left := y))
    && (b.Node? ==> b.n in k && k[b.n] == h[b.n].(parent := x))
    && Agree(h, k, h.Keys - {x, y, p, Ptr(e, b)})
  }

  lemma LeftRotatedSeen(e: Ends, h: Heap, k: Heap, c: Ctx, t: Tree)
    requires Seen(e, h, c, t) && LeftParts(e, h, c, t) && LeftRotated(e, h, k, c, t)
    ensures Seen(e, k, c, RotatedLeft(t))
  {
    var x, y, b, p := t.n, t.right, t.right.left, ParentOf(e, c);
    assert Apart(y) && Linked(e, h, y, x);
    LinkedKept(e, h, k, t.left, x);
    LinkedMoved(e, h, k, b, y.n, x);
    LinkedKept(e, h, k, y.right, y.n);
    CtxLinkedRefilled(e, h, k, c, x, y.n);
    RotatedLeftPlaced(e, c, t);
  }

  lemma RotatedLeftPlaced(e: Ends, c: Ctx, t: Tree)
    requires t.Node? && t.right.Node? && Placed(e, c, t)
    ensures Placed(e, c, RotatedLeft(t)) && Nodes(RotatedLeft(t)) == Nodes(t)
  {
    assert Apart(t.right);
    assert Nodes(t.right) == Nodes(t.right.left) + {t.right.n} + Nodes(t.right.right);
  }

  ghost predicate RightParts(e: Ends, h: Heap, c: Ctx, t: Tree) {
    && t.Node? && t.left.Node?
    && var y, x, b, p := t.n, t.left.n, t.left.right, ParentOf(e, c);
    && x in h && y in h && p in h && x != y && x != p && y != p && x != e.nil && y != e.nil
    && (b.Node? ==> b.n != x && b.n != y && b.n != p)
    && h[y].left == x && h[y].parent == p && (c.InRight? <==> h[p].left != y)
    && Leads(e, h, h[y].right, t.right) && Leads(e, h, h[x].right, b) && Leads(e, h, h[x].left, t.left.left)
    && Ptr(e, t.right) !in {x, y} && Ptr(e, t.left.left) !in {x, y}
  }

  lemma SeenRightParts(e: Ends, h: Heap, c: Ctx, t: Tree)
    requires Seen(e, h, c, t) && t.Node? && t.left.Node?
    ensures RightParts(e, h, c, t)
  {
    var x := t.left;
    assert Linked(e, h, x, t.n) && Linked(e, h, t.right, t.n);
    assert Linked(e, h, x.left, x.n) && Linked(e, h, x.right, x.n);
    assert Apart(x) && t.n !in Nodes(x) && x.n !in Nodes(x.left) && x.n !in Nodes(x.right);
    assert !c.Top? ==> c.n in CtxNodes(c);
  }

  ghost predicate RightRotated(e: Ends, h: Heap, k: Heap, c: Ctx, t: Tree)
    requires RightParts(e, h, c, t)
  {
    var y, x, b, p, r := t.n, t.left.n, t.left.right, ParentOf(e, c), RotatedRight(t);
    && x in k && y in k && p in k
    && k[y] == Fields(Ptr(e, b), Ptr(e, t.right), x, h[y].red, r.right.max)
    && k[x] == Fields(Ptr(e, t.left.left), y, p, h[x].red, r.max)
    && k[p] == (if c.InRight? then h[p].(right := x) else h[p].(left := x))
    && (b.Node? ==> b.n in k && k[b.n] == h[b.n].(parent := y))
    && Agree(h, k, h.Keys - {x, y, p, Ptr(e, b)})
  }

  lemma RightRotatedSeen(e: Ends, h: Heap, k: Heap, c: Ctx, t: Tree)
    requires Seen(e, h, c, t) && RightParts(e, h, c, t) && RightRotated(e, h, k, c, t)
    ensures Seen(e, k, c, RotatedRight(t))
  {
    var y, x, b, p := t.n, t.left, t.left.right, ParentOf(e, c);
    assert Apart(x) && Linked(e, h, x, y);
    LinkedKept(e, h, k, t.right, y);
    LinkedMoved(e, h, k, b, x.n, y);
    LinkedKept(e, h, k, x.left, x.n);
    CtxLinkedRefilled(e, h, k, c, y, x.n);
    RotatedRightPlaced(e, c, t);
  }

  lemma RotatedRightPlaced(e: Ends, c: Ctx, t: Tree)
    requires t.Node? && t.left.Node? && Placed(e, c, t)
    ensures Placed(e, c, RotatedRight(t)) && Nodes(RotatedRight(t)) == Nodes(t)
  {
    assert Apart(t.left);
    assert Nodes(t.left) == Nodes(t.left.left) + {t.left.n} + Nodes(t.left.right);
  }

  // Rotations keep the node order and, on correct maxima, the maxima above.
  lemma {:induction false} RotatedLeftSame(t: Tree)
    requires t.Node? && t.right.Node?
    ensures InOrder(RotatedLeft(t)) == InOrder(t)
    ensures MaxOK(t) ==> MaxOK(RotatedLeft(t)) && MaxOf(RotatedLeft(t)) == MaxOf(t)
  {
    var r := RotatedLeft(t);
    var a, b, c := InOrder(t.left), InOrder(t.right.left), InOrder(t.right.right);
    assert InOrder(t.right) == b + [t.right.n] + c && InOrder(r.left) == a + [t.n] + b;
    assert InOrder(r) == (a + [t.n] + b) + [t.right.n] + c == a + [t.n] + (b + [t.right.n] + c);
    if MaxOK(t) {
      assert MaxOK(t.right) && MaxOK(r.left);
    }
  }

  lemma {:induction false} RotatedRightSame(t: Tree)
    requires t.Node? && t.left.Node?
    ensures InOrder(RotatedRight(t)) == InOrder(t)
    ensures MaxOK(t) ==> MaxOK(RotatedRight(t)) && MaxOf(RotatedRight(t)) == MaxOf(t)
  {
    var r := RotatedRight(t);
    var a, b, c := InOrder(t.left.left), InOrder(t.left.right), InOrder(t.right);
    assert InOrder(t.left) == a + [t.left.n] + b && InOrder(r.right) == b + [t.n] + c;
    assert InOrder(r) == a + [t.left.n] + (b + [t.n] + c) == (a + [t.left.n] + b) + [t.n] + c;
    if MaxOK(t) {
      assert MaxOK(t.left) && MaxOK(r.right);
    }
  }

  // ---------- writes to a single node ----------

  lemma TopWritten(e: Ends, h: Heap, k: Heap, c: Ctx, t: Tree, t': Tree)
    requires Seen(e, h, c, t) && t.Node? && t'.Node? && t' == t.(red := t'.red, max := t'.max)
    requires t.n in k && k[t.n] == h[t.n].(red := t'.red, max := t'.max)
    requires Agree(h, k, h.Keys - {t.n})
    ensures Seen(e, k, c, t')
  {
    LinkedKept(e, h, k, t.left, t.n);
    LinkedKept(e, h, k, t.right, t.n);
    CtxLinkedKept(e, h, k, c, t.n);
  }
}
