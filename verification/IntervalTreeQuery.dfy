/**
 * What a query returns. Visit is the pruned walk that the query performs with its
 * explicit stack; Hits over PreOrder is the plain scan it has to agree with.
 */
module IntervalTreeQuery {
  import opened Basics
  import opened IntervalTreeShape
  import opened IntervalTreeInsert

  predicate Within(p: int, low: int, high: int) { low <= p <= high }

  // Two proper intervals overlap exactly when they share a point.
  function Overlap(a1: int, a2: int, b1: int, b2: int): (r: bool)
    ensures a1 <= a2 && b1 <= b2 ==> (r <==> exists p :: Within(p, a1, a2) && Within(p, b1, b2))
  {
    if a1 <= b1 then
      (assert b1 <= b2 ==> Within(b1, b1, b2); b1 <= a2)
    else
      (assert a1 <= a2 ==> Within(a1, a1, a2); a1 <= b2)
  }

  predicate Hit(n: IntervalTreeNode, low: int, high: int) {
    n.stored != null && Overlap(low, high, n.key, n.high)
  }

  function PreOrder(t: Tree): seq<IntervalTreeNode> {
    if t.Leaf? then [] else [t.n] + PreOrder(t.left) + PreOrder(t.right)
  }

  function Hits(s: seq<IntervalTreeNode>, low: int, high: int): seq<Interval> {
    if s == [] then [] else Hits1(s[0], low, high) + Hits(s[1..], low, high)
  }

  function Hits1(n: IntervalTreeNode, low: int, high: int): seq<Interval> {
    if Hit(n, low, high) then [n.stored] else []
  }

  // The pruned walk: the left branch is entered when it reaches up to `low`; the right
  // branch then only if the left one yielded something.
  function Visit(t: Tree, low: int, high: int): seq<Interval> {
    if t.Leaf? then []
    else
      var here := if Hit(t.n, low, high) then [t.n.stored] else [];
      if MaxOf(t.left) >= low then
        var l := Visit(t.left, low, high);
        here + l + (if l != [] then Visit(t.right, low, high) else [])
      else here + Visit(t.right, low, high)
  }

  // ---------- pruning loses nothing ----------

  ghost predicate Proper(s: seq<IntervalTreeNode>) {
    forall i :: 0 <= i < |s| ==> s[i].stored != null && s[i].key <= s[i].high
  }

  lemma {:induction false} HitsConcat(a: seq<IntervalTreeNode>, b: seq<IntervalTreeNode>, low: int, high: int)
    ensures Hits(a + b, low, high) == Hits(a, low, high) + Hits(b, low, high)
  {
    if a == [] {
      assert a + b == b;
    } else {
      assert (a + b)[1..] == a[1..] + b && (a + b)[0] == a[0];
      HitsConcat(a[1..], b, low, high);
      Associative(Hits1(a[0], low, high), Hits(a[1..], low, high), Hits(b, low, high));
    }
  }

  lemma {:induction false} NoHits(s: seq<IntervalTreeNode>, low: int, high: int)
    requires forall i :: 0 <= i < |s| ==> !Hit(s[i], low, high)
    ensures Hits(s, low, high) == []
  {
    if s != [] { NoHits(s[1..], low, high); }
  }

  lemma {:induction false} SomeHit(s: seq<IntervalTreeNode>, low: int, high: int, i: nat)
    requires i < |s| && Hit(s[i], low, high)
    ensures Hits(s, low, high) != []
  {
    if i > 0 { SomeHit(s[1..], low, high, i - 1); }
  }

  // In-order and pre-order list the same nodes.
  lemma {:induction false} SameMembers(t: Tree)
    ensures multiset(PreOrder(t)) == multiset(InOrder(t))
  {
    if t.Node? {
      SameMembers(t.left);
      SameMembers(t.right);
    }
  }

  lemma InPreOrder(t: Tree, i: nat) returns (j: nat)
    requires i < |InOrder(t)|
    ensures j < |PreOrder(t)| && PreOrder(t)[j] == InOrder(t)[i]
  {
    SameMembers(t);
    assert InOrder(t)[i] in multiset(PreOrder(t));
    j :| 0 <= j < |PreOrder(t)| && PreOrder(t)[j] == InOrder(t)[i];
  }

  lemma InInOrder(t: Tree, i: nat) returns (j: nat)
    requires i < |PreOrder(t)|
    ensures j < |InOrder(t)| && InOrder(t)[j] == PreOrder(t)[i]
  {
    SameMembers(t);
    assert PreOrder(t)[i] in multiset(InOrder(t));
    j :| 0 <= j < |InOrder(t)| && InOrder(t)[j] == PreOrder(t)[i];
  }

  // The maximum bounds every end point, and above the sentinel's value it is attained.
  lemma {:induction false} MaxBounds(t: Tree)
    requires MaxOK(t)
    ensures forall i :: 0 <= i < |InOrder(t)| ==> InOrder(t)[i].high <= MaxOf(t)
    ensures MaxOf(t) > -MAX_TIME ==> exists i :: 0 <= i < |InOrder(t)| && InOrder(t)[i].high == MaxOf(t)
  {
    if t.Node? {
      MaxBounds(t.left);
      MaxBounds(t.right);
      var s, l, r := InOrder(t), InOrder(t.left), InOrder(t.right);
      assert s[|l|] == t.n;
      assert forall i :: 0 <= i < |l| ==> s[i] == l[i];
      assert forall i :: 0 <= i < |r| ==> s[|l| + 1 + i] == r[i];
      assert forall i :: |l| < i < |s| ==> s[i] == r[i - |l| - 1];
      if t.max > -MAX_TIME {
        if t.max == t.n.high {
        } else if t.max == MaxOf(t.left) {
          var i :| 0 <= i < |l| && l[i].high == MaxOf(t.left);
          assert s[i].high == t.max;
        } else {
          var i :| 0 <= i < |r| && r[i].high == MaxOf(t.right);
          assert s[|l| + 1 + i].high == t.max;
        }
      }
    }
  }

  lemma SubProper(t: Tree)
    requires t.Node? && Sorted(InOrder(t)) && Proper(InOrder(t))
    ensures t.n.stored != null && t.n.key <= t.n.high
    ensures Sorted(InOrder(t.left)) && Proper(InOrder(t.left)) && Sorted(InOrder(t.right)) && Proper(InOrder(t.right))
    ensures forall i :: 0 <= i < |InOrder(t.left)| ==> InOrder(t.left)[i].key <= t.n.key
    ensures forall i :: 0 <= i < |InOrder(t.right)| ==> t.n.key <= InOrder(t.right)[i].key
  {
    SortedSplit(InOrder(t.left), t.n, InOrder(t.right));
    ProperSplit(InOrder(t.left), t.n, InOrder(t.right));
  }

  lemma ProperSplit(l: seq<IntervalTreeNode>, n: IntervalTreeNode, r: seq<IntervalTreeNode>)
    requires Proper(l + [n] + r)
    ensures Proper(l) && Proper(r) && n.stored != null && n.key <= n.high
  {
    var s := l + [n] + r;
    assert s[|l|] == n;
    assert forall i :: 0 <= i < |l| ==> s[i] == l[i];
    assert forall i :: 0 <= i < |r| ==> s[|l| + 1 + i] == r[i];
  }

  // A left branch that ends below `low` holds no hit.
  lemma LowLeft(t: Tree, low: int, high: int)
    requires MaxOK(t) && Proper(InOrder(t)) && MaxOf(t) < low
    ensures Hits(PreOrder(t), low, high) == []
  {
    MaxBounds(t);
    forall i | 0 <= i < |PreOrder(t)|
      ensures !Hit(PreOrder(t)[i], low, high)
    {
      var j := InInOrder(t, i);
    }
    NoHits(PreOrder(t), low, high);
  }

  // A left branch that reaches up to `low` without a hit starts somewhere above `high`.
  lemma BarrenLeft(t: Tree, low: int, high: int) returns (i: nat)
    requires MaxOK(t) && Proper(InOrder(t)) && -MAX_TIME < low <= MaxOf(t) && Hits(PreOrder(t), low, high) == []
    ensures i < |InOrder(t)| && InOrder(t)[i].key > high && InOrder(t)[i].key >= low
  {
    MaxBounds(t);
    i :| 0 <= i < |InOrder(t)| && InOrder(t)[i].high == MaxOf(t);
    if Hit(InOrder(t)[i], low, high) {
      var j := InPreOrder(t, i);
      SomeHit(PreOrder(t), low, high, j);
    }
  }

  lemma BeyondRight(t: Tree, k: int, low: int, high: int)
    requires k > high && k >= low && forall i :: 0 <= i < |InOrder(t)| ==> k <= InOrder(t)[i].key
    ensures Hits(PreOrder(t), low, high) == []
  {
    forall i | 0 <= i < |PreOrder(t)|
      ensures !Hit(PreOrder(t)[i], low, high)
    {
      var j := InInOrder(t, i);
    }
    NoHits(PreOrder(t), low, high);
  }

  // The pruned walk yields what the scan of all nodes yields, in the same order.
  lemma {:induction false} VisitIsScan(t: Tree, low: int, high: int)
    requires Sorted(InOrder(t)) && Proper(InOrder(t)) && MaxOK(t) && low > -MAX_TIME
    ensures Visit(t, low, high) == Hits(PreOrder(t), low, high)
  {
    if t.Node? {
      SubProper(t);
      VisitIsScan(t.left, low, high);
      VisitIsScan(t.right, low, high);
      HitsConcat([t.n] + PreOrder(t.left), PreOrder(t.right), low, high);
      HitsConcat([t.n], PreOrder(t.left), low, high);
      assert Hits([t.n], low, high) == if Hit(t.n, low, high) then [t.n.stored] else [];
      if MaxOf(t.left) < low {
        LowLeft(t.left, low, high);
      } else if Visit(t.left, low, high) == [] {
        var i := BarrenLeft(t.left, low, high);
        BeyondRight(t.right, InOrder(t.left)[i].key, low, high);
      }
    }
  }

  // Each overlapping interval is reported exactly as often as it is stored.
  lemma {:induction false} ScanOrders(t: Tree, low: int, high: int)
    ensures multiset(Hits(PreOrder(t), low, high)) == multiset(Hits(InOrder(t), low, high))
  {
    if t.Node? {
      var l, r := t.left, t.right;
      ScanOrders(l, low, high);
      ScanOrders(r, low, high);
      HitsConcat([t.n] + PreOrder(l), PreOrder(r), low, high);
      HitsConcat([t.n], PreOrder(l), low, high);
      HitsConcat(InOrder(l) + [t.n], InOrder(r), low, high);
      HitsConcat(InOrder(l), [t.n], low, high);
    }
  }

  // At the sentinel's own value the pruning is wrong: below any hit x with no left child,
  // a hit r to its right goes unreported.
  lemma SentinelHidesRight(x: IntervalTreeNode, r: IntervalTreeNode, low: int, high: int)
    requires low <= -MAX_TIME && Hit(x, low, high) && Hit(r, low, high) && x.key <= r.key
    ensures var t := Node(Leaf, x, false, NewMax(-MAX_TIME, x.high, r.high), Node(Leaf, r, true, r.high, Leaf));
      && Sorted(InOrder(t)) && MaxOK(t) && RedBlack(t)
      && Visit(t, low, high) == [x.stored] && Hits(PreOrder(t), low, high) == [x.stored, r.stored]
  {
    var u := Node(Leaf, r, true, r.high, Leaf);
    var t := Node(Leaf, x, false, NewMax(-MAX_TIME, x.high, r.high), u);
    assert InOrder(u) == [r] && InOrder(t) == [x, r];
    assert PreOrder(u) == [r] && PreOrder(t) == [x, r];
    assert BlackHeight(u, 0) && BlackHeight(t, 1);
    assert MaxOK(u);
    assert Hits([r], low, high) == [r.stored] + Hits([], low, high);
    assert [x, r][1..] == [r];
  }

  // ---------- the walk with an explicit stack ----------

  // A node whose left branch is being walked, and whether that has yielded anything yet.
  datatype Frame = Frame(tree: Tree, flagged: bool)

  ghost predicate Frames(st: seq<Frame>) {
    forall i :: 0 <= i < |st| ==> st[i].tree.Node?
  }

  // What is still to be reported once the current branch is done, if that found something.
  ghost function Resume(st: seq<Frame>, found: bool, low: int, high: int): seq<Interval>
    requires Frames(st)
  {
    if st == [] then []
    else
      var e, rest := st[|st| - 1], st[..|st| - 1];
      if e.flagged || found then Visit(e.tree.right, low, high) + Resume(rest, true, low, high)
      else Resume(rest, false, low, high)
  }

  // What the walk will report from here on.
  ghost function Ahead(t: Tree, st: seq<Frame>, low: int, high: int): seq<Interval>
    requires Frames(st)
  {
    Visit(t, low, high) + Resume(st, Visit(t, low, high) != [], low, high)
  }

  lemma AheadAlone(t: Tree, low: int, high: int)
    ensures Ahead(t, [], low, high) == Visit(t, low, high) && Ahead(Leaf, [], low, high) == []
  {
  }

  function Flagged(st: seq<Frame>): seq<Frame> {
    if st == [] then [] else st[|st| - 1 := st[|st| - 1].(flagged := true)]
  }

  // Raising the innermost flag is the same as having found something.
  lemma ResumeFlagged(st: seq<Frame>, found: bool, low: int, high: int)
    requires Frames(st)
    ensures Frames(Flagged(st)) && Resume(Flagged(st), found, low, high) == Resume(st, true, low, high)
  {
    if st != [] {
      assert Flagged(st)[..|st| - 1] == st[..|st| - 1];
    }
  }

  lemma ResumePushed(st: seq<Frame>, t: Tree, found: bool, low: int, high: int)
    requires Frames(st) && t.Node?
    ensures Frames(st + [Frame(t, false)])
    ensures Resume(st + [Frame(t, false)], found, low, high)
         == if found then Visit(t.right, low, high) + Resume(st, true, low, high) else Resume(st, false, low, high)
  {
    assert (st + [Frame(t, false)])[..|st|] == st;
  }

  // Entering the left branch of t puts t on the stack.
  lemma ResumeLeft(st: seq<Frame>, t: Tree, low: int, high: int)
    requires Frames(st) && t.Node? && MaxOf(t.left) >= low
    ensures var here := if Hit(t.n, low, high) then [t.n.stored] else [];
      var st' := if Hit(t.n, low, high) then Flagged(st) else st;
      && Frames(st' + [Frame(t, false)])
      && Ahead(t, st, low, high) == here + Ahead(t.left, st' + [Frame(t, false)], low, high)
  {
    var st' := if Hit(t.n, low, high) then Flagged(st) else st;
    var here := if Hit(t.n, low, high) then [t.n.stored] else [];
    var l, r := Visit(t.left, low, high), Visit(t.right, low, high);
    ResumeFlagged(st, l != [], low, high);
    ResumeFlagged(st, true, low, high);
    ResumePushed(st', t, l != [], low, high);
    var rest := Resume(st, true, low, high);
    if l != [] {
      assert Visit(t, low, high) == here + l + r;
      Regrouped(here, l, r, rest);
    } else if Hit(t.n, low, high) {
      assert Visit(t, low, high) == here;
    }
  }

  lemma Regrouped<T>(a: seq<T>, b: seq<T>, c: seq<T>, d: seq<T>)
    ensures (a + b + c) + d == a + (b + (c + d))
  {
  }

  lemma ResumeRight(st: seq<Frame>, t: Tree, low: int, high: int)
    requires Frames(st) && t.Node? && MaxOf(t.left) < low
    ensures var here := if Hit(t.n, low, high) then [t.n.stored] else [];
      var st' := if Hit(t.n, low, high) then Flagged(st) else st;
      && Frames(st')
      && Ahead(t, st, low, high) == here + Ahead(t.right, st', low, high)
  {
    ResumeFlagged(st, false, low, high);
    ResumeFlagged(st, true, low, high);
  }

  // Leaving a finished branch takes the innermost frame off.
  lemma ResumePop(st: seq<Frame>, low: int, high: int)
    requires Frames(st) && st != []
    ensures var e, rest := st[|st| - 1], st[..|st| - 1];
      var r := Visit(e.tree.right, low, high);
      && Frames(rest) && Frames(Flagged(rest))
      && Resume(st, false, low, high)
         == if e.flagged then r + Resume(Flagged(rest), r != [], low, high) else Resume(rest, false, low, high)
  {
    var rest := st[..|st| - 1];
    ResumeFlagged(rest, true, low, high);
    ResumeFlagged(rest, false, low, high);
  }

  // The heap holds t somewhere.
  ghost predicate InHeap(e: Ends, h: Heap, t: Tree) {
    t.Node? ==> t.n in h && t.n != e.nil && Linked(e, h, t, h[t.n].parent) && e.nil !in Nodes(t)
  }

  lemma InHeapParts(e: Ends, h: Heap, t: Tree)
    requires InHeap(e, h, t) && t.Node?
    ensures t.n in h && Stores(t.n) && h[t.n].left == Ptr(e, t.left) && h[t.n].right == Ptr(e, t.right)
    ensures InHeap(e, h, t.left) && InHeap(e, h, t.right)
    ensures t.left.Node? ==> h[t.left.n].max == t.left.max
  {
    assert Linked(e, h, t.left, t.n) && Linked(e, h, t.right, t.n);
    assert t.left.Node? ==> t.left.n in Nodes(t.left);
    assert t.right.Node? ==> t.right.n in Nodes(t.right);
  }

  // The walk stands at t, with st above it, all in the heap h.
  ghost predicate Walking(e: Ends, h: Heap, t: Tree, st: seq<Frame>) {
    Frames(st) && InHeap(e, h, t) && forall i :: 0 <= i < |st| ==> InHeap(e, h, st[i].tree)
  }

  ghost function Left(t: Tree, st: seq<Frame>): nat
    requires Frames(st)
  {
    Size(t) + Remaining(st)
  }

  function Size(t: Tree): nat {
    if t.Leaf? then 0 else 1 + Size(t.left) + Size(t.right)
  }

  // The nodes a walk may still come to.
  ghost function Remaining(st: seq<Frame>): nat
    requires Frames(st)
  {
    if st == [] then 0 else Size(st[|st| - 1].tree.right) + Remaining(st[..|st| - 1])
  }

  lemma RemainingFlagged(st: seq<Frame>)
    requires Frames(st)
    ensures Frames(Flagged(st)) && Remaining(Flagged(st)) == Remaining(st)
  {
    if st != [] {
      assert Flagged(st)[..|st| - 1] == st[..|st| - 1];
    }
  }

  lemma RemainingPushed(st: seq<Frame>, t: Tree)
    requires Frames(st) && t.Node?
    ensures Frames(st + [Frame(t, false)]) && Remaining(st + [Frame(t, false)]) == Size(t.right) + Remaining(st)
  {
    assert (st + [Frame(t, false)])[..|st|] == st;
  }

  // One node of the walk: what it reports and where it goes.
  ghost predicate Stepped(t: Tree, st: seq<Frame>, low: int, high: int, hit: seq<Interval>, t': Tree, st': seq<Frame>)
    requires t.Node?
  {
    var flags := if Hit(t.n, low, high) then Flagged(st) else st;
    && hit == (if Hit(t.n, low, high) then [t.n.stored] else [])
    && (if MaxOf(t.left) >= low then t' == t.left && st' == flags + [Frame(t, false)]
        else t' == t.right && st' == flags)
  }

  lemma SteppedOK(e: Ends, h: Heap, t: Tree, st: seq<Frame>, low: int, high: int, hit: seq<Interval>, t': Tree,
      st': seq<Frame>)
    requires t.Node? && Walking(e, h, t, st) && Stepped(t, st, low, high, hit, t', st')
    ensures Walking(e, h, t', st') && Ahead(t, st, low, high) == hit + Ahead(t', st', low, high)
    ensures Left(t', st') < Left(t, st)
  {
    InHeapParts(e, h, t);
    RemainingFlagged(st);
    var flags := if Hit(t.n, low, high) then Flagged(st) else st;
    assert Walking(e, h, t, flags) && Remaining(flags) == Remaining(st);
    if MaxOf(t.left) >= low {
      ResumeLeft(st, t, low, high);
      WalkingPushed(e, h, t, flags);
    } else {
      ResumeRight(st, t, low, high);
    }
  }

  lemma WalkingPushed(e: Ends, h: Heap, t: Tree, st: seq<Frame>)
    requires t.Node? && Walking(e, h, t, st)
    ensures Walking(e, h, t.left, st + [Frame(t, false)])
    ensures Left(t.left, st + [Frame(t, false)]) < Left(t, st)
  {
    InHeapParts(e, h, t);
    RemainingPushed(st, t);
  }

  // One finished branch left.
  ghost predicate Popped(st: seq<Frame>, t': Tree, st': seq<Frame>)
    requires Frames(st) && st != []
  {
    var e, rest := st[|st| - 1], st[..|st| - 1];
    if e.flagged then t' == e.tree.right && st' == Flagged(rest) else t' == Leaf && st' == rest
  }

  lemma PoppedOK(e: Ends, h: Heap, st: seq<Frame>, low: int, high: int, t': Tree, st': seq<Frame>)
    requires Walking(e, h, Leaf, st) && st != [] && Popped(st, t', st')
    ensures Walking(e, h, t', st') && Ahead(Leaf, st, low, high) == Ahead(t', st', low, high)
    ensures Left(t', st') <= Left(Leaf, st) && |st'| < |st|
  {
    var rest := st[..|st| - 1];
    InHeapParts(e, h, st[|st| - 1].tree);
    ResumePop(st, low, high);
    RemainingFlagged(rest);
    assert Walking(e, h, Leaf, rest) && Walking(e, h, Leaf, Flagged(rest));
  }
}
