/**
 * The module that grows the tree and collects the ports to switch off.
 */
module StaticSpanningTrees {
  import opened SpanningTrees

  datatype NodeInfo = NodeInfo(isInTree: bool, isProcessed: bool, moduleID: int, ports: seq<int>,
      treeNeighbors: seq<int>)

  function PortsOf(info: seq<NodeInfo>): (p: Ports)
    ensures |p| == |info| && forall i :: 0 <= i < |info| ==> p[i] == info[i].ports
  {
    if info == [] then [] else [info[0].ports] + PortsOf(info[1..])
  }

  // ---------- how far the growing has got ----------

  // The j-th end at node i has been looked at: node c is being processed and has got to m.
  predicate Seen(net: Network, info: seq<NodeInfo>, c: nat, m: nat, i: nat, j: nat) {
    At(net, i, j) && |info| == |net| && if i == c then j < m else info[i].isProcessed
  }

  // The end leads to a child over the link the child hangs by, or to the parent.
  ghost predicate OnTree(net: Network, t: Growth, i: nat, j: nat) {
    && At(net, i, j)
    && (var r := net[i][j].remote; (r in t.via && t.via[r] == Place(i, j)) || (i in t.via && t.via[i].node == r))
  }

  ghost predicate Shape(net: Network, info: seq<NodeInfo>) {
    |info| == |net| && forall i :: 0 <= i < |net| ==>
        |info[i].treeNeighbors| == |net| && (info[i].isProcessed ==> info[i].isInTree)
  }

  predicate InTree(info: seq<NodeInfo>, x: nat) { x < |info| && info[x].isInTree }

  ghost predicate Rooted(net: Network, info: seq<NodeInfo>, t: Growth) {
    && InTree(info, t.root) && t.root !in t.via
    && (forall x: nat :: InTree(info, x) <==> x == t.root || x in t.via)
    && forall x: nat :: InTree(info, x) <==> x in t.depth
  }

  ghost predicate Hanging(net: Network, info: seq<NodeInfo>, t: Growth, c: nat, m: nat) {
    forall x: nat :: x in t.via ==> Reaches(net, t, x) && Seen(net, info, c, m, t.via[x].node, t.via[x].index)
  }

  ghost predicate Neighbours(net: Network, info: seq<NodeInfo>, t: Growth)
    requires Shape(net, info)
  {
    forall x: nat, y: nat :: x < |net| && y < |net| ==>
        (info[x].treeNeighbors[y] == 1 <==> x in t.via && t.via[x].node == y)
  }

  ghost predicate Switched(net: Network, info: seq<NodeInfo>, t: Growth, c: nat, m: nat)
    requires Shape(net, info)
  {
    forall i: nat, j: nat :: Data(net, i, j) ==>
      (net[i][j].port in info[i].ports <==> Seen(net, info, c, m, i, j) && !OnTree(net, t, i, j))
  }

  ghost predicate Spread(net: Network, info: seq<NodeInfo>, c: nat, m: nat) {
    forall i: nat, j: nat :: Data(net, i, j) && Seen(net, info, c, m, i, j) ==> InTree(info, net[i][j].remote)
  }

  ghost predicate Growing(net: Network, info: seq<NodeInfo>, t: Growth, c: nat, m: nat) {
    && Shape(net, info) && Rooted(net, info, t) && Hanging(net, info, t, c, m) && Neighbours(net, info, t)
    && Switched(net, info, t, c, m) && Spread(net, info, c, m)
  }

  // ---------- the steps ----------

  ghost predicate SameTree(info: seq<NodeInfo>, info': seq<NodeInfo>) {
    |info'| == |info| && forall x :: 0 <= x < |info| ==>
      info'[x].isInTree == info[x].isInTree && info'[x].treeNeighbors == info[x].treeNeighbors
  }

  lemma SameTreeKept(net: Network, info: seq<NodeInfo>, info': seq<NodeInfo>, t: Growth)
    requires Shape(net, info) && Rooted(net, info, t) && Neighbours(net, info, t) && SameTree(info, info')
    requires forall x :: 0 <= x < |info'| && info'[x].isProcessed ==> info'[x].isInTree
    ensures Shape(net, info') && Rooted(net, info', t) && Neighbours(net, info', t)
  {
    assert forall x: nat :: InTree(info', x) <==> InTree(info, x);
  }

  // Whatever is seen stays seen.
  ghost predicate SeenMore(net: Network, info: seq<NodeInfo>, c: nat, m: nat, info': seq<NodeInfo>, c': nat, m': nat) {
    forall a: nat, b: nat :: Seen(net, info, c, m, a, b) ==> Seen(net, info', c', m', a, b)
  }

  lemma HangingKept(net: Network, info: seq<NodeInfo>, c: nat, m: nat, info': seq<NodeInfo>, c': nat, m': nat,
      t: Growth)
    requires Hanging(net, info, t, c, m) && SeenMore(net, info, c, m, info', c', m')
    ensures Hanging(net, info', t, c', m')
  {
    hide Seen;
  }

  // Node i is taken up.
  lemma Begun(net: Network, info: seq<NodeInfo>, t: Growth, i: nat)
    requires Growing(net, info, t, |net|, 0) && i < |net| && InTree(info, i) && !info[i].isProcessed
    ensures Growing(net, info[i := info[i].(isProcessed := true)], t, i, 0)
  {
    var info' := info[i := info[i].(isProcessed := true)];
    SameTreeKept(net, info, info', t);
    HangingKept(net, info, |net|, 0, info', i, 0, t);
    BegunEnds(net, info, t, i);
  }

  lemma BegunEnds(net: Network, info: seq<NodeInfo>, t: Growth, i: nat)
    requires Shape(net, info) && Switched(net, info, t, |net|, 0) && Spread(net, info, |net|, 0)
    requires i < |net| && InTree(info, i) && !info[i].isProcessed
    ensures var info' := info[i := info[i].(isProcessed := true)];
      Shape(net, info') && Switched(net, info', t, i, 0) && Spread(net, info', i, 0)
  {
    hide OnTree;
    var info' := info[i := info[i].(isProcessed := true)];
    assert forall a: nat, b: nat :: At(net, a, b) ==>
        (Seen(net, info', i, 0, a, b) <==> Seen(net, info, |net|, 0, a, b));
  }

  // ... and is done with.
  lemma Ended(net: Network, info: seq<NodeInfo>, t: Growth, i: nat)
    requires i < |net| && Growing(net, info, t, i, |net[i]|) && info[i].isProcessed
    ensures Growing(net, info, t, |net|, 0)
  {
    assert forall a: nat, b: nat :: At(net, a, b) ==>
        (Seen(net, info, |net|, 0, a, b) <==> Seen(net, info, i, |net[i]|, a, b));
  }

  // A control link is passed over; so is the link to the parent.
  lemma Passed(net: Network, info: seq<NodeInfo>, t: Growth, i: nat, j: nat)
    requires Growing(net, info, t, i, j) && At(net, i, j)
    requires Data(net, i, j) ==> OnTree(net, t, i, j) && InTree(info, net[i][j].remote)
    ensures Growing(net, info, t, i, j + 1)
  {
    assert forall a: nat, b: nat :: Place(a, b) != Place(i, j) ==>
        (Seen(net, info, i, j + 1, a, b) <==> Seen(net, info, i, j, a, b));
  }

  // A new node is reached.
  function Reached(info: seq<NodeInfo>, i: nat, x: nat): seq<NodeInfo>
    requires x < |info| && i < |info[x].treeNeighbors|
  {
    info[x := info[x].(isInTree := true, treeNeighbors := info[x].treeNeighbors[i := 1])]
  }

  function Grown(t: Growth, i: nat, j: nat, x: nat): Growth
    requires i in t.depth
  {
    t.(via := t.via[x := Place(i, j)], depth := t.depth[x := t.depth[i] + 1])
  }

  // A link that would close a ring is switched off.
  function SwitchedOff(info: seq<NodeInfo>, i: nat, port: int): seq<NodeInfo>
    requires i < |info|
  {
    info[i := info[i].(ports := info[i].ports + [port])]
  }

  lemma ReachedNode(net: Network, info: seq<NodeInfo>, t: Growth, i: nat, j: nat)
    requires Symmetric(net) && Growing(net, info, t, i, j) && Data(net, i, j) && InTree(info, i) && info[i].isProcessed
    requires !InTree(info, net[i][j].remote)
    ensures var x := net[i][j].remote;
      x < |info| && i in t.depth && Growing(net, Reached(info, i, x), Grown(t, i, j, x), i, j + 1)
  {
    var x := net[i][j].remote;
    assert Paired(net, i, j);
    var info', t' := Reached(info, i, x), Grown(t, i, j, x);
    ReachedHanging(net, info, t, i, j);
    ReachedSpread(net, info, i, j);
    ReachedSwitched(net, info, t, i, j);
    ReachedRooted(net, info, t, i, j);
    ReachedNeighbours(net, info, t, i, j);
  }

  lemma ReachedRooted(net: Network, info: seq<NodeInfo>, t: Growth, i: nat, j: nat)
    requires Shape(net, info) && Rooted(net, info, t) && At(net, i, j) && InTree(info, i)
    requires !InTree(info, net[i][j].remote) && net[i][j].remote < |net|
    ensures var x := net[i][j].remote; Rooted(net, Reached(info, i, x), Grown(t, i, j, x))
  {
    var x := net[i][j].remote;
    assert forall y: nat :: InTree(Reached(info, i, x), y) <==> InTree(info, y) || y == x;
  }

  lemma ReachedNeighbours(net: Network, info: seq<NodeInfo>, t: Growth, i: nat, j: nat)
    requires Shape(net, info) && Rooted(net, info, t) && Neighbours(net, info, t) && At(net, i, j) && InTree(info, i)
    requires !InTree(info, net[i][j].remote) && net[i][j].remote < |net|
    ensures var x := net[i][j].remote;
      Shape(net, Reached(info, i, x)) && Neighbours(net, Reached(info, i, x), Grown(t, i, j, x))
  {
    assert net[i][j].remote !in t.via;
  }

  lemma ReachedSpread(net: Network, info: seq<NodeInfo>, i: nat, j: nat)
    requires Shape(net, info) && Spread(net, info, i, j) && At(net, i, j) && InTree(info, i) && info[i].isProcessed
    requires !InTree(info, net[i][j].remote) && net[i][j].remote < |net|
    ensures Spread(net, Reached(info, i, net[i][j].remote), i, j + 1)
  {
    var x := net[i][j].remote;
    var info' := Reached(info, i, x);
    forall a: nat, b: nat | Data(net, a, b) && Seen(net, info', i, j + 1, a, b)
      ensures InTree(info', net[a][b].remote)
    {
      if Place(a, b) != Place(i, j) { assert Seen(net, info, i, j, a, b); }
    }
  }

  lemma ReachedHanging(net: Network, info: seq<NodeInfo>, t: Growth, i: nat, j: nat)
    requires Growing(net, info, t, i, j) && Data(net, i, j) && InTree(info, i) && info[i].isProcessed
    requires !InTree(info, net[i][j].remote) && net[i][j].remote < |net|
    ensures var x := net[i][j].remote;
      Hanging(net, Reached(info, i, x), Grown(t, i, j, x), i, j + 1)
  {
    var x := net[i][j].remote;
    var info', t' := Reached(info, i, x), Grown(t, i, j, x);
    assert SeenMore(net, info, i, j, info', i, j + 1);
    forall y: nat | y in t'.via
      ensures Reaches(net, t', y) && Seen(net, info', i, j + 1, t'.via[y].node, t'.via[y].index)
    {
      if y != x { ReachesKept(net, info, t, i, j, y); }
    }
  }

  lemma ReachesKept(net: Network, info: seq<NodeInfo>, t: Growth, i: nat, j: nat, y: nat)
    requires Rooted(net, info, t) && Hanging(net, info, t, i, j) && At(net, i, j) && InTree(info, i)
    requires !InTree(info, net[i][j].remote) && y in t.via
    ensures y != net[i][j].remote && Reaches(net, Grown(t, i, j, net[i][j].remote), y)
    ensures Seen(net, info, i, j, t.via[y].node, t.via[y].index)
  {
    assert Reaches(net, t, y) && InTree(info, y) && InTree(info, t.via[y].node);
  }

  lemma ReachedSwitched(net: Network, info: seq<NodeInfo>, t: Growth, i: nat, j: nat)
    requires Growing(net, info, t, i, j) && Data(net, i, j) && InTree(info, i) && info[i].isProcessed
    requires !InTree(info, net[i][j].remote) && net[i][j].remote < |net|
    ensures var x := net[i][j].remote;
      Shape(net, Reached(info, i, x)) && Switched(net, Reached(info, i, x), Grown(t, i, j, x), i, j + 1)
  {
    var x := net[i][j].remote;
    var info', t' := Reached(info, i, x), Grown(t, i, j, x);
    forall a: nat, b: nat | Data(net, a, b)
      ensures net[a][b].port in info'[a].ports <==> Seen(net, info', i, j + 1, a, b) && !OnTree(net, t', a, b)
    {
      assert net[a][b].port in info[a].ports <==> Seen(net, info, i, j, a, b) && !OnTree(net, t, a, b);
      if Seen(net, info, i, j, a, b) { assert InTree(info, net[a][b].remote); }
    }
  }

  lemma RingClosed(net: Network, info: seq<NodeInfo>, t: Growth, i: nat, j: nat)
    requires Symmetric(net) && Growing(net, info, t, i, j) && Data(net, i, j) && InTree(info, i) && info[i].isProcessed
    requires InTree(info, net[i][j].remote) && info[i].treeNeighbors[net[i][j].remote] != 1
    ensures Growing(net, SwitchedOff(info, i, net[i][j].port), t, i, j + 1)
  {
    var info' := SwitchedOff(info, i, net[i][j].port);
    SameTreeKept(net, info, info', t);
    HangingKept(net, info, i, j, info', i, j + 1, t);
    RingPorts(net, info, t, i, j);
    RingSpread(net, info, i, j);
  }

  lemma RingSpread(net: Network, info: seq<NodeInfo>, i: nat, j: nat)
    requires Shape(net, info) && Spread(net, info, i, j) && At(net, i, j) && InTree(info, net[i][j].remote)
    ensures Spread(net, SwitchedOff(info, i, net[i][j].port), i, j + 1)
  {
    var info' := SwitchedOff(info, i, net[i][j].port);
    forall a: nat, b: nat | Data(net, a, b) && Seen(net, info', i, j + 1, a, b)
      ensures InTree(info', net[a][b].remote)
    {
      if Place(a, b) != Place(i, j) { assert Seen(net, info, i, j, a, b); }
    }
  }

  lemma RingPorts(net: Network, info: seq<NodeInfo>, t: Growth, i: nat, j: nat)
    requires Symmetric(net) && Growing(net, info, t, i, j) && Data(net, i, j) && InTree(info, i) && info[i].isProcessed
    requires InTree(info, net[i][j].remote) && info[i].treeNeighbors[net[i][j].remote] != 1
    ensures Shape(net, SwitchedOff(info, i, net[i][j].port))
        && Switched(net, SwitchedOff(info, i, net[i][j].port), t, i, j + 1)
  {
    hide Paired, Reaches, Twin, Rooted;
    var info' := SwitchedOff(info, i, net[i][j].port);
    assert !OnTree(net, t, i, j);
    forall a: nat, b: nat | Data(net, a, b)
      ensures net[a][b].port in info'[a].ports <==> Seen(net, info', i, j + 1, a, b) && !OnTree(net, t, a, b)
    {
      assert net[a][b].port in info[a].ports <==> Seen(net, info, i, j, a, b) && !OnTree(net, t, a, b);
    }
  }

  // ---------- the end ----------

  lemma AllReached(net: Network, info: seq<NodeInfo>, t: Growth)
    requires Connected(net) && Growing(net, info, t, |net|, 0)
    requires forall x: nat :: InTree(info, x) ==> info[x].isProcessed
    ensures forall x: nat :: x < |net| ==> InTree(info, x)
  {
    hide Hanging, Neighbours, Switched;
    var s := set x | x in Nodes(net) && InTree(info, x);
    assert t.root in s;
    forall i: nat, j: nat | i in s && Data(net, i, j)
      ensures net[i][j].remote in s
    {
      assert Seen(net, info, |net|, 0, i, j);
    }
    assert Closed(net, s) && s != {} && s <= Nodes(net);
    forall x: nat | x < |net|
      ensures InTree(info, x)
    {
      assert x in Nodes(net);
    }
  }

  lemma GrownUp(net: Network, info: seq<NodeInfo>, t: Growth)
    requires Symmetric(net) && Growing(net, info, t, |net|, 0) && forall x: nat :: x < |net| ==> info[x].isProcessed
    ensures Spanning(net, PortsOf(info), t) && t.depth.Keys == Nodes(net)
  {
    var ports := PortsOf(info);
    forall x | x in t.via
      ensures Kept(net, ports, t.via[x].node, t.via[x].index)
    {
      LinkKept(net, info, t, x);
    }
    forall i: nat, j: nat | Kept(net, ports, i, j)
      ensures Hangs(net, t, i, j)
    {
      KeptHangs(net, info, t, i, j);
    }
    assert forall x :: x in t.via ==> Reaches(net, t, x);
    assert forall x: nat :: x < |net| ==> InTree(info, x);
  }

  lemma LinkKept(net: Network, info: seq<NodeInfo>, t: Growth, x: nat)
    requires Symmetric(net) && Growing(net, info, t, |net|, 0) && (forall x: nat :: x < |net| ==> info[x].isProcessed)
        && x in t.via
    ensures Kept(net, PortsOf(info), t.via[x].node, t.via[x].index)
  {
    var p := t.via[x];
    assert Reaches(net, t, x) && Paired(net, p.node, p.index);
    var q := Twin(net, p.node, p.index);
    assert OnTree(net, t, p.node, p.index) && OnTree(net, t, q.node, q.index);
  }

  lemma KeptHangs(net: Network, info: seq<NodeInfo>, t: Growth, i: nat, j: nat)
    requires Symmetric(net) && Growing(net, info, t, |net|, 0) && (forall x: nat :: x < |net| ==> info[x].isProcessed)
    requires Kept(net, PortsOf(info), i, j)
    ensures Hangs(net, t, i, j)
  {
    assert Paired(net, i, j);
    var q := Twin(net, i, j);
    assert OnTree(net, t, i, j) && OnTree(net, t, q.node, q.index);
    assert i in t.via ==> Reaches(net, t, i);
    assert q.node in t.via ==> Reaches(net, t, q.node);
  }

  // ---------- the module ----------

  class StaticSpanningTree {
    const net: Network
    var nodeInfo: seq<NodeInfo>

    ghost var growth: Growth

    constructor (network: Network, moduleIDs: seq<int>)
      requires |moduleIDs| == |network|
      ensures net == network && |nodeInfo| == |net|
      ensures forall i :: 0 <= i < |net| ==>
                nodeInfo[i] == NodeInfo(false, false, moduleIDs[i], [], seq(|net|, _ => 0))
    {
      net := network;
      nodeInfo := seq(|network|, i requires 0 <= i < |network| => NodeInfo(false, false, moduleIDs[i], [],
          seq(|network|, _ => 0)));
      growth := Growth(0, map[], map[]);
    }

    // Modules are told apart by their numbers.
    ghost predicate Named()
      reads this`nodeInfo
    {
      |nodeInfo| == |net| && forall i, j :: 0 <= i < j < |net| ==> nodeInfo[i].moduleID != nodeInfo[j].moduleID
    }

    ghost predicate Network()
      reads this`nodeInfo
    {
      Named() && Symmetric(net)
    }

    ghost predicate Fresh()
      reads this`nodeInfo
    {
      forall i :: 0 <= i < |nodeInfo| ==>
        && !nodeInfo[i].isInTree && !nodeInfo[i].isProcessed && nodeInfo[i].ports == []
        && nodeInfo[i].treeNeighbors == seq(|net|, _ => 0)
    }

    // The links left on after initialisation form a spanning tree.
    method Initialize(startNode: nat)
      requires Network() && Connected(net) && Fresh() && |net| > 0
      modifies this
      ensures Spanning(net, PortsOf(nodeInfo), growth) && growth.depth.Keys == Nodes(net)
      ensures growth.root < |net| && (startNode < |net| ==> growth.root == startNode)
    {
      var start := startNode;
      if startNode >= |net| {
        start :| 0 <= start < |net|;
      }
      Plant(start);
      var counter := 0;
      while counter != |net|
        invariant Network() && Growing(net, nodeInfo, growth, |net|, 0) && growth.root == start
        invariant counter == |net| ==> forall i :: 0 <= i < |net| ==> nodeInfo[i].isProcessed
        decreases Unprocessed(nodeInfo), if counter == |net| then 0 else 1
      {
        counter := Pass();
      }
      GrownUp(net, nodeInfo, growth);
    }

    method Plant(start: nat)
      requires Network() && Fresh() && start < |net|
      modifies this
      ensures Network() && Growing(net, nodeInfo, growth, |net|, 0) && growth.root == start
    {
      nodeInfo := nodeInfo[start := nodeInfo[start].(isInTree := true)];
      growth := Growth(start, map[], map[start := 0]);
    }

    // One pass over the nodes: those in the tree and not processed yet are processed.
    method Pass() returns (counter: nat)
      requires Network() && Connected(net) && Growing(net, nodeInfo, growth, |net|, 0)
      modifies this
      ensures Network() && Growing(net, nodeInfo, growth, |net|, 0) && growth.root == old(growth.root)
      ensures counter == |net| ==> forall i :: 0 <= i < |net| ==> nodeInfo[i].isProcessed
      ensures Unprocessed(nodeInfo) < Unprocessed(old(nodeInfo)) || (nodeInfo == old(nodeInfo) && counter == |net|)
    {
      hide Growing, Symmetric;
      counter := 0;
      for i := 0 to |net|
        invariant Named() && Symmetric(net) && Growing(net, nodeInfo, growth, |net|, 0) && counter <= i
        invariant growth.root == old(growth.root)
        invariant counter == i ==> forall k :: 0 <= k < i ==> nodeInfo[k].isProcessed
        invariant Unprocessed(nodeInfo) < Unprocessed(old(nodeInfo)) || nodeInfo == old(nodeInfo)
        invariant nodeInfo == old(nodeInfo) ==> forall k :: 0 <= k < i && nodeInfo[k].isInTree ==>
            nodeInfo[k].isProcessed
        invariant nodeInfo == old(nodeInfo) && (forall k :: 0 <= k < i ==> nodeInfo[k].isProcessed) ==> counter == i
      {
        if nodeInfo[i].isProcessed {
          counter := counter + 1;
        }
        if nodeInfo[i].isInTree && !nodeInfo[i].isProcessed {
          Process(i);
        }
      }
      if nodeInfo == old(nodeInfo) { AllReached(net, nodeInfo, growth); }
    }

    // All links of node i are looked at.
    method Process(i: nat)
      requires Named() && Symmetric(net) && Growing(net, nodeInfo, growth, |net|, 0)
      requires i < |net| && nodeInfo[i].isInTree && !nodeInfo[i].isProcessed
      modifies this
      ensures Named() && Symmetric(net) && Growing(net, nodeInfo, growth, |net|, 0)
      ensures nodeInfo[i].isProcessed && forall k :: 0 <= k < |net| && k != i ==>
          nodeInfo[k].isProcessed == old(nodeInfo)[k].isProcessed
      ensures Unprocessed(nodeInfo) < Unprocessed(old(nodeInfo)) && growth.root == old(growth.root)
    {
      hide Growing, Symmetric;
      Begun(net, nodeInfo, growth, i);
      nodeInfo := nodeInfo[i := nodeInfo[i].(isProcessed := true)];
      for j := 0 to |net[i]|
        invariant Named() && Symmetric(net) && Growing(net, nodeInfo, growth, i, j) && nodeInfo[i].isInTree
        invariant growth.root == old(growth.root)
        invariant nodeInfo[i].isProcessed && forall k :: 0 <= k < |net| && k != i ==>
            nodeInfo[k].isProcessed == old(nodeInfo)[k].isProcessed
      {
        if net[i][j].control {
          Passed(net, nodeInfo, growth, i, j);
        } else {
          Follow(i, j);
        }
      }
      Ended(net, nodeInfo, growth, i);
      OneLess(old(nodeInfo), nodeInfo, i);
    }

    // The node at the other end is looked up, and taken into the tree or cut off.
    method Follow(i: nat, j: nat)
      requires Named() && Symmetric(net) && Growing(net, nodeInfo, growth, i, j)
      requires Data(net, i, j) && nodeInfo[i].isInTree && nodeInfo[i].isProcessed
      modifies this
      ensures Named() && Symmetric(net) && Growing(net, nodeInfo, growth, i, j + 1) && nodeInfo[i].isInTree
      ensures forall k :: 0 <= k < |net| ==> nodeInfo[k].isProcessed == old(nodeInfo)[k].isProcessed
      ensures growth.root == old(growth.root)
    {
      hide Growing;
      assert Paired(net, i, j);
      var remote := net[i][j].remote;
      for x := 0 to |net|
        invariant Named() && nodeInfo[i].isInTree
            && (x <= remote ==> nodeInfo == old(nodeInfo) && growth == old(growth))
        invariant x > remote ==> Growing(net, nodeInfo, growth, i, j + 1)
        invariant growth.root == old(growth.root)
        invariant forall k :: 0 <= k < |net| ==> nodeInfo[k].isProcessed == old(nodeInfo)[k].isProcessed
      {
        if nodeInfo[x].moduleID == nodeInfo[remote].moduleID {
          assert x == remote;
          Handle(i, j);
        }
      }
    }

    method Handle(i: nat, j: nat)
      requires Named() && Symmetric(net) && Growing(net, nodeInfo, growth, i, j)
      requires Data(net, i, j) && nodeInfo[i].isInTree && nodeInfo[i].isProcessed && net[i][j].remote < |net|
      modifies this
      ensures Named() && Growing(net, nodeInfo, growth, i, j + 1) && nodeInfo[i].isInTree
      ensures forall k :: 0 <= k < |net| ==> nodeInfo[k].isProcessed == old(nodeInfo)[k].isProcessed
      ensures growth.root == old(growth.root)
    {
      var x := net[i][j].remote;
      if !nodeInfo[x].isInTree {
        ReachedNode(net, nodeInfo, growth, i, j);
        nodeInfo := nodeInfo[x := nodeInfo[x].(isInTree := true, treeNeighbors := nodeInfo[x].treeNeighbors[i := 1])];
        growth := Grown(growth, i, j, x);
      } else if nodeInfo[i].treeNeighbors[x] == 1 {
        Passed(net, nodeInfo, growth, i, j);
      } else {
        RingClosed(net, nodeInfo, growth, i, j);
        nodeInfo := nodeInfo[i := nodeInfo[i].(ports := nodeInfo[i].ports + [net[i][j].port])];
      }
    }
  }

  function Unprocessed(info: seq<NodeInfo>): nat {
    if info == [] then 0 else (if info[0].isProcessed then 0 else 1) + Unprocessed(info[1..])
  }

  lemma {:induction false} OneLess(info: seq<NodeInfo>, info': seq<NodeInfo>, i: nat)
    requires |info'| == |info| && i < |info| && !info[i].isProcessed && info'[i].isProcessed
    requires forall k :: 0 <= k < |info| && k != i ==> info'[k].isProcessed == info[k].isProcessed
    ensures Unprocessed(info') == Unprocessed(info) - 1
  {
    if i == 0 {
      SameNumber(info[1..], info'[1..]);
    } else {
      OneLess(info[1..], info'[1..], i - 1);
    }
  }

  lemma {:induction false} SameNumber(info: seq<NodeInfo>, info': seq<NodeInfo>)
    requires |info'| == |info| && forall k :: 0 <= k < |info| ==> info'[k].isProcessed == info[k].isProcessed
    ensures Unprocessed(info') == Unprocessed(info)
  {
    if info != [] { SameNumber(info[1..], info'[1..]); }
  }
}
