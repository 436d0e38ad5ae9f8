/**
 * Switching off ports so that the links left between switches form a spanning tree.
 */
module SpanningTrees {

  // ---------- the network ----------

  // One end of a link, at the node that lists it: the number of the link, the node at the other
  // end and the place of the link in that node's list.
  datatype End = End(link: nat, remote: nat, twin: nat, port: int, control: bool)
  type Network = seq<seq<End>>

  datatype Place = Place(node: nat, index: nat)

  predicate At(net: Network, i: nat, j: nat) { i < |net| && j < |net[i]| }

  predicate Data(net: Network, i: nat, j: nat) { At(net, i, j) && !net[i][j].control }

  // The other end of the link.
  function Twin(net: Network, i: nat, j: nat): Place
    requires At(net, i, j)
  {
    Place(net[i][j].remote, net[i][j].twin)
  }

  ghost predicate Paired(net: Network, i: nat, j: nat)
    requires At(net, i, j)
  {
    var t := Twin(net, i, j);
    && At(net, t.node, t.index) && Twin(net, t.node, t.index) == Place(i, j) && t != Place(i, j)
    && net[t.node][t.index].link == net[i][j].link && net[t.node][t.index].control == net[i][j].control
  }

  // Ends come in pairs; no two pairs share a number, no two ends at a node a port.
  ghost predicate Symmetric(net: Network) {
    && (forall i: nat, j: nat :: At(net, i, j) ==> Paired(net, i, j))
    && (forall i: nat, j: nat, a: nat, b: nat :: At(net, i, j) && At(net, a, b) && net[i][j].link == net[a][b].link
          ==> Place(a, b) == Place(i, j) || Place(a, b) == Twin(net, i, j))
    && forall i: nat, j: nat, b: nat :: Data(net, i, j) && Data(net, i, b) && net[i][j].port == net[i][b].port ==>
        j == b
  }

  ghost predicate Closed(net: Network, s: set<nat>) {
    forall i: nat, j: nat :: i in s && Data(net, i, j) ==> net[i][j].remote in s
  }

  function UpTo(n: nat): (s: set<nat>)
    ensures (forall i: nat :: i in s <==> i < n) && |s| == n
  {
    if n == 0 then {} else UpTo(n - 1) + {n - 1}
  }

  function Nodes(net: Network): set<nat> { UpTo(|net|) }

  // No group of nodes is cut off from the others.
  ghost predicate Connected(net: Network) {
    forall s: set<nat> :: s != {} && s <= Nodes(net) && Closed(net, s) ==> s == Nodes(net)
  }

  // ---------- what is left ----------

  // The ports switched off, node by node.
  type Ports = seq<seq<int>>

  predicate Off(net: Network, ports: Ports, i: nat, j: nat) {
    At(net, i, j) && |ports| == |net| && net[i][j].port in ports[i]
  }

  // A link between switches with neither of its ends switched off.
  predicate Kept(net: Network, ports: Ports, i: nat, j: nat) {
    Data(net, i, j) && !Off(net, ports, i, j) && !Off(net, ports, Twin(net, i, j).node, Twin(net, i, j).index)
  }

  // How the tree hangs together: where each node but the root was reached from, and how deep it is.
  datatype Growth = Growth(root: nat, via: map<nat, Place>, depth: map<nat, nat>)

  // The link over which x was reached.
  ghost predicate Reaches(net: Network, t: Growth, x: nat) {
    x in t.via && var p := t.via[x];
      && Data(net, p.node, p.index) && net[p.node][p.index].remote == x
      && x in t.depth && p.node in t.depth && t.depth[x] == t.depth[p.node] + 1
  }

  // Every node but the root hangs by one kept link from a node less deep, and there are no other
  // kept links.
  ghost predicate Spanning(net: Network, ports: Ports, t: Growth) {
    && t.root < |net| && t.via.Keys == Nodes(net) - {t.root}
    && (forall x :: x in t.via ==> Reaches(net, t, x) && Kept(net, ports, t.via[x].node, t.via[x].index))
    && forall i: nat, j: nat :: Kept(net, ports, i, j) ==> Hangs(net, t, i, j)
  }

  ghost predicate Hangs(net: Network, t: Growth, i: nat, j: nat) {
    && At(net, i, j)
    && (var r := net[i][j].remote;
      || (r in t.via && t.via[r] == Place(i, j))
      || (i in t.via && t.via[i] == Twin(net, i, j)))
  }

  // ---------- a spanning tree ----------

  // Over kept links alone the root can be reached from every node.
  ghost predicate Path(net: Network, ports: Ports, x: nat, y: nat, n: nat)
    decreases n
  {
    if n == 0 then x == y
    else exists i: nat, j: nat :: Kept(net, ports, i, j) && net[i][j].remote == x && Path(net, ports, i, y, n - 1)
  }

  lemma {:induction false} ReachesRoot(net: Network, ports: Ports, t: Growth, x: nat)
    requires Spanning(net, ports, t) && x < |net| && x in t.depth
    ensures exists n: nat :: Path(net, ports, x, t.root, n)
    decreases t.depth[x]
  {
    if x == t.root {
      assert Path(net, ports, x, t.root, 0);
    } else {
      var p := t.via[x];
      assert Reaches(net, t, x);
      ReachesRoot(net, ports, t, p.node);
      var n: nat :| Path(net, ports, p.node, t.root, n);
      assert Kept(net, ports, p.node, p.index) && net[p.node][p.index].remote == x;
      assert Path(net, ports, x, t.root, n + 1);
    }
  }

  // The links kept.
  ghost function KeptLinks(net: Network, ports: Ports): set<nat> {
    set i: nat, j: nat | i < |net| && j < |net[i]| && Kept(net, ports, i, j) :: net[i][j].link
  }

  function LinkOf(net: Network, t: Growth, x: nat): nat {
    if x in t.via && At(net, t.via[x].node, t.via[x].index) then net[t.via[x].node][t.via[x].index].link else 0
  }

  // No two nodes hang by the same link.
  lemma OwnLinks(net: Network, ports: Ports, t: Growth, x: nat, y: nat)
    requires Symmetric(net) && Spanning(net, ports, t) && x in t.via && y in t.via
        && LinkOf(net, t, x) == LinkOf(net, t, y)
    ensures x == y
  {
    var p, q := t.via[x], t.via[y];
    assert Reaches(net, t, x) && Reaches(net, t, y);
  }

  lemma {:induction false} ImageSize(net: Network, ports: Ports, t: Growth, s: set<nat>)
    requires Symmetric(net) && Spanning(net, ports, t) && s <= t.via.Keys
    ensures |set x | x in s :: LinkOf(net, t, x)| == |s|
    decreases s
  {
    hide Paired, Twin, Reaches, Kept, Hangs, LinkOf;
    if s == {} {
      assert (set x | x in s :: LinkOf(net, t, x)) == {};
    } else {
      var x :| x in s;
      var r := s - {x};
      ImageSize(net, ports, t, r);
      var image := set y | y in r :: LinkOf(net, t, y);
      if LinkOf(net, t, x) in image {
        var y :| y in r && LinkOf(net, t, y) == LinkOf(net, t, x);
        OwnLinks(net, ports, t, x, y);
      }
      assert (set y | y in s :: LinkOf(net, t, y)) == image + {LinkOf(net, t, x)};
    }
  }

  // There is one link fewer than there are nodes.
  lemma KeptCount(net: Network, ports: Ports, t: Growth)
    requires Symmetric(net) && Spanning(net, ports, t)
    ensures |KeptLinks(net, ports)| == |net| - 1
  {
    var image := set x | x in t.via.Keys :: LinkOf(net, t, x);
    ImageIsKept(net, ports, t, image);
    ImageSize(net, ports, t, t.via.Keys);
    assert |Nodes(net) - {t.root}| == |Nodes(net)| - 1;
  }

  lemma ImageIsKept(net: Network, ports: Ports, t: Growth, image: set<nat>)
    requires Symmetric(net) && Spanning(net, ports, t) && image == set x | x in t.via.Keys :: LinkOf(net, t, x)
    ensures KeptLinks(net, ports) == image
  {
    forall l | l in KeptLinks(net, ports)
      ensures l in image
    {
      var i: nat, j: nat :| i < |net| && j < |net[i]| && Kept(net, ports, i, j) && net[i][j].link == l;
      HangsByLink(net, ports, t, i, j);
      var x :| x in t.via && LinkOf(net, t, x) == l;
    }
    forall l | l in image
      ensures l in KeptLinks(net, ports)
    {
      var x :| x in t.via && LinkOf(net, t, x) == l;
      assert Reaches(net, t, x);
    }
  }

  lemma HangsByLink(net: Network, ports: Ports, t: Growth, i: nat, j: nat)
    requires Symmetric(net) && Spanning(net, ports, t) && Kept(net, ports, i, j)
    ensures exists x :: x in t.via && LinkOf(net, t, x) == net[i][j].link
  {
    assert Hangs(net, t, i, j) && Paired(net, i, j);
    var r := net[i][j].remote;
    if r in t.via && t.via[r] == Place(i, j) {
      assert LinkOf(net, t, r) == net[i][j].link;
    } else {
      assert LinkOf(net, t, i) == net[i][j].link;
    }
  }

  function After(k: nat, n: nat): (m: nat)
    requires k < n
    ensures m < n
  {
    if k + 1 == n then 0 else k + 1
  }

  // A way round: kept links one after the other, no link twice running, back where it began.
  ghost predicate Cycle(net: Network, ports: Ports, c: seq<Place>) {
    c != [] && forall k: nat :: k < |c| ==> Onward(net, ports, c[k], c[After(k, |c|)], |c| > 1)
  }

  ghost predicate Onward(net: Network, ports: Ports, p: Place, q: Place, several: bool) {
    && Kept(net, ports, p.node, p.index) && Kept(net, ports, q.node, q.index)
    && net[p.node][p.index].remote == q.node
    && (several ==> net[p.node][p.index].link != net[q.node][q.index].link)
  }

  // There is none: a deepest node of it would hang by two links.
  lemma NoCycle(net: Network, ports: Ports, t: Growth, c: seq<Place>)
    requires Symmetric(net) && Spanning(net, ports, t) && t.depth.Keys == Nodes(net)
    ensures !Cycle(net, ports, c)
  {
    if Cycle(net, ports, c) {
      var k := Deepest(net, ports, t, c);
      NotBoth(net, ports, t, c[k], c[After(k, |c|)], |c| > 1);
    }
  }

  // The place before a deepest node.
  lemma Deepest(net: Network, ports: Ports, t: Growth, c: seq<Place>) returns (k: nat)
    requires Symmetric(net) && Cycle(net, ports, c) && t.depth.Keys == Nodes(net)
    ensures k < |c| && c[k].node in t.depth && c[After(k, |c|)].node in t.depth
    ensures t.depth[c[k].node] <= t.depth[c[After(k, |c|)].node]
    ensures var q := c[After(k, |c|)];
      && Kept(net, ports, q.node, q.index) && net[q.node][q.index].remote in t.depth
      && t.depth[net[q.node][q.index].remote] <= t.depth[q.node]
  {
    hide Kept;
    forall i: nat | i < |c|
      ensures Kept(net, ports, c[i].node, c[i].index) && c[i].node in t.depth
    {
      assert Onward(net, ports, c[i], c[After(i, |c|)], |c| > 1);
      KeptNode(net, ports, c[i]);
    }
    var d := 0;
    for i := 1 to |c|
      invariant 0 <= d < i && forall j :: 0 <= j < i ==> t.depth[c[j].node] <= t.depth[c[d].node]
    {
      if t.depth[c[i].node] > t.depth[c[d].node] { d := i; }
    }
    k := if d == 0 then |c| - 1 else d - 1;
    assert After(k, |c|) == d;
    assert Onward(net, ports, c[d], c[After(d, |c|)], |c| > 1);
  }

  lemma KeptNode(net: Network, ports: Ports, p: Place)
    requires Kept(net, ports, p.node, p.index)
    ensures p.node in Nodes(net)
  {
  }

  // A node that is no less deep than two neighbours on a way cannot hang by both links.
  lemma NotBoth(net: Network, ports: Ports, t: Growth, p: Place, q: Place, several: bool)
    requires Symmetric(net) && Spanning(net, ports, t) && (several || p == q)
    requires Kept(net, ports, p.node, p.index) && Kept(net, ports, q.node, q.index)
    requires p.node in t.depth && q.node in t.depth && net[q.node][q.index].remote in t.depth
    requires t.depth[p.node] <= t.depth[q.node] && t.depth[net[q.node][q.index].remote] <= t.depth[q.node]
    ensures !Onward(net, ports, p, q, several)
  {
    assert Paired(net, p.node, p.index);
    if net[p.node][p.index].remote == q.node {
      StepsDown(net, ports, t, p.node, p.index);
      StepsDown(net, ports, t, q.node, q.index);
    }
  }

  // The two ends of a kept link differ in depth by one, and the deeper node hangs by the link.
  lemma StepsDown(net: Network, ports: Ports, t: Growth, i: nat, j: nat)
    requires Symmetric(net) && Spanning(net, ports, t) && Kept(net, ports, i, j)
    requires i in t.depth && net[i][j].remote in t.depth
    ensures var r := net[i][j].remote;
      || (t.depth[r] == t.depth[i] + 1 && r in t.via && LinkOf(net, t, r) == net[i][j].link)
      || (t.depth[i] == t.depth[r] + 1 && i in t.via && LinkOf(net, t, i) == net[i][j].link)
  {
    assert Hangs(net, t, i, j);
    var r := net[i][j].remote;
    if r in t.via && t.via[r] == Place(i, j) {
      assert Reaches(net, t, r);
    } else {
      assert Reaches(net, t, i);
    }
  }
}
