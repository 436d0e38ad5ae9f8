/**
 * The topology object: nodes and links as they are kept in memory, and the searches for
 * shortest paths to a target, which write distances and ways out into the nodes.
 */
module Topologies {
  import opened Basics
  import opened TopologyPaths

  class Link {
    var srcNode: Node?
    var destNode: Node?
    var weight: Cost
    var enabled: bool

    constructor (w: Cost)
      ensures srcNode == null && destNode == null && weight == w && enabled
    {
      srcNode, destNode, weight, enabled := null, null, w, true;
    }
  }

  class Node {
    var moduleId: int
    var weight: Cost
    var enabled: bool
    var inLinks: seq<Link>
    var outLinks: seq<Link>
    var dist: Cost
    var outPath: Link?

    constructor (id: int)
      ensures moduleId == id && weight == Fin(0.0) && enabled && inLinks == [] && outLinks == []
      ensures dist == Inf && outPath == null
    {
      moduleId, weight, enabled, inLinks, outLinks, dist, outPath := id, Fin(0.0), true, [], [], Inf, null;
    }
  }

  class Topology {
    var nodes: seq<Node>
    var target: Node?

    // All links between the nodes.
    ghost var links: set<Link>

    // The node n and the links that arrive there are what g says.
    ghost predicate DepictsAt(g: Graph<Node>, n: Node)
      requires n in nodes
      reads this`nodes, this`links, n`inLinks, n`weight, n`enabled, links
    {
      && n in g && g[n].weight == n.weight && g[n].enabled == n.enabled && |g[n].arcs| == |n.inLinks|
      && forall i :: 0 <= i < |n.inLinks| ==>
           && n.inLinks[i] in links && n.inLinks[i].srcNode != null && n.inLinks[i].srcNode in nodes
           && g[n].arcs[i] == Arc(n.inLinks[i].srcNode, n.inLinks[i].weight, n.inLinks[i].enabled)
    }

    // g is the graph that the nodes and links form.
    ghost predicate Depicts(g: Graph<Node>)
      reads this`nodes, this`links, nodes`inLinks, nodes`weight, nodes`enabled, links
    {
      && (forall n :: n in nodes ==> DepictsAt(g, n))
      && (forall n :: n in g ==> n in nodes)
    }

    // Writing distances and ways leaves the graph alone.
    twostate lemma DepictsKept(g: Graph<Node>)
      requires old(Depicts(g)) && nodes == old(nodes) && links == old(links)
      requires forall n :: n in old(nodes) ==>
          n.inLinks == old(n.inLinks) && n.weight == old(n.weight) && n.enabled == old(n.enabled)
      requires forall l :: l in old(links) ==>
          l.srcNode == old(l.srcNode) && l.weight == old(l.weight) && l.enabled == old(l.enabled)
      ensures Depicts(g)
    {
      forall n | n in nodes
        ensures DepictsAt(g, n)
      {
        assert old(DepictsAt(g, n));
      }
    }

    // The nodes carry the distances and ways of a search.
    ghost predicate Shows(s: Search<Node>)
      reads this`nodes, nodes`inLinks, nodes`dist, nodes`outPath
    {
      forall n :: n in nodes ==> ShownAt(s, n)
    }

    ghost predicate ShownAt(s: Search<Node>, n: Node)
      reads this`nodes, nodes`inLinks, n`dist, n`outPath
    {
      && n in s.dist && n in s.way && n.dist == s.dist[n]
      && Out(s.way[n], n.outPath)
    }

    // The way out over the index-th link into a node is that link.
    ghost predicate Out(way: Way<Node>, outPath: Link?)
      reads this`nodes, nodes`inLinks
    {
      if way.NoWay? then outPath == null
      else way.to in nodes && way.index < |way.to.inLinks| && outPath == way.to.inLinks[way.index]
    }

    lemma GraphAt(g: Graph<Node>, n: Node, i: nat)
      requires Depicts(g) && n in nodes && i < |n.inLinks|
      ensures var l := n.inLinks[i];
        && n in g && |g[n].arcs| == |n.inLinks| && g[n].weight == n.weight
        && l.srcNode != null && l.srcNode in nodes && l.srcNode in g && g[l.srcNode].enabled == l.srcNode.enabled
        && g[n].arcs[i] == Arc(l.srcNode, l.weight, l.enabled)
    {
      assert DepictsAt(g, n);
      assert DepictsAt(g, n.inLinks[i].srcNode);
    }

    // All path information is cleared but that of the target.
    method Clean(t: Node, ghost g: Graph<Node>)
      requires Depicts(g) && t in nodes
      modifies this`target, nodes`dist, nodes`outPath
      ensures target == t && Shows(Initial(g, t))
    {
      target := t;
      Clear();
      t.dist := Fin(0.0);
    }

    method Clear()
      modifies nodes`dist, nodes`outPath
      ensures forall n :: n in nodes ==> n.dist == Inf && n.outPath == null
    {
      for i := 0 to |nodes|
        invariant forall j :: 0 <= j < i ==> nodes[j].dist == Inf && nodes[j].outPath == null
      {
        nodes[i].dist := Inf;
        nodes[i].outPath := null;
      }
    }

    // ---------- the weighted search ----------

    // Where a node at distance d is entered: before the first that is farther.
    method FindPlace(q: seq<Node>, d: Cost, ghost s: Search<Node>) returns (i: nat)
      requires Sorted(s.(q := q)) && forall k :: 0 <= k < |q| ==> q[k].dist == s.dist[q[k]]
      ensures Place(s, q, i, d)
    {
      i := 0;
      while i < |q| && !Less(d, q[i].dist)
        invariant i <= |q| && forall k :: 0 <= k < i ==> AtMost(q[k].dist, d)
      {
        i := i + 1;
      }
    }

    method Remove(q: seq<Node>, x: Node) returns (r: seq<Node>)
      ensures r == Removed(q, x)
    {
      r := [];
      for i := 0 to |q|
        invariant r + Removed(q[i..], x) == Removed(q, x)
      {
        assert q[i..][1..] == q[i + 1..];
        Associative(r, if q[i] == x then [] else [q[i]], Removed(q[i + 1..], x));
        if q[i] != x {
          r := r + [q[i]];
        }
      }
      assert Removed(q[|q|..], x) == [];
    }

    // The queue with src moved, or brought, to its place, once src has its new distance.
    method Requeue(q: seq<Node>, src: Node, known: bool, newdist: Cost, ghost g: Graph<Node>, ghost s: Search<Node>,
        ghost w: Search<Node>)
      returns (q': seq<Node>, ghost i: nat)
      requires q == s.q && Sorted(s) && Distinct(q) && (known || src !in q) && (forall n :: n in q ==> n in nodes)
      requires Depicts(g) && Shows(w) && w.dist == s.dist[src := newdist]
      ensures Place(s, Removed(q, src), i, newdist) && q' == Inserted(Removed(q, src), i, src)
      ensures Depicts(g) && Shows(w)
    {
      hide DepictsAt, Out;
      q' := q;
      if known {
        q' := Remove(q, src);
      } else {
        RemovedAbsent(q, src);
      }
      RemovedShown(q, src, s, w);
      var place := FindPlace(q', newdist, s);
      q', i := Inserted(q', place, src), place;
      DepictsKept(g);
    }

    lemma RemovedShown(q: seq<Node>, src: Node, s: Search<Node>, w: Search<Node>)
      requires q == s.q && Sorted(s) && Distinct(q) && (forall n :: n in q ==> n in nodes)
      requires Shows(w) && (forall n :: n in s.dist && n != src ==> n in w.dist && w.dist[n] == s.dist[n])
      ensures var r := Removed(q, src); Sorted(s.(q := r)) && forall k :: 0 <= k < |r| ==> r[k].dist == s.dist[r[k]]
    {
      RemovedSorted(s, src);
      var r := Removed(q, src);
      forall k | 0 <= k < |r|
        ensures r[k] in s.dist && r[k].dist == s.dist[r[k]]
      {
        RemovedMember(q, src, r[k]);
        assert ShownAt(w, r[k]);
      }
    }

    // The state of a search, in the nodes and in the queue.
    ghost predicate Holds(g: Graph<Node>, q: seq<Node>, s: Search<Node>)
      reads this`nodes, this`target, this`links, nodes`inLinks, nodes`weight, nodes`enabled, links, nodes`dist,
          nodes`outPath
    {
      Depicts(g) && Weighted(g) && target != null && q == s.q && Shows(s)
    }

    // The i-th link into dest is followed back.
    method FollowLink(dest: Node, i: nat, q: seq<Node>, ghost g: Graph<Node>, ghost s: Search<Node>,
        ghost done: set<Node>)
      returns (q': seq<Node>, ghost s': Search<Node>)
      requires Holds(g, q, s) && dest in nodes && i < |dest.inLinks| && Relaxing(g, target, s, done, dest, i)
      modifies nodes`dist, nodes`outPath
      ensures Holds(g, q', s') && Relaxing(g, target, s', done, dest, i + 1)
    {
      hide Base, AllRelaxed, Relaxed, DepictsAt, ShownAt;
      GraphAt(g, dest, i);
      TollAt(g, dest, i);
      ShownDistance(s, dest);
      ShownDistance(s, dest.inLinks[i].srcNode);
      OffersIff(g, target, s, done, dest, i);
      var link := dest.inLinks[i];
      var src := link.srcNode;
      if link.enabled && src.enabled {
        var newdist := Plus(dest.dist, link.weight);
        if dest != target {
          newdist := Plus(newdist, dest.weight);
        }
        if newdist != Inf && Less(newdist, src.dist) {
          q', s' := Improve(src, dest, i, newdist, q, g, s, done);
          return;
        }
      }
      NotFollowed(g, target, s, done, dest, i);
      q', s' := q, s;
    }

    // What the nodes say about the i-th link into dest is what the graph says.
    lemma TollAt(g: Graph<Node>, dest: Node, i: nat)
      requires target != null && Depicts(g) && dest in nodes && i < |dest.inLinks|
      ensures var l := dest.inLinks[i];
        && l.srcNode != null && l.srcNode in nodes && dest in g && i < |g[dest].arcs|
            && g[dest].arcs[i].src == l.srcNode
        && (Usable(g, dest, i) <==> l.enabled && l.srcNode.enabled)
        && (Usable(g, dest, i) ==>
              Plus(dest.dist, Toll(g, target, dest, i))
              == if dest != target then Plus(Plus(dest.dist, l.weight), dest.weight) else Plus(dest.dist, l.weight))
    {
      hide Depicts, DepictsAt;
      GraphAt(g, dest, i);
    }

    lemma ShownDistance(s: Search<Node>, n: Node)
      requires Shows(s) && n in nodes
      ensures n in s.dist && n.dist == s.dist[n]
    {
      assert ShownAt(s, n);
    }

    method Improve(src: Node, dest: Node, i: nat, newdist: Cost, q: seq<Node>, ghost g: Graph<Node>,
        ghost s: Search<Node>, ghost done: set<Node>)
      returns (q': seq<Node>, ghost s': Search<Node>)
      requires Holds(g, q, s) && dest in nodes && i < |dest.inLinks| && Relaxing(g, target, s, done, dest, i)
      requires src == dest.inLinks[i].srcNode && src in nodes && Offers(g, target, s, dest, i, src)
      requires newdist == Plus(dest.dist, Toll(g, target, dest, i)) && dest.dist == s.dist[dest]
      modifies src`dist, src`outPath
      ensures Holds(g, q', s') && Relaxing(g, target, s', done, dest, i + 1)
    {
      hide Base, AllRelaxed, Relaxed, DepictsAt;
      QueueKnown(g, target, s, done, dest, i, q);
      var known := src.dist != Inf;
      assert ShownAt(s, src);
      SetWay(src, dest, i, newdist, g, s);
      ghost var place;
      q', place := Requeue(q, src, known, newdist, g, s, Written(s, src, dest, i, newdist));
      s' := Improved(g, target, s, dest, i, place);
      Followed(g, target, s, done, dest, i, place);
      ShownSame(Written(s, src, dest, i, newdist), s');
    }

    // s with the new distance and way of src.
    ghost function Written(s: Search<Node>, src: Node, dest: Node, i: nat, newdist: Cost): Search<Node> {
      s.(dist := s.dist[src := newdist], way := s.way[src := Over(dest, i)])
    }

    lemma QueueKnown(g: Graph<Node>, t: Node, s: Search<Node>, done: set<Node>, dest: Node, i: nat, q: seq<Node>)
      requires Relaxing(g, t, s, done, dest, i) && q == s.q
      ensures Sorted(s) && Distinct(q) && forall n :: n in q ==> n in s.dist && s.dist[n].Fin? && n in g
    {
    }

    // The new distance and way are written into src.
    method SetWay(src: Node, dest: Node, i: nat, newdist: Cost, ghost g: Graph<Node>, ghost s: Search<Node>)
      requires Depicts(g) && Shows(s) && src in nodes && dest in nodes && i < |dest.inLinks|
      modifies src`dist, src`outPath
      ensures Depicts(g) && src.dist == newdist && Shows(Written(s, src, dest, i, newdist))
    {
      hide DepictsAt;
      assert forall n :: n in nodes ==> ShownAt(s, n);
      src.dist := newdist;
      src.outPath := dest.inLinks[i];
      DepictsKept(g);
    }

    method FollowLinks(dest: Node, q0: seq<Node>, ghost g: Graph<Node>, ghost s0: Search<Node>, ghost done: set<Node>)
      returns (q: seq<Node>, ghost s: Search<Node>)
      requires Holds(g, q0, s0) && dest in nodes && Relaxing(g, target, s0, done, dest, 0)
      modifies nodes`dist, nodes`outPath
      ensures Holds(g, q, s) && Searching(g, target, s, done + {dest})
    {
      q, s := q0, s0;
      for i := 0 to |dest.inLinks|
        invariant Holds(g, q, s) && Relaxing(g, target, s, done, dest, i)
      {
        q, s := FollowLink(dest, i, q, g, s, done);
      }
      AllFollowed(g, dest);
      RoundDone(g, target, s, done, dest);
    }

    lemma AllFollowed(g: Graph<Node>, n: Node)
      requires Depicts(g) && n in nodes
      ensures n in g && |g[n].arcs| == |n.inLinks|
    {
      assert DepictsAt(g, n);
    }

    // Least distances, and ways that realise them, for every node; without a target nothing is done.
    method CalculateWeightedSingleShortestPathsTo(t: Node?, ghost g: Graph<Node>)
        returns (ok: bool, ghost s: Search<Node>)
      requires Depicts(g) && Weighted(g) && (t != null ==> t in nodes)
      modifies this`target, nodes`dist, nodes`outPath
      ensures ok == (t != null)
      ensures ok ==> target == t && Shows(s) && Solved(g, t, s)
    {
      hide Base, AllRelaxed, Relaxed, DepictsAt, ShownAt, Trail, Walk;
      ok, s := t != null, Search(map[], map[], map[], []);
      if t != null {
        s := Begin(t, g);
        s := Settle([t], g, s);
      }
    }

    method Begin(t: Node, ghost g: Graph<Node>) returns (ghost s: Search<Node>)
      requires Depicts(g) && Weighted(g) && t in nodes
      modifies this`target, nodes`dist, nodes`outPath
      ensures target == t && Holds(g, [t], s) && Searching(g, t, s, {})
    {
      hide DepictsAt;
      Clean(t, g);
      DepictsKept(g);
      Started(g, t);
      s := Initial(g, t);
    }

    method Settle(q0: seq<Node>, ghost g: Graph<Node>, ghost s0: Search<Node>) returns (ghost s: Search<Node>)
      requires Holds(g, q0, s0) && Searching(g, target, s0, {})
      modifies nodes`dist, nodes`outPath
      ensures Shows(s) && Solved(g, target, s)
    {
      var q := q0;
      s := s0;
      ghost var done: set<Node> := {};
      while q != []
        invariant Holds(g, q, s) && Searching(g, target, s, done) && done <= g.Keys
        decreases g.Keys - done
      {
        q, s, done := Round(q, g, s, done);
      }
      Finished(g, target, s, done);
    }

    // The nearest node of the queue is taken, for good.
    method Round(q0: seq<Node>, ghost g: Graph<Node>, ghost s0: Search<Node>, ghost done0: set<Node>)
      returns (q: seq<Node>, ghost s: Search<Node>, ghost done: set<Node>)
      requires Holds(g, q0, s0) && Searching(g, target, s0, done0) && q0 != []
      modifies nodes`dist, nodes`outPath
      ensures Holds(g, q, s) && Searching(g, target, s, done)
      ensures done == done0 + {q0[0]} && q0[0] in g && q0[0] !in done0
    {
      hide Base, AllRelaxed, Relaxed, DepictsAt, ShownAt;
      var dest := q0[0];
      Taken(g, target, s0, done0);
      s := s0.(q := s0.q[1..]);
      ShownSame(s0, s);
      q, s := FollowLinks(dest, q0[1..], g, s, done0);
      done := done0 + {dest};
    }

    // ---------- the unweighted search ----------

    // The state of a search for fewest links.
    ghost predicate HoldsHops(g: Graph<Node>, q: seq<Node>, s: Search<Node>)
      reads this`nodes, this`target, this`links, nodes`inLinks, nodes`weight, nodes`enabled, links, nodes`dist,
          nodes`outPath
    {
      Depicts(g) && target != null && q == s.q && Shows(s)
    }

    method FollowHop(v: Node, i: nat, q: seq<Node>, ghost g: Graph<Node>, ghost s: Search<Node>, ghost done: set<Node>)
      returns (q': seq<Node>, ghost s': Search<Node>)
      requires HoldsHops(g, q, s) && v in nodes && i < |v.inLinks|
      requires Hopping(g, target, s, done, v, i)
      modifies nodes`dist, nodes`outPath
      ensures HoldsHops(g, q', s') && Hopping(g, target, s', done, v, i + 1)
    {
      hide Base, AllRelaxed, Relaxed, DepictsAt, ShownAt;
      GraphAt(g, v, i);
      TollAt(g, v, i);
      ShownDistance(s, v.inLinks[i].srcNode);
      UnitToll(g, target, v, i);
      var w := v.inLinks[i].srcNode;
      if v.inLinks[i].enabled && w.enabled && w.dist == Inf {
        q', s' := Reach(w, v, i, q, g, s, done);
      } else {
        if w.dist.Fin? { KnownHop(g, target, s, done, v, i); }
        NotFollowed(Unit(g), target, s, done, v, i);
        q', s' := q, s;
      }
    }

    method Reach(w: Node, v: Node, i: nat, q: seq<Node>, ghost g: Graph<Node>, ghost s: Search<Node>,
        ghost done: set<Node>)
      returns (q': seq<Node>, ghost s': Search<Node>)
      requires HoldsHops(g, q, s) && v in nodes && i < |v.inLinks|
      requires Hopping(g, target, s, done, v, i)
      requires w in nodes && w == v.inLinks[i].srcNode && v in g && Usable(g, v, i) && w == g[v].arcs[i].src
          && s.dist[w] == Inf
      modifies nodes`dist, nodes`outPath
      ensures HoldsHops(g, q', s') && Hopping(g, target, s', done, v, i + 1)
    {
      hide Base, AllRelaxed, Relaxed, DepictsAt, ShownAt, Unit;
      ShownDistance(s, v);
      Reached(g, s, done, v, i);
      s' := Improved(Unit(g), target, s, v, i, |q|);
      var newdist := Plus(v.dist, Fin(1.0));
      SetWay(w, v, i, newdist, g, s);
      q' := q + [w];
      ShownSame(Written(s, w, v, i, newdist), s');
    }

    // The state after v's i-th link has led to a new node.
    lemma Reached(g: Graph<Node>, s: Search<Node>, done: set<Node>, v: Node, i: nat)
      requires Depicts(g) && target != null && Hopping(g, target, s, done, v, i)
      requires v in g && Usable(g, v, i) && s.dist[g[v].arcs[i].src] == Inf
      ensures Usable(Unit(g), v, i) && v in s.dist && v in s.rank && |s.q| <= |Removed(s.q, Unit(g)[v].arcs[i].src)|
      ensures var s', w := Improved(Unit(g), target, s, v, i, |s.q|), g[v].arcs[i].src;
        && Hopping(g, target, s', done, v, i + 1) && s'.q == s.q + [w]
        && s'.dist == s.dist[w := Plus(s.dist[v], Fin(1.0))] && s'.way == s.way[w := Over(v, i)]
    {
      UnitDepicted(g);
      ReachedPure(g, target, s, done, v, i);
    }

    method FollowHops(v: Node, q0: seq<Node>, ghost g: Graph<Node>, ghost s0: Search<Node>, ghost done: set<Node>)
      returns (q: seq<Node>, ghost s: Search<Node>)
      requires HoldsHops(g, q0, s0) && v in nodes
      requires Hopping(g, target, s0, done, v, 0)
      modifies nodes`dist, nodes`outPath
      ensures HoldsHops(g, q, s) && Searching(Unit(g), target, s, done + {v}) && Levelled(s)
    {
      hide Relaxing, Level, DepictsAt, ShownAt, Unit;
      q, s := q0, s0;
      for i := 0 to |v.inLinks|
        invariant HoldsHops(g, q, s) && Hopping(g, target, s, done, v, i)
      {
        q, s := FollowHop(v, i, q, g, s, done);
      }
      AllFollowed(g, v);
      HopsDone(g, target, s, done, v);
    }

    method CalculateUnweightedSingleShortestPathsTo(t: Node?, ghost g: Graph<Node>)
        returns (ok: bool, ghost s: Search<Node>)
      requires Depicts(g) && (t != null ==> t in nodes)
      modifies this`target, nodes`dist, nodes`outPath
      ensures ok == (t != null)
      ensures ok ==> target == t && Shows(s) && Solved(Unit(g), t, s)
    {
      hide Base, AllRelaxed, Relaxed, DepictsAt, ShownAt, Unit, Trail, Walk;
      ok, s := t != null, Search(map[], map[], map[], []);
      if t != null {
        s := BeginHops(t, g);
        s := SettleHops([t], g, s);
      }
    }

    lemma UnitDepicted(g: Graph<Node>)
      requires Depicts(g)
      ensures Weighted(Unit(g))
    {
      assert forall n :: n in g ==> DepictsAt(g, n);
      UnitWeighted(g);
    }

    method BeginHops(t: Node, ghost g: Graph<Node>) returns (ghost s: Search<Node>)
      requires Depicts(g) && t in nodes
      modifies this`target, nodes`dist, nodes`outPath
      ensures target == t && HoldsHops(g, [t], s) && Searching(Unit(g), t, s, {}) && Levelled(s)
    {
      hide DepictsAt, ShownAt, Base, AllRelaxed, Unit, Initial;
      TargetKnown(t, g);
      Clean(t, g);
      DepictsKept(g);
      UnitInitial(g, t);
      Started(Unit(g), t);
      s := Initial(Unit(g), t);
      ShownSame(Initial(g, t), s);
    }

    lemma TargetKnown(t: Node, g: Graph<Node>)
      requires Depicts(g) && t in nodes
      ensures t in g
    {
      assert DepictsAt(g, t);
    }

    method SettleHops(q0: seq<Node>, ghost g: Graph<Node>, ghost s0: Search<Node>) returns (ghost s: Search<Node>)
      requires HoldsHops(g, q0, s0) && Searching(Unit(g), target, s0, {}) && Levelled(s0)
      modifies nodes`dist, nodes`outPath
      ensures Shows(s) && Solved(Unit(g), target, s)
    {
      var q := q0;
      s := s0;
      hide AllRelaxed, AllChained, Queue, Settled, DepictsAt, ShownAt, Unit, Trail, Walk;
      ghost var done: set<Node> := {};
      while q != []
        invariant HoldsHops(g, q, s) && Searching(Unit(g), target, s, done) && Levelled(s) && done <= g.Keys
        decreases g.Keys - done
      {
        q, s, done := RoundOfHops(q, g, s, done);
      }
      Finished(Unit(g), target, s, done);
    }

    method RoundOfHops(q0: seq<Node>, ghost g: Graph<Node>, ghost s0: Search<Node>, ghost done0: set<Node>)
      returns (q: seq<Node>, ghost s: Search<Node>, ghost done: set<Node>)
      requires HoldsHops(g, q0, s0) && Searching(Unit(g), target, s0, done0) && Levelled(s0) && q0 != []
      modifies nodes`dist, nodes`outPath
      ensures HoldsHops(g, q, s) && Searching(Unit(g), target, s, done) && Levelled(s)
      ensures done == done0 + {q0[0]} && q0[0] in g && q0[0] !in done0
    {
      hide Base, AllRelaxed, Relaxed, DepictsAt, ShownAt;
      var v := q0[0];
      Taken(Unit(g), target, s0, done0);
      s := s0.(q := s0.q[1..]);
      ShownSame(s0, s);
      q, s := FollowHops(v, q0[1..], g, s, done0);
      done := done0 + {v};
    }

    lemma ShownSame(s: Search<Node>, s': Search<Node>)
      requires Shows(s) && s'.dist == s.dist && s'.way == s.way
      ensures Shows(s')
    {
      forall n | n in nodes
        ensures ShownAt(s', n)
      {
        assert ShownAt(s, n);
      }
    }
  }

  lemma ReachedPure(g: Graph<Node>, t: Node, s: Search<Node>, done: set<Node>, v: Node, i: nat)
    requires Weighted(Unit(g)) && Hopping(g, t, s, done, v, i)
    requires Usable(g, v, i) && s.dist[g[v].arcs[i].src] == Inf
    ensures Usable(Unit(g), v, i) && v in s.dist && v in s.rank && |s.q| <= |Removed(s.q, Unit(g)[v].arcs[i].src)|
    ensures var s', w := Improved(Unit(g), t, s, v, i, |s.q|), g[v].arcs[i].src;
      && Hopping(g, t, s', done, v, i + 1) && s'.q == s.q + [w]
      && s'.dist == s.dist[w := Plus(s.dist[v], Fin(1.0))] && s'.way == s.way[w := Over(v, i)]
  {
    hide AllRelaxed, Relaxed, AllChained, Queue, Settled, Unit, Removed;
    NewHop(g, t, s, done, v, i);
    Followed(Unit(g), t, s, done, v, i, |s.q|);
  }

  lemma Finished(g: Graph<Node>, t: Node, s: Search<Node>, done: set<Node>)
    requires Searching(g, t, s, done) && s.q == []
    ensures Solved(g, t, s)
  {
    forall x | x in g && s.dist[x].Fin?
      ensures Trail(g, t, s.way, x, s.rank[x], s.dist[x].r)
    {
      TrailFound(g, t, s, done, x);
    }
    forall x, n: nat, c: real | x in g && Walk(g, t, x, n, c)
      ensures s.dist[x].Fin? && s.dist[x].r <= c
    {
      LeastDistance(g, t, s, done, x, n, c);
    }
  }
}
