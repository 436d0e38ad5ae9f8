/**
 * What the distances of a finished search mean for the routes of a graph: the weights of the
 * links on a route and of the nodes between its ends, added up.
 */
module TopologyRoutes {
  import opened TopologyPaths

  // One link of a route: the node it leads to, and its place among the links arriving there.
  datatype Hop<V> = Hop(to: V, index: nat)

  // From x over enabled links of enabled nodes to the target, which is met at the end only; nodes
  // between that weigh infinitely do not route.
  ghost predicate Route<V>(g: Graph<V>, t: V, x: V, p: seq<Hop<V>>)
    decreases |p|
  {
    if p == [] then x == t
    else
      var y, j := p[0].to, p[0].index;
      && x != t && x in g && g[x].enabled && y in g && j < |g[y].arcs|
      && g[y].arcs[j].enabled && g[y].arcs[j].src == x && g[y].arcs[j].weight.Fin?
      && (y != t ==> g[y].weight.Fin?) && Route(g, t, y, p[1..])
  }

  ghost function LinkWeights<V>(g: Graph<V>, p: seq<Hop<V>>): real {
    if p == [] then 0.0 else LinkWeight(g, p[0]) + LinkWeights(g, p[1..])
  }

  ghost function LinkWeight<V>(g: Graph<V>, hop: Hop<V>): real {
    if hop.to in g && hop.index < |g[hop.to].arcs| && g[hop.to].arcs[hop.index].weight.Fin?
    then g[hop.to].arcs[hop.index].weight.r else 0.0
  }

  // The nodes between: all that are reached but the last.
  ghost function NodeWeights<V>(g: Graph<V>, p: seq<Hop<V>>): real {
    if |p| <= 1 then 0.0
    else (if p[0].to in g && g[p[0].to].weight.Fin? then g[p[0].to].weight.r else 0.0) + NodeWeights(g, p[1..])
  }

  ghost function Price<V>(g: Graph<V>, p: seq<Hop<V>>): real { LinkWeights(g, p) + NodeWeights(g, p) }

  lemma {:induction false} RouteIsWalk<V>(g: Graph<V>, t: V, x: V, p: seq<Hop<V>>)
    requires Route(g, t, x, p)
    ensures Walk(g, t, x, |p|, Price(g, p))
    decreases |p|
  {
    if p != [] {
      var y, j := p[0].to, p[0].index;
      RouteIsWalk(g, t, y, p[1..]);
      PriceStep(g, t, x, p);
      assert Step(g, t, x, y, j);
    }
  }

  lemma PriceStep<V>(g: Graph<V>, t: V, x: V, p: seq<Hop<V>>)
    requires p != [] && Route(g, t, x, p)
    ensures Usable(g, p[0].to, p[0].index) && Toll(g, t, p[0].to, p[0].index).Fin?
    ensures Price(g, p) == Toll(g, t, p[0].to, p[0].index).r + Price(g, p[1..])
  {
    if |p| == 1 {
      assert p[0].to == t && p[1..] == [];
    } else {
      assert p[1..] != [] && p[0].to != t;
    }
  }

  lemma {:induction false} WalkCosts<V>(g: Graph<V>, t: V, x: V, n: nat, c: real)
    requires Weighted(g) && Walk(g, t, x, n, c)
    ensures c >= 0.0
    decreases n
  {
    if n > 0 {
      var y, j: nat :| y in g && Step(g, t, x, y, j) && Walk(g, t, y, n - 1, c - Toll(g, t, y, j).r);
      WalkCosts(g, t, y, n - 1, c - Toll(g, t, y, j).r);
      assert Less(Fin(0.0), g[y].arcs[j].weight) && AtMost(Fin(0.0), g[y].weight);
    }
  }

  // A walk that goes on beyond the target is no cheaper than one that stops there.
  lemma {:induction false} WalkHasRoute<V>(g: Graph<V>, t: V, x: V, n: nat, c: real) returns (p: seq<Hop<V>>)
    requires Weighted(g) && Walk(g, t, x, n, c)
    ensures Route(g, t, x, p) && Price(g, p) <= c
    decreases n
  {
    WalkCosts(g, t, x, n, c);
    p := [];
    if x != t {
      var y, j: nat :| y in g && Step(g, t, x, y, j) && Walk(g, t, y, n - 1, c - Toll(g, t, y, j).r);
      var q := WalkHasRoute(g, t, y, n - 1, c - Toll(g, t, y, j).r);
      p := [Hop(y, j)] + q;
      assert p[1..] == q && p[0] == Hop(y, j);
      PriceStep(g, t, x, p);
    }
  }

  // No route is cheaper than the distance of the node it begins at, so a node with an infinite
  // distance has none ...
  lemma NoRouteCheaper<V>(g: Graph<V>, t: V, s: Search<V>, x: V, p: seq<Hop<V>>)
    requires Weighted(g) && Solved(g, t, s) && x in g && Route(g, t, x, p)
    ensures x in s.dist && s.dist[x].Fin? && s.dist[x].r <= Price(g, p)
  {
    RouteIsWalk(g, t, x, p);
  }

  // ... and a finite one is the price of a route.
  lemma CheapestRoute<V>(g: Graph<V>, t: V, s: Search<V>, x: V) returns (p: seq<Hop<V>>)
    requires Weighted(g) && Solved(g, t, s) && x in g && s.dist[x].Fin?
    ensures Route(g, t, x, p) && Price(g, p) == s.dist[x].r
  {
    TrailIsWalk(g, t, s.way, x, s.rank[x], s.dist[x].r);
    p := WalkHasRoute(g, t, x, s.rank[x], s.dist[x].r);
    NoRouteCheaper(g, t, s, x, p);
  }

  // With weights left out the price of a route is its number of links.
  lemma {:induction false} UnitPrice<V>(g: Graph<V>, t: V, x: V, p: seq<Hop<V>>)
    requires Route(Unit(g), t, x, p)
    ensures Price(Unit(g), p) == |p| as real
    decreases |p|
  {
    if p != [] {
      UnitPrice(g, t, p[0].to, p[1..]);
      PriceStep(Unit(g), t, x, p);
    }
  }
}
