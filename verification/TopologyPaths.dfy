/**
 * Shortest paths to one target, over link weights and the weights of the nodes between:
 * what they are, and what the label-setting searches keep.
 */
module TopologyPaths {

  // ---------- weights ----------

  // A weight or a distance; an infinite node weight keeps a node from routing.
  datatype Cost = Fin(r: real) | Inf

  function Plus(a: Cost, b: Cost): Cost { if a.Fin? && b.Fin? then Fin(a.r + b.r) else Inf }

  predicate Less(a: Cost, b: Cost) { a.Fin? && (b.Fin? ==> a.r < b.r) }

  predicate AtMost(a: Cost, b: Cost) { !Less(b, a) }

  // ---------- graphs, seen from where the links arrive ----------

  datatype Arc<+V> = Arc(src: V, weight: Cost, enabled: bool)
  datatype Spot<+V> = Spot(weight: Cost, enabled: bool, arcs: seq<Arc<V>>)
  type Graph<V> = map<V, Spot<V>>

  // The j-th arc into y may be used: both it and the node it comes from are enabled.
  predicate Usable<V>(g: Graph<V>, y: V, j: nat) {
    y in g && j < |g[y].arcs| && g[y].arcs[j].enabled && g[y].arcs[j].src in g && g[g[y].arcs[j].src].enabled
  }

  // What the arc adds to the distance of y; the target routes for nothing.
  function Toll<V(==)>(g: Graph<V>, t: V, y: V, j: nat): Cost
    requires Usable(g, y, j)
  {
    Plus(g[y].arcs[j].weight, if y == t then Fin(0.0) else g[y].weight)
  }

  // Every arc comes from a node of the graph; usable links have positive weights, no node a negative one.
  ghost predicate Weighted<V>(g: Graph<V>) {
    && (forall y :: y in g ==> AtMost(Fin(0.0), g[y].weight))
    && (forall y, j :: y in g && 0 <= j < |g[y].arcs| ==> g[y].arcs[j].src in g)
    && (forall y, j: nat :: y in g && Usable(g, y, j) ==> Less(Fin(0.0), g[y].arcs[j].weight))
  }

  // From x the target can be reached over n usable links for c.
  ghost predicate Walk<V>(g: Graph<V>, t: V, x: V, n: nat, c: real)
    decreases n
  {
    if n == 0 then x == t && c == 0.0
    else exists y, j: nat :: y in g && Step(g, t, x, y, j) && Walk(g, t, y, n - 1, c - Toll(g, t, y, j).r)
  }

  ghost predicate Step<V>(g: Graph<V>, t: V, x: V, y: V, j: nat) {
    Usable(g, y, j) && g[y].arcs[j].src == x && Toll(g, t, y, j).Fin?
  }

  // ---------- the search state ----------

  // The way out of a node: over the link that is the index-th into `to`.
  datatype Way<V> = NoWay | Over(to: V, index: nat)

  // The rank of a node is the number of links on its way.
  datatype Search<V> = Search(dist: map<V, Cost>, way: map<V, Way<V>>, rank: map<V, nat>, q: seq<V>)

  // The outcome of a search: distances no walk goes below, and ways that realise them.
  ghost predicate Solved<V>(g: Graph<V>, t: V, s: Search<V>) {
    && s.dist.Keys == g.Keys && s.rank.Keys == g.Keys
    && (forall x :: x in g && s.dist[x].Fin? ==> Trail(g, t, s.way, x, s.rank[x], s.dist[x].r))
    && forall x, n: nat, c: real :: x in g && Walk(g, t, x, n, c) ==> s.dist[x].Fin? && s.dist[x].r <= c
  }

  // Following the ways from x leads to the target over n links for exactly c.
  ghost predicate Trail<V>(g: Graph<V>, t: V, way: map<V, Way<V>>, x: V, n: nat, c: real)
    decreases n
  {
    if n == 0 then x == t && c == 0.0
    else
      && x in way && way[x].Over? && Step(g, t, x, way[x].to, way[x].index)
      && Trail(g, t, way, way[x].to, n - 1, c - Toll(g, t, way[x].to, way[x].index).r)
  }

  ghost predicate Domains<V>(g: Graph<V>, t: V, s: Search<V>) {
    && t in g && s.dist.Keys == g.Keys && s.way.Keys == g.Keys && s.rank.Keys == g.Keys
    && s.dist[t] == Fin(0.0) && s.rank[t] == 0
  }

  // x has a way through a node of `from`, or none and no distance.
  ghost predicate Chained<V>(g: Graph<V>, t: V, s: Search<V>, from: set<V>, x: V)
    requires Domains(g, t, s) && x in g
  {
    if x == t || s.dist[x].Inf? then s.way[x] == NoWay
    else
      var w := s.way[x];
      && w.Over? && w.to in from && w.to in g && Step(g, t, x, w.to, w.index)
      && s.dist[x] == Plus(s.dist[w.to], Toll(g, t, w.to, w.index)) && s.rank[x] == s.rank[w.to] + 1
  }

  ghost predicate AllChained<V>(g: Graph<V>, t: V, s: Search<V>, from: set<V>)
    requires Domains(g, t, s)
  {
    forall x :: x in g ==> Chained(g, t, s, from, x)
  }

  // The queue: nearest first, no node twice, exactly the nodes reached but not yet taken.
  ghost predicate Sorted<V>(s: Search<V>) {
    && (forall i :: 0 <= i < |s.q| ==> s.q[i] in s.dist)
    && forall i, j :: 0 <= i < j < |s.q| ==> AtMost(s.dist[s.q[i]], s.dist[s.q[j]])
  }

  ghost predicate Distinct<V>(q: seq<V>) {
    forall i, j :: 0 <= i < j < |q| ==> q[i] != q[j]
  }

  ghost predicate Queue<V>(s: Search<V>, from: set<V>) {
    && Sorted(s) && Distinct(s.q) && (forall x :: x in s.q ==> x in s.dist && s.dist[x].Fin? && x !in from)
    && forall x :: x in s.dist && s.dist[x].Fin? && x !in from ==> x in s.q
  }

  // Whoever has been taken is no farther than anyone in the queue.
  ghost predicate Settled<V>(s: Search<V>, from: set<V>) {
    forall x :: x in from ==> x in s.dist && s.dist[x].Fin? && forall y :: y in s.q && y in s.dist ==>
        AtMost(s.dist[x], s.dist[y])
  }

  ghost predicate Relaxed<V>(g: Graph<V>, t: V, s: Search<V>, y: V, n: nat)
    requires y in g && y in s.dist && g.Keys <= s.dist.Keys
  {
    forall j :: 0 <= j < n && Usable(g, y, j) ==> AtMost(s.dist[g[y].arcs[j].src], Plus(s.dist[y], Toll(g, t, y, j)))
  }

  ghost predicate AllRelaxed<V>(g: Graph<V>, t: V, s: Search<V>, done: set<V>)
    requires g.Keys <= s.dist.Keys
  {
    forall y :: y in done ==> y in g && Relaxed(g, t, s, y, |g[y].arcs|)
  }

  ghost predicate Base<V>(g: Graph<V>, t: V, s: Search<V>, from: set<V>) {
    Domains(g, t, s) && AllChained(g, t, s, from) && Queue(s, from) && Settled(s, from)
  }

  // Between two rounds, and within one at u when i of its links have been followed.
  ghost predicate Searching<V>(g: Graph<V>, t: V, s: Search<V>, done: set<V>) {
    Base(g, t, s, done) && AllRelaxed(g, t, s, done)
  }

  ghost predicate Relaxing<V>(g: Graph<V>, t: V, s: Search<V>, done: set<V>, u: V, i: nat) {
    && u in g && u !in done && Base(g, t, s, done + {u}) && AllRelaxed(g, t, s, done) && Relaxed(g, t, s, u, i)
    && forall x :: x in done ==> AtMost(s.dist[x], s.dist[u])
  }

  // ---------- what the end of a search means ----------

  // No walk is cheaper than the distance found.
  lemma {:induction false} LeastDistance<V>(g: Graph<V>, t: V, s: Search<V>, done: set<V>, x: V, n: nat, c: real)
    requires Searching(g, t, s, done) && s.q == [] && x in g && Walk(g, t, x, n, c)
    ensures s.dist[x].Fin? && s.dist[x].r <= c
    decreases n
  {
    if n > 0 {
      var y, j: nat :| y in g && Step(g, t, x, y, j) && Walk(g, t, y, n - 1, c - Toll(g, t, y, j).r);
      LeastDistance(g, t, s, done, y, n - 1, c - Toll(g, t, y, j).r);
      assert y !in s.q;
      assert Relaxed(g, t, s, y, |g[y].arcs|);
    }
  }

  // ... and the ways found realise the distances.
  lemma {:induction false} TrailFound<V>(g: Graph<V>, t: V, s: Search<V>, from: set<V>, x: V)
    requires Domains(g, t, s) && AllChained(g, t, s, from) && Settled(s, from) && x in g && s.dist[x].Fin?
    ensures Trail(g, t, s.way, x, s.rank[x], s.dist[x].r)
    decreases s.rank[x]
  {
    hide Toll;
    assert Chained(g, t, s, from, x);
    if x == t {
      TargetRank(g, t, s);
    } else {
      TrailFound(g, t, s, from, s.way[x].to);
      TrailStep(g, t, s, x, s.way[x].to, s.way[x].index);
    }
  }

  lemma TrailStep<V>(g: Graph<V>, t: V, s: Search<V>, x: V, y: V, j: nat)
    requires x in s.dist && y in s.dist && s.dist[y].Fin? && x in s.way && s.way[x] == Over(y, j) && Step(g, t, x, y, j)
    requires s.dist[x] == Plus(s.dist[y], Toll(g, t, y, j)) && x in s.rank && y in s.rank && s.rank[x] == s.rank[y] + 1
    requires Trail(g, t, s.way, y, s.rank[y], s.dist[y].r)
    ensures Trail(g, t, s.way, x, s.rank[x], s.dist[x].r)
  {
    hide Toll;
    assert s.dist[x].r - Toll(g, t, y, j).r == s.dist[y].r;
  }

  lemma TargetRank<V>(g: Graph<V>, t: V, s: Search<V>)
    requires Domains(g, t, s)
    ensures Trail(g, t, s.way, t, s.rank[t], s.dist[t].r)
  {
  }

  lemma {:induction false} TrailIsWalk<V>(g: Graph<V>, t: V, way: map<V, Way<V>>, x: V, n: nat, c: real)
    requires Trail(g, t, way, x, n, c)
    ensures Walk(g, t, x, n, c)
    decreases n
  {
    if n > 0 {
      TrailIsWalk(g, t, way, way[x].to, n - 1, c - Toll(g, t, way[x].to, way[x].index).r);
      assert Step(g, t, x, way[x].to, way[x].index);
    }
  }

  // ---------- taking the nearest node ----------

  lemma Taken<V>(g: Graph<V>, t: V, s: Search<V>, done: set<V>)
    requires Searching(g, t, s, done) && s.q != []
    ensures Relaxing(g, t, s.(q := s.q[1..]), done, s.q[0], 0)
  {
    var u, s' := s.q[0], s.(q := s.q[1..]);
    assert u in s.q;
    TakenQueue(s, done);
    TakenChained(g, t, s, s', done, u);
    TakenSettled(s, done);
    TakenRelaxed(g, t, s, s', done);
  }

  lemma TakenQueue<V>(s: Search<V>, done: set<V>)
    requires Queue(s, done) && s.q != []
    ensures Queue(s.(q := s.q[1..]), done + {s.q[0]})
  {
    var q := s.q[1..];
    forall x | x in s.q && x != s.q[0]
      ensures x in q
    {
      var i :| 0 <= i < |s.q| && s.q[i] == x;
      assert q[i - 1] == x;
    }
    assert s.q[0] !in q;
  }

  lemma TakenSettled<V>(s: Search<V>, done: set<V>)
    requires Queue(s, done) && Settled(s, done) && s.q != []
    ensures Settled(s.(q := s.q[1..]), done + {s.q[0]})
  {
    assert s.q[0] in s.q;
    forall y | y in s.q[1..]
      ensures y in s.q && AtMost(s.dist[s.q[0]], s.dist[y])
    {
      var i :| 0 <= i < |s.q[1..]| && s.q[1..][i] == y;
      assert s.q[i + 1] == y;
    }
  }

  lemma TakenChained<V>(g: Graph<V>, t: V, s: Search<V>, s': Search<V>, done: set<V>, u: V)
    requires Domains(g, t, s) && AllChained(g, t, s, done) && s' == s.(q := s'.q)
    ensures Domains(g, t, s') && AllChained(g, t, s', done + {u})
  {
    forall x | x in g
      ensures Chained(g, t, s', done + {u}, x)
    {
      assert Chained(g, t, s, done, x);
    }
  }

  lemma TakenRelaxed<V>(g: Graph<V>, t: V, s: Search<V>, s': Search<V>, done: set<V>)
    requires g.Keys <= s.dist.Keys && AllRelaxed(g, t, s, done) && s'.dist == s.dist
    ensures AllRelaxed(g, t, s', done)
  {
    forall y | y in done
      ensures y in g && Relaxed(g, t, s', y, |g[y].arcs|)
    {
      assert Relaxed(g, t, s, y, |g[y].arcs|);
    }
  }

  // ---------- following a link ----------

  // The queue without x ...
  function Removed<V(==)>(q: seq<V>, x: V): seq<V> {
    if q == [] then [] else (if q[0] == x then [] else [q[0]]) + Removed(q[1..], x)
  }

  function Inserted<V>(q: seq<V>, i: nat, x: V): seq<V>
    requires i <= |q|
  {
    q[..i] + [x] + q[i..]
  }

  lemma {:induction false} RemovedMember<V>(q: seq<V>, x: V, y: V)
    ensures y in Removed(q, x) <==> y in q && y != x
  {
    if q != [] {
      RemovedMember(q[1..], x, y);
      assert y in q <==> y == q[0] || y in q[1..];
    }
  }

  lemma {:induction false} RemovedAbsent<V>(q: seq<V>, x: V)
    requires x !in q
    ensures Removed(q, x) == q
  {
    if q != [] { RemovedAbsent(q[1..], x); }
  }

  // ... keeps its order and repeats nothing.
  lemma {:induction false} RemovedSorted<V>(s: Search<V>, x: V)
    requires Sorted(s) && Distinct(s.q)
    ensures Sorted(s.(q := Removed(s.q, x))) && Distinct(Removed(s.q, x))
    decreases |s.q|
  {
    if s.q != [] {
      var t, r := s.q[1..], Removed(s.q[1..], x);
      assert forall i :: 0 <= i < |t| ==> t[i] == s.q[i + 1];
      RemovedSorted(s.(q := t), x);
      forall i | 0 <= i < |r|
        ensures r[i] in s.dist && AtMost(s.dist[s.q[0]], s.dist[r[i]]) && r[i] != s.q[0]
      {
        RemovedMember(t, x, r[i]);
        var j :| 0 <= j < |t| && t[j] == r[i];
      }
    }
  }

  // Where a node at distance d belongs.
  ghost predicate Place<V>(s: Search<V>, q: seq<V>, i: nat, d: Cost) {
    && i <= |q| && (forall k :: 0 <= k < |q| ==> q[k] in s.dist)
    && (forall k :: 0 <= k < i ==> AtMost(s.dist[q[k]], d)) && (forall k :: i <= k < |q| ==> AtMost(d, s.dist[q[k]]))
  }

  // u offers x a cheaper way, over its j-th link.
  ghost predicate Offers<V>(g: Graph<V>, t: V, s: Search<V>, u: V, j: nat, x: V) {
    && Domains(g, t, s) && u in g && x in g && Usable(g, u, j) && g[u].arcs[j].src == x
    && Less(Plus(s.dist[u], Toll(g, t, u, j)), s.dist[x])
  }

  lemma OffersIff<V>(g: Graph<V>, t: V, s: Search<V>, done: set<V>, u: V, j: nat)
    requires Relaxing(g, t, s, done, u, j) && j < |g[u].arcs| && g[u].arcs[j].src in g
    ensures u in s.dist && g[u].arcs[j].src in s.dist
    ensures Offers(g, t, s, u, j, g[u].arcs[j].src) <==>
              Usable(g, u, j) && Less(Plus(s.dist[u], Toll(g, t, u, j)), s.dist[g[u].arcs[j].src])
  {
    hide AllRelaxed, Relaxed, AllChained, Queue, Settled;
  }

  // The state after x has taken the offer, entered at place i of the queue.
  function Improved<V(==)>(g: Graph<V>, t: V, s: Search<V>, u: V, j: nat, i: nat): Search<V>
    requires Usable(g, u, j) && u in s.dist && u in s.rank && i <= |Removed(s.q, g[u].arcs[j].src)|
  {
    var x := g[u].arcs[j].src;
    Search(s.dist[x := Plus(s.dist[u], Toll(g, t, u, j))], s.way[x := Over(u, j)], s.rank[x := s.rank[u] + 1],
           Inserted(Removed(s.q, x), i, x))
  }

  // A cheaper way is never one to a node already taken.
  lemma NeverTaken<V>(g: Graph<V>, t: V, s: Search<V>, done: set<V>, u: V, i: nat, j: nat, x: V)
    requires Weighted(g) && Relaxing(g, t, s, done, u, i) && Offers(g, t, s, u, j, x)
    ensures x !in done + {u} && x != t && Toll(g, t, u, j).Fin? && Toll(g, t, u, j).r > 0.0 && s.dist[u].r >= 0.0
  {
    Nonnegative(g, t, s, done + {u}, u);
  }

  lemma {:induction false} Nonnegative<V>(g: Graph<V>, t: V, s: Search<V>, from: set<V>, x: V)
    requires Weighted(g) && Domains(g, t, s) && AllChained(g, t, s, from) && Settled(s, from) && x in g
        && s.dist[x].Fin?
    ensures s.dist[x].r >= 0.0
    decreases s.rank[x]
  {
    assert Chained(g, t, s, from, x);
    if x != t { Nonnegative(g, t, s, from, s.way[x].to); }
  }

  lemma ImprovedChained<V>(g: Graph<V>, t: V, s: Search<V>, from: set<V>, u: V, j: nat, x: V, i: nat)
    requires Offers(g, t, s, u, j, x) && AllChained(g, t, s, from) && u in from && x !in from && x != t
    requires i <= |Removed(s.q, x)|
    ensures Domains(g, t, Improved(g, t, s, u, j, i)) && AllChained(g, t, Improved(g, t, s, u, j, i), from)
  {
    hide Removed, Inserted, Toll, Usable;
    var s' := Improved(g, t, s, u, j, i);
    forall y | y in g
      ensures Chained(g, t, s', from, y)
    {
      assert Chained(g, t, s, from, y);
    }
  }

  lemma InsertedMember<V>(q: seq<V>, i: nat, x: V)
    requires i <= |q|
    ensures forall y :: y in Inserted(q, i, x) <==> y in q || y == x
  {
    assert q == q[..i] + q[i..];
  }

  lemma InsertedDistinct<V>(q: seq<V>, i: nat, x: V)
    requires i <= |q| && Distinct(q) && x !in q
    ensures Distinct(Inserted(q, i, x))
  {
    InsertedAt(q, i, x);
  }

  lemma InsertedAt<V>(q: seq<V>, i: nat, x: V)
    requires i <= |q|
    ensures var r := Inserted(q, i, x);
      |r| == |q| + 1 && forall k :: 0 <= k < |r| ==> r[k] == if k < i then q[k] else if k == i then x else q[k - 1]
  {
  }

  lemma InsertedSorted<V>(s: Search<V>, q: seq<V>, i: nat, x: V, d: Cost, s': Search<V>)
    requires Place(s, q, i, d) && Sorted(s.(q := q)) && x !in q
    requires s'.dist == s.dist[x := d] && s'.q == Inserted(q, i, x)
    ensures Sorted(s')
  {
    InsertedAt(q, i, x);
    assert forall k :: 0 <= k < |q| ==> q[k] != x && s'.dist[q[k]] == s.dist[q[k]];
  }

  lemma ImprovedQueue<V>(g: Graph<V>, t: V, s: Search<V>, from: set<V>, u: V, j: nat, x: V, i: nat)
    requires Offers(g, t, s, u, j, x) && Queue(s, from) && x !in from
    requires Place(s, Removed(s.q, x), i, Plus(s.dist[u], Toll(g, t, u, j)))
    ensures Queue(Improved(g, t, s, u, j, i), from)
  {
    var r, s' := Removed(s.q, x), Improved(g, t, s, u, j, i);
    RemovedSorted(s, x);
    forall y
      ensures y in r <==> y in s.q && y != x
    {
      RemovedMember(s.q, x, y);
    }
    InsertedMember(r, i, x);
    InsertedDistinct(r, i, x);
    InsertedSorted(s, r, i, x, Plus(s.dist[u], Toll(g, t, u, j)), s');
  }

  lemma ImprovedSettled<V>(g: Graph<V>, t: V, s: Search<V>, done: set<V>, u: V, k: nat, j: nat, x: V, i: nat)
    requires Weighted(g) && Relaxing(g, t, s, done, u, k) && Offers(g, t, s, u, j, x) && i <= |Removed(s.q, x)|
    ensures Settled(Improved(g, t, s, u, j, i), done + {u})
  {
    hide AllRelaxed, Relaxed, AllChained, Weighted;
    var s' := Improved(g, t, s, u, j, i);
    NeverTaken(g, t, s, done, u, k, j, x);
    InsertedMember(Removed(s.q, x), i, x);
    forall y
      ensures y in Removed(s.q, x) ==> y in s.q && y != x
    {
      RemovedMember(s.q, x, y);
    }
  }

  lemma ImprovedRelaxed<V>(g: Graph<V>, t: V, s: Search<V>, u: V, j: nat, x: V, i: nat, y: V, n: nat)
    requires Offers(g, t, s, u, j, x) && i <= |Removed(s.q, x)| && y in g && y != x && Relaxed(g, t, s, y, n)
    ensures Relaxed(g, t, Improved(g, t, s, u, j, i), y, n)
  {
  }

  // The j-th link is followed, whether it brings an improvement or not.
  lemma Followed<V>(g: Graph<V>, t: V, s: Search<V>, done: set<V>, u: V, j: nat, i: nat)
    requires Weighted(g) && Relaxing(g, t, s, done, u, j) && j < |g[u].arcs|
    requires Offers(g, t, s, u, j, g[u].arcs[j].src)
    requires Place(s, Removed(s.q, g[u].arcs[j].src), i, Plus(s.dist[u], Toll(g, t, u, j)))
    ensures Relaxing(g, t, Improved(g, t, s, u, j, i), done, u, j + 1)
  {
    var x, s' := g[u].arcs[j].src, Improved(g, t, s, u, j, i);
    NeverTaken(g, t, s, done, u, j, j, x);
    ImprovedChained(g, t, s, done + {u}, u, j, x, i);
    ImprovedQueue(g, t, s, done + {u}, u, j, x, i);
    ImprovedSettled(g, t, s, done, u, j, j, x, i);
    forall y | y in done
      ensures y in g && Relaxed(g, t, s', y, |g[y].arcs|)
    {
      ImprovedRelaxed(g, t, s, u, j, x, i, y, |g[y].arcs|);
    }
    ImprovedRelaxed(g, t, s, u, j, x, i, u, j);
  }

  lemma NotFollowed<V>(g: Graph<V>, t: V, s: Search<V>, done: set<V>, u: V, j: nat)
    requires Relaxing(g, t, s, done, u, j) && j < |g[u].arcs| && !Offers(g, t, s, u, j, g[u].arcs[j].src)
    ensures Relaxing(g, t, s, done, u, j + 1)
  {
  }

  lemma RoundDone<V>(g: Graph<V>, t: V, s: Search<V>, done: set<V>, u: V)
    requires u in g && Relaxing(g, t, s, done, u, |g[u].arcs|)
    ensures Searching(g, t, s, done + {u})
  {
  }

  // The state to start from.
  function Initial<V>(g: Graph<V>, t: V): Search<V> {
    Search(map x | x in g :: if x == t then Fin(0.0) else Inf, map x | x in g :: NoWay, map x | x in g :: 0, [t])
  }

  lemma Started<V>(g: Graph<V>, t: V)
    requires t in g
    ensures Searching(g, t, Initial(g, t), {})
  {
  }

  // ---------- the unweighted search ----------

  // The graph with every link of weight one and every node of weight zero.
  function Unit<V>(g: Graph<V>): Graph<V> {
    map x | x in g :: Spot(Fin(0.0), g[x].enabled, UnitArcs(g[x].arcs))
  }

  function UnitArcs<V>(a: seq<Arc<V>>): (r: seq<Arc<V>>)
    ensures |r| == |a| && forall i :: 0 <= i < |a| ==> r[i] == a[i].(weight := Fin(1.0))
  {
    if a == [] then [] else [a[0].(weight := Fin(1.0))] + UnitArcs(a[1..])
  }

  lemma UnitWeighted<V>(g: Graph<V>)
    requires forall y, j :: y in g && 0 <= j < |g[y].arcs| ==> g[y].arcs[j].src in g
    ensures Weighted(Unit(g))
  {
    var h := Unit(g);
    forall y, j: nat | y in h && j < |h[y].arcs|
      ensures h[y].arcs[j].src in h && h[y].arcs[j].weight == Fin(1.0)
    {
      assert h[y].arcs[j] == g[y].arcs[j].(weight := Fin(1.0));
    }
  }

  lemma UnitInitial<V>(g: Graph<V>, t: V)
    requires t in g
    ensures var i, j := Initial(g, t), Initial(Unit(g), t);
      t in Unit(g) && j.dist == i.dist && j.way == i.way && j.q == [t] && Levelled(j)
  {
  }

  lemma UnitToll<V>(g: Graph<V>, t: V, y: V, j: nat)
    requires y in g
    ensures Usable(Unit(g), y, j) <==> Usable(g, y, j)
    ensures Usable(Unit(g), y, j) ==> Toll(Unit(g), t, y, j) == Fin(1.0)
  {
  }

  // In a first-in first-out queue no one is more than one hop farther than d.
  ghost predicate Level<V>(s: Search<V>, d: Cost) {
    forall i :: 0 <= i < |s.q| ==> s.q[i] in s.dist && AtMost(s.dist[s.q[i]], Plus(d, Fin(1.0)))
  }

  // Between two rounds the first of the queue sets the level.
  ghost predicate Levelled<V>(s: Search<V>) {
    s.q != [] ==> s.q[0] in s.dist && Level(s, s.dist[s.q[0]])
  }

  // A node reached before is never offered a shorter way ...
  lemma KnownHop<V>(g: Graph<V>, t: V, s: Search<V>, done: set<V>, u: V, j: nat)
    requires Relaxing(Unit(g), t, s, done, u, j) && Level(s, s.dist[u]) && j < |g[u].arcs| && g[u].arcs[j].src in g
    requires s.dist[g[u].arcs[j].src].Fin?
    ensures !Offers(Unit(g), t, s, u, j, g[u].arcs[j].src)
  {
    hide AllRelaxed, Relaxed, AllChained;
    UnitToll(g, t, u, j);
    var x := g[u].arcs[j].src;
    if x !in done + {u} { assert x in s.q; }
  }

  // ... and a new one belongs at the end of the queue.
  lemma NewHop<V>(g: Graph<V>, t: V, s: Search<V>, done: set<V>, u: V, j: nat)
    requires Relaxing(Unit(g), t, s, done, u, j) && Level(s, s.dist[u]) && Usable(g, u, j)
        && s.dist[g[u].arcs[j].src] == Inf
    ensures var h, x := Unit(g), g[u].arcs[j].src;
      && Usable(h, u, j) && h[u].arcs[j].src == x && Toll(h, t, u, j) == Fin(1.0) && s.dist[u].Fin?
      && Offers(h, t, s, u, j, x) && x !in s.q && Removed(s.q, x) == s.q
          && Place(s, s.q, |s.q|, Plus(s.dist[u], Fin(1.0)))
  {
    hide AllRelaxed, Relaxed, AllChained;
    UnitToll(g, t, u, j);
    RemovedAbsent(s.q, g[u].arcs[j].src);
  }

  // Within a round at u of the unweighted search.
  ghost predicate Hopping<V>(g: Graph<V>, t: V, s: Search<V>, done: set<V>, u: V, i: nat) {
    Relaxing(Unit(g), t, s, done, u, i) && u in s.dist && Level(s, s.dist[u])
  }

  lemma HopsDone<V>(g: Graph<V>, t: V, s: Search<V>, done: set<V>, u: V)
    requires u in g && Hopping(g, t, s, done, u, |g[u].arcs|)
    ensures Searching(Unit(g), t, s, done + {u}) && Levelled(s)
  {
    hide AllRelaxed, Relaxed, AllChained;
    NextLevel(s, done, u);
    RoundDone(Unit(g), t, s, done, u);
  }

  lemma NextLevel<V>(s: Search<V>, done: set<V>, u: V)
    requires u in s.dist && Settled(s, done + {u}) && Level(s, s.dist[u]) && Queue(s, done + {u})
    ensures Levelled(s)
  {
    if s.q != [] { assert s.q[0] in s.q; }
  }
}
