/**
 * Routes through the link database: what a correct route is, and the search state
 * that both routing applications keep (tentative distances, predecessors, a priority
 * queue with stale entries).
 */
module LLDPRoutes {
  import opened Basics
  import opened LLDPMibs

  datatype Segment = Segment(chassisId: string, outport: int)
  type Route = seq<Segment>

  const NOWHERE := Segment("", -1)

  // ---------- what a route is ----------

  ghost predicate Port(g: Links, w: string, port: int, x: string) {
    w in g && exists i :: 0 <= i < |g[w]| && g[w][i].srcPort == port && g[w][i].dstId == x
  }

  ghost predicate Edge(g: Links, w: string, x: string) {
    exists port :: Port(g, w, port, x)
  }

  // x is n hops from src along some walk.
  ghost predicate Walk(g: Links, src: string, x: string, n: nat)
    decreases n
  {
    if n == 0 then x == src else exists w :: w in g && Walk(g, src, w, n - 1) && Edge(g, w, x)
  }

  ghost predicate Reachable(g: Links, src: string, x: string) {
    exists n: nat :: Walk(g, src, x, n)
  }

  // The segments lead from src to dst, each out of a port that is linked to the next switch.
  ghost predicate Leads(g: Links, r: Route, src: string, dst: string) {
    if r == [] then src == dst
    else r[0].chassisId == src && exists x :: Port(g, src, r[0].outport, x) && Leads(g, r[1..], x, dst)
  }

  // The answer to a route request: a route with the fewest hops, or nothing if there is none.
  ghost predicate Answers(g: Links, src: string, dst: string, r: Route) {
    if src in g && dst in g && Reachable(g, src, dst) then
      Leads(g, r, src, dst) && forall n: nat :: Walk(g, src, dst, n) ==> |r| <= n
    else r == []
  }

  // Every link leads to a vertex, and no vertex has the empty name that ends a chain of predecessors.
  ghost predicate Navigable(g: Links) {
    "" !in g && forall w, i :: w in g && 0 <= i < |g[w]| ==> g[w][i].dstId in g
  }

  lemma SoundNavigable(v: Db)
    requires Sound(v) && "" !in v
    ensures Navigable(LinksOf(v))
  {
    var g: Links := LinksOf(v);
    forall w: string, i: int | w in g && 0 <= i < |g[w]|
      ensures g[w][i].dstId in g
    {
      StrippedAt(v[w]);
      assert v[w][i] in v[w] && HasMirror(v, v[w][i]);
    }
  }

  // ---------- tentative distances ----------

  datatype Hops = Fin(n: nat) | Inf

  predicate Less(a: Hops, b: Hops) { a.Fin? && (b.Fin? ==> a.n < b.n) }

  predicate AtMost(a: Hops, b: Hops) { !Less(b, a) }

  function Next(a: Hops): Hops { if a.Fin? then Fin(a.n + 1) else Inf }

  datatype Search = Search(dist: map<string, Hops>, prev: map<string, Segment>, q: seq<(string, Hops)>)

  // Reading an absent distance yields zero, which is how the source gets its own.
  function D(s: Search, x: string): Hops { if x in s.dist then s.dist[x] else Fin(0) }

  // A shorter way to x has been found, out of `port` of u.
  function Improved(s: Search, u: string, port: int, x: string): Search {
    Search(s.dist[x := Next(D(s, u))], s.prev[x := Segment(u, port)], s.q + [(x, Next(D(s, u)))])
  }

  // ---------- what both searches keep ----------

  ghost predicate Domains(g: Links, src: string, s: Search) {
    src in g && s.dist.Keys == g.Keys - {src} && s.prev.Keys == g.Keys
  }

  // Every distance is the length of some walk.
  ghost predicate Witnessed(g: Links, src: string, s: Search) {
    forall x :: x in g && D(s, x).Fin? ==> Walk(g, src, x, D(s, x).n)
  }

  // The predecessor of x is one hop nearer, among the vertices `from`.
  ghost predicate Chained(g: Links, src: string, s: Search, from: set<string>, x: string)
    requires Domains(g, src, s) && x in g
  {
    if x == src || D(s, x).Inf? then s.prev[x] == NOWHERE
    else
      var p := s.prev[x];
      && p.chassisId in g && p.chassisId in from && Port(g, p.chassisId, p.outport, x)
      && D(s, x) == Next(D(s, p.chassisId))
  }

  ghost predicate AllChained(g: Links, src: string, s: Search, from: set<string>) {
    Domains(g, src, s) && forall x :: x in g ==> Chained(g, src, s, from, x)
  }

  // All hops out of w have been taken into account.
  ghost predicate Relaxed(g: Links, s: Search, w: string) {
    forall x :: Edge(g, w, x) ==> AtMost(D(s, x), Next(D(s, w)))
  }

  // ---------- what the end of a search means ----------

  // With every vertex relaxed the distances are least.
  lemma {:induction false} LeastDistance(g: Links, src: string, s: Search, x: string, n: nat)
    requires Domains(g, src, s) && (forall w :: w in g ==> Relaxed(g, s, w)) && Walk(g, src, x, n)
    ensures D(s, x).Fin? && D(s, x).n <= n
    decreases n
  {
    if n > 0 {
      var w :| w in g && Walk(g, src, w, n - 1) && Edge(g, w, x);
      LeastDistance(g, src, s, w, n - 1);
      assert Relaxed(g, s, w);
    }
  }

  // Following the predecessors from dst back yields the answer.
  method BackTrack(s: Search, src: string, dst: string, ghost g: Links) returns (trg: string, result: Route)
    requires Navigable(g) && Domains(g, src, s) && AllChained(g, src, s, g.Keys) && dst in g
    ensures trg in g && s.prev[trg].chassisId == ""
    ensures if D(s, dst).Fin? then trg == src && Leads(g, result, src, dst) && |result| == D(s, dst).n
            else trg == dst && trg != src && result == []
  {
    trg, result := dst, [];
    while s.prev[trg].chassisId != ""
      invariant trg in g && Leads(g, result, trg, dst)
      invariant D(s, dst).Fin? ==> D(s, trg).Fin? && D(s, trg).n + |result| == D(s, dst).n
      invariant D(s, dst).Inf? ==> trg == dst && result == []
      decreases if D(s, trg).Fin? then D(s, trg).n else 0
    {
      assert Chained(g, src, s, g.Keys, trg);
      var p := s.prev[trg];
      ghost var rest := result;
      result := [p] + result;
      assert result[1..] == rest;
      trg := p.chassisId;
    }
    assert Chained(g, src, s, g.Keys, trg);
  }

  // The walk behind a route, for comparing lengths.
  lemma {:induction false} AnswerFound(g: Links, src: string, dst: string, s: Search, r: Route)
    requires Domains(g, src, s) && Witnessed(g, src, s) && (forall w :: w in g ==> Relaxed(g, s, w)) && dst in g
    requires if D(s, dst).Fin? then Leads(g, r, src, dst) && |r| == D(s, dst).n else r == []
    ensures Answers(g, src, dst, r)
    ensures D(s, dst).Fin? <==> Reachable(g, src, dst)
  {
    forall n: nat | Walk(g, src, dst, n)
      ensures D(s, dst).Fin? && D(s, dst).n <= n
    {
      LeastDistance(g, src, s, dst, n);
    }
    if D(s, dst).Fin? {
      assert Walk(g, src, dst, D(s, dst).n);
    }
  }

  // ---------- the priority queue ----------

  // Removes an entry with the least key; which of several is left open.
  method PopLeast(q: seq<(string, Hops)>) returns (i: nat)
    requires q != []
    ensures i < |q| && forall j :: 0 <= j < |q| ==> AtMost(q[i].1, q[j].1)
  {
    i := 0;
    for k := 1 to |q|
      invariant i < k && forall j :: 0 <= j < k ==> AtMost(q[i].1, q[j].1)
    {
      if Less(q[k].1, q[i].1) {
        i := k;
      }
    }
  }

  // No entry promises less than the distance it stands for.
  ghost predicate Keys(g: Links, s: Search) {
    forall i :: 0 <= i < |s.q| ==> s.q[i].0 in g && AtMost(D(s, s.q[i].0), s.q[i].1)
  }

  ghost predicate Queued(s: Search, x: string) {
    (x, D(s, x)) in s.q
  }

  // Start: everything is infinitely far except the source.
  method Start(v: Db, srcId: string) returns (s: Search)
    requires srcId in v
    ensures Domains(LinksOf(v), srcId, s) && AllChained(LinksOf(v), srcId, s, {})
    ensures forall x :: x in v && x != srcId ==> D(s, x) == Inf && Queued(s, x)
    ensures D(s, srcId) == Fin(0) && Queued(s, srcId)
    ensures forall i :: 0 <= i < |s.q| ==> s.q[i].0 in v && s.q[i].1 == if s.q[i].0 == srcId then Fin(0) else Inf
  {
    s := Search(map[], map[], []);
    var keys := v.Keys;
    while keys != {}
      invariant keys <= v.Keys && s.dist.Keys == v.Keys - keys - {srcId}
      invariant Unset(v, srcId, s)
      decreases keys
    {
      var k :| k in keys;
      if k != srcId {
        UnsetStep(v, srcId, s, k);
        s := Search(s.dist[k := Inf], s.prev[k := NOWHERE], s.q + [(k, Inf)]);
      }
      keys := keys - {k};
    }
    AllUnset(v, srcId, s);
    s := Search(s.dist, s.prev[srcId := NOWHERE], s.q + [(srcId, Fin(0))]);
  }

  lemma AllUnset(v: Db, srcId: string, s: Search)
    requires srcId in v && Unset(v, srcId, s) && s.dist.Keys == v.Keys - {srcId}
    ensures var s' := Search(s.dist, s.prev[srcId := NOWHERE], s.q + [(srcId, Fin(0))]);
      && Domains(LinksOf(v), srcId, s') && AllChained(LinksOf(v), srcId, s', {})
      && (forall x :: x in v && x != srcId ==> D(s', x) == Inf && Queued(s', x))
      && D(s', srcId) == Fin(0) && Queued(s', srcId)
      && forall i :: 0 <= i < |s'.q| ==> s'.q[i].0 in v && s'.q[i].1 == if s'.q[i].0 == srcId then Fin(0) else Inf
  {
    var q := s.q + [(srcId, Fin(0))];
    assert q[|s.q|] == (srcId, Fin(0));
  }

  // So far nothing has been reached, and the source has not been entered.
  ghost predicate Unset(v: Db, srcId: string, s: Search) {
    && s.prev.Keys == s.dist.Keys && srcId !in s.dist
    && (forall x :: x in s.dist ==> s.dist[x] == Inf && s.prev[x] == NOWHERE && (x, Inf) in s.q)
    && forall i :: 0 <= i < |s.q| ==> s.q[i].0 in v && s.q[i].0 != srcId && s.q[i].1 == Inf
  }

  lemma UnsetStep(v: Db, srcId: string, s: Search, k: string)
    requires Unset(v, srcId, s) && k in v && k != srcId
    ensures Unset(v, srcId, Search(s.dist[k := Inf], s.prev[k := NOWHERE], s.q + [(k, Inf)]))
  {
    var q := s.q + [(k, Inf)];
    assert q[|s.q|] == (k, Inf);
  }

  // ---------- what an improvement keeps ----------

  // u offers x a shorter way, and nobody's predecessor is x.
  ghost predicate Offers(g: Links, src: string, s: Search, from: set<string>, u: string, port: int, x: string) {
    && Domains(g, src, s) && u in g && x in g && Port(g, u, port, x) && u in from && x !in from
    && Less(Next(D(s, u)), D(s, x))
  }

  lemma ImprovedWitnessed(g: Links, src: string, s: Search, from: set<string>, u: string, port: int, x: string)
    requires Offers(g, src, s, from, u, port, x) && Witnessed(g, src, s)
    ensures Witnessed(g, src, Improved(s, u, port, x)) && Domains(g, src, Improved(s, u, port, x))
  {
    assert Edge(g, u, x);
    assert Walk(g, src, x, D(s, u).n + 1);
  }

  lemma ImprovedChained(g: Links, src: string, s: Search, from: set<string>, u: string, port: int, x: string)
    requires Offers(g, src, s, from, u, port, x) && AllChained(g, src, s, from)
    ensures AllChained(g, src, Improved(s, u, port, x), from)
  {
    var s' := Improved(s, u, port, x);
    forall y | y in g
      ensures Chained(g, src, s', from, y)
    {
      assert Chained(g, src, s, from, y);
    }
  }

  lemma ImprovedKeys(g: Links, src: string, s: Search, from: set<string>, u: string, port: int, x: string)
    requires Offers(g, src, s, from, u, port, x) && Keys(g, s)
    ensures Keys(g, Improved(s, u, port, x))
  {
  }

  lemma ImprovedQueued(g: Links, src: string, s: Search, from: set<string>, u: string, port: int, x: string, y: string)
    requires Offers(g, src, s, from, u, port, x) && (Queued(s, y) || y == x)
    ensures Queued(Improved(s, u, port, x), y)
  {
    var s' := Improved(s, u, port, x);
    if y == x {
      assert s'.q[|s.q|] == (x, D(s', x));
    }
  }

  lemma ImprovedRelaxed(g: Links, src: string, s: Search, from: set<string>, u: string, port: int, x: string, w: string)
    requires Offers(g, src, s, from, u, port, x) && Relaxed(g, s, w) && w != x
    ensures Relaxed(g, Improved(s, u, port, x), w)
  {
  }

  // Taking an entry off the queue.
  lemma Taken(g: Links, s: Search, i: nat, x: string)
    requires Keys(g, s) && i < |s.q|
    ensures Keys(g, s.(q := Without(s.q, i)))
    ensures Queued(s, x) && s.q[i] != (x, D(s, x)) ==> Queued(s.(q := Without(s.q, i)), x)
  {
    var q := Without(s.q, i);
    if (x, D(s, x)) in s.q && s.q[i] != (x, D(s, x)) {
      var j :| 0 <= j < |s.q| && s.q[j] == (x, D(s, x));
      assert q[if j < i then j else j - 1] == s.q[j];
    }
  }
}
