/**
 * Routing by Dijkstra's algorithm over the link database, behind a cache of routes that
 * is dropped whenever the database's version has moved on.
 */
module LLDPForwardings {
  import opened Basics
  import opened LLDPMibs
  import opened LLDPMibGraphs
  import opened LLDPRoutes

  // ---------- the search ----------

  // Everyone but `out` has its distance in the queue.
  ghost predicate Waiting(g: Links, s: Search, out: set<string>) {
    forall x :: x in g && x !in out ==> Queued(s, x)
  }

  // No one in `done` is farther than anyone outside `visited`.
  ghost predicate Ordered(g: Links, s: Search, done: set<string>, visited: set<string>) {
    forall x, y :: x in done && y in g && y !in visited ==> AtMost(D(s, x), D(s, y))
  }

  ghost predicate AllRelaxed(g: Links, s: Search, visited: set<string>) {
    forall x :: x in visited ==> Relaxed(g, s, x)
  }

  // The first i links of u have been followed.
  ghost predicate PartlyRelaxed(g: Links, s: Search, u: string, i: nat)
    requires u in g && i <= |g[u]|
  {
    forall j :: 0 <= j < i ==> AtMost(D(s, g[u][j].dstId), Next(D(s, u)))
  }

  // Between two rounds: the visited vertices are done, the others wait in the queue.
  ghost predicate Searching(g: Links, src: string, s: Search, visited: set<string>) {
    && visited <= g.Keys && Domains(g, src, s) && Witnessed(g, src, s) && AllChained(g, src, s, visited) && Keys(g, s)
    && Waiting(g, s, visited) && Ordered(g, s, visited, visited) && AllRelaxed(g, s, visited)
  }

  // Within a round at u.
  ghost predicate Relaxing(g: Links, src: string, s: Search, visited: set<string>, u: string, i: nat) {
    && u in g && u !in visited && visited <= g.Keys && i <= |g[u]|
    && Domains(g, src, s) && Witnessed(g, src, s) && AllChained(g, src, s, visited + {u}) && Keys(g, s)
    && Waiting(g, s, visited + {u}) && Ordered(g, s, visited + {u}, visited) && AllRelaxed(g, s, visited)
    && PartlyRelaxed(g, s, u, i)
  }

  // The least entry of the queue is an unvisited vertex's true distance, or stale.
  lemma Picked(g: Links, src: string, s: Search, visited: set<string>, i: nat)
    requires Searching(g, src, s, visited)
    requires i < |s.q| && forall j :: 0 <= j < |s.q| ==> AtMost(s.q[i].1, s.q[j].1)
    ensures var u, s' := s.q[i].0, s.(q := Without(s.q, i));
      if u in visited then Searching(g, src, s', visited) else Relaxing(g, src, s', visited, u, 0)
  {
    hide Keys, Waiting, AllRelaxed, Queued;
    var u, s' := s.q[i].0, s.(q := Without(s.q, i));
    PickedKeys(g, s, visited, i);
    PickedChained(g, src, s, s', visited, u);
    PickedRelaxed(g, s, s', visited);
    if u in visited { assert visited + {u} == visited; } else { PickedLeast(g, s, visited, i); }
  }

  lemma PickedKeys(g: Links, s: Search, visited: set<string>, i: nat)
    requires Keys(g, s) && Waiting(g, s, visited) && i < |s.q|
    ensures var s' := s.(q := Without(s.q, i));
      s.q[i].0 in g && Keys(g, s') && Waiting(g, s', visited + {s.q[i].0})
  {
    var s' := s.(q := Without(s.q, i));
    forall x | x in g && x !in visited && x != s.q[i].0
      ensures Queued(s', x)
    {
      Taken(g, s, i, x);
    }
    Taken(g, s, i, s.q[i].0);
  }

  lemma PickedLeast(g: Links, s: Search, visited: set<string>, i: nat)
    requires Keys(g, s) && Waiting(g, s, visited) && Ordered(g, s, visited, visited)
    requires i < |s.q| && (forall j :: 0 <= j < |s.q| ==> AtMost(s.q[i].1, s.q[j].1)) && s.q[i].0 !in visited
    ensures Ordered(g, s.(q := Without(s.q, i)), visited + {s.q[i].0}, visited)
  {
    var u := s.q[i].0;
    forall y | y in g && y !in visited
      ensures AtMost(D(s, u), D(s, y))
    {
      assert Queued(s, y);
      var j :| 0 <= j < |s.q| && s.q[j] == (y, D(s, y));
      assert AtMost(D(s, u), s.q[i].1) && AtMost(s.q[i].1, s.q[j].1);
    }
  }

  lemma PickedRelaxed(g: Links, s: Search, s': Search, visited: set<string>)
    requires AllRelaxed(g, s, visited) && s'.dist == s.dist
    ensures AllRelaxed(g, s', visited)
  {
    forall x | x in visited
      ensures Relaxed(g, s', x)
    {
      assert Relaxed(g, s, x);
    }
  }

  lemma PickedChained(g: Links, src: string, s: Search, s': Search, visited: set<string>, u: string)
    requires AllChained(g, src, s, visited) && s'.dist == s.dist && s'.prev == s.prev
    ensures AllChained(g, src, s', visited) && AllChained(g, src, s', visited + {u})
  {
    forall x | x in g
      ensures Chained(g, src, s', visited, x) && Chained(g, src, s', visited + {u}, x)
    {
      assert Chained(g, src, s, visited, x);
    }
  }

  // One link of u is followed: to a nearer way, or to none.
  function Follow(s: Search, visited: set<string>, u: string, l: Link): Search {
    if l.dstId !in visited && Less(Next(D(s, u)), D(s, l.dstId)) then Improved(s, u, l.srcPort, l.dstId) else s
  }

  lemma Followed(g: Links, src: string, s: Search, visited: set<string>, u: string, i: nat)
    requires Navigable(g) && Relaxing(g, src, s, visited, u, i) && i < |g[u]|
    ensures Relaxing(g, src, Follow(s, visited, u, g[u][i]), visited, u, i + 1)
  {
    var l := g[u][i];
    if Follow(s, visited, u, l) != s {
      var x, port, from := l.dstId, l.srcPort, visited + {u};
      assert Port(g, u, port, x);
      assert Offers(g, src, s, from, u, port, x);
      ImprovedWitnessed(g, src, s, from, u, port, x);
      ImprovedChained(g, src, s, from, u, port, x);
      ImprovedKeys(g, src, s, from, u, port, x);
      FollowedWaiting(g, src, s, visited, u, port, x);
      FollowedOrdered(g, src, s, visited, u, port, x);
    }
    FollowedPartly(g, s, visited, u, i);
  }

  lemma FollowedWaiting(g: Links, src: string, s: Search, visited: set<string>, u: string, port: int, x: string)
    requires Offers(g, src, s, visited + {u}, u, port, x) && Waiting(g, s, visited + {u}) && AllRelaxed(g, s, visited)
    ensures Waiting(g, Improved(s, u, port, x), visited + {u}) && AllRelaxed(g, Improved(s, u, port, x), visited)
  {
    forall y | y in g && y !in visited + {u}
      ensures Queued(Improved(s, u, port, x), y)
    {
      ImprovedQueued(g, src, s, visited + {u}, u, port, x, y);
    }
    forall w | w in visited
      ensures Relaxed(g, Improved(s, u, port, x), w)
    {
      ImprovedRelaxed(g, src, s, visited + {u}, u, port, x, w);
    }
  }

  lemma FollowedOrdered(g: Links, src: string, s: Search, visited: set<string>, u: string, port: int, x: string)
    requires Offers(g, src, s, visited + {u}, u, port, x) && Ordered(g, s, visited + {u}, visited) && u !in visited
    ensures Ordered(g, Improved(s, u, port, x), visited + {u}, visited)
  {
    assert forall w :: w in visited + {u} ==> AtMost(D(s, w), D(s, u));
  }

  lemma FollowedPartly(g: Links, s: Search, visited: set<string>, u: string, i: nat)
    requires u in g && i < |g[u]| && PartlyRelaxed(g, s, u, i) && u !in visited && Ordered(g, s, visited + {u}, visited)
    ensures PartlyRelaxed(g, Follow(s, visited, u, g[u][i]), u, i + 1)
  {
    var x := g[u][i].dstId;
    if x in visited { assert AtMost(D(s, x), D(s, u)); }
  }

  // With all its links followed u is visited.
  lemma RoundDone(g: Links, src: string, s: Search, visited: set<string>, u: string)
    requires u in g && Relaxing(g, src, s, visited, u, |g[u]|)
    ensures Searching(g, src, s, visited + {u})
  {
    forall x | Edge(g, u, x)
      ensures AtMost(D(s, x), Next(D(s, u)))
    {
      var port :| Port(g, u, port, x);
      var j :| 0 <= j < |g[u]| && g[u][j].srcPort == port && g[u][j].dstId == x;
    }
  }

  // ---------- the algorithm ----------

  method ShortestPath(v: Db, srcId: string, dstId: string) returns (trg: string, result: Route)
    requires Navigable(LinksOf(v)) && srcId in v && dstId in v
    ensures Answers(LinksOf(v), srcId, dstId, result)
    ensures trg == srcId <==> Reachable(LinksOf(v), srcId, dstId)
  {
    ghost var g := LinksOf(v);
    var s := Dijkstra(v, srcId);
    trg, result := BackTrack(s, srcId, dstId, g);
    AnswerFound(g, srcId, dstId, s, result);
  }

  method Dijkstra(v: Db, srcId: string) returns (s: Search)
    requires Navigable(LinksOf(v)) && srcId in v
    ensures var g := LinksOf(v);
      && Domains(g, srcId, s) && Witnessed(g, srcId, s) && AllChained(g, srcId, s, g.Keys)
      && forall w :: w in g ==> Relaxed(g, s, w)
  {
    ghost var g := LinksOf(v);
    s := Start(v, srcId);
    var visited: set<string> := {};
    Started(g, srcId, s);
    while s.q != []
      invariant Searching(g, srcId, s, visited)
      decreases |v.Keys - visited|, |s.q|
    {
      s, visited := Round(v, srcId, s, visited);
    }
    AllVisited(g, srcId, s, visited);
  }

  // The nearest entry of the queue is taken and, unless stale, its vertex visited.
  method Round(v: Db, ghost src: string, s0: Search, visited0: set<string>) returns (s: Search, visited: set<string>)
    requires Navigable(LinksOf(v)) && Searching(LinksOf(v), src, s0, visited0) && s0.q != []
    ensures Searching(LinksOf(v), src, s, visited)
    ensures |v.Keys - visited| < |v.Keys - visited0| || (visited == visited0 && |s.q| < |s0.q|)
  {
    ghost var g := LinksOf(v);
    var i := PopLeast(s0.q);
    Picked(g, src, s0, visited0, i);
    var u := s0.q[i].0;
    s, visited := s0.(q := Without(s0.q, i)), visited0;
    if u !in visited0 {
      s := FollowLinks(v, src, s, visited0, u);
      assert v.Keys - (visited0 + {u}) == v.Keys - visited0 - {u};
      visited := visited0 + {u};
    }
  }

  lemma Started(g: Links, src: string, s: Search)
    requires Domains(g, src, s) && AllChained(g, src, s, {})
    requires forall x :: x in g && x != src ==> D(s, x) == Inf && Queued(s, x)
    requires D(s, src) == Fin(0) && Queued(s, src)
    requires forall i :: 0 <= i < |s.q| ==> s.q[i].0 in g && s.q[i].1 == if s.q[i].0 == src then Fin(0) else Inf
    ensures Searching(g, src, s, {})
  {
  }

  lemma AllVisited(g: Links, src: string, s: Search, visited: set<string>)
    requires Searching(g, src, s, visited) && s.q == []
    ensures visited == g.Keys && (forall w :: w in g ==> Relaxed(g, s, w)) && AllChained(g, src, s, g.Keys)
  {
    forall x | x in g
      ensures x in visited
    {
      assert !Queued(s, x);
    }
  }

  // The links of u, one after the other.
  method FollowLinks(v: Db, ghost src: string, s0: Search, visited: set<string>, u: string) returns (s: Search)
    requires Navigable(LinksOf(v)) && Relaxing(LinksOf(v), src, s0, visited, u, 0)
    ensures Searching(LinksOf(v), src, s, visited + {u})
  {
    ghost var g := LinksOf(v);
    StrippedAt(v[u]);
    s := s0;
    for i := 0 to |v[u]|
      invariant Relaxing(g, src, s, visited, u, i)
    {
      Followed(g, src, s, visited, u, i);
      var l := v[u][i];
      if l.dstId !in visited {
        var alt := Next(D(s, u));
        if Less(alt, D(s, l.dstId)) {
          s := Search(s.dist[l.dstId := alt], s.prev[l.dstId := Segment(u, l.srcPort)], s.q + [(l.dstId, alt)]);
        }
      }
    }
    RoundDone(g, src, s, visited, u);
  }

  // ---------- the cache ----------

  ghost predicate CacheAnswers(g: Links, cache: map<(string, string), Route>) {
    forall key :: key in cache ==> Answers(g, key.0, key.1, cache[key])
  }

  ghost predicate CacheOf(history: map<int, Links>, version: int, cache: map<(string, string), Route>) {
    if version in history then CacheAnswers(history[version], cache) else cache == map[]
  }

  // A history that only grows leaves the cache what it was.
  lemma CacheKept(history: map<int, Links>, history': map<int, Links>, version: int,
      cache: map<(string, string), Route>)
    requires CacheOf(history, version, cache)
    requires forall n :: n in history ==> n in history' && history'[n] == history[n]
    ensures CacheOf(history', version, cache)
  {
  }

  // What the cache holds when a route is asked for: nothing of another version.
  function CacheAt(version: int, cached: int, cache: map<(string, string), Route>): map<(string, string), Route> {
    if version == cached then cache else map[]
  }

  // A new route is kept, if there is one.
  ghost predicate Keeps(g: Links, before: map<(string, string), Route>, key: (string, string), route: Route,
      after: map<(string, string), Route>)
  {
    if key in before then after == before && route == before[key]
    else if key.0 in g && key.1 in g && Reachable(g, key.0, key.1) then after == before[key := route]
    else after == before
  }

  class LLDPForwarding {
    const mibGraph: LLDPMibGraph
    var version: int
    var versionHit: nat
    var versionMiss: nat
    var cacheHit: nat
    var cacheMiss: nat
    var routeCache: map<(string, string), Route>

    constructor (graph: LLDPMibGraph)
      requires graph.Valid()
      ensures Valid() && mibGraph == graph
    {
      mibGraph := graph;
      version := -1;
      versionHit, versionMiss, cacheHit, cacheMiss := 0, 0, 0, 0;
      routeCache := map[];
    }

    // The cached routes are answers for the links the database had at `version`.
    ghost predicate Valid()
      reads this, mibGraph
    {
      mibGraph.Valid() && CacheOf(mibGraph.history, version, routeCache)
    }

    // Switches have names.
    ghost predicate Ready()
      reads this, mibGraph
    {
      Valid() && "" !in mibGraph.verticies
    }

    // The version is checked; a cache of another version is dropped.
    method CheckVersion()
      requires Valid()
      modifies this`version, this`versionHit, this`versionMiss, this`routeCache
      ensures Valid() && version == mibGraph.version
      ensures old(version) == mibGraph.version ==> routeCache == old(routeCache) && versionHit == old(versionHit) + 1
      ensures old(version) != mibGraph.version ==> routeCache == map[] && versionMiss == old(versionMiss) + 1
    {
      if mibGraph.version == version {
        versionHit := versionHit + 1;
      } else {
        versionMiss := versionMiss + 1;
        routeCache := map[];
        version := mibGraph.version;
      }
    }

    // Appends to `list` the route from srcId to dstId through the links alive at simTime.
    method ComputePath(srcId: string, dstId: string, list: Route, simTime: int) returns (list': Route)
      requires Valid() && "" !in mibGraph.verticies
      modifies this, mibGraph
      ensures Valid() && mibGraph.verticies == LiveDb(old(mibGraph.verticies), simTime)
      ensures |list| <= |list'| && list'[..|list|] == list
      ensures Answers(LinksOf(mibGraph.verticies), srcId, dstId, list'[|list|..])
      ensures mibGraph.version >= old(mibGraph.version)
    {
      mibGraph.RemoveExpiredEntries(simTime);
      var result := Lookup(srcId, dstId);
      list' := list + result;
      assert list'[|list|..] == result;
    }

    method Lookup(srcId: string, dstId: string) returns (result: Route)
      requires Valid() && "" !in mibGraph.verticies
      modifies this
      ensures Valid() && Answers(LinksOf(mibGraph.verticies), srcId, dstId, result)
      ensures old(version) == mibGraph.version && (srcId, dstId) in old(routeCache) ==>
                result == old(routeCache)[(srcId, dstId)] && cacheHit == old(cacheHit) + 1
      ensures Keeps(LinksOf(mibGraph.verticies), old(CacheAt(mibGraph.version, version, routeCache)),
                    (srcId, dstId), result, routeCache)
    {
      ghost var g := LinksOf(mibGraph.verticies);
      var hit := mibGraph.version == version;
      CheckVersion();
      if hit {
        if (srcId, dstId) in routeCache {
          cacheHit := cacheHit + 1;
          return routeCache[(srcId, dstId)];
        } else {
          cacheMiss := cacheMiss + 1;
        }
      }
      if srcId !in mibGraph.verticies || dstId !in mibGraph.verticies {
        return [];
      }
      SoundNavigable(mibGraph.verticies);
      var trg;
      trg, result := ShortestPath(mibGraph.verticies, srcId, dstId);
      if trg != srcId {
        result := [];
      } else {
        routeCache := routeCache[(srcId, dstId) := result];
      }
    }
  }
}
