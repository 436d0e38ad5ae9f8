/**
 * Routing with fewest hops and random choice between ways that tie. The search keeps no
 * visited set: a vertex may be taken from the queue again and again.
 */
module LLDPBalancedMinHops {
  import opened Basics
  import opened LLDPMibs
  import opened LLDPMibGraphs
  import opened LLDPRoutes
  import opened LLDPForwardings

  ghost predicate AllReachable(g: Links, src: string) {
    forall x :: x in g ==> Reachable(g, src, x)
  }

  // A search from src is sure to end, or none is made.
  ghost predicate Spans(g: Links, src: string, dst: string) {
    src in g && dst in g ==> AllReachable(g, src)
  }

  // ---------- the search ----------

  // The vertices reached so far.
  ghost function Disc(g: Links, s: Search): set<string> { set x | x in g && D(s, x).Fin? }

  // An entry with a finite key is never stale.
  ghost predicate Timely(g: Links, s: Search) {
    forall i :: 0 <= i < |s.q| ==> s.q[i].0 in g && (s.q[i].1.Fin? ==> s.q[i].1 == D(s, s.q[i].0))
  }

  // Distances are bounded by the number of vertices reached.
  ghost predicate Compact(g: Links, s: Search) {
    forall x :: x in Disc(g, s) ==> D(s, x).n < |Disc(g, s)|
  }

  ghost predicate Done(g: Links, s: Search, done: set<string>) {
    done <= Disc(g, s) && forall x :: x in done ==> Relaxed(g, s, x)
  }

  ghost predicate Pending(g: Links, s: Search, out: set<string>) {
    forall x :: x in Disc(g, s) && x !in out ==> Queued(s, x)
  }

  // No one is more than a hop farther than anyone still to be followed.
  ghost predicate Near(g: Links, s: Search, done: set<string>) {
    forall x, y :: x in Disc(g, s) && y in Disc(g, s) && y !in done ==> D(s, x).n <= D(s, y).n + 1
  }

  ghost predicate Nearest(g: Links, s: Search, done: set<string>, u: string) {
    u in Disc(g, s) && forall y :: y in Disc(g, s) && y !in done ==> D(s, u).n <= D(s, y).n
  }

  ghost predicate Tree(g: Links, src: string, s: Search) {
    && Domains(g, src, s) && Witnessed(g, src, s) && AllChained(g, src, s, Disc(g, s))
    && Timely(g, s) && Compact(g, s)
  }

  // Between two rounds.
  ghost predicate Balancing(g: Links, src: string, s: Search, done: set<string>) {
    BalancingAt(g, src, s, done)
  }

  ghost predicate BalancingAt(g: Links, src: string, s: Search, done: set<string>) {
    Tree(g, src, s) && Done(g, s, done) && Pending(g, s, done) && Near(g, s, done)
  }

  // Within a round at u, whose first i links have been followed.
  ghost predicate Spreading(g: Links, src: string, s: Search, done: set<string>, u: string, i: nat) {
    u in g && i <= |g[u]| && SpreadingAt(g, src, s, done, u, i)
  }

  ghost predicate SpreadingAt(g: Links, src: string, s: Search, done: set<string>, u: string, i: nat)
    requires u in g && i <= |g[u]|
  {
    && Tree(g, src, s) && Done(g, s, done) && Pending(g, s, done + {u}) && Near(g, s, done) && Nearest(g, s, done, u)
    && PartlyRelaxed(g, s, u, i)
  }

  // A way through u that ties with the present one.
  ghost predicate Tie(g: Links, s: Search, u: string, x: string, seg: Segment) {
    x in g && u in g && D(s, u).Fin? && seg.chassisId == u && Port(g, u, seg.outport, x) && D(s, x) == Next(D(s, u))
  }

  ghost predicate Ties(g: Links, s: Search, u: string, ties: seq<(string, Segment)>) {
    forall j :: 0 <= j < |ties| ==> Tie(g, s, u, ties[j].0, ties[j].1)
  }

  // ---------- taking an entry ----------

  // When everything reached has been followed, everything reachable has been reached.
  lemma {:induction false} Closed(g: Links, src: string, s: Search, done: set<string>, x: string, n: nat)
    requires Domains(g, src, s) && Done(g, s, done) && Disc(g, s) <= done && Walk(g, src, x, n) && x in g
    ensures x in done
    decreases n
  {
    if n == 0 {
      assert src in Disc(g, s);
    } else {
      var w :| w in g && Walk(g, src, w, n - 1) && Edge(g, w, x);
      Closed(g, src, s, done, w, n - 1);
      assert Relaxed(g, s, w);
      assert x in Disc(g, s);
    }
  }

  lemma AllDone(g: Links, src: string, s: Search, done: set<string>)
    requires Domains(g, src, s) && Done(g, s, done) && Disc(g, s) <= done && AllReachable(g, src)
    ensures done == g.Keys
  {
    forall x | x in g
      ensures x in done
    {
      assert Reachable(g, src, x);
      var n: nat :| Walk(g, src, x, n);
      Closed(g, src, s, done, x, n);
    }
  }

  // Whichever entry is least, its vertex has been reached, and is nearest among those to be followed.
  lemma TakenNearest(g: Links, src: string, s: Search, done: set<string>, i: nat)
    requires Balancing(g, src, s, done) && AllReachable(g, src)
    requires i < |s.q| && forall j :: 0 <= j < |s.q| ==> AtMost(s.q[i].1, s.q[j].1)
    ensures Nearest(g, s, done, s.q[i].0)
  {
    var u := s.q[i].0;
    forall y | y in Disc(g, s) && y !in done
      ensures s.q[i].1.Fin? && s.q[i].1.n <= D(s, y).n
    {
      assert Queued(s, y);
      var j :| 0 <= j < |s.q| && s.q[j] == (y, D(s, y));
      assert AtMost(s.q[i].1, s.q[j].1);
    }
    if s.q[i].1.Inf? {
      assert Disc(g, s) <= done;
      AllDone(g, src, s, done);
    }
    assert u in Disc(g, s);
  }

  lemma TakenOff(g: Links, src: string, s: Search, done: set<string>, i: nat)
    requires Balancing(g, src, s, done) && i < |s.q| && Nearest(g, s, done, s.q[i].0)
    ensures Spreading(g, src, s.(q := Without(s.q, i)), done, s.q[i].0, 0)
  {
    var u, s' := s.q[i].0, s.(q := Without(s.q, i));
    SameReached(g, s, s');
    forall x | x in Disc(g, s') && x !in done + {u}
      ensures Queued(s', x)
    {
      assert Queued(s, x);
      TakenOther(s, i, x);
    }
    SameTree(g, src, s, s');
    SameDone(g, s, s', done);
    SameNear(g, s, s', done);
  }

  lemma TakenOther(s: Search, i: nat, x: string)
    requires i < |s.q| && Queued(s, x) && s.q[i].0 != x
    ensures Queued(s.(q := Without(s.q, i)), x)
  {
    var j :| 0 <= j < |s.q| && s.q[j] == (x, D(s, x));
    assert Without(s.q, i)[if j < i then j else j - 1] == s.q[j];
  }

  lemma SameTree(g: Links, src: string, s: Search, s': Search)
    requires Tree(g, src, s) && s'.dist == s.dist && s'.prev == s.prev && Timely(g, s')
    ensures Tree(g, src, s')
  {
    assert Disc(g, s') == Disc(g, s);
    forall x | x in g
      ensures Chained(g, src, s', Disc(g, s'), x)
    {
      assert Chained(g, src, s, Disc(g, s), x);
    }
  }

  // ---------- following a link ----------

  // Only a vertex not reached before is ever improved.
  lemma OnlyNew(g: Links, src: string, s: Search, done: set<string>, u: string, i: nat)
    requires Navigable(g) && Spreading(g, src, s, done, u, i) && i < |g[u]|
    requires Less(Next(D(s, u)), D(s, g[u][i].dstId))
    ensures g[u][i].dstId in g && g[u][i].dstId !in Disc(g, s) && u !in done
    ensures Offers(g, src, s, Disc(g, s), u, g[u][i].srcPort, g[u][i].dstId)
  {
    var x := g[u][i].dstId;
    assert Port(g, u, g[u][i].srcPort, x);
    assert Edge(g, u, x);
    assert u in done ==> Relaxed(g, s, u);
  }

  lemma Discovered(g: Links, src: string, s: Search, done: set<string>, u: string, i: nat)
    requires Navigable(g) && Spreading(g, src, s, done, u, i) && i < |g[u]|
    requires Less(Next(D(s, u)), D(s, g[u][i].dstId))
    ensures Spreading(g, src, Improved(s, u, g[u][i].srcPort, g[u][i].dstId), done, u, i + 1)
    ensures var s' := Improved(s, u, g[u][i].srcPort, g[u][i].dstId);
      |Disc(g, s')| > |Disc(g, s)| && Disc(g, s) <= Disc(g, s')
  {
    var port, x := g[u][i].srcPort, g[u][i].dstId;
    var s' := Improved(s, u, port, x);
    OnlyNew(g, src, s, done, u, i);
    DiscoveredMore(g, src, s, u, port, x);
    DiscoveredTree(g, src, s, u, port, x);
    DiscoveredQueue(g, src, s, done, u, port, x);
    DiscoveredNear(g, src, s, done, u, port, x);
    DiscoveredPartly(g, src, s, u, i);
  }

  lemma DiscoveredMore(g: Links, src: string, s: Search, u: string, port: int, x: string)
    requires Offers(g, src, s, Disc(g, s), u, port, x)
    ensures Disc(g, Improved(s, u, port, x)) == Disc(g, s) + {x}
    ensures |Disc(g, Improved(s, u, port, x))| > |Disc(g, s)|
  {
    assert Disc(g, Improved(s, u, port, x)) == Disc(g, s) + {x};
  }

  lemma DiscoveredNear(g: Links, src: string, s: Search, done: set<string>, u: string, port: int, x: string)
    requires Offers(g, src, s, Disc(g, s), u, port, x) && Near(g, s, done) && Nearest(g, s, done, u) && u !in done
    requires Disc(g, Improved(s, u, port, x)) == Disc(g, s) + {x}
    ensures Near(g, Improved(s, u, port, x), done) && Nearest(g, Improved(s, u, port, x), done, u)
  {
  }

  lemma DiscoveredPartly(g: Links, src: string, s: Search, u: string, i: nat)
    requires u in g && i < |g[u]| && PartlyRelaxed(g, s, u, i)
    requires Offers(g, src, s, Disc(g, s), u, g[u][i].srcPort, g[u][i].dstId)
    ensures PartlyRelaxed(g, Improved(s, u, g[u][i].srcPort, g[u][i].dstId), u, i + 1)
  {
  }

  lemma DiscoveredTree(g: Links, src: string, s: Search, u: string, port: int, x: string)
    requires Tree(g, src, s) && Offers(g, src, s, Disc(g, s), u, port, x)
    requires Disc(g, Improved(s, u, port, x)) == Disc(g, s) + {x}
    ensures Tree(g, src, Improved(s, u, port, x))
  {
    var s' := Improved(s, u, port, x);
    ImprovedWitnessed(g, src, s, Disc(g, s), u, port, x);
    ImprovedChained(g, src, s, Disc(g, s), u, port, x);
    forall y | y in g
      ensures Chained(g, src, s', Disc(g, s'), y)
    {
      assert Chained(g, src, s', Disc(g, s), y);
    }
  }

  lemma DiscoveredQueue(g: Links, src: string, s: Search, done: set<string>, u: string, port: int, x: string)
    requires Offers(g, src, s, Disc(g, s), u, port, x) && Done(g, s, done) && Pending(g, s, done + {u})
    requires Disc(g, Improved(s, u, port, x)) == Disc(g, s) + {x}
    ensures Done(g, Improved(s, u, port, x), done) && Pending(g, Improved(s, u, port, x), done + {u})
  {
    forall y | y in Disc(g, s) + {x} && y !in done + {u}
      ensures Queued(Improved(s, u, port, x), y)
    {
      ImprovedQueued(g, src, s, Disc(g, s), u, port, x, y);
    }
    forall w | w in done
      ensures Relaxed(g, Improved(s, u, port, x), w)
    {
      ImprovedRelaxed(g, src, s, Disc(g, s), u, port, x, w);
    }
  }

  // ---------- choosing between ties ----------

  // A tie takes the place of the present way.
  function Rerouted(s: Search, u: string, x: string, seg: Segment): Search {
    Search(s.dist[x := Next(D(s, u))], s.prev[x := seg], s.q + [(x, Next(D(s, u)))])
  }

  lemma SameReached(g: Links, s: Search, s': Search)
    requires s'.dist == s.dist
    ensures Disc(g, s') == Disc(g, s)
  {
  }

  lemma ReroutedChained(g: Links, src: string, s: Search, u: string, x: string, seg: Segment)
    requires AllChained(g, src, s, Disc(g, s)) && Tie(g, s, u, x, seg)
    ensures AllChained(g, src, Rerouted(s, u, x, seg), Disc(g, s)) && Rerouted(s, u, x, seg).dist == s.dist
  {
    var s' := Rerouted(s, u, x, seg);
    assert x != src && s'.dist == s.dist;
    forall y | y in g
      ensures Chained(g, src, s', Disc(g, s), y)
    {
      assert Chained(g, src, s, Disc(g, s), y);
    }
  }

  lemma ReroutedTree(g: Links, src: string, s: Search, u: string, x: string, seg: Segment)
    requires Tree(g, src, s) && Tie(g, s, u, x, seg)
    ensures Tree(g, src, Rerouted(s, u, x, seg)) && Rerouted(s, u, x, seg).dist == s.dist
  {
    hide Chained, Port;
    ReroutedChained(g, src, s, u, x, seg);
    SameReached(g, s, Rerouted(s, u, x, seg));
  }

  lemma ReroutedBalancing(g: Links, src: string, s: Search, done: set<string>, u: string, x: string, seg: Segment)
    requires Balancing(g, src, s, done) && Tie(g, s, u, x, seg)
    ensures Balancing(g, src, Rerouted(s, u, x, seg), done)
  {
    var s' := Rerouted(s, u, x, seg);
    ReroutedTree(g, src, s, u, x, seg);
    SameReached(g, s, s');
    SameDone(g, s, s', done);
    SamePending(g, s, s', done);
    SameNear(g, s, s', done);
  }

  lemma SameDone(g: Links, s: Search, s': Search, done: set<string>)
    requires Done(g, s, done) && s'.dist == s.dist
    ensures Done(g, s', done)
  {
    forall w | w in done
      ensures Relaxed(g, s', w)
    {
      assert Relaxed(g, s, w);
    }
  }

  lemma SamePending(g: Links, s: Search, s': Search, done: set<string>)
    requires Pending(g, s, done) && s'.dist == s.dist && s.q <= s'.q
    ensures Pending(g, s', done)
  {
    forall y | y in Disc(g, s') && y !in done
      ensures Queued(s', y)
    {
      assert Queued(s, y);
    }
  }

  lemma SameNear(g: Links, s: Search, s': Search, done: set<string>)
    requires Near(g, s, done) && s'.dist == s.dist
    ensures Near(g, s', done)
  {
    SameReached(g, s, s');
  }

  lemma SpreadOut(g: Links, src: string, s: Search, done: set<string>, u: string)
    requires u in g && Spreading(g, src, s, done, u, |g[u]|)
    ensures Balancing(g, src, s, done + {u})
  {
    forall x | Edge(g, u, x)
      ensures AtMost(D(s, x), Next(D(s, u)))
    {
      var port :| Port(g, u, port, x);
      var j :| 0 <= j < |g[u]| && g[u][j].srcPort == port && g[u][j].dstId == x;
    }
  }

  // ---------- termination ----------

  // The levels that are left below the vertices of the queue, of n levels in all.
  ghost function Budget(dist: Search, q: seq<(string, Hops)>, n: nat): nat {
    if q == [] then 0 else Levels(D(dist, q[0].0), n) + Budget(dist, q[1..], n)
  }

  ghost function Levels(h: Hops, n: nat): nat { if h.Fin? && h.n <= n then n - h.n + 1 else 0 }

  lemma {:induction false} BudgetConcat(s: Search, q: seq<(string, Hops)>, r: seq<(string, Hops)>, n: nat)
    ensures Budget(s, q + r, n) == Budget(s, q, n) + Budget(s, r, n)
  {
    if q == [] {
      assert q + r == r;
    } else {
      assert (q + r)[0] == q[0] && (q + r)[1..] == q[1..] + r;
      BudgetConcat(s, q[1..], r, n);
    }
  }

  lemma BudgetWithout(s: Search, q: seq<(string, Hops)>, i: nat, n: nat)
    requires i < |q|
    ensures Budget(s, Without(q, i), n) == Budget(s, q, n) - Levels(D(s, q[i].0), n)
  {
    assert q == q[..i] + ([q[i]] + q[i + 1..]);
    BudgetConcat(s, q[..i], [q[i]] + q[i + 1..], n);
    BudgetConcat(s, [q[i]], q[i + 1..], n);
    BudgetConcat(s, q[..i], q[i + 1..], n);
  }

  lemma {:induction false} SameBudget(s: Search, s': Search, q: seq<(string, Hops)>, n: nat)
    requires s.dist == s'.dist
    ensures Budget(s, q, n) == Budget(s', q, n)
  {
    if q != [] { SameBudget(s, s', q[1..], n); }
  }

  // A round that reaches nothing new leaves less to do, even if it puts a tie back into the queue.
  lemma RoundCost(g: Links, s0: Search, s: Search, i: nat)
    requires i < |s0.q| && s.dist == s0.dist && D(s0, s0.q[i].0).Fin? && D(s0, s0.q[i].0).n < |g|
    requires s.q == Without(s0.q, i)
          || exists x :: D(s0, x) == Next(D(s0, s0.q[i].0)) && s.q == Without(s0.q, i) + [(x, D(s0, x))]
    ensures Budget(s, s.q, |g|) < Budget(s0, s0.q, |g|)
  {
    BudgetWithout(s0, s0.q, i, |g|);
    SameBudget(s, s0, s.q, |g|);
    if s.q != Without(s0.q, i) {
      var x :| D(s0, x) == Next(D(s0, s0.q[i].0)) && s.q == Without(s0.q, i) + [(x, D(s0, x))];
      BudgetConcat(s0, Without(s0.q, i), [(x, D(s0, x))], |g|);
    }
  }

  // ---------- a round ----------

  // Following one link of u: an improvement, a tie or neither. Ties are collected afresh after every improvement.
  function FollowOne(s: Search, ties: seq<(string, Segment)>, u: string, l: Link): (Search, seq<(string, Segment)>) {
    if Less(Next(D(s, u)), D(s, l.dstId)) then (Improved(s, u, l.srcPort, l.dstId), [])
    else if Next(D(s, u)) == D(s, l.dstId) then (s, ties + [(l.dstId, Segment(u, l.srcPort))])
    else (s, ties)
  }

  function FollowAll(s: Search, u: string, links: seq<Link>): (Search, seq<(string, Segment)>) {
    if links == [] then (s, [])
    else
      var (t, ties) := FollowAll(s, u, links[..|links| - 1]);
      FollowOne(t, ties, u, links[|links| - 1])
  }

  ghost predicate Improves(s: Search, u: string, l: Link) { Less(Next(D(s, u)), D(s, l.dstId)) }

  // The ways over the links that tie, in their order.
  function TiesOf(s: Search, u: string, links: seq<Link>): seq<(string, Segment)> {
    if links == [] then []
    else
      var l := links[|links| - 1];
      TiesOf(s, u, links[..|links| - 1]) + if Next(D(s, u)) == D(s, l.dstId) then [(l.dstId, Segment(u, l.srcPort))]
          else []
  }

  // The ties left are exactly those over the links that come after the last improvement.
  lemma {:induction false} TiesAfresh(s: Search, u: string, a: seq<Link>, b: seq<Link>)
    requires var (t, _) := FollowAll(s, u, a);
      && (a != [] ==> Improves(FollowAll(s, u, a[..|a| - 1]).0, u, a[|a| - 1]))
      && forall i :: 0 <= i < |b| ==> !Improves(t, u, b[i])
    ensures FollowAll(s, u, a + b) == (FollowAll(s, u, a).0, TiesOf(FollowAll(s, u, a).0, u, b))
    decreases |b|
  {
    if b == [] {
      assert a + b == a;
    } else {
      assert (a + b)[..|a + b| - 1] == a + b[..|b| - 1] && (a + b)[|a + b| - 1] == b[|b| - 1];
      TiesAfresh(s, u, a, b[..|b| - 1]);
      assert TiesOf(FollowAll(s, u, a).0, u, b[..|b| - 1]) + [] == TiesOf(FollowAll(s, u, a).0, u, b[..|b| - 1]);
    }
  }

  // Some entry with a least key is taken, the links of its vertex are followed, and one of the ties or none is chosen.
  ghost predicate Round(g: Links, s: Search, s': Search) {
    exists i: nat :: RoundAt(g, s, i, s')
  }

  ghost predicate RoundAt(g: Links, s: Search, i: nat, s': Search) {
    && i < |s.q| && s.q[i].0 in g && (forall j :: 0 <= j < |s.q| ==> AtMost(s.q[i].1, s.q[j].1))
    && var u := s.q[i].0; var (t, ties) := FollowAll(s.(q := Without(s.q, i)), u, g[u]); Chosen(t, u, ties, s')
  }

  ghost predicate Chosen(t: Search, u: string, ties: seq<(string, Segment)>, s': Search) {
    s' == t || exists j :: 0 <= j < |ties| && s' == Rerouted(t, u, ties[j].0, ties[j].1)
  }

  ghost predicate Grown(g: Links, s0: Search, s: Search) {
    Disc(g, s0) <= Disc(g, s) && (|Disc(g, s)| > |Disc(g, s0)| || s == s0)
  }

  lemma {:induction false} SpreadKeeps(g: Links, src: string, s0: Search, done: set<string>, u: string, i: nat)
    requires Navigable(g) && Spreading(g, src, s0, done, u, 0) && i <= |g[u]|
    ensures var (s, ties) := FollowAll(s0, u, g[u][..i]);
      Spreading(g, src, s, done, u, i) && Ties(g, s, u, ties) && Grown(g, s0, s)
  {
    hide SpreadingAt, Navigable, Disc, FollowOne, Tie;
    if i > 0 {
      SpreadKeeps(g, src, s0, done, u, i - 1);
      assert g[u][..i][..i - 1] == g[u][..i - 1] && g[u][..i][i - 1] == g[u][i - 1];
      var (s, ties) := FollowAll(s0, u, g[u][..i - 1]);
      FollowKeeps(g, src, s, done, u, i - 1, ties, s0);
    }
  }

  lemma FollowKeeps(g: Links, src: string, s0: Search, done: set<string>, u: string, i: nat,
                    ties0: seq<(string, Segment)>, start: Search)
    requires Navigable(g) && Spreading(g, src, s0, done, u, i) && i < |g[u]|
    requires Ties(g, s0, u, ties0) && Grown(g, start, s0)
    ensures var (s, ties) := FollowOne(s0, ties0, u, g[u][i]);
      Spreading(g, src, s, done, u, i + 1) && Ties(g, s, u, ties) && Grown(g, start, s)
  {
    hide SpreadingAt, Grown, Tie;
    if Less(Next(D(s0, u)), D(s0, g[u][i].dstId)) {
      Discovered(g, src, s0, done, u, i);
      StillGrown(g, start, s0, Improved(s0, u, g[u][i].srcPort, g[u][i].dstId));
    } else {
      NotBetter(g, src, s0, done, u, i);
    }
  }

  lemma StillGrown(g: Links, start: Search, s0: Search, s: Search)
    requires Grown(g, start, s0) && |Disc(g, s)| > |Disc(g, s0)| && Disc(g, s0) <= Disc(g, s)
    ensures Grown(g, start, s)
  {
  }

  lemma NotBetter(g: Links, src: string, s: Search, done: set<string>, u: string, i: nat)
    requires Navigable(g) && Spreading(g, src, s, done, u, i) && i < |g[u]|
    requires !Less(Next(D(s, u)), D(s, g[u][i].dstId))
    ensures Spreading(g, src, s, done, u, i + 1)
    ensures Next(D(s, u)) == D(s, g[u][i].dstId) ==> Tie(g, s, u, g[u][i].dstId, Segment(u, g[u][i].srcPort))
  {
    assert Port(g, u, g[u][i].srcPort, g[u][i].dstId);
  }

  // A search that is under way.
  ghost predicate Searches(g: Links, src: string, s: Search) {
    exists done :: Balancing(g, src, s, done)
  }

  // What a round achieves, for termination.
  ghost predicate Progress(g: Links, s0: Search, s: Search) {
    || |g.Keys - Disc(g, s)| < |g.Keys - Disc(g, s0)|
    || (|g.Keys - Disc(g, s)| == |g.Keys - Disc(g, s0)| && Budget(s, s.q, |g|) < Budget(s0, s0.q, |g|))
  }

  // Whatever is chosen, a round keeps what the search relies on, and leaves less to do.
  lemma RoundKeeps(g: Links, src: string, s0: Search, s: Search)
    requires Navigable(g) && AllReachable(g, src) && Searches(g, src, s0) && Round(g, s0, s)
    ensures Searches(g, src, s) && Progress(g, s0, s)
  {
    hide BalancingAt, Navigable, AllReachable, Progress, RoundAt;
    var done :| Balancing(g, src, s0, done);
    var i: nat :| RoundAt(g, s0, i, s);
    RoundAtKeeps(g, src, s0, done, i, s);
  }

  lemma RoundAtKeeps(g: Links, src: string, s0: Search, done: set<string>, i: nat, s: Search)
    requires Navigable(g) && AllReachable(g, src) && Balancing(g, src, s0, done) && RoundAt(g, s0, i, s)
    ensures Searches(g, src, s) && Progress(g, s0, s)
  {
    hide BalancingAt, SpreadingAt, Grown, Navigable, AllReachable, Progress, Tie;
    var u := s0.q[i].0;
    TakenNearest(g, src, s0, done, i);
    TakenOff(g, src, s0, done, i);
    var taken := s0.(q := Without(s0.q, i));
    var (t, ties) := FollowAll(taken, u, g[u]);
    SpreadKeeps(g, src, taken, done, u, |g[u]|);
    assert g[u][..|g[u]|] == g[u];
    SpreadOut(g, src, t, done, u);
    ChosenKeeps(g, src, t, done + {u}, u, ties, s);
    assert Balancing(g, src, s, done + {u});
    StillTree(g, src, s0, done);
    RoundProgress(g, src, s0, t, s, i);
  }

  lemma StillTree(g: Links, src: string, s: Search, done: set<string>)
    requires Balancing(g, src, s, done)
    ensures Tree(g, src, s)
  {
  }

  lemma ChosenKeeps(g: Links, src: string, t: Search, done: set<string>, u: string, ties: seq<(string, Segment)>,
      s: Search)
    requires Balancing(g, src, t, done) && Ties(g, t, u, ties) && Chosen(t, u, ties, s)
    ensures Balancing(g, src, s, done) && s.dist == t.dist
    ensures s.q == t.q || exists x :: D(t, x) == Next(D(t, u)) && s.q == t.q + [(x, D(t, x))]
  {
    hide BalancingAt;
    if s != t {
      var j :| 0 <= j < |ties| && s == Rerouted(t, u, ties[j].0, ties[j].1);
      assert Tie(g, t, u, ties[j].0, ties[j].1);
      ReroutedBalancing(g, src, t, done, u, ties[j].0, ties[j].1);
      StillTree(g, src, t, done);
      ReroutedTree(g, src, t, u, ties[j].0, ties[j].1);
    }
  }

  lemma RoundProgress(g: Links, src: string, s0: Search, spread: Search, s: Search, i: nat)
    requires Tree(g, src, s0) && i < |s0.q| && s0.q[i].0 in Disc(g, s0)
    requires Grown(g, s0.(q := Without(s0.q, i)), spread) && s.dist == spread.dist
    requires || s.q == spread.q
             || exists x :: D(spread, x) == Next(D(spread, s0.q[i].0)) && s.q == spread.q + [(x, D(spread, x))]
    ensures Progress(g, s0, s)
  {
    SameReached(g, spread, s);
    SameReached(g, s0, s0.(q := Without(s0.q, i)));
    Rest(g, s);
    Rest(g, s0);
    if |Disc(g, spread)| <= |Disc(g, s0)| {
      assert |g| == |g.Keys|;
      RoundCost(g, s0, s, i);
    }
  }

  lemma Rest(g: Links, s: Search)
    ensures |g.Keys - Disc(g, s)| == |g.Keys| - |Disc(g, s)| && |Disc(g, s)| <= |g.Keys|
  {
    assert g.Keys == (g.Keys - Disc(g, s)) + Disc(g, s);
  }

  // ---------- the algorithm ----------

  method BalancedPath(v: Db, srcId: string, dstId: string) returns (trg: string, result: Route)
    requires Navigable(LinksOf(v)) && srcId in v && dstId in v && AllReachable(LinksOf(v), srcId)
    ensures Answers(LinksOf(v), srcId, dstId, result) && trg == srcId
  {
    ghost var g := LinksOf(v);
    var s := Balance(v, srcId);
    trg, result := BackTrack(s, srcId, dstId, g);
    AnswerFound(g, srcId, dstId, s, result);
    assert Reachable(g, srcId, dstId);
  }

  method Balance(v: Db, srcId: string) returns (s: Search)
    requires Navigable(LinksOf(v)) && srcId in v && AllReachable(LinksOf(v), srcId)
    ensures var g := LinksOf(v);
      && Domains(g, srcId, s) && Witnessed(g, srcId, s) && AllChained(g, srcId, s, g.Keys)
      && forall w :: w in g ==> Relaxed(g, s, w)
  {
    ghost var g := LinksOf(v);
    s := Start(v, srcId);
    BalanceStarted(g, srcId, s);
    while s.q != []
      invariant Searches(g, srcId, s)
      decreases |g.Keys - Disc(g, s)|, Budget(s, s.q, |g|)
    {
      ghost var s0 := s;
      QueueKnown(g, srcId, s);
      s := BalancedRound(v, s);
      RoundKeeps(g, srcId, s0, s);
    }
    Exhausted(g, srcId, s);
  }

  lemma QueueKnown(g: Links, src: string, s: Search)
    requires Searches(g, src, s)
    ensures forall i :: 0 <= i < |s.q| ==> s.q[i].0 in g
  {
    var done :| Balancing(g, src, s, done);
    StillTree(g, src, s, done);
  }

  lemma Exhausted(g: Links, src: string, s: Search)
    requires Searches(g, src, s) && s.q == [] && AllReachable(g, src)
    ensures Domains(g, src, s) && Witnessed(g, src, s)
    ensures AllChained(g, src, s, g.Keys) && forall w :: w in g ==> Relaxed(g, s, w)
  {
    var done :| Balancing(g, src, s, done);
    assert Disc(g, s) <= done;
    AllDone(g, src, s, done);
    assert Disc(g, s) == g.Keys;
  }

  // Everything waits at an infinite distance but the source.
  ghost predicate Started(g: Links, src: string, s: Search) {
    && Domains(g, src, s) && AllChained(g, src, s, {})
    && (forall x :: x in g && x != src ==> D(s, x) == Inf && Queued(s, x))
    && D(s, src) == Fin(0) && Queued(s, src)
    && forall i :: 0 <= i < |s.q| ==> s.q[i].0 in g && s.q[i].1 == if s.q[i].0 == src then Fin(0) else Inf
  }

  lemma BalanceStarted(g: Links, src: string, s: Search)
    requires Started(g, src, s)
    ensures Searches(g, src, s)
  {
    assert Disc(g, s) == {src};
    assert Balancing(g, src, s, {});
  }

  method BalancedRound(v: Db, s0: Search) returns (s: Search)
    requires s0.q != [] && forall i :: 0 <= i < |s0.q| ==> s0.q[i].0 in v
    ensures Round(LinksOf(v), s0, s)
  {
    ghost var g := LinksOf(v);
    var i := PopLeast(s0.q);
    var u := s0.q[i].0;
    var ties;
    s, ties := Spread(v, s0.(q := Without(s0.q, i)), u);
    s := Choose(s, u, ties);
    assert RoundAt(g, s0, i, s);
  }

  // All links of u are followed.
  method Spread(v: Db, s0: Search, u: string) returns (s: Search, ties: seq<(string, Segment)>)
    requires u in v
    ensures (s, ties) == FollowAll(s0, u, LinksOf(v)[u])
  {
    ghost var links := LinksOf(v)[u];
    StrippedAt(v[u]);
    s, ties := s0, [];
    for i := 0 to |v[u]|
      invariant (s, ties) == FollowAll(s0, u, links[..i])
    {
      assert links[..i + 1][..i] == links[..i];
      s, ties := FollowLink(v[u][i], s, ties, u);
    }
    assert links[..|links|] == links;
  }

  method FollowLink(l: Mib, s0: Search, ties0: seq<(string, Segment)>, u: string)
    returns (s: Search, ties: seq<(string, Segment)>)
    ensures (s, ties) == FollowOne(s0, ties0, u, Ends(l))
  {
    s, ties := s0, ties0;
    var alt := Next(D(s, u));
    if Less(alt, D(s, l.dstId)) {
      ties := [];
      s := Search(s.dist[l.dstId := alt], s.prev[l.dstId := Segment(u, l.srcPort)], s.q + [(l.dstId, alt)]);
    } else if alt == D(s, l.dstId) {
      ties := ties + [(l.dstId, Segment(u, l.srcPort))];
    }
  }

  // One of the ties, or none, at random.
  method Choose(s0: Search, u: string, ties: seq<(string, Segment)>) returns (s: Search)
    ensures Chosen(s0, u, ties, s)
  {
    s := s0;
    if ties != [] {
      var r: nat :| r <= |ties|;
      if r < |ties| {
        var x, seg := ties[r].0, ties[r].1;
        var alt := Next(D(s, u));
        s := Search(s.dist[x := alt], s.prev[x := seg], s.q + [(x, alt)]);
      }
    }
  }

  // ---------- when the search is sure to end ----------

  // A search that never ends, one round after another.
  ghost predicate Endless(g: Links, s: Search, run: nat -> Search) {
    run(0) == s && forall n: nat :: Round(g, run(n), run(n + 1))
  }

  // With everything reachable there is none.
  lemma {:induction false} NoneEndless(g: Links, src: string, run: nat -> Search, n: nat)
    requires Navigable(g) && AllReachable(g, src) && Searches(g, src, run(n))
    requires forall k: nat :: Round(g, run(k), run(k + 1))
    ensures false
    decreases |g.Keys - Disc(g, run(n))|, Budget(run(n), run(n).q, |g|)
  {
    hide Searches, Round, AllReachable, Navigable, Disc, Budget;
    RoundKeeps(g, src, run(n), run(n + 1));
    NoneEndless(g, src, run, n + 1);
  }

  // A vertex that cannot be reached is linked to another one that cannot.
  lemma UnreachableLinked(v: Db, src: string, x: string)
    requires Sound(v) && x in v && !Reachable(LinksOf(v), src, x)
    ensures exists port, y :: Port(LinksOf(v), x, port, y) && y in v && !Reachable(LinksOf(v), src, y)
  {
    var g: Links, m := LinksOf(v), v[x][0];
    assert m in v[x] && HasMirror(v, m);
    var r :| r in v[m.dstId] && SameLink(r, m);
    StrippedAt(v[x]);
    StrippedAt(v[m.dstId]);
    var i :| 0 <= i < |v[m.dstId]| && v[m.dstId][i] == r;
    assert g[x][0].srcPort == m.srcPort && Port(g, x, m.srcPort, m.dstId);
    assert g[m.dstId][i].dstId == x && Port(g, m.dstId, r.srcPort, x) && Edge(g, m.dstId, x);
    if Reachable(g, src, m.dstId) {
      var n: nat :| Walk(g, src, m.dstId, n);
      assert Walk(g, src, x, n + 1);
    }
  }

  // What has been reached can be reached, and a vertex that cannot waits at infinity.
  ghost predicate Waits(g: Links, src: string, s: Search, x: string) {
    && (forall y :: y in g && D(s, y).Fin? ==> Reachable(g, src, y)) && (forall j :: 0 <= j < |s.q| ==> s.q[j].0 in g)
    && x in g && !Reachable(g, src, x) && (x, Inf) in s.q
  }

  lemma Onward(g: Links, src: string, u: string, x: string)
    requires u in g && Reachable(g, src, u) && Edge(g, u, x)
    ensures Reachable(g, src, x)
  {
    var n: nat :| Walk(g, src, u, n);
    assert Walk(g, src, x, n + 1);
  }

  lemma {:induction false} SpreadWaits(g: Links, src: string, s: Search, u: string, i: nat, x: string)
    requires Navigable(g) && Waits(g, src, s, x) && u in g && i <= |g[u]|
    ensures Waits(g, src, FollowAll(s, u, g[u][..i]).0, x)
  {
    if i > 0 {
      SpreadWaits(g, src, s, u, i - 1, x);
      assert g[u][..i][..i - 1] == g[u][..i - 1] && g[u][..i][i - 1] == g[u][i - 1];
      var t, l := FollowAll(s, u, g[u][..i - 1]).0, g[u][i - 1];
      assert Port(g, u, l.srcPort, l.dstId) && Edge(g, u, l.dstId);
      if D(t, u).Fin? { Onward(g, src, u, l.dstId); }
    }
  }

  // At a vertex at infinity nothing is improved, and every link to another one ties.
  lemma {:induction false} SpreadTies(s: Search, u: string, links: seq<Link>, k: nat)
    requires D(s, u).Inf? && k < |links| && D(s, links[k].dstId).Inf?
    ensures FollowAll(s, u, links).0 == s && (links[k].dstId, Segment(u, links[k].srcPort)) in FollowAll(s, u, links).1
    decreases |links|
  {
    var rest := links[..|links| - 1];
    SpreadNothing(s, u, rest);
    if k < |rest| { SpreadTies(s, u, rest, k); }
  }

  lemma {:induction false} SpreadNothing(s: Search, u: string, links: seq<Link>)
    requires D(s, u).Inf?
    ensures FollowAll(s, u, links).0 == s
    decreases |links|
  {
    if links != [] { SpreadNothing(s, u, links[..|links| - 1]); }
  }

  // As long as such a vertex waits, some round leads on to a state in which one does.
  lemma WaitsOn(v: Db, src: string, s: Search, x: string)
    requires Sound(v) && "" !in v && Waits(LinksOf(v), src, s, x)
    ensures exists s', y :: Round(LinksOf(v), s, s') && Waits(LinksOf(v), src, s', y)
  {
    var g: Links := LinksOf(v);
    SoundNavigable(v);
    var i := Least(s.q);
    if s.q[i].1.Fin? {
      var u, taken := s.q[i].0, s.(q := Without(s.q, i));
      StillWaits(g, src, s, i, x);
      SpreadWaits(g, src, taken, u, |g[u]|, x);
      assert g[u][..|g[u]|] == g[u];
      assert RoundAt(g, s, i, FollowAll(taken, u, g[u]).0);
    } else {
      WaitsByTie(v, src, s, x);
    }
  }

  lemma Least(q: seq<(string, Hops)>) returns (i: nat)
    requires q != []
    ensures i < |q| && forall j :: 0 <= j < |q| ==> AtMost(q[i].1, q[j].1)
  {
    i := 0;
    for k := 1 to |q|
      invariant i < k && forall j :: 0 <= j < k ==> AtMost(q[i].1, q[j].1)
    {
      if Less(q[k].1, q[i].1) { i := k; }
    }
  }

  lemma StillWaits(g: Links, src: string, s: Search, i: nat, x: string)
    requires Waits(g, src, s, x) && i < |s.q| && s.q[i] != (x, Inf)
    ensures Waits(g, src, s.(q := Without(s.q, i)), x)
  {
    var j :| 0 <= j < |s.q| && s.q[j] == (x, Inf);
    assert Without(s.q, i)[if j < i then j else j - 1] == s.q[j];
  }

  // Once only infinity is left in the queue, such a vertex is taken, and a tie brings in another.
  lemma WaitsByTie(v: Db, src: string, s: Search, x: string)
    requires Sound(v) && Waits(LinksOf(v), src, s, x) && forall j :: 0 <= j < |s.q| ==> s.q[j].1.Inf?
    ensures exists s', y :: Round(LinksOf(v), s, s') && Waits(LinksOf(v), src, s', y)
  {
    var g: Links := LinksOf(v);
    UnreachableLinked(v, src, x);
    var port, y :| Port(g, x, port, y) && y in v && !Reachable(g, src, y);
    var k :| 0 <= k < |g[x]| && g[x][k].srcPort == port && g[x][k].dstId == y;
    var i :| 0 <= i < |s.q| && s.q[i] == (x, Inf);
    var taken := s.(q := Without(s.q, i));
    SpreadTies(taken, x, g[x], k);
    var ties := FollowAll(taken, x, g[x]).1;
    var j :| 0 <= j < |ties| && ties[j] == (y, Segment(x, port));
    var s' := Rerouted(taken, x, y, ties[j].1);
    assert Chosen(taken, x, ties, s');
    assert RoundAt(g, s, i, s');
    TieWaits(g, src, s, i, x, y, ties[j].1);
  }

  lemma TieWaits(g: Links, src: string, s: Search, i: nat, x: string, y: string, seg: Segment)
    requires Waits(g, src, s, x) && i < |s.q| && D(s, x).Inf? && y in g && !Reachable(g, src, y) && D(s, y).Inf?
    ensures Waits(g, src, Rerouted(s.(q := Without(s.q, i)), x, y, seg), y)
  {
    var s' := Rerouted(s.(q := Without(s.q, i)), x, y, seg);
    assert s'.q[|s'.q| - 1] == (y, Inf);
  }

  ghost function RunAt(v: Db, src: string, s: Search, n: nat): (r: Search)
    requires Sound(v) && "" !in v && exists x :: Waits(LinksOf(v), src, s, x)
    ensures exists x :: Waits(LinksOf(v), src, r, x)
  {
    if n == 0 then s
    else
      var p := RunAt(v, src, s, n - 1);
      var x :| Waits(LinksOf(v), src, p, x);
      WaitsOn(v, src, p, x);
      var r, y :| Round(LinksOf(v), p, r) && Waits(LinksOf(v), src, r, y);
      r
  }

  lemma RunGoesOn(v: Db, src: string, s: Search, n: nat)
    requires Sound(v) && "" !in v && exists x :: Waits(LinksOf(v), src, s, x)
    ensures Round(LinksOf(v), RunAt(v, src, s, n), RunAt(v, src, s, n + 1))
  {
  }

  // The search ends whatever is chosen if and only if everything can be reached from the source.
  lemma EndsExactly(v: Db, src: string, s: Search)
    requires Sound(v) && "" !in v && src in v && Started(LinksOf(v), src, s)
    ensures (exists run: nat -> Search :: Endless(LinksOf(v), s, run)) <==> !AllReachable(LinksOf(v), src)
  {
    var g: Links := LinksOf(v);
    if AllReachable(g, src) {
      AlwaysEnds(v, src, s);
    } else {
      var x :| x in g && !Reachable(g, src, x);
      hide Sound, Started, Reachable, LinksOf;
      StartWaits(g, src, s, x);
      NeedNotEnd(v, src, s);
    }
  }

  lemma AlwaysEnds(v: Db, src: string, s: Search)
    requires Sound(v) && "" !in v && src in v && Started(LinksOf(v), src, s) && AllReachable(LinksOf(v), src)
    ensures !exists run: nat -> Search :: Endless(LinksOf(v), s, run)
  {
    hide Sound, Started, AllReachable, Searches, Round, Navigable, LinksOf;
    SoundNavigable(v);
    BalanceStarted(LinksOf(v), src, s);
    if run: nat -> Search :| Endless(LinksOf(v), s, run) { NoneEndless(LinksOf(v), src, run, 0); }
  }

  lemma NeedNotEnd(v: Db, src: string, s: Search)
    requires Sound(v) && "" !in v && exists x :: Waits(LinksOf(v), src, s, x)
    ensures exists run: nat -> Search :: Endless(LinksOf(v), s, run)
  {
    hide Sound, Waits, Round, LinksOf;
    var run: nat -> Search := (n: nat) => RunAt(v, src, s, n);
    forall n: nat
      ensures Round(LinksOf(v), run(n), run(n + 1))
    {
      RunGoesOn(v, src, s, n);
    }
    assert Endless(LinksOf(v), s, run);
  }

  lemma StartWaits(g: Links, src: string, s: Search, x: string)
    requires Started(g, src, s) && x in g && !Reachable(g, src, x)
    ensures Waits(g, src, s, x)
  {
    assert Walk(g, src, src, 0) && Reachable(g, src, src);
    assert Queued(s, x);
  }

  lemma SpansReach(g: Links, src: string, dst: string)
    requires Spans(g, src, dst)
    ensures src in g && dst in g ==> AllReachable(g, src) && Reachable(g, src, dst)
  {
  }

  // ---------- the cache ----------

  class LLDPBalancedMinHop {
    const mibGraph: LLDPMibGraph
    var version: int
    var versionHit: nat
    var versionMiss: nat
    var cacheHit: nat
    var cacheMiss: nat
    var routeCache: map<(string, string), Route>

    constructor (graph: LLDPMibGraph)
      requires graph.Valid()
      ensures Valid() && mibGraph == graph
    {
      mibGraph := graph;
      version := -1;
      versionHit, versionMiss, cacheHit, cacheMiss := 0, 0, 0, 0;
      routeCache := map[];
    }

    ghost predicate Valid()
      reads this, mibGraph
    {
      mibGraph.Valid() && CacheOf(mibGraph.history, version, routeCache)
    }

    // Switches have names.
    ghost predicate Ready()
      reads this, mibGraph
    {
      Valid() && "" !in mibGraph.verticies
    }

    // The cached route of the present version, if there is one.
    method CheckCache(srcId: string, dstId: string) returns (hit: bool)
      requires Valid()
      modifies this`version, this`versionHit, this`versionMiss, this`cacheHit, this`cacheMiss, this`routeCache
      ensures Valid() && version == mibGraph.version
      ensures hit == (old(version) == mibGraph.version && (srcId, dstId) in old(routeCache))
      ensures hit ==> (srcId, dstId) in routeCache && cacheHit == old(cacheHit) + 1
      ensures routeCache == if old(version) == mibGraph.version then old(routeCache) else map[]
    {
      hit := false;
      if mibGraph.version == version {
        versionHit := versionHit + 1;
        if (srcId, dstId) in routeCache {
          cacheHit := cacheHit + 1;
          hit := true;
        } else {
          cacheMiss := cacheMiss + 1;
        }
      } else {
        versionMiss := versionMiss + 1;
        routeCache := map[];
        version := mibGraph.version;
      }
    }

    // On links that lead from the source to everywhere: a shortest route, however ties are resolved.
    method ComputeBalancedMinHopPath(srcId: string, dstId: string, simTime: int) returns (result: Route)
      requires Valid() && "" !in mibGraph.verticies
      requires Spans(LinksOf(LiveDb(mibGraph.verticies, simTime)), srcId, dstId)
      modifies this, mibGraph
      ensures Valid() && mibGraph.verticies == LiveDb(old(mibGraph.verticies), simTime)
      ensures Answers(LinksOf(mibGraph.verticies), srcId, dstId, result)
    {
      mibGraph.RemoveExpiredEntries(simTime);
      result := Lookup(srcId, dstId);
    }

    method Lookup(srcId: string, dstId: string) returns (result: Route)
      requires Valid() && "" !in mibGraph.verticies
      requires Spans(LinksOf(mibGraph.verticies), srcId, dstId)
      modifies this
      ensures Valid() && Answers(LinksOf(mibGraph.verticies), srcId, dstId, result)
      ensures Keeps(LinksOf(mibGraph.verticies), old(CacheAt(mibGraph.version, version, routeCache)),
                    (srcId, dstId), result, routeCache)
    {
      SpansReach(LinksOf(mibGraph.verticies), srcId, dstId);
      hide Answers, Reachable, AllReachable, Spans, Sound;
      var hit := CheckCache(srcId, dstId);
      if hit {
        return routeCache[(srcId, dstId)];
      }
      if srcId !in mibGraph.verticies || dstId !in mibGraph.verticies {
        return [];
      }
      SoundNavigable(mibGraph.verticies);
      var trg;
      trg, result := BalancedPath(mibGraph.verticies, srcId, dstId);
      if trg != srcId {
        result := [];
      } else {
        routeCache := routeCache[(srcId, dstId) := result];
      }
    }
  }
}
