/**
 * Whole runs of the controller: links are learnt, time passes and routes are asked for,
 * in any order.
 */
module LLDPControllers {
  import opened Basics
  import opened LLDPMibs
  import opened LLDPMibGraphs
  import opened LLDPRoutes
  import opened LLDPForwardings
  import opened LLDPBalancedMinHops

  datatype Event =
    | Learn(src: string, srcPort: int, dst: string, dstPort: int, timeOut: int)
    | Pass(ticks: nat)
    | Ask(srcId: string, dstId: string)

  ghost predicate Named(events: seq<Event>) {
    forall i :: 0 <= i < |events| && events[i].Learn? ==> events[i].src != "" && events[i].dst != ""
  }

  // What one event does to the database and the clock, and the question it puts, if any:
  // the links then alive, and the two ends of the route asked for.
  function DbAfter(e: Event, v: Db, now: int): Db {
    match e
    case Learn(src, srcPort, dst, dstPort, timeOut) =>
      WithEntry(v, src, srcPort, dst, dstPort, now + timeOut)
    case Pass(_) => v
    case Ask(_, _) => LiveDb(v, now)
  }

  function TimeAfter(e: Event, now: int): int { if e.Pass? then now + e.ticks else now }

  function Question(e: Event, v: Db, now: int): seq<(Links, string, string)> {
    if e.Ask? then [(LinksOf(LiveDb(v, now)), e.srcId, e.dstId)] else []
  }

  // All questions of a run, caches left aside.
  function Questions(events: seq<Event>, v: Db, now: int): seq<(Links, string, string)> {
    if events == [] then []
    else Question(events[0], v, now) + Questions(events[1..], DbAfter(events[0], v, now), TimeAfter(events[0], now))
  }

  ghost predicate AllAnswered(qs: seq<(Links, string, string)>, answers: seq<Route>) {
    |qs| == |answers| && forall i :: 0 <= i < |qs| ==> Answers(qs[i].0, qs[i].1, qs[i].2, answers[i])
  }

  method Step(e: Event, forwarding: LLDPForwarding, now: int) returns (answers: seq<Route>)
    requires forwarding.Ready() && (e.Learn? ==> e.src != "" && e.dst != "")
    modifies forwarding, forwarding.mibGraph
    ensures forwarding.Ready()
    ensures forwarding.mibGraph.verticies == DbAfter(e, old(forwarding.mibGraph.verticies), now)
    ensures AllAnswered(Question(e, old(forwarding.mibGraph.verticies), now), answers)
  {
    answers := [];
    if !e.Ask? { NothingAsked(e, forwarding.mibGraph.verticies, now); }
    if e.Learn? {
      LearnLink(e, forwarding, now);
    } else if e.Ask? {
      answers := AskRoute(e, forwarding, now);
    }
  }

  method AskRoute(e: Event, forwarding: LLDPForwarding, now: int) returns (answers: seq<Route>)
    requires forwarding.Ready() && e.Ask?
    modifies forwarding, forwarding.mibGraph
    ensures forwarding.Ready() && forwarding.mibGraph.verticies == DbAfter(e, old(forwarding.mibGraph.verticies), now)
    ensures AllAnswered(Question(e, old(forwarding.mibGraph.verticies), now), answers)
  {
    var route := forwarding.ComputePath(e.srcId, e.dstId, [], now);
    assert route[0..] == route;
    answers := [route];
  }

  // Learning a link leaves the cache alone; its routes stay answers for the version they are of.
  method LearnLink(e: Event, forwarding: LLDPForwarding, now: int)
    requires forwarding.Ready() && e.Learn? && e.src != "" && e.dst != ""
    modifies forwarding.mibGraph
    ensures forwarding.Ready()
    ensures forwarding.mibGraph.verticies == DbAfter(e, old(forwarding.mibGraph.verticies), now)
  {
    StillNamed(e, forwarding.mibGraph.verticies, now);
    EnterLink(e, forwarding, now);
  }

  method EnterLink(e: Event, forwarding: LLDPForwarding, now: int)
    requires forwarding.Valid() && e.Learn?
    modifies forwarding.mibGraph
    ensures forwarding.Valid() && forwarding.mibGraph.verticies == DbAfter(e, old(forwarding.mibGraph.verticies), now)
  {
    EnterInto(e, forwarding.mibGraph, forwarding.version, forwarding.routeCache, now);
  }

  method EnterInto(e: Event, mibGraph: LLDPMibGraph, ghost version: int, ghost cache: map<(string, string), Route>,
      now: int)
    requires mibGraph.Valid() && CacheOf(mibGraph.history, version, cache) && e.Learn?
    modifies mibGraph
    ensures mibGraph.Valid() && CacheOf(mibGraph.history, version, cache)
    ensures mibGraph.verticies == DbAfter(e, old(mibGraph.verticies), now)
  {
    hide CacheOf, WithEntry;
    ghost var history := mibGraph.history;
    var _ := mibGraph.AddEntry(e.src, e.srcPort, e.dst, e.dstPort, e.timeOut, now);
    CacheKept(history, mibGraph.history, version, cache);
  }

  lemma NothingAsked(e: Event, v: Db, now: int)
    requires !e.Ask?
    ensures AllAnswered(Question(e, v, now), [])
  {
  }

  lemma StillNamed(e: Event, v: Db, now: int)
    requires "" !in v && e.Learn? && e.src != "" && e.dst != ""
    ensures "" !in DbAfter(e, v, now)
  {
  }

  // Every route returned over a run, cached or not, answers its question on the links of that moment.
  method Run(events: seq<Event>, forwarding: LLDPForwarding, start: int) returns (answers: seq<Route>)
    requires forwarding.Ready() && Named(events)
    modifies forwarding, forwarding.mibGraph
    ensures forwarding.Valid()
    ensures AllAnswered(Questions(events, old(forwarding.mibGraph.verticies), start), answers)
  {
    var now := start;
    answers := [];
    ghost var v, done, rest := forwarding.mibGraph.verticies, [],
        Questions(events, forwarding.mibGraph.verticies, start);
    ghost var all := rest;
    assert events[0..] == events && done + rest == all;
    for i := 0 to |events|
      invariant forwarding.Ready() && v == forwarding.mibGraph.verticies
      invariant all == done + rest && rest == Questions(events[i..], v, now) && AllAnswered(done, answers)
    {
      ghost var q := Question(events[i], v, now);
      Unfold(events, i, v, now);
      Associative(done, q, Questions(events[i + 1..], DbAfter(events[i], v, now), TimeAfter(events[i], now)));
      var a := Step(events[i], forwarding, now);
      now := TimeAfter(events[i], now);
      v := forwarding.mibGraph.verticies;
      done, answers, rest := done + q, answers + a, Questions(events[i + 1..], v, now);
    }
    assert events[|events|..] == [] && done + [] == done;
  }

  lemma Unfold(events: seq<Event>, i: nat, v: Db, now: int)
    requires i < |events|
    ensures Questions(events[i..], v, now)
         == Question(events[i], v, now) + Questions(events[i + 1..], DbAfter(events[i], v, now),
             TimeAfter(events[i], now))
  {
    assert events[i..][0] == events[i] && events[i..][1..] == events[i + 1..];
  }

  // ---------- the balanced application ----------

  // Whenever a route is asked for, the links lead from its source to everywhere.
  ghost predicate AllSpan(qs: seq<(Links, string, string)>) {
    forall i :: 0 <= i < |qs| ==> Spans(qs[i].0, qs[i].1, qs[i].2)
  }

  method LearnBalanced(e: Event, balanced: LLDPBalancedMinHop, now: int)
    requires balanced.Ready() && e.Learn? && e.src != "" && e.dst != ""
    modifies balanced.mibGraph
    ensures balanced.Ready() && balanced.mibGraph.verticies == DbAfter(e, old(balanced.mibGraph.verticies), now)
  {
    StillNamed(e, balanced.mibGraph.verticies, now);
    EnterBalanced(e, balanced, now);
  }

  method EnterBalanced(e: Event, balanced: LLDPBalancedMinHop, now: int)
    requires balanced.Valid() && e.Learn?
    modifies balanced.mibGraph
    ensures balanced.Valid() && balanced.mibGraph.verticies == DbAfter(e, old(balanced.mibGraph.verticies), now)
  {
    EnterInto(e, balanced.mibGraph, balanced.version, balanced.routeCache, now);
  }

  method AskBalanced(e: Event, balanced: LLDPBalancedMinHop, now: int) returns (answers: seq<Route>)
    requires balanced.Ready() && e.Ask? && AllSpan(Question(e, balanced.mibGraph.verticies, now))
    modifies balanced, balanced.mibGraph
    ensures balanced.Ready() && balanced.mibGraph.verticies == DbAfter(e, old(balanced.mibGraph.verticies), now)
    ensures AllAnswered(Question(e, old(balanced.mibGraph.verticies), now), answers)
  {
    ghost var q := Question(e, balanced.mibGraph.verticies, now);
    assert Spans(q[0].0, q[0].1, q[0].2);
    var route := balanced.ComputeBalancedMinHopPath(e.srcId, e.dstId, now);
    answers := [route];
  }

  method StepBalanced(e: Event, balanced: LLDPBalancedMinHop, now: int) returns (answers: seq<Route>)
    requires balanced.Ready() && (e.Learn? ==> e.src != "" && e.dst != "")
    requires AllSpan(Question(e, balanced.mibGraph.verticies, now))
    modifies balanced, balanced.mibGraph
    ensures balanced.Ready()
    ensures balanced.mibGraph.verticies == DbAfter(e, old(balanced.mibGraph.verticies), now)
    ensures AllAnswered(Question(e, old(balanced.mibGraph.verticies), now), answers)
  {
    answers := [];
    if !e.Ask? { NothingAsked(e, balanced.mibGraph.verticies, now); }
    if e.Learn? {
      LearnBalanced(e, balanced, now);
    } else if e.Ask? {
      answers := AskBalanced(e, balanced, now);
    }
  }

  // However ties are resolved over the run, every route returned has the fewest hops at its moment.
  method RunBalanced(events: seq<Event>, balanced: LLDPBalancedMinHop, start: int) returns (answers: seq<Route>)
    requires balanced.Ready() && Named(events) && AllSpan(Questions(events, balanced.mibGraph.verticies, start))
    modifies balanced, balanced.mibGraph
    ensures balanced.Valid()
    ensures AllAnswered(Questions(events, old(balanced.mibGraph.verticies), start), answers)
  {
    hide Spans;
    var now := start;
    answers := [];
    ghost var v, done, rest := balanced.mibGraph.verticies, [], Questions(events, balanced.mibGraph.verticies, start);
    ghost var all := rest;
    assert events[0..] == events && done + rest == all;
    for i := 0 to |events|
      invariant balanced.Ready() && v == balanced.mibGraph.verticies && AllSpan(rest)
      invariant all == done + rest && rest == Questions(events[i..], v, now) && AllAnswered(done, answers)
    {
      ghost var q := Question(events[i], v, now);
      Unfold(events, i, v, now);
      ghost var next := Questions(events[i + 1..], DbAfter(events[i], v, now), TimeAfter(events[i], now));
      Associative(done, q, next);
      SpanParts(q, next);
      var a := StepBalanced(events[i], balanced, now);
      now := TimeAfter(events[i], now);
      v := balanced.mibGraph.verticies;
      done, answers, rest := done + q, answers + a, next;
    }
    assert events[|events|..] == [] && done + [] == done;
  }

  lemma SpanParts(q: seq<(Links, string, string)>, next: seq<(Links, string, string)>)
    requires AllSpan(q + next)
    ensures AllSpan(q) && AllSpan(next)
  {
    hide Spans;
    assert forall i :: 0 <= i < |q| ==> (q + next)[i] == q[i];
    assert forall i :: 0 <= i < |next| ==> (q + next)[|q| + i] == next[i];
  }
}
