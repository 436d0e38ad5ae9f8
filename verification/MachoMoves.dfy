/**
 * What a machine does with a request for a transition, and with several of them one after the other.
 */
module MachoMoves {
  import opened Basics
  import opened MachoStates

  datatype Initializer = Default | FromHistory

  // What an event handler may ask for: a transition, and another event to be handled after it.
  datatype Reaction = Reaction(target: Option<nat>, init: Initializer, again: bool)

  datatype Request = Request(target: nat, init: Initializer)

  // The current state, what the states remember, and what has been entered and left so far.
  datatype Situation = Situation(state: nat, memory: seq<Option<nat>>, trace: seq<Action>)

  ghost predicate Fit(h: Hierarchy, strategy: seq<Strategy>, x: Situation) {
    WellFormed(h) && |strategy| == |x.memory| == |h.parent| && x.state < |h.parent|
  }

  // What state s remembers once `left` has been left.
  ghost function Kept(h: Hierarchy, strategy: seq<Strategy>, before: seq<Option<nat>>, left: nat, s: nat): Option<nat>
    requires WellFormed(h) && left < |h.parent| && |strategy| == |before| == |h.parent| && s < |h.parent|
  {
    if s != ROOT && s != left && IsChild(h, left, s)
    then Remembered(strategy[s], Towards(h, left, s), left, before[s]) else before[s]
  }

  // With a deep history that is the state left itself, with a shallow one the substate around it.
  lemma KeptMeans(h: Hierarchy, strategy: seq<Strategy>, before: seq<Option<nat>>, left: nat, s: nat)
    requires WellFormed(h) && left < |h.parent| && |strategy| == |before| == |h.parent| && 0 < s < |h.parent|
    requires s != left && IsChild(h, left, s)
    ensures strategy[s] == Deep ==> Kept(h, strategy, before, left, s) == Some(left)
    ensures strategy[s] == Shallow ==>
              exists u :: 0 < u < |h.parent| && h.parent[u] == s && IsChild(h, left, u)
                  && Kept(h, strategy, before, left, s) == Some(u)
    ensures strategy[s] == NoHistory ==> Kept(h, strategy, before, left, s) == before[s]
  {
    var u := Towards(h, left, s);
    assert 0 < u < |h.parent| && h.parent[u] == s && IsChild(h, left, u);
  }

  // After one transition: out to the turning point, in to the new state; those left remember, and
  // the new state forgets.
  ghost function After(h: Hierarchy, strategy: seq<Strategy>, x: Situation, to: nat): (y: Situation)
    requires Fit(h, strategy, x) && to < |h.parent|
    ensures Fit(h, strategy, y) && y.state == to
  {
    var turn := LeftUpTo(h, x.state, to);
    Situation(to,
              seq(|x.memory|, t requires 0 <= t < |x.memory| =>
                  if t == to then None else Kept(h, strategy, x.memory, x.state, t)),
              (x.trace + BottomUp(h, x.state, turn)) + TopDown(h, turn, to))
  }

  // Whether a transition by history finds something remembered.
  ghost predicate Forced(h: Hierarchy, strategy: seq<Strategy>, x: Situation, r: Request)
    requires Fit(h, strategy, x) && r.target < |h.parent|
  {
    r.init.FromHistory? && Kept(h, strategy, x.memory, x.state, r.target).Some?
  }

  // What may be asked for next: what is remembered, or whatever an own init action likes, properly inside.
  ghost predicate MayFollow(h: Hierarchy, strategy: seq<Strategy>, x: Situation, r: Request, next: Request)
    requires Fit(h, strategy, x) && r.target < |h.parent|
  {
    && Inside(h, next.target, r.target)
    && (Forced(h, strategy, x, r) ==> next == Request(Kept(h, strategy, x.memory, x.state, r.target).value, Default))
    && (r.target == ROOT ==> Forced(h, strategy, x, r))
  }

  // From x a request is carried out, with all transitions init actions ask for, and y is where it ends.
  ghost predicate Leg(h: Hierarchy, strategy: seq<Strategy>, x: Situation, r: Request, y: Situation)
    requires WellFormed(h)
    decreases if r.target < |h.depth| then Deepest(h.depth) - h.depth[r.target] else 0
  {
    && Fit(h, strategy, x) && r.target < |h.parent|
    && ((y == After(h, strategy, x, r.target) && !Forced(h, strategy, x, r))
        || exists next ::
             && MayFollow(h, strategy, x, r, next) && Deeper(h, next.target, r.target)
             && Leg(h, strategy, After(h, strategy, x, r.target), next, y))
  }

  ghost predicate Deeper(h: Hierarchy, s: nat, t: nat)
    requires WellFormed(h)
  {
    s < |h.parent| && t < |h.parent| && h.depth[s] > h.depth[t]
  }

  // Requests are carried out one after the other.
  ghost predicate Serves(h: Hierarchy, strategy: seq<Strategy>, x: Situation, rs: seq<Request>, y: Situation)
    requires WellFormed(h)
    decreases |rs|
  {
    if rs == [] then y == x else exists m :: Leg(h, strategy, x, rs[0], m) && Serves(h, strategy, m, rs[1..], y)
  }

  // All that is asked for: what is pending, and what the handlers ask for as long as there are events.
  function Requests(pending: Option<Request>, event: bool, reactions: seq<Reaction>): seq<Request>
    decreases |reactions|
  {
    (if pending.Some? then [pending.value] else [])
    + if !event || reactions == [] then [] else Requests(Asked(reactions[0]), reactions[0].again, reactions[1..])
  }

  function Asked(r: Reaction): Option<Request> {
    if r.target.Some? then Some(Request(r.target.value, r.init)) else None
  }

  // ---------- what follows from it ----------

  lemma InsideDeeper(h: Hierarchy, s: nat, t: nat)
    requires WellFormed(h) && Inside(h, s, t)
    ensures Deeper(h, s, t)
  {
    ChildDeeper(h, s, t);
  }

  lemma LegStops(h: Hierarchy, strategy: seq<Strategy>, x: Situation, r: Request)
    requires Fit(h, strategy, x) && r.target < |h.parent| && !Forced(h, strategy, x, r)
    ensures Leg(h, strategy, x, r, After(h, strategy, x, r.target))
  {
    hide After;
  }

  lemma LegGoesOn(h: Hierarchy, strategy: seq<Strategy>, x: Situation, r: Request, next: Request)
    requires Fit(h, strategy, x) && r.target < |h.parent|
    requires MayFollow(h, strategy, x, r, next) && Deeper(h, next.target, r.target)
    ensures forall y :: Leg(h, strategy, After(h, strategy, x, r.target), next, y) ==> Leg(h, strategy, x, r, y)
  {
    hide After;
  }

  // The pending request is carried out first.
  lemma ServedFirst(h: Hierarchy, strategy: seq<Strategy>, x: Situation, r: Request, m: Situation, event: bool,
      reactions: seq<Reaction>)
    requires WellFormed(h) && Leg(h, strategy, x, r, m)
    ensures forall y :: Serves(h, strategy, m, Requests(None, event, reactions), y) ==>
                          Serves(h, strategy, x, Requests(Some(r), event, reactions), y)
  {
    hide Leg;
    var rs, rest := Requests(Some(r), event, reactions), Requests(None, event, reactions);
    assert rest == [] + rest && rs == [r] + rest;
    assert rs[0] == r && rs[1..] == rest;
  }

  // An event is handled, if there is one, and its handler may ask for a transition and another event.
  lemma NextEvent(event: bool, reactions: seq<Reaction>)
    ensures Requests(None, event, reactions) ==
      if !event || reactions == [] then [] else Requests(Asked(reactions[0]), reactions[0].again, reactions[1..])
  {
  }

  lemma NothingAsked(h: Hierarchy, strategy: seq<Strategy>, x: Situation, reactions: seq<Reaction>)
    requires WellFormed(h)
    ensures Serves(h, strategy, x, Requests(None, false, reactions), x)
  {
  }

  // A request ends in the state asked for or inside it, and one by history in what was remembered or inside it.
  lemma {:induction false} LegEnds(h: Hierarchy, strategy: seq<Strategy>, x: Situation, r: Request, y: Situation)
    requires WellFormed(h) && Leg(h, strategy, x, r, y)
    ensures Fit(h, strategy, y) && IsChild(h, y.state, r.target) && After(h, strategy, x, r.target).trace <= y.trace
    ensures Forced(h, strategy, x, r) ==>
              var kept := Kept(h, strategy, x.memory, x.state, r.target).value;
              kept < |h.parent| && IsChild(h, y.state, kept)
    decreases if r.target < |h.depth| then Deepest(h.depth) - h.depth[r.target] else 0
  {
    hide After, Kept;
    var m := After(h, strategy, x, r.target);
    if !(y == m && !Forced(h, strategy, x, r)) {
      var next :| && MayFollow(h, strategy, x, r, next) && Deeper(h, next.target, r.target)
          && Leg(h, strategy, m, next, y);
      LegEnds(h, strategy, m, next, y);
      ChildTransitive(h, y.state, next.target, r.target);
      AfterExtends(h, strategy, m, next.target);
    }
  }

  lemma AfterExtends(h: Hierarchy, strategy: seq<Strategy>, x: Situation, to: nat)
    requires Fit(h, strategy, x) && to < |h.parent|
    ensures x.trace <= After(h, strategy, x, to).trace
  {
  }

  // Whatever the old state, even the one asked for or one inside it: it is left up to the innermost
  // state around both, and the new one is entered from there.
  lemma LegTurns(h: Hierarchy, strategy: seq<Strategy>, x: Situation, r: Request, y: Situation)
    requires WellFormed(h) && Leg(h, strategy, x, r, y) && r.target != ROOT
    ensures exists t :: Turn(h, x.state, r.target, t)
                        && (x.trace + BottomUp(h, x.state, t)) + TopDown(h, t, r.target) <= y.trace
  {
    LegEnds(h, strategy, x, r, y);
    LeftMeetsEntered(h, x.state, r.target);
  }

  // So the first request is carried out in any case.
  lemma ServesTurns(h: Hierarchy, strategy: seq<Strategy>, x: Situation, rs: seq<Request>, y: Situation)
    requires WellFormed(h) && Serves(h, strategy, x, rs, y) && rs != [] && rs[0].target != ROOT
    ensures Fit(h, strategy, x) && rs[0].target < |h.parent|
    ensures exists t :: Turn(h, x.state, rs[0].target, t)
                        && (x.trace + BottomUp(h, x.state, t)) + TopDown(h, t, rs[0].target) <= y.trace
  {
    hide Leg, Turn;
    var m :| Leg(h, strategy, x, rs[0], m) && Serves(h, strategy, m, rs[1..], y);
    LegTurns(h, strategy, x, rs[0], m);
    LegFits(h, strategy, x, rs[0], m);
    ServesEnds(h, strategy, m, rs[1..], y);
  }

  lemma LegFits(h: Hierarchy, strategy: seq<Strategy>, x: Situation, r: Request, y: Situation)
    requires WellFormed(h) && Leg(h, strategy, x, r, y)
    ensures Fit(h, strategy, x) && r.target < |h.parent|
  {
  }

  lemma {:induction false} ServesEnds(h: Hierarchy, strategy: seq<Strategy>, x: Situation, rs: seq<Request>,
      y: Situation)
    requires WellFormed(h) && Serves(h, strategy, x, rs, y)
    ensures x.trace <= y.trace
    ensures rs != [] ==> y.state < |h.parent| && IsChild(h, y.state, rs[|rs| - 1].target)
    decreases |rs|
  {
    if rs != [] {
      var m :| Leg(h, strategy, x, rs[0], m) && Serves(h, strategy, m, rs[1..], y);
      LegEnds(h, strategy, x, rs[0], m);
      AfterExtends(h, strategy, x, rs[0].target);
      ServesEnds(h, strategy, m, rs[1..], y);
    }
  }
}
