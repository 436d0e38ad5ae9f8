/**
 * The hierarchical state machine: transitions with exit and entry actions, history, boxes and
 * the chain of further transitions that init actions may ask for.
 */
module Machos {
  import opened Basics
  import opened MachoStates
  import opened MachoMoves

  ghost predicate Targets(h: Hierarchy, reactions: seq<Reaction>) {
    forall i :: 0 <= i < |reactions| && reactions[i].target.Some? ==> reactions[i].target.value < |h.parent|
  }

  // The state asked for last: by what is pending, and by the handlers for as long as there are events.
  function Goal(pending: Option<nat>, event: bool, reactions: seq<Reaction>): Option<nat>
    decreases |reactions|
  {
    if !event || reactions == [] then pending
    else Goal(if reactions[0].target.Some? then reactions[0].target else pending, reactions[0].again, reactions[1..])
  }

  // Where entering s begins, if it is the first state to be entered or one further out.
  function EntryBase(h: Hierarchy, s: nat, previous: nat, first: bool): (x: nat)
    requires WellFormed(h) && s < |h.parent| && previous < |h.parent|
    ensures x < |h.parent|
  {
    if s == ROOT then ROOT else if first then EnteredFrom(h, h.parent[s], previous) else EnteredFrom(h, s, previous)
  }

  lemma {:induction false} EnteredFromEncloses(h: Hierarchy, s: nat, previous: nat)
    requires WellFormed(h) && s < |h.parent| && previous < |h.parent|
    ensures IsChild(h, s, EnteredFrom(h, s, previous))
    decreases h.depth[s]
  {
    if s != ROOT && !IsChild(h, previous, s) { EnteredFromEncloses(h, h.parent[s], previous); }
  }

  // The history after `self` has been left with `deep` current: all superstates remember, each in its way.
  ghost predicate Saved(h: Hierarchy, strategy: seq<Strategy>, before: seq<Option<nat>>, after: seq<Option<nat>>,
      self: nat, deep: nat)
    requires WellFormed(h) && self < |h.parent| && |strategy| == |h.parent|
  {
    && |before| == |after| == |h.parent|
    && forall t :: 0 <= t < |after| ==>
         after[t] == if t != ROOT && t != self && IsChild(h, self, t)
                     then Remembered(strategy[t], Towards(h, self, t), deep, before[t]) else before[t]
  }

  lemma SavedInside(h: Hierarchy, strategy: seq<Strategy>, before: seq<Option<nat>>, after: seq<Option<nat>>, s: nat)
    requires WellFormed(h) && s < |h.parent| && Histories(h, strategy, before)
        && Saved(h, strategy, before, after, s, s)
    ensures Histories(h, strategy, after)
  {
    forall t | 0 <= t < |after| && after[t].Some?
      ensures strategy[t] != NoHistory && Inside(h, after[t].value, t)
    {
      if t != ROOT && t != s && IsChild(h, s, t) { TowardsInside(h, s, t); }
    }
  }

  lemma TowardsInside(h: Hierarchy, s: nat, t: nat)
    requires WellFormed(h) && s < |h.parent| && t < |h.parent| && IsChild(h, s, t) && s != t
    ensures Inside(h, Towards(h, s, t), t) && Inside(h, s, t)
  {
    var u := Towards(h, s, t);
    assert IsChild(h, h.parent[u], t);
  }

  // The old state has left its marks, and the new one has forgotten: that is what a transition does.
  lemma Arrived(h: Hierarchy, strategy: seq<Strategy>, x: Situation, to: nat, saved: seq<Option<nat>>, y: Situation)
    requires Fit(h, strategy, x) && to < |h.parent| && Saved(h, strategy, x.memory, saved, x.state, x.state)
    requires var turn := LeftUpTo(h, x.state, to);
      y == Situation(to, saved[to := None], (x.trace + BottomUp(h, x.state, turn)) + TopDown(h, turn, to))
    ensures y == After(h, strategy, x, to)
    ensures forall t :: 0 <= t < |saved| ==> saved[t] == Kept(h, strategy, x.memory, x.state, t)
  {
  }

  class Machine {
    const h: Hierarchy
    const strategy: seq<Strategy>
    const persistent: seq<bool>
    var currentState: nat
    var pendingState: Option<nat>
    var pendingInit: Initializer
    var pendingEvent: bool
    var history: seq<Option<nat>>
    var box: seq<bool>

    // Everything entered and left so far.
    ghost var trace: seq<Action>

    constructor (hierarchy: Hierarchy, strategies: seq<Strategy>, keep: seq<bool>)
      requires WellFormed(hierarchy) && |strategies| == |keep| == |hierarchy.parent|
      ensures Valid() && currentState == ROOT && Idle() && trace == []
      ensures h == hierarchy && strategy == strategies && persistent == keep
    {
      h, strategy, persistent := hierarchy, strategies, keep;
      currentState, pendingState, pendingInit, pendingEvent := ROOT, None, Default, false;
      history := seq(|hierarchy.parent|, _ => None);
      box := seq(|hierarchy.parent|, _ => false);
      trace := [];
    }

    ghost predicate Shape()
      reads this`history, this`box
    {
      && WellFormed(h) && |strategy| == |persistent| == |box| == |h.parent| && Histories(h, strategy, history)
    }

    // The states entered and not left are s and what it is inside of; they have their boxes, and
    // of the others only those whose boxes persist.
    ghost predicate Inhabits(s: nat)
      requires WellFormed(h) && |persistent| == |box| == |h.parent| && s < |h.parent|
      reads this`trace, this`box
    {
      && Replay(trace, []) == Some(Chain(h, s))
      && forall t :: 0 <= t < |box| ==>
           && (t in Chain(h, s) ==> box[t])
           && (box[t] && !persistent[t] ==> t in Chain(h, s))
    }

    ghost predicate Valid()
      reads this
    {
      Shape() && currentState < |h.parent| && Inhabits(currentState)
          && (pendingState.Some? ==> pendingState.value < |h.parent|)
    }

    predicate Idle()
      reads this
    {
      pendingState.None? && !pendingEvent
    }

    // ---------- leaving and entering ----------

    method CreateBox(s: nat)
      requires s < |box|
      modifies this`box
      ensures box == old(box)[s := true]
    {
      if !box[s] {
        box := box[s := true];
      } else {
        assert box == box[s := true];
      }
    }

    method DeleteBox(s: nat)
      requires s < |box| && |persistent| == |box| && box[s]
      modifies this`box
      ensures box == old(box)[s := persistent[s]]
    {
      if !persistent[s] {
        box := box[s := false];
      } else {
        assert box == box[s := true];
      }
    }

    method Exit(s: nat, next: nat)
      requires Shape() && s < |h.parent| && next < |h.parent| && Inhabits(s)
      modifies this`trace, this`box
      ensures Shape() && Inhabits(LeftUpTo(h, s, next))
      ensures trace == old(trace) + BottomUp(h, s, LeftUpTo(h, s, next))
      decreases h.depth[s]
    {
      if s == ROOT {
        assert trace == trace + [];
        return;
      }
      if s == next || !IsChild(h, next, s) {
        LeftUpToEncloses(h, h.parent[s], next);
        NotOwnParent(s, LeftUpTo(h, s, next));
        Leave(s);
        Exit(h.parent[s], next);
        assert trace == old(trace) + ([Exited(s)] + BottomUp(h, h.parent[s], LeftUpTo(h, s, next)));
      } else {
        assert trace == trace + [];
      }
    }

    lemma NotOwnParent(s: nat, x: nat)
      requires WellFormed(h) && 0 < s < |h.parent| && x < |h.parent| && IsChild(h, h.parent[s], x)
      ensures x != s
    {
      ChildDeeper(h, h.parent[s], x);
    }

    // The exit action of s, and its box.
    method Leave(s: nat)
      requires Shape() && 0 < s < |h.parent| && Inhabits(s)
      modifies this`trace, this`box
      ensures Shape() && Inhabits(h.parent[s]) && trace == old(trace) + [Exited(s)]
    {
      ReplayConcat(trace, [Exited(s)], []);
      LastOut(s);
      trace := trace + [Exited(s)];
      DeleteBox(s);
    }

    lemma LastOut(s: nat)
      requires WellFormed(h) && 0 < s < |h.parent|
      ensures var c := Chain(h, s); c != [] && c[|c| - 1] == s && c[..|c| - 1] == Chain(h, h.parent[s])
      ensures Replay([Exited(s)], Chain(h, s)) == Some(Chain(h, h.parent[s])) && s !in Chain(h, h.parent[s])
      ensures forall t :: t in Chain(h, s) <==> t == s || t in Chain(h, h.parent[s])
      ensures Replay([Entered(s)], Chain(h, h.parent[s])) == Some(Chain(h, s))
    {
      var c, p := Chain(h, s), h.parent[s];
      assert c[..|c| - 1] == Chain(h, p);
      assert [Exited(s)][1..] == [] && [Entered(s)][1..] == [];
      ChainMember(h, p, s);
      if IsChild(h, p, s) { ChildDeeper(h, p, s); }
    }

    method Entry(s: nat, previous: nat, first: bool)
      requires Shape() && s < |h.parent| && previous < |h.parent| && Inhabits(EntryBase(h, s, previous, first))
      modifies this`trace, this`box
      ensures Shape() && Inhabits(s) && trace == old(trace) + TopDown(h, EntryBase(h, s, previous, first), s)
      decreases h.depth[s]
    {
      if s == ROOT {
        assert trace == trace + [];
        return;
      }
      if first || !IsChild(h, previous, s) {
        EnteredFromEncloses(h, h.parent[s], previous);
        NotOwnParent(s, EnteredFrom(h, h.parent[s], previous));
        Entry(h.parent[s], previous, false);
        ghost var before := trace;
        Enter(s);
        Associative(old(trace), TopDown(h, EnteredFrom(h, h.parent[s], previous), h.parent[s]), [Entered(s)]);
      } else {
        assert trace == trace + [];
      }
    }

    // The box of s, and its entry action.
    method Enter(s: nat)
      requires Shape() && 0 < s < |h.parent| && Inhabits(h.parent[s])
      modifies this`trace, this`box
      ensures Shape() && Inhabits(s) && trace == old(trace) + [Entered(s)]
    {
      CreateBox(s);
      ReplayConcat(trace, [Entered(s)], []);
      LastOut(s);
      trace := trace + [Entered(s)];
    }

    // ---------- history ----------

    // Whether a superstate of s keeps a history.
    predicate HistoryAbove(s: nat)
      requires WellFormed(h) && |strategy| == |h.parent| && s < |h.parent|
      decreases h.depth[s]
    {
      s != ROOT && (strategy[h.parent[s]] != NoHistory || HistoryAbove(h.parent[s]))
    }

    method SetHistorySuper(self: nat, deep: nat)
      requires WellFormed(h) && |strategy| == |history| == |h.parent| && self < |h.parent|
      modifies this`history
      ensures Saved(h, strategy, old(history), history, self, deep)
      decreases h.depth[self], 1
    {
      if self != ROOT {
        SaveHistory(h.parent[self], self, deep);
      }
    }

    // A state's strategy decides what it remembers; the news goes on outwards while anyone there keeps a history.
    method SaveHistory(s: nat, shallow: nat, deep: nat)
      requires WellFormed(h) && |strategy| == |history| == |h.parent| && 0 < shallow < |h.parent|
          && s == h.parent[shallow]
      modifies this`history
      ensures Saved(h, strategy, old(history), history, shallow, deep)
      decreases h.depth[s], 2
    {
      if s != ROOT {
        match strategy[s]
        case NoHistory =>
        case Shallow => history := history[s := Some(shallow)];
        case Deep => history := history[s := Some(deep)];
      }
      ghost var middle := history;
      if HistoryAbove(s) {
        SetHistorySuper(s, deep);
      } else {
        NothingAbove(s, middle, deep);
      }
      SavedStep(old(history), middle, history, shallow, deep);
    }

    lemma SavedStep(before: seq<Option<nat>>, middle: seq<Option<nat>>, after: seq<Option<nat>>, self: nat, deep: nat)
      requires WellFormed(h) && |strategy| == |before| == |middle| == |h.parent| && 0 < self < |h.parent|
      requires var p := h.parent[self];
        && middle == (if p == ROOT then before else before[p := Remembered(strategy[p], self, deep, before[p])])
        && Saved(h, strategy, middle, after, p, deep)
      ensures Saved(h, strategy, before, after, self, deep)
    {
      var p := h.parent[self];
      NotOwnParent(self, p);
      forall t | 0 <= t < |after|
        ensures after[t] == if t != ROOT && t != self && IsChild(h, self, t)
            then Remembered(strategy[t], Towards(h, self, t), deep, before[t]) else before[t]
      {
        if t == self && IsChild(h, p, self) { NotOwnParent(self, self); }
      }
    }

    lemma {:induction false} NothingAbove(s: nat, now: seq<Option<nat>>, deep: nat)
      requires WellFormed(h) && |strategy| == |now| == |h.parent| && s < |h.parent| && !HistoryAbove(s)
      ensures Saved(h, strategy, now, now, s, deep)
      decreases h.depth[s]
    {
      if s != ROOT { NothingAbove(h.parent[s], now, deep); }
    }

    // ---------- transitions ----------

    method SetPendingState(s: nat, init: Initializer)
      requires pendingState.None? || (pendingState == Some(s) && pendingInit == init)
      modifies this`pendingState, this`pendingInit
      ensures pendingState == Some(s) && pendingInit == init
    {
      pendingState := Some(s);
      pendingInit := init;
    }

    // A state's own init action may ask for a transition to a state properly inside; the root's does not.
    method UserInit(s: nat)
      requires WellFormed(h) && s < |h.parent| && pendingState.None?
      modifies this`pendingState, this`pendingInit
      ensures pendingState.Some? ==> s != ROOT && Inside(h, pendingState.value, s)
    {
      var t: nat :| t <= |h.parent|;
      var init: Initializer := *;
      if s != ROOT && t < |h.parent| && t != s && IsChild(h, t, s) {
        SetPendingState(t, init);
      }
    }

    method Init(s: nat, fromHistory: bool)
      requires Shape() && s < |h.parent| && pendingState.None?
      modifies this`pendingState, this`pendingInit, this`history
      ensures Shape() && (pendingState.Some? ==> Inside(h, pendingState.value, s))
      ensures fromHistory && old(history)[s].Some? ==> pendingState == old(history)[s] && pendingInit == Default
      ensures s == ROOT && !(fromHistory && old(history)[s].Some?) ==> pendingState.None?
      ensures history == old(history)[s := None]
    {
      if fromHistory && history[s].Some? {
        SetPendingState(history[s].value, Default);
      } else {
        UserInit(s);
      }
      history := history[s := None];
    }

    // One transition: out, history, in, init. Whatever init asks for is properly inside.
    method Transition()
      requires Valid() && pendingState.Some?
      modifies this`currentState, this`pendingState, this`pendingInit, this`history, this`box, this`trace
      ensures Valid() && currentState == old(pendingState.value) && old(trace) <= trace
      ensures pendingState.Some? ==> Inside(h, pendingState.value, currentState)
      ensures currentState != ROOT ==>
                exists x :: Turn(h, old(currentState), currentState, x) &&
                  trace == (old(trace) + BottomUp(h, old(currentState), x)) + TopDown(h, x, currentState)
      ensures currentState == ROOT && old(pendingInit).Default? ==> pendingState.None?
      ensures currentState == ROOT ==> trace == old(trace) + BottomUp(h, old(currentState), ROOT)
      ensures Fit(h, strategy, old(Now())) && Now() == After(h, strategy, old(Now()), currentState)
      ensures if pendingState.Some? then MayFollow(h, strategy, old(Now()), old(Pending()).value, Pending().value)
              else !Forced(h, strategy, old(Now()), old(Pending()).value)
    {
      hide After, Kept, Saved, Turn;
      ghost var x := Now();
      var next, previous := pendingState.value, currentState;
      if next == ROOT { LeftUpToRoot(h, previous); } else { LeftMeetsEntered(h, previous, next); }
      Exit(currentState, next);
      RememberPath(previous);
      ghost var saved := history;
      currentState := next;
      Entry(currentState, previous, true);
      pendingState := None;
      Init(currentState, pendingInit.FromHistory?);
      assert trace == trace + [];
      Arrived(h, strategy, x, next, saved, Now());
    }

    ghost function Now(): Situation
      reads this`currentState, this`history, this`trace
    {
      Situation(currentState, history, trace)
    }

    // What is asked for and not carried out yet.
    ghost function Pending(): Option<Request>
      reads this`pendingState, this`pendingInit
    {
      if pendingState.Some? then Some(Request(pendingState.value, pendingInit)) else None
    }

    method RememberPath(s: nat)
      requires Shape() && s < |h.parent|
      modifies this`history
      ensures Shape() && Saved(h, strategy, old(history), history, s, s)
    {
      SetHistorySuper(s, s);
      SavedInside(h, strategy, old(history), history, s);
    }

    // Transitions asked for by init actions go deeper and deeper, and so come to an end; one by
    // history ends in the state remembered, or inside it.
    method Settle()
      requires Valid()
      modifies this`currentState, this`pendingState, this`pendingInit, this`history, this`box, this`trace
      ensures Valid() && pendingState.None? && old(trace) <= trace
      ensures old(pendingState).None? ==>
                currentState == old(currentState) && trace == old(trace) && history == old(history)
      ensures old(pendingState).Some? ==> IsChild(h, currentState, old(pendingState.value))
      ensures old(pendingState).Some? && old(pendingInit).FromHistory? ==>
                var kept := Kept(h, strategy, old(history), old(currentState), old(pendingState.value));
                kept.Some? ==> kept.value < |h.parent| && IsChild(h, currentState, kept.value)
      ensures old(pendingState).Some? ==> Leg(h, strategy, old(Now()), old(Pending()).value, Now())
    {
      hide After, Kept, Leg;
      if pendingState.None? {
        return;
      }
      ghost var start, r := Now(), Pending().value;
      while pendingState.Some?
        invariant Valid() && old(trace) <= trace
        invariant pendingState.Some? ==>
                    forall y :: Leg(h, strategy, Now(), Pending().value, y) ==> Leg(h, strategy, start, r, y)
        invariant pendingState.None? ==> Leg(h, strategy, start, r, Now())
        decreases if pendingState.Some? then Deepest(h.depth) + 1 - h.depth[pendingState.value] else 0
      {
        ghost var x, q := Now(), Pending().value;
        Transition();
        if pendingState.Some? {
          InsideDeeper(h, pendingState.value, currentState);
          LegGoesOn(h, strategy, x, q, Pending().value);
        } else {
          LegStops(h, strategy, x, q);
        }
      }
      LegEnds(h, strategy, start, r, Now());
    }

    // Pending transitions and events until none is left; `reactions` says what the handlers do.
    // The machine comes to rest in the state asked for last, or inside it.
    method RattleOn(reactions: seq<Reaction>)
      requires Valid() && Targets(h, reactions)
      modifies this
      ensures Valid() && Idle() && old(trace) <= trace
      ensures var goal := Goal(old(pendingState), old(pendingEvent), reactions);
        if goal.Some? then IsChild(h, currentState, goal.value)
        else currentState == old(currentState) && trace == old(trace)
      ensures Serves(h, strategy, old(Now()), Requests(old(Pending()), old(pendingEvent), reactions), Now())
    {
      hide Leg, Serves;
      ghost var start, all := Now(), Requests(Pending(), pendingEvent, reactions);
      hide Requests, Asked, Inhabits, Kept, Histories;
      var i := 0;
      ghost var goal := Goal(pendingState, pendingEvent, reactions);
      ghost var last := pendingState;
      while pendingState.Some? || pendingEvent
        invariant Valid() && 0 <= i <= |reactions| && old(trace) <= trace
        invariant goal == Goal(last, pendingEvent, reactions[i..])
        invariant pendingState.Some? ==> last == pendingState
        invariant if last.Some? then pendingState.Some? || IsChild(h, currentState, last.value)
                  else currentState == old(currentState) && trace == old(trace)
        invariant forall y :: Serves(h, strategy, Now(), Requests(Pending(), pendingEvent, reactions[i..]), y) ==>
                    Serves(h, strategy, start, all, y)
        decreases |reactions| - i, if pendingEvent then 1 else 0, if pendingState.Some? then 1 else 0
      {
        ghost var x, pending := Now(), Pending();
        Settle();
        if pending.Some? { ServedFirst(h, strategy, x, pending.value, Now(), pendingEvent, reactions[i..]); }
        NextEvent(pendingEvent, reactions[i..]);
        NextEvent(false, reactions[i..]);
        if pendingEvent {
          pendingEvent := false;
          if i < |reactions| {
            assert reactions[i..][0] == reactions[i] && reactions[i..][1..] == reactions[i + 1..];
            Handle(reactions[i]);
            last := if reactions[i].target.Some? then reactions[i].target else last;
            i := i + 1;
          }
        }
      }
      NothingAsked(h, strategy, Now(), reactions[i..]);
    }

    // An event handler runs on the current state.
    method Handle(r: Reaction)
      requires Valid() && pendingState.None? && (r.target.Some? ==> r.target.value < |h.parent|)
      modifies this`pendingState, this`pendingInit, this`pendingEvent
      ensures Valid() && pendingEvent == (old(pendingEvent) || r.again) && pendingState == r.target
      ensures Pending() == Asked(r)
    {
      if r.target.Some? {
        SetPendingState(r.target.value, r.init);
      }
      if r.again {
        pendingEvent := true;
      }
    }

    // An event comes from outside.
    method Dispatch(r: Reaction, reactions: seq<Reaction>)
      requires Valid() && Idle() && Targets(h, [r]) && Targets(h, reactions)
      modifies this
      ensures Valid() && Idle() && old(trace) <= trace
      ensures var goal := Goal(r.target, r.again, reactions);
        if goal.Some? then IsChild(h, currentState, goal.value)
        else currentState == old(currentState) && trace == old(trace)
      ensures Serves(h, strategy, old(Now()), Requests(Asked(r), r.again, reactions), Now())
      ensures r.target.Some? && r.target.value != ROOT ==>
                exists t :: Turn(h, old(currentState), r.target.value, t) &&
                  (old(trace) + BottomUp(h, old(currentState), t)) + TopDown(h, t, r.target.value) <= trace
    {
      hide Serves, Turn;
      assert [r][0] == r;
      ghost var x, all := Now(), Requests(Asked(r), r.again, reactions);
      Handle(r);
      RattleOn(reactions);
      if r.target.Some? && r.target.value != ROOT { ServesTurns(h, strategy, x, all, Now()); }
    }

    // The machine goes to its first state.
    method Start(s: nat)
      requires Valid() && Idle() && currentState == ROOT && s < |h.parent|
      modifies this
      ensures Valid() && Idle() && IsChild(h, currentState, s)
      ensures Leg(h, strategy, old(Now()), Request(s, Default), Now())
    {
      currentState := ROOT;
      SetPendingState(s, Default);
      Settle();
    }

    // Everything is left.
    method Shutdown()
      requires Valid() && Idle()
      modifies this
      ensures Valid() && Idle() && currentState == ROOT && Replay(trace, []) == Some([])
      ensures Fit(h, strategy, old(Now())) && Now() == After(h, strategy, old(Now()), ROOT)
    {
      SetPendingState(ROOT, Default);
      Transition();
    }
  }
}
