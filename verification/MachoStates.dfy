/**
 * Hierarchies of states: ancestors, where a change of state turns round, and what it leaves
 * and enters on the way.
 */
module MachoStates {
  import opened Basics

  const ROOT: nat := 0

  datatype Strategy = NoHistory | Shallow | Deep

  // Every state but the root has a superstate one level up.
  datatype Hierarchy = Hierarchy(parent: seq<nat>, depth: seq<nat>)

  ghost predicate WellFormed(h: Hierarchy) {
    && |h.parent| > 0 && |h.depth| == |h.parent| && h.depth[ROOT] == 0
    && forall s :: 0 < s < |h.parent| ==> h.parent[s] < |h.parent| && h.depth[s] == h.depth[h.parent[s]] + 1
  }

  // s is t, or inside it.
  predicate IsChild(h: Hierarchy, s: nat, t: nat)
    requires WellFormed(h) && s < |h.parent|
    decreases h.depth[s]
  {
    s == t || (s != ROOT && IsChild(h, h.parent[s], t))
  }

  // The states that are entered when s is current, the outermost first.
  function Chain(h: Hierarchy, s: nat): seq<nat>
    requires WellFormed(h) && s < |h.parent|
    decreases h.depth[s]
  {
    if s == ROOT then [] else Chain(h, h.parent[s]) + [s]
  }

  lemma {:induction false} ChildOfRoot(h: Hierarchy, s: nat)
    requires WellFormed(h) && s < |h.parent|
    ensures IsChild(h, s, ROOT)
    decreases h.depth[s]
  {
    if s != ROOT { ChildOfRoot(h, h.parent[s]); }
  }

  lemma {:induction false} ChildTransitive(h: Hierarchy, s: nat, t: nat, u: nat)
    requires WellFormed(h) && s < |h.parent| && t < |h.parent| && IsChild(h, s, t) && IsChild(h, t, u)
    ensures IsChild(h, s, u)
    decreases h.depth[s]
  {
    if s != t { ChildTransitive(h, h.parent[s], t, u); }
  }

  lemma {:induction false} ChildDeeper(h: Hierarchy, s: nat, t: nat)
    requires WellFormed(h) && s < |h.parent| && t < |h.parent| && IsChild(h, s, t)
    ensures h.depth[t] <= h.depth[s] && (h.depth[t] == h.depth[s] ==> s == t)
    decreases h.depth[s]
  {
    if s != t { ChildDeeper(h, h.parent[s], t); }
  }

  // What is entered is just what the state is inside of, root excepted.
  lemma {:induction false} ChainMember(h: Hierarchy, s: nat, t: nat)
    requires WellFormed(h) && s < |h.parent|
    ensures t in Chain(h, s) <==> t != ROOT && IsChild(h, s, t)
    decreases h.depth[s]
  {
    if s != ROOT {
      ChainMember(h, h.parent[s], t);
    }
  }

  // ---------- where a change of state turns round ----------

  // The innermost state that both the old state and, properly, the new one are inside of.
  ghost predicate Turn(h: Hierarchy, from: nat, to: nat, x: nat)
    requires WellFormed(h) && from < |h.parent| && to < |h.parent|
  {
    && x < |h.parent| && x != to && IsChild(h, from, x) && IsChild(h, to, x)
    && forall y :: 0 <= y < |h.parent| && y != to && IsChild(h, from, y) && IsChild(h, to, y) ==> IsChild(h, x, y)
  }

  lemma TurnUnique(h: Hierarchy, from: nat, to: nat, x: nat, y: nat)
    requires WellFormed(h) && from < |h.parent| && to < |h.parent| && Turn(h, from, to, x) && Turn(h, from, to, y)
    ensures x == y
  {
    ChildDeeper(h, x, y);
    ChildDeeper(h, y, x);
  }

  // Leaving stops at the first state, from the old one outwards, that the new one is properly inside of.
  function LeftUpTo(h: Hierarchy, s: nat, next: nat): (x: nat)
    requires WellFormed(h) && s < |h.parent| && next < |h.parent|
    ensures x < |h.parent|
    decreases h.depth[s]
  {
    if s == ROOT then ROOT
    else if s == next || !IsChild(h, next, s) then LeftUpTo(h, h.parent[s], next)
    else s
  }

  // Entering begins below the first state, from the new one outwards, that the old one is inside of.
  function EnteredFrom(h: Hierarchy, s: nat, previous: nat): (x: nat)
    requires WellFormed(h) && s < |h.parent| && previous < |h.parent|
    ensures x < |h.parent|
    decreases h.depth[s]
  {
    if s == ROOT then ROOT
    else if !IsChild(h, previous, s) then EnteredFrom(h, h.parent[s], previous)
    else s
  }

  lemma {:induction false} LeftUpToTurn(h: Hierarchy, from: nat, s: nat, to: nat)
    requires WellFormed(h) && from < |h.parent| && s < |h.parent| && to < |h.parent| && to != ROOT
        && IsChild(h, from, s)
    requires forall y :: 0 <= y < |h.parent| && y != to && IsChild(h, from, y) && IsChild(h, to, y) ==> IsChild(h, s, y)
    ensures Turn(h, from, to, LeftUpTo(h, s, to))
    decreases h.depth[s]
  {
    if s == ROOT {
      ChildOfRoot(h, to);
    } else if s == to || !IsChild(h, to, s) {
      ChildTransitive(h, from, s, h.parent[s]);
      LeftUpToTurn(h, from, h.parent[s], to);
    }
  }

  lemma {:induction false} EnteredFromTurn(h: Hierarchy, from: nat, s: nat, to: nat)
    requires WellFormed(h) && from < |h.parent| && s < |h.parent| && to < |h.parent| && to != s && IsChild(h, to, s)
    requires forall y :: 0 <= y < |h.parent| && y != to && IsChild(h, from, y) && IsChild(h, to, y) ==> IsChild(h, s, y)
    ensures Turn(h, from, to, EnteredFrom(h, s, from))
    decreases h.depth[s]
  {
    if s == ROOT {
      ChildOfRoot(h, from);
    } else if !IsChild(h, from, s) {
      ChildTransitive(h, to, s, h.parent[s]);
      ChildDeeper(h, to, s);
      EnteredFromTurn(h, from, h.parent[s], to);
    }
  }

  // Both stop at the same state.
  lemma LeftMeetsEntered(h: Hierarchy, from: nat, to: nat)
    requires WellFormed(h) && from < |h.parent| && to < |h.parent| && to != ROOT
    ensures Turn(h, from, to, LeftUpTo(h, from, to))
    ensures LeftUpTo(h, from, to) == EnteredFrom(h, h.parent[to], from)
  {
    LeftUpToTurn(h, from, from, to);
    ChildDeeper(h, to, h.parent[to]);
    EnteredFromTurn(h, from, h.parent[to], to);
    TurnUnique(h, from, to, LeftUpTo(h, from, to), EnteredFrom(h, h.parent[to], from));
  }

  lemma {:induction false} LeftUpToRoot(h: Hierarchy, s: nat)
    requires WellFormed(h) && s < |h.parent|
    ensures LeftUpTo(h, s, ROOT) == ROOT
    decreases h.depth[s]
  {
    if s != ROOT { LeftUpToRoot(h, h.parent[s]); }
  }

  // ---------- what is done on the way ----------

  datatype Action = Entered(state: nat) | Exited(state: nat)

  // From s outwards to just below x: innermost first.
  function BottomUp(h: Hierarchy, s: nat, x: nat): seq<Action>
    requires WellFormed(h) && s < |h.parent|
    decreases h.depth[s]
  {
    if s == x || s == ROOT then [] else [Exited(s)] + BottomUp(h, h.parent[s], x)
  }

  // From just below x inwards to s: outermost first.
  function TopDown(h: Hierarchy, x: nat, s: nat): seq<Action>
    requires WellFormed(h) && s < |h.parent|
    decreases h.depth[s]
  {
    if s == x || s == ROOT then [] else TopDown(h, x, h.parent[s]) + [Entered(s)]
  }

  lemma {:induction false} LeftUpToEncloses(h: Hierarchy, s: nat, next: nat)
    requires WellFormed(h) && s < |h.parent| && next < |h.parent|
    ensures IsChild(h, s, LeftUpTo(h, s, next))
    decreases h.depth[s]
  {
    if s != ROOT && LeftUpTo(h, s, next) != s { LeftUpToEncloses(h, h.parent[s], next); }
  }

  // ---------- replaying ----------

  // The states entered and not left yet: the one entered last is left first.
  function Replay(trace: seq<Action>, active: seq<nat>): Option<seq<nat>> {
    if trace == [] then Some(active)
    else match trace[0]
      case Entered(s) => Replay(trace[1..], active + [s])
      case Exited(s) =>
        if active != [] && active[|active| - 1] == s then Replay(trace[1..], active[..|active| - 1]) else None
  }

  lemma {:induction false} ReplayConcat(t: seq<Action>, u: seq<Action>, active: seq<nat>)
    requires Replay(t, active).Some?
    ensures Replay(t + u, active) == Replay(u, Replay(t, active).value)
    decreases |t|
  {
    if t == [] {
      assert t + u == u;
    } else {
      assert (t + u)[0] == t[0] && (t + u)[1..] == t[1..] + u;
      ReplayConcat(t[1..], u, if t[0].Entered? then active + [t[0].state] else active[..|active| - 1]);
    }
  }

  lemma {:induction false} ReplayBottomUp(h: Hierarchy, s: nat, x: nat)
    requires WellFormed(h) && s < |h.parent| && x < |h.parent| && IsChild(h, s, x)
    ensures Replay(BottomUp(h, s, x), Chain(h, s)) == Some(Chain(h, x))
    decreases h.depth[s]
  {
    if s != x {
      ReplayBottomUp(h, h.parent[s], x);
      var c := Chain(h, s);
      assert c[..|c| - 1] == Chain(h, h.parent[s]);
      assert BottomUp(h, s, x)[1..] == BottomUp(h, h.parent[s], x);
    }
  }

  lemma {:induction false} ReplayTopDown(h: Hierarchy, x: nat, s: nat)
    requires WellFormed(h) && s < |h.parent| && x < |h.parent| && IsChild(h, s, x)
    ensures Replay(TopDown(h, x, s), Chain(h, x)) == Some(Chain(h, s))
    decreases h.depth[s]
  {
    if s != x {
      ReplayTopDown(h, x, h.parent[s]);
      ReplayConcat(TopDown(h, x, h.parent[s]), [Entered(s)], Chain(h, x));
      assert [Entered(s)][1..] == [];
    }
  }

  // ---------- history ----------

  // A saved state lies properly inside the state it is saved for.
  ghost predicate Inside(h: Hierarchy, s: nat, t: nat)
    requires WellFormed(h)
  {
    s < |h.parent| && t < |h.parent| && s != t && IsChild(h, s, t)
  }

  ghost predicate Histories(h: Hierarchy, strategy: seq<Strategy>, history: seq<Option<nat>>)
    requires WellFormed(h)
  {
    && |strategy| == |h.parent| && |history| == |h.parent|
    && forall s :: 0 <= s < |history| && history[s].Some? ==> strategy[s] != NoHistory && Inside(h, history[s].value, s)
  }

  // What a superstate remembers when its substate, and in it the state `deep`, is left.
  function Remembered(strategy: Strategy, shallow: nat, deep: nat, before: Option<nat>): Option<nat> {
    match strategy
    case NoHistory => before
    case Shallow => Some(shallow)
    case Deep => Some(deep)
  }

  // The substate of t on the way to s.
  function Towards(h: Hierarchy, s: nat, t: nat): (u: nat)
    requires WellFormed(h) && s < |h.parent| && IsChild(h, s, t) && s != t
    ensures u < |h.parent| && u != ROOT && h.parent[u] == t && IsChild(h, s, u)
    decreases h.depth[s]
  {
    if h.parent[s] == t then s else Towards(h, h.parent[s], t)
  }

  // The deepest level there is.
  function Deepest(d: seq<nat>): (m: nat)
    ensures forall i :: 0 <= i < |d| ==> d[i] <= m
  {
    if d == [] then 0
    else
      var m := Deepest(d[1..]);
      assert forall i :: 1 <= i < |d| ==> d[i] == d[1..][i - 1];
      if d[0] > m then d[0] else m
  }
}
