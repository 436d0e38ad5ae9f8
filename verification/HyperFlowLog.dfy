/**
 * Log replication between controllers: messages, what a replica of the log is, and the
 * facts that hold of one agent and the messages about it.
 */
module HyperFlowLogs {
  import opened Basics

  datatype Entry = Entry(srcController: string, trgSwitch: string, eventId: int)
  datatype Report = Report(controllerId: string, time: int)

  // On the way to the synchronizer, except for replies.
  datatype Message =
    | Connect(agent: nat)
    | ReportIn(agent: nat, controllerId: string)
    | Change(entry: Entry)
    | Request(agent: nat, lastSyncCounter: int)
    | Reply(agent: nat, control: seq<Report>, data: seq<Entry>)

  predicate About(m: Message, a: nat) { (m.Request? || m.Reply?) && m.agent == a }

  // How many requests and replies of agent a there are.
  function Outstanding(s: seq<Message>, a: nat): nat {
    if s == [] then 0 else (if About(s[0], a) then 1 else 0) + Outstanding(s[1..], a)
  }

  lemma {:induction false} OutstandingConcat(s: seq<Message>, t: seq<Message>, a: nat)
    ensures Outstanding(s + t, a) == Outstanding(s, a) + Outstanding(t, a)
  {
    if s == [] {
      assert s + t == t;
    } else {
      assert (s + t)[0] == s[0] && (s + t)[1..] == s[1..] + t;
      OutstandingConcat(s[1..], t, a);
    }
  }

  lemma {:induction false} OutstandingPresent(s: seq<Message>, m: Message, a: nat)
    requires m in s && About(m, a)
    ensures Outstanding(s, a) >= 1
  {
    if s[0] != m { OutstandingPresent(s[1..], m, a); }
  }

  lemma OutstandingWithout(s: seq<Message>, i: nat, a: nat)
    requires i < |s|
    ensures Outstanding(s, a) == Outstanding(Without(s, i), a) + if About(s[i], a) then 1 else 0
  {
    assert s == s[..i] + ([s[i]] + s[i + 1..]);
    OutstandingConcat(s[..i], [s[i]] + s[i + 1..], a);
    OutstandingConcat([s[i]], s[i + 1..], a);
    OutstandingConcat(s[..i], s[i + 1..], a);
    assert Outstanding([s[i]], a) == if About(s[i], a) then 1 else 0;
  }

  // The entries that are on their way to the log.
  function Changes(s: seq<Message>): multiset<Entry> {
    if s == [] then multiset{} else (if s[0].Change? then multiset{s[0].entry} else multiset{}) + Changes(s[1..])
  }

  lemma {:induction false} ChangesConcat(s: seq<Message>, t: seq<Message>)
    ensures Changes(s + t) == Changes(s) + Changes(t)
  {
    if s == [] {
      assert s + t == t;
    } else {
      assert (s + t)[0] == s[0] && (s + t)[1..] == s[1..] + t;
      ChangesConcat(s[1..], t);
    }
  }

  lemma ChangesOne(m: Message)
    ensures Changes([m]) == if m.Change? then multiset{m.entry} else multiset{}
  {
    assert [m][1..] == [];
  }

  lemma ChangesWithout(s: seq<Message>, i: nat)
    requires i < |s|
    ensures Changes(s) == Changes(Without(s, i)) + Changes([s[i]])
  {
    hide Changes;
    var a, m, b := s[..i], [s[i]], s[i + 1..];
    assert s == a + (m + b);
    ChangesConcat(a, m + b);
    ChangesConcat(m, b);
    ChangesConcat(a, b);
    Swapped(Changes(a), Changes(m), Changes(b));
  }

  lemma Swapped<T>(a: multiset<T>, m: multiset<T>, b: multiset<T>)
    ensures a + (m + b) == (a + b) + m
  {
  }

  // All entries there are: in the log d, with the synchronizer or on the way.
  ghost function Entries(d: seq<Entry>, q: seq<Message>, f: seq<Message>): multiset<Entry> {
    (multiset(d) + Changes(q)) + Changes(f)
  }

  lemma EntriesSent(d: seq<Entry>, q: seq<Message>, f: seq<Message>, sent: seq<Message>)
    ensures Entries(d, q, f + sent) == Entries(d, q, f) + Changes(sent)
  {
    hide Changes;
    ChangesConcat(f, sent);
  }

  lemma EntriesArrived(d: seq<Entry>, q: seq<Message>, f: seq<Message>, i: nat)
    requires i < |f|
    ensures Entries(d, q + [f[i]], Without(f, i)) == Entries(d, q, f)
  {
    hide Changes;
    ChangesWithout(f, i);
    ChangesConcat(q, [f[i]]);
  }

  lemma EntriesReplied(d: seq<Entry>, q: seq<Message>, f: seq<Message>, i: nat)
    requires i < |f| && !f[i].Change?
    ensures Entries(d, q, Without(f, i)) == Entries(d, q, f)
  {
    ChangesOne(f[i]);
    hide Changes;
    ChangesWithout(f, i);
  }

  lemma Regrouped<T>(e: multiset<T>, d: multiset<T>, q: multiset<T>, f: multiset<T>)
    ensures ((e + d) + q) + (f + multiset{}) == (d + (e + q)) + f
  {
  }

  function Logging(m: Message): seq<Entry> { if m.Change? then [m.entry] else [] }

  lemma HeadChanges(q: seq<Message>)
    requires q != []
    ensures Changes(q) == multiset(Logging(q[0])) + Changes(q[1..])
  {
  }

  // A change served moves into the log, and nothing else is one.
  lemma EntriesServed(d: seq<Entry>, q: seq<Message>, f: seq<Message>, sent: seq<Message>)
    requires q != [] && (sent == [] || (|sent| == 1 && !sent[0].Change?))
    ensures Entries(Logging(q[0]) + d, q[1..], f + sent) == Entries(d, q, f)
  {
    if sent != [] {
      ChangesOne(sent[0]);
      assert sent == [sent[0]];
    }
    assert Changes(sent) == multiset{};
    hide Changes, Logging;
    HeadChanges(q);
    ChangesConcat(f, sent);
    Regrouped(multiset(Logging(q[0])), multiset(d), Changes(q[1..]), Changes(f));
  }

  // ---------- the log ----------

  // Channels are kept newest first; the log is read oldest first.
  function Reversed<T>(s: seq<T>): seq<T> { if s == [] then [] else Reversed(s[1..]) + [s[0]] }

  lemma {:induction false} ReversedConcat<T>(s: seq<T>, t: seq<T>)
    ensures Reversed(s + t) == Reversed(t) + Reversed(s)
  {
    if s == [] {
      assert s + t == t && Reversed(t) + [] == Reversed(t);
    } else {
      assert (s + t)[0] == s[0] && (s + t)[1..] == s[1..] + t;
      ReversedConcat(s[1..], t);
      Associative(Reversed(t), Reversed(s[1..]), [s[0]]);
    }
  }

  lemma {:induction false} ReversedLength<T>(s: seq<T>)
    ensures |Reversed(s)| == |s|
  {
    if s != [] { ReversedLength(s[1..]); }
  }

  // x is the oldest part of the channel d.
  ghost predicate Oldest<T>(x: seq<T>, d: seq<T>) {
    |x| <= |d| && d[|d| - |x|..] == x
  }

  lemma OldestIsPrefixOfLog<T>(x: seq<T>, d: seq<T>)
    requires Oldest(x, d)
    ensures |Reversed(d)| == |d| && Reversed(x) == Reversed(d)[..|x|]
  {
    assert d == d[..|d| - |x|] + x;
    ReversedConcat(d[..|d| - |x|], x);
    ReversedLength(x);
    ReversedLength(d);
  }

  lemma OldestGrows<T>(x: seq<T>, d: seq<T>, e: T)
    requires Oldest(x, d)
    ensures Oldest(x, [e] + d)
  {
  }

  // The entries that did not come from `id`.
  function Foreign(s: seq<Entry>, id: string): seq<Entry> {
    if s == [] then [] else (if s[0].srcController == id then [] else [s[0]]) + Foreign(s[1..], id)
  }

  lemma {:induction false} ForeignConcat(s: seq<Entry>, t: seq<Entry>, id: string)
    ensures Foreign(s + t, id) == Foreign(s, id) + Foreign(t, id)
  {
    if s == [] {
      assert s + t == t;
    } else {
      assert (s + t)[0] == s[0] && (s + t)[1..] == s[1..] + t;
      ForeignConcat(s[1..], t, id);
      Associative(if s[0].srcController == id then [] else [s[0]], Foreign(s[1..], id), Foreign(t, id));
    }
  }

  // Every foreign entry is there as often as before, no own one is.
  lemma {:induction false} ForeignCount(s: seq<Entry>, id: string, e: Entry)
    ensures multiset(Foreign(s, id))[e] == if e.srcController == id then 0 else multiset(s)[e]
  {
    if s != [] {
      assert s == [s[0]] + s[1..];
      ForeignCount(s[1..], id, e);
    }
  }

  // ---------- one agent ----------

  datatype AgentState = AgentState(id: string, waiting: bool, lastSyncCounter: int, dataChannel: seq<Entry>,
                                   control: seq<Report>, known: seq<string>, refired: seq<Entry>)

  // The agent's channel is the oldest part of the synchronizer's, and what it has refired is
  // exactly that part's foreign entries, in the order of the log.
  ghost predicate Replica(st: AgentState, d: seq<Entry>) {
    && st.lastSyncCounter == |st.dataChannel| && Oldest(st.dataChannel, d)
    && st.refired == Foreign(Reversed(st.dataChannel), st.id)
  }

  // A request asks for what the agent is missing, a reply brings entries that fit on top.
  ghost predicate Fits(m: Message, st: AgentState, d: seq<Entry>) {
    match m
    case Request(_, n) => n == st.lastSyncCounter
    case Reply(_, _, data) => Oldest(data + st.dataChannel, d)
    case _ => true
  }

  // The agent waits exactly when there is one request or reply of its, and that one fits.
  ghost predicate Consistent(st: AgentState, d: seq<Entry>, all: seq<Message>, a: nat) {
    && Replica(st, d) && Outstanding(all, a) == (if st.waiting then 1 else 0)
    && (forall i :: 0 <= i < |all| && About(all[i], a) ==> Fits(all[i], st, d))
    && Acquainted(st)
  }

  // Whoever has reported in is known, once.
  ghost predicate Acquainted(st: AgentState) {
    && (forall i, j :: 0 <= i < j < |st.known| ==> st.known[i] != st.known[j])
    && forall i :: 0 <= i < |st.control| ==> st.control[i].controllerId in st.known
  }

  // Consistency depends on the messages about a only.
  ghost predicate SameAbout(all: seq<Message>, all': seq<Message>, a: nat) {
    && Outstanding(all', a) == Outstanding(all, a)
    && forall m :: m in all' && About(m, a) ==> m in all
  }

  lemma ConsistentMoved(st: AgentState, d: seq<Entry>, all: seq<Message>, all': seq<Message>, a: nat)
    requires Consistent(st, d, all, a) && SameAbout(all, all', a)
    ensures Consistent(st, d, all', a)
  {
    forall i | 0 <= i < |all'| && About(all'[i], a)
      ensures Fits(all'[i], st, d)
    {
      assert all'[i] in all;
      var j :| 0 <= j < |all| && all[j] == all'[i];
    }
  }

  lemma ConsistentLogged(st: AgentState, d: seq<Entry>, all: seq<Message>, a: nat, e: Entry)
    requires Consistent(st, d, all, a)
    ensures Consistent(st, [e] + d, all, a)
  {
    OldestGrows(st.dataChannel, d, e);
    forall i | 0 <= i < |all| && About(all[i], a)
      ensures Fits(all[i], st, [e] + d)
    {
      if all[i].Reply? { OldestGrows(all[i].data + st.dataChannel, d, e); }
    }
  }

  // A request is sent.
  lemma ConsistentAsked(st: AgentState, d: seq<Entry>, all: seq<Message>, all': seq<Message>, a: nat)
    requires Consistent(st, d, all, a) && !st.waiting
    requires Outstanding(all', a) == Outstanding(all, a) + 1
    requires forall m :: m in all' && About(m, a) ==> m in all || m == Request(a, st.lastSyncCounter)
    ensures Consistent(st.(waiting := true), d, all', a)
  {
    forall i | 0 <= i < |all'| && About(all'[i], a)
      ensures Fits(all'[i], st.(waiting := true), d)
    {
      if all'[i] in all { OutstandingPresent(all, all'[i], a); }
    }
  }

  // A request is answered with what is above the agent's part of the log.
  lemma ConsistentAnswered(st: AgentState, d: seq<Entry>, all: seq<Message>, rest: seq<Message>, all': seq<Message>,
      a: nat, reply: Message)
    requires Consistent(st, d, all, a) && Outstanding(all, a) == Outstanding(rest, a) + 1
        && Outstanding(all', a) == Outstanding(all, a)
    requires forall m :: m in all' && About(m, a) ==> m in rest || m == reply
    requires reply.Reply? && 0 <= st.lastSyncCounter <= |d| && reply.data == d[..|d| - st.lastSyncCounter]
    ensures Consistent(st, d, all', a)
  {
    assert reply.data + st.dataChannel == d;
    forall i | 0 <= i < |all'| && About(all'[i], a)
      ensures Fits(all'[i], st, d)
    {
      if all'[i] in rest { OutstandingPresent(rest, all'[i], a); }
    }
  }

  // A reply is taken in.
  lemma ConsistentSynced(st: AgentState, d: seq<Entry>, all: seq<Message>, all': seq<Message>, a: nat, i: nat,
      st': AgentState)
    requires Consistent(st, d, all, a) && i < |all| && all[i].Reply? && all[i].agent == a && all' == Without(all, i)
    requires st'.id == st.id && !st'.waiting && st'.lastSyncCounter == st.lastSyncCounter + |all[i].data|
    requires st'.dataChannel == all[i].data + st.dataChannel && Acquainted(st')
    requires st'.refired == st.refired + Foreign(Reversed(all[i].data), st.id)
    ensures Consistent(st', d, all', a)
  {
    OutstandingWithout(all, i, a);
    OutstandingPresent(all, all[i], a);
    ReversedConcat(all[i].data, st.dataChannel);
    ForeignConcat(Reversed(st.dataChannel), Reversed(all[i].data), st.id);
    assert Fits(all[i], st, d);
    forall j | 0 <= j < |all'| && About(all'[j], a)
      ensures false
    {
      assert all'[j] in all';
      OutstandingPresent(all', all'[j], a);
    }
  }

  // Seen from outside: the agent has refired each foreign entry it has synced past exactly as
  // often as the log holds it so far, in the order of the log, and none of its own.
  lemma RefiredOnce(st: AgentState, d: seq<Entry>, e: Entry)
    requires Replica(st, d)
    ensures 0 <= st.lastSyncCounter <= |Reversed(d)|
    ensures var synced := Reversed(d)[..st.lastSyncCounter];
      && Reversed(st.dataChannel) == synced && st.refired == Foreign(synced, st.id)
      && multiset(st.refired)[e] == if e.srcController == st.id then 0 else multiset(synced)[e]
  {
    OldestIsPrefixOfLog(st.dataChannel, d);
    ForeignCount(Reversed(st.dataChannel), st.id, e);
  }
}
