/**
 * The synchronizer that keeps the log, the agents that copy it, and the two together with
 * the messages on their way, which may take arbitrarily long and overtake each other.
 */
module HyperFlows {
  import opened Basics
  import opened HyperFlowLogs

  // ---------- the synchronizer ----------

  function Alive(c: seq<Report>, lastValid: int): seq<Report> {
    if c == [] then [] else (if c[0].time >= lastValid then [c[0]] else []) + Alive(c[1..], lastValid)
  }

  // What a reply to a request carries: the entries that came after the first n.
  function Missing(d: seq<Entry>, n: int): seq<Entry> {
    if 0 <= n <= |d| then d[..|d| - n] else d
  }

  // What is kept of the reports serves as well as all of them, for any later time of expiry.
  ghost predicate AsAlive(kept: seq<Report>, reports: seq<Report>, lastValid: int) {
    forall t :: t >= lastValid ==> Alive(kept, t) == Alive(reports, t)
  }

  lemma AsAliveReported(kept: seq<Report>, reports: seq<Report>, lastValid: int, r: Report)
    requires AsAlive(kept, reports, lastValid)
    ensures AsAlive([r] + kept, [r] + reports, lastValid)
  {
    assert ([r] + kept)[1..] == kept && ([r] + reports)[1..] == reports;
  }

  lemma AsAliveExpired(kept: seq<Report>, reports: seq<Report>, lastValid: int)
    requires AsAlive(kept, reports, lastValid)
    ensures AsAlive(Alive(kept, lastValid), reports, lastValid) && Alive(kept, lastValid) == Alive(reports, lastValid)
  {
    hide Alive;
    forall t | t >= lastValid
      ensures Alive(Alive(kept, lastValid), t) == Alive(reports, t)
    {
      AliveTwice(kept, lastValid, t);
    }
  }

  lemma {:induction false} AliveTwice(c: seq<Report>, s: int, t: int)
    requires s <= t
    ensures Alive(Alive(c, s), t) == Alive(c, t)
  {
    if c != [] {
      AliveTwice(c[1..], s, t);
      var rest := Alive(c[1..], s);
      if c[0].time >= s {
        assert ([c[0]] + rest)[0] == c[0] && ([c[0]] + rest)[1..] == rest;
      } else {
        assert [] + rest == rest;
      }
    }
  }

  // The report that is made when a message is served, if it is one.
  function Reporting(m: Message, now: int): seq<Report> { if m.ReportIn? then [Report(m.controllerId, now)] else [] }

  class HyperFlowSynchronizer {
    var controlChannel: seq<Report>
    var dataChannel: seq<Entry>
    var dataChannelSizeCache: int
    var busy: bool
    var inService: seq<Message>
    var msgList: seq<Message>
    const aliveInterval: int

    // All reports served, the latest first, and when a message was served last.
    ghost var reports: seq<Report>
    ghost var clock: int

    constructor (interval: int, ghost start: int)
      ensures Valid() && dataChannel == [] && Queue() == [] && aliveInterval == interval
      ensures reports == [] && clock == start
    {
      controlChannel, dataChannel, dataChannelSizeCache := [], [], 0;
      busy, inService, msgList, aliveInterval := false, [], [], interval;
      reports, clock := [], start;
    }

    // One message at a time is served; the others wait in the list.
    ghost predicate Valid()
      reads this
    {
      && dataChannelSizeCache == |dataChannel|
      && |inService| == (if busy then 1 else 0) && (!busy ==> msgList == [])
      && AsAlive(controlChannel, reports, clock - aliveInterval)
    }

    // The messages to be served, in their order.
    function Queue(): seq<Message>
      reads this
    {
      inService + msgList
    }

    method HandleArrival(msg: Message)
      requires Valid()
      modifies this`busy, this`inService, this`msgList
      ensures Valid() && Queue() == old(Queue()) + [msg]
    {
      if busy {
        msgList := msgList + [msg];
      } else {
        busy := true;
        inService := [msg];
      }
    }

    // The service time of the message at the head of the queue is over.
    method HandleServiced(now: int) returns (sent: seq<Message>)
      requires Valid() && busy && now >= clock
      modifies this
      ensures Valid() && Queue() == old(Queue())[1..] && clock == now
      ensures reports == Reporting(old(Queue())[0], now) + old(reports)
      ensures dataChannel == (if old(Queue())[0].Change? then [old(Queue())[0].entry] else []) + old(dataChannel)
      ensures if old(Queue())[0].Request? then
                |sent| == 1 && sent[0].Reply? && sent[0].agent == old(Queue())[0].agent
                && sent[0].data == Missing(dataChannel, old(Queue())[0].lastSyncCounter)
                && sent[0].control == Alive(reports, now - aliveInterval)
              else sent == []
    {
      sent := ProcessQueuedMsg(inService[0], now);
      if msgList == [] {
        busy := false;
        inService := [];
      } else {
        inService := [msgList[0]];
        msgList := msgList[1..];
      }
    }

    method ProcessQueuedMsg(msg: Message, now: int) returns (sent: seq<Message>)
      requires Valid() && now >= clock
      modifies this`controlChannel, this`dataChannel, this`dataChannelSizeCache, this`reports, this`clock
      ensures Valid() && dataChannel == (if msg.Change? then [msg.entry] else []) + old(dataChannel)
      ensures clock == now && reports == Reporting(msg, now) + old(reports)
      ensures if msg.Request? then
                |sent| == 1 && sent[0].Reply? && sent[0].agent == msg.agent
                && sent[0].data == Missing(dataChannel, msg.lastSyncCounter)
                && sent[0].control == Alive(reports, now - aliveInterval)
              else sent == []
    {
      hide Alive;
      sent := [];
      assert [] + reports == reports && [] + dataChannel == dataChannel;
      clock := now;
      match msg
      case ReportIn(_, id) =>
        AsAliveReported(controlChannel, reports, now - aliveInterval, Report(id, now));
        controlChannel := [Report(id, now)] + controlChannel;
        reports := [Report(id, now)] + reports;
      case Request(a, n) =>
        AsAliveExpired(controlChannel, reports, now - aliveInterval);
        var control := Expire(now - aliveInterval);
        var data := CopyMissing(n);
        sent := [Reply(a, control, data)];
      case Change(e) =>
        dataChannel := [e] + dataChannel;
        dataChannelSizeCache := dataChannelSizeCache + 1;
      case _ =>
    }

    // Reports older than lastValid are erased, the others copied.
    method Expire(lastValid: int) returns (alive: seq<Report>)
      modifies this`controlChannel
      ensures alive == Alive(old(controlChannel), lastValid) && controlChannel == alive
    {
      alive := [];
      ghost var c := controlChannel;
      var i := 0;
      while i < |controlChannel|
        invariant 0 <= i <= |controlChannel| <= |c| && controlChannel[..i] == alive
        invariant |alive| == i && controlChannel[i..] == c[|c| - (|controlChannel| - i)..]
        invariant alive + Alive(controlChannel[i..], lastValid) == Alive(c, lastValid)
        decreases |controlChannel| - i
      {
        AliveStep(controlChannel[i..], alive, lastValid);
        assert controlChannel[i..][0] == controlChannel[i] && controlChannel[i..][1..] == controlChannel[i + 1..];
        if controlChannel[i].time >= lastValid {
          alive := alive + [controlChannel[i]];
          i := i + 1;
        } else {
          ghost var rest := controlChannel[i + 1..];
          controlChannel := controlChannel[..i] + controlChannel[i + 1..];
          assert controlChannel[i..] == rest;
        }
      }
    }

    // Copies from the newest entry back, as many as the sender is behind.
    method CopyMissing(lastSyncCounter: int) returns (data: seq<Entry>)
      requires dataChannelSizeCache == |dataChannel|
      ensures data == Missing(dataChannel, lastSyncCounter)
    {
      var counter := dataChannelSizeCache - lastSyncCounter;
      data := [];
      var i := 0;
      while counter != 0 && i < |dataChannel|
        invariant 0 <= i <= |dataChannel| && counter == |dataChannel| - lastSyncCounter - i && data == dataChannel[..i]
        invariant 0 <= lastSyncCounter <= |dataChannel| ==> counter >= 0
        decreases |dataChannel| - i
      {
        counter := counter - 1;
        data := data + [dataChannel[i]];
        i := i + 1;
      }
    }
  }

  lemma AliveStep(c: seq<Report>, alive: seq<Report>, lastValid: int)
    requires c != []
    ensures alive + Alive(c, lastValid) == (if c[0].time >= lastValid then alive + [c[0]] else alive)
        + Alive(c[1..], lastValid)
  {
    Associative(alive, if c[0].time >= lastValid then [c[0]] else [], Alive(c[1..], lastValid));
  }

  // What is copied is alive, and everything alive is copied.
  lemma {:induction false} AliveMember(c: seq<Report>, lastValid: int, r: Report)
    ensures r in Alive(c, lastValid) <==> r in c && r.time >= lastValid
  {
    if c != [] {
      AliveMember(c[1..], lastValid, r);
      assert r in c <==> r == c[0] || r in c[1..];
    }
  }

  // Who reported.
  function Reporters(c: seq<Report>): set<string> { set r | r in c :: r.controllerId }

  lemma ReportersStep(c: seq<Report>, i: nat)
    requires i < |c|
    ensures Reporters(c[..i + 1]) == Reporters(c[..i]) + {c[i].controllerId}
  {
    assert c[..i + 1] == c[..i] + [c[i]];
    assert forall r :: r in c[..i + 1] <==> r in c[..i] || r == c[i];
  }

  // A reply names exactly the controllers with a report that is not too old.
  lemma AliveNames(reports: seq<Report>, lastValid: int, id: string)
    ensures id in Reporters(Alive(reports, lastValid))
        <==> exists r :: r in reports && r.controllerId == id && r.time >= lastValid
  {
    if id in Reporters(Alive(reports, lastValid)) {
      var r :| r in Alive(reports, lastValid) && r.controllerId == id;
      AliveMember(reports, lastValid, r);
    }
    if r :| r in reports && r.controllerId == id && r.time >= lastValid {
      AliveMember(reports, lastValid, r);
    }
  }

  // ---------- news of other controllers ----------

  // What a reply tells at some time t of service: the reports then alive, of all those served before.
  ghost predicate HonestAt(c: seq<Report>, reports: seq<Report>, interval: int, clock: int, n: nat, t: int) {
    && n <= |reports| && t <= clock && c == Alive(reports[n..], t - interval)
    && (forall i :: 0 <= i < n ==> reports[i].time >= t) && forall i :: n <= i < |reports| ==> reports[i].time <= t
  }

  ghost predicate Honest(c: seq<Report>, reports: seq<Report>, interval: int, clock: int) {
    c == [] || exists n: nat, t :: HonestAt(c, reports, interval, clock, n, t)
  }

  lemma HonestLater(c: seq<Report>, reports: seq<Report>, interval: int, clock: int, news: seq<Report>, now: int)
    requires Honest(c, reports, interval, clock) && now >= clock && forall i :: 0 <= i < |news| ==> news[i].time == now
    ensures Honest(c, news + reports, interval, now)
  {
    hide Alive;
    if c != [] {
      var n: nat, t :| HonestAt(c, reports, interval, clock, n, t);
      var all := news + reports;
      assert all[|news| + n..] == reports[n..];
      assert forall i :: 0 <= i < |all| ==> all[i] == if i < |news| then news[i] else reports[i - |news|];
      assert HonestAt(c, all, interval, now, |news| + n, t);
    }
  }

  // Reports come from those they name.
  ghost predicate Named(ms: seq<Message>, names: seq<string>) {
    forall i :: 0 <= i < |ms| && ms[i].ReportIn? ==> ms[i].agent < |names| && ms[i].controllerId == names[ms[i].agent]
  }

  ghost predicate NamedReports(reports: seq<Report>, names: seq<string>, clock: int) {
    forall i :: 0 <= i < |reports| ==> reports[i].controllerId in names && reports[i].time <= clock
  }

  ghost predicate HonestReplies(f: seq<Message>, reports: seq<Report>, interval: int, clock: int) {
    forall i :: 0 <= i < |f| && f[i].Reply? ==> Honest(f[i].control, reports, interval, clock)
  }

  // What has been served and what is on its way: reports are named rightly, and replies honest.
  ghost predicate Tidings(q: seq<Message>, f: seq<Message>, reports: seq<Report>, names: seq<string>, interval: int,
      clock: int) {
    && Named(q, names) && Named(f, names)
    && NamedReports(reports, names, clock) && HonestReplies(f, reports, interval, clock)
  }

  lemma TidingsSent(q: seq<Message>, f: seq<Message>, reports: seq<Report>, names: seq<string>, interval: int,
      clock: int, sent: seq<Message>)
    requires Tidings(q, f, reports, names, interval, clock) && Named(sent, names)
        && HonestReplies(sent, reports, interval, clock)
    ensures Tidings(q, f + sent, reports, names, interval, clock)
  {
    hide Honest;
  }

  lemma TidingsArrived(q: seq<Message>, f: seq<Message>, reports: seq<Report>, names: seq<string>, interval: int,
      clock: int, i: nat)
    requires Tidings(q, f, reports, names, interval, clock) && i < |f|
    ensures Tidings(q + [f[i]], Without(f, i), reports, names, interval, clock)
    ensures Tidings(q, Without(f, i), reports, names, interval, clock)
  {
    hide Honest;
    assert forall j :: 0 <= j < |Without(f, i)| ==> Without(f, i)[j] == f[if j < i then j else j + 1];
  }

  lemma TidingsServed(q: seq<Message>, f: seq<Message>, reports: seq<Report>, names: seq<string>, interval: int,
      clock: int, now: int)
    requires q != [] && Tidings(q, f, reports, names, interval, clock) && now >= clock
    ensures Tidings(q[1..], f, Reporting(q[0], now) + reports, names, interval, now)
    ensures Honest(Alive(Reporting(q[0], now) + reports, now - interval), Reporting(q[0], now) + reports, interval, now)
  {
    hide Alive, Honest;
    var news := Reporting(q[0], now);
    assert news != [] ==> names[q[0].agent] in names;
    forall i | 0 <= i < |f| && f[i].Reply?
      ensures Honest(f[i].control, news + reports, interval, now)
    {
      HonestLater(f[i].control, reports, interval, clock, news, now);
    }
    HonestNow(news + reports, names, interval, now);
  }

  lemma HonestNow(reports: seq<Report>, names: seq<string>, interval: int, now: int)
    requires NamedReports(reports, names, now)
    ensures Honest(Alive(reports, now - interval), reports, interval, now)
  {
    hide Alive;
    assert reports[0..] == reports;
    assert HonestAt(Alive(reports, now - interval), reports, interval, now, 0, now);
  }

  // ---------- an agent ----------

  class HyperFlowAgent {
    const id: string
    var waitingForSyncResponse: bool
    var lastSyncCounter: int
    var dataChannel: seq<Entry>
    var controlChannel: seq<Report>
    var knownControllers: seq<string>

    // The entries re-fired so far, in order.
    ghost var refired: seq<Entry>

    constructor (name: string)
      ensures State() == AgentState(name, false, 0, [], [], [], [])
    {
      id, waitingForSyncResponse, lastSyncCounter := name, false, 0;
      dataChannel, controlChannel, knownControllers, refired := [], [], [], [];
    }

    ghost function State(): AgentState
      reads this
    {
      AgentState(id, waitingForSyncResponse, lastSyncCounter, dataChannel, controlChannel, knownControllers, refired)
    }

    method SendSyncRequest(a: nat) returns (sent: seq<Message>)
      modifies this`waitingForSyncResponse
      ensures State() == old(State()).(waiting := true)
      ensures sent == if old(waitingForSyncResponse) then [] else [Request(a, lastSyncCounter)]
    {
      sent := [];
      if !waitingForSyncResponse {
        waitingForSyncResponse := true;
        sent := [Request(a, lastSyncCounter)];
      }
    }

    method HandleSyncReply(control: seq<Report>, data: seq<Entry>)
      requires Acquainted(State())
      modifies this
      ensures Acquainted(State()) && controlChannel == control
      ensures !waitingForSyncResponse && lastSyncCounter == old(lastSyncCounter) + |data|
      ensures dataChannel == data + old(dataChannel) && refired == old(refired) + Foreign(Reversed(data), id)
      ensures forall x :: x in knownControllers <==> x in old(knownControllers) || x in Reporters(control)
    {
      waitingForSyncResponse := false;
      controlChannel := control;
      MeetControllers();
      CatchUp(data);
    }

    method MeetControllers()
      requires forall i, j :: 0 <= i < j < |knownControllers| ==> knownControllers[i] != knownControllers[j]
      modifies this`knownControllers
      ensures Acquainted(State())
      ensures forall x :: x in knownControllers <==> x in old(knownControllers) || x in Reporters(controlChannel)
    {
      for i := 0 to |controlChannel|
        invariant forall x ::
                    x in knownControllers <==> x in old(knownControllers) || x in Reporters(controlChannel[..i])
        invariant forall i, j :: 0 <= i < j < |knownControllers| ==> knownControllers[i] != knownControllers[j]
        invariant forall j :: 0 <= j < i ==> controlChannel[j].controllerId in knownControllers
      {
        ReportersStep(controlChannel, i);
        if controlChannel[i].controllerId !in knownControllers {
          ghost var before := knownControllers;
          knownControllers := [controlChannel[i].controllerId] + knownControllers;
          assert forall x :: x in knownControllers <==> x in before || x == controlChannel[i].controllerId;
        }
      }
      assert controlChannel[..|controlChannel|] == controlChannel;
    }

    // From the oldest of the new entries to the newest: each is stored, and re-fired if foreign.
    method CatchUp(data: seq<Entry>)
      modifies this`dataChannel, this`lastSyncCounter, this`refired
      ensures lastSyncCounter == old(lastSyncCounter) + |data| && dataChannel == data + old(dataChannel)
      ensures refired == old(refired) + Foreign(Reversed(data), id)
    {
      var i := |data|;
      assert data[i..] == [] && data[i..] + dataChannel == dataChannel && refired + Foreign([], id) == refired;
      while i > 0
        invariant 0 <= i <= |data| && lastSyncCounter == old(lastSyncCounter) + |data| - i
        invariant dataChannel == data[i..] + old(dataChannel)
        invariant refired == old(refired) + Foreign(Reversed(data[i..]), id)
      {
        i := i - 1;
        NextForeign(data, i, id);
        assert data[i..] + old(dataChannel) == [data[i]] + (data[i + 1..] + old(dataChannel));
        Associative(old(refired), Foreign(Reversed(data[i + 1..]), id),
            if data[i].srcController == id then [] else [data[i]]);
        dataChannel := [data[i]] + dataChannel;
        lastSyncCounter := lastSyncCounter + 1;
        if data[i].srcController != id {
          refired := refired + [data[i]];
        }
      }
      assert data[0..] == data;
    }
  }

  lemma NextForeign(data: seq<Entry>, i: nat, id: string)
    requires i < |data|
    ensures Foreign(Reversed(data[i..]), id)
         == Foreign(Reversed(data[i + 1..]), id) + (if data[i].srcController == id then [] else [data[i]])
  {
    assert data[i..][0] == data[i] && data[i..][1..] == data[i + 1..];
    ForeignConcat(Reversed(data[i + 1..]), [data[i]], id);
    assert [data[i]][1..] == [];
  }

  // ---------- everything together ----------

  datatype Event =
    | Publish(entry: Entry)
    | ReportTimer(agent: nat)
    | SyncTimer(agent: nat)
    | Arrive(which: nat)
    | Serve

  function Published(events: seq<Event>): multiset<Entry> {
    if events == [] then multiset{}
    else Published(events[..|events| - 1]) + if events[|events| - 1].Publish?
        then multiset{events[|events| - 1].entry} else multiset{}
  }

  lemma PublishedOne(e: Event)
    ensures Published([e]) == if e.Publish? then multiset{e.entry} else multiset{}
  {
    assert [e][..0] == [];
  }

  lemma PublishedStep(events: seq<Event>, i: nat)
    requires i < |events|
    ensures Published(events[..i + 1]) == Published(events[..i]) + Published([events[i]])
  {
    assert events[..i + 1][..i] == events[..i];
    PublishedOne(events[i]);
  }

  class HyperFlowNetwork {
    const synchronizer: HyperFlowSynchronizer
    const agents: seq<HyperFlowAgent>
    var inFlight: seq<Message>

    constructor (s: HyperFlowSynchronizer, members: seq<HyperFlowAgent>)
      requires s.Valid() && s.dataChannel == [] && s.Queue() == [] && s.reports == []
      requires forall i, j :: 0 <= i < j < |members| ==> members[i] != members[j]
      requires forall i :: 0 <= i < |members| ==>
          members[i].State() == AgentState(members[i].id, false, 0, [], [], [], [])
      ensures Valid() && Informed() && synchronizer == s && agents == members && inFlight == []
    {
      synchronizer, agents, inFlight := s, members, [];
    }

    // All messages there are: waiting at the synchronizer or on the way.
    ghost function All(): seq<Message>
      reads this, synchronizer
    {
      synchronizer.Queue() + inFlight
    }

    // The entries in the log and on their way to it.
    ghost function Stock(): multiset<Entry>
      reads this, synchronizer
    {
      Entries(synchronizer.dataChannel, synchronizer.Queue(), inFlight)
    }

    ghost predicate Shape()
      reads this, synchronizer
    {
      && synchronizer.Valid() && (forall i, j :: 0 <= i < j < |agents| ==> agents[i] != agents[j])
      && (forall i :: 0 <= i < |synchronizer.Queue()| ==> !synchronizer.Queue()[i].Reply?)
      && Addressed(synchronizer.Queue(), |agents|) && Addressed(inFlight, |agents|)
    }

    ghost predicate Valid()
      reads this, synchronizer, agents
    {
      Shape() && forall a :: 0 <= a < |agents| ==> Consistent(agents[a].State(), synchronizer.dataChannel, All(), a)
    }

    ghost function Names(): seq<string> { seq(|agents|, a requires 0 <= a < |agents| => agents[a].id) }

    // Replies are honest, those an agent has taken in included, and reports name those who made them.
    ghost predicate Informed()
      reads this, synchronizer, agents
    {
      && Tidings(synchronizer.Queue(), inFlight, synchronizer.reports, Names(), synchronizer.aliveInterval,
          synchronizer.clock)
      && forall a :: 0 <= a < |agents| ==> Informs(agents[a].controlChannel)
    }

    ghost predicate Informs(c: seq<Report>)
      reads synchronizer
    {
      Honest(c, synchronizer.reports, synchronizer.aliveInterval, synchronizer.clock)
    }

    // Messages that are no one's request or reply are sent.
    method Post(sent: seq<Message>)
      requires Valid() && forall i :: 0 <= i < |sent| ==> !sent[i].Request? && !sent[i].Reply?
      modifies this`inFlight
      ensures Valid() && Stock() == old(Stock()) + Changes(sent) && inFlight == old(inFlight) + sent
    {
      ghost var all := All();
      hide Entries, Changes;
      EntriesSent(synchronizer.dataChannel, synchronizer.Queue(), inFlight, sent);
      inFlight := inFlight + sent;
      forall a: nat
        ensures SameAbout(all, All(), a)
      {
        Posted(synchronizer.Queue(), old(inFlight), sent, a);
      }
      forall a | 0 <= a < |agents|
        ensures Consistent(agents[a].State(), synchronizer.dataChannel, All(), a)
      {
        ConsistentMoved(agents[a].State(), synchronizer.dataChannel, all, All(), a);
      }
    }

    method Ask(a: nat)
      requires Valid() && a < |agents|
      modifies this`inFlight, agents[a]
      ensures Valid() && agents[a].waitingForSyncResponse && agents[a].refired == old(agents[a].refired)
      ensures Stock() == old(Stock()) && agents[a].controlChannel == old(agents[a].controlChannel)
      ensures inFlight == old(inFlight)
                        + if old(agents[a].waitingForSyncResponse) then []
                            else [Request(a, old(agents[a].lastSyncCounter))]
    {
      ghost var all, st := All(), agents[a].State();
      hide Entries, Changes;
      ghost var r := Request(a, agents[a].lastSyncCounter);
      ChangesOne(r);
      EntriesSent(synchronizer.dataChannel, synchronizer.Queue(), inFlight, [r]);
      assert Stock() + multiset{} == Stock() && inFlight + [] == inFlight;
      var sent := agents[a].SendSyncRequest(a);
      inFlight := inFlight + sent;
      if sent == [] {
        assert All() == all && agents[a].State() == st;
      } else {
        Asked(synchronizer.Queue(), old(inFlight), a, st.lastSyncCounter);
        ConsistentAsked(st, synchronizer.dataChannel, all, All(), a);
        forall b | 0 <= b < |agents| && b != a
          ensures Consistent(agents[b].State(), synchronizer.dataChannel, All(), b)
        {
          ConsistentMoved(agents[b].State(), synchronizer.dataChannel, all, All(), b);
        }
      }
    }

    // A message reaches the synchronizer, not necessarily in the order of sending.
    method ArriveAtSynchronizer(i: nat)
      requires Valid() && i < |inFlight| && !inFlight[i].Reply?
      modifies this`inFlight, synchronizer
      ensures Valid() && synchronizer.dataChannel == old(synchronizer.dataChannel) && Stock() == old(Stock())
      ensures synchronizer.Queue() == old(synchronizer.Queue() + [inFlight[i]]) && inFlight == Without(old(inFlight), i)
      ensures synchronizer.reports == old(synchronizer.reports) && synchronizer.clock == old(synchronizer.clock)
    {
      ghost var all, q := All(), synchronizer.Queue();
      hide Entries, Changes;
      EntriesArrived(synchronizer.dataChannel, q, inFlight, i);
      synchronizer.HandleArrival(inFlight[i]);
      inFlight := Without(inFlight, i);
      forall a: nat
        ensures SameAbout(all, All(), a)
      {
        Arrived(q, old(inFlight), i, a);
      }
      forall a | 0 <= a < |agents|
        ensures Consistent(agents[a].State(), synchronizer.dataChannel, All(), a)
      {
        ConsistentMoved(agents[a].State(), synchronizer.dataChannel, all, All(), a);
      }
    }

    // A reply reaches its agent.
    method ArriveAtAgent(i: nat)
      requires Valid() && i < |inFlight| && inFlight[i].Reply?
      modifies this`inFlight, agents
      ensures Valid() && Stock() == old(Stock()) && inFlight == Without(old(inFlight), i)
      ensures forall b :: 0 <= b < |agents| ==> old(agents[b].refired) <= agents[b].refired
      ensures var m := old(inFlight[i]);
        && m.agent < |agents| && agents[m.agent].controlChannel == m.control
        && agents[m.agent].dataChannel == m.data + old(agents[m.agent].dataChannel)
        && (forall x :: x in Reporters(m.control) ==> x in agents[m.agent].knownControllers)
        && forall b :: 0 <= b < |agents| && b != m.agent ==> agents[b].controlChannel == old(agents[b].controlChannel)
    {
      var m := inFlight[i];
      hide Entries, Changes, Replica, Fits, Oldest, Foreign;
      EntriesReplied(synchronizer.dataChannel, synchronizer.Queue(), inFlight, i);
      var a := m.agent;
      ghost var all, q, d := All(), synchronizer.Queue(), synchronizer.dataChannel;
      assert all[|q| + i] == m;
      ghost var st := agents[a].State();
      agents[a].HandleSyncReply(m.control, m.data);
      inFlight := Without(inFlight, i);
      assert All() == Without(all, |q| + i);
      ConsistentSynced(st, d, all, All(), a, |q| + i, agents[a].State());
      forall b | 0 <= b < |agents| && b != a
        ensures Consistent(agents[b].State(), d, All(), b)
      {
        OutstandingWithout(all, |q| + i, b);
        ConsistentMoved(agents[b].State(), d, all, All(), b);
      }
    }

    // The synchronizer finishes serving a message.
    method FinishService(now: int)
      requires Valid() && synchronizer.busy && now >= synchronizer.clock
      modifies this`inFlight, synchronizer
      ensures Valid() && synchronizer.Queue() == old(synchronizer.Queue())[1..] && synchronizer.clock == now
      ensures synchronizer.reports == Reporting(old(synchronizer.Queue())[0], now) + old(synchronizer.reports)
      ensures var head := old(synchronizer.Queue())[0];
        inFlight == old(inFlight) + if head.Request?
          then [Reply(head.agent, Alive(synchronizer.reports, now - synchronizer.aliveInterval),
                      Missing(synchronizer.dataChannel, head.lastSyncCounter))] else []
      ensures synchronizer.dataChannel == (if old(synchronizer.Queue())[0].Change?
          then [old(synchronizer.Queue())[0].entry] else [])
                                          + old(synchronizer.dataChannel)
      ensures Stock() == old(Stock())
    {
      ghost var all, q, d := All(), synchronizer.Queue(), synchronizer.dataChannel;
      assert q[0] in q;
      var sent := synchronizer.HandleServiced(now);
      hide Entries, Changes;
      EntriesServed(d, q, inFlight, sent);
      inFlight := inFlight + sent;
      forall a | 0 <= a < |agents|
        ensures Consistent(agents[a].State(), synchronizer.dataChannel, All(), a)
      {
        Served(agents[a].State(), d, q, old(inFlight), sent, a);
      }
    }

    method Tell(sent: seq<Message>)
      requires Valid() && Informed() && Named(sent, Names()) && forall i :: 0 <= i < |sent| ==>
          !sent[i].Request? && !sent[i].Reply?
      modifies this`inFlight
      ensures Valid() && Informed() && Stock() == old(Stock()) + Changes(sent) && inFlight == old(inFlight) + sent
    {
      hide Tidings, Consistent, Entries;
      TidingsSent(synchronizer.Queue(), inFlight, synchronizer.reports, Names(), synchronizer.aliveInterval,
          synchronizer.clock, sent);
      Post(sent);
    }

    method AskAlong(a: nat)
      requires Valid() && Informed() && a < |agents|
      modifies this`inFlight, agents[a]
      ensures Valid() && Informed() && Stock() == old(Stock()) && agents[a].refired == old(agents[a].refired)
      ensures agents[a].waitingForSyncResponse
      ensures inFlight == old(inFlight)
                        + if old(agents[a].waitingForSyncResponse) then []
                            else [Request(a, old(agents[a].lastSyncCounter))]
    {
      hide Tidings, Consistent, Entries;
      TidingsSent(synchronizer.Queue(), inFlight, synchronizer.reports, Names(), synchronizer.aliveInterval,
                  synchronizer.clock, [Request(a, agents[a].lastSyncCounter)]);
      assert inFlight + [] == inFlight;
      Ask(a);
    }

    method Deliver(i: nat)
      requires Valid() && Informed() && i < |inFlight|
      modifies this`inFlight, synchronizer, agents
      ensures Valid() && Informed() && Stock() == old(Stock())
      ensures synchronizer.dataChannel == old(synchronizer.dataChannel) && synchronizer.clock == old(synchronizer.clock)
      ensures inFlight == Without(old(inFlight), i)
      ensures var m := old(inFlight[i]);
        if m.Reply? then m.agent < |agents| && agents[m.agent].dataChannel == m.data + old(agents[m.agent].dataChannel)
        else synchronizer.Queue() == old(synchronizer.Queue()) + [m]
      ensures forall b :: 0 <= b < |agents| ==> old(agents[b].refired) <= agents[b].refired
    {
      hide Consistent, Entries, Honest;
      assert inFlight[i].Reply? ==> Informs(inFlight[i].control);
      TidingsArrived(synchronizer.Queue(), inFlight, synchronizer.reports, Names(), synchronizer.aliveInterval,
          synchronizer.clock, i);
      hide Tidings;
      if inFlight[i].Reply? {
        ArriveAtAgent(i);
      } else {
        ArriveAtSynchronizer(i);
      }
    }

    method ServeNext(now: int)
      requires Valid() && Informed() && synchronizer.busy && now >= synchronizer.clock
      modifies this`inFlight, synchronizer
      ensures Valid() && Informed() && Stock() == old(Stock()) && synchronizer.clock == now
      ensures Oldest(old(synchronizer.dataChannel), synchronizer.dataChannel)
      ensures synchronizer.Queue() == old(synchronizer.Queue())[1..]
    {
      hide Consistent, Entries, Alive, Honest;
      ghost var q, f, reports, clock, interval := synchronizer.Queue(), inFlight, synchronizer.reports,
          synchronizer.clock, synchronizer.aliveInterval;
      forall a | 0 <= a < |agents|
        ensures Honest(agents[a].controlChannel, Reporting(q[0], now) + reports, interval, now)
      {
        HonestLater(agents[a].controlChannel, reports, interval, clock, Reporting(q[0], now), now);
      }
      TidingsServed(q, f, reports, Names(), interval, clock, now);
      FinishService(now);
      ghost var sent := if q[0].Request?
        then [Reply(q[0].agent, Alive(synchronizer.reports, now - interval),
            Missing(synchronizer.dataChannel, q[0].lastSyncCounter))] else [];
      TidingsSent(q[1..], f, synchronizer.reports, Names(), interval, now, sent);
    }

    // What can happen is done: messages are sent, arrive and are served.
    twostate predicate Done(e: Event)
      reads this, synchronizer, agents
    {
      match e
      case Publish(entry) => inFlight == old(inFlight) + [Change(entry)]
      case ReportTimer(a) => a < |agents| ==> inFlight == old(inFlight) + [ReportIn(a, agents[a].id)]
      case SyncTimer(a) =>
        a < |agents| ==>
          && agents[a].waitingForSyncResponse
          && inFlight == old(inFlight)
                       + if old(agents[a].waitingForSyncResponse) then []
                           else [Request(a, old(agents[a].lastSyncCounter))]
      case Arrive(i) =>
        i < |old(inFlight)| ==>
          && inFlight == Without(old(inFlight), i)
          && var m := old(inFlight)[i];
            if m.Reply? then m.agent < |agents|
                && agents[m.agent].dataChannel == m.data + old(agents[m.agent].dataChannel)
            else synchronizer.Queue() == old(synchronizer.Queue()) + [m]
      case Serve => old(synchronizer.busy) && old(synchronizer.Queue()) != [] ==>
          synchronizer.Queue() == old(synchronizer.Queue())[1..]
    }

    // One thing happens; an event that cannot happen now is passed over.
    method Step(e: Event, now: int)
      requires Valid() && Informed() && now >= synchronizer.clock
      modifies this`inFlight, synchronizer, agents
      ensures Done(e)
      ensures Valid() && Informed() && synchronizer.clock <= now
          && Oldest(old(synchronizer.dataChannel), synchronizer.dataChannel)
      ensures Stock() == old(Stock()) + Published([e])
      ensures forall b :: 0 <= b < |agents| ==> old(agents[b].refired) <= agents[b].refired
    {
      hide Consistent, Entries, Changes, Informed;
      PublishedOne(e);
      assert Stock() + multiset{} == Stock();
      if e.Publish? {
        ChangesOne(Change(e.entry));
        Tell([Change(e.entry)]);
      } else if e.ReportTimer? && e.agent < |agents| {
        ChangesOne(ReportIn(e.agent, agents[e.agent].id));
        Tell([ReportIn(e.agent, agents[e.agent].id)]);
      } else if e.SyncTimer? && e.agent < |agents| {
        AskAlong(e.agent);
      } else if e.Arrive? && e.which < |inFlight| {
        Deliver(e.which);
      } else if e.Serve? && synchronizer.busy {
        ServeNext(now);
      }
    }

    // After any run: the log has only grown, and with what is on its way to it holds just what was
    // there and what was published; every agent holds its oldest part and has re-fired
    // just the foreign entries of that part, each once, in the order of the log; what a reply told it
    // of other controllers was true when it was made.
    method Run(events: seq<Event>, times: seq<int>)
      requires Valid() && Informed() && |times| == |events|
      requires forall i, j :: 0 <= i <= j < |times| ==> synchronizer.clock <= times[i] <= times[j]
      modifies this`inFlight, synchronizer, agents
      ensures Valid() && Informed() && Oldest(old(synchronizer.dataChannel), synchronizer.dataChannel)
      ensures Stock() == old(Stock()) + Published(events)
      ensures forall b :: 0 <= b < |agents| ==> old(agents[b].refired) <= agents[b].refired
      ensures forall b :: 0 <= b < |agents| ==> Replica(agents[b].State(), synchronizer.dataChannel)
    {
      for i := 0 to |events|
        invariant Valid() && Informed() && Oldest(old(synchronizer.dataChannel), synchronizer.dataChannel)
        invariant forall j :: i <= j < |times| ==> synchronizer.clock <= times[j]
        invariant Stock() == old(Stock()) + Published(events[..i])
        invariant forall b :: 0 <= b < |agents| ==> old(agents[b].refired) <= agents[b].refired
      {
        label Before:
        PublishedStep(events, i);
        Step(events[i], times[i]);
        OldestTransitive(old(synchronizer.dataChannel), old@Before(synchronizer.dataChannel), synchronizer.dataChannel);
      }
      assert events[..|events|] == events;
    }
  }

  lemma OldestTransitive<T>(x: seq<T>, y: seq<T>, z: seq<T>)
    requires Oldest(x, y) && Oldest(y, z)
    ensures Oldest(x, z)
  {
    assert x == y[|y| - |x|..] == z[|z| - |y|..][|y| - |x|..];
  }

  // Messages about an agent name one that exists.
  ghost predicate Addressed(all: seq<Message>, n: nat) {
    forall i :: 0 <= i < |all| && (all[i].Request? || all[i].Reply?) ==> all[i].agent < n
  }

  lemma {:induction false} NoneOutstanding(s: seq<Message>, a: nat)
    requires forall i :: 0 <= i < |s| ==> !About(s[i], a)
    ensures Outstanding(s, a) == 0
  {
    if s != [] { NoneOutstanding(s[1..], a); }
  }

  lemma Posted(q: seq<Message>, f: seq<Message>, sent: seq<Message>, a: nat)
    requires forall i :: 0 <= i < |sent| ==> !About(sent[i], a)
    ensures SameAbout(q + f, q + (f + sent), a)
  {
    Associative(q, f, sent);
    OutstandingConcat(q + f, sent, a);
    NoneOutstanding(sent, a);
  }

  lemma Asked(q: seq<Message>, f: seq<Message>, a: nat, n: int)
    ensures Outstanding(q + (f + [Request(a, n)]), a) == Outstanding(q + f, a) + 1
    ensures forall b: nat :: b != a ==> SameAbout(q + f, q + (f + [Request(a, n)]), b)
    ensures forall m :: m in q + (f + [Request(a, n)]) ==> m in q + f || m == Request(a, n)
  {
    var sent := [Request(a, n)];
    Associative(q, f, sent);
    OutstandingConcat(q + f, sent, a);
    assert sent[1..] == [];
    forall b: nat | b != a
      ensures SameAbout(q + f, q + (f + sent), b)
    {
      Posted(q, f, sent, b);
    }
  }

  lemma Arrived(q: seq<Message>, f: seq<Message>, i: nat, a: nat)
    requires i < |f|
    ensures SameAbout(q + f, (q + [f[i]]) + Without(f, i), a)
  {
    OutstandingConcat(q, f, a);
    OutstandingConcat(q + [f[i]], Without(f, i), a);
    OutstandingConcat(q, [f[i]], a);
    OutstandingWithout(f, i, a);
    assert [f[i]][1..] == [];
  }

  // What serving the message at the head of the queue does to one agent's consistency.
  lemma Served(st: AgentState, d: seq<Entry>, q: seq<Message>, f: seq<Message>, sent: seq<Message>, a: nat)
    requires q != [] && !q[0].Reply? && Consistent(st, d, q + f, a)
    requires var d' := (if q[0].Change? then [q[0].entry] else []) + d;
      if q[0].Request? then |sent| == 1 && sent[0].Reply? && sent[0].agent == q[0].agent
          && sent[0].data == Missing(d', q[0].lastSyncCounter)
      else sent == []
    ensures var d' := (if q[0].Change? then [q[0].entry] else []) + d;
      Consistent(st, d', q[1..] + (f + sent), a)
  {
    var rest, all' := q[1..] + f, q[1..] + (f + sent);
    Associative(q[1..], f, sent);
    assert (q + f)[1..] == rest && (q + f)[0] == q[0];
    OutstandingConcat(rest, sent, a);
    if q[0].Request? {
      assert sent[1..] == [];
      if q[0].agent == a {
        assert Fits((q + f)[0], st, d) && [] + d == d;
        ConsistentAnswered(st, d, q + f, rest, all', a, sent[0]);
      } else {
        ConsistentMoved(st, d, q + f, all', a);
        assert [] + d == d;
      }
    } else {
      ConsistentMoved(st, d, q + f, all', a);
      if q[0].Change? { ConsistentLogged(st, d, all', a, q[0].entry); } else { assert [] + d == d; }
    }
  }
}
