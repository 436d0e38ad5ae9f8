/**
 * The buffer of a rate-constrained virtual link: after every frame it waits out a gap before
 * it sends the next.
 */
module RCBuffers {

  // A frame sent, and whether the end of a gap or the arrival of a frame made it be sent.
  datatype Send = Send(at: int, byTimer: bool, frame: int)

  // The gap that has to follow a send: the whole bag if the gap's timer caused the send, and
  // the bag less the jitter if an arrival did.
  function Gap(s: Send, bag: nat, jitter: nat): nat {
    if s.byTimer then bag else if bag < jitter then 0 else bag - jitter
  }

  ghost predicate Spaced(sends: seq<Send>, bag: nat, jitter: nat) {
    forall i :: 0 <= i < |sends| - 1 ==> sends[i + 1].at >= sends[i].at + Gap(sends[i], bag, jitter)
  }

  // Two sends in a row are a bag apart if the timer caused the first, and in any case a bag less the jitter.
  lemma SpacedMeans(sends: seq<Send>, bag: nat, jitter: nat, i: nat)
    requires Spaced(sends, bag, jitter) && i + 1 < |sends|
    ensures sends[i].byTimer ==> sends[i + 1].at - sends[i].at >= bag
    ensures sends[i + 1].at - sends[i].at >= bag - jitter && sends[i + 1].at >= sends[i].at
  {
  }

  // When the timer is due if the last gate reports at `now`.
  function Deadline(now: int, lastSent: int, bag: nat, jitter: nat): int {
    var delay := if now - lastSent > jitter then jitter else now - lastSent;
    if bag < delay then now else now + (bag - delay)
  }

  lemma DeadlineLate(now: int, lastSent: int, s: Send, bag: nat, jitter: nat)
    requires lastSent <= s.at <= now && (s.byTimer ==> lastSent == s.at)
    ensures Deadline(now, lastSent, bag, jitter) >= s.at + Gap(s, bag, jitter)
    ensures Deadline(now, lastSent, bag, jitter) >= now
  {
  }

  // It is never later than a whole bag from now, and as long as the frame has not been delayed by
  // more than the jitter it is just the bag after the time remembered.
  lemma DeadlineEarly(now: int, lastSent: int, bag: nat, jitter: nat)
    requires lastSent <= now
    ensures var late := if now < lastSent + bag then lastSent + bag else now;
      && now <= Deadline(now, lastSent, bag, jitter) <= now + bag
      && (now - lastSent <= jitter ==> Deadline(now, lastSent, bag, jitter) == late)
      && (now - lastSent > jitter ==>
            Deadline(now, lastSent, bag, jitter) == if jitter < bag then now + bag - jitter else now)
  {
  }

  // The whole bag is kept exactly if the last send is the one remembered, which only a timer
  // makes it, or the gates took so long that the jitter, or the bag, had passed.
  lemma FullBag(now: int, lastSent: int, sent: int, bag: nat, jitter: nat)
    requires lastSent <= sent <= now
    ensures Deadline(now, lastSent, bag, jitter) >= sent + bag
       <==> lastSent == sent || now - sent >= (if bag < jitter then bag else jitter)
  {
  }

  class RCBuffer {
    const bag: nat
    const jitter: nat
    const gates: nat
    var bagExpired: bool
    var lastSent: int
    var numReset: nat
    var frames: seq<int>

    // The deadlines of the timers registered and not fired yet.
    var timers: seq<int>

    // All sends, all frames that were let in, and the present time.
    ghost var sends: seq<Send>
    ghost var arrived: seq<int>
    ghost var clock: int

    // How many reports the gates still owe: every gate one for every frame sent to it.
    ghost var owed: nat

    constructor (b: nat, j: nat, n: nat)
      ensures Valid() && bag == b && jitter == j && gates == n && sends == [] && arrived == [] && clock == 0
          && bagExpired && owed == 0 && lastSent == 0
    {
      bag, jitter, gates := b, j, n;
      bagExpired, lastSent, numReset, frames, timers := true, 0, 0, [], [];
      sends, arrived, clock, owed := [], [], 0, 0;
    }

    ghost function Frames(s: seq<Send>): (r: seq<int>)
      ensures |r| == |s|
    {
      if s == [] then [] else Frames(s[..|s| - 1]) + [s[|s| - 1].frame]
    }

    // Either nothing is under way, or gates have to report, or one timer runs; in all cases
    // the gap after the last send is kept.
    ghost predicate Valid()
      reads this
    {
      && Spaced(sends, bag, jitter) && lastSent <= clock && arrived == Frames(sends) + frames
      && |timers| <= 1 && (bagExpired ==> timers == [])
      && (sends == [] ==> bagExpired) && (gates == 0 ==> sends == [])
      && (!bagExpired ==> if timers == [] then 0 <= numReset < gates else numReset == gates)
      && owed == (if bagExpired || timers != [] then 0 else gates - numReset)
      && (sends != [] ==> var s := sends[|sends| - 1];
            && s.at <= clock && lastSent <= s.at && (s.byTimer ==> lastSent == s.at)
            && (bagExpired ==> clock >= s.at + Gap(s, bag, jitter))
            && (timers != [] ==> timers[0] >= s.at + Gap(s, bag, jitter)))
    }

    method SendFrame(now: int, ghost byTimer: bool)
      requires Spaced(sends, bag, jitter) && frames != [] && arrived == Frames(sends) + frames
      requires sends != [] ==> now >= sends[|sends| - 1].at + Gap(sends[|sends| - 1], bag, jitter)
      modifies this`frames, this`sends, this`bagExpired, this`numReset, this`owed
      ensures sends == old(sends) + [Send(now, byTimer, old(frames)[0])] && frames == old(frames)[1..]
      ensures Spaced(sends, bag, jitter) && arrived == Frames(sends) + frames && !bagExpired && numReset == 0
      ensures owed == old(owed) + gates
    {
      bagExpired := false;
      numReset := 0;
      owed := owed + gates;
      ghost var s := Send(now, byTimer, frames[0]);
      assert (sends + [s])[..|sends|] == sends;
      assert arrived == (Frames(sends) + [frames[0]]) + frames[1..];
      sends := sends + [s];
      frames := frames[1..];
    }

    // A frame comes in, and may be dropped; with the gap over the oldest one is sent at once.
    method HandleArrival(frame: int, accepted: bool, now: int) returns (sent: bool)
      requires Valid() && now >= clock
      modifies this
      ensures Valid() && clock == now && timers == old(timers) && lastSent == old(lastSent)
      ensures arrived == old(arrived) + if accepted then [frame] else []
      ensures var waiting := old(frames) + if accepted then [frame] else [];
        && sent == (old(bagExpired) && gates > 0 && waiting != [])
        && frames == (if sent then waiting[1..] else waiting)
        && sends == old(sends) + if sent then [Send(now, false, waiting[0])] else []
      ensures bagExpired == (old(bagExpired) && !sent) && owed == old(owed) + if sent then gates else 0
    {
      hide Spaced, Gap, Frames;
      clock := now;
      sent := false;
      assert arrived + [] == arrived && frames + [] == frames && sends + [] == sends;
      if accepted {
        assert arrived + [frame] == Frames(sends) + (frames + [frame]);
        frames := frames + [frame];
        arrived := arrived + [frame];
      }
      if gates > 0 {
        if bagExpired {
          if frames != [] {
            SendFrame(now, false);
            sent := true;
          }
        }
      }
    }

    // The timer fires: the next frame is sent, or the buffer waits for one.
    method HandleTimer(now: int) returns (sent: bool)
      requires Valid() && timers != [] && now >= timers[0] && now >= clock
      modifies this
      ensures Valid() && clock == now && timers == [] && arrived == old(arrived) && sent == (old(frames) != [])
      ensures if sent
              then
                && sends == old(sends) + [Send(now, true, old(frames)[0])]
                && frames == old(frames)[1..] && lastSent == now
              else sends == old(sends) && frames == [] && lastSent == old(lastSent)
      ensures bagExpired == !sent && owed == if sent then gates else 0
    {
      clock := now;
      timers := timers[1..];
      sent := false;
      if gates > 0 {
        if frames != [] {
          SendFrame(now, true);
          lastSent := now;
          sent := true;
        } else {
          bagExpired := true;
        }
      }
    }

    // A gate reports that it has sent the present frame; the last to do so starts the timer.
    method ResetBag(now: int)
      requires Valid() && owed > 0 && now >= clock
      modifies this
      ensures Valid() && clock == now && owed == old(owed) - 1
      ensures sends == old(sends) && frames == old(frames) && arrived == old(arrived) && lastSent == old(lastSent)
          && !bagExpired
      ensures timers == if owed == 0 then [Deadline(now, lastSent, bag, jitter)] else []
    {
      clock := now;
      numReset := numReset + 1;
      owed := owed - 1;
      if numReset == gates {
        var delay := now - lastSent;
        if delay > jitter {
          delay := jitter;
        }
        DeadlineLate(now, lastSent, sends[|sends| - 1], bag, jitter);
        if bag < delay {
          timers := timers + [now];
        } else {
          timers := timers + [now + (bag - delay)];
        }
      }
    }
  }

  // ---------- whole runs ----------

  datatype Event = Arrives(at: int, frame: int, accepted: bool) | TimerFires(at: int) | GateReports(at: int)

  ghost predicate InTime(events: seq<Event>, from: int) {
    && (forall i :: 0 <= i < |events| ==> events[i].at >= from)
    && forall i, j :: 0 <= i < j < |events| ==> events[i].at <= events[j].at
  }

  function AcceptedIn(events: seq<Event>): seq<int> {
    if events == [] then []
    else (if events[0].Arrives? && events[0].accepted then [events[0].frame] else []) + AcceptedIn(events[1..])
  }

  // A timer fires when it is due, a gate reports a frame it has been given and not reported yet.
  method Step(buffer: RCBuffer, e: Event, reports: nat) returns (reports': nat)
    requires buffer.Valid() && e.at >= buffer.clock && reports == buffer.owed
    modifies buffer
    ensures buffer.Valid() && buffer.clock <= e.at && reports' == buffer.owed
    ensures old(buffer.sends) <= buffer.sends && buffer.arrived == old(buffer.arrived) + AcceptedIn([e])
    ensures match e
      case Arrives(at, frame, accepted) =>
        old(buffer.bagExpired) && buffer.gates > 0 && old(buffer.frames) + AcceptedIn([e]) != [] ==>
          buffer.sends == old(buffer.sends) + [Send(at, false, (old(buffer.frames) + AcceptedIn([e]))[0])]
      case TimerFires(at) =>
        old(buffer.timers) != [] && at >= old(buffer.timers)[0] ==>
          && buffer.timers == []
          && (old(buffer.frames) == [] ==> buffer.bagExpired)
          && (old(buffer.frames) != [] ==> buffer.sends == old(buffer.sends) + [Send(at, true, old(buffer.frames)[0])])
      case GateReports(at) =>
        reports > 0 ==>
          && reports' == reports - 1
          && (reports' == 0 ==> buffer.timers == [Deadline(at, buffer.lastSent, buffer.bag, buffer.jitter)])
  {
    hide Spaced, Deadline;
    reports' := reports;
    assert [e][1..] == [] && buffer.arrived + [] == buffer.arrived;
    match e
    case Arrives(at, frame, accepted) =>
      var sent := buffer.HandleArrival(frame, accepted, at);
      reports' := reports + if sent then buffer.gates else 0;
    case TimerFires(at) =>
      if buffer.timers != [] && at >= buffer.timers[0] {
        var sent := buffer.HandleTimer(at);
        reports' := reports + if sent then buffer.gates else 0;
      }
    case GateReports(at) =>
      if reports > 0 {
        buffer.ResetBag(at);
        reports' := reports - 1;
      }
  }

  // Whatever happens, the gap is kept after every send, at most one timer runs, and frames are
  // sent in the order in which they were let in.
  method Run(buffer: RCBuffer, events: seq<Event>, reports: nat)
    requires buffer.Valid() && InTime(events, buffer.clock) && reports == buffer.owed
    modifies buffer
    ensures buffer.Valid() && Spaced(buffer.sends, buffer.bag, buffer.jitter) && |buffer.timers| <= 1
    ensures old(buffer.sends) <= buffer.sends
    ensures buffer.Frames(buffer.sends) + buffer.frames == old(buffer.arrived) + AcceptedIn(events)
  {
    var owed := reports;
    assert buffer.arrived + [] == buffer.arrived;
    for i := 0 to |events|
      invariant buffer.Valid() && old(buffer.sends) <= buffer.sends && owed == buffer.owed
      invariant forall j :: i <= j < |events| ==> events[j].at >= buffer.clock
      invariant old(buffer.arrived) + AcceptedIn(events) == buffer.arrived + AcceptedIn(events[i..])
    {
      ghost var rest := events[i..];
      assert rest[0] == events[i] && rest[1..] == events[i + 1..] && [events[i]][1..] == [];
      owed := Step(buffer, events[i], owed);
    }
  }

  // After an arrival the time of the last send is an old one, and the gap can be as short as the
  // bag less the jitter: with a bag of ten and a jitter of four, a frame that arrives and is
  // reported at 100 is followed by the next one at 106.
  method ShortGap() returns (buffer: RCBuffer)
    ensures fresh(buffer) && buffer.Valid() && buffer.bag == 10 && buffer.jitter == 4
    ensures buffer.sends == [Send(100, false, 1), Send(106, true, 2)]
  {
    buffer := new RCBuffer(10, 4, 1);
    var _ := buffer.HandleArrival(1, true, 100);
    buffer.ResetBag(100);
    var _ := buffer.HandleArrival(2, true, 101);
    var _ := buffer.HandleTimer(106);
  }
}
