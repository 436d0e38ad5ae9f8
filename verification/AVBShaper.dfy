/**
 * What the credit-based shaper does, event by event, and what it does for its class over a
 * whole run.
 */
module AVBShapers {
  import opened AVBCredits

  datatype Port = In | SchedulerIn

  // What happens to the buffer, and when: frames come in, the scheduler wakes it up, the port
  // becomes idle, and a frame it released turns out to take so long to send.
  datatype Event =
    | Arrives(at: real, port: Port, frame: int, accepted: bool)
    | PortIdle(at: real)
    | FrameSent(at: real, duration: real)

  ghost predicate InTime(events: seq<Event>, from: real) {
    && (forall i :: 0 <= i < |events| ==> events[i].at >= from && (events[i].FrameSent? ==> events[i].duration >= 0.0))
    && forall i, j :: 0 <= i < j < |events| ==> events[i].at <= events[j].at
  }

  // The rates of the port and of the reservation, the credit, when it was last looked at and up
  // to when it is settled, and the frames that wait.
  datatype Shaper = Shaper(port: nat, reserved: nat, credit: int, inTransmission: bool,
                           newTime: real, oldTime: real, frames: seq<int>)

  ghost predicate Sane(s: Shaper) {
    0 < s.reserved <= s.port && (s.inTransmission ==> s.credit >= 0)
  }

  function Later(x: real, y: real): real { if x >= y then x else y }

  // What is gained from one time to another, and nothing before the first.
  function Gained(reserved: nat, from: real, now: real): int {
    if now >= from then Ceil(reserved as real * (now - from)) else 0
  }

  // The credit now: it grows out of a debt and while a frame is on the wire, and a debt does
  // not turn into a credit with nothing to send.
  function Grown(s: Shaper, now: real): int {
    if s.credit >= 0 && !s.inTransmission then s.credit
    else
      var c := s.credit + Gained(s.reserved, s.oldTime, now);
      if c > 0 && s.frames == [] && !s.inTransmission then 0 else c
  }

  // When the credit was looked at last does not matter, only up to when it is settled.
  lemma GrownThen(s: Shaper, now: real)
    ensures Grown(s.(newTime := now), now) == Grown(s, now)
    ensures s.inTransmission ==> Grown(s, now) == s.credit + Gained(s.reserved, s.oldTime, now)
    ensures s.credit >= 0 && !s.inTransmission ==> Grown(s, now) == s.credit
    ensures s.credit < 0 && now < s.oldTime ==> Grown(s, now) == s.credit
  {
  }

  function Looked(s: Shaper, now: real): Shaper {
    s.(credit := Grown(s, now), newTime := now, oldTime := Later(now, s.oldTime))
  }

  function Accepted(e: Event): seq<int> {
    if e.Arrives? && e.port.In? && e.accepted then [e.frame] else []
  }

  function Woken(s: Shaper, e: Event): Shaper
    requires e.Arrives?
  {
    var t := Looked(s, e.at).(frames := s.frames + Accepted(e));
    if t.inTransmission || t.credit < 0 then t
    else if t.frames == [] then t.(credit := if e.at >= s.oldTime then 0 else t.credit)
    else t.(inTransmission := true, frames := t.frames[1..])
  }

  function Paid(s: Shaper, e: Event): Shaper
    requires e.FrameSent? && s.reserved <= s.port
  {
    var c := s.credit - Ceil((s.port - s.reserved) as real * e.duration);
    var t := s.(credit := c, inTransmission := false, oldTime := Later(e.at, s.oldTime) + e.duration);
    if s.frames == [] then t.(credit := if c > 0 && s.newTime >= s.oldTime then 0 else c)
    else if c < 0 then t
    else t.(inTransmission := true, frames := s.frames[1..])
  }

  // A report of sending concerns the one frame on the wire.
  predicate Taken(s: Shaper, e: Event) { e.FrameSent? && s.inTransmission }

  function Next(s: Shaper, e: Event): Shaper
    requires s.reserved <= s.port
  {
    match e
    case Arrives(_, _, _, _) => Woken(s, e)
    case PortIdle(at) => Looked(s, at)
    case FrameSent(_, _) => if Taken(s, e) then Paid(s, e) else s
  }

  // ---------- over a run ----------

  function After(s: Shaper, events: seq<Event>): Shaper
    requires s.reserved <= s.port
    decreases |events|
  {
    if events == [] then s else After(Next(s, events[0]), events[1..])
  }

  // How long frames of the class were on the wire.
  function SentIn(s: Shaper, events: seq<Event>): real
    requires s.reserved <= s.port
    decreases |events|
  {
    if events == [] then 0.0
    else (if Taken(s, events[0]) then events[0].duration else 0.0) + SentIn(Next(s, events[0]), events[1..])
  }

  function SendsIn(s: Shaper, events: seq<Event>): nat
    requires s.reserved <= s.port
    decreases |events|
  {
    if events == [] then 0 else (if Taken(s, events[0]) then 1 else 0) + SendsIn(Next(s, events[0]), events[1..])
  }

  // The longest a frame was on the wire, or `longest` if none took longer.
  function LongestIn(longest: real, s: Shaper, events: seq<Event>): real
    requires s.reserved <= s.port
    decreases |events|
  {
    if events == [] then longest
    else
      LongestIn(if Taken(s, events[0]) then Later(events[0].duration, longest) else longest,
                Next(s, events[0]), events[1..])
  }

  function AcceptedIn(events: seq<Event>): seq<int> {
    if events == [] then [] else Accepted(events[0]) + AcceptedIn(events[1..])
  }

  lemma GainsNothingLess(reserved: nat, from: real, now: real)
    ensures Gained(reserved, from, now) >= 0
  {
    if now >= from { Nonnegative(reserved as real, now - from); }
  }

  lemma SaneNext(s: Shaper, e: Event)
    requires Sane(s) && (e.FrameSent? ==> e.duration >= 0.0)
    ensures Sane(Next(s, e)) && Next(s, e).port == s.port && Next(s, e).reserved == s.reserved
  {
    hide Ceil, Gained;
    GainsNothingLess(s.reserved, s.oldTime, e.at);
  }

  // ---------- nothing is saved up ----------

  // A class with nothing to send and nothing on the wire gains no credit to burst with, and a
  // frame that comes in finds none.
  lemma IdleKeepsNothing(s: Shaper, e: Event)
    requires Sane(s) && s.credit <= 0 && !s.inTransmission && s.frames == []
    ensures Next(s, e).credit <= 0
    ensures Accepted(e) == [] ==> !Next(s, e).inTransmission && Next(s, e).frames == []
  {
    hide Ceil;
  }

  lemma {:induction false} IdleRun(s: Shaper, events: seq<Event>)
    requires Sane(s) && InTime(events, s.newTime) && AcceptedIn(events) == []
    requires s.credit <= 0 && !s.inTransmission && s.frames == []
    ensures var t := After(s, events); t.credit <= 0 && !t.inTransmission && t.frames == []
    decreases |events|
  {
    hide Next, InTime;
    if events != [] {
      IdleKeepsNothing(s, events[0]);
      InTimeFirst(events, s.newTime);
      SaneNext(s, events[0]);
      InTimeRest(events, s.newTime, Next(s, events[0]).newTime);
      IdleRun(Next(s, events[0]), events[1..]);
    }
  }

  lemma InTimeFirst(events: seq<Event>, from: real)
    requires InTime(events, from) && events != []
    ensures events[0].at >= from && (events[0].FrameSent? ==> events[0].duration >= 0.0)
    ensures forall s: Shaper :: s.newTime == from && s.reserved <= s.port ==>
        Next(s, events[0]).newTime <= Later(events[0].at, from)
  {
  }

  // When frames wait, or one comes in, with credit and nothing on the wire, the oldest is released.
  lemma ReleasedAtOnce(s: Shaper, e: Event)
    requires Sane(s) && e.Arrives? && !s.inTransmission && s.credit >= 0 && s.frames + Accepted(e) != []
    ensures Next(s, e).inTransmission && Next(s, e).frames == (s.frames + Accepted(e))[1..]
        && Next(s, e).credit == s.credit
  {
  }

  // With nothing on the wire a credit does not grow.
  lemma NoGainAtRest(s: Shaper, at: real)
    requires s.credit >= 0 && !s.inTransmission && s.reserved <= s.port
    ensures Next(s, PortIdle(at)).credit == s.credit
  {
  }

  // A credit left over with nothing to send is dropped by a wake-up exactly after the window of sending ...
  lemma DroppedOnWaking(s: Shaper, e: Event)
    requires Sane(s) && e.Arrives? && !s.inTransmission && s.credit > 0 && s.frames == [] && Accepted(e) == []
    ensures Next(s, e).credit == if e.at >= s.oldTime then 0 else s.credit
  {
  }

  // ... and when the last frame has been paid for exactly if the credit was looked at since the
  // window of sending before it.
  lemma DroppedAfterPaying(s: Shaper, e: Event)
    requires Sane(s) && Taken(s, e) && s.frames == []
    ensures Next(s, e).credit <= 0
       <==> s.newTime >= s.oldTime || s.credit <= Ceil((s.port - s.reserved) as real * e.duration)
  {
  }

  // It need not be: two frames, the second released as soon as the first is paid for and not looked
  // at before it is paid for itself, leave a credit of an idle class.
  lemma CreditLeftOver()
    ensures var s := Shaper(200, 100, 0, false, 0.0, 0.0, []);
      var t := After(s, [Arrives(0.0, In, 1, true), Arrives(0.0, In, 2, true), PortIdle(5.0), FrameSent(5.0, 1.0),
          FrameSent(6.0, 1.0)]);
      t.credit == 300 && !t.inTransmission && t.frames == []
  {
    var a, b, c, d, e := Arrives(0.0, In, 1, true), Arrives(0.0, In, 2, true), PortIdle(5.0), FrameSent(5.0, 1.0),
        FrameSent(6.0, 1.0);
    var s0 := Shaper(200, 100, 0, false, 0.0, 0.0, []);
    var s1 := Shaper(200, 100, 0, true, 0.0, 0.0, []);
    var s2 := Shaper(200, 100, 0, true, 0.0, 0.0, [2]);
    var s3 := Shaper(200, 100, 500, true, 5.0, 5.0, [2]);
    var s4 := Shaper(200, 100, 400, true, 5.0, 6.0, []);
    var s5 := Shaper(200, 100, 300, false, 5.0, 7.0, []);
    assert Next(s0, a) == s1 && Next(s1, b) == s2 && Next(s2, c) == s3 && Next(s3, d) == s4 && Next(s4, e) == s5;
    hide Next;
    assert [a, b, c, d, e][1..] == [b, c, d, e] && [b, c, d, e][1..] == [c, d, e] && [c, d, e][1..] == [d, e]
        && [d, e][1..] == [e] && [e][1..] == [];
    assert After(s4, [e]) == s5 && After(s3, [d, e]) == s5 && After(s2, [c, d, e]) == s5
        && After(s1, [b, c, d, e]) == s5;
  }

  // ---------- service ----------

  // There is always a frame to send, which waits for credit or for the one on the wire, and the
  // credit is looked at just before a frame on the wire is paid for.
  ghost predicate Busy(s: Shaper, events: seq<Event>)
    requires s.reserved <= s.port
    decreases |events|
  {
    events != [] ==>
      && s.frames != [] && (s.inTransmission || s.credit < 0) && (Taken(s, events[0]) ==> events[0].at <= s.oldTime)
      && Busy(Next(s, events[0]), events[1..])
  }

  // From s to t, with frames on the wire for `sent`, the class got what is reserved for it, less
  // the credit it has saved up and one unit of rounding for each of `sends` frames.
  ghost predicate Served(s: Shaper, t: Shaper, sent: real, sends: nat) {
    s.reserved as real * (t.oldTime - s.oldTime) <= s.port as real * sent
        + (sends as real + (t.credit - s.credit) as real)
  }

  lemma ServiceStep(s: Shaper, e: Event)
    requires Sane(s) && s.frames != [] && (s.inTransmission || s.credit < 0) && (e.FrameSent? ==> e.duration >= 0.0)
    requires Taken(s, e) ==> e.at <= s.oldTime
    ensures Served(s, Next(s, e), if Taken(s, e) then e.duration else 0.0, if Taken(s, e) then 1 else 0)
  {
    if Taken(s, e) {
      assert (s.port - s.reserved) as real == s.port as real - s.reserved as real;
      Spend(s.port as real, s.reserved as real, e.duration);
    }
  }

  // Two stretches of time, one after the other.
  lemma ServedTwice(s: Shaper, m: Shaper, t: Shaper, x: real, y: real, i: nat, j: nat)
    requires m.port == s.port && m.reserved == s.reserved && Served(s, m, x, i) && Served(m, t, y, j)
    ensures Served(s, t, x + y, i + j)
  {
    var r := s.reserved as real;
    Split(r, m.oldTime - s.oldTime, t.oldTime - m.oldTime);
    assert (m.oldTime - s.oldTime) + (t.oldTime - m.oldTime) == t.oldTime - s.oldTime;
    Split(s.port as real, x, y);
  }

  lemma InTimeRest(events: seq<Event>, from: real, from': real)
    requires InTime(events, from) && events != [] && from' <= Later(events[0].at, from)
    ensures InTime(events[1..], from')
  {
    var rest := events[1..];
    assert forall i :: 0 <= i < |rest| ==> rest[i] == events[i + 1];
  }

  // While frames wait the class gets at least the bandwidth reserved for it.
  lemma {:induction false} Service(s: Shaper, events: seq<Event>)
    requires Sane(s) && InTime(events, s.newTime) && Busy(s, events)
    ensures Served(s, After(s, events), SentIn(s, events), SendsIn(s, events))
    decreases |events|
  {
    if events != [] {
      var e, m, rest := events[0], Next(s, events[0]), events[1..];
      hide Next, InTime, Served, Taken;
      SaneNext(s, e);
      ServiceStep(s, e);
      InTimeRest(events, s.newTime, m.newTime);
      Service(m, rest);
      ServedTwice(s, m, After(m, rest), if Taken(s, e) then e.duration else 0.0, SentIn(m, rest),
                  if Taken(s, e) then 1 else 0, SendsIn(m, rest));
    }
  }
}
