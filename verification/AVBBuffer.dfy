/**
 * The buffer of an audio/video bridging class: frames wait until the credit is not negative.
 */
module AVBBuffers {
  import opened Basics
  import opened AVBCredits
  import opened AVBShapers

  class AVBBuffer {
    const portBandwith: nat
    const reserved: nat
    const tick: real
    var credit: int
    var maxCredit: int
    var inTransmission: bool
    var newTime: real
    var oldTime: real
    var wDuration: real
    var frames: seq<int>

    // Frames that came in and frames released, in order; stretches of gain and of sending; the
    // longest frame time so far; and the start.
    ghost var arrived: seq<int>
    ghost var released: seq<int>
    ghost var history: seq<Stretch>
    ghost var longest: real
    ghost const start: real

    constructor (port: nat, reservation: nat, t: real, now: real)
      requires 0 < reservation <= port && t > 0.0
      ensures Valid() && history == [] && credit == 0 && start == now && released == arrived == []
      ensures portBandwith == port && reserved == reservation && tick == t && newTime == now
    {
      portBandwith, reserved, tick := port, reservation, t;
      credit, maxCredit, inTransmission := 0, 0, false;
      newTime, oldTime, wDuration, frames := now, now, 0.0, [];
      arrived, released, history, longest, start := [], [], [], 0.0, now;
    }

    ghost predicate Rates() {
      0 < reserved <= portBandwith && tick > 0.0
    }

    // The most the credit may be below zero.
    ghost function Debt(): int
      requires Rates()
      reads this`longest
    {
      Ceil((portBandwith - reserved) as real * longest)
    }

    ghost function Snap(): Shaper
      reads this
    {
      Shaper(portBandwith, reserved, credit, inTransmission, newTime, oldTime, frames)
    }

    // The books are in order; stretches up to `until` are entered.
    ghost predicate Booked(until: real)
      reads this`credit, this`history, this`longest
    {
      && Rates() && Ordered(start, history, until) && Covered(portBandwith, reserved, history, credit)
      && longest >= 0.0 && credit >= -Debt()
    }

    // First in, first out.
    ghost predicate InOrder()
      reads this`frames, this`arrived, this`released
    {
      arrived == released + frames
    }

    ghost predicate Valid()
      reads this
    {
      Rates() && Booked(oldTime) && InOrder() && (inTransmission ==> credit >= 0)
    }

    method ResetCredit()
      requires Booked(if newTime >= oldTime then newTime else oldTime) && credit >= 0
      modifies this`credit
      ensures Booked(if newTime >= oldTime then newTime else oldTime)
      ensures credit == if newTime >= oldTime then 0 else old(credit)
    {
      if newTime >= oldTime {
        credit := 0;
      }
    }

    // Credit is gained from the time it was last looked at until now.
    method Gain()
      requires Booked(oldTime) && newTime >= oldTime
      modifies this`credit, this`history
      ensures Booked(newTime) && history == old(history) + [Accrued(oldTime, newTime)]
      ensures credit == old(credit) + Ceil(reserved as real * (newTime - oldTime)) && credit >= old(credit)
    {
      hide Ordered, TimeAccrued, TimeSent, Steps;
      ghost var s := Accrued(oldTime, newTime);
      CoveredGain(portBandwith, reserved, start, history, s, credit);
      OrderedAppend(start, history, s, newTime);
      Nonnegative(reserved as real, newTime - oldTime);
      credit := credit + Ceil(reserved as real * (newTime - oldTime));
      history := history + [s];
    }

    method IdleSlope(duration: real)
      requires Booked(oldTime) && duration == newTime - oldTime && !inTransmission && credit < 0
      modifies this`credit, this`history
      ensures Booked(if newTime >= oldTime then newTime else oldTime) && credit >= old(credit)
      ensures credit == Grown(old(Snap()), newTime)
      ensures history == old(history) + if newTime >= oldTime then [Accrued(oldTime, newTime)] else []
    {
      hide Ordered, Covered, TimeAccrued, TimeSent, Steps, Ceil;
      assert history == history + [];
      if duration >= 0.0 {
        Gain();
        if credit > 0 && |frames| <= 0 && !inTransmission {
          ResetCredit();
        }
      }
    }

    method InterferenceSlope(duration: real)
      requires Booked(oldTime) && duration == newTime - oldTime
      modifies this`credit, this`history
      ensures Booked(if newTime >= oldTime then newTime else oldTime) && credit >= old(credit)
      ensures credit == old(credit) + Gained(reserved, oldTime, newTime)
      ensures history == old(history) + if newTime >= oldTime then [Accrued(oldTime, newTime)] else []
    {
      assert history == history + [];
      if duration >= 0.0 {
        Gain();
      }
    }

    method Release()
      requires InOrder() && frames != []
      modifies this`frames, this`released, this`inTransmission
      ensures InOrder() && inTransmission && released == old(released) + [old(frames)[0]] && frames == old(frames)[1..]
    {
      released := released + [frames[0]];
      frames := frames[1..];
      inTransmission := true;
    }

    // How long the debt takes to be paid back, in ticks.
    method Wait() returns (ticks: int)
      requires Rates() && credit < 0
      modifies this`wDuration
      ensures ticks == Ceil((-credit) as real / reserved as real / tick)
      ensures ticks as real * tick >= (-credit) as real / reserved as real
    {
      wDuration := (-credit) as real / reserved as real;
      ticks := Ceil(wDuration / tick);
      Rounded(wDuration, tick, ticks);
    }

    // The later of the two times: credit has been looked at up to here.
    ghost function Horizon(): real
      reads this`newTime, this`oldTime
    {
      if newTime >= oldTime then newTime else oldTime
    }

    // A negative credit is gained on first of all.
    method Recover()
      requires Booked(oldTime) && (inTransmission ==> credit >= 0)
      modifies this`credit, this`history
      ensures Booked(Horizon()) && credit >= old(credit)
          && (inTransmission ==> credit == old(credit) && history == old(history))
      ensures !inTransmission ==> credit == Grown(old(Snap()), newTime)
      ensures history == old(history)
          + if old(credit) < 0 && newTime >= oldTime then [Accrued(oldTime, newTime)] else []
    {
      hide Ordered, TimeAccrued, TimeSent, Steps, Ceil;
      assert history == history + [];
      if credit < 0 {
        IdleSlope(newTime - oldTime);
      } else {
        OrderedLater(start, history, oldTime, Horizon());
      }
    }

    method Enqueue(port: Port, frame: int, accepted: bool)
      requires InOrder()
      modifies this`frames, this`arrived
      ensures InOrder() && arrived == old(arrived) + if port.In? && accepted then [frame] else []
      ensures frames == old(frames) + if port.In? && accepted then [frame] else []
    {
      assert frames + [] == frames && arrived + [] == arrived;
      if port.In? && accepted {
        frames := frames + [frame];
        arrived := arrived + [frame];
        assert released + old(frames) + [frame] == released + (old(frames) + [frame]);
      }
    }

    // While a frame is on the wire credit is gained; the highest is noted.
    method Interfere()
      requires Booked(oldTime) && inTransmission && credit >= 0
      modifies this`credit, this`history, this`maxCredit
      ensures Booked(Horizon()) && credit >= 0
          && maxCredit == if credit > old(maxCredit) then credit else old(maxCredit)
      ensures credit == old(credit) + Gained(reserved, oldTime, newTime)
      ensures history == old(history) + if newTime >= oldTime then [Accrued(oldTime, newTime)] else []
    {
      hide Ordered, TimeAccrued, TimeSent, Steps, Ceil;
      OrderedLater(start, history, oldTime, Horizon());
      InterferenceSlope(newTime - oldTime);
      if credit > maxCredit {
        maxCredit := credit;
      }
    }

    // With nothing on the wire, a frame is released if credit allows, and a debt is waited for.
    method Decide() returns (timer: Option<int>)
      requires Booked(Horizon()) && InOrder() && !inTransmission
      modifies this`credit, this`frames, this`released, this`inTransmission, this`wDuration
      ensures Booked(Horizon()) && InOrder() && (inTransmission ==> credit >= 0)
      ensures inTransmission == (old(credit) >= 0 && old(frames) != [])
      ensures released == old(released) + if inTransmission then [old(frames)[0]] else []
      ensures frames == if inTransmission then old(frames)[1..] else old(frames)
      ensures credit == if old(credit) >= 0 && old(frames) == [] && newTime >= oldTime then 0 else old(credit)
      ensures timer.Some? == (old(credit) < 0)
      ensures timer.Some? ==> timer.value == Ceil((-credit) as real / reserved as real / tick)
      ensures timer.Some? ==> timer.value as real * tick >= (-credit) as real / reserved as real
    {
      hide Ordered, TimeAccrued, TimeSent, Steps, Ceil;
      timer := None;
      if credit >= 0 {
        if |frames| > 0 {
          Release();
        } else {
          ResetCredit();
        }
      } else {
        var ticks := Wait();
        timer := Some(ticks);
      }
    }

    // Credit grows for the frame on the wire, or it is decided whether to release the next.
    method Serve() returns (timer: Option<int>)
      requires Booked(if inTransmission then oldTime else Horizon()) && InOrder() && (inTransmission ==> credit >= 0)
      modifies this`credit, this`history, this`maxCredit, this`frames, this`released, this`inTransmission,
          this`wDuration
      ensures Booked(Horizon()) && InOrder() && (inTransmission ==> credit >= 0)
      ensures inTransmission == (old(inTransmission) || (old(credit) >= 0 && old(frames) != []))
      ensures history == old(history)
          + if old(inTransmission) && newTime >= oldTime then [Accrued(oldTime, newTime)] else []
      ensures credit == if old(inTransmission) then old(credit) + Gained(reserved, oldTime, newTime)
                        else if old(credit) >= 0 && old(frames) == [] && newTime >= oldTime then 0 else old(credit)
      ensures released == old(released) + if inTransmission && !old(inTransmission) then [old(frames)[0]] else []
      ensures frames == if inTransmission && !old(inTransmission) then old(frames)[1..] else old(frames)
      ensures timer.Some? == (!inTransmission && old(credit) < 0)
      ensures timer.Some? ==> timer.value == Ceil((-credit) as real / reserved as real / tick)
      ensures timer.Some? ==> timer.value as real * tick >= (-credit) as real / reserved as real
    {
      hide Booked, Ceil, Gained;
      timer := None;
      assert history + [] == history && released + [] == released;
      if inTransmission {
        Interfere();
      } else {
        timer := Decide();
      }
    }

    // A frame arrives, and may be dropped, or the scheduler wakes the buffer up.
    method HandleMessage(port: Port, frame: int, accepted: bool, now: real) returns (timer: Option<int>)
      requires Valid() && now >= newTime
      modifies this
      ensures Valid() && newTime == now && oldTime == (if now >= old(oldTime) then now else old(oldTime))
      ensures arrived == old(arrived) + (if port.In? && accepted then [frame] else []) && longest == old(longest)
      ensures Snap() == Woken(old(Snap()), Arrives(now, port, frame, accepted))
      ensures history == old(history) + if (old(credit) < 0 || old(inTransmission)) && now >= old(oldTime)
          then [Accrued(old(oldTime), now)] else []
      ensures released == old(released) + if inTransmission && !old(inTransmission)
          then [(old(frames) + Accepted(Arrives(now, port, frame, accepted)))[0]] else []
      ensures timer.Some? ==> !inTransmission && timer.value == Ceil((-credit) as real / reserved as real / tick)
      ensures timer.Some? ==> timer.value as real * tick >= (-credit) as real / reserved as real
      ensures timer.None? ==> inTransmission || frames == []
    {
      GrownThen(Snap(), now);
      hide Booked, Ceil, Gained, Grown;
      newTime := now;
      Recover();
      Enqueue(port, frame, accepted);
      timer := Serve();
      if newTime >= oldTime {
        oldTime := now;
      }
    }

    // The credit is looked at because the port has become idle.
    method Refresh(now: real)
      requires Valid() && now >= newTime
      modifies this`newTime, this`oldTime, this`credit, this`maxCredit, this`history
      ensures Valid() && newTime == now && oldTime == (if now >= old(oldTime) then now else old(oldTime))
      ensures Snap() == Looked(old(Snap()), now)
      ensures history == old(history) + if (old(credit) < 0 || old(inTransmission)) && now >= old(oldTime)
          then [Accrued(old(oldTime), now)] else []
    {
      hide Booked, Ceil, Gained;
      newTime := now;
      Recover();
      if inTransmission {
        Interfere();
      }
      if newTime >= oldTime {
        oldTime := now;
      }
    }

    // A released frame has been sent, which takes `duration`: the credit pays for it.
    method SendSlope(duration: real, now: real) returns (timer: Option<int>)
      requires Valid() && inTransmission && duration >= 0.0 && now >= newTime
      modifies this
      ensures Valid() && newTime == old(newTime)
          && longest == (if duration > old(longest) then duration else old(longest))
      ensures var from := if old(oldTime) <= now then now else old(oldTime);
        oldTime == from + duration && history == old(history) + [Sent(from, from + duration)]
      ensures inTransmission == (|released| > |old(released)|) && |released| <= |old(released)| + 1
          && arrived == old(arrived)
      ensures old(released) <= released
      ensures Snap() == Paid(old(Snap()), FrameSent(now, duration))
      ensures credit < 0 || inTransmission || frames == []
      ensures timer.Some? == (credit < 0 && frames != [])
      ensures timer.Some? ==> timer.value == Ceil(duration / tick)
    {
      hide Booked, Covered, Ceil;
      ghost var from := if oldTime <= now then now else oldTime;
      Spent(duration, from);
      timer := GoOn(duration, from + duration);
      if oldTime <= now {
        oldTime := now + duration;
      } else {
        oldTime := oldTime + duration;
      }
    }

    // With the frame paid for, the next is released if credit allows.
    method GoOn(duration: real, ghost until: real) returns (timer: Option<int>)
      requires Booked(until) && InOrder()
      modifies this`credit, this`frames, this`released, this`inTransmission, this`wDuration
      ensures Booked(until) && InOrder() && (inTransmission ==> credit >= 0)
      ensures inTransmission == (old(credit) >= 0 && old(frames) != [])
      ensures released == old(released) + if inTransmission then [old(frames)[0]] else []
      ensures frames == if inTransmission then old(frames)[1..] else old(frames)
      ensures credit == if old(credit) > 0 && old(frames) == [] && newTime >= oldTime then 0 else old(credit)
      ensures timer.Some? == (credit < 0 && frames != [])
      ensures timer.Some? ==> timer.value == Ceil(duration / tick)
    {
      hide Ordered, TimeAccrued, TimeSent, Steps, Ceil;
      inTransmission := false;
      timer := None;
      assert released == released + [];
      if |frames| > 0 {
        if credit < 0 {
          wDuration := duration;
          timer := Some(Ceil(wDuration / tick));
        } else {
          Release();
        }
      } else if credit > 0 {
        Settle(until);
      }
    }

    method Spent(duration: real, ghost from: real)
      requires Booked(oldTime) && credit >= 0 && duration >= 0.0 && from >= oldTime
      modifies this`credit, this`history, this`longest
      ensures Booked(from + duration) && history == old(history) + [Sent(from, from + duration)]
      ensures longest == if duration > old(longest) then duration else old(longest)
      ensures credit == old(credit) - Ceil((portBandwith - reserved) as real * duration)
    {
      hide Ordered, TimeAccrued, TimeSent, Steps, Ceil;
      PayingKeeps(portBandwith, reserved, start, history, oldTime, from, duration, credit, longest);
      credit := credit - Ceil((portBandwith - reserved) as real * duration);
      history := history + [Sent(from, from + duration)];
      longest := if duration > longest then duration else longest;
    }

    // A credit left over is dropped, if it has been looked at lately.
    method Settle(ghost until: real)
      requires Booked(until) && credit >= 0
      modifies this`credit
      ensures Booked(until) && credit == if newTime >= oldTime then 0 else old(credit)
    {
      if newTime >= oldTime {
        credit := 0;
      }
    }

    method Step(e: Event)
      requires Valid() && e.at >= newTime && (e.FrameSent? ==> e.duration >= 0.0)
      modifies this
      ensures Valid() && newTime <= e.at && Snap() == Next(old(Snap()), e)
      ensures arrived == old(arrived) + Accepted(e) && old(released) <= released
      ensures old(history) <= history && Steps(history) <= Steps(old(history)) + 1
      ensures TimeSent(history) == TimeSent(old(history)) + if Taken(old(Snap()), e) then e.duration else 0.0
      ensures longest == if Taken(old(Snap()), e) then Later(e.duration, old(longest)) else old(longest)
    {
      hide Ordered, Covered, TimeAccrued, TimeSent, Steps, Ceil, Grown;
      ghost var h := history;
      assert arrived + [] == arrived;
      match e
      case Arrives(at, port, frame, accepted) =>
        var _ := HandleMessage(port, frame, accepted, at);
        Noted(h, history, 0.0);
      case PortIdle(at) =>
        Refresh(at);
        Noted(h, history, 0.0);
      case FrameSent(at, duration) =>
        if inTransmission {
          var _ := SendSlope(duration, at);
          Noted(h, history, duration);
        }
    }

    // Over any run the class gets no more than the bandwidth reserved for it, up to the debt of
    // one longest frame and one unit of rounding for every gain of credit; frames are released in
    // the order they came in.
    method Run(events: seq<Event>)
      requires Valid() && InTime(events, newTime)
      modifies this
      ensures Valid() && Snap() == After(old(Snap()), events)
      ensures portBandwith as real * TimeSent(history)
           <= reserved as real * (oldTime - start) + Steps(history) as real + Debt() as real
      ensures old(history) <= history && TimeSent(history) == TimeSent(old(history)) + SentIn(old(Snap()), events)
      ensures Steps(history) <= Steps(old(history)) + |events|
      ensures longest == LongestIn(old(longest), old(Snap()), events)
      ensures old(released) <= released && arrived == released + frames == old(arrived) + AcceptedIn(events)
    {
      hide Booked, TimeSent, Steps, Ceil, Next, Taken, Later, Accepted;
      assert arrived + [] == arrived;
      for i := 0 to |events|
        invariant Valid() && forall j :: i <= j < |events| ==> events[j].at >= newTime
        invariant After(old(Snap()), events) == After(Snap(), events[i..])
        invariant TimeSent(old(history)) + SentIn(old(Snap()), events)
            == TimeSent(history) + SentIn(Snap(), events[i..])
        invariant old(history) <= history && Steps(history) <= Steps(old(history)) + i
        invariant LongestIn(old(longest), old(Snap()), events) == LongestIn(longest, Snap(), events[i..])
        invariant old(released) <= released && old(arrived) + AcceptedIn(events) == arrived + AcceptedIn(events[i..])
      {
        ghost var rest := events[i..];
        assert rest[0] == events[i] && rest[1..] == events[i + 1..];
        Step(events[i]);
      }
      Bound();
    }

    lemma Bound()
      requires Valid()
      ensures portBandwith as real * TimeSent(history)
           <= reserved as real * (oldTime - start) + Steps(history) as real + Debt() as real
    {
      BandwidthBound(portBandwith, reserved, start, history, oldTime, credit, Debt());
    }
  }

  // What one event adds to the books.
  lemma Noted(h: seq<Stretch>, h': seq<Stretch>, sent: real)
    requires
      || (h' == h && sent == 0.0)
      || (|h'| == |h| + 1 && h' == h + [h'[|h|]]
          && (if h'[|h|].Sent? then sent == h'[|h|].to - h'[|h|].from else sent == 0.0))
    ensures h <= h' && Steps(h') <= Steps(h) + 1 && TimeSent(h') == TimeSent(h) + sent
  {
    if h' != h { assert h'[..|h'| - 1] == h; }
  }

  // Paying for a frame keeps the books, and the debt within what the longest frame may cost.
  lemma PayingKeeps(port: nat, reserved: nat, start: real, h: seq<Stretch>, until: real, from: real, duration: real,
      credit: int, longest: real)
    requires reserved <= port && Covered(port, reserved, h, credit) && Ordered(start, h, until) && until <= from
    requires duration >= 0.0 && credit >= 0
    ensures var h', c := h + [Sent(from, from + duration)], credit - Ceil((port - reserved) as real * duration);
      && Ordered(start, h', from + duration) && Covered(port, reserved, h', c)
      && c >= -Ceil((port - reserved) as real * if duration > longest then duration else longest)
  {
    hide Ordered, TimeAccrued, TimeSent, Steps, Ceil;
    var s := Sent(from, from + duration);
    OrderedLater(start, h, until, from);
    CoveredSpend(port, reserved, start, h, s, credit);
    OrderedAppend(start, h, s, s.to);
    assert s.to - s.from == duration;
    Larger((port - reserved) as real, duration, if duration > longest then duration else longest);
  }

  lemma Larger(r: real, x: real, y: real)
    requires r >= 0.0 && x <= y
    ensures Ceil(r * x) <= Ceil(r * y)
  {
    Nonnegative(r, y - x);
    assert r * (y - x) == r * y - r * x;
  }

  lemma Rounded(w: real, tick: real, ticks: int)
    requires tick > 0.0 && ticks == Ceil(w / tick)
    ensures ticks as real * tick >= w
  {
    assert (w / tick) * tick == w;
    Nonnegative(ticks as real - w / tick, tick);
  }
}
