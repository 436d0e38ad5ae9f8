/**
 * What a credit-based shaper has to guarantee (section 8.6.8.2 of IEEE 802.1Q): the account
 * of credit gained and spent, and the bandwidth bound that follows from it.
 */
module AVBCredits {

  function Ceil(x: real): (n: int)
    ensures x <= n as real < x + 1.0
  {
    -((0.0 - x).Floor)
  }

  // Stretches of time in which credit was gained, and in which a frame was on the wire.
  datatype Stretch = Accrued(from: real, to: real) | Sent(from: real, to: real)

  function TimeAccrued(h: seq<Stretch>): real {
    if h == [] then 0.0
    else TimeAccrued(h[..|h| - 1]) + if h[|h| - 1].Accrued? then h[|h| - 1].to - h[|h| - 1].from else 0.0
  }

  function TimeSent(h: seq<Stretch>): real {
    if h == [] then 0.0
    else TimeSent(h[..|h| - 1]) + if h[|h| - 1].Sent? then h[|h| - 1].to - h[|h| - 1].from else 0.0
  }

  // How often credit was gained.
  function Steps(h: seq<Stretch>): nat {
    if h == [] then 0 else Steps(h[..|h| - 1]) + if h[|h| - 1].Accrued? then 1 else 0
  }

  // One stretch after the other, none overlapping another, all between start and end.
  ghost predicate Ordered(start: real, h: seq<Stretch>, end: real) {
    if h == [] then start <= end
    else Ordered(start, h[..|h| - 1], h[|h| - 1].from) && h[|h| - 1].from <= h[|h| - 1].to <= end
  }

  lemma {:induction false} OrderedApart(start: real, h: seq<Stretch>, end: real, i: nat, j: nat)
    requires Ordered(start, h, end) && i < j < |h|
    ensures start <= h[i].from <= h[i].to <= h[j].from <= h[j].to <= end
  {
    var t := h[..|h| - 1];
    if j < |h| - 1 {
      OrderedApart(start, t, h[|h| - 1].from, i, j);
      OrderedApart(start, t, h[|h| - 1].from, i, j);
    } else {
      OrderedWithin(start, t, h[j].from, i);
    }
  }

  lemma {:induction false} OrderedWithin(start: real, h: seq<Stretch>, end: real, i: nat)
    requires Ordered(start, h, end) && i < |h|
    ensures start <= h[i].from <= h[i].to <= end
  {
    var t := h[..|h| - 1];
    if i < |h| - 1 {
      OrderedWithin(start, t, h[|h| - 1].from, i);
    } else {
      OrderedSpan(start, t, h[i].from);
    }
  }

  // The stretches together take no more time than there is.
  lemma {:induction false} OrderedSpan(start: real, h: seq<Stretch>, end: real)
    requires Ordered(start, h, end)
    ensures start <= end && TimeAccrued(h) + TimeSent(h) <= end - start
    ensures TimeAccrued(h) >= 0.0 && TimeSent(h) >= 0.0
  {
    if h != [] { OrderedSpan(start, h[..|h| - 1], h[|h| - 1].from); }
  }

  lemma OrderedAppend(start: real, h: seq<Stretch>, s: Stretch, end: real)
    requires Ordered(start, h, s.from) && s.from <= s.to <= end
    ensures Ordered(start, h + [s], end)
    ensures TimeAccrued(h + [s]) == TimeAccrued(h) + if s.Accrued? then s.to - s.from else 0.0
    ensures TimeSent(h + [s]) == TimeSent(h) + if s.Sent? then s.to - s.from else 0.0
    ensures Steps(h + [s]) == Steps(h) + if s.Accrued? then 1 else 0
  {
    assert (h + [s])[..|h + [s]| - 1] == h;
  }

  lemma OrderedLater(start: real, h: seq<Stretch>, end: real, end': real)
    requires Ordered(start, h, end) && end <= end'
    ensures Ordered(start, h, end')
  {
  }

  // The credit is covered by what was gained at the reserved rate, less what was spent at the
  // rest of the port's rate, up to one unit of rounding for every gain.
  ghost predicate Covered(port: nat, reserved: nat, h: seq<Stretch>, credit: int)
    requires reserved <= port
  {
    credit as real <= reserved as real * TimeAccrued(h) + Steps(h) as real - (port - reserved) as real * TimeSent(h)
  }

  lemma CoveredGain(port: nat, reserved: nat, start: real, h: seq<Stretch>, s: Stretch, credit: int)
    requires reserved <= port && Covered(port, reserved, h, credit)
    requires s.Accrued? && Ordered(start, h, s.from) && s.from <= s.to
    ensures Covered(port, reserved, h + [s], credit + Ceil(reserved as real * (s.to - s.from)))
  {
    OrderedAppend(start, h, s, s.to);
    Split(reserved as real, TimeAccrued(h), s.to - s.from);
  }

  lemma CoveredSpend(port: nat, reserved: nat, start: real, h: seq<Stretch>, s: Stretch, credit: int)
    requires reserved <= port && Covered(port, reserved, h, credit)
    requires s.Sent? && Ordered(start, h, s.from) && s.from <= s.to
    ensures Covered(port, reserved, h + [s], credit - Ceil((port - reserved) as real * (s.to - s.from)))
  {
    OrderedAppend(start, h, s, s.to);
    Split((port - reserved) as real, TimeSent(h), s.to - s.from);
  }

  lemma Split(a: real, x: real, y: real)
    ensures a * (x + y) == a * x + a * y
  {
  }

  // The bandwidth bound: what the port sends for this class is what is reserved over the
  // whole time, and beyond that no more than the debt allowed and the rounding.
  lemma BandwidthBound(port: nat, reserved: nat, start: real, h: seq<Stretch>, end: real, credit: int, debt: int)
    requires reserved <= port && Covered(port, reserved, h, credit) && Ordered(start, h, end) && credit >= -debt
    ensures port as real * TimeSent(h) <= reserved as real * (end - start) + Steps(h) as real + debt as real
  {
    OrderedSpan(start, h, end);
    hide TimeSent, TimeAccrued, Steps;
    assert (port - reserved) as real == port as real - reserved as real;
    Combine(port as real, reserved as real, (port - reserved) as real, end - start, TimeAccrued(h), TimeSent(h),
            Steps(h) as real, credit as real, debt as real);
  }

  lemma Combine(p: real, r: real, rest: real, e: real, a: real, s: real, n: real, c: real, debt: real)
    requires r >= 0.0 && a + s <= e && rest == p - r && c <= r * a + n - rest * s && c >= -debt
    ensures p * s <= r * e + n + debt
  {
    Spread(r, e, a, s);
    Spend(p, r, s);
  }

  lemma Spread(r: real, e: real, a: real, s: real)
    requires r >= 0.0 && a + s <= e
    ensures r * a + r * s <= r * e
  {
    assert r * e - (r * a + r * s) == r * (e - a - s);
    Nonnegative(r, e - a - s);
  }

  lemma Nonnegative(x: real, y: real)
    requires x >= 0.0 && y >= 0.0
    ensures x * y >= 0.0
  {
  }

  lemma Spend(p: real, r: real, s: real)
    ensures (p - r) * s == p * s - r * s
  {
  }

  // The wait for a debt to be paid back is long enough.
  lemma WaitSuffices(reserved: nat, credit: int, tick: real, ticks: int)
    requires reserved > 0 && credit < 0 && tick > 0.0 && ticks as real * tick >= (-credit) as real / reserved as real
    ensures credit + Ceil(reserved as real * (ticks as real * tick)) >= 0
  {
    var r, w := reserved as real, ticks as real * tick;
    assert r * w >= r * ((-credit) as real / r) == (-credit) as real;
  }
}
