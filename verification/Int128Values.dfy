/**
 * The 128-bit signed integer kept as two words, low word unsigned and high word signed:
 * its operators word by word, and what they come to on the integers.
 */
module Int128Values {
  import opened Basics
  import opened Int128Words

  // ---------- the operators that are expressions ----------

  datatype Words = Words(lo: uint64, hi: int64)

  function ValueOf(w: Words): int { w.hi * TWO_64 + w.lo }

  const MIN_WORDS := Words(0, -TWO_63)

  predicate IsZero(w: Words) { !(w.hi != 0 || w.lo != 0) }

  // The high word of the least value has no negative.
  function Negated(w: Words): Words
    requires w != MIN_WORDS
  {
    if w.lo == 0 then Words(0, 0 - w.hi) else Words(U64(0 - w.lo), -1 - w.hi)
  }

  predicate LessThan(a: Words, b: Words) {
    if a.hi == b.hi then
      if a.hi < 0 then S64(a.lo) < S64(b.lo) else a.lo < b.lo
    else a.hi < b.hi
  }

  predicate TestBit(w: Words, n: nat) {
    if n >= 128 then w.hi < 0
    else if n < 64 then And(w.lo, U64(Pow2(n))) != 0
    else And(U64(w.hi), U64(Pow2(n - 64))) != 0
  }

  lemma ValueRange(w: Words)
    ensures -TWO_127 <= ValueOf(w) < TWO_127
  {
  }

  lemma ValueInjective(a: Words, b: Words)
    requires ValueOf(a) == ValueOf(b)
    ensures a == b
  {
  }

  lemma NegatedValue(w: Words)
    requires w != MIN_WORDS
    ensures ValueOf(Negated(w)) == -ValueOf(w)
  {
  }

  // The comparison is right except between negatives with one high word whose low words
  // lie on different sides of the middle: those it always gets wrong.
  lemma LessThanExactly(a: Words, b: Words)
    ensures (LessThan(a, b) <==> ValueOf(a) < ValueOf(b))
       <==> !(a.hi == b.hi < 0 && (a.lo < TWO_63) != (b.lo < TWO_63))
  {
  }

  // For example -2^64 is less than -1, and the other way about by the operator.
  lemma LessThanWrong()
    ensures var a, b := Words(0, -1), Words(TWO_64 - 1, -1);
      ValueOf(a) < ValueOf(b) && !LessThan(a, b) && LessThan(b, a)
  {
  }

  // Among non-negatives, and against zero, it is right.
  lemma LessThanRight(a: Words, b: Words)
    requires b == Words(0, 0) || (a.hi >= 0 && b.hi >= 0)
    ensures LessThan(a, b) <==> ValueOf(a) < ValueOf(b)
  {
  }

  lemma LessThanMagnitude(a: Words, b: Words)
    requires ValueOf(a) >= 0 && b.hi >= 0
    ensures LessThan(a, b) <==> ValueOf(a) < ValueOf(b)
  {
  }

  lemma MagnitudeRange(w: Words)
    ensures w.hi >= 0 ==> 0 <= ValueOf(w) < TWO_127
  {
  }

  lemma TestBitValue(w: Words, n: nat)
    requires n < 128
    ensures TestBit(w, n) <==> Bit(ValueOf(w), n)
  {
    hide And, Pow2, Bit;
    if n < 64 {
      WordBit(w.lo, n);
      LowBit(w, n);
    } else {
      WordBit(U64(w.hi), n - 64);
      HighBit(w, n);
    }
  }

  lemma WordBit(x: uint64, n: nat)
    requires n < 64
    ensures And(x, U64(Pow2(n))) != 0 <==> Bit(x, n)
  {
    hide Pow2, And, Bit;
    Pow2Words();
    Pow2Less(n, 64);
    AndBit(x, n);
  }

  lemma LowBit(w: Words, n: nat)
    requires n < 64
    ensures Bit(w.lo, n) <==> Bit(ValueOf(w), n)
  {
    Pow2Words();
    BitPeriodic(w.lo, w.hi, n, 64);
  }

  lemma HighBit(w: Words, n: nat)
    requires 64 <= n < 128
    ensures Bit(U64(w.hi), n - 64) <==> Bit(ValueOf(w), n)
  {
    hide Pow2, Bit;
    Pow2Words();
    BitPeriodic(w.hi, if w.hi < 0 then 1 else 0, n - 64, 64);
    InInt64(w.hi);
    BitOfHigh(w, n);
  }

  lemma BitOfHigh(w: Words, n: nat)
    requires 64 <= n < 128
    ensures Bit(w.hi, n - 64) <==> Bit(ValueOf(w), n)
  {
    hide Pow2;
    Pow2Words();
    Pow2Sum(64, n - 64);
    DivDiv(ValueOf(w), TWO_64, Pow2(n - 64));
    DivUnique(ValueOf(w), TWO_64, w.hi, w.lo);
  }

  // ---------- shifts, word by word ----------

  function ShiftedLeft(w: Words, n: nat): Words {
    if n >= 128 then Words(0, 0)
    else if n >= 64 then Words(0, S64(Shl(w.lo, n - 64)))
    else if n > 0 then Words(U64(Shl(w.lo, n)), S64(Or(U64(Shl(w.hi, n)), LeftCarry(w.lo, n))))
    else w
  }

  // The bits that leave the low word on the left.
  function LeftCarry(lo: uint64, n: nat): nat
    requires 0 < n < 64
  {
    Shr(And(lo, U64(0 - Pow2(64 - n))), 64 - n)
  }

  function ShiftedRight(w: Words, n: nat): Words {
    if n >= 128 then Words(if w.hi < 0 then TWO_64 - 1 else 0, if w.hi < 0 then -1 else 0)
    else if n >= 64 then Words(U64(Shr(w.hi, n - 64)), if w.hi < 0 then -1 else 0)
    else if n > 0 then Words(U64(Or(Shr(w.lo, n), RightCarry(w.hi, n))), S64(Shr(w.hi, n)))
    else w
  }

  // The bits that leave the high word on the right.
  function RightCarry(hi: int64, n: nat): uint64
    requires 0 < n < 64
  {
    U64(Shl(And(U64(hi), Pow2(n) - 1), 64 - n))
  }

  // A left shift multiplies, modulo 2^128.
  lemma ShiftedLeftValue(w: Words, n: nat)
    ensures ValueOf(ShiftedLeft(w, n)) == Wrap(ValueOf(w) * Pow2(n))
  {
    if n >= 128 {
      LeftAll(ValueOf(w), n);
    } else if n >= 64 {
      LeftLong(w, n);
    } else if n > 0 {
      LeftShort(w, n);
    } else {
      ValueRange(w);
      assert Pow2(0) == 1;
    }
  }

  lemma LeftAll(v: int, n: nat)
    requires n >= 128
    ensures Wrap(v * Pow2(n)) == 0
  {
    Pow2Sum(128, n - 128);
    Pow2Words();
    Regrouped(v, TWO_128, Pow2(n - 128));
    WrapCongruent(v * Pow2(n), 0, v * Pow2(n - 128));
  }

  lemma LeftLong(w: Words, n: nat)
    requires 64 <= n < 128
    ensures S64(Shl(w.lo, n - 64)) * TWO_64 == Wrap(ValueOf(w) * Pow2(n))
  {
    hide Pow2, Wrap;
    var p := Pow2(n - 64);
    Pow2Sum(64, n - 64);
    Pow2Words();
    LongProduct(w.hi, w.lo, p);
    WrapCongruent(ValueOf(w) * Pow2(n), (w.lo * p) * TWO_64, w.hi * p);
    HighWord(w.lo * p, 0);
  }

  lemma LongProduct(hi: int, lo: int, p: int)
    ensures (hi * TWO_64 + lo) * (TWO_64 * p) == (lo * p) * TWO_64 + (hi * p) * TWO_128
  {
    Distribute(hi * TWO_64, lo, TWO_64 * p);
    assert (hi * TWO_64) * (TWO_64 * p) == (hi * p) * TWO_128;
  }

  lemma Distribute(a: int, b: int, c: int)
    ensures (a + b) * c == a * c + b * c
  {
  }

  // A value in two words, the high one wrapped.
  lemma HighWord(h: int, l: uint64)
    ensures S64(h) * TWO_64 + l == Wrap(h * TWO_64 + l)
  {
    var k := (S64(h) - h) / TWO_64;
    assert S64(h) == h + k * TWO_64;
    WrapCongruent(S64(h) * TWO_64 + l, h * TWO_64 + l, k);
    ValueRange(Words(l, S64(h)));
  }

  lemma LeftCarryValue(lo: uint64, n: nat)
    requires 0 < n < 64
    ensures LeftCarry(lo, n) == lo / Pow2(64 - n) && LeftCarry(lo, n) < Pow2(n)
  {
    hide Pow2, And;
    var q := Pow2(64 - n);
    Pow2Word(n);
    Pow2Words();
    Pow2Less(64 - n, 64);
    AndHigh(lo, 64, 64 - n);
    NegativeWord(q);
    DivMod(lo, q);
    DivUnique(lo - lo % q, q, lo / q, 0);
    QuotientLess(lo, Pow2(n), q);
  }

  lemma NegativeWord(q: int)
    requires 0 < q < TWO_64
    ensures U64(0 - q) == TWO_64 - q
  {
  }

  lemma QuotientLess(x: nat, p: int, q: int)
    requires p > 0 && q > 0 && x < p * q
    ensures x / q < p
  {
    DivMod(x, q);
    if x / q >= p { MulMono(p, x / q, q); }
  }

  lemma LeftShort(w: Words, n: nat)
    requires 0 < n < 64
    ensures ValueOf(ShiftedLeft(w, n)) == Wrap(ValueOf(w) * Pow2(n))
  {
    hide Pow2, Wrap, Or, And;
    var p, q := Pow2(n), Pow2(64 - n);
    Pow2Word(n);
    LeftCarryValue(w.lo, n);
    LeftLow(w.lo, p, q);
    LeftHigh(w.hi, n, w.lo / q);
    ShortProduct(w.hi, w.lo, p, q);
    HighWord(w.hi * p + w.lo / q, (w.lo % q) * p);
  }

  lemma ShortProduct(hi: int, lo: int, p: int, q: int)
    requires p > 0 && q > 0 && p * q == TWO_64
    ensures (hi * TWO_64 + lo) * p == (hi * p + lo / q) * TWO_64 + (lo % q) * p
  {
    var c, r := lo / q, lo % q;
    DivMod(lo, q);
    Distribute(hi * TWO_64, lo, p);
    Distribute(c * q, r, p);
    Regrouped(c, p, q);
    assert (c * q) * p == c * TWO_64;
  }

  lemma LeftLow(lo: uint64, p: int, q: int)
    requires p > 0 && q > 0 && p * q == TWO_64
    ensures U64(lo * p) == (lo % q) * p && 0 <= (lo % q) * p < TWO_64
  {
    DivMod(lo, q);
    var c, r := lo / q, lo % q;
    assert (c * q + r) * p == c * (p * q) + r * p;
    MulMono(r, q - 1, p);
    assert (q - 1) * p == TWO_64 - p;
    DivUnique(lo * p, TWO_64, c, r * p);
  }

  lemma LeftHigh(hi: int64, n: nat, c: nat)
    requires 0 < n < 64 && c < Pow2(n)
    ensures S64(Or(U64(Shl(hi, n)), c)) == S64(hi * Pow2(n) + c)
  {
    var p, q := Pow2(n), Pow2(64 - n);
    Pow2Word(n);
    var x := hi * p;
    DivMod(x, TWO_64);
    var k := x / TWO_64;
    assert U64(x) == (hi - k * q) * p by {
      assert (hi - k * q) * p == hi * p - k * (p * q);
    }
    DivUnique(U64(x), p, hi - k * q, 0);
    OrDisjoint(U64(x), c, n);
    AddMultiple(U64(x) + c, k, TWO_64);
  }

  // A right shift divides, rounding down.
  lemma ShiftedRightValue(w: Words, n: nat)
    ensures ValueOf(ShiftedRight(w, n)) == ValueOf(w) / Pow2(n)
  {
    if n >= 128 {
      RightAll(w, n);
    } else if n >= 64 {
      RightLong(w, n);
    } else if n > 0 {
      RightShort(w, n);
    }
  }

  lemma RightAll(w: Words, n: nat)
    requires n >= 128
    ensures ValueOf(w) / Pow2(n) == if w.hi < 0 then -1 else 0
  {
    hide Pow2;
    Pow2Words();
    if n > 128 { Pow2Less(128, n); }
    DivUnique(ValueOf(w), Pow2(n), if w.hi < 0 then -1 else 0, if w.hi < 0 then ValueOf(w) + Pow2(n) else ValueOf(w));
  }

  lemma RightLong(w: Words, n: nat)
    requires 64 <= n < 128
    ensures ValueOf(ShiftedRight(w, n)) == ValueOf(w) / Pow2(n)
  {
    hide Pow2;
    var p := Pow2(n - 64);
    Pow2Sum(64, n - 64);
    Pow2Words();
    DivDiv(ValueOf(w), TWO_64, p);
    DivUnique(ValueOf(w), TWO_64, w.hi, w.lo);
    ShrinkInt64(w.hi, p);
    InInt64(w.hi / p);
  }

  lemma ShrinkInt64(h: int64, p: int)
    requires p > 0
    ensures -TWO_63 <= h / p < TWO_63 && (h / p < 0 <==> h < 0)
  {
    DivMod(h, p);
    if h >= 0 {
      QuotientSign(h, p);
      ScaleUp(h / p, p);
    } else {
      QuotientSign(h, p);
      ScaleUp(-(h / p) - 1, p);
    }
  }

  lemma ScaleUp(k: int, p: int)
    requires k >= 0 && p > 0
    ensures k * p >= k
  {
    assert k * (p - 1) >= 0;
  }

  lemma RightCarryValue(hi: int64, n: nat)
    requires 0 < n < 64
    ensures RightCarry(hi, n) == (hi % Pow2(n)) * Pow2(64 - n)
  {
    hide Pow2, And, U64;
    var p, q := Pow2(n), Pow2(64 - n);
    Pow2Word(n);
    AndLow(U64(hi), n);
    WordMod(hi, p, q);
    CarryFits(hi % p, p, q);
  }

  lemma WordMod(hi: int64, p: int, q: int)
    requires p > 0 && p * q == TWO_64
    ensures U64(hi) % p == hi % p
  {
    InInt64(hi);
    if hi < 0 { AddMultiple(hi, q, p); }
  }

  lemma CarryFits(b: int, p: int, q: int)
    requires 0 <= b < p && q > 0 && p * q == TWO_64
    ensures U64(b * q) == b * q
  {
    MulMono(b, p - 1, q);
    Distribute(p, -1, q);
  }

  lemma RightShort(w: Words, n: nat)
    requires 0 < n < 64
    ensures ValueOf(ShiftedRight(w, n)) == ValueOf(w) / Pow2(n)
  {
    hide Pow2, Or, And, S64, U64;
    var p, q := Pow2(n), Pow2(64 - n);
    Pow2Word(n);
    RightCarryValue(w.hi, n);
    DivMod(w.hi, p);
    InInt64(w.hi / p);
    QuotientLess(w.lo, q, p);
    RightUnion(w.lo / p, w.hi % p, n);
    ShrinkInt64(w.hi, p);
    RightProduct(w.hi, w.lo, p, q);
  }

  lemma InInt64(x: int)
    ensures -TWO_63 <= x < TWO_63 ==> S64(x) == x
    ensures -TWO_63 <= x < 0 ==> U64(x) == x + TWO_64
  {
  }

  lemma RightProduct(hi: int, lo: int, p: int, q: int)
    requires p > 0 && p * q == TWO_64
    ensures (hi * TWO_64 + lo) / p == (hi / p) * TWO_64 + ((hi % p) * q + lo / p)
  {
    var a, b, c, r := hi / p, hi % p, lo / p, lo % p;
    DivMod(hi, p);
    DivMod(lo, p);
    RightSum(a, b, c, p, q);
    DivUnique(hi * TWO_64 + lo, p, a * TWO_64 + (b * q + c), r);
  }

  lemma RightSum(a: int, b: int, c: int, p: int, q: int)
    requires p * q == TWO_64
    ensures (a * TWO_64 + (b * q + c)) * p == (a * p + b) * TWO_64 + c * p
  {
    Distribute(a * TWO_64, b * q + c, p);
    Distribute(b * q, c, p);
    Regrouped(b, p, q);
  }

  lemma RightUnion(c: nat, b: nat, n: nat)
    requires 0 < n < 64 && b < Pow2(n) && c < Pow2(64 - n)
    ensures U64(Or(c, b * Pow2(64 - n))) == b * Pow2(64 - n) + c
  {
    hide Pow2, Or;
    var p, q := Pow2(n), Pow2(64 - n);
    Pow2Word(n);
    MulMono(b, p - 1, q);
    Distribute(p, -1, q);
    DivUnique(b * q, q, b, 0);
    OrDisjoint(b * q, c, 64 - n);
  }

  // ---------- setting a bit ----------

  function WithBit(w: Words, n: nat, val: bool): Words {
    if n >= 128 then w
    else if n < 64 then w.(lo := WordWithBit(w.lo, n, val))
    else w.(hi := S64(WordWithBit(U64(w.hi), n - 64, val)))
  }

  function WordWithBit(x: uint64, n: nat, val: bool): uint64
    requires n < 64
  {
    if val then U64(Or(x, U64(Pow2(n)))) else And64(x, U64(TWO_64 - 1 - U64(Pow2(n))))
  }

  function And64(x: uint64, y: uint64): uint64 { U64(And(x, y)) }

  lemma WordWithBitValue(x: uint64, n: nat, val: bool)
    requires n < 64
    ensures WordWithBit(x, n, val) == if Bit(x, n) == val then x else if val then x + Pow2(n) else x - Pow2(n)
  {
    hide Pow2, And, Or, Bit;
    Pow2Words();
    Pow2Less(n, 64);
    if val {
      OrBit(x, n);
      if !Bit(x, n) { RoomForBit(x, n); }
    } else {
      ClearedBit(x, n);
    }
  }

  lemma ClearedBit(x: uint64, n: nat)
    requires n < 64
    ensures And64(x, U64(TWO_64 - 1 - U64(Pow2(n)))) == if Bit(x, n) then x - Pow2(n) else x
  {
    hide Pow2, And, Bit;
    Pow2Words();
    AndNotBit(x, 64, n);
    if Bit(x, n) { BitPresent(x, n); }
  }

  lemma BitPresent(x: nat, n: nat)
    requires Bit(x, n)
    ensures x >= Pow2(n)
  {
    if x < Pow2(n) { SmallMod(x, Pow2(n)); }
  }

  // A word with a clear bit has room for it.
  lemma RoomForBit(x: uint64, n: nat)
    requires n < 64 && !Bit(x, n)
    ensures x + Pow2(n) < TWO_64
  {
    var p, q := Pow2(n), Pow2(64 - n);
    Pow2Word(n);
    HalfPow2(64 - n);
    QuotientLess(x, q, p);
    Room(x, p, q);
  }

  lemma Room(x: int, p: int, q: int)
    requires p > 0 && 0 <= x && x / p < q && q % 2 == 0 && (x / p) % 2 == 0
    ensures x + p < p * q
  {
    DivMod(x, p);
    assert x / p + 2 <= q;
    MulMono(x / p + 2, q, p);
    Distribute(x / p, 2, p);
  }

  // Setting or clearing a bit adds or takes its weight, if it was not so already.
  lemma WithBitValue(w: Words, n: nat, val: bool)
    requires n < 127
    ensures ValueOf(WithBit(w, n, val)) == ValueOf(w) + if Bit(ValueOf(w), n) == val then 0 else
        if val then Pow2(n) else -Pow2(n)
  {
    hide Pow2, And, Or, Bit, S64, U64, WordWithBit;
    if n < 64 {
      LowBit(w, n);
      WordWithBitValue(w.lo, n, val);
    } else {
      HighBit(w, n);
      WithHighBit(w.hi, n - 64, val);
      Pow2Sum(64, n - 64);
      Pow2Words();
    }
  }

  // The top bit is the sign.
  lemma SignBitValue(w: Words, val: bool)
    ensures ValueOf(WithBit(w, 127, val)) == ValueOf(w) + if Bit(ValueOf(w), 127) == val then 0 else
        if val then -TWO_127 else TWO_127
  {
    hide And, Or, Bit, WordWithBit, Pow2;
    HighBit(w, 127);
    WordWithBitValue(U64(w.hi), 63, val);
    Pow2Words();
    TopBit(U64(w.hi));
  }

  lemma TopBit(x: uint64)
    ensures Bit(x, 63) <==> x >= TWO_63
  {
    Pow2Words();
  }

  lemma WithHighBit(h: int64, n: nat, val: bool)
    requires n < 63
    ensures S64(WordWithBit(U64(h), n, val)) == if Bit(U64(h), n) == val then h else
        if val then h + Pow2(n) else h - Pow2(n)
  {
    hide Pow2, Bit, WordWithBit;
    WordWithBitValue(U64(h), n, val);
    SignKept(h, n, val);
  }

  lemma SignKept(h: int64, n: nat, val: bool)
    requires n < 63
    ensures var p := Pow2(n); Bit(U64(h), n) != val ==>
        S64(if val then U64(h) + p else U64(h) - p) == if val then h + p else h - p
  {
    hide Bit, Pow2;
    if Bit(U64(h), n) != val { HalfRoom(U64(h), n, val); }
  }

  // A bit below the top one does not carry into it.
  lemma HalfRoom(x: uint64, n: nat, val: bool)
    requires n < 63 && Bit(x, n) != val
    ensures x < TWO_63 <==> (if val then x + Pow2(n) else x - Pow2(n)) < TWO_63
    ensures 0 <= (if val then x + Pow2(n) else x - Pow2(n)) < TWO_64
  {
    hide Pow2;
    var p, q := Pow2(n), Pow2(63 - n);
    Pow2Sum(n, 63 - n);
    Pow2Words();
    HalfPow2(63 - n);
    DivMod(x, p);
    Halves(x / p, x % p, p, q, val);
  }

  lemma Halves(a: int, r: int, p: int, q: int, val: bool)
    requires p > 0 && 0 <= r < p && q > 0 && q % 2 == 0 && (a % 2 == 1) != val && 0 <= a * p + r < 2 * (p * q)
    ensures a * p + r < p * q <==> (if val then a * p + r + p else a * p + r - p) < p * q
    ensures 0 <= (if val then a * p + r + p else a * p + r - p) < 2 * (p * q)
  {
    var b := if val then a + 1 else a - 1;
    Below(a, r, p, q);
    Below(b, r, p, q);
    Below(a, r, p, 2 * q);
    Below(b, r, p, 2 * q);
    Below(a, r, p, 0);
    Below(b, r, p, 0);
    Regrouped(2, p, q);
    Distribute(a, b - a, p);
  }

  lemma Below(a: int, r: int, p: int, q: int)
    requires p > 0 && 0 <= r < p
    ensures a * p + r < p * q <==> a < q
  {
    if a < q {
      MulAtLeast(q - a, p);
      Distribute(q, -a, p);
    } else {
      MulNonnegative(a - q, p);
      Distribute(a, -q, p);
    }
  }

  lemma MulNonnegative(a: int, p: int)
    requires a >= 0 && p >= 0
    ensures a * p >= 0
  {
  }
}
