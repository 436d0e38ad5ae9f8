/**
 * Sixty-four bit words, signed and not, and their bitwise operations on naturals:
 * what masks, shifts and disjoint unions of bits come to in arithmetic.
 */
module Int128Words {
  import opened Basics

  const TWO_32: int := 0x1_0000_0000
  const TWO_63: int := 0x8000_0000_0000_0000
  const TWO_64: int := 0x1_0000_0000_0000_0000
  const TWO_127: int := 0x8000_0000_0000_0000_0000_0000_0000_0000
  const TWO_128: int := 0x1_0000_0000_0000_0000_0000_0000_0000_0000

  type uint64 = x: int | 0 <= x < TWO_64
  type int64 = x: int | -TWO_63 <= x < TWO_63

  // Conversions wrap around.
  function U64(x: int): uint64 { x % TWO_64 }

  function S64(x: int): int64 { if x % TWO_64 < TWO_63 then x % TWO_64 else x % TWO_64 - TWO_64 }

  // The 128-bit value congruent to x.
  function Wrap(x: int): (r: int)
    ensures -TWO_127 <= r < TWO_127 && (r - x) % TWO_128 == 0
    ensures -TWO_127 <= x < TWO_127 ==> r == x
  {
    if x % TWO_128 < TWO_127 then x % TWO_128 else x % TWO_128 - TWO_128
  }

  lemma WrapCongruent(x: int, y: int, k: int)
    requires x == y + k * TWO_128
    ensures Wrap(x) == Wrap(y)
  {
  }

  // Addition may wrap at any stage.
  lemma WrapAdd(x: int, y: int)
    ensures Wrap(Wrap(x) + Wrap(y)) == Wrap(x + y)
  {
    var j, k := (Wrap(x) - x) / TWO_128, (Wrap(y) - y) / TWO_128;
    WrapCongruent(Wrap(x) + Wrap(y), x + y, j + k);
  }

  lemma WrapMul(x: int, y: int)
    ensures Wrap(Wrap(x) * y) == Wrap(x * y)
  {
    var k := (Wrap(x) - x) / TWO_128;
    assert Wrap(x) * y == x * y + (k * y) * TWO_128 by {
      assert Wrap(x) == x + k * TWO_128;
      assert (x + k * TWO_128) * y == x * y + (k * y) * TWO_128;
    }
    WrapCongruent(Wrap(x) * y, x * y, k * y);
  }

  // ---------- powers of two ----------

  lemma {:induction false} Pow2Sum(a: nat, b: nat)
    ensures Pow2(a + b) == Pow2(a) * Pow2(b)
  {
    if a > 0 {
      Pow2Sum(a - 1, b);
    }
  }

  lemma Pow2Words()
    ensures Pow2(8) == 256 && Pow2(32) == TWO_32 && Pow2(63) == TWO_63 && Pow2(64) == TWO_64
    ensures Pow2(127) == TWO_127 && Pow2(128) == TWO_128
  {
    assert Pow2(8) == 256;
    Pow2Square(8, 256);
    Pow2Square(16, 0x1_0000);
    Pow2Square(32, TWO_32);
    Pow2Square(64, TWO_64);
    Pow2Half(64);
    Pow2Half(128);
  }

  lemma Pow2Square(n: nat, p: int)
    requires Pow2(n) == p
    ensures Pow2(n + n) == p * p
  {
    Pow2Sum(n, n);
  }

  lemma Pow2Half(n: nat)
    requires n > 0
    ensures Pow2(n) == 2 * Pow2(n - 1)
  {
  }

  lemma Pow2Word(n: nat)
    requires n <= 64
    ensures Pow2(n) * Pow2(64 - n) == TWO_64
  {
    Pow2Sum(n, 64 - n);
    Pow2Words();
  }

  function Shl(x: int, n: nat): int { x * Pow2(n) }

  // Rounds down.
  function Shr(x: int, n: nat): (r: int)
    ensures x >= 0 ==> r >= 0
  {
    QuotientSign(x, Pow2(n));
    x / Pow2(n)
  }

  lemma QuotientSign(x: int, p: int)
    requires p > 0
    ensures x / p < 0 <==> x < 0
  {
  }

  // ---------- division ----------

  lemma DivMod(x: int, p: int)
    requires p > 0
    ensures x == (x / p) * p + x % p && 0 <= x % p < p
  {
  }

  // The quotient is the one number that leaves a remainder in range.
  lemma DivUnique(x: int, p: int, q: int, r: int)
    requires p > 0 && x == q * p + r && 0 <= r < p
    ensures x / p == q && x % p == r
  {
    DivMod(x, p);
    assert (x / p - q) * p == r - x % p;
    if x / p - q >= 1 {
      MulAtLeast(x / p - q, p);
    } else if x / p - q <= -1 {
      MulAtLeast(q - x / p, p);
    }
  }

  lemma MulAtLeast(k: int, p: int)
    requires k >= 1 && p >= 0
    ensures k * p >= p
  {
    assert (k - 1) * p >= 0;
  }

  lemma DivDiv(x: int, p: int, q: int)
    requires p > 0 && q > 0
    ensures p * q > 0 && x / (p * q) == (x / p) / q
  {
    DivMod(x, p);
    DivMod(x / p, q);
    var a, b := x / p / q, x / p % q;
    assert x == (a * q + b) * p + x % p;
    assert (a * q + b) * p == a * (p * q) + b * p;
    assert 0 <= b * p <= (q - 1) * p by { MulMono(b, q - 1, p); }
    assert (q - 1) * p + p == p * q;
    DivUnique(x, p * q, a, b * p + x % p);
  }

  lemma MulMono(a: int, b: int, p: int)
    requires 0 <= a <= b && p >= 0
    ensures 0 <= a * p <= b * p
  {
    assert (b - a) * p >= 0;
  }

  // ---------- bits ----------

  function And(a: nat, b: nat): nat
    decreases a
  {
    if a == 0 || b == 0 then 0 else 2 * And(a / 2, b / 2) + (if a % 2 == 1 && b % 2 == 1 then 1 else 0)
  }

  function Or(a: nat, b: nat): nat
    decreases a
  {
    if a == 0 then b
    else if b == 0 then a
    else 2 * Or(a / 2, b / 2) + (if a % 2 == 1 || b % 2 == 1 then 1 else 0)
  }

  predicate Bit(x: int, n: nat) { (x / Pow2(n)) % 2 == 1 }

  // Adding a multiple of a higher power leaves a bit alone.
  lemma BitPeriodic(x: int, c: int, n: nat, m: nat)
    requires n < m
    ensures Bit(x + c * Pow2(m), n) <==> Bit(x, n)
  {
    Pow2Sum(n, m - n);
    HalfPow2(m - n);
    Periodic(x, c, Pow2(n), Pow2(m - n));
  }

  lemma Periodic(x: int, c: int, p: int, q: int)
    requires p > 0 && q % 2 == 0
    ensures ((x + c * (p * q)) / p) % 2 == (x / p) % 2
  {
    var k := c * q;
    EvenProduct(c, q);
    Regrouped(c, p, q);
    AddMultiple(x, k, p);
    EvenShift(x / p, k);
  }

  lemma EvenShift(a: int, k: int)
    requires k % 2 == 0
    ensures (a + k) % 2 == a % 2
  {
  }

  lemma Regrouped(a: int, b: int, c: int)
    ensures a * (b * c) == (a * c) * b == (a * b) * c
  {
  }

  lemma AddMultiple(x: int, k: int, p: int)
    requires p > 0
    ensures (x + k * p) / p == x / p + k && (x + k * p) % p == x % p
  {
    DivMod(x, p);
    assert (x / p + k) * p == (x / p) * p + k * p;
    DivUnique(x + k * p, p, x / p + k, x % p);
  }

  lemma EvenProduct(a: int, b: int)
    requires b % 2 == 0
    ensures (a * b) % 2 == 0
  {
    assert a * b == (a * (b / 2)) * 2;
  }

  lemma HalfPow2(n: nat)
    requires n > 0
    ensures Pow2(n) / 2 == Pow2(n - 1) && (Pow2(n) - 1) / 2 == Pow2(n - 1) - 1 && Pow2(n) % 2 == 0
        && (Pow2(n) - 1) % 2 == 1
  {
  }

  // Masking the low bits is taking the remainder.
  lemma {:induction false} AndLow(x: nat, n: nat)
    ensures And(x, Pow2(n) - 1) == x % Pow2(n)
    decreases n
  {
    if n > 0 {
      HalfPow2(n);
      AndLow(x / 2, n - 1);
      ModTwice(x, Pow2(n - 1));
    }
  }

  lemma ModTwice(x: int, p: int)
    requires p > 0
    ensures x % (2 * p) == 2 * ((x / 2) % p) + x % 2
    ensures x / (2 * p) == (x / 2) / p
  {
    DivMod(x / 2, p);
    var a := (x / 2) / p;
    assert x == a * (2 * p) + (2 * ((x / 2) % p) + x % 2) by {
      assert x == 2 * (x / 2) + x % 2;
      assert 2 * (a * p) == a * (2 * p);
    }
    DivUnique(x, 2 * p, a, 2 * ((x / 2) % p) + x % 2);
  }

  // Masking the high bits of a word is taking the remainder off.
  lemma {:induction false} AndHigh(x: nat, w: nat, n: nat)
    requires n <= w && x < Pow2(w)
    ensures Pow2(n) <= Pow2(w)
    ensures And(x, Pow2(w) - Pow2(n)) == x - x % Pow2(n)
    decreases w
  {
    assert Pow2(0) == 1;
    hide And, Pow2;
    if n < w { Pow2Less(n, w); }
    if n == 0 {
      AndLow(x, w);
      SmallMod(x, Pow2(w));
    } else if n == w {
      SmallMod(x, Pow2(w));
      AndNothing(x);
    } else {
      HighHalf(x, w, n);
      AndHigh(x / 2, w - 1, n - 1);
      ModTwice(x, Pow2(n - 1));
      AndStep(x, Pow2(w) - Pow2(n));
    }
  }

  lemma HighHalf(x: nat, w: nat, n: nat)
    requires 0 < n < w && x < Pow2(w)
    ensures Pow2(n) == 2 * Pow2(n - 1) && x / 2 < Pow2(w - 1)
    ensures (Pow2(w) - Pow2(n)) / 2 == Pow2(w - 1) - Pow2(n - 1) && (Pow2(w) - Pow2(n)) % 2 == 0
  {
  }

  lemma AndNothing(a: nat)
    ensures And(a, 0) == 0
  {
  }

  lemma AndStep(a: nat, b: nat)
    ensures And(a, b) == 2 * And(a / 2, b / 2) + (if a % 2 == 1 && b % 2 == 1 then 1 else 0)
  {
  }

  lemma SmallMod(x: int, p: int)
    requires 0 <= x < p
    ensures x % p == x && x / p == 0
  {
  }

  lemma {:induction false} Pow2Less(a: nat, b: nat)
    requires a < b
    ensures Pow2(a) < Pow2(b)
    decreases b
  {
    if a < b - 1 { Pow2Less(a, b - 1); }
  }

  // The union of disjoint bits is the sum.
  lemma {:induction false} OrDisjoint(a: nat, b: nat, n: nat)
    requires a % Pow2(n) == 0 && b < Pow2(n)
    ensures Or(a, b) == a + b && Or(b, a) == a + b
    decreases n
  {
    if n > 0 {
      ModTwice(a, Pow2(n - 1));
      OrDisjoint(a / 2, b / 2, n - 1);
    }
  }

  // Testing one bit.
  lemma {:induction false} AndBit(x: nat, n: nat)
    ensures And(x, Pow2(n)) == if Bit(x, n) then Pow2(n) else 0
    decreases n
  {
    if n == 0 {
      assert And(x / 2, 0) == 0;
    } else {
      HalfPow2(n);
      AndBit(x / 2, n - 1);
      ModTwice(x, Pow2(n - 1));
    }
  }

  // Setting one bit.
  lemma {:induction false} OrBit(x: nat, n: nat)
    ensures Or(x, Pow2(n)) == if Bit(x, n) then x else x + Pow2(n)
    decreases n
  {
    if n == 0 {
      if x > 0 { assert Or(x / 2, 0) == x / 2; }
    } else {
      HalfPow2(n);
      OrBit(x / 2, n - 1);
      ModTwice(x, Pow2(n - 1));
    }
  }

  // Clearing one bit of a word.
  lemma {:induction false} AndNotBit(x: nat, w: nat, n: nat)
    requires n < w && x < Pow2(w)
    ensures Pow2(n) < Pow2(w) && And(x, Pow2(w) - 1 - Pow2(n)) == if Bit(x, n) then x - Pow2(n) else x
    decreases w
  {
    hide And, Bit;
    Pow2Less(n, w);
    NotBitHalf(x, w, n);
    AndStep(x, Pow2(w) - 1 - Pow2(n));
    BitHalf(x, n);
    if n == 0 {
      AndLow(x / 2, w - 1);
      SmallMod(x / 2, Pow2(w - 1));
    } else {
      AndNotBit(x / 2, w - 1, n - 1);
    }
  }

  lemma BitHalf(x: nat, n: nat)
    ensures Bit(x, n) <==> if n == 0 then x % 2 == 1 else Bit(x / 2, n - 1)
  {
    if n > 0 { ModTwice(x, Pow2(n - 1)); }
  }

  lemma NotBitHalf(x: nat, w: nat, n: nat)
    requires n < w && x < Pow2(w) && Pow2(n) < Pow2(w)
    ensures x / 2 < Pow2(w - 1)
    ensures var m := Pow2(w) - 1 - Pow2(n);
      if n == 0 then m / 2 == Pow2(w - 1) - 1 && m % 2 == 0
      else m / 2 == Pow2(w - 1) - 1 - Pow2(n - 1) && m % 2 == 1
  {
    HalfPow2(w);
    if n > 0 { HalfPow2(n); }
    hide Pow2;
  }
}
