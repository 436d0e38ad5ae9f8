/**
 * The 128-bit integer object, whose compound operators rewrite its two words.
 */
module Int128s {
  import opened Basics
  import opened Int128Words
  import opened Int128Values
  import opened Int128Texts

  // Division as C does it: the quotient rounds towards zero.
  ghost predicate Divides(v: int, w: int, q: int, r: int) {
    v == q * w + r && Abs(r) < Abs(w) && (r == 0 || (r < 0 <==> v < 0))
  }

  function Abs(x: int): nat { if x < 0 then -x else x }

  // There is only one such quotient and remainder.
  lemma DividesUnique(v: int, w: int, q: int, r: int, q': int, r': int)
    requires w != 0 && Divides(v, w, q, r) && Divides(v, w, q', r')
    ensures q == q' && r == r'
  {
    assert (q - q') * w == r' - r;
    if q != q' { AtLeastOne(q - q', w); }
  }

  lemma AtLeastOne(k: int, w: int)
    requires k != 0
    ensures Abs(k * w) >= Abs(w)
  {
    if k >= 1 {
      if w >= 0 { MulAtLeast(k, w); } else { MulAtLeast(k, -w); }
    } else {
      if w >= 0 { MulAtLeast(-k, w); } else { MulAtLeast(-k, -w); }
    }
  }

  // ---------- multiplication ----------

  // Of a product only the lower bits of a factor matter.
  lemma LowProduct(a: int, t: int)
    ensures Wrap(a * (t % Pow2(128))) == Wrap(a * t)
  {
    Pow2Words();
    DivMod(t, TWO_128);
    var k := t / TWO_128;
    assert a * t == a * (t % TWO_128) + (a * k) * TWO_128 by {
      Distribute(k * TWO_128, t % TWO_128, a);
      Regrouped(a, k, TWO_128);
    }
    WrapCongruent(a * t, a * (t % TWO_128), a * k);
  }

  // The next bit of a factor, and what it brings.
  lemma NextBit(t: int, i: nat)
    ensures t % Pow2(i + 1) == t % Pow2(i) + (if (t / Pow2(i)) % 2 == 1 then Pow2(i) else 0)
    ensures t / Pow2(i + 1) == (t / Pow2(i)) / 2
  {
    var p := Pow2(i);
    NextDigit(t, p);
  }

  lemma NextDigit(t: int, p: int)
    requires p > 0
    ensures t % (2 * p) == t % p + (if (t / p) % 2 == 1 then p else 0)
    ensures t / (2 * p) == (t / p) / 2
  {
    DivMod(t, p);
    var a, b, r := t / p / 2, t / p % 2, t % p;
    assert t / p == 2 * a + b;
    Distribute(2 * a, b, p);
    Regrouped(a, 2, p);
    DivUnique(t, 2 * p, a, b * p + r);
  }

  lemma ProductStep(a: int, t: int, i: nat)
    ensures var bit := (t / Pow2(i)) % 2 == 1;
      Wrap(a * (t % Pow2(i + 1))) == if bit then Wrap(Wrap(a * (t % Pow2(i))) + Wrap(a * Pow2(i)))
          else Wrap(a * (t % Pow2(i)))
  {
    hide Pow2, Wrap;
    NextBit(t, i);
    if (t / Pow2(i)) % 2 == 1 {
      WrapSum(a, t % Pow2(i), Pow2(i));
    }
  }

  lemma WrapSum(a: int, m: int, p: int)
    ensures Wrap(a * (m + p)) == Wrap(Wrap(a * m) + Wrap(a * p))
  {
    hide Wrap;
    Distribute(m, p, a);
    WrapAdd(a * m, a * p);
  }

  // ---------- division of magnitudes ----------

  // Taking in the next bit of the dividend.
  lemma TakeBit(d: int, b: nat)
    ensures d / Pow2(b) == 2 * (d / Pow2(b + 1)) + (if Bit(d, b) then 1 else 0)
  {
    NextBit(d, b);
  }

  // Halfway through: m is the quotient so far, r the partial remainder, b the bits to come.
  ghost predicate Partly(d: int, s: int, b: nat, q: int, m: int, r: int) {
    0 < s && 0 <= m && Quotient(d, s, b, q, m, r) && 0 <= r < 2 * s && (r >= s ==> m % 2 == 0)
  }

  ghost predicate Quotient(d: int, s: int, b: nat, q: int, m: int, r: int) {
    q == m * Pow2(b) && d / Pow2(b) == m * s + r
  }

  lemma QuotientEnds(d: int, s: int, b: nat, q: int, m: int, r: int)
    ensures b == 0 && Quotient(d, s, b, q, m, r) ==> d == q * s + r
    ensures r == d / Pow2(b) ==> Quotient(d, s, b, 0, 0, r)
  {
    assert Pow2(0) == 1;
  }

  lemma PartlyShift(d: int, s: int, b: nat, q: int, m: int, r: int)
    requires b > 0 && Partly(d, s, b, q, m, r) && r < s
    ensures Partly(d, s, b - 1, q, 2 * m, 2 * r + if Bit(d, b - 1) then 1 else 0)
  {
    hide Bit;
    TakeBit(d, b - 1);
    Pow2Half(b);
    hide Pow2;
    Regrouped(m, 2, Pow2(b - 1));
    Regrouped(2, m, s);
  }

  lemma PartlySubtract(d: int, s: int, b: nat, q: int, m: int, r: int)
    requires Partly(d, s, b, q, m, r) && r >= s
    ensures Partly(d, s, b, q + Pow2(b), m + 1, r - s) && !Bit(q, b)
  {
    DivUnique(q, Pow2(b), m, 0);
    Distribute(m, 1, Pow2(b));
    Distribute(m, 1, s);
  }

  // Neither the quotient nor the partial remainder outgrows the dividend.
  lemma PartlyBounded(d: int, s: int, b: nat, q: int, m: int, r: int)
    requires d >= 0 && Partly(d, s, b, q, m, r)
    ensures 0 <= q <= d && r <= d && d / Pow2(b) <= d
  {
    var p := Pow2(b);
    DivMod(d, p);
    QuotientSign(d, p);
    ScaleUp(d / p, p);
    MulNonnegative(m, s);
    ScaleUp(m, s);
    MulMono(m, d / p, p);
  }

  class Int128 {
    var lo: uint64
    var hi: int64

    constructor (l: uint64, h: int64)
      ensures lo == l && hi == h
    {
      lo, hi := l, h;
    }

    // From an unsigned number of 32 or 64 bits.
    constructor Of(a: uint64)
      ensures Value() == a
    {
      lo, hi := a, 0;
    }

    function W(): Words
      reads this
    {
      Words(lo, hi)
    }

    ghost function Value(): int
      reads this
    {
      ValueOf(W())
    }

    method Assign(a: Words)
      modifies this
      ensures W() == a
    {
      lo, hi := a.lo, a.hi;
    }

    method AddAssign(b: Int128)
      modifies this
      ensures Value() == Wrap(old(Value()) + old(b.Value()))
    {
      hide U64, S64, Wrap, ValueOf;
      SumValue(W(), b.W());
      var oldLo := lo;
      lo := U64(lo + b.lo);
      hi := S64(hi + b.hi);
      if lo < oldLo {
        hi := S64(hi + 1);
      }
    }

    method SubAssign(b: Int128)
      requires b.W() != MIN_WORDS
      modifies this
      ensures Value() == Wrap(old(Value()) - old(b.Value()))
    {
      NegatedValue(b.W());
      var n := Negated(b.W());
      var t := new Int128(n.lo, n.hi);
      AddAssign(t);
    }

    method ShlAssign(n: nat)
      modifies this
      ensures Value() == Wrap(old(Value()) * Pow2(n))
    {
      hide Pow2, Wrap, And, Or, Shl, Shr, S64, U64;
      ShiftedLeftValue(W(), n);
      if 0 < n < 64 { WrapTwice(Shl(hi, n)); }
      if n >= 128 {
        lo, hi := 0, 0;
      } else if n >= 64 {
        hi := S64(Shl(lo, n - 64));
        lo := 0;
      } else if n > 0 {
        hi := S64(Shl(hi, n));
        var mask := U64(0 - Pow2(64 - n));
        hi := S64(Or(U64(hi), Shr(And(lo, mask), 64 - n)));
        lo := U64(Shl(lo, n));
      }
    }

    method ShrAssign(n: nat)
      modifies this
      ensures Value() == old(Value()) / Pow2(n)
    {
      hide Pow2, And, Or, Shl, Shr, S64;
      ShiftedRightValue(W(), n);
      ShrSmaller(lo, n);
      if n >= 128 {
        hi := if hi < 0 then -1 else 0;
        lo := U64(hi);
      } else if n >= 64 {
        lo := U64(Shr(hi, n - 64));
        hi := if hi < 0 then -1 else 0;
      } else if n > 0 {
        lo := Shr(lo, n);
        var mask := Pow2(n) - 1;
        lo := U64(Or(lo, U64(Shl(And(U64(hi), mask), 64 - n))));
        hi := S64(Shr(hi, n));
      }
    }

    method SetBit(n: nat, val: bool)
      modifies this
      ensures n < 127 ==>
                Value() == old(Value()) + if Bit(old(Value()), n) == val then 0 else if val then Pow2(n) else -Pow2(n)
      ensures n == 127 ==>
                Value() == old(Value()) + if Bit(old(Value()), n) == val then 0 else if val then -Pow2(n) else Pow2(n)
      ensures n >= 128 ==> Value() == old(Value())
    {
      Pow2Words();
      if n < 127 { WithBitValue(W(), n, val); }
      if n == 127 { SignBitValue(W(), val); }
      if n >= 128 {
        return;
      }
      if val {
        if n < 64 {
          lo := U64(Or(lo, U64(Pow2(n))));
        } else {
          hi := S64(U64(Or(U64(hi), U64(Pow2(n - 64)))));
        }
      } else {
        if n < 64 {
          lo := And64(lo, U64(TWO_64 - 1 - U64(Pow2(n))));
        } else {
          hi := S64(And64(U64(hi), U64(TWO_64 - 1 - U64(Pow2(n - 64)))));
        }
      }
    }

    // Shifts and adds: one round for every bit of the other factor.
    method MulAssign(b: Int128)
      modifies this
      ensures Value() == Wrap(old(Value()) * old(b.Value()))
    {
      if IsZero(b.W()) {
        Assign(Words(0, 0));
        return;
      }
      if b.W() == Words(1, 0) {
        ValueRange(W());
        return;
      }
      var a := W();
      var t := new Int128(b.lo, b.hi);
      ghost var f := t.Value();
      Assign(Words(0, 0));
      assert f % Pow2(0) == 0 && f / Pow2(0) == f;
      for i := 0 to 128
        invariant t != this && fresh(t)
        invariant t.Value() == f / Pow2(i) && Value() == Wrap(ValueOf(a) * (f % Pow2(i)))
      {
        MulRound(a, t, i, f);
      }
      LowProduct(ValueOf(a), f);
    }

    method MulRound(a: Words, t: Int128, i: nat, ghost f: int)
      requires t != this && t.Value() == f / Pow2(i) && Value() == Wrap(ValueOf(a) * (f % Pow2(i)))
      modifies this, t
      ensures t.Value() == f / Pow2(i + 1) && Value() == Wrap(ValueOf(a) * (f % Pow2(i + 1)))
    {
      hide Pow2, Wrap, And;
      ProductStep(ValueOf(a), f, i);
      NextBit(f, i);
      LowestBit(t.W());
      if And(t.lo, 1) != 0 {
        var s := new Int128(a.lo, a.hi);
        s.ShlAssign(i);
        AddAssign(s);
      }
      t.ShrAssign(1);
    }

    // The absolute value.
    static method Magnitude(a: Words) returns (m: Words)
      requires a != MIN_WORDS
      ensures m.hi >= 0 && ValueOf(m) == Abs(ValueOf(a))
    {
      LessThanRight(a, Words(0, 0));
      NegatedValue(a);
      m := if LessThan(a, Words(0, 0)) then Negated(a) else a;
    }

    // Divides, rounding towards zero; the remainder object may be the dividend or the divisor itself.
    method Div(divisor: Int128, remainder: Int128) returns (quotient: Int128)
      requires divisor.Value() != 0 && divisor.W() != MIN_WORDS && W() != MIN_WORDS
      modifies remainder
      ensures fresh(quotient)
      ensures Divides(old(Value()), old(divisor.Value()), quotient.Value(), remainder.Value())
      ensures quotient.W() != MIN_WORDS && remainder.W() != MIN_WORDS
    {
      ghost var v, d := Value(), divisor.Value();
      var ds := Magnitude(divisor.W());
      var dd := Magnitude(W());
      LessThanRight(dd, ds);
      if LessThan(dd, ds) {
        remainder.Assign(W());
        quotient := new Int128.Of(0);
        return;
      }
      var q, r := DivideMagnitudes(dd, ds);
      LessThanRight(W(), Words(0, 0));
      LessThanRight(divisor.W(), Words(0, 0));
      if LessThan(divisor.W(), Words(0, 0)) != LessThan(W(), Words(0, 0)) {
        NegatedValue(q);
        q := Negated(q);
      }
      if LessThan(W(), Words(0, 0)) {
        NegatedValue(r);
        r := Negated(r);
      }
      SignedDivision(v, d, ValueOf(q), ValueOf(r));
      remainder.Assign(r);
      quotient := new Int128(q.lo, q.hi);
    }

    // r becomes 2 r + bit.
    method TakeIn(bit: bool)
      requires 0 <= 2 * Value() + (if bit then 1 else 0) < TWO_127
      modifies this
      ensures Value() == 2 * old(Value()) + if bit then 1 else 0
    {
      hide Pow2, Or, Wrap, U64, ValueOf;
      Doubled(Value(), bit);
      ShlAssign(1);
      EvenLow(W());
      if bit {
        lo := U64(Or(lo, 1));
      }
    }

    // Restoring division of one non-negative number by another, no greater one.
    static method DivideMagnitudes(dd: Words, ds: Words) returns (quotient: Words, rest: Words)
      requires dd.hi >= 0 && ds.hi >= 0 && 0 < ValueOf(ds) <= ValueOf(dd)
      ensures ValueOf(dd) == ValueOf(quotient) * ValueOf(ds) + ValueOf(rest)
      ensures 0 <= ValueOf(rest) < ValueOf(ds) && 0 <= ValueOf(quotient)
    {
      var r, b := FirstBits(dd, ds);
      var q := new Int128.Of(0);
      Subtract(dd, ds, b, r, q);
      quotient, rest := q.W(), r.W();
    }

    // Takes in bits of the dividend from the top until the divisor fits. The counter wraps
    // below zero for a moment when the last bit is taken.
    static method FirstBits(dd: Words, ds: Words) returns (r: Int128, b: nat)
      requires dd.hi >= 0 && ds.hi >= 0 && 0 < ValueOf(ds) <= ValueOf(dd)
      ensures fresh(r) && b < 127 && r.Value() == ValueOf(dd) / Pow2(b) && ValueOf(ds) <= r.Value() < 2 * ValueOf(ds)
    {
      hide Pow2, LessThan, And, ValueOf, Wrap, U64, S64;
      MagnitudeRange(dd);
      ghost var d, k := ValueOf(dd), 128;
      r := new Int128.Of(0);
      b := 127;
      TopQuotient(d);
      LessThanMagnitude(r.W(), ds);
      while LessThan(r.W(), ds)
        invariant fresh(r) && 0 <= k <= 128 && b == if k == 0 then TWO_32 - 1 else k - 1
        invariant r.Value() == d / Pow2(k) && 0 <= r.Value() < 2 * ValueOf(ds) && (k == 128 ==> r.Value() == 0)
        decreases k
      {
        LessThanMagnitude(r.W(), ds);
        FirstStep(dd, ValueOf(ds), b, r, k);
        b := (b - 1) % TWO_32;
        k := k - 1;
      }
      LessThanMagnitude(r.W(), ds);
      b := (b + 1) % TWO_32;
      NotTop(d, k);
    }

    static method FirstStep(dd: Words, ghost s: int, b: nat, r: Int128, ghost k: nat)
      requires dd.hi >= 0 && s <= ValueOf(dd) && k <= 128 && b == (if k == 0 then TWO_32 - 1 else k - 1)
      requires r.Value() == ValueOf(dd) / Pow2(k) && 0 <= r.Value() < s
      modifies r
      ensures k > 0 && r.Value() == ValueOf(dd) / Pow2(k - 1) && 0 <= r.Value() < 2 * s
    {
      hide Pow2, Bit, TestBit;
      ghost var d := ValueOf(dd);
      NotLast(d, s, k);
      TestBitValue(dd, b);
      TakeBit(d, b);
      QuotientFits(d, b);
      r.TakeIn(TestBit(dd, b));
    }

    static method ShiftStep(dd: Words, ghost s: int, b: nat, r: Int128, ghost q: int, ghost m: int)
        returns (ghost m': int)
      requires dd.hi >= 0 && b < 127 && Partly(ValueOf(dd), s, b + 1, q, m, r.Value()) && r.Value() < s
      modifies r
      ensures Partly(ValueOf(dd), s, b, q, m', r.Value())
    {
      hide Pow2, Bit, Quotient, TestBit;
      ghost var d := ValueOf(dd);
      PartlyShift(d, s, b + 1, q, m, r.Value());
      m' := 2 * m;
      PartlyBounded(d, s, b, q, m', 2 * r.Value() + if Bit(d, b) then 1 else 0);
      TestBitValue(dd, b);
      r.TakeIn(TestBit(dd, b));
    }

    static method FitStep(ds: Words, ghost d: int, b: nat, r: Int128, q: Int128, ghost m: int) returns (ghost m': int)
      requires r != q && ds.hi >= 0 && b < 127 && 0 <= d < TWO_127
      requires Partly(d, ValueOf(ds), b, q.Value(), m, r.Value()) && r.Value() >= ValueOf(ds)
      modifies r, q
      ensures Partly(d, ValueOf(ds), b, q.Value(), m', r.Value()) && r.Value() == old(r.Value()) - ValueOf(ds)
    {
      hide Pow2, Bit, Quotient, TestBit;
      PartlySubtract(d, ValueOf(ds), b, q.Value(), m, r.Value());
      PartlyBounded(d, ValueOf(ds), b, q.Value(), m, r.Value());
      m' := m + 1;
      var t := new Int128(ds.lo, ds.hi);
      r.SubAssign(t);
      q.SetBit(b, true);
    }

    // Subtracts the divisor where it fits, and takes in the next bit where it does not.
    static method Subtract(dd: Words, ds: Words, b0: nat, r: Int128, q: Int128)
      requires r != q && dd.hi >= 0 && ds.hi >= 0 && b0 < 127 && q.Value() == 0
      requires 0 < ValueOf(ds) <= r.Value() < 2 * ValueOf(ds) && r.Value() == ValueOf(dd) / Pow2(b0)
      modifies r, q
      ensures ValueOf(dd) == q.Value() * ValueOf(ds) + r.Value() && 0 <= r.Value() < ValueOf(ds) && 0 <= q.Value()
    {
      hide Pow2, Bit, Quotient, LessThan;
      ghost var d, s, m := ValueOf(dd), ValueOf(ds), 0;
      var b := b0;
      QuotientEnds(d, s, b, 0, 0, r.Value());
      while true
        invariant b < 127 && Partly(d, s, b, q.Value(), m, r.Value())
        decreases b, r.Value()
      {
        PartlyBounded(d, s, b, q.Value(), m, r.Value());
        LessThanRight(r.W(), ds);
        if LessThan(r.W(), ds) {
          if b == 0 {
            QuotientEnds(d, s, b, q.Value(), m, r.Value());
            break;
          }
          b := b - 1;
          m := ShiftStep(dd, s, b, r, q.Value(), m);
        } else {
          m := FitStep(ds, d, b, r, q, m);
        }
      }
    }

    method DivAssign(b: Int128)
      requires b.Value() != 0 && b.W() != MIN_WORDS && W() != MIN_WORDS
      modifies this
      ensures exists r :: Divides(old(Value()), old(b.Value()), Value(), r)
    {
      hide Divides;
      ghost var v, d := Value(), b.Value();
      var dummy := new Int128.Of(0);
      var q := Div(b, dummy);
      ghost var rest := dummy.Value();
      Assign(q.W());
      assert Divides(v, d, Value(), rest);
    }

    // The remainder takes the place of the dividend it is taken from.
    method ModAssign(b: Int128)
      requires b.Value() != 0 && b.W() != MIN_WORDS && W() != MIN_WORDS
      modifies this
      ensures exists q :: Divides(old(Value()), old(b.Value()), q, Value())
    {
      hide Divides;
      ghost var v, d := Value(), b.Value();
      var q := Div(b, this);
      assert Divides(v, d, q.Value(), Value());
    }

    // ---------- numerals ----------

    method ToString(radix: nat) returns (text: string)
      requires W() != MIN_WORDS && radix < TWO_32
      ensures text == Text(Value(), radix)
    {
      if IsZero(W()) {
        return "0";
      }
      if radix < 2 || radix > 37 {
        return "(invalid radix)";
      }
      var m := Magnitude(W());
      text := WriteDigits(m, radix);
      LessThanRight(W(), Words(0, 0));
      if LessThan(W(), Words(0, 0)) {
        text := "-" + text;
      }
    }

    // Writes the digits from the last to the first into what is left of 255 places; they always fit.
    static method WriteDigits(m: Words, radix: nat) returns (text: string)
      requires m.hi >= 0 && 2 <= radix <= 37
      ensures text == Digits(ValueOf(m), radix)
    {
      hide Pow2, Digits;
      text := "";
      var ii := new Int128(m.lo, m.hi);
      var i := 255;
      Pow2Words();
      assert Digits(ValueOf(m), radix) + "" == Digits(ValueOf(m), radix);
      while !IsZero(ii.W()) && i != 0
        invariant fresh(ii) && 128 <= i <= 255 && 0 <= ii.Value() < Pow2(i - 128)
        invariant Digits(ii.Value(), radix) + text == Digits(ValueOf(m), radix)
        decreases i
      {
        DigitsFit(ii.Value(), radix, i - 128);
        Unfold(ii.Value(), radix, text);
        var c;
        ii, c := NextDigitOf(ii, radix);
        i := i - 1;
        text := [DigitChar(c)] + text;
      }
      NoDigits(radix);
    }

    static method NextDigitOf(ii: Int128, radix: nat) returns (rest: Int128, c: nat)
      requires ii.hi >= 0 && 2 <= radix <= 37
      ensures fresh(rest) && rest.Value() == ii.Value() / radix && c == ii.Value() % radix
    {
      hide ValueOf;
      ghost var n := ii.Value();
      Magnitudes(ii.W(), radix);
      var aux := new Int128.Of(radix);
      var r := new Int128.Of(0);
      rest := ii.Div(aux, r);
      SmallDivision(n, radix, rest.Value(), r.Value());
      LowDigit(r.W());
      c := r.lo % TWO_32;
    }

    // Reads a number: a sign, a radix prefix and digits, up to the first other character.
    method Set(sz: string)
      requires At(sz, 0) == '-' ==> Wrap(Scan(sz)) != -TWO_127
      modifies this
      ensures Value() == Wrap(Scan(sz))
    {
      Assign(Words(0, 0));
      if sz == "" {
        return;
      }
      var radix, i, minus := 10, 0, false;
      if At(sz, i) == '-' {
        i := i + 1;
        minus := true;
      }
      if At(sz, i) == '0' {
        radix := 8;
        i := i + 1;
        if At(sz, i) == 'x' {
          radix := 16;
          i := i + 1;
        }
      }
      assert i == PrefixLength(sz) && radix == Radix(sz);
      ReadDigits(sz, i, radix);
      if minus {
        NegateRead(ScanDigits(sz[i..], radix, 0));
        var n := new Int128(lo, hi);
        Assign(Words(0, 0));
        SubAssign(n);
      }
    }

    method ReadDigits(sz: string, start: nat, radix: nat)
      requires start <= |sz| && Value() == 0 && 0 < radix < TWO_32
      modifies this
      ensures Value() == Wrap(ScanDigits(sz[start..], radix, 0))
    {
      hide Wrap, DigitOf, ScanDigits;
      ghost var acc: nat := 0;
      var i := start;
      ZeroRead();
      while i < |sz|
        invariant start <= i <= |sz| && Value() == Wrap(acc)
        invariant ScanDigits(sz[i..], radix, acc) == ScanDigits(sz[start..], radix, 0)
        decreases |sz| - i
      {
        ScanStep(sz, i, radix, acc);
        var n := DigitOf(sz[i], radix);
        if n.None? {
          break;
        }
        PushDigit(radix, n.value, acc);
        acc := acc * radix + n.value;
        i := i + 1;
      }
      if i == |sz| { ScanEnd(sz, radix, acc); }
    }

    method PushDigit(radix: nat, n: nat, ghost acc: nat)
      requires radix < TWO_32 && n < TWO_32 && Value() == Wrap(acc)
      modifies this
      ensures Value() == Wrap(acc * radix + n)
    {
      hide Wrap;
      var r := new Int128.Of(radix);
      MulAssign(r);
      var d := new Int128.Of(n);
      AddAssign(d);
      PushedDigit(acc, radix, n);
    }
  }

  lemma SumValue(a: Words, b: Words)
    ensures var l, h := U64(a.lo + b.lo), S64(a.hi + b.hi);
      ValueOf(Words(l, if l < a.lo then S64(h + 1) else h)) == Wrap(ValueOf(a) + ValueOf(b))
  {
    hide Wrap;
    hide U64, S64;
    var l, h, c := U64(a.lo + b.lo), a.hi + b.hi, if a.lo + b.lo >= TWO_64 then 1 else 0;
    CarryOut(a.lo, b.lo);
    WrapTwice(h);
    HighWord(h + c, l);
  }

  lemma CarryOut(x: uint64, y: uint64)
    ensures var c := if x + y >= TWO_64 then 1 else 0;
      U64(x + y) == x + y - c * TWO_64 && (c == 1 <==> U64(x + y) < x)
  {
  }

  lemma ShrSmaller(x: nat, n: nat)
    ensures Shr(x, n) <= x
  {
    QuotientSmaller(x, Pow2(n));
  }

  lemma QuotientSmaller(x: nat, p: int)
    requires p > 0
    ensures 0 <= x / p <= x
  {
    DivMod(x, p);
    QuotientSign(x, p);
    ScaleUp(x / p, p);
  }

  // Wrapping early makes no difference.
  lemma WrapTwice(x: int)
    ensures U64(S64(x)) == U64(x) && S64(U64(x)) == S64(x) && S64(S64(x) + 1) == S64(x + 1)
  {
    hide U64, S64;
    WrapSigned(x);
    WrapUnsigned(x);
    WrapNext(x);
  }

  lemma WrapSigned(x: int)
    ensures U64(S64(x)) == U64(x)
  {
  }

  lemma WrapUnsigned(x: int)
    ensures S64(U64(x)) == S64(x)
  {
  }

  lemma WrapNext(x: int)
    ensures S64(S64(x) + 1) == S64(x + 1)
  {
  }

  lemma LowestBit(w: Words)
    ensures And(w.lo, 1) != 0 <==> ValueOf(w) % 2 == 1
    ensures Pow2(1) == 2
  {
    assert Pow2(1) == 2 && Pow2(0) == 1;
    AndBit(w.lo, 0);
  }

  // Signs put back on a division of magnitudes.
  lemma SignedDivision(v: int, d: int, q: int, r: int)
    requires d != 0
    requires Abs(v) == (if (d < 0) != (v < 0) then -q else q) * Abs(d) + (if v < 0 then -r else r)
    requires 0 <= (if v < 0 then -r else r) < Abs(d)
    ensures Divides(v, d, q, r)
  {
    assert (-q) * (-d) == q * d && (-q) * d == -(q * d) && q * (-d) == -(q * d);
  }

  lemma EvenLow(w: Words)
    ensures ValueOf(w) % 2 == 0 ==> w.lo + 1 < TWO_64 && U64(Or(w.lo, 1)) == w.lo + 1
    ensures w.lo + 1 < TWO_64 ==> ValueOf(w.(lo := w.lo + 1)) == ValueOf(w) + 1
  {
    hide Or, Bit;
    assert Pow2(0) == 1;
    OrBit(w.lo, 0);
    BitHalf(w.lo, 0);
  }

  lemma Doubled(v: int, bit: bool)
    requires 0 <= 2 * v + (if bit then 1 else 0) < TWO_127
    ensures Wrap(v * Pow2(1)) == 2 * v
  {
    assert Pow2(1) == 2;
  }

  lemma TopQuotient(d: int)
    requires 0 <= d < TWO_127
    ensures d / Pow2(128) == 0
  {
    Pow2Words();
    SmallMod(d, TWO_128);
  }

  lemma NotLast(d: int, s: int, k: nat)
    requires s <= d && d / Pow2(k) < s
    ensures k > 0
  {
    assert Pow2(0) == 1;
  }

  lemma QuotientFits(d: int, k: nat)
    requires d >= 0
    ensures 0 <= d / Pow2(k) <= d
  {
    QuotientSmaller(d, Pow2(k));
  }

  lemma NotTop(d: int, k: nat)
    requires 0 <= d < TWO_127 && d / Pow2(k) > 0
    ensures k < 127
  {
    if k >= 127 {
      Pow2Words();
      if k > 127 { Pow2Less(127, k); }
      SmallMod(d, Pow2(k));
    }
  }

  lemma PushedDigit(acc: int, radix: int, n: int)
    ensures Wrap(Wrap(Wrap(acc) * radix) + n) == Wrap(acc * radix + n)
  {
    hide Wrap;
    WrapMul(acc, radix);
    WrapAdd(acc * radix, n);
    WrapOnce(acc * radix, n);
  }

  lemma WrapOnce(x: int, n: int)
    ensures Wrap(Wrap(x) + n) == Wrap(x + n)
  {
    var k := (Wrap(x) - x) / TWO_128;
    WrapCongruent(Wrap(x) + n, x + n, k);
  }

  lemma ZeroRead()
    ensures Wrap(0) == 0
  {
  }

  lemma NegateRead(n: int)
    ensures Wrap(0 - Wrap(n)) == Wrap(0 - n)
    ensures Wrap(n) == -TWO_127 <==> Wrap(0 - n) == -TWO_127
  {
    var k := (Wrap(n) - n) / TWO_128;
    WrapCongruent(0 - Wrap(n), 0 - n, -k);
  }

  lemma Magnitudes(w: Words, radix: nat)
    requires w.hi >= 0 && 0 < radix < TWO_64
    ensures ValueOf(w) >= 0 && forall a: Words :: ValueOf(a) == radix ==> a != MIN_WORDS
  {
  }

  lemma LowDigit(w: Words)
    ensures 0 <= ValueOf(w) < TWO_32 ==> w.lo % TWO_32 == ValueOf(w)
  {
  }

  lemma SmallDivision(v: nat, w: nat, q: int, r: int)
    requires w > 0 && Divides(v, w, q, r)
    ensures q == v / w && r == v % w
  {
    DivUnique(v, w, q, r);
  }

  lemma NoDigits(radix: nat)
    requires 2 <= radix <= 37
    ensures Pow2(0) == 1 && Digits(0, radix) == ""
  {
  }

  lemma DigitsFit(n: nat, radix: nat, k: nat)
    requires 2 <= radix && 0 < n < Pow2(k)
    ensures k > 0 && n / radix < Pow2(k - 1)
  {
    assert Pow2(0) == 1;
    HalfOrLess(n, radix);
  }

  lemma HalfOrLess(n: nat, radix: nat)
    requires 2 <= radix
    ensures n / radix <= n / 2
  {
    DivMod(n, radix);
    MulMono(2, radix, n / radix);
  }

  lemma Unfold(n: nat, radix: nat, text: string)
    requires 2 <= radix <= 37 && n > 0
    ensures n / radix >= 0 && Digits(n, radix) + text == Digits(n / radix, radix) + ([DigitChar(n % radix)] + text)
  {
    Associative(Digits(n / radix, radix), [DigitChar(n % radix)], text);
  }

  // What is printed in decimal is read back as the same number.
  method PrintAndRead(a: Int128, b: Int128)
    requires a.W() != MIN_WORDS
    modifies b
    ensures b.W() == old(a.W())
  {
    ValueRange(a.W());
    ScanOfText(a.Value());
    ghost var w := a.W();
    var text := a.ToString(10);
    b.Set(text);
    ValueInjective(b.W(), w);
  }

  lemma ScanStep(sz: string, i: nat, radix: nat, acc: nat)
    requires i < |sz| && 0 < radix < TWO_32
    ensures var n := DigitOf(sz[i], radix);
      if n.None? then ScanDigits(sz[i..], radix, acc) == acc
      else n.value < TWO_32 && ScanDigits(sz[i..], radix, acc) == ScanDigits(sz[i + 1..], radix, acc * radix + n.value)
  {
    assert sz[i..][0] == sz[i] && sz[i..][1..] == sz[i + 1..];
  }

  lemma ScanEnd(sz: string, radix: nat, acc: nat)
    ensures ScanDigits(sz[|sz|..], radix, acc) == acc
  {
  }
}
