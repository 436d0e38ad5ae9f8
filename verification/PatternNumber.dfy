/**
 * What numbers in patterns and lines mean: they are decimal.
 */
module PatternNumbers {
  import opened Basics
  import opened PatternGlobs
  import opened PatternTexts

  function Digit(n: nat): (c: char)
    requires n < 10
    ensures IsDigit(c)
  {
    "0123456789"[n]
  }

  // The decimal numeral of n.
  function Decimal(n: nat): (s: string)
    ensures s != "" && AllDigits(s)
  {
    if n < 10 then [Digit(n)] else Decimal(n / 10) + [Digit(n % 10)]
  }

  lemma DigitsOnly(c: char)
    ensures IsDigit(c) <==> c in "0123456789"
  {
    if IsDigit(c) { assert c == "0123456789"[c as int - '0' as int]; }
  }

  // The numeral of n is read as n.
  lemma {:induction false} NumberOfDecimal(n: nat)
    ensures Number(Decimal(n)) == n
  {
    var s := Decimal(n);
    if n < 10 {
      assert s[..|s| - 1] == "";
    } else {
      assert s[..|s| - 1] == Decimal(n / 10);
      NumberOfDecimal(n / 10);
    }
  }

  // Noughts in front do not change a number.
  lemma {:induction false} NoughtInFront(d: string)
    requires AllDigits(d)
    ensures AllDigits("0" + d) && Number("0" + d) == Number(d)
  {
    if d == "" {
      assert "0" + d == "0" && "0"[..0] == "";
    } else {
      assert ("0" + d)[..|d|] == "0" + d[..|d| - 1];
      NoughtInFront(d[..|d| - 1]);
    }
  }

  // Every numeral is the decimal one of its number, with noughts in front.
  lemma {:induction false} EveryNumeral(d: string) returns (z: nat)
    requires AllDigits(d) && d != ""
    ensures d == Noughts(z) + Decimal(Number(d))
  {
    var e, k := d[..|d| - 1], d[|d| - 1] as int - '0' as int;
    LastDigit(d);
    hide Number, Decimal, Digit, Noughts;
    if e == "" {
      OneDigit(k);
      z := 0;
    } else {
      z := EveryNumeral(e);
      z := OneMore(e, z, k);
    }
  }

  lemma LastDigit(d: string)
    requires AllDigits(d) && d != ""
    ensures var e, k := d[..|d| - 1], d[|d| - 1] as int - '0' as int;
      0 <= k < 10 && d == e + [Digit(k)] && Number(d) == 10 * Number(e) + k && Number("") == 0
  {
    DigitsOnly(d[|d| - 1]);
  }

  lemma OneDigit(k: nat)
    requires k < 10
    ensures Noughts(0) + Decimal(k) == [Digit(k)]
  {
  }

  lemma OneMore(e: string, z: nat, k: nat) returns (y: nat)
    requires AllDigits(e) && e == Noughts(z) + Decimal(Number(e)) && k < 10
    ensures e + [Digit(k)] == Noughts(y) + Decimal(10 * Number(e) + k)
  {
    hide Number;
    var n := Number(e);
    if n == 0 {
      NoughtLast(z);
      y := z + 1;
    } else {
      assert (10 * n + k) / 10 == n && (10 * n + k) % 10 == k;
      Associative(Noughts(z), Decimal(n), [Digit(k)]);
      y := z;
    }
  }

  function Noughts(z: nat): string { if z == 0 then "" else "0" + Noughts(z - 1) }

  lemma {:induction false} NoughtLast(z: nat)
    ensures Noughts(z) + "0" == Noughts(z + 1)
  {
    if z > 0 { NoughtLast(z - 1); }
  }

  // ---------- ranges ----------

  // A bound as it is written, or nothing for one that is left out.
  function Bound(b: Option<nat>): (s: string)
    ensures AllDigits(s)
  {
    if b.Some? then Decimal(b.value) else ""
  }

  predicate InBounds(k: nat, from: Option<nat>, to: Option<nat>) {
    (from.Some? ==> from.value <= k) && (to.Some? ==> k <= to.value)
  }

  lemma BoundsMean(k: nat, from: Option<nat>, to: Option<nat>)
    ensures Within(k, Bound(from), Bound(to)) <==> InBounds(k, from, to)
  {
    hide Number, Decimal;
    if from.Some? { NumberOfDecimal(from.value); }
    if to.Some? { NumberOfDecimal(to.value); }
  }

  // "a{n..m}b" matches a and b with a number from n to m between them, if b does not go on with a
  // digit; for then the number would.
  lemma NumeralBetween(a: string, from: string, to: string, b: string, dotted: bool, line: string)
    requires AllDigits(from) && AllDigits(to)
    ensures var p := Escape(a) + (WriteToken(Numeral(from, to)) + Escape(b));
      && Compiled(p, dotted, true).Read?
      && (Glob(Compiled(p, dotted, true).value, 0, line)
          <==> && (b != "" ==> !IsDigit(b[0]))
               && exists d :: d != "" && AllDigits(d) && Within(Number(d), from, to) && line == a + (d + b))
  {
    hide Compiled, Glob, Escape, TextOf, Number, WriteToken;
    var t := Numeral(from, to);
    Between(a, t, b, dotted, line);
    assert ([t] + TextOf(b))[0] == t && ([t] + TextOf(b))[1..] == TextOf(b);
    if a <= line {
      NumberLine(line[|a|..], from, to, b);
      assert line == a + line[|a|..];
    }
    if d :| d != "" && AllDigits(d) && Within(Number(d), from, to) && line == a + (d + b) {
      assert line[|a|..] == d + b;
    }
  }

  lemma NumberLine(s: string, from: string, to: string, b: string)
    requires AllDigits(from) && AllDigits(to)
    ensures NumberFirst(s, from, to) && s[DigitRun(s)..] == b
       <==> && (b != "" ==> !IsDigit(b[0]))
            && exists d :: d != "" && AllDigits(d) && Within(Number(d), from, to) && s == d + b
  {
    hide Number, Within;
    var n := DigitRun(s);
    assert s == s[..n] + s[n..];
    if b != "" ==> !IsDigit(b[0]) {
      if d :| d != "" && AllDigits(d) && Within(Number(d), from, to) && s == d + b {
        RunOf(d, b);
        assert s[|d|..] == b;
      }
    }
  }

  // With numbers written in decimal: exactly those within the bounds match.
  lemma DecimalBetween(a: string, from: Option<nat>, to: Option<nat>, b: string, k: nat, dotted: bool)
    requires b != "" ==> !IsDigit(b[0])
    ensures var p := Escape(a) + (WriteToken(Numeral(Bound(from), Bound(to))) + Escape(b));
      && Compiled(p, dotted, true).Read?
      && (Glob(Compiled(p, dotted, true).value, 0, a + (Decimal(k) + b)) <==> InBounds(k, from, to))
  {
    hide Compiled, Glob, Escape, WriteToken, Number, Decimal, Bound, Within;
    var line := a + (Decimal(k) + b);
    NumeralBetween(a, Bound(from), Bound(to), b, dotted, line);
    NumberOfDecimal(k);
    BoundsMean(k, from, to);
    if d :| d != "" && AllDigits(d) && Within(Number(d), Bound(from), Bound(to)) && line == a + (d + b) {
      SameMiddle(a, d, Decimal(k), b);
    }
  }

  lemma SameMiddle(a: string, d: string, e: string, b: string)
    requires a + (d + b) == a + (e + b)
    ensures d == e
  {
    assert (a + (d + b))[|a|..] == d + b && (a + (e + b))[|a|..] == e + b;
    assert (d + b)[..|d|] == d && (e + b)[..|e|] == e;
  }

  // ... and likewise a number in brackets.
  lemma DecimalInBrackets(a: string, from: Option<nat>, to: Option<nat>, b: string, k: nat, dotted: bool)
    ensures var p := Escape(a) + (WriteToken(Index(Bound(from), Bound(to))) + Escape(b));
      && Compiled(p, dotted, true).Read?
      && (Glob(Compiled(p, dotted, true).value, 0, a + (("[" + Decimal(k)) + ("]" + b))) <==> InBounds(k, from, to))
  {
    hide Compiled, Glob, Escape, WriteToken, Number, Decimal, Bound, Within;
    var line := a + (("[" + Decimal(k)) + ("]" + b));
    IndexBetween(a, Bound(from), Bound(to), b, dotted, line);
    NumberOfDecimal(k);
    BoundsMean(k, from, to);
    if d :|
         d != "" && AllDigits(d) && Within(Number(d), Bound(from), Bound(to)) && line == a + (("[" + d) + ("]" + b)) {
      assert ("[" + d) + ("]" + b) == ("[" + d + "]") + b
          && ("[" + Decimal(k)) + ("]" + b) == ("[" + Decimal(k) + "]") + b;
      SameMiddle(a, "[" + d + "]", "[" + Decimal(k) + "]", b);
      assert "[" + d + "]" == "[" + (d + "]") && "[" + Decimal(k) + "]" == "[" + (Decimal(k) + "]");
      SameMiddle("[", d, Decimal(k), "]");
    }
  }
}
