/**
 * Numerals: what the printer writes and what the parser reads.
 */
module Int128Texts {
  import opened Basics

  // ---------- printing ----------

  function DigitChar(d: nat): char
    requires d < 37
  {
    if d > 9 then (d + 'A' as int - 10) as char else (d + '0' as int) as char
  }

  function Digits(n: nat, radix: nat): string
    requires 2 <= radix <= 37
  {
    if n == 0 then "" else Digits(n / radix, radix) + [DigitChar(n % radix)]
  }

  function Text(v: int, radix: nat): string {
    if v == 0 then "0"
    else if radix < 2 || radix > 37 then "(invalid radix)"
    else if v < 0 then "-" + Digits(-v, radix)
    else Digits(v, radix)
  }

  // ---------- parsing ----------

  function DigitOf(c: char, radix: nat): Option<nat> {
    if '0' <= c <= '9' && (c as int) < '0' as int + radix then Some(c as int - '0' as int)
    else if 'a' <= c && c as int <= 'a' as int + radix - 10 then Some(c as int - 'a' as int + 10)
    else if 'A' <= c && c as int <= 'A' as int + radix - 10 then Some(c as int - 'A' as int + 10)
    else None
  }

  // Reads digits until something else comes.
  function ScanDigits(s: string, radix: nat, acc: nat): nat {
    if s == "" || DigitOf(s[0], radix).None? then acc
    else ScanDigits(s[1..], radix, acc * radix + DigitOf(s[0], radix).value)
  }

  function SignLength(s: string): nat { if At(s, 0) == '-' then 1 else 0 }

  function Radix(s: string): nat {
    if At(s, SignLength(s)) != '0' then 10 else if At(s, SignLength(s) + 1) == 'x' then 16 else 8
  }

  function PrefixLength(s: string): (n: nat)
    ensures n <= |s|
  {
    SignLength(s) + if Radix(s) == 10 then 0 else if Radix(s) == 16 then 2 else 1
  }

  function Scan(s: string): int {
    var n := ScanDigits(s[PrefixLength(s)..], Radix(s), 0);
    if SignLength(s) == 1 then 0 - n else n
  }

  // The parser also takes the letter just past the last digit, for the radix itself.
  lemma DigitBelowRadix(c: char, radix: nat)
    requires DigitOf(c, radix).Some? && (radix == 8 || radix == 10 || radix == 16)
    ensures DigitOf(c, radix).value < radix <==>
              c as int != 'a' as int + radix - 10 && c as int != 'A' as int + radix - 10
  {
  }

  // So "a" is read as ten in a decimal number, and "g" as sixteen in a hexadecimal one.
  lemma ExtraDigits()
    ensures Scan("1a") == 20 && Scan("0xg") == 16
  {
    ScanPair('1', 'a');
    assert "1a" == ['1', 'a'] && "1a"[0..] == "1a";
    assert "0xg"[2..] == "g" && "g"[1..] == "";
    assert ScanDigits("", 16, 16) == 16;
  }

  lemma ScanPair(a: char, b: char)
    requires DigitOf(a, 10).Some? && DigitOf(b, 10).Some?
    ensures ScanDigits([a, b], 10, 0) == DigitOf(a, 10).value * 10 + DigitOf(b, 10).value
  {
    assert [a, b][1..] == [b] && [b][1..] == "";
    assert ScanDigits("", 10, DigitOf(a, 10).value * 10 + DigitOf(b, 10).value)
        == DigitOf(a, 10).value * 10 + DigitOf(b, 10).value;
  }

  // ---------- what is printed is read back ----------

  // Digits of the radix, every one of which is read.
  ghost predicate Numeral(s: string, radix: nat) {
    forall i :: 0 <= i < |s| ==> DigitOf(s[i], radix).Some? && s[i] != 'x' && s[i] != '-'
  }

  lemma DigitRead(d: nat, radix: nat)
    requires d < radix && (radix == 8 || radix == 10 || radix == 16)
    ensures DigitOf(DigitChar(d), radix) == Some(d) && DigitChar(d) != 'x' && DigitChar(d) != '-'
    ensures DigitChar(d) == '0' <==> d == 0
  {
  }

  lemma {:induction false} DigitsNumeral(n: nat, radix: nat)
    requires radix == 8 || radix == 10 || radix == 16
    ensures Numeral(Digits(n, radix), radix)
    ensures n > 0 ==> Digits(n, radix) != "" && Digits(n, radix)[0] != '0'
  {
    hide DigitOf, DigitChar;
    if n > 0 {
      DigitsNumeral(n / radix, radix);
      DigitRead(n % radix, radix);
    }
  }

  lemma {:induction false} ScanAppend(s: string, c: char, radix: nat, acc: nat)
    requires Numeral(s, radix) && DigitOf(c, radix).Some?
    ensures ScanDigits(s + [c], radix, acc) == ScanDigits(s, radix, acc) * radix + DigitOf(c, radix).value
    decreases |s|
  {
    hide DigitOf;
    if s == "" {
      assert (s + [c])[1..] == "";
    } else {
      assert (s + [c])[0] == s[0] && (s + [c])[1..] == s[1..] + [c];
      ScanAppend(s[1..], c, radix, acc * radix + DigitOf(s[0], radix).value);
    }
  }

  lemma Composed(n: nat, radix: nat)
    requires radix == 8 || radix == 10 || radix == 16
    ensures (n / radix) * radix + n % radix == n
  {
  }

  lemma {:induction false} ScanOfDigits(n: nat, radix: nat)
    requires radix == 8 || radix == 10 || radix == 16
    ensures ScanDigits(Digits(n, radix), radix, 0) == n
  {
    hide DigitOf, DigitChar, Numeral;
    if n > 0 {
      Composed(n, radix);
      DigitsNumeral(n / radix, radix);
      DigitRead(n % radix, radix);
      ScanAppend(Digits(n / radix, radix), DigitChar(n % radix), radix, 0);
      ScanOfDigits(n / radix, radix);
    }
  }

  lemma ScanOfText(v: int)
    ensures Scan(Text(v, 10)) == v
  {
    var n, s := if v < 0 then -v else v, Text(v, 10);
    if v == 0 {
      assert s[1..] == "";
    } else {
      DigitsNumeral(n, 10);
      ScanOfDigits(n, 10);
      assert s[SignLength(s)..] == Digits(n, 10);
    }
  }

  // A number printed in radix 16 or 8 is read back if "0x" or "0" is put before its digits.
  lemma ScanOfPrefixed(n: nat)
    ensures Scan("0x" + Text(n, 16)) == n && Scan("-0x" + Text(n, 16)) == 0 - n
    ensures Scan("0" + Text(n, 8)) == n && Scan("-0" + Text(n, 8)) == 0 - n
  {
    ScanAfter("0x", n, 16);
    ScanAfter("-0x", n, 16);
    ScanAfter("0", n, 8);
    ScanAfter("-0", n, 8);
  }

  lemma ScanAfter(prefix: string, n: nat, radix: nat)
    requires (radix == 16 && prefix in {"0x", "-0x"}) || (radix == 8 && prefix in {"0", "-0"})
    ensures Scan(prefix + Text(n, radix)) == if prefix[0] == '-' then 0 - n else n
  {
    hide DigitOf, DigitChar;
    var d, s := Text(n, radix), prefix + Text(n, radix);
    TextRead(n, radix);
    assert s[..|prefix|] == prefix && s[|prefix|..] == d;
    assert forall i :: 0 <= i < |prefix| ==> At(s, i) == prefix[i];
    assert At(s, |prefix|) == d[0];
  }

  lemma TextRead(n: nat, radix: nat)
    requires radix == 8 || radix == 16
    ensures ScanDigits(Text(n, radix), radix, 0) == n && Text(n, radix) != "" && Text(n, radix)[0] != 'x'
  {
    if n == 0 {
      assert "0"[1..] == "";
    } else {
      DigitsNumeral(n, radix);
      ScanOfDigits(n, radix);
    }
  }
}
