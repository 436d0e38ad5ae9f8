/**
 * The pattern matcher: the compiler of patterns and the backtracking matcher with its
 * shortcuts, for case-sensitive matching of whole patterns.
 */
module PatternMatchers {
  import opened Basics
  import opened PatternGlobs
  import PatternTexts

  datatype Status = Compiles | UnmatchedBrace | RunsOver

  // ---------- putting pieces in front ----------

  function InFront<T>(a: seq<T>, r: Reading<seq<T>>): Reading<seq<T>> { if r.Read? then Read(a + r.value) else r }

  function CharsInFront(a: string, r: Option<(string, nat)>): Option<(string, nat)> {
    if r.Some? then Some((a + r.value.0, r.value.1)) else r
  }

  lemma InFrontTwice<T>(a: seq<T>, b: seq<T>, r: Reading<seq<T>>)
    ensures InFront(a, InFront(b, r)) == InFront(a + b, r)
  {
    if r.Read? { Associative(a, b, r.value); }
  }

  lemma TextInFrontTwice(a: string, b: string, r: Reading<(string, nat)>)
    ensures TextInFront(a, TextInFront(b, r)) == TextInFront(a + b, r)
  {
    if r.Read? { Associative(a, b, r.value.0); }
  }

  lemma CharsInFrontTwice(a: string, b: string, r: Option<(string, nat)>)
    ensures CharsInFront(a, CharsInFront(b, r)) == CharsInFront(a + b, r)
  {
    if r.Some? { Associative(a, b, r.value.0); }
  }

  lemma CharsNothing(r: Option<(string, nat)>)
    ensures CharsInFront("", r) == r
  {
    if r.Some? { assert "" + r.value.0 == r.value.0; }
  }

  // One character of a literal.
  lemma LiteralStep(p: string, text: string, i: nat)
    requires i < |p| && !Special(p[i])
    ensures var k := if p[i] == '\\' then i + 1 else i;
      TextInFront(text, LiteralAt(p, i)) ==
        if k >= |p| then Overrun
        else if p[k] == '[' && RangeAt(p, k, ']').Some? then Read((text + [p[k]], k))
        else TextInFront(text + [p[k]], LiteralAt(p, k + 1))
  {
    hide RangeAt;
    var k := if p[i] == '\\' then i + 1 else i;
    if k < |p| { TextInFrontTwice(text, [p[k]], LiteralAt(p, k + 1)); }
  }

  lemma LiteralEnd(p: string, text: string, i: nat)
    requires i >= |p| || Special(p[i])
    ensures TextInFront(text, LiteralAt(p, i)) == Read((text, i))
  {
    assert text + "" == text;
  }

  lemma TextNothing(r: Reading<(string, nat)>)
    ensures TextInFront("", r) == r
  {
    if r.Read? { assert "" + r.value.0 == r.value.0; }
  }

  lemma {:induction false} RunIs(s: string, n: nat)
    requires n <= |s| && (forall k :: 0 <= k < n ==> IsDigit(s[k])) && (n < |s| ==> !IsDigit(s[n]))
    ensures DigitRun(s) == n
  {
  }

  // ---------- the parsers ----------

  method SkipDigits(p: string, i: nat) returns (j: nat)
    ensures j == RunEnd(p, i)
  {
    j := i;
    while j < |p| && IsDigit(p[j])
      invariant i <= j && (j <= |p| || j == i) && forall k :: i <= k < j ==> k < |p| && IsDigit(p[k])
    {
      j := j + 1;
    }
    if i < |p| { RunIs(p[i..], j - i); }
  }

  // The number written at i.
  function Atol(p: string, i: nat): int
    requires i < |p|
  {
    Number(p[i..][..DigitRun(p[i..])])
  }

  lemma AtolIsBound(p: string, i: nat)
    requires i < |p|
    ensures BoundAt(p, i, RunEnd(p, i)) == if IsDigit(p[i]) then Atol(p, i) else -1
    ensures RunEnd(p, i) > i <==> IsDigit(p[i])
  {
    var d := DigitRun(p[i..]);
    assert p[i..][0] == p[i];
    assert p[i..][..d] == p[i..i + d];
    forall k | i <= k < i + d
      ensures IsDigit(p[k])
    {
      assert p[k] == p[i..][k - i];
    }
  }

  method ParseNumRange(p: string, i: nat, closing: char) returns (r: Option<(int, int, nat)>)
    requires closing != '\0'
    ensures r == RangeAt(p, i, closing)
  {
    var lo, up := -1, -1;
    var s := i + 1;
    if s < |p| { AtolIsBound(p, s); }
    if s < |p| && IsDigit(p[s]) {
      lo := Atol(p, s);
      s := SkipDigits(p, s);
    }
    if At(p, s) != '.' || At(p, s + 1) != '.' {
      return None;
    }
    ghost var a := s;
    s := s + 2;
    if s < |p| { AtolIsBound(p, s); }
    if s < |p| && IsDigit(p[s]) {
      up := Atol(p, s);
      s := SkipDigits(p, s);
    }
    if At(p, s) != closing {
      return None;
    }
    return Some((lo, up, s));
  }

  method ParseLiteralString(p: string, start: nat) returns (r: Reading<(string, nat)>)
    ensures r == LiteralAt(p, start)
  {
    hide LiteralAt, RangeAt;
    var text, i := "", start;
    TextNothing(LiteralAt(p, start));
    while i < |p| && !Special(p[i])
      invariant LiteralAt(p, start) == TextInFront(text, LiteralAt(p, i))
      decreases |p| - i
    {
      LiteralStep(p, text, i);
      var k := i;
      if p[i] == '\\' {
        k := i + 1;
      }
      if k >= |p| {
        return Overrun;
      }
      text := text + [p[k]];
      if p[k] == '[' {
        var range := ParseNumRange(p, k, ']');
        if range.Some? {
          return Read((text, k));
        }
      }
      i := k + 1;
    }
    LiteralEnd(p, text, i);
    return Read((text, i));
  }

  // The characters of a set whose brace is at `brace`.
  method ParseSet(p: string, brace: nat) returns (negated: bool, r: Option<(string, nat)>)
    requires brace < |p| && p[brace] == '{'
    ensures negated == (At(p, brace + 1) == '^')
    ensures var start := if negated then brace + 2 else brace + 1; r == SetAt(p, start, start)
  {
    var s := brace + 1;
    negated := false;
    if At(p, s) == '^' {
      negated := true;
      s := s + 1;
    }
    var start, chars := s, "";
    CharsNothing(SetAt(p, start, start));
    while s < |p| && (p[s] != '}' || s == start)
      invariant SetAt(p, start, start) == CharsInFront(chars, SetAt(p, s, start))
      decreases |p| - s
    {
      if At(p, s + 1) == '-' && s + 2 < |p| && p[s + 2] != '}' {
        CharsInFrontTwice(chars, [p[s], p[s + 2]], SetAt(p, s + 3, start));
        chars := chars + [p[s], p[s + 2]];
        s := s + 3;
      } else {
        CharsInFrontTwice(chars, [p[s], p[s]], SetAt(p, s + 1, start));
        chars := chars + [p[s], p[s]];
        s := s + 1;
      }
    }
    if s >= |p| {
      return negated, None;
    }
    assert chars + "" == chars;
    return negated, Some((chars, s + 1));
  }

  // Whether the last element so far is a literal.
  predicate AfterLiteral(e: seq<Elem>) { e != [] && e[|e| - 1].Literal? }

  // The element that begins at i and where the next one begins.
  function ElementAt(p: string, i: nat, dotted: bool, literal: bool): Reading<(Elem, nat)>
    requires i < |p|
  {
    if p[i] == '?' then Read((if dotted then CommonChar else AnyChar, i + 1))
    else if p[i] == '*' then
      if At(p, i + 1) == '*' then Read((AnySeq, i + 2)) else Read((if dotted then CommonSeq else AnySeq, i + 1))
    else if p[i] == '{' then
      var n := RangeAt(p, i, '}');
      if n.Some? then Read((NumRange(n.value.0, n.value.1), n.value.2 + 1))
      else
        var start := if At(p, i + 1) == '^' then i + 2 else i + 1;
        var r := SetAt(p, start, start);
        if r.None? then Unmatched
        else Read((if At(p, i + 1) == '^' then NegSet(r.value.0) else Set(r.value.0), r.value.1))
    else
      var n := RangeAt(p, i, ']');
      if p[i] == '[' && literal && n.Some? then Read((NumRange(n.value.0, n.value.1), n.value.2))
      else
        var r := LiteralAt(p, i);
        if r.Read? then Read((Literal(r.value.0), r.value.1)) else Overrun
  }

  lemma ElementsStep(p: string, i: nat, dotted: bool, literal: bool)
    requires i < |p|
    ensures var e := ElementAt(p, i, dotted, literal);
      && (e == Unmatched ==> Elements(p, i, dotted, literal) == Unmatched)
      && (e == Overrun ==> Elements(p, i, dotted, literal) == Overrun)
      && (e.Read? ==>
            && !e.value.0.End?
            && (i < e.value.1 || (i == e.value.1 && !literal && e.value.0.Literal?))
            && Elements(p, i, dotted, literal)
               == InFront([e.value.0], Elements(p, e.value.1, dotted, e.value.0.Literal?)))
  {
    hide LiteralAt, RangeAt, SetAt, At;
    LiteralReach(p, i);
    if p[i] == '{' { BraceStep(p, i, dotted, literal); }
  }

  lemma BraceStep(p: string, i: nat, dotted: bool, literal: bool)
    requires i < |p| && p[i] == '{'
    ensures var e := ElementAt(p, i, dotted, literal);
      && (e == Unmatched ==> Elements(p, i, dotted, literal) == Unmatched) && e != Overrun
      && (e.Read? ==>
            && !e.value.0.End? && !e.value.0.Literal? && i < e.value.1
            && Elements(p, i, dotted, literal) == InFront([e.value.0], Elements(p, e.value.1, dotted, false)))
  {
    hide LiteralAt, RangeAt, SetAt, At;
    LiteralReach(p, i);
  }

  lemma LiteralReach(p: string, i: nat)
    requires i < |p|
    ensures LiteralAt(p, i).Read? ==> LiteralAt(p, i).value.1 >= i
    ensures LiteralAt(p, i).Read? && !Special(p[i]) && !(p[i] == '[' && RangeAt(p, i, ']').Some?) ==>
        LiteralAt(p, i).value.1 > i
    ensures LiteralAt(p, i) != Unmatched
    ensures forall c: char :: c != '\0' && RangeAt(p, i, c).Some? ==> RangeAt(p, i, c).value.2 > i
    ensures forall j: nat :: SetAt(p, j, j).Some? ==> SetAt(p, j, j).value.1 > j
  {
  }

  method ParseElement(p: string, i: nat, dotted: bool, literal: bool) returns (e: Reading<(Elem, nat)>)
    requires i < |p|
    ensures e == ElementAt(p, i, dotted, literal)
  {
    match p[i]
    case '?' =>
      return Read((if dotted then CommonChar else AnyChar, i + 1));
    case '[' =>
      var range := None;
      if literal {
        range := ParseNumRange(p, i, ']');
      }
      if range.Some? {
        return Read((NumRange(range.value.0, range.value.1), range.value.2));
      }
      var text := ParseLiteralString(p, i);
      return if text.Read? then Read((Literal(text.value.0), text.value.1)) else Overrun;
    case '{' =>
      var range := ParseNumRange(p, i, '}');
      if range.Some? {
        return Read((NumRange(range.value.0, range.value.1), range.value.2 + 1));
      }
      var negated, chars := ParseSet(p, i);
      if chars.None? {
        return Unmatched;
      }
      return Read((if negated then NegSet(chars.value.0) else Set(chars.value.0), chars.value.1));
    case '*' =>
      if At(p, i + 1) == '*' {
        return Read((AnySeq, i + 2));
      }
      return Read((if dotted then CommonSeq else AnySeq, i + 1));
    case _ =>
      var text := ParseLiteralString(p, i);
      return if text.Read? then Read((Literal(text.value.0), text.value.1)) else Overrun;
  }

  class PatternMatcher {
    var pattern: seq<Elem>

    constructor ()
      ensures pattern == []
    {
      pattern := [];
    }

    // A pattern is compiled; the reader runs past its end only over an odd number of backslashes there.
    method SetPattern(patt: string, dottedpath: bool, fullstring: bool) returns (status: Status)
      modifies this
      ensures status.Compiles? <==> Compiled(patt, dottedpath, fullstring).Read?
      ensures status.Compiles? ==> pattern == Compiled(patt, dottedpath, fullstring).value && Ended(pattern)
      ensures status.UnmatchedBrace? <==> Compiled(patt, dottedpath, fullstring) == Unmatched
      ensures status.RunsOver? <==> !status.UnmatchedBrace? && Trailing(patt) % 2 == 1
    {
      hide Elements, ElementAt, Trailing, Ended, Padded;
      OverrunExactly(patt, dottedpath, fullstring);
      pattern := [];
      var i := 0;
      InFrontNothing(Elements(patt, 0, dottedpath, false));
      while i < |patt|
        invariant Elements(patt, 0, dottedpath, false)
               == InFront(pattern, Elements(patt, i, dottedpath, AfterLiteral(pattern)))
        decreases |patt| - i, if AfterLiteral(pattern) then 0 else 1
      {
        ElementsStep(patt, i, dottedpath, AfterLiteral(pattern));
        var e := ParseElement(patt, i, dottedpath, AfterLiteral(pattern));
        if e == Unmatched {
          return UnmatchedBrace;
        }
        if e == Overrun {
          return RunsOver;
        }
        InFrontTwice(pattern, [e.value.0], Elements(patt, e.value.1, dottedpath, e.value.0.Literal?));
        pattern, i := pattern + [e.value.0], e.value.1;
      }
      NoMore(patt, i, dottedpath, AfterLiteral(pattern));
      assert pattern + [] == pattern;
      if !fullstring {
        Pad();
      }
      pattern := pattern + [End];
      return Compiles;
    }

    // "**" at both ends, unless already there.
    method Pad()
      modifies this
      ensures pattern == Padded(old(pattern))
    {
      if pattern == [] || pattern[|pattern| - 1] != AnySeq {
        pattern := pattern + [AnySeq];
      }
      if pattern[0] != AnySeq {
        pattern := [AnySeq] + pattern;
      }
    }

    // Whether c lies in one of the ranges.
    method IsInSet(c: char, chars: string) returns (found: bool)
      ensures found == InSet(c, chars)
    {
      var i := 0;
      while 2 * i + 1 < |chars|
        invariant 0 <= i && forall j :: 0 <= j < i && j < |chars| / 2 ==> !(chars[2 * j] <= c <= chars[2 * j + 1])
      {
        if chars[2 * i] <= c <= chars[2 * i + 1] {
          return true;
        }
        i := i + 1;
      }
      return false;
    }

    // Matches the line from the k-th element on; wildcards are tried from the shortest on.
    method DoMatch(line: string, start: nat) returns (m: bool)
      requires Ended(pattern) && start < |pattern|
      ensures m <==> Glob(pattern, start, line)
      decreases |pattern| - start
    {
      var s, k := line, start;
      while true
        invariant start <= k < |pattern| && (Glob(pattern, k, s) <==> Glob(pattern, start, line))
        decreases |pattern| - k
      {
        match pattern[k] {
          case End =>
            return s == "";
          case AnySeq =>
            m := MatchAnySeq(s, k);
            return m;
          case CommonSeq =>
            m := MatchCommonSeq(s, k);
            return m;
          case _ =>
            var rest := MatchOne(s, k);
            if rest.None? {
              return false;
            }
            s := rest.value;
        }
        k := k + 1;
      }
      assert false;
    }

    // What is left of s after an element of one way of matching.
    method MatchOne(s: string, k: nat) returns (rest: Option<string>)
      requires Ended(pattern) && k < |pattern| - 1 && !pattern[k].AnySeq? && !pattern[k].CommonSeq?
      ensures if rest.Some? then Glob(pattern, k, s) <==> Glob(pattern, k + 1, rest.value) else !Glob(pattern, k, s)
    {
      match pattern[k]
      case Literal(text) =>
        return if text <= s then Some(s[|text|..]) else None;
      case AnyChar =>
        return if s == "" then None else Some(s[1..]);
      case CommonChar =>
        return if s == "" || s[0] == '.' then None else Some(s[1..]);
      case Set(chars) =>
        if s == "" {
          return None;
        }
        var found := IsInSet(s[0], chars);
        return if found then Some(s[1..]) else None;
      case NegSet(chars) =>
        if s == "" {
          return None;
        }
        var found := IsInSet(s[0], chars);
        return if found then None else Some(s[1..]);
      case NumRange(from, to) =>
        if s == "" || !IsDigit(s[0]) {
          return None;
        }
        var num := Atol(s, 0);
        assert s[0..] == s;
        var end := SkipDigits(s, 0);
        if (from >= 0 && num < from) || (to >= 0 && num > to) {
          return None;
        }
        return Some(s[end..]);
    }

    // "**": with nothing after it anything will do, with a last literal only the end matters.
    method MatchAnySeq(line: string, k: nat) returns (m: bool)
      requires Ended(pattern) && k < |pattern| && pattern[k].AnySeq?
      ensures m <==> Glob(pattern, k, line)
      decreases |pattern| - k, 0
    {
      if k + 2 == |pattern| {
        AnyTail(pattern, k, line);
        return true;
      }
      if k + 3 == |pattern| && pattern[k + 1].Literal? {
        LiteralTail(pattern, k, line);
        var t := pattern[k + 1].text;
        return |line| >= |t| && line[|line| - |t|..] == t;
      }
      var i := 0;
      while true
        invariant 0 <= i <= |line| && forall j :: 0 <= j < i ==> !Glob(pattern, k + 1, line[j..])
        decreases |line| - i
      {
        var found := DoMatch(line[i..], k + 1);
        if found {
          return true;
        }
        if i == |line| {
          return false;
        }
        i := i + 1;
      }
      assert false;
    }

    // "*": as far as the next dot.
    method MatchCommonSeq(line: string, k: nat) returns (m: bool)
      requires Ended(pattern) && k < |pattern| && pattern[k].CommonSeq?
      ensures m <==> Glob(pattern, k, line)
      decreases |pattern| - k, 0
    {
      var i := 0;
      while true
        invariant 0 <= i <= |line| && NoDot(line[..i])
        invariant forall j :: 0 <= j < i ==> !Glob(pattern, k + 1, line[j..])
        decreases |line| - i
      {
        var found := DoMatch(line[i..], k + 1);
        if found {
          return true;
        }
        if i == |line| || line[i] == '.' {
          DotStops(line, i);
          return false;
        }
        assert line[..i + 1] == line[..i] + [line[i]];
        i := i + 1;
      }
      assert false;
    }

    // The full answer, after a look at the last two characters.
    method Matches(line: string) returns (m: bool)
      requires Ended(pattern)
      ensures m <==> Glob(pattern, 0, line)
    {
      if |pattern| >= 2 {
        var e := pattern[|pattern| - 2];
        if e.Literal? {
          var t, n := |e.text|, |line|;
          if t >= 2 && n >= 2 && (line[n - 1] != e.text[t - 1] || line[n - 2] != e.text[t - 2]) {
            LastTwo(pattern, line);
            return false;
          }
        }
      }
      m := DoMatch(line, 0);
    }
  }

  // A matcher for a pattern written by the rules answers whether the line is one its tokens match.
  method MatchWritten(patt: string, ghost ts: seq<PatternTexts.Token>, dotted: bool, line: string) returns (m: bool)
    requires PatternTexts.Legible([], ts) && patt == PatternTexts.Write(ts)
    ensures m <==> PatternTexts.Accepts(ts, dotted, line)
  {
    hide Compiled, Trailing, Glob;
    PatternTexts.WrittenPattern(ts, dotted, line);
    var matcher := new PatternMatcher();
    var status := matcher.SetPattern(patt, dotted, true);
    m := matcher.Matches(line);
  }

  lemma NoMore(p: string, i: nat, dotted: bool, literal: bool)
    requires i >= |p|
    ensures Elements(p, i, dotted, literal) == Read([])
  {
  }

  lemma InFrontNothing<T>(r: Reading<seq<T>>)
    ensures InFront([], r) == r
  {
    if r.Read? { assert [] + r.value == r.value; }
  }

  // Past a dot a "*" does not reach.
  lemma DotStops(line: string, i: nat)
    requires i <= |line| && (i < |line| ==> line[i] == '.')
    ensures forall j :: i < j <= |line| ==> !NoDot(line[..j])
  {
    forall j | i < j <= |line|
      ensures !NoDot(line[..j])
    {
      assert line[..j][i] == '.';
    }
  }

  lemma LastTwo(p: seq<Elem>, line: string)
    requires Ended(p) && |p| >= 2 && p[|p| - 2].Literal? && |p[|p| - 2].text| >= 2 && |line| >= 2
    requires var t := p[|p| - 2].text; line[|line| - 1] != t[|t| - 1] || line[|line| - 2] != t[|t| - 2]
    ensures !Glob(p, 0, line)
  {
    var t := p[|p| - 2].text;
    if Glob(p, 0, line) {
      EndsWithLast(p, 0, line);
      SameEnd(line, t);
    }
  }

  lemma SameEnd(s: string, t: string)
    requires EndsWith(s, t) && |t| >= 2
    ensures |s| >= 2 && s[|s| - 1] == t[|t| - 1] && s[|s| - 2] == t[|t| - 2]
  {
    var tail := s[|s| - |t|..];
    assert tail[|t| - 1] == s[|s| - 1] && tail[|t| - 2] == s[|s| - 2];
  }
}
