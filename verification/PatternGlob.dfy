/**
 * Glob patterns: how a pattern is read, element by element, and what the elements mean.
 */
module PatternGlobs {
  import opened Basics

  datatype Elem =
    | Literal(text: string)
    | AnyChar
    | CommonChar
    | Set(chars: string)
    | NegSet(chars: string)
    | NumRange(from: int, to: int)
    | AnySeq
    | CommonSeq
    | End

  predicate IsDigit(c: char) { '0' <= c <= '9' }

  // ---------- the meaning of elements ----------

  // Characters come in pairs, the ends of ranges.
  predicate InSet(c: char, chars: string) {
    exists i :: 0 <= i < |chars| / 2 && chars[2 * i] <= c <= chars[2 * i + 1]
  }

  // The length of the run of digits at the front, and its value.
  function DigitRun(s: string): (n: nat)
    ensures n <= |s| && (forall i :: 0 <= i < n ==> IsDigit(s[i])) && (n < |s| ==> !IsDigit(s[n]))
  {
    if s == "" || !IsDigit(s[0]) then 0 else 1 + DigitRun(s[1..])
  }

  function Number(s: string): nat
    requires forall i :: 0 <= i < |s| ==> IsDigit(s[i])
  {
    if s == "" then 0
    else
      assert IsDigit(s[|s| - 1]);
      Number(s[..|s| - 1]) * 10 + (s[|s| - 1] as int - '0' as int)
  }

  predicate InRange(n: nat, e: Elem)
    requires e.NumRange?
  {
    (e.from < 0 || n >= e.from) && (e.to < 0 || n <= e.to)
  }

  // The elements from the k-th on match s.
  ghost predicate Glob(p: seq<Elem>, k: nat, s: string)
    requires k <= |p|
    decreases |p| - k
  {
    if k == |p| then false
    else match p[k]
      case Literal(text) => text <= s && Glob(p, k + 1, s[|text|..])
      case AnyChar => s != "" && Glob(p, k + 1, s[1..])
      case CommonChar => s != "" && s[0] != '.' && Glob(p, k + 1, s[1..])
      case Set(chars) => s != "" && InSet(s[0], chars) && Glob(p, k + 1, s[1..])
      case NegSet(chars) => s != "" && !InSet(s[0], chars) && Glob(p, k + 1, s[1..])
      case NumRange(_, _) =>
        DigitRun(s) > 0 && InRange(Number(s[..DigitRun(s)]), p[k]) && Glob(p, k + 1, s[DigitRun(s)..])
      case AnySeq => exists i :: 0 <= i <= |s| && Glob(p, k + 1, s[i..])
      case CommonSeq => exists i :: 0 <= i <= |s| && NoDot(s[..i]) && Glob(p, k + 1, s[i..])
      case End => s == ""
  }

  predicate NoDot(s: string) { '.' !in s }

  // The end mark is last, and only there.
  ghost predicate Ended(p: seq<Elem>) {
    p != [] && forall k :: 0 <= k < |p| ==> (p[k].End? <==> k == |p| - 1)
  }

  ghost predicate EndsWith(s: string, t: string) {
    |t| <= |s| && s[|s| - |t|..] == t
  }

  // After a final "**" anything is left to match.
  lemma AnyTail(p: seq<Elem>, k: nat, s: string)
    requires Ended(p) && k + 2 == |p| && p[k].AnySeq?
    ensures Glob(p, k, s)
  {
    assert s[|s|..] == "" && Glob(p, k + 1, s[|s|..]);
  }

  // After "**" a final literal has only to be at the end.
  lemma LiteralTail(p: seq<Elem>, k: nat, s: string)
    requires Ended(p) && k + 3 == |p| && p[k].AnySeq? && p[k + 1].Literal?
    ensures Glob(p, k, s) <==> EndsWith(s, p[k + 1].text)
  {
    var t := p[k + 1].text;
    forall i | 0 <= i <= |s|
      ensures Glob(p, k + 1, s[i..]) <==> s[i..] == t
    {
      if t <= s[i..] && s[i..][|t|..] == "" { assert s[i..] == t + s[i..][|t|..]; }
      assert Glob(p, k + 2, s[i..][if |t| <= |s[i..]| then |t| else 0..])
          <==> s[i..][if |t| <= |s[i..]| then |t| else 0..] == "";
    }
    if EndsWith(s, t) { assert Glob(p, k + 1, s[|s| - |t|..]); }
  }

  // Whatever matches ends with the last literal.
  lemma {:induction false} EndsWithLast(p: seq<Elem>, k: nat, s: string)
    requires Ended(p) && k + 2 <= |p| && p[|p| - 2].Literal? && Glob(p, k, s)
    ensures EndsWith(s, p[|p| - 2].text)
    decreases |p| - k
  {
    if k + 2 == |p| {
      var t := p[k].text;
      assert Glob(p, k + 1, s[|t|..]);
      assert s == t + s[|t|..];
    } else {
      var i := Consumed(p, k, s);
      EndsWithLast(p, k + 1, s[i..]);
      assert s == s[..i] + s[i..];
    }
  }

  // How much of s the k-th element takes.
  lemma Consumed(p: seq<Elem>, k: nat, s: string) returns (i: nat)
    requires k < |p| && !p[k].End? && Glob(p, k, s)
    ensures i <= |s| && Glob(p, k + 1, s[i..])
  {
    match p[k]
    case Literal(text) => i := |text|;
    case NumRange(_, _) => i := DigitRun(s);
    case AnySeq => i :| 0 <= i <= |s| && Glob(p, k + 1, s[i..]);
    case CommonSeq => i :| 0 <= i <= |s| && NoDot(s[..i]) && Glob(p, k + 1, s[i..]);
    case _ => i := 1;
  }

  // ---------- reading a pattern ----------

  // "[n..m]" or "{n..m}" at i: the bounds, minus one where there is none, and where it closes.
  function RangeAt(p: string, i: nat, closing: char): (r: Option<(int, int, nat)>)
    requires closing != '\0'
    ensures r.Some? ==> i + 3 <= r.value.2 < |p| && p[r.value.2] == closing && p[i + 1..r.value.2] != "" && Dots(p)
  {
    var a := RunEnd(p, i + 1);
    if At(p, a) != '.' || At(p, a + 1) != '.' then None
    else
      var b := RunEnd(p, a + 2);
      if At(p, b) != closing then None else Some((BoundAt(p, i + 1, a), BoundAt(p, a + 2, b), b))
  }

  predicate Dots(p: string) { exists i :: 0 <= i < |p| - 1 && p[i] == '.' && p[i + 1] == '.' }

  // Where the run of digits at i ends.
  function RunEnd(p: string, i: nat): (j: nat)
    ensures i <= j && (i <= |p| ==> j <= |p|) && (i > |p| ==> j == i)
  {
    if i < |p| then i + DigitRun(p[i..]) else i
  }

  function BoundAt(p: string, i: nat, j: nat): int {
    if i < j <= |p| && (forall k :: i <= k < j ==> IsDigit(p[k])) then Number(p[i..j]) else -1
  }

  // The characters of a set up to the closing brace, ranges and single characters as pairs.
  function SetAt(p: string, i: nat, start: nat): (r: Option<(string, nat)>)
    ensures r.Some? ==> i < r.value.1 <= |p| && p[r.value.1 - 1] == '}' && |r.value.0| % 2 == 0
    decreases |p| - i
  {
    if i >= |p| then None
    else if p[i] == '}' && i != start then Some(("", i + 1))
    else if At(p, i + 1) == '-' && i + 2 < |p| && p[i + 2] != '}' then
      var r := SetAt(p, i + 3, start);
      if r.None? then None else Some(([p[i], p[i + 2]] + r.value.0, r.value.1))
    else
      var r := SetAt(p, i + 1, start);
      if r.None? then None else Some(([p[i], p[i]] + r.value.0, r.value.1))
  }

  datatype Reading<T> = Read(value: T) | Unmatched | Overrun

  // A literal runs up to a wildcard, or to a bracket that begins a range; a backslash at the very
  // end makes the reader run past the end.
  function LiteralAt(p: string, i: nat): (r: Reading<(string, nat)>)
    ensures r.Read? ==> i <= r.value.1 && (i <= |p| ==> r.value.1 <= |p|)
    ensures r.Read? && i < |p| && !Special(p[i]) && !(p[i] == '[' && RangeAt(p, i, ']').Some?) ==> r.value.1 > i
    ensures r != Unmatched && (r == Overrun ==> p != "" && p[|p| - 1] == '\\')
    decreases |p| - i
  {
    if i >= |p| || Special(p[i]) then Read(("", i))
    else
      var k := if p[i] == '\\' then i + 1 else i;
      if k >= |p| then Overrun
      else if p[k] == '[' && RangeAt(p, k, ']').Some? then Read(([p[k]], k))
      else
        var r := LiteralAt(p, k + 1);
        if r == Overrun then Overrun else Read(([p[k]] + r.value.0, r.value.1))
  }

  function TextInFront(a: string, r: Reading<(string, nat)>): Reading<(string, nat)> {
    if r.Read? then Read((a + r.value.0, r.value.1)) else r
  }

  predicate Special(c: char) { c == '?' || c == '{' || c == '*' }

  // The elements of the pattern from i on; `literal` tells whether the one before was a literal.
  function Elements(p: string, i: nat, dotted: bool, literal: bool): (r: Reading<seq<Elem>>)
    ensures r.Read? ==> forall k :: 0 <= k < |r.value| ==> !r.value[k].End?
    ensures r == Overrun ==> p != "" && p[|p| - 1] == '\\'
    decreases |p| - i, if literal then 0 else 1
  {
    if i >= |p| then Read([])
    else if p[i] == '?' then
      Then(if dotted then CommonChar else AnyChar, Elements(p, i + 1, dotted, false))
    else if p[i] == '*' then
      if At(p, i + 1) == '*' then Then(AnySeq, Elements(p, i + 2, dotted, false))
      else Then(if dotted then CommonSeq else AnySeq, Elements(p, i + 1, dotted, false))
    else if p[i] == '{' then
      var n := RangeAt(p, i, '}');
      if n.Some? then Then(NumRange(n.value.0, n.value.1), Elements(p, n.value.2 + 1, dotted, false))
      else
        var start := if At(p, i + 1) == '^' then i + 2 else i + 1;
        var r := SetAt(p, start, start);
        if r.None? then Unmatched
        else Then(if At(p, i + 1) == '^' then NegSet(r.value.0) else Set(r.value.0),
                  Elements(p, r.value.1, dotted, false))
    else
      var n := RangeAt(p, i, ']');
      if p[i] == '[' && literal && n.Some? then
        Then(NumRange(n.value.0, n.value.1), Elements(p, n.value.2, dotted, false))
      else
        var r := LiteralAt(p, i);
        if r.Read? then Then(Literal(r.value.0), Elements(p, r.value.1, dotted, true)) else Overrun
  }

  function Then(e: Elem, r: Reading<seq<Elem>>): Reading<seq<Elem>> {
    if r.Read? then Read([e] + r.value) else r
  }

  // Without the full string in view, anything may stand before and after.
  function Padded(p: seq<Elem>): seq<Elem> {
    var q := if p == [] || p[|p| - 1] != AnySeq then p + [AnySeq] else p;
    if q[0] != AnySeq then [AnySeq] + q else q
  }

  function Compiled(p: string, dotted: bool, full: bool): (r: Reading<seq<Elem>>)
    ensures r.Read? ==> Ended(r.value)
  {
    var r := Elements(p, 0, dotted, false);
    if r.Read? then Read((if full then r.value else Padded(r.value)) + [End]) else r
  }

  // A backslash takes away the meaning of the character after it, unless that is a bracket that
  // begins a range.
  lemma EscapeWorks(p: string, i: nat)
    requires i + 1 < |p| && p[i] == '\\'
    ensures LiteralAt(p, i) == TextInFront([p[i + 1]], LiteralAt(p, i + 2))
       <==> !(p[i + 1] == '[' && RangeAt(p, i + 1, ']').Some?)
  {
    hide RangeAt;
  }

  // Such a range is read all the same.
  lemma EscapedRange(p: string, i: nat, dotted: bool, literal: bool)
    requires i + 1 < |p| && p[i] == '\\' && p[i + 1] == '[' && RangeAt(p, i + 1, ']').Some?
    ensures var n := RangeAt(p, i + 1, ']').value;
      Elements(p, i, dotted, literal) == Then(Literal("["), Then(NumRange(n.0, n.1), Elements(p, n.2, dotted, false)))
  {
    hide RangeAt, SetAt;
    assert LiteralAt(p, i) == Read((['['], i + 1));
    assert Elements(p, i, dotted, literal) == Then(Literal("["), Elements(p, i + 1, dotted, true));
  }

  // ---------- running past the end ----------

  // How many backslashes the pattern ends with.
  function Trailing(p: string): (n: nat)
    ensures n <= |p| && (forall k :: |p| - n <= k < |p| ==> p[k] == '\\') && (n < |p| ==> p[|p| - n - 1] != '\\')
  {
    if p == "" || p[|p| - 1] != '\\' then 0 else 1 + Trailing(p[..|p| - 1])
  }

  // A position at which a character is read that no backslash before it escapes, as far as the
  // backslashes at the end are concerned.
  predicate Fresh(p: string, i: nat) {
    i <= |p| && (i <= |p| - Trailing(p) || (i - (|p| - Trailing(p))) % 2 == 0)
  }

  lemma FreshAround(p: string, k: nat)
    requires k < |p| && p[k] != '\\'
    ensures Fresh(p, k) && Fresh(p, k + 1)
  {
  }

  lemma FreshEscape(p: string, i: nat)
    requires i < |p| && p[i] == '\\' && Fresh(p, i)
    ensures if i + 1 < |p| then Fresh(p, i + 2) else Trailing(p) % 2 == 1
  {
  }

  lemma {:induction false} LiteralRunsOver(p: string, i: nat)
    requires Fresh(p, i)
    ensures LiteralAt(p, i) == Overrun ==> Trailing(p) % 2 == 1
    ensures LiteralAt(p, i).Read? ==> Fresh(p, LiteralAt(p, i).value.1)
    decreases |p| - i
  {
    hide RangeAt, Trailing, Fresh;
    if i < |p| && !Special(p[i]) {
      var k := if p[i] == '\\' then i + 1 else i;
      if p[i] == '\\' { FreshEscape(p, i); } else { FreshAround(p, i); }
      if k < |p| {
        if p[k] == '[' && RangeAt(p, k, ']').Some? { FreshAround(p, k); } else { LiteralRunsOver(p, k + 1); }
      }
    }
  }

  // The reader of a pattern with no unmatched brace runs past its end exactly if the backslashes
  // at its end are odd in number.
  lemma {:induction false} ElementsRunOver(p: string, i: nat, dotted: bool, literal: bool)
    requires Fresh(p, i)
    ensures Elements(p, i, dotted, literal) == Unmatched
        || (Elements(p, i, dotted, literal) == Overrun <==> Trailing(p) % 2 == 1)
    decreases |p| - i, if literal then 1 else 2
  {
    hide LiteralAt, RangeAt, SetAt, Trailing, Fresh;
    if i >= |p| {
      FreshEnd(p, i);
    } else if p[i] == '?' {
      FreshAround(p, i);
      ElementsRunOver(p, i + 1, dotted, false);
    } else if p[i] == '*' {
      FreshAround(p, i);
      if At(p, i + 1) == '*' { FreshAround(p, i + 1); }
      ElementsRunOver(p, if At(p, i + 1) == '*' then i + 2 else i + 1, dotted, false);
    } else if p[i] == '{' {
      BraceRunsOver(p, i, dotted);
    } else {
      var n := RangeAt(p, i, ']');
      var r := LiteralAt(p, i);
      if p[i] == '[' && literal && n.Some? {
        FreshAround(p, n.value.2);
        ElementsRunOver(p, n.value.2, dotted, false);
      } else if r.Read? {
        LiteralRunsOver(p, i);
        ElementsRunOver(p, r.value.1, dotted, true);
      } else {
        LiteralRunsOver(p, i);
      }
    }
  }

  lemma FreshEnd(p: string, i: nat)
    requires Fresh(p, i) && i >= |p|
    ensures Trailing(p) % 2 == 0
  {
  }

  lemma {:induction false} BraceRunsOver(p: string, i: nat, dotted: bool)
    requires i < |p| && p[i] == '{'
    ensures var r := Elements(p, i, dotted, false); r == Unmatched || (r == Overrun <==> Trailing(p) % 2 == 1)
    decreases |p| - i, 0
  {
    hide LiteralAt, RangeAt, SetAt, Trailing, Fresh;
    var n := RangeAt(p, i, '}');
    var start := if At(p, i + 1) == '^' then i + 2 else i + 1;
    var r := SetAt(p, start, start);
    if n.Some? {
      FreshAround(p, n.value.2);
      ElementsRunOver(p, n.value.2 + 1, dotted, false);
    } else if r.Some? {
      FreshAround(p, r.value.1 - 1);
      ElementsRunOver(p, r.value.1, dotted, false);
    }
  }

  lemma OverrunExactly(p: string, dotted: bool, full: bool)
    ensures Compiled(p, dotted, full) == Overrun <==> Compiled(p, dotted, full) != Unmatched && Trailing(p) % 2 == 1
  {
    ElementsRunOver(p, 0, dotted, false);
  }

  // A set is closed by a brace that is not its first character.
  ghost predicate Closes(p: string, i: nat, start: nat) {
    exists k :: i <= k < |p| && k > start && p[k] == '}'
  }

  lemma {:induction false} SetCloses(p: string, i: nat, start: nat)
    requires start <= i
    ensures SetAt(p, i, start).Some? <==> Closes(p, i, start)
    decreases |p| - i
  {
    if i < |p| && (p[i] != '}' || i == start) {
      SetCloses(p, if At(p, i + 1) == '-' && i + 2 < |p| && p[i + 2] != '}' then i + 3 else i + 1, start);
    }
  }

  // Where the members of a set begin whose brace is at i.
  function SetStart(p: string, i: nat): nat { if At(p, i + 1) == '^' then i + 2 else i + 1 }

  ghost predicate AllClosed(p: string) {
    forall i :: 0 <= i < |p| && p[i] == '{' ==> Closes(p, SetStart(p, i), SetStart(p, i))
  }

  // With every brace followed by a closing one that can close it, none is unmatched.
  lemma {:induction false} NoneUnmatched(p: string, i: nat, dotted: bool, literal: bool)
    requires AllClosed(p)
    ensures Elements(p, i, dotted, literal) != Unmatched
    decreases |p| - i, if literal then 0 else 1
  {
    hide LiteralAt, RangeAt, SetAt, Closes;
    if i < |p| {
      var curly, square, r := RangeAt(p, i, '}'), RangeAt(p, i, ']'), LiteralAt(p, i);
      if p[i] == '?' {
        NoneUnmatched(p, i + 1, dotted, false);
      } else if p[i] == '*' {
        NoneUnmatched(p, if At(p, i + 1) == '*' then i + 2 else i + 1, dotted, false);
      } else if p[i] == '{' && curly.Some? {
        NoneUnmatched(p, curly.value.2 + 1, dotted, false);
      } else if p[i] == '{' {
        SetCloses(p, SetStart(p, i), SetStart(p, i));
        NoneUnmatched(p, SetAt(p, SetStart(p, i), SetStart(p, i)).value.1, dotted, false);
      } else if p[i] == '[' && literal && square.Some? {
        NoneUnmatched(p, square.value.2, dotted, false);
      } else if r.Read? {
        NoneUnmatched(p, r.value.1, dotted, true);
      }
    }
  }

  // So such a pattern is read past its end exactly if the backslashes there are odd in number.
  lemma ClosedOverrun(p: string, dotted: bool, full: bool)
    requires AllClosed(p)
    ensures Compiled(p, dotted, full) == Overrun <==> Trailing(p) % 2 == 1
    ensures Compiled(p, dotted, full).Read? <==> Trailing(p) % 2 == 0
  {
    NoneUnmatched(p, 0, dotted, false);
    OverrunExactly(p, dotted, full);
  }

  // A backslash alone does.
  lemma LoneBackslash(dotted: bool, full: bool)
    ensures Compiled("\\", dotted, full) == Overrun && Trailing("\\") == 1
  {
    assert LiteralAt("\\", 0) == Overrun;
  }

  // ---------- patterns without wildcards ----------

  predicate ContainsWildcards(p: string) {
    '?' in p || '*' in p || '\\' in p || '{' in p || Dots(p)
  }

  // Letters, digits and all other characters without a meaning of their own do not count, nor do
  // brackets and single dots.
  lemma OrdinaryText(p: string)
    requires forall i :: 0 <= i < |p| ==> p[i] !in "?*\\{"
    requires forall i :: 0 <= i < |p| - 1 && p[i] == '.' ==> p[i + 1] != '.'
    ensures !ContainsWildcards(p)
  {
    assert '?' in "?*\\{" && '*' in "?*\\{" && '\\' in "?*\\{" && '{' in "?*\\{";
  }

  lemma {:induction false} PlainLiteral(p: string, i: nat)
    requires !ContainsWildcards(p) && i <= |p|
    ensures LiteralAt(p, i) == Read((p[i..], |p|))
    decreases |p| - i
  {
    if i < |p| {
      assert p[i] in p;
      PlainLiteral(p, i + 1);
      assert p[i..] == [p[i]] + p[i + 1..];
    } else {
      assert p[i..] == "";
    }
  }

  lemma PlainElements(p: string, dotted: bool)
    requires !ContainsWildcards(p)
    ensures Elements(p, 0, dotted, false) == Read(if p == "" then [] else [Literal(p)])
  {
    if p != "" {
      assert p[0] in p;
      PlainLiteral(p, 0);
      assert p[0..] == p;
      assert Elements(p, |p|, dotted, true) == Read([]);
      assert RangeAt(p, 0, ']').None?;
      assert [Literal(p)] + [] == [Literal(p)];
      assert Elements(p, 0, dotted, false) == Then(Literal(p), Elements(p, |p|, dotted, true));
    }
  }

  // In full string mode such a pattern matches itself and nothing else.
  lemma PlainIsEquality(p: string, dotted: bool, line: string)
    requires !ContainsWildcards(p)
    ensures Compiled(p, dotted, true).Read?
    ensures Glob(Compiled(p, dotted, true).value, 0, line) <==> line == p
  {
    hide Compiled;
    PlainCompiled(p, dotted);
    if p != "" {
      var c := [Literal(p), End];
      if p <= line {
        assert line == p + line[|p|..];
        assert Glob(c, 1, line[|p|..]) <==> line[|p|..] == "";
      }
    }
  }

  // ... and in substring mode every line it occurs in.
  lemma PlainIsContainment(p: string, dotted: bool, line: string)
    requires !ContainsWildcards(p)
    ensures Compiled(p, dotted, false).Read?
    ensures Glob(Compiled(p, dotted, false).value, 0, line) <==> exists i :: 0 <= i <= |line| && p <= line[i..]
  {
    hide Compiled, Glob;
    PlainCompiled(p, dotted);
    if p == "" {
      AnyTail([AnySeq, End], 0, line);
      assert p <= line[0..];
    } else {
      Occurs(p, line);
    }
  }

  lemma PlainCompiled(p: string, dotted: bool)
    requires !ContainsWildcards(p)
    ensures Compiled(p, dotted, true) == Read(if p == "" then [End] else [Literal(p), End])
    ensures Compiled(p, dotted, false) == Read(if p == "" then [AnySeq, End] else [AnySeq, Literal(p), AnySeq, End])
  {
    hide Elements, ContainsWildcards, Ended;
    PlainElements(p, dotted);
    if p != "" {
      assert [Literal(p)] + [End] == [Literal(p), End];
      assert [AnySeq] + ([Literal(p)] + [AnySeq]) + [End] == [AnySeq, Literal(p), AnySeq, End];
    } else {
      assert [] + [End] == [End] && ([] + [AnySeq]) + [End] == [AnySeq, End];
    }
  }

  lemma Occurs(p: string, line: string)
    ensures Glob([AnySeq, Literal(p), AnySeq, End], 0, line) <==> exists i :: 0 <= i <= |line| && p <= line[i..]
  {
    var c := [AnySeq, Literal(p), AnySeq, End];
    forall i | 0 <= i <= |line|
      ensures Glob(c, 1, line[i..]) <==> p <= line[i..]
    {
      OccursAt(c, p, line[i..]);
    }
  }

  lemma OccursAt(c: seq<Elem>, p: string, s: string)
    requires c == [AnySeq, Literal(p), AnySeq, End]
    ensures Glob(c, 1, s) <==> p <= s
  {
    if p <= s { AnyTail(c, 2, s[|p|..]); }
  }
}
