/**
 * Patterns in substring mode: a pattern is looked for anywhere in a line.
 */
module PatternSearches {
  import opened Basics
  import opened PatternGlobs
  import opened PatternTexts

  // ---------- "**" at the ends ----------

  // What follows decides, if the elements before are the same.
  lemma {:induction false} SameBefore(p: seq<Elem>, q: seq<Elem>, n: nat, k: nat, s: string)
    requires k <= n <= |p| && n <= |q| && p[..n] == q[..n]
    requires forall x: string :: Glob(p, n, x) <==> Glob(q, n, x)
    ensures Glob(p, k, s) <==> Glob(q, k, s)
    decreases n - k
  {
    if k < n {
      assert p[k] == p[..n][k] == q[..n][k] == q[k];
      var next := k + 1;
      forall x: string
        ensures Glob(p, next, x) <==> Glob(q, next, x)
      {
        SameBefore(p, q, n, next, x);
      }
      SameStep(p, k, next, q, k, next, s);
    }
  }

  lemma SameStep(p: seq<Elem>, k: nat, k': nat, q: seq<Elem>, j: nat, j': nat, s: string)
    requires k < |p| && j < |q| && p[k] == q[j] && k' == k + 1 && j' == j + 1
    requires forall x: string :: Glob(p, k', x) <==> Glob(q, j', x)
    ensures Glob(p, k, s) <==> Glob(q, j, s)
  {
    hide InSet, InRange, Number, NoDot;
  }

  lemma {:induction false} Shifted(e: Elem, q: seq<Elem>, k: nat, s: string)
    requires k <= |q|
    ensures Glob([e] + q, k + 1, s) <==> Glob(q, k, s)
    decreases |q| - k
  {
    var p, m, n := [e] + q, k + 1, k + 2;
    if k < |q| {
      assert p[m] == q[k];
      forall x: string
        ensures Glob(p, n, x) <==> Glob(q, m, x)
      {
        Shifted(e, q, m, x);
      }
      SameStep(p, m, n, q, k, m, s);
    }
  }

  // "**" in front: somewhere in the line the rest begins.
  lemma AnyBefore(q: seq<Elem>, s: string)
    requires q != []
    ensures Glob([AnySeq] + q, 0, s) <==> exists i :: 0 <= i <= |s| && Glob(q, 0, s[i..])
  {
    var p := [AnySeq] + q;
    forall x: string
      ensures Glob(p, 1, x) <==> Glob(q, 0, x)
    {
      Shifted(AnySeq, q, 0, x);
    }
    AnyFirst(p, s);
  }

  lemma AnyFirst(p: seq<Elem>, s: string)
    requires p != [] && p[0].AnySeq?
    ensures Glob(p, 0, s) <==> exists i :: 0 <= i <= |s| && Glob(p, 1, s[i..])
  {
  }

  // A second "**" changes nothing.
  lemma AnyAlready(q: seq<Elem>, s: string)
    requires q != [] && q[0].AnySeq?
    ensures Glob(q, 0, s) <==> exists i :: 0 <= i <= |s| && Glob(q, 0, s[i..])
  {
    if Glob(q, 0, s) { assert s[0..] == s; }
    if i :| 0 <= i <= |s| && Glob(q, 0, s[i..]) {
      var j :| 0 <= j <= |s[i..]| && Glob(q, 1, s[i..][j..]);
      assert s[i..][j..] == s[i + j..];
    }
  }

  // A final "**" needs no second one.
  lemma AnyAfter(es: seq<Elem>, s: string)
    requires es != [] && es[|es| - 1] == AnySeq
    ensures Glob(es + [End], 0, s) <==> Glob((es + [AnySeq]) + [End], 0, s)
  {
    var p, q, n := es + [End], (es + [AnySeq]) + [End], |es| - 1;
    forall x: string
      ensures Glob(p, n, x) && Glob(q, n, x)
    {
      FinalAny(p, n, x);
      FinalAny(q, n + 1, x);
      assert q[n].AnySeq? && x[0..] == x;
    }
    assert p[..n] == q[..n];
    SameBefore(p, q, n, 0, s);
  }

  lemma FinalAny(p: seq<Elem>, k: nat, s: string)
    requires k + 2 == |p| && p[k].AnySeq? && p[k + 1].End?
    ensures Glob(p, k, s)
  {
    assert s[|s|..] == "" && Glob(p, k + 1, s[|s|..]);
  }

  // The padded elements match where the elements with "**" after them match somewhere.
  lemma PaddedMeans(es: seq<Elem>, s: string)
    ensures Glob(Padded(es) + [End], 0, s) <==> exists i :: 0 <= i <= |s| && Glob((es + [AnySeq]) + [End], 0, s[i..])
  {
    hide Glob;
    var q := if es == [] || es[|es| - 1] != AnySeq then es + [AnySeq] else es;
    forall x: string
      ensures Glob(q + [End], 0, x) <==> Glob((es + [AnySeq]) + [End], 0, x)
    {
      if q == es { AnyAfter(es, x); }
    }
    if q[0] == AnySeq {
      AnyAlready(q + [End], s);
    } else {
      Associative([AnySeq], q, [End]);
      AnyBefore(q + [End], s);
    }
  }

  // ---------- the meaning ----------

  lemma {:induction false} ElemsLast(g: seq<Glyph>, ts: seq<Token>, dotted: bool)
    requires Digital(ts)
    ensures Digital(ts + [DoubleStar])
    ensures Elems(g, ts + [DoubleStar], dotted) == Elems(g, ts, dotted) + [AnySeq]
    decreases |ts|
  {
    hide AllDigits, BoundOf, Chars;
    var us := ts + [DoubleStar];
    assert Digital(us) by { assert forall i :: 0 <= i < |us| ==> us[i] == if i < |ts| then ts[i] else DoubleStar; }
    if ts == [] {
      assert us[1..] == [];
    } else {
      var h := if ts[0].Text? then g + ts[0].glyphs else if ts[0].Index? then [Plain(']')] else [];
      assert us[0] == ts[0] && us[1..] == ts[1..] + [DoubleStar];
      ElemsLast(h, ts[1..], dotted);
      hide Elems;
    }
    ElemsLastStep(g, ts, dotted);
  }

  lemma ElemsLastStep(g: seq<Glyph>, ts: seq<Token>, dotted: bool)
    requires Digital(ts) && Digital(ts + [DoubleStar])
    requires ts != [] ==>
      var h := if ts[0].Text? then g + ts[0].glyphs else if ts[0].Index? then [Plain(']')] else [];
      Digital(ts[1..] + [DoubleStar]) && Elems(h, ts[1..] + [DoubleStar], dotted)
          == Elems(h, ts[1..], dotted) + [AnySeq]
    ensures Elems(g, ts + [DoubleStar], dotted) == Elems(g, ts, dotted) + [AnySeq]
  {
    hide AllDigits, BoundOf, Chars;
    var us := ts + [DoubleStar];
    if ts == [] {
      assert us[0] == DoubleStar && us[1..] == [] && Lit(g) + ([AnySeq] + []) == Lit(g) + [AnySeq];
    } else {
      assert us[0] == ts[0] && us[1..] == ts[1..] + [DoubleStar];
      hide Lit, ElemOf;
      if !ts[0].Text? && !ts[0].Index? {
        var e, x := [ElemOf(ts[0], dotted)], Elems([], ts[1..], dotted);
        assert Lit(g) + (e + (x + [AnySeq])) == (Lit(g) + (e + x)) + [AnySeq];
      }
    }
  }

  // In substring mode a written pattern matches the lines in which, from some place on, its
  // tokens match and anything may follow.
  lemma SearchedPattern(ts: seq<Token>, dotted: bool, line: string)
    requires Legible([], ts)
    ensures Compiled(Write(ts), dotted, false).Read?
    ensures Glob(Compiled(Write(ts), dotted, false).value, 0, line)
       <==> exists i :: 0 <= i <= |line| && Accepts(ts + [DoubleStar], dotted, line[i..])
  {
    hide Glob, Elements, Elems, Legible, Accepts, Padded, Digital;
    WrittenPattern(ts, dotted, line);
    var es := Elems([], ts, dotted);
    EndsAlike(Write(ts), dotted, es);
    PaddedMeans(es, line);
    ElemsLast([], ts, dotted);
    forall x: string
      ensures Glob((es + [AnySeq]) + [End], 0, x) <==> Accepts(ts + [DoubleStar], dotted, x)
    {
      var q := (es + [AnySeq]) + [End];
      assert q[0..] == q;
      CharsNothing([], x);
      ElemsMean(q, 0, [], ts + [DoubleStar], dotted, x);
    }
  }

  lemma EndsAlike(p: string, dotted: bool, es: seq<Elem>)
    requires Compiled(p, dotted, true) == Read(es + [End])
    ensures Compiled(p, dotted, false) == Read(Padded(es) + [End])
  {
    hide Elements, Padded, Ended;
    var r := Elements(p, 0, dotted, false);
    assert (r.value + [End])[..|r.value|] == r.value && (es + [End])[..|es|] == es;
  }

  // ---------- parts of a line ----------

  // Without a number range, whose numbers are whole runs of digits in the line, this is to say
  // that the tokens accept a part of the line.
  lemma {:induction false} PartAccepted(ts: seq<Token>, dotted: bool, s: string)
    requires forall i :: 0 <= i < |ts| ==> !ts[i].Numeral?
    ensures Accepts(ts + [DoubleStar], dotted, s) <==> exists j :: 0 <= j <= |s| && Accepts(ts, dotted, s[..j])
    decreases |ts|
  {
    var us := ts + [DoubleStar];
    if ts == [] {
      assert us[0] == DoubleStar && us[1..] == [] && s[|s|..] == "" && s[..0] == "";
    } else {
      assert us[0] == ts[0] && us[1..] == ts[1..] + [DoubleStar];
      assert forall i :: 0 <= i < |ts[1..]| ==> ts[1..][i] == ts[i + 1];
      forall x: string
        ensures Accepts(us[1..], dotted, x) <==> exists j :: 0 <= j <= |x| && Accepts(ts[1..], dotted, x[..j])
      {
        PartAccepted(ts[1..], dotted, x);
      }
      hide Accepts;
      PartForth(ts, us, dotted, s);
      PartBack(ts, us, dotted, s);
    }
  }

  // The rest of s after the first k characters has an accepted part: so has s.
  lemma PartAfter(s: string, k: nat, j: nat)
    requires k <= |s| && j <= |s| - k
    ensures s[..k + j][k..] == s[k..][..j] && s[..k + j][..k] == s[..k]
  {
  }

  lemma PartForth(ts: seq<Token>, us: seq<Token>, dotted: bool, s: string)
    requires ts != [] && !ts[0].Numeral? && us != [] && us[0] == ts[0]
    requires forall x: string ::
               Accepts(us[1..], dotted, x) <==> exists j :: 0 <= j <= |x| && Accepts(ts[1..], dotted, x[..j])
    ensures Accepts(us, dotted, s) ==> exists j :: 0 <= j <= |s| && Accepts(ts, dotted, s[..j])
  {
    hide Accepts;
    if Accepts(us, dotted, s) {
      var k := Taken(us, dotted, s);
      var j :| 0 <= j <= |s[k..]| && Accepts(ts[1..], dotted, s[k..][..j]);
      PartAfter(s, k, j);
      StillTaken(ts, dotted, s, k, s[..k + j]);
    }
  }

  lemma PartBack(ts: seq<Token>, us: seq<Token>, dotted: bool, s: string)
    requires ts != [] && !ts[0].Numeral? && us != [] && us[0] == ts[0]
    requires forall x: string ::
               Accepts(us[1..], dotted, x) <==> exists j :: 0 <= j <= |x| && Accepts(ts[1..], dotted, x[..j])
    ensures (exists j :: 0 <= j <= |s| && Accepts(ts, dotted, s[..j])) ==> Accepts(us, dotted, s)
  {
    hide Accepts;
    if j :| 0 <= j <= |s| && Accepts(ts, dotted, s[..j]) {
      var k := Taken(ts, dotted, s[..j]);
      PartRest(ts, us, dotted, s, j, k);
      StillTaken(us, dotted, s[..j], k, s);
    }
  }

  lemma PartRest(ts: seq<Token>, us: seq<Token>, dotted: bool, s: string, j: nat, k: nat)
    requires ts != [] && us != [] && k <= j <= |s| && Accepts(ts[1..], dotted, s[..j][k..])
    requires forall x: string ::
               Accepts(us[1..], dotted, x) <==> exists j :: 0 <= j <= |x| && Accepts(ts[1..], dotted, x[..j])
    ensures Accepts(us[1..], dotted, s[k..]) && s[..j][..k] == s[..k]
  {
    hide Accepts;
    PartAfter(s, k, j - k);
    assert Accepts(ts[1..], dotted, s[k..][..j - k]);
  }

  // What the first token takes is its own; the rest is for the others.
  ghost predicate TakenBy(t: Token, dotted: bool, s: string, k: nat) {
    k <= |s| &&
    match t
    case Text(g) => k == |Chars(g)| && Chars(g) <= s
    case Any => k == 1 && (dotted ==> s[0] != '.')
    case Star => dotted ==> NoDot(s[..k])
    case DoubleStar => true
    case OneOf(negated, items) => k == 1 && Member(s[0], items) != negated
    case Numeral(from, to) => k == DigitRun(s) && NumberFirst(s, from, to)
    case Index(from, to) =>
      && s != "" && s[0] == '[' && NumberFirst(s[1..], from, to)
      && k == DigitRun(s[1..]) + 2 && s[k - 1] == ']'
  }

  lemma Taken(ts: seq<Token>, dotted: bool, s: string) returns (k: nat)
    requires ts != [] && Accepts(ts, dotted, s)
    ensures TakenBy(ts[0], dotted, s, k) && Accepts(ts[1..], dotted, s[k..])
  {
    hide Member, NumberFirst;
    match ts[0]
    case Text(g) => k := |Chars(g)|;
    case Star => k :| 0 <= k <= |s| && (dotted ==> NoDot(s[..k])) && Accepts(ts[1..], dotted, s[k..]);
    case DoubleStar => k :| 0 <= k <= |s| && Accepts(ts[1..], dotted, s[k..]);
    case Numeral(_, _) => k := DigitRun(s);
    case Index(_, _) =>
      k := DigitRun(s[1..]) + 2;
      assert s[1..][DigitRun(s[1..])..][1..] == s[k..];
    case _ => k := 1;
  }

  // The same start of another line is taken as well.
  lemma StillTaken(ts: seq<Token>, dotted: bool, s: string, k: nat, x: string)
    requires ts != [] && !ts[0].Numeral? && TakenBy(ts[0], dotted, s, k) && k <= |x| && x[..k] == s[..k]
    requires Accepts(ts[1..], dotted, x[k..])
    ensures Accepts(ts, dotted, x)
  {
    hide Member, Within, Number;
    if k > 0 { assert x[0] == x[..k][0] == s[0]; }
    match ts[0]
    case Text(g) => assert x[..k] == s[..k] == Chars(g);
    case Index(_, _) =>
      SameRun(s[1..], x[1..], k - 2);
      assert x[1..][k - 2..][1..] == x[k..];
      assert x[k - 1] == x[..k][k - 1] == s[..k][k - 1] == s[k - 1];
    case _ =>
  }

  lemma SameRun(s: string, x: string, n: nat)
    requires n == DigitRun(s) && n < |s| && n < |x| && x[..n + 1] == s[..n + 1]
    ensures DigitRun(x) == n && x[..n] == s[..n]
  {
    assert forall i :: 0 <= i <= n ==> x[i] == x[..n + 1][i] == s[..n + 1][i] == s[i];
    assert x[..n] == x[..n + 1][..n] && s[..n] == s[..n + 1][..n];
  }

  // A written pattern without number ranges in braces matches, in substring mode, exactly the
  // lines with a part that its tokens accept.
  lemma SearchedPart(ts: seq<Token>, dotted: bool, line: string)
    requires Legible([], ts) && forall i :: 0 <= i < |ts| ==> !ts[i].Numeral?
    ensures Compiled(Write(ts), dotted, false).Read?
    ensures Glob(Compiled(Write(ts), dotted, false).value, 0, line)
       <==> exists i, j :: 0 <= i <= j <= |line| && Accepts(ts, dotted, line[i..j])
  {
    hide Glob, Compiled, Legible, Accepts;
    SearchedPattern(ts, dotted, line);
    if i :| 0 <= i <= |line| && Accepts(ts + [DoubleStar], dotted, line[i..]) {
      PartAccepted(ts, dotted, line[i..]);
      var j :| 0 <= j <= |line[i..]| && Accepts(ts, dotted, line[i..][..j]);
      assert line[i..][..j] == line[i..i + j];
    }
    if i, j :| 0 <= i <= j <= |line| && Accepts(ts, dotted, line[i..j]) {
      assert line[i..][..j - i] == line[i..j];
      PartAccepted(ts, dotted, line[i..]);
    }
  }

  // A number in braces is a whole run of digits of the line: "{1..1}" is not found in "15",
  // although it accepts the part "1".
  lemma NumbersAreWhole(dotted: bool)
    ensures Compiled("{1..1}", dotted, false).Read? && !Glob(Compiled("{1..1}", dotted, false).value, 0, "15")
    ensures Accepts([Numeral("1", "1")], dotted, "15"[0..1])
  {
    hide Compiled, Glob;
    var ts, us := [Numeral("1", "1")], [Numeral("1", "1")] + [DoubleStar];
    assert ts[1..] == [] && Write(ts) == "{1..1}" && Legible([], ts);
    SearchedPattern(ts, dotted, "15");
    SmallNumbers();
    assert "15"[0..1] == "1" && "15"[0..] == "15" && "15"[1..] == "5" && "15"[2..] == "";
    assert us[0] == ts[0];
  }

  lemma SmallNumbers()
    ensures DigitRun("1") == 1 && DigitRun("15") == 2 && DigitRun("5") == 1
    ensures Number("1") == 1 && Number("15") == 15 && Number("5") == 5
  {
    assert "15"[..1] == "1" && "15"[1..] == "5" && "1"[..0] == "" && "5"[..0] == "";
  }
}
