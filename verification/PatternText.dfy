/**
 * How patterns are written, and that what is written is what is read: the compiler of patterns
 * gives every pattern written by these rules its meaning.
 */
module PatternTexts {
  import opened Basics
  import opened PatternGlobs

  // A character of a literal, and a member of a set.
  datatype Glyph = Plain(c: char) | Escaped(c: char)
  datatype Item = One(c: char) | Span(from: char, to: char)

  // What a pattern is made of: text, "?", "*", "**", "{...}" or "{^...}", and number ranges
  // "{n..m}" and "[n..m]", whose bounds are written in digits or left out.
  datatype Token =
    | Text(glyphs: seq<Glyph>)
    | Any
    | Star
    | DoubleStar
    | OneOf(negated: bool, items: seq<Item>)
    | Numeral(from: string, to: string)
    | Index(from: string, to: string)

  // ---------- writing ----------

  function WriteGlyphs(g: seq<Glyph>): string {
    if g == [] then "" else WriteGlyph(g[0]) + WriteGlyphs(g[1..])
  }

  function WriteGlyph(g: Glyph): (s: string)
    ensures s != ""
  {
    match g
    case Plain(c) => [c]
    case Escaped(c) => ['\\', c]
  }

  function WriteItems(items: seq<Item>): string {
    if items == [] then "" else WriteItem(items[0]) + WriteItems(items[1..])
  }

  function WriteItem(item: Item): (s: string)
    ensures s != ""
  {
    match item
    case One(c) => [c]
    case Span(from, to) => [from, '-', to]
  }

  function WriteRange(from: string, to: string): string { from + ".." + to }

  function WriteToken(t: Token): string {
    match t
    case Text(g) => WriteGlyphs(g)
    case Any => "?"
    case Star => "*"
    case DoubleStar => "**"
    case OneOf(negated, items) => (if negated then "{^" else "{") + WriteItems(items) + "}"
    case Numeral(from, to) => "{" + WriteRange(from, to) + "}"
    case Index(from, to) => "[" + WriteRange(from, to) + "]"
  }

  function Write(ts: seq<Token>): string {
    if ts == [] then "" else WriteToken(ts[0]) + Write(ts[1..])
  }

  // ---------- what may be written ----------

  predicate AllDigits(s: string) { forall i :: 0 <= i < |s| ==> IsDigit(s[i]) }

  // Characters with a meaning of their own are escaped, and no bracket is followed by what looks
  // like a range.
  predicate Clear(g: seq<Glyph>) {
    && (forall i :: 0 <= i < |g| && g[i].Plain? ==> !Special(g[i].c) && g[i].c != '\\')
    && (forall i :: 0 <= i < |g| && g[i].c == '[' ==> !RangeLike(g[i + 1..]))
  }

  // Plain digits, if any, and two plain dots.
  predicate RangeLike(g: seq<Glyph>) {
    g != [] && g[0].Plain? &&
    if IsDigit(g[0].c) then RangeLike(g[1..]) else g[0].c == '.' && g[1..] != [] && g[1] == Plain('.')
  }

  // A closing brace may only come first, and a dash after a single character only last.
  predicate ClearItems(items: seq<Item>, first: bool)
    decreases |items|
  {
    if items == [] then !first
    else
      && (match items[0]
          case One(c) => (c == '}' ==> first)
              && (items[1..] != [] && Begins(items[1]) == '-' ==> items[1..] == [One('-')])
          case Span(from, to) => (from == '}' ==> first) && to != '}')
      && ClearItems(items[1..], false)
  }

  function Begins(item: Item): char { if item.One? then item.c else item.from }

  // A set must not look like a negated one or like a number range.
  predicate ClearSet(negated: bool, items: seq<Item>) {
    && items != [] && ClearItems(items, true)
    && (!negated ==> Begins(items[0]) != '^' && (Dots(WriteItems(items)) ==>
        !IsDigit(Begins(items[0])) && Begins(items[0]) != '.'))
  }

  // Tokens that follow the text g.
  predicate Legible(g: seq<Glyph>, ts: seq<Token>)
    decreases |ts|
  {
    if ts == [] then Clear(g)
    else match ts[0]
      case Text(h) => h != [] && Legible(g + h, ts[1..])
      case Index(from, to) => Clear(g) && AllDigits(from) && AllDigits(to) && Legible([Plain(']')], ts[1..])
      case Star => Clear(g) && (ts[1..] != [] ==> !ts[1].Star? && !ts[1].DoubleStar?) && Legible([], ts[1..])
      case OneOf(negated, items) => Clear(g) && ClearSet(negated, items) && Legible([], ts[1..])
      case Numeral(from, to) => Clear(g) && AllDigits(from) && AllDigits(to) && Legible([], ts[1..])
      case _ => Clear(g) && Legible([], ts[1..])
  }

  // Bounds are written in digits.
  predicate Digital(ts: seq<Token>) {
    forall i :: 0 <= i < |ts| && (ts[i].Numeral? || ts[i].Index?) ==> AllDigits(ts[i].from) && AllDigits(ts[i].to)
  }

  lemma {:induction false} LegibleDigital(g: seq<Glyph>, ts: seq<Token>)
    requires Legible(g, ts)
    ensures Digital(ts)
    decreases |ts|
  {
    hide Clear, ClearSet, AllDigits;
    if ts != [] {
      LegibleDigital(if ts[0].Text? then g + ts[0].glyphs else if ts[0].Index? then [Plain(']')] else [], ts[1..]);
      assert forall i :: 1 <= i < |ts| ==> ts[i] == ts[1..][i - 1];
    }
  }

  // ---------- what is meant ----------

  function Chars(g: seq<Glyph>): (s: string)
    ensures |s| == |g|
  {
    if g == [] then "" else [g[0].c] + Chars(g[1..])
  }

  predicate Member(c: char, items: seq<Item>) {
    exists i :: 0 <= i < |items| && if items[i].One? then c == items[i].c else items[i].from <= c <= items[i].to
  }

  // A bound that is left out does not bind.
  predicate Within(n: nat, from: string, to: string)
    requires AllDigits(from) && AllDigits(to)
  {
    (from != "" ==> n >= Number(from)) && (to != "" ==> n <= Number(to))
  }

  // The tokens match s; a number is always a whole run of digits.
  ghost predicate Accepts(ts: seq<Token>, dotted: bool, s: string)
    decreases |ts|
  {
    if ts == [] then s == ""
    else match ts[0]
      case Text(g) => Chars(g) <= s && Accepts(ts[1..], dotted, s[|Chars(g)|..])
      case Any => s != "" && (dotted ==> s[0] != '.') && Accepts(ts[1..], dotted, s[1..])
      case Star => exists i :: 0 <= i <= |s| && (dotted ==> NoDot(s[..i])) && Accepts(ts[1..], dotted, s[i..])
      case DoubleStar => exists i :: 0 <= i <= |s| && Accepts(ts[1..], dotted, s[i..])
      case OneOf(negated, items) => s != "" && Member(s[0], items) != negated && Accepts(ts[1..], dotted, s[1..])
      case Numeral(from, to) => NumberFirst(s, from, to) && Accepts(ts[1..], dotted, s[DigitRun(s)..])
      case Index(from, to) =>
        && s != "" && s[0] == '[' && NumberFirst(s[1..], from, to)
        && var u := s[1..][DigitRun(s[1..])..]; u != "" && u[0] == ']' && Accepts(ts[1..], dotted, u[1..])
  }

  predicate NumberFirst(s: string, from: string, to: string) {
    AllDigits(from) && AllDigits(to) && DigitRun(s) > 0 && Within(Number(s[..DigitRun(s)]), from, to)
  }

  // ---------- the elements that tokens stand for ----------

  function Pairs(items: seq<Item>): (s: string)
    ensures |s| == 2 * |items|
  {
    if items == [] then "" else Pair(items[0]) + Pairs(items[1..])
  }

  function Pair(item: Item): string {
    match item
    case One(c) => [c, c]
    case Span(from, to) => [from, to]
  }

  function BoundOf(b: string): int
    requires AllDigits(b)
  {
    if b == "" then -1 else Number(b)
  }

  function Lit(g: seq<Glyph>): seq<Elem> { if g == [] then [] else [Literal(Chars(g))] }

  function ElemOf(t: Token, dotted: bool): Elem
    requires !t.Text? && !t.Index? && (t.Numeral? ==> AllDigits(t.from) && AllDigits(t.to))
  {
    match t
    case Any => if dotted then CommonChar else AnyChar
    case Star => if dotted then CommonSeq else AnySeq
    case DoubleStar => AnySeq
    case OneOf(negated, items) => if negated then NegSet(Pairs(items)) else Set(Pairs(items))
    case Numeral(from, to) => NumRange(BoundOf(from), BoundOf(to))
  }

  // The closing bracket of a range begins the next literal, the opening one ends the one before.
  function Elems(g: seq<Glyph>, ts: seq<Token>, dotted: bool): seq<Elem>
    requires Digital(ts)
    decreases |ts|
  {
    if ts == [] then Lit(g)
    else match ts[0]
      case Text(h) => Elems(g + h, ts[1..], dotted)
      case Index(from, to) =>
        [Literal(Chars(g) + "["), NumRange(BoundOf(from), BoundOf(to))] + Elems([Plain(']')], ts[1..], dotted)
      case _ => Lit(g) + ([ElemOf(ts[0], dotted)] + Elems([], ts[1..], dotted))
  }

  // ---------- reading back: places ----------

  // x stands in p at i.
  predicate Stands(p: string, i: nat, x: string) { i + |x| <= |p| && p[i..i + |x|] == x }

  lemma StandsParts(p: string, i: nat, x: string, y: string)
    requires Stands(p, i, x + y)
    ensures Stands(p, i, x) && Stands(p, i + |x|, y)
  {
    assert p[i..i + |x|] == (x + y)[..|x|];
    assert p[i + |x|..i + |x| + |y|] == (x + y)[|x|..];
  }

  lemma StandsChar(p: string, i: nat, x: string, k: nat)
    requires Stands(p, i, x) && k < |x|
    ensures i + k < |p| && p[i + k] == x[k] && At(p, i + k) == x[k]
  {
    assert p[i..i + |x|][k] == p[i + k];
  }

  lemma RunIs(p: string, i: nat, d: string)
    requires Stands(p, i, d) && AllDigits(d) && !IsDigit(At(p, i + |d|))
    ensures RunEnd(p, i) == i + |d| && BoundAt(p, i, i + |d|) == BoundOf(d)
  {
    forall k | i <= k < i + |d|
      ensures IsDigit(p[k])
    {
      StandsChar(p, i, d, k - i);
    }
    if i < |p| {
      var n := DigitRun(p[i..]);
      if n < |p[i..]| { assert p[i..][n] == p[i + n]; }
      if |d| < |p[i..]| { assert p[i..][|d|] == p[i + |d|]; }
    }
  }

  lemma RangeStands(p: string, i: nat, from: string, to: string, closing: char)
    requires Stands(p, i, WriteRange(from, to) + [closing])
    ensures var a, b := i + |from|, i + 2 + |from| + |to|;
      && Stands(p, i, from) && At(p, a) == At(p, a + 1) == '.' && Stands(p, a + 2, to) && b < |p| && At(p, b) == closing
  {
    var a, b := i + |from|, i + 2 + |from| + |to|;
    StandsParts(p, i, WriteRange(from, to), [closing]);
    StandsParts(p, i, from + "..", to);
    StandsParts(p, i, from, "..");
    StandsChar(p, a, "..", 0);
    StandsChar(p, a, "..", 1);
    StandsChar(p, b, [closing], 0);
  }

  // A written range is read with its bounds.
  lemma RangeReads(p: string, i: nat, from: string, to: string, closing: char)
    requires AllDigits(from) && AllDigits(to) && closing != '\0' && !IsDigit(closing)
    requires Stands(p, i + 1, WriteRange(from, to) + [closing])
    ensures RangeAt(p, i, closing) == Some((BoundOf(from), BoundOf(to), i + 1 + |WriteRange(from, to)|))
  {
    hide Stands, BoundOf, BoundAt, RunEnd, At;
    RangeStands(p, i + 1, from, to, closing);
    RunIs(p, i + 1, from);
    RunIs(p, i + 3 + |from|, to);
  }

  // ---------- reading back: sets ----------

  // The characters of a set are read as the pairs they stand for.
  lemma {:induction false} SetReads(p: string, i: nat, start: nat, items: seq<Item>)
    requires start <= i && ClearItems(items, i == start) && Stands(p, i, WriteItems(items) + "}")
    ensures SetAt(p, i, start) == Some((Pairs(items), i + |WriteItems(items)| + 1))
    decreases |items|
  {
    hide Stands, Begins, At, Pair, SetAt, WriteItem;
    if items == [] {
      SetEnds(p, i, start);
    } else {
      var w, rest := WriteItem(items[0]), items[1..];
      assert WriteItems(items) + "}" == w + (WriteItems(rest) + "}");
      StandsParts(p, i, w, WriteItems(rest) + "}");
      SetReads(p, i + |w|, start, rest);
      ItemReads(p, i, items, i == start);
      ItemStep(p, i, start, items[0]);
    }
  }

  lemma SetEnds(p: string, i: nat, start: nat)
    requires i != start && Stands(p, i, WriteItems([]) + "}")
    ensures SetAt(p, i, start) == Some(("", i + 1))
  {
    StandsChar(p, i, "}", 0);
  }

  lemma ItemStep(p: string, i: nat, start: nat, item: Item)
    requires i < |p| && p[i] == Begins(item) && (p[i] == '}' ==> i == start)
    requires item.Span? <==> At(p, i + 1) == '-' && i + 2 < |p| && p[i + 2] != '}'
    requires item.Span? ==> p[i + 2] == item.to
    ensures SetAt(p, i, start) ==
              var r := SetAt(p, i + |WriteItem(item)|, start);
              if r.None? then None else Some((Pair(item) + r.value.0, r.value.1))
  {
  }

  // Whether a single character or a range is read.
  lemma ItemReads(p: string, i: nat, items: seq<Item>, first: bool)
    requires items != [] && ClearItems(items, first) && Stands(p, i, WriteItems(items) + "}")
    ensures items[0].Span? <==> At(p, i + 1) == '-' && i + 2 < |p| && p[i + 2] != '}'
    ensures p[i] == Begins(items[0]) && (p[i] == '}' ==> first) && (items[0].Span? ==> p[i + 2] == items[0].to)
  {
    hide Stands;
    var s := WriteItems(items) + "}";
    StandsChar(p, i, s, 0);
    if items[0].Span? {
      StandsChar(p, i, s, 1);
      StandsChar(p, i, s, 2);
    } else {
      StandsChar(p, i, s, 1);
      if items[1..] != [] { assert s[1] == WriteItem(items[1])[0] == Begins(items[1]); }
      if items[1..] != [] && Begins(items[1]) == '-' {
        assert [One('-')][1..] == [] && WriteItems(items[1..]) == "-";
        assert s == [items[0].c, '-', '}'];
        StandsChar(p, i, s, 2);
      }
    }
  }

  // A character is in a set exactly if one of its members holds it.
  lemma {:induction false} SetMembers(c: char, items: seq<Item>)
    ensures InSet(c, Pairs(items)) <==> Member(c, items)
  {
    forall k | 0 <= k < |items|
      ensures [Pairs(items)[2 * k], Pairs(items)[2 * k + 1]] == Pair(items[k])
    {
      PairAt(items, k);
    }
    forall k | 0 <= k < |items|
      ensures Pairs(items)[2 * k] == Pair(items[k])[0] && Pairs(items)[2 * k + 1] == Pair(items[k])[1]
    {
      assert [Pairs(items)[2 * k], Pairs(items)[2 * k + 1]][1] == Pair(items[k])[1];
    }
  }

  lemma {:induction false} PairAt(items: seq<Item>, k: nat)
    requires k < |items|
    ensures [Pairs(items)[2 * k], Pairs(items)[2 * k + 1]] == Pair(items[k])
  {
    if k > 0 { PairAt(items[1..], k - 1); }
  }

  // ---------- reading back: literals ----------

  lemma ClearRest(g: seq<Glyph>)
    requires Clear(g) && g != []
    ensures Clear(g[1..]) && (g[0].c == '[' ==> !RangeLike(g[1..]))
    ensures g[0].Plain? ==> !Special(g[0].c) && g[0].c != '\\'
  {
    var rest := g[1..];
    assert forall i :: 0 <= i < |rest| ==> rest[i] == g[i + 1] && rest[i + 1..] == g[i + 2..];
  }

  lemma RunStep(p: string, i: nat)
    requires i < |p|
    ensures RunEnd(p, i) == if IsDigit(p[i]) then RunEnd(p, i + 1) else i
  {
    assert p[i..][0] == p[i] && p[i..][1..] == p[i + 1..];
  }

  lemma GlyphStands(p: string, i: nat, g: seq<Glyph>)
    requires g != [] && Stands(p, i, WriteGlyphs(g))
    ensures i < |p| && p[i] == (if g[0].Plain? then g[0].c else '\\')
        && Stands(p, i + |WriteGlyph(g[0])|, WriteGlyphs(g[1..]))
    ensures g[0].Escaped? ==> i + 1 < |p| && p[i + 1] == g[0].c
  {
    StandsChar(p, i, WriteGlyphs(g), 0);
    if g[0].Escaped? { StandsChar(p, i, WriteGlyphs(g), 1); }
    StandsParts(p, i, WriteGlyph(g[0]), WriteGlyphs(g[1..]));
  }

  ghost predicate TwoDots(p: string, i: nat) { At(p, i) == '.' && At(p, i + 1) == '.' }

  // What does not look like a range is not read as one.
  lemma {:induction false} NoDotsRead(p: string, i: nat, g: seq<Glyph>)
    requires Stands(p, i, WriteGlyphs(g)) && !RangeLike(g)
    requires var c := At(p, i + |WriteGlyphs(g)|); !IsDigit(c) && c != '.'
    ensures !TwoDots(p, RunEnd(p, i))
    decreases |g|
  {
    hide Stands;
    if g == [] {
      if i < |p| { RunStep(p, i); }
    } else {
      GlyphStands(p, i, g);
      RunStep(p, i);
      if g[0].Plain? {
        if IsDigit(g[0].c) { NoDotsRead(p, i + 1, g[1..]); }
        if g[1..] != [] { GlyphStands(p, i + 1, g[1..]); }
      }
    }
  }

  // Where a literal ends: at the end, at a wildcard, or at a bracket that begins a range.
  predicate Stop(p: string, e: nat) {
    e >= |p| || Special(p[e]) || (p[e] == '[' && RangeAt(p, e, ']').Some?)
  }

  function Tail(p: string, e: nat): string { if e < |p| && p[e] == '[' then "[" else "" }

  lemma NoDotsNoRange(p: string, k: nat, closing: char)
    requires closing != '\0' && !TwoDots(p, RunEnd(p, k + 1))
    ensures RangeAt(p, k, closing).None?
  {
    hide RunEnd, BoundAt;
  }

  lemma NoRange(p: string, k: nat, g: seq<Glyph>)
    requires Stands(p, k + 1, WriteGlyphs(g)) && !RangeLike(g) && Stop(p, k + 1 + |WriteGlyphs(g)|)
    ensures RangeAt(p, k, ']').None?
  {
    hide Stands, RangeLike, RunEnd, RangeAt, WriteGlyphs;
    NoDotsRead(p, k + 1, g);
    NoDotsNoRange(p, k, ']');
  }

  lemma LiteralStops(p: string, e: nat)
    requires Stop(p, e)
    ensures LiteralAt(p, e) == Read((Tail(p, e), e))
  {
  }

  lemma GlyphReads(p: string, i: nat, g: Glyph)
    requires i < |p| && p[i] == (if g.Plain? then g.c else '\\') && (g.Plain? ==> !Special(g.c) && g.c != '\\')
    requires g.Escaped? ==> i + 1 < |p| && p[i + 1] == g.c
    requires var n := i + |WriteGlyph(g)|; g.c == '[' ==> RangeAt(p, n - 1, ']').None?
    ensures LiteralAt(p, i) == TextInFront([g.c], LiteralAt(p, i + |WriteGlyph(g)|))
  {
    hide RangeAt;
  }

  lemma CharsFront(g: seq<Glyph>, tail: string)
    ensures Chars(g) + tail == if g == [] then tail else [g[0].c] + (Chars(g[1..]) + tail)
  {
  }

  // A written text is read as its characters.
  lemma {:induction false} LiteralReads(p: string, i: nat, g: seq<Glyph>)
    requires Clear(g) && Stands(p, i, WriteGlyphs(g)) && Stop(p, i + |WriteGlyphs(g)|)
    ensures var e := i + |WriteGlyphs(g)|; LiteralAt(p, i) == Read((Chars(g) + Tail(p, e), e))
    decreases |g|
  {
    hide Stands, Clear, RangeLike, RangeAt, LiteralAt, Stop, Tail, WriteGlyph, Special, Chars;
    var e := i + |WriteGlyphs(g)|;
    if g == [] {
      LiteralStops(p, e);
      CharsFront(g, Tail(p, e));
    } else {
      var n := i + |WriteGlyph(g[0])|;
      ClearRest(g);
      GlyphStands(p, i, g);
      LiteralReads(p, n, g[1..]);
      if g[0].c == '[' { NoRange(p, n - 1, g[1..]); }
      GlyphReads(p, i, g[0]);
      CharsFront(g, Tail(p, e));
    }
  }

  // ---------- reading back: whole patterns ----------

  lemma {:induction false} LegibleClear(g: seq<Glyph>, ts: seq<Token>)
    requires Legible(g, ts)
    ensures forall i :: 0 <= i < |g| && g[i].Plain? ==> !Special(g[i].c) && g[i].c != '\\'
    decreases |ts|
  {
    if ts != [] && ts[0].Text? {
      LegibleClear(g + ts[0].glyphs, ts[1..]);
      assert forall i :: 0 <= i < |g| ==> g[i] == (g + ts[0].glyphs)[i];
    }
  }

  // What comes after a star is not another one.
  lemma NotStar(p: string, i: nat, ts: seq<Token>)
    requires Legible([], ts) && Stands(p, i, Write(ts)) && i + |Write(ts)| == |p|
    requires ts != [] ==> !ts[0].Star? && !ts[0].DoubleStar?
    ensures At(p, i) != '*'
  {
    if ts != [] {
      if ts[0].Text? {
        assert [] + ts[0].glyphs == ts[0].glyphs;
        LegibleClear(ts[0].glyphs, ts[1..]);
        assert WriteToken(ts[0])[0] == WriteGlyph(ts[0].glyphs[0])[0];
      }
      StandsChar(p, i, Write(ts), 0);
    }
  }

  // A set is not taken for a number range.
  lemma SetNotRange(p: string, i: nat, negated: bool, items: seq<Item>)
    requires ClearSet(negated, items) && Stands(p, i, WriteToken(OneOf(negated, items)))
    ensures RangeAt(p, i, '}').None?
  {
    hide Stands, RunEnd, RangeAt, WriteItems, ClearItems;
    var s, w := WriteToken(OneOf(negated, items)), WriteItems(items);
    StandsChar(p, i, s, 1);
    RunStep(p, i + 1);
    FirstItem(items);
    NoDotsUnless(p, i);
    if !negated && !Dots(w) {
      assert s == ("{" + w) + "}" == "{" + (w + "}");
      StandsParts(p, i, "{", w + "}");
      TextNotRange(p, i, w);
    }
  }

  lemma FirstItem(items: seq<Item>)
    requires items != []
    ensures WriteItems(items) != "" && WriteItems(items)[0] == Begins(items[0])
  {
  }

  lemma NoDotsUnless(p: string, i: nat)
    requires i + 1 < |p|
    ensures !IsDigit(p[i + 1]) && p[i + 1] != '.' ==> RangeAt(p, i, '}').None?
  {
    hide RangeAt;
    RunStep(p, i + 1);
    if !TwoDots(p, RunEnd(p, i + 1)) { NoDotsNoRange(p, i, '}'); }
  }

  lemma TextNotRange(p: string, i: nat, w: string)
    requires !Dots(w) && Stands(p, i + 1, w + "}")
    ensures RangeAt(p, i, '}').None?
  {
    hide Stands, RunEnd, RangeAt;
    var a := RunEnd(p, i + 1);
    StandsChar(p, i + 1, w + "}", |w|);
    RunWithin(p, i + 1, i + 1 + |w|);
    if a < i + 1 + |w| {
      StandsChar(p, i + 1, w + "}", a - i - 1);
      StandsChar(p, i + 1, w + "}", a - i);
    }
    NoDotsNoRange(p, i, '}');
  }

  // A run of digits does not go beyond a place with no digit.
  lemma RunWithin(p: string, i: nat, e: nat)
    requires i <= e < |p| && !IsDigit(p[e])
    ensures RunEnd(p, i) <= e
  {
    assert p[i..][e - i] == p[e];
  }

  // Every token but text and "[n..m]" is read as its element.
  lemma TokenReads(p: string, i: nat, t: Token, dotted: bool, literal: bool)
    requires !t.Text? && !t.Index? && Stands(p, i, WriteToken(t))
    requires t.Star? ==> At(p, i + 1) != '*'
    requires t.OneOf? ==> ClearSet(t.negated, t.items)
    requires t.Numeral? ==> AllDigits(t.from) && AllDigits(t.to)
    ensures Elements(p, i, dotted, literal) == Then(ElemOf(t, dotted), Elements(p, i + |WriteToken(t)|, dotted, false))
  {
    hide Elements, Stands, ClearSet, AllDigits, Then;
    match t
    case OneOf(negated, items) => SetElement(p, i, negated, items, dotted, literal);
    case Numeral(from, to) => NumeralElement(p, i, from, to, dotted, literal);
    case _ => WildcardElement(p, i, t, dotted, literal);
  }

  lemma WildcardElement(p: string, i: nat, t: Token, dotted: bool, literal: bool)
    requires (t.Any? || t.Star? || t.DoubleStar?) && Stands(p, i, WriteToken(t)) && (t.Star? ==> At(p, i + 1) != '*')
    ensures Elements(p, i, dotted, literal) == Then(ElemOf(t, dotted), Elements(p, i + |WriteToken(t)|, dotted, false))
  {
    hide Stands, SetAt, RangeAt, LiteralAt, Then;
    StandsChar(p, i, WriteToken(t), 0);
    if t.DoubleStar? { StandsChar(p, i, WriteToken(t), 1); }
  }

  lemma SetElement(p: string, i: nat, negated: bool, items: seq<Item>, dotted: bool, literal: bool)
    requires ClearSet(negated, items) && Stands(p, i, WriteToken(OneOf(negated, items)))
    ensures Elements(p, i, dotted, literal)
         == Then(ElemOf(OneOf(negated, items), dotted),
             Elements(p, i + |WriteToken(OneOf(negated, items))|, dotted, false))
  {
    hide Stands, SetAt, RangeAt, LiteralAt, Then, ClearSet, Pairs, WriteItems;
    StandsChar(p, i, WriteToken(OneOf(negated, items)), 0);
    SetTokenReads(p, i, negated, items);
  }

  lemma NumeralElement(p: string, i: nat, from: string, to: string, dotted: bool, literal: bool)
    requires AllDigits(from) && AllDigits(to) && Stands(p, i, WriteToken(Numeral(from, to)))
    ensures Elements(p, i, dotted, literal)
         == Then(ElemOf(Numeral(from, to), dotted), Elements(p, i + |WriteToken(Numeral(from, to))|, dotted, false))
  {
    hide Stands, SetAt, RangeAt, LiteralAt, Then, WriteRange, BoundOf, AllDigits;
    StandsChar(p, i, WriteToken(Numeral(from, to)), 0);
    NumeralReads(p, i, from, to);
  }

  lemma NumeralReads(p: string, i: nat, from: string, to: string)
    requires AllDigits(from) && AllDigits(to) && Stands(p, i, WriteToken(Numeral(from, to)))
    ensures RangeAt(p, i, '}') == Some((BoundOf(from), BoundOf(to), i + 1 + |WriteRange(from, to)|))
  {
    hide RangeAt, BoundOf, AllDigits, WriteRange, Stands;
    assert WriteToken(Numeral(from, to)) == "{" + (WriteRange(from, to) + "}");
    StandsParts(p, i, "{", WriteRange(from, to) + "}");
    RangeReads(p, i, from, to, '}');
  }

  lemma SetText(negated: bool, items: seq<Item>)
    ensures WriteToken(OneOf(negated, items)) == (if negated then "{^" else "{") + (WriteItems(items) + "}")
  {
  }

  lemma SetTokenReads(p: string, i: nat, negated: bool, items: seq<Item>)
    requires ClearSet(negated, items) && Stands(p, i, WriteToken(OneOf(negated, items)))
    ensures RangeAt(p, i, '}').None? && (At(p, i + 1) == '^' <==> negated)
    ensures var start := if negated then i + 2 else i + 1;
      SetAt(p, start, start) == Some((Pairs(items), i + |WriteToken(OneOf(negated, items))|))
  {
    hide Stands, SetAt, RangeAt, WriteItems, ClearItems, Dots, Pairs, WriteToken, Begins;
    FirstItem(items);
    var open, w := if negated then "{^" else "{", WriteItems(items);
    SetText(negated, items);
    SetNotRange(p, i, negated, items);
    StandsChar(p, i, open + (w + "}"), 1);
    StandsParts(p, i, open, w + "}");
    SetReads(p, i + |open|, i + |open|, items);
  }

  lemma {:induction false} GlyphsConcat(g: seq<Glyph>, h: seq<Glyph>)
    ensures WriteGlyphs(g + h) == WriteGlyphs(g) + WriteGlyphs(h)
  {
    hide WriteGlyph;
    if g == [] {
      assert g + h == h;
    } else {
      assert (g + h)[0] == g[0] && (g + h)[1..] == g[1..] + h;
      GlyphsConcat(g[1..], h);
    }
  }

  lemma {:induction false} CharsConcat(g: seq<Glyph>, h: seq<Glyph>)
    ensures Chars(g + h) == Chars(g) + Chars(h)
  {
    if g == [] {
      assert g + h == h;
    } else {
      assert (g + h)[0] == g[0] && (g + h)[1..] == g[1..] + h;
      CharsConcat(g[1..], h);
    }
  }

  // A literal is read up to where it stops.
  lemma LiteralElement(p: string, i: nat, g: seq<Glyph>, dotted: bool)
    requires Clear(g) && Stands(p, i, WriteGlyphs(g)) && Stop(p, i + |WriteGlyphs(g)|) && i < |p| && !Special(p[i])
    ensures var e := i + |WriteGlyphs(g)|;
      Elements(p, i, dotted, false) == Then(Literal(Chars(g) + Tail(p, e)), Elements(p, e, dotted, true))
  {
    hide Clear, Stands, Stop, LiteralAt, RangeAt, SetAt, Tail;
    LiteralReads(p, i, g);
  }

  // A text before any token but text and "[n..m]".
  lemma TextReads(p: string, i: nat, g: seq<Glyph>, ts: seq<Token>, dotted: bool)
    requires Clear(g) && g != [] && Stands(p, i, WriteGlyphs(g) + Write(ts)) && i + |WriteGlyphs(g) + Write(ts)| == |p|
    requires ts != [] ==> !ts[0].Text? && !ts[0].Index?
    ensures Elements(p, i, dotted, false) == Then(Literal(Chars(g)), Elements(p, i + |WriteGlyphs(g)|, dotted, true))
  {
    hide Clear, Stands, Elements, WriteItems, WriteRange, WriteGlyphs;
    var e := i + |WriteGlyphs(g)|;
    StandsParts(p, i, WriteGlyphs(g), Write(ts));
    if ts != [] { StandsChar(p, e, Write(ts), 0); }
    GlyphStands(p, i, g);
    ClearRest(g);
    LiteralElement(p, i, g, dotted);
    assert Chars(g) + "" == Chars(g);
  }

  // "[n..m]": its opening bracket ends the literal, its closing one begins the next.
  lemma IndexReads(p: string, i: nat, g: seq<Glyph>, from: string, to: string, rest: string, dotted: bool)
    requires Clear(g) && AllDigits(from) && AllDigits(to)
        && Stands(p, i, WriteGlyphs(g) + ((("[" + WriteRange(from, to)) + "]") + rest))
    ensures var e := i + |WriteGlyphs(g)| + 1 + |WriteRange(from, to)|;
      && Stands(p, e, "]" + rest)
      && Elements(p, i, dotted, false)
         == Then(Literal(Chars(g) + "["), Then(NumRange(BoundOf(from), BoundOf(to)), Elements(p, e, dotted, false)))
  {
    hide Clear, Stands, WriteRange, RangeAt, SetAt, LiteralAt, BoundOf, AllDigits, WriteGlyphs;
    var e, w := i + |WriteGlyphs(g)|, WriteRange(from, to);
    IndexStands(p, i, WriteGlyphs(g), w, rest);
    RangeReads(p, e, from, to, ']');
    if g != [] {
      GlyphStands(p, i, g);
      ClearRest(g);
    }
    NoGlyphs(g);
    LiteralElement(p, i, g, dotted);
  }

  lemma IndexStands(p: string, i: nat, a: string, w: string, rest: string)
    requires Stands(p, i, a + ((("[" + w) + "]") + rest))
    ensures var e := i + |a|;
      Stands(p, i, a) && e < |p| && p[e] == '[' && Stands(p, e + 1, w + "]") && Stands(p, e + 1 + |w|, "]" + rest)
  {
    hide Stands;
    var e := i + |a|;
    assert (("[" + w) + "]") + rest == ("[" + (w + "]")) + rest == ("[" + w) + ("]" + rest);
    StandsParts(p, i, a, ("[" + w) + ("]" + rest));
    StandsParts(p, e, "[" + w, "]" + rest);
    StandsParts(p, e, "[" + (w + "]"), rest);
    StandsParts(p, e, "[", w + "]");
    StandsChar(p, e, "[", 0);
  }

  lemma NoGlyphs(g: seq<Glyph>)
    ensures g == [] ==> WriteGlyphs(g) == ""
  {
  }

  // What is written is what is read.
  lemma {:induction false} ElementsRead(p: string, i: nat, g: seq<Glyph>, ts: seq<Token>, dotted: bool, literal: bool)
    requires Legible(g, ts) && Stands(p, i, WriteGlyphs(g) + Write(ts)) && i + |WriteGlyphs(g) + Write(ts)| == |p|
    requires literal ==> g == [] && (ts != [] ==> !ts[0].Text? && !ts[0].Index?)
    ensures Digital(ts) && Elements(p, i, dotted, literal) == Read(Elems(g, ts, dotted))
    decreases |ts|, 1, |g|
  {
    hide Elements, Stands, Clear, WriteGlyphs, WriteToken, ClearSet, AllDigits, Chars, BoundOf, ElemOf, RangeLike;
    NoGlyphs(g);
    NoGlyphs([]);
    LegibleDigital(g, ts);
    if ts != [] && ts[0].Text? {
      var h := ts[0].glyphs;
      GlyphsConcat(g, h);
      assert WriteGlyphs(g + h) + Write(ts[1..]) == WriteGlyphs(g) + Write(ts) by { TextToken(h); }
      ElementsRead(p, i, g + h, ts[1..], dotted, false);
    } else if ts != [] && ts[0].Index? {
      IndexElements(p, i, g, ts, dotted);
    } else if g != [] {
      TextReads(p, i, g, ts, dotted);
      StandsParts(p, i, WriteGlyphs(g), Write(ts));
      assert WriteGlyphs([]) + Write(ts) == Write(ts);
      LegibleAfter(g, ts);
      ElemsAfter(g, ts, dotted);
      ElementsRead(p, i + |WriteGlyphs(g)|, [], ts, dotted, true);
    } else if ts == [] {
      NothingRead(p, i, dotted, literal);
    } else {
      var n := i + |WriteToken(ts[0])|;
      assert WriteGlyphs(g) + Write(ts) == WriteToken(ts[0]) + Write(ts[1..]);
      StandsParts(p, i, WriteToken(ts[0]), Write(ts[1..]));
      assert WriteGlyphs([]) + Write(ts[1..]) == Write(ts[1..]);
      ElementsRead(p, n, [], ts[1..], dotted, false);
      if ts[0].Star? { StarToken(); NotStar(p, n, ts[1..]); }
      TokenReads(p, i, ts[0], dotted, literal);
      var x := [ElemOf(ts[0], dotted)] + Elems([], ts[1..], dotted);
      assert Elems(g, ts, dotted) == Lit(g) + x == x;
    }
  }

  lemma IndexLegible(g: seq<Glyph>, ts: seq<Token>)
    requires ts != [] && ts[0].Index? && Legible(g, ts)
    ensures Clear(g) && AllDigits(ts[0].from) && AllDigits(ts[0].to) && Legible([Plain(']')], ts[1..])
  {
  }

  lemma {:induction false} IndexElements(p: string, i: nat, g: seq<Glyph>, ts: seq<Token>, dotted: bool)
    requires ts != [] && ts[0].Index?
    requires Legible(g, ts) && Stands(p, i, WriteGlyphs(g) + Write(ts)) && i + |WriteGlyphs(g) + Write(ts)| == |p|
    ensures Digital(ts) && Elements(p, i, dotted, false) == Read(Elems(g, ts, dotted))
    decreases |ts|, 0
  {
    hide Elements, Stands, Clear, AllDigits, Chars, BoundOf, WriteRange;
    IndexLegible(g, ts);
    LegibleDigital(g, ts);
    hide Legible;
    var rest := Write(ts[1..]);
    IndexReads(p, i, g, ts[0].from, ts[0].to, rest, dotted);
    var e := i + |WriteGlyphs(g)| + 1 + |WriteRange(ts[0].from, ts[0].to)|;
    assert WriteGlyphs([Plain(']')]) == "]";
    ElementsRead(p, e, [Plain(']')], ts[1..], dotted, false);
    ThenTwice(Literal(Chars(g) + "["), NumRange(BoundOf(ts[0].from), BoundOf(ts[0].to)),
        Elems([Plain(']')], ts[1..], dotted));
  }

  lemma ThenTwice(a: Elem, b: Elem, x: seq<Elem>)
    ensures Then(a, Then(b, Read(x))) == Read([a, b] + x)
  {
    assert [a] + ([b] + x) == [a, b] + x;
  }

  // A text before a token of another kind is an element of its own.
  lemma ElemsAfter(g: seq<Glyph>, ts: seq<Token>, dotted: bool)
    requires Digital(ts) && g != [] && (ts != [] ==> !ts[0].Text? && !ts[0].Index?)
    ensures Elems(g, ts, dotted) == [Literal(Chars(g))] + Elems([], ts, dotted)
  {
    hide ClearSet, AllDigits, BoundOf, ElemOf, Chars;
    if ts != [] {
      var x := [ElemOf(ts[0], dotted)] + Elems([], ts[1..], dotted);
      assert Elems([], ts, dotted) == [] + x == x;
    }
  }

  lemma LegibleAfter(g: seq<Glyph>, ts: seq<Token>)
    requires Legible(g, ts) && (ts != [] ==> !ts[0].Text? && !ts[0].Index?)
    ensures Legible([], ts)
  {
    hide ClearSet, AllDigits;
    assert Clear([]);
  }

  lemma TextToken(h: seq<Glyph>)
    ensures WriteToken(Text(h)) == WriteGlyphs(h)
  {
  }

  lemma StarToken()
    ensures WriteToken(Star) == "*"
  {
  }

  lemma NothingRead(p: string, i: nat, dotted: bool, literal: bool)
    requires i >= |p|
    ensures Elements(p, i, dotted, literal) == Read([])
  {
  }

  // ---------- the meaning ----------

  lemma BoundsBind(n: nat, from: string, to: string)
    requires AllDigits(from) && AllDigits(to)
    ensures InRange(n, NumRange(BoundOf(from), BoundOf(to))) <==> Within(n, from, to)
  {
  }

  // One token's element takes what the token takes.
  lemma TokenMeans(p: seq<Elem>, k: nat, t: Token, dotted: bool, s: string)
    requires k < |p| && !t.Text? && !t.Index? && (t.Numeral? ==> AllDigits(t.from) && AllDigits(t.to))
        && p[k] == ElemOf(t, dotted)
    ensures Glob(p, k, s) <==>
      match t
      case Any => s != "" && (dotted ==> s[0] != '.') && Glob(p, k + 1, s[1..])
      case Star => exists i :: 0 <= i <= |s| && (dotted ==> NoDot(s[..i])) && Glob(p, k + 1, s[i..])
      case DoubleStar => exists i :: 0 <= i <= |s| && Glob(p, k + 1, s[i..])
      case OneOf(negated, items) => s != "" && Member(s[0], items) != negated && Glob(p, k + 1, s[1..])
      case Numeral(from, to) => NumberFirst(s, from, to) && Glob(p, k + 1, s[DigitRun(s)..])
  {
    hide InSet, Member, InRange, Within, BoundOf, Number, NoDot;
    if t.OneOf? && s != "" { SetMembers(s[0], t.items); }
    if t.Numeral? && DigitRun(s) > 0 { BoundsBind(Number(s[..DigitRun(s)]), t.from, t.to); }
  }

  lemma ElemsAt(p: seq<Elem>, k: nat, a: seq<Elem>, b: seq<Elem>)
    requires k <= |p| && p[k..] == a + b
    ensures k + |a| <= |p| && p[k + |a|..] == b && forall i :: 0 <= i < |a| ==> p[k + i] == a[i]
  {
    assert p[k + |a|..] == p[k..][|a|..];
    assert forall i :: 0 <= i < |a| ==> p[k..][i] == p[k + i];
  }

  // The elements from the k-th on mean the text g and the tokens after it.
  lemma {:induction false} ElemsMean(p: seq<Elem>, k: nat, g: seq<Glyph>, ts: seq<Token>, dotted: bool, s: string)
    requires Digital(ts) && k <= |p| && p[k..] == Elems(g, ts, dotted) + [End]
    ensures Glob(p, k, s) <==> Chars(g) <= s && Accepts(ts, dotted, s[|Chars(g)|..])
    decreases |ts|, 1, |g|
  {
    hide Clear, Chars, WriteToken, ElemOf, BoundOf, AllDigits;
    CharsNothing(g, s);
    if ts != [] && ts[0].Text? {
      var h := ts[0].glyphs;
      ElemsMean(p, k, g + h, ts[1..], dotted, s);
      CharsConcat(g, h);
      PrefixConcat(Chars(g), Chars(h), s);
    } else if ts != [] && ts[0].Index? {
      IndexMeans(p, k, g, ts, dotted, s);
    } else if g != [] {
      ElemsAfter(g, ts, dotted);
      assert p[k..] == [Literal(Chars(g))] + (Elems([], ts, dotted) + [End]);
      ElemsAt(p, k, [Literal(Chars(g))], Elems([], ts, dotted) + [End]);
      if Chars(g) <= s {
        CharsNothing([], s[|Chars(g)|..]);
        ElemsMean(p, k + 1, [], ts, dotted, s[|Chars(g)|..]);
      }
    } else if ts == [] {
      ElemsAt(p, k, [End], []);
    } else {
      OtherMeans(p, k, ts, dotted, s);
    }
  }

  lemma CharsNothing(g: seq<Glyph>, s: string)
    ensures g == [] ==> Chars(g) == "" && Chars(g) <= s && s[|Chars(g)|..] == s
  {
  }

  lemma IndexGlob(p: seq<Elem>, k: nat, c: string, from: string, to: string, s: string)
    requires AllDigits(from) && AllDigits(to) && k + 1 < |p|
    requires p[k] == Literal(c + "[") && p[k + 1] == NumRange(BoundOf(from), BoundOf(to))
    ensures Glob(p, k, s) <==>
      c + "[" <= s && var x := s[|c + "["|..]; NumberFirst(x, from, to) && Glob(p, k + 2, x[DigitRun(x)..])
  {
    hide BoundOf, InRange, Within, AllDigits, Number;
    if c + "[" <= s {
      var x := s[|c + "["|..];
      if DigitRun(x) > 0 { BoundsBind(Number(x[..DigitRun(x)]), from, to); }
    }
  }

  lemma IndexAt(p: seq<Elem>, k: nat, g: seq<Glyph>, ts: seq<Token>, dotted: bool)
    requires ts != [] && ts[0].Index?
    requires Digital(ts) && k <= |p| && p[k..] == Elems(g, ts, dotted) + [End]
    ensures Digital(ts[1..]) && AllDigits(ts[0].from) && AllDigits(ts[0].to) && k + 2 <= |p|
    ensures p[k] == Literal(Chars(g) + "[") && p[k + 1] == NumRange(BoundOf(ts[0].from), BoundOf(ts[0].to))
    ensures p[k + 2..] == Elems([Plain(']')], ts[1..], dotted) + [End]
  {
    hide Clear, Chars, BoundOf, AllDigits;
    var a := [Literal(Chars(g) + "["), NumRange(BoundOf(ts[0].from), BoundOf(ts[0].to))];
    var b := Elems([Plain(']')], ts[1..], dotted) + [End];
    assert p[k..] == a + b;
    ElemsAt(p, k, a, b);
    assert p[k] == a[0] && p[k + 1] == a[1];
  }

  lemma {:induction false} IndexMeans(p: seq<Elem>, k: nat, g: seq<Glyph>, ts: seq<Token>, dotted: bool, s: string)
    requires ts != [] && ts[0].Index?
    requires Digital(ts) && k <= |p| && p[k..] == Elems(g, ts, dotted) + [End]
    ensures Glob(p, k, s) <==> Chars(g) <= s && Accepts(ts, dotted, s[|Chars(g)|..])
    decreases |ts|, 0, 0
  {
    hide Clear, Chars, BoundOf, AllDigits, NumberFirst, Glob, Elems;
    var c, from, to := Chars(g), ts[0].from, ts[0].to;
    IndexAt(p, k, g, ts, dotted);
    PrefixConcat(c, "[", s);
    IndexGlob(p, k, c, from, to, s);
    if c + "[" <= s {
      var x := s[|c + "["|..];
      assert x == s[|c|..][1..];
      ClosingBracket();
      ElemsMean(p, k + 2, [Plain(']')], ts[1..], dotted, x[DigitRun(x)..]);
    }
  }

  lemma ClosingBracket()
    ensures Chars([Plain(']')]) == "]"
  {
    assert [Plain(']')][1..] == [];
  }

  lemma {:induction false} OtherMeans(p: seq<Elem>, k: nat, ts: seq<Token>, dotted: bool, s: string)
    requires ts != [] && !ts[0].Text? && !ts[0].Index?
    requires Digital(ts) && k <= |p| && p[k..] == Elems([], ts, dotted) + [End]
    ensures Glob(p, k, s) <==> Accepts(ts, dotted, s)
    decreases |ts|, 0, 0
  {
    hide Clear, Chars, ElemOf, AllDigits, ClearSet, Glob;
    var b := Elems([], ts[1..], dotted) + [End];
    assert p[k..] == [ElemOf(ts[0], dotted)] + b;
    ElemsAt(p, k, [ElemOf(ts[0], dotted)], b);
    forall x: string
      ensures Glob(p, k + 1, x) <==> Accepts(ts[1..], dotted, x)
    {
      CharsNothing([], x);
      ElemsMean(p, k + 1, [], ts[1..], dotted, x);
    }
    TokenMeans(p, k, ts[0], dotted, s);
  }

  lemma PrefixConcat(a: string, b: string, s: string)
    ensures a + b <= s <==> a <= s && b <= s[|a|..]
    ensures a + b <= s ==> s[|a + b|..] == s[|a|..][|b|..]
  {
    if a <= s && b <= s[|a|..] { assert s == a + (b + s[|a|..][|b|..]) == (a + b) + s[|a|..][|b|..]; }
  }

  // A pattern written by the rules compiles, and matches what its tokens match.
  lemma WrittenPattern(ts: seq<Token>, dotted: bool, line: string)
    requires Legible([], ts)
    ensures Digital(ts) && Compiled(Write(ts), dotted, true) == Read(Elems([], ts, dotted) + [End])
    ensures Glob(Compiled(Write(ts), dotted, true).value, 0, line) <==> Accepts(ts, dotted, line)
  {
    hide Glob, Elements, Elems, Legible, Accepts;
    LegibleDigital([], ts);
    var p, q := Write(ts), Elems([], ts, dotted) + [End];
    assert WriteGlyphs([]) + p == p && p[0..|p|] == p;
    ElementsRead(p, 0, [], ts, dotted, false);
    assert q[0..] == q;
    CharsNothing([], line);
    ElemsMean(q, 0, [], ts, dotted, line);
  }

  // ---------- what a user wants ----------

  // Every character of a text escaped.
  function Escape(t: string): string {
    if t == "" then "" else ['\\', t[0]] + Escape(t[1..])
  }

  function EscapedGlyphs(t: string): (g: seq<Glyph>)
    ensures |g| == |t| && forall i :: 0 <= i < |g| ==> g[i] == Escaped(t[i])
  {
    if t == "" then [] else [Escaped(t[0])] + EscapedGlyphs(t[1..])
  }

  lemma {:induction false} EscapedAsGlyphs(t: string)
    ensures WriteGlyphs(EscapedGlyphs(t)) == Escape(t) && Chars(EscapedGlyphs(t)) == t
  {
    if t != "" {
      assert EscapedGlyphs(t)[1..] == EscapedGlyphs(t[1..]);
      EscapedAsGlyphs(t[1..]);
    }
  }

  function TextOf(t: string): seq<Token> { if t == "" then [] else [Text(EscapedGlyphs(t))] }

  // A text in front of tokens of another kind.
  lemma TextInFrontOf(t: string, ts: seq<Token>, dotted: bool, s: string)
    requires ts != [] ==> !ts[0].Text?
    ensures Write(TextOf(t) + ts) == Escape(t) + Write(ts)
    ensures Accepts(TextOf(t) + ts, dotted, s) <==> t <= s && Accepts(ts, dotted, s[|t|..])
    ensures forall g :: Legible(g + EscapedGlyphs(t), ts) ==> Legible(g, TextOf(t) + ts)
  {
    hide Clear;
    EscapedAsGlyphs(t);
    if t == "" {
      assert TextOf(t) + ts == ts;
      assert forall g: seq<Glyph> :: g + [] == g;
    } else {
      assert (TextOf(t) + ts)[0] == Text(EscapedGlyphs(t)) && (TextOf(t) + ts)[1..] == ts;
    }
  }

  lemma EscapedClear(t: string)
    ensures Clear(EscapedGlyphs(t)) && Clear([Plain(']')] + EscapedGlyphs(t))
  {
    hide EscapedGlyphs;
    EscapedOnly(EscapedGlyphs(t));
    EscapedOnly([Plain(']')] + EscapedGlyphs(t));
  }

  lemma EscapedOnly(g: seq<Glyph>)
    requires forall i :: 0 <= i < |g| ==> g[i].Escaped? || (i == 0 && g[i] == Plain(']'))
    ensures Clear(g)
  {
  }

  // A text with every character escaped matches itself and nothing else.
  lemma EscapedText(t: string, dotted: bool, line: string)
    ensures Compiled(Escape(t), dotted, true).Read?
    ensures Glob(Compiled(Escape(t), dotted, true).value, 0, line) <==> line == t
  {
    hide Compiled, Glob, EscapedGlyphs, Escape;
    EscapedClear(t);
    TextInFrontOf(t, [], dotted, line);
    assert TextOf(t) + [] == TextOf(t) && Escape(t) + "" == Escape(t) && [] + EscapedGlyphs(t) == EscapedGlyphs(t);
    WrittenPattern(TextOf(t), dotted, line);
    if t <= line { assert line == t + line[|t|..]; }
  }

  // One token between two texts.
  lemma Between(a: string, t: Token, b: string, dotted: bool, line: string)
    requires || (t.OneOf? && ClearSet(t.negated, t.items))
             || ((t.Index? || t.Numeral?) && AllDigits(t.from) && AllDigits(t.to))
    ensures var p := Escape(a) + (WriteToken(t) + Escape(b));
      && Compiled(p, dotted, true).Read?
      && (Glob(Compiled(p, dotted, true).value, 0, line)
          <==> a <= line && Accepts([t] + TextOf(b), dotted, line[|a|..]))
    ensures forall s :: Accepts(TextOf(b), dotted, s) <==> s == b
  {
    hide Compiled, Glob, EscapedGlyphs, Escape, WriteToken, ClearSet, TextOf;
    var ts := [t] + TextOf(b);
    EscapedClear(a);
    EscapedClear(b);
    TextInFrontOf(a, ts, dotted, line);
    assert [] + EscapedGlyphs(a) == EscapedGlyphs(a);
    assert [] + EscapedGlyphs(b) == EscapedGlyphs(b);
    assert TextOf(b) + [] == TextOf(b) && Escape(b) + "" == Escape(b);
    TextInFrontOf(b, [], dotted, "");
    assert ts[0] == t && ts[1..] == TextOf(b);
    WrittenPattern(TextOf(a) + ts, dotted, line);
    forall s
      ensures Accepts(TextOf(b), dotted, s) <==> s == b
    {
      TextInFrontOf(b, [], dotted, s);
      if b <= s { assert s == b + s[|b|..]; }
    }
  }

  // "a{x-y}b" matches a and b with one character from x to y between them.
  lemma SetBetween(a: string, x: char, y: char, b: string, dotted: bool, line: string)
    requires x != '^' && y != '}'
    ensures var p := Escape(a) + (['{', x, '-', y, '}'] + Escape(b));
      && Compiled(p, dotted, true).Read?
      && (Glob(Compiled(p, dotted, true).value, 0, line) <==> exists c :: x <= c <= y && line == a + [c] + b)
  {
    hide Compiled, Glob, Escape, TextOf, Dots;
    var items := [Span(x, y)];
    var t := OneOf(false, items);
    assert items[1..] == [] && WriteItems(items) == [x, '-', y];
    NoDotsInSpan(x, y);
    assert ClearItems(items[1..], false) && ClearItems(items, true);
    assert WriteToken(t) == ['{', x, '-', y, '}'];
    Between(a, t, b, dotted, line);
    assert ([t] + TextOf(b))[1..] == TextOf(b);
    if a <= line && Accepts([t] + TextOf(b), dotted, line[|a|..]) {
      var s := line[|a|..];
      assert line == a + [s[0]] + b;
    }
    if c :| x <= c <= y && line == a + [c] + b {
      assert line[|a|..] == [c] + b;
      assert items[0].from <= c <= items[0].to;
      assert line[|a|..][1..] == b;
    }
  }

  lemma NoDotsInSpan(x: char, y: char)
    ensures !Dots([x, '-', y])
  {
  }

  // "a[n..m]b" matches a number from n to m in brackets between a and b.
  lemma IndexBetween(a: string, from: string, to: string, b: string, dotted: bool, line: string)
    requires AllDigits(from) && AllDigits(to)
    ensures var p := Escape(a) + (WriteToken(Index(from, to)) + Escape(b));
      && Compiled(p, dotted, true).Read?
      && (Glob(Compiled(p, dotted, true).value, 0, line)
          <==> exists d ::
                 d != "" && AllDigits(d) && Within(Number(d), from, to) && line == a + (("[" + d) + ("]" + b)))
  {
    hide Compiled, Glob, Escape, TextOf, Number, WriteToken;
    var t := Index(from, to);
    Between(a, t, b, dotted, line);
    assert ([t] + TextOf(b))[1..] == TextOf(b);
    if a <= line {
      var s := line[|a|..];
      IndexLine(s, from, to, b);
      assert line == a + s;
    }
    if d :| d != "" && AllDigits(d) && Within(Number(d), from, to) && line == a + (("[" + d) + ("]" + b)) {
      assert line[|a|..] == ("[" + d) + ("]" + b);
    }
  }

  // A number in brackets before b.
  ghost predicate Indexed(s: string, from: string, to: string, b: string)
    requires AllDigits(from) && AllDigits(to)
  {
    && s != "" && s[0] == '[' && NumberFirst(s[1..], from, to)
    && var u := s[1..][DigitRun(s[1..])..]; u != "" && u[0] == ']' && u[1..] == b
  }

  lemma IndexLine(s: string, from: string, to: string, b: string)
    requires AllDigits(from) && AllDigits(to)
    ensures Indexed(s, from, to, b)
       <==> exists d :: d != "" && AllDigits(d) && Within(Number(d), from, to) && s == ("[" + d) + ("]" + b)
  {
    hide Number, Indexed, Within, NumberFirst;
    if Indexed(s, from, to, b) { IndexSplit(s, from, to, b); }
    if d :| d != "" && AllDigits(d) && Within(Number(d), from, to) && s == ("[" + d) + ("]" + b) {
      IndexJoin(s, from, to, b, d);
    }
  }

  lemma IndexSplit(s: string, from: string, to: string, b: string)
    requires AllDigits(from) && AllDigits(to) && Indexed(s, from, to, b)
    ensures var d := s[1..][..DigitRun(s[1..])];
      d != "" && AllDigits(d) && Within(Number(d), from, to) && s == ("[" + d) + ("]" + b)
  {
    hide Number, Within;
    var n := DigitRun(s[1..]);
    var d, u := s[1..][..n], s[1..][n..];
    assert s == ("[" + d) + u && u == "]" + u[1..];
  }

  lemma IndexJoin(s: string, from: string, to: string, b: string, d: string)
    requires AllDigits(from) && AllDigits(to) && AllDigits(d) && d != "" && Within(Number(d), from, to)
        && s == ("[" + d) + ("]" + b)
    ensures Indexed(s, from, to, b)
  {
    hide Number, Within;
    assert s[1..] == d + ("]" + b);
    RunOf(d, "]" + b);
    assert s[1..][|d|..] == "]" + b && ("]" + b)[1..] == b;
  }

  // Digits before anything else are the run of digits.
  lemma {:induction false} RunOf(d: string, rest: string)
    requires AllDigits(d) && (rest != "" ==> !IsDigit(rest[0]))
    ensures DigitRun(d + rest) == |d| && (d + rest)[..|d|] == d
  {
    assert forall k :: 0 <= k < |d| ==> (d + rest)[k] == d[k];
    if rest != "" { assert (d + rest)[|d|] == rest[0]; }
  }
}
