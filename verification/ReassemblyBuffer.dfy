/**
 * Reassembly of a fragmented datagram (section 3.2 of RFC 791): one region that grows, and
 * the fragments put aside until they touch it.
 */
module ReassemblyBuffers {
  import opened Basics

  type ushort = x: int | 0 <= x < 0x1_0000
  datatype Region = Region(beg: ushort, end: ushort, islast: bool)

  // ---------- a datagram cut into pieces ----------

  // The places of the cuts, from 0 to the length of the datagram.
  ghost predicate Cuts(cuts: seq<ushort>) {
    |cuts| >= 2 && cuts[0] == 0 && forall i, j :: 0 <= i < j < |cuts| ==> cuts[i] < cuts[j]
  }

  // The i-th piece; the last one alone is marked.
  function Piece(cuts: seq<ushort>, i: nat): Region
    requires i + 1 < |cuts|
  {
    Region(cuts[i], cuts[i + 1], i + 2 == |cuts|)
  }

  ghost predicate Pieces(cuts: seq<ushort>, arrived: set<nat>, frags: seq<Region>) {
    forall i :: 0 <= i < |frags| ==> IsPiece(cuts, arrived, frags[i])
  }

  ghost predicate IsPiece(cuts: seq<ushort>, arrived: set<nat>, r: Region) {
    exists p: nat :: p in arrived && p + 1 < |cuts| && r == Piece(cuts, p)
  }

  // The first m pieces make up the region, and whatever else arrived is put aside.
  ghost predicate Loose(cuts: seq<ushort>, arrived: set<nat>, main: Region, frags: seq<Region>, m: nat) {
    && Cuts(cuts) && m < |cuts| && main == Region(0, cuts[m], m + 1 == |cuts|)
    && (forall p :: p in arrived ==> p + 1 < |cuts|) && (forall p: nat :: p < m ==> p in arrived)
    && Pieces(cuts, arrived, frags)
    && forall p :: p in arrived && p >= m ==> Piece(cuts, p) in frags
  }

  // A fragment that could be joined to the region, or is in it already.
  predicate Touches(main: Region, r: Region) {
    main.end == r.beg || main.beg == r.end || (main.beg <= r.beg && main.end >= r.end)
  }

  ghost predicate Untouched(main: Region, frags: seq<Region>) {
    forall i :: 0 <= i < |frags| ==> !Touches(main, frags[i])
  }

  // Regions begin before they end, and what is held is the bytes of the region and of the
  // fragments put aside.
  ghost predicate Proper(main: Region, frags: seq<Region>) {
    main.beg <= main.end && forall i :: 0 <= i < |frags| ==> frags[i].beg <= frags[i].end
  }

  predicate Within(r: Region, x: int) { r.beg <= x < r.end }

  ghost predicate Held(main: Region, frags: seq<Region>, x: int) {
    Within(main, x) || exists i :: 0 <= i < |frags| && Within(frags[i], x)
  }

  ghost predicate SameHeld(main: Region, frags: seq<Region>, main': Region, frags': seq<Region>) {
    Proper(main', frags') && forall x: int :: Held(main', frags', x) <==> Held(main, frags, x)
  }

  // A region that has taken in the i-th fragment, or had it already, holds the same without it.
  lemma JoinedHeld(main: Region, frags: seq<Region>, i: nat, main': Region)
    requires Proper(main, frags) && i < |frags| && main'.beg <= main'.end
    requires forall x: int :: Within(main', x) <==> Within(main, x) || Within(frags[i], x)
    ensures SameHeld(main, frags, main', Without(frags, i))
  {
    var rest := Without(frags, i);
    forall x: int
      ensures Held(main', rest, x) <==> Held(main, frags, x)
    {
      if j :| 0 <= j < |frags| && Within(frags[j], x) {
        if j != i { assert Within(rest[if j < i then j else j - 1], x); }
      }
      if j :| 0 <= j < |rest| && Within(rest[j], x) { assert Within(frags[if j < i then j else j + 1], x); }
    }
  }

  // With nothing left that touches, the region holds all that can be joined.
  ghost predicate Settled(cuts: seq<ushort>, arrived: set<nat>, main: Region, frags: seq<Region>, m: nat) {
    Loose(cuts, arrived, main, frags, m) && m !in arrived && Untouched(main, frags)
  }

  lemma LooseSettled(cuts: seq<ushort>, arrived: set<nat>, main: Region, frags: seq<Region>, m: nat)
    requires Loose(cuts, arrived, main, frags, m) && Untouched(main, frags)
    ensures Settled(cuts, arrived, main, frags, m)
  {
  }

  // The region is complete exactly if every piece has arrived.
  lemma CompleteExactly(cuts: seq<ushort>, arrived: set<nat>, main: Region, frags: seq<Region>, m: nat)
    requires Settled(cuts, arrived, main, frags, m)
    ensures main.beg == 0 && (main.islast <==> forall p: nat :: p + 1 < |cuts| ==> p in arrived)
    ensures main.islast ==> main.end == cuts[|cuts| - 1] && frags == []
  {
    if main.islast { AllTouch(cuts, arrived, main, frags, m); }
  }

  lemma AllTouch(cuts: seq<ushort>, arrived: set<nat>, main: Region, frags: seq<Region>, m: nat)
    requires Loose(cuts, arrived, main, frags, m) && main.islast
    ensures frags != [] ==> Touches(main, frags[0])
  {
    if frags != [] { assert IsPiece(cuts, arrived, frags[0]); }
  }

  // A piece in reach is joined, or dropped as a duplicate.
  lemma Joined(cuts: seq<ushort>, arrived: set<nat>, main: Region, frags: seq<Region>, m: nat, i: nat)
    requires Loose(cuts, arrived, main, frags, m) && i < |frags| && Touches(main, frags[i])
    ensures main.beg != frags[i].end
    ensures if main.end == frags[i].beg then m + 1 < |cuts| && frags[i] == Piece(cuts, m)
              && Loose(cuts, arrived, Region(0, frags[i].end, main.islast || frags[i].islast), Without(frags, i), m + 1)
            else Loose(cuts, arrived, main, Without(frags, i), m)
  {
    assert IsPiece(cuts, arrived, frags[i]);
    var p: nat :| p in arrived && p + 1 < |cuts| && frags[i] == Piece(cuts, p);
    if main.end == frags[i].beg { SameCut(cuts, p, m); }
    forall r | r in arrived && r >= m && r != p
      ensures Piece(cuts, r) in Without(frags, i)
    {
      Kept(frags, i, Piece(cuts, r));
    }
    forall j | 0 <= j < |frags| - 1
      ensures IsPiece(cuts, arrived, Without(frags, i)[j])
    {
      assert IsPiece(cuts, arrived, frags[if j < i then j else j + 1]);
    }
  }

  lemma SameCut(cuts: seq<ushort>, p: nat, q: nat)
    requires Cuts(cuts) && p < |cuts| && q < |cuts| && cuts[p] == cuts[q]
    ensures p == q
  {
  }

  lemma Kept<T>(s: seq<T>, i: nat, x: T)
    requires i < |s| && x in s && s[i] != x
    ensures x in Without(s, i)
  {
    var j :| 0 <= j < |s| && s[j] == x;
    assert Without(s, i)[if j < i then j else j - 1] == x;
  }

  // A new piece is taken note of, where merging has put it.
  lemma Noted(cuts: seq<ushort>, arrived: set<nat>, main: Region, frags: seq<Region>, m: nat, p: nat)
    requires Settled(cuts, arrived, main, frags, m) && p + 1 < |cuts|
    ensures var r := Piece(cuts, p);
      && main.beg != r.end
      && (main.end == r.beg ==> Loose(cuts, arrived + {p}, Region(0, r.end, main.islast || r.islast), frags, m + 1))
      && (main.end < r.beg ==> Settled(cuts, arrived + {p}, main, frags + [r], m))
      && (main.end > r.beg ==> Settled(cuts, arrived + {p}, main, frags, m))
  {
    NotedPieces(cuts, arrived, frags, p);
    if main.end == cuts[p] {
      SameCut(cuts, p, m);
    } else if main.end < cuts[p] {
      NotedAside(cuts, arrived, main, frags, m, p);
    } else {
      NotedAgain(cuts, arrived, main, frags, m, p);
    }
  }

  lemma NotedPieces(cuts: seq<ushort>, arrived: set<nat>, frags: seq<Region>, p: nat)
    requires Pieces(cuts, arrived, frags) && p + 1 < |cuts|
    ensures Pieces(cuts, arrived + {p}, frags) && Pieces(cuts, arrived + {p}, frags + [Piece(cuts, p)])
  {
    forall i | 0 <= i < |frags|
      ensures IsPiece(cuts, arrived + {p}, frags[i])
    {
      assert IsPiece(cuts, arrived, frags[i]);
    }
    assert IsPiece(cuts, arrived + {p}, Piece(cuts, p));
  }

  lemma NotedAside(cuts: seq<ushort>, arrived: set<nat>, main: Region, frags: seq<Region>, m: nat, p: nat)
    requires Settled(cuts, arrived, main, frags, m) && p + 1 < |cuts| && main.end < cuts[p]
    requires Pieces(cuts, arrived + {p}, frags + [Piece(cuts, p)])
    ensures Settled(cuts, arrived + {p}, main, frags + [Piece(cuts, p)], m)
  {
    var r := Piece(cuts, p);
    assert (frags + [r])[|frags|] == r && m != p && !Touches(main, r);
    forall q | q in arrived + {p} && q >= m
      ensures Piece(cuts, q) in frags + [r]
    {
    }
  }

  lemma NotedAgain(cuts: seq<ushort>, arrived: set<nat>, main: Region, frags: seq<Region>, m: nat, p: nat)
    requires Settled(cuts, arrived, main, frags, m) && p + 1 < |cuts| && main.end > cuts[p]
    requires Pieces(cuts, arrived + {p}, frags)
    ensures Settled(cuts, arrived + {p}, main, frags, m)
  {
  }

  // ---------- the buffer ----------

  class ReassemblyBuffer {
    var main: Region
    var fragments: seq<Region>

    // The cuts of the datagram, the pieces that have arrived and how many are joined.
    ghost const cuts: seq<ushort>
    ghost var arrived: set<nat>
    ghost var joined: nat

    constructor (ghost c: seq<ushort>)
      requires Cuts(c)
      ensures Valid() && cuts == c && arrived == {}
    {
      main, fragments := Region(0, 0, false), [];
      cuts, arrived, joined := c, {}, 0;
    }

    ghost predicate Valid()
      reads this
    {
      Settled(cuts, arrived, main, fragments, joined)
    }

    // The p-th piece arrives, perhaps again: is the datagram complete?
    method AddFragment(beg: ushort, end: ushort, islast: bool, ghost p: nat) returns (complete: bool)
      requires Valid() && p + 1 < |cuts| && Region(beg, end, islast) == Piece(cuts, p)
      modifies this
      ensures Valid() && arrived == old(arrived) + {p}
      ensures complete <==> forall q: nat :: q + 1 < |cuts| ==> q in arrived
      ensures complete ==> main.end == cuts[|cuts| - 1] && fragments == []
    {
      Merge(beg, end, islast, p, true);
      CompleteExactly(cuts, arrived, main, fragments, joined);
      complete := main.beg == 0 && main.islast;
    }

    // A region is joined, put aside or dropped; of a legal piece note is taken.
    method Merge(beg: ushort, end: ushort, islast: bool, ghost p: nat, ghost legal: bool)
      requires legal ==> Valid() && p + 1 < |cuts| && Region(beg, end, islast) == Piece(cuts, p)
      modifies this
      ensures legal ==> Valid() && arrived == old(arrived) + {p}
      ensures old(Proper(main, fragments)) && beg <= end ==>
                && Proper(main, fragments)
                && forall x: int :: Held(main, fragments, x)
                     <==> old(Held(main, fragments, x)) || (beg <= x < end && !old(Overlaps(main, beg, end)))
    {
      hide Loose, Untouched, Held, Proper;
      ghost var m, f := main, fragments;
      if Proper(m, f) && beg <= end { MergedHeld(m, f, beg, end, islast); }
      if legal {
        Noted(cuts, arrived, main, fragments, joined, p);
        FromZero(cuts, arrived, main, fragments, joined);
      }
      arrived := arrived + {p};
      if main.end == beg {
        main := main.(end := end);
        if islast {
          main := main.(islast := true);
        }
        joined := joined + 1;
        MergeFragments();
      } else if main.beg == end {
        main := main.(beg := beg);
        MergeFragments();
      } else if main.end < beg || main.beg > end {
        fragments := fragments + [Region(beg, end, islast)];
      }
    }

    // Joins what touches the region, again and again, until nothing does.
    method MergeFragments()
      modifies this`main, this`fragments, this`joined
      ensures Untouched(main, fragments)
      ensures old(Loose(cuts, arrived, main, fragments, joined)) ==> Settled(cuts, arrived, main, fragments, joined)
      ensures old(Proper(main, fragments)) ==> SameHeld(old(main), old(fragments), main, fragments)
    {
      hide Loose, Held;
      ghost var loose := Loose(cuts, arrived, main, fragments, joined);
      var oncemore := true;
      while oncemore
        invariant loose ==> Loose(cuts, arrived, main, fragments, joined)
        invariant !oncemore ==> Untouched(main, fragments)
        invariant old(Proper(main, fragments)) ==> SameHeld(old(main), old(fragments), main, fragments)
        decreases |fragments|, oncemore
      {
        oncemore := Pass();
      }
      if loose { LooseSettled(cuts, arrived, main, fragments, joined); }
    }

    // One pass over the fragments.
    method Pass() returns (oncemore: bool)
      modifies this`main, this`fragments, this`joined
      ensures if oncemore then |fragments| < |old(fragments)|
              else fragments == old(fragments) && Untouched(main, fragments)
      ensures old(Loose(cuts, arrived, main, fragments, joined)) ==> Loose(cuts, arrived, main, fragments, joined)
      ensures old(Proper(main, fragments)) ==> SameHeld(old(main), old(fragments), main, fragments)
    {
      hide Loose, Held;
      ghost var loose := Loose(cuts, arrived, main, fragments, joined);
      oncemore := false;
      var i := 0;
      while i < |fragments|
        invariant 0 <= i <= |fragments| <= |old(fragments)|
        invariant if oncemore then |fragments| < |old(fragments)| else fragments == old(fragments) && main == old(main)
        invariant !oncemore ==> forall j :: 0 <= j < i ==> !Touches(main, fragments[j])
        invariant loose ==> Loose(cuts, arrived, main, fragments, joined)
        invariant old(Proper(main, fragments)) ==> SameHeld(old(main), old(fragments), main, fragments)
        decreases |fragments| - i
      {
        var deleteit := Join(i, loose);
        if deleteit {
          fragments := Without(fragments, i);
          oncemore := true;
        } else {
          i := i + 1;
        }
      }
    }

    // The i-th fragment is joined if it touches the region; then it has to go.
    method Join(i: nat, ghost loose: bool) returns (deleteit: bool)
      requires i < |fragments| && (loose ==> Loose(cuts, arrived, main, fragments, joined))
      modifies this`main, this`joined
      ensures deleteit == Touches(old(main), fragments[i]) && (!deleteit ==> main == old(main) && joined == old(joined))
      ensures loose && deleteit ==> Loose(cuts, arrived, main, Without(fragments, i), joined)
      ensures deleteit && old(Proper(main, fragments)) ==> SameHeld(old(main), fragments, main, Without(fragments, i))
    {
      hide Loose, SameHeld;
      ghost var before := main;
      var frag := fragments[i];
      deleteit := false;
      if loose && Touches(main, frag) { Joined(cuts, arrived, main, fragments, joined, i); }
      if main.end == frag.beg {
        ghost var was := main;
        main := main.(end := frag.end);
        if frag.islast {
          main := main.(islast := true);
        }
        if loose { FromZero(cuts, arrived, was, fragments, joined); }
        joined := joined + 1;
        deleteit := true;
      } else if main.beg == frag.end {
        main := main.(beg := frag.beg);
        deleteit := true;
      } else if main.beg <= frag.beg && main.end >= frag.end {
        deleteit := true;
      }
      if deleteit && Proper(before, fragments) { JoinedHeld(before, fragments, i, main); }
    }
  }

  // A fragment neither apart from the region nor next to it is taken for a duplicate.
  predicate Overlaps(main: Region, beg: ushort, end: ushort) {
    main.end != beg && main.beg != end && main.end >= beg && main.beg <= end
  }

  // What is held after a fragment has been joined at either side, or put aside.
  lemma MergedHeld(m: Region, f: seq<Region>, beg: ushort, end: ushort, islast: bool)
    requires Proper(m, f) && beg <= end
    ensures m.end == beg ==> forall last ::
              var main := Region(m.beg, end, last);
              Proper(main, f) && forall x: int :: Held(main, f, x) <==> Held(m, f, x) || beg <= x < end
    ensures m.beg == end ==> forall last ::
              var main := Region(beg, m.end, last);
              Proper(main, f) && forall x: int :: Held(main, f, x) <==> Held(m, f, x) || beg <= x < end
    ensures var g := f + [Region(beg, end, islast)];
      Proper(m, g) && forall x: int :: Held(m, g, x) <==> Held(m, f, x) || beg <= x < end
  {
    var g := f + [Region(beg, end, islast)];
    forall x: int
      ensures Held(m, g, x) <==> Held(m, f, x) || beg <= x < end
    {
      if beg <= x < end { assert Within(g[|f|], x); }
      if j :| 0 <= j < |f| && Within(f[j], x) { assert Within(g[j], x); }
      if j :| 0 <= j < |g| && Within(g[j], x) { if j < |f| { assert Within(f[j], x); } }
    }
  }

  lemma FromZero(cuts: seq<ushort>, arrived: set<nat>, main: Region, frags: seq<Region>, m: nat)
    requires Loose(cuts, arrived, main, frags, m)
    ensures main.beg == 0
  {
  }
}
