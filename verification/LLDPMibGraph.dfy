/**
 * The controller's link database: per switch, the links LLDP has seen at it, each with
 * a time of expiry. Every link is entered once at either end.
 */
module LLDPMibs {
  import opened Basics

  // One direction of a link, and an entry of the database.
  datatype Link = Link(srcPort: int, dstPort: int, srcId: string, dstId: string)
  datatype Mib = Mib(srcPort: int, dstPort: int, srcId: string, dstId: string, expiresAt: int)

  function Ends(m: Mib): Link { Link(m.srcPort, m.dstPort, m.srcId, m.dstId) }

  function Reversed(m: Mib): Mib { Mib(m.dstPort, m.srcPort, m.dstId, m.srcId, m.expiresAt) }

  // The same link, seen from the same end or from the other one.
  predicate SameLink(a: Mib, b: Mib) {
    || (b.dstId == a.dstId && b.srcId == a.srcId && b.dstPort == a.dstPort && b.srcPort == a.srcPort)
    || (b.dstId == a.srcId && b.srcId == a.dstId && b.dstPort == a.srcPort && b.srcPort == a.dstPort)
  }

  // Equal ends, ports included, or the two ends swapped: parallel links are different links.
  lemma SameLinkExactly(a: Mib, b: Mib)
    ensures SameLink(a, b) <==>
      {(a.srcId, a.srcPort), (a.dstId, a.dstPort)} == {(b.srcId, b.srcPort), (b.dstId, b.dstPort)}
  {
    var x, y, p, q := (a.srcId, a.srcPort), (a.dstId, a.dstPort), (b.srcId, b.srcPort), (b.dstId, b.dstPort);
    if {x, y} == {p, q} {
      assert x in {p, q} && y in {p, q} && p in {x, y} && q in {x, y};
    }
  }

  lemma SameLinkEquivalence(a: Mib, b: Mib, c: Mib)
    ensures SameLink(a, a) && SameLink(a, Reversed(a)) && (SameLink(a, b) <==> SameLink(b, a))
    ensures SameLink(a, b) && SameLink(b, c) ==> SameLink(a, c)
  {
  }

  // ---------- one vertex's list ----------

  predicate Has(l: seq<Mib>, m: Mib) {
    exists i :: 0 <= i < |l| && SameLink(l[i], m)
  }

  // The entry for m's link gets m's expiry; without one, m is appended.
  function Renewed(l: seq<Mib>, m: Mib): seq<Mib> {
    if l == [] then [m]
    else if SameLink(l[0], m) then [l[0].(expiresAt := m.expiresAt)] + l[1..]
    else [l[0]] + Renewed(l[1..], m)
  }

  // The entries not yet expired.
  function Live(l: seq<Mib>, now: int): seq<Mib> {
    if l == [] then []
    else (if l[0].expiresAt < now then [] else [l[0]]) + Live(l[1..], now)
  }

  ghost predicate NoDuplicates(l: seq<Mib>) {
    forall i, j :: 0 <= i < j < |l| ==> !SameLink(l[i], l[j])
  }

  function Stripped(l: seq<Mib>): seq<Link> {
    if l == [] then [] else [Ends(l[0])] + Stripped(l[1..])
  }

  lemma {:induction false} StrippedAt(l: seq<Mib>)
    ensures |Stripped(l)| == |l| && forall i :: 0 <= i < |l| ==> Stripped(l)[i] == Ends(l[i])
  {
    if l != [] { StrippedAt(l[1..]); }
  }

  // What Renewed does, element by element.
  lemma {:induction false} RenewedAt(l: seq<Mib>, m: Mib)
    requires NoDuplicates(l)
    ensures |Renewed(l, m)| == |l| + (if Has(l, m) then 0 else 1)
    ensures forall i :: 0 <= i < |l| ==>
              Renewed(l, m)[i] == if SameLink(l[i], m) then l[i].(expiresAt := m.expiresAt) else l[i]
    ensures !Has(l, m) ==> Renewed(l, m)[|l|] == m
  {
    if l != [] {
      var t := l[1..];
      assert forall i :: 0 <= i < |t| ==> t[i] == l[i + 1];
      if SameLink(l[0], m) {
        assert forall i :: 1 <= i < |l| ==> !SameLink(l[0], l[i]);
      } else {
        RenewedAt(t, m);
        assert Has(l, m) <==> Has(t, m) by {
          if Has(l, m) {
            var i :| 0 <= i < |l| && SameLink(l[i], m);
            assert SameLink(t[i - 1], m);
          }
        }
      }
    }
  }

  // Renewing keeps a list free of duplicates ...
  lemma RenewedNoDuplicates(l: seq<Mib>, m: Mib)
    requires NoDuplicates(l)
    ensures NoDuplicates(Renewed(l, m)) && Renewed(l, m) != []
  {
    RenewedAt(l, m);
  }

  // ... changes the links exactly when m's is new ...
  lemma RenewedStripped(l: seq<Mib>, m: Mib)
    requires NoDuplicates(l)
    ensures Has(l, m) <==> Stripped(Renewed(l, m)) == Stripped(l)
  {
    RenewedAt(l, m);
    StrippedAt(l);
    StrippedAt(Renewed(l, m));
    if Has(l, m) {
      assert Stripped(Renewed(l, m)) == Stripped(l);
    }
  }

  // ... leaves m's link there with m's expiry ...
  lemma RenewedHas(l: seq<Mib>, m: Mib)
    requires NoDuplicates(l)
    ensures Has(Renewed(l, m), m)
    ensures forall x :: x in Renewed(l, m) && SameLink(x, m) ==> x.expiresAt == m.expiresAt
  {
    RenewedAt(l, m);
    var r := Renewed(l, m);
    if Has(l, m) {
      var i :| 0 <= i < |l| && SameLink(l[i], m);
      assert SameLink(r[i], m);
    } else {
      assert SameLink(r[|l|], m);
    }
  }

  // ... and keeps every other entry as it was.
  lemma RenewedOthers(l: seq<Mib>, m: Mib, x: Mib)
    requires NoDuplicates(l) && !SameLink(x, m)
    ensures x in Renewed(l, m) <==> x in l
  {
    RenewedAt(l, m);
    var r := Renewed(l, m);
    if x in l {
      var i :| 0 <= i < |l| && l[i] == x;
      assert r[i] == x;
    }
  }

  lemma RenewedOrigin(l: seq<Mib>, m: Mib, x: Mib)
    requires NoDuplicates(l) && x in Renewed(l, m)
    ensures x == m || exists y :: y in l && Ends(y) == Ends(x)
  {
    RenewedAt(l, m);
    var i :| 0 <= i < |Renewed(l, m)| && Renewed(l, m)[i] == x;
    if i < |l| { assert l[i] in l; }
  }

  lemma {:induction false} LiveMember(l: seq<Mib>, now: int, x: Mib)
    ensures x in Live(l, now) <==> x in l && x.expiresAt >= now
  {
    if l != [] {
      LiveMember(l[1..], now, x);
      assert x in l <==> x == l[0] || x in l[1..];
    }
  }

  lemma {:induction false} LiveLength(l: seq<Mib>, now: int)
    ensures |Live(l, now)| <= |l| && (|Live(l, now)| == |l| ==> Live(l, now) == l)
  {
    if l != [] { LiveLength(l[1..], now); }
  }

  lemma {:induction false} LiveNoDuplicates(l: seq<Mib>, now: int)
    requires NoDuplicates(l)
    ensures NoDuplicates(Live(l, now))
  {
    if l != [] {
      var t, r := l[1..], Live(l[1..], now);
      assert forall i :: 0 <= i < |t| ==> t[i] == l[i + 1];
      LiveNoDuplicates(t, now);
      forall i | 0 <= i < |r|
        ensures !SameLink(l[0], r[i])
      {
        LiveMember(t, now, r[i]);
        var j :| 0 <= j < |t| && t[j] == r[i];
      }
    }
  }

  lemma {:induction false} LiveConcat(a: seq<Mib>, b: seq<Mib>, now: int)
    ensures Live(a + b, now) == Live(a, now) + Live(b, now)
  {
    if a == [] {
      assert a + b == b;
    } else {
      assert (a + b)[0] == a[0] && (a + b)[1..] == a[1..] + b;
      LiveConcat(a[1..], b, now);
      Associative(if a[0].expiresAt < now then [] else [a[0]], Live(a[1..], now), Live(b, now));
    }
  }

  // ---------- the whole database ----------

  type Db = map<string, seq<Mib>>

  // Only the links, without their expiry: what routes depend on.
  type Links = map<string, seq<Link>>

  function LinksOf(v: Db): Links { map k | k in v :: Stripped(v[k]) }

  // Every vertex has entries, all of them its own.
  ghost predicate Keyed(v: Db) {
    forall k :: k in v ==> v[k] != [] && forall x :: x in v[k] ==> x.srcId == k
  }

  ghost predicate Unduplicated(v: Db) {
    forall k :: k in v ==> NoDuplicates(v[k])
  }

  // The other end knows the link too, until the same time.
  ghost predicate HasMirror(v: Db, x: Mib) {
    x.dstId in v && exists y :: y in v[x.dstId] && SameLink(y, x) && y.expiresAt == x.expiresAt
  }

  ghost predicate Mirrored(v: Db) {
    forall k, x :: k in v && x in v[k] ==> HasMirror(v, x)
  }

  ghost predicate Sound(v: Db) {
    Keyed(v) && Unduplicated(v) && Mirrored(v)
  }

  function ListOf(v: Db, k: string): seq<Mib> { if k in v then v[k] else [] }

  function HalfAdded(v: Db, m: Mib): Db {
    v[m.srcId := Renewed(ListOf(v, m.srcId), m)]
  }

  function Added(v: Db, m: Mib): Db {
    HalfAdded(HalfAdded(v, m), Reversed(m))
  }

  function LiveDb(v: Db, now: int): Db {
    map k | k in v && Live(v[k], now) != [] :: Live(v[k], now)
  }

  lemma HalfAddedSound(v: Db, m: Mib)
    requires Keyed(v) && Unduplicated(v)
    ensures Keyed(HalfAdded(v, m)) && Unduplicated(HalfAdded(v, m))
  {
    var l, r := ListOf(v, m.srcId), Renewed(ListOf(v, m.srcId), m);
    RenewedNoDuplicates(l, m);
    forall x: Mib | x in r
      ensures x.srcId == m.srcId
    {
      RenewedOrigin(l, m, x);
    }
  }

  // Entries of other links come and go with neither half of the addition.
  lemma HalfAddedOthers(v: Db, m: Mib, x: Mib)
    requires Keyed(v) && Unduplicated(v) && !SameLink(x, m)
    ensures forall k :: x in ListOf(HalfAdded(v, m), k) <==> x in ListOf(v, k)
  {
    RenewedOthers(ListOf(v, m.srcId), m, x);
  }

  // After an addition all entries of the added link carry its expiry, at both ends.
  lemma AddedExpiry(v: Db, m: Mib, k: string, x: Mib)
    requires Keyed(v) && Unduplicated(v) && x in ListOf(Added(v, m), k) && SameLink(x, m)
    ensures x.expiresAt == m.expiresAt
  {
    var u, m' := HalfAdded(v, m), Reversed(m);
    HalfAddedSound(v, m);
    HalfAddedSound(u, m');
    SameLinkEquivalence(m, x, m');
    RenewedHas(ListOf(v, m.srcId), m);
    RenewedHas(ListOf(u, m'.srcId), m');
    assert x.srcId == k && (k == m.srcId || k == m'.srcId);
    if k != m'.srcId {
      assert x in u[m.srcId];
    }
  }

  // ... and there is one at either end.
  lemma AddedPresent(v: Db, m: Mib, k: string)
    requires Keyed(v) && Unduplicated(v) && (k == m.srcId || k == m.dstId)
    ensures k in Added(v, m) && exists y :: y in Added(v, m)[k] && SameLink(y, m)
  {
    var u, m' := HalfAdded(v, m), Reversed(m);
    HalfAddedSound(v, m);
    RenewedHas(ListOf(v, m.srcId), m);
    RenewedHas(ListOf(u, m'.srcId), m');
    var l := Added(v, m)[k];
    if k == m.dstId {
      assert Has(l, m');
      var i :| 0 <= i < |l| && SameLink(l[i], m');
      assert l[i] in l && SameLink(l[i], m);
    } else {
      var i :| 0 <= i < |l| && SameLink(l[i], m);
      assert l[i] in l;
    }
  }

  lemma AddedSound(v: Db, m: Mib)
    requires Sound(v)
    ensures Sound(Added(v, m))
  {
    HalfAddedSound(v, m);
    HalfAddedSound(HalfAdded(v, m), Reversed(m));
    var w := Added(v, m);
    forall k: string, x: Mib | k in w && x in w[k]
      ensures HasMirror(w, x)
    {
      AddedMirror(v, m, k, x);
    }
  }

  lemma AddedMirror(v: Db, m: Mib, k: string, x: Mib)
    requires Sound(v) && x in ListOf(Added(v, m), k)
    ensures HasMirror(Added(v, m), x)
  {
    HalfAddedSound(v, m);
    HalfAddedSound(HalfAdded(v, m), Reversed(m));
    if SameLink(x, m) {
      AddedExpiry(v, m, k, x);
      AddedPresent(v, m, x.dstId);
      var y :| y in Added(v, m)[x.dstId] && SameLink(y, m);
      AddedExpiry(v, m, x.dstId, y);
      assert SameLink(y, x);
    } else {
      AddedOther(v, m, x);
      assert x in v[k] && HasMirror(v, x);
      var y :| y in v[x.dstId] && SameLink(y, x) && y.expiresAt == x.expiresAt;
      AddedOther(v, m, y);
      assert y in ListOf(Added(v, m), x.dstId);
    }
  }

  lemma AddedOther(v: Db, m: Mib, x: Mib)
    requires Keyed(v) && Unduplicated(v) && !SameLink(x, m)
    ensures forall k :: x in ListOf(Added(v, m), k) <==> x in ListOf(v, k)
  {
    HalfAddedSound(v, m);
    assert !SameLink(x, Reversed(m));
    HalfAddedOthers(v, m, x);
    HalfAddedOthers(HalfAdded(v, m), Reversed(m), x);
  }

  lemma LiveSound(v: Db, now: int)
    requires Sound(v)
    ensures Sound(LiveDb(v, now))
  {
    var w := LiveDb(v, now);
    forall k | k in w
      ensures NoDuplicates(w[k])
    {
      LiveNoDuplicates(v[k], now);
    }
    forall k: string, x: Mib | k in w && x in w[k]
      ensures x.srcId == k && HasMirror(w, x)
    {
      LiveMember(v[k], now, x);
      assert HasMirror(v, x);
      var y :| y in v[x.dstId] && SameLink(y, x) && y.expiresAt == x.expiresAt;
      LiveMember(v[x.dstId], now, y);
    }
  }

  // Nothing expired is left.
  lemma LiveFresh(v: Db, now: int, k: string, x: Mib)
    requires k in LiveDb(v, now) && x in LiveDb(v, now)[k]
    ensures x.expiresAt >= now && x in v[k]
  {
    LiveMember(v[k], now, x);
  }

  // How far a removal of expired entries has got: w is v with the vertices outside `keys` done.
  ghost predicate Cleared(v: Db, w: Db, keys: set<string>, now: int) {
    && keys <= w.Keys <= v.Keys
    && forall k :: k in v ==> ListOf(w, k) == if k in keys then v[k] else Live(v[k], now)
  }

  function WithLive(w: Db, k: string, l: seq<Mib>): Db { if l == [] then w - {k} else w[k := l] }

  ghost predicate NonEmpty(w: Db) { forall k :: k in w ==> w[k] != [] }

  lemma NonEmptyStep(w: Db, k: string, l: seq<Mib>)
    requires NonEmpty(w)
    ensures NonEmpty(WithLive(w, k, l))
  {
  }

  lemma ClearedStep(v: Db, w: Db, keys: set<string>, now: int, k: string)
    requires Cleared(v, w, keys, now) && k in keys
    ensures w[k] == v[k] && Cleared(v, WithLive(w, k, Live(w[k], now)), keys - {k}, now)
  {
    assert ListOf(w, k) == v[k];
  }

  lemma ClearedAll(v: Db, w: Db, now: int)
    requires Cleared(v, w, {}, now) && NonEmpty(w)
    ensures w == LiveDb(v, now)
  {
    assert forall k :: k in w ==> ListOf(w, k) == w[k];
    assert forall k :: k in v && Live(v[k], now) != [] ==> ListOf(w, k) != [];
  }

  // ---------- counting ----------

  ghost function EdgeCount(v: Db): nat
    decreases |v|
  {
    if v == map[] then 0
    else
      var k :| k in v;
      |v[k]| + EdgeCount(v - {k})
  }

  lemma {:induction false} EdgeCountWithout(v: Db, k: string)
    requires k in v
    ensures EdgeCount(v) == |v[k]| + EdgeCount(v - {k})
    decreases |v|
  {
    var j :| j in v && EdgeCount(v) == |v[j]| + EdgeCount(v - {j});
    if j != k {
      EdgeCountWithout(v - {j}, k);
      EdgeCountWithout(v - {k}, j);
      assert v - {j} - {k} == v - {k} - {j};
    }
  }

  lemma EdgeCountUpdate(v: Db, k: string, l: seq<Mib>)
    ensures EdgeCount(v[k := l]) == EdgeCount(v) - |ListOf(v, k)| + |l|
  {
    var w := v[k := l];
    EdgeCountWithout(w, k);
    assert w - {k} == v - {k};
    if k in v {
      EdgeCountWithout(v, k);
    } else {
      assert v - {k} == v;
    }
  }

  lemma {:induction false} SameLinksSameCount(v: Db, w: Db)
    requires LinksOf(v) == LinksOf(w)
    ensures EdgeCount(v) == EdgeCount(w)
    decreases |v|
  {
    assert v.Keys == LinksOf(v).Keys == LinksOf(w).Keys == w.Keys;
    if v != map[] {
      var k :| k in v;
      assert LinksOf(v)[k] == LinksOf(w)[k];
      StrippedAt(v[k]);
      StrippedAt(w[k]);
      EdgeCountWithout(v, k);
      EdgeCountWithout(w, k);
      assert LinksOf(v - {k}) == LinksOf(v) - {k} == LinksOf(w) - {k} == LinksOf(w - {k});
      SameLinksSameCount(v - {k}, w - {k});
    }
  }

  lemma SameLinksSameSize(v: Db, w: Db)
    requires LinksOf(v) == LinksOf(w)
    ensures |v| == |w|
  {
    assert v.Keys == LinksOf(v).Keys == LinksOf(w).Keys == w.Keys;
    assert |v| == |v.Keys| && |w| == |w.Keys|;
  }

  // A host behind a port where a switch is known is not a first hop.
  predicate Shadowed(v: Db, srcPort: int, dst: string, dstPort: int) {
    && srcPort == -1 && dst in v
    && exists i :: 0 <= i < |v[dst]| && v[dst][i].srcPort == dstPort && v[dst][i].dstPort != -1
  }

  // The database after a link is reported that is to be kept until `expiry`.
  function WithEntry(v: Db, src: string, srcPort: int, dst: string, dstPort: int, expiry: int): Db {
    if Shadowed(v, srcPort, dst, dstPort) then v else Added(v, Mib(srcPort, dstPort, src, dst, expiry))
  }

  // A link of s out of `port` leads to another switch.
  ghost predicate SwitchBehind(v: Db, s: string, port: int) {
    exists x :: x in ListOf(v, s) && x.srcPort == port && x.dstPort != -1
  }

  // A host heard behind such a port is not entered; whatever else is reported is.
  lemma ReportTaken(v: Db, src: string, srcPort: int, dst: string, dstPort: int, expiry: int)
    ensures Shadowed(v, srcPort, dst, dstPort) <==> srcPort == -1 && SwitchBehind(v, dst, dstPort)
    ensures srcPort == -1 && SwitchBehind(v, dst, dstPort) ==> WithEntry(v, src, srcPort, dst, dstPort, expiry) == v
    ensures srcPort != -1 || (forall x :: x in ListOf(v, dst) && x.srcPort == dstPort ==> x.dstPort == -1) ==>
              !Shadowed(v, srcPort, dst, dstPort)
  {
    if SwitchBehind(v, dst, dstPort) {
      var x :| x in ListOf(v, dst) && x.srcPort == dstPort && x.dstPort != -1;
      var i :| 0 <= i < |v[dst]| && v[dst][i] == x;
    }
  }

  // What is taken is there at both ends from then on, until it expires.
  lemma ReportEntered(v: Db, src: string, srcPort: int, dst: string, dstPort: int, expiry: int, end: string, now: int)
    requires Sound(v) && !Shadowed(v, srcPort, dst, dstPort) && (end == src || end == dst)
    ensures var m, w := Mib(srcPort, dstPort, src, dst, expiry), WithEntry(v, src, srcPort, dst, dstPort, expiry);
      (exists x :: x in ListOf(LiveDb(w, now), end) && SameLink(x, m)) <==> now <= expiry
  {
    var m := Mib(srcPort, dstPort, src, dst, expiry);
    var w := Added(v, m);
    AddedPresent(v, m, end);
    var y :| y in w[end] && SameLink(y, m);
    AddedExpiry(v, m, end, y);
    LiveMember(w[end], now, y);
    if x :| x in ListOf(LiveDb(w, now), end) && SameLink(x, m) {
      LiveMember(w[end], now, x);
      AddedExpiry(v, m, end, x);
    }
  }

  // A host that has been entered may be reported again: that only renews it.
  lemma ReportRenews(v: Db, src: string, dst: string, dstPort: int, expiry: int, later: int)
    requires Sound(v) && !Shadowed(v, -1, dst, dstPort)
    ensures var w := WithEntry(v, src, -1, dst, dstPort, expiry);
      && Sound(w) && !Shadowed(w, -1, dst, dstPort)
      && LinksOf(WithEntry(w, src, -1, dst, dstPort, later)) == LinksOf(w)
  {
    var m, n := Mib(-1, dstPort, src, dst, expiry), Mib(-1, dstPort, src, dst, later);
    var w := Added(v, m);
    AddedSound(v, m);
    if SwitchBehind(w, dst, dstPort) {
      var x :| x in ListOf(w, dst) && x.srcPort == dstPort && x.dstPort != -1;
      assert x in w[dst] && x.srcId == dst;
      if !SameLink(x, m) {
        AddedOther(v, m, x);
        assert SwitchBehind(v, dst, dstPort);
      }
    }
    ReportTaken(v, src, -1, dst, dstPort, expiry);
    ReportTaken(w, src, -1, dst, dstPort, later);
    AddedPresent(v, m, src);
    AddedPresent(v, m, dst);
    KnownAlready(w, m, n);
  }

  lemma KnownAlready(w: Db, m: Mib, n: Mib)
    requires Sound(w) && SameLink(m, n)
    requires forall k :: k == n.srcId || k == n.dstId ==> k in w && exists y :: y in w[k] && SameLink(y, m)
    ensures LinksOf(Added(w, n)) == LinksOf(w)
  {
    HasLink(w[n.srcId], m, n);
    HasLink(w[n.dstId], m, Reversed(n));
    if n.srcId == n.dstId {
      RenewedHas(w[n.srcId], n);
      var l := Renewed(w[n.srcId], n);
      var i :| 0 <= i < |l| && SameLink(l[i], n);
      assert SameLink(l[i], Reversed(n));
    }
    AddedLinks(w, n);
  }

  lemma HasLink(l: seq<Mib>, m: Mib, n: Mib)
    requires SameLink(m, n) && exists y :: y in l && SameLink(y, m)
    ensures Has(l, n)
  {
    var y :| y in l && SameLink(y, m);
    var i :| 0 <= i < |l| && l[i] == y;
    SameLinkEquivalence(y, m, n);
  }

  // How many links half an addition brings in.
  function News(v: Db, m: Mib): nat {
    if Has(ListOf(v, m.srcId), m) then 0 else 1
  }

  lemma HalfAddedCount(v: Db, m: Mib)
    requires Keyed(v) && Unduplicated(v)
    ensures EdgeCount(HalfAdded(v, m)) == EdgeCount(v) + News(v, m)
    ensures News(v, m) == 0 ==> LinksOf(HalfAdded(v, m)) == LinksOf(v) && m.srcId in v
  {
    EdgeCountUpdate(v, m.srcId, Renewed(ListOf(v, m.srcId), m));
    RenewedLength(ListOf(v, m.srcId), m);
    if News(v, m) == 0 { HalfAddedLinks(v, m); }
  }

  lemma RenewedLength(l: seq<Mib>, m: Mib)
    requires NoDuplicates(l)
    ensures |Renewed(l, m)| == |l| + (if Has(l, m) then 0 else 1)
  {
    RenewedAt(l, m);
  }

  lemma HalfAddedLinks(v: Db, m: Mib)
    requires Unduplicated(v) && Has(ListOf(v, m.srcId), m)
    ensures LinksOf(HalfAdded(v, m)) == LinksOf(v) && m.srcId in v
  {
    RenewedStripped(ListOf(v, m.srcId), m);
  }

  // An addition changes the links exactly if it brings new ones in.
  lemma AddedLinks(v: Db, m: Mib)
    requires Keyed(v) && Unduplicated(v)
    ensures LinksOf(Added(v, m)) == LinksOf(v) <==> News(v, m) + News(HalfAdded(v, m), Reversed(m)) == 0
  {
    var u := HalfAdded(v, m);
    HalfAddedSound(v, m);
    HalfAddedCount(v, m);
    HalfAddedCount(u, Reversed(m));
    if LinksOf(Added(v, m)) == LinksOf(v) {
      SameLinksSameCount(Added(v, m), v);
    }
  }
}

module LLDPMibGraphs {
  import opened LLDPMibs

  class LLDPMibGraph {
    var verticies: Db
    var numOfVerticies: int
    var numOfEdges: int
    var version: int

    // The links the database held at each version it has gone through.
    ghost var history: map<int, Links>

    constructor ()
      ensures Valid() && verticies == map[] && version == 0
    {
      verticies := map[];
      numOfVerticies, numOfEdges, version := 0, 0, 0;
      history := map[0 := map[]];
    }

    ghost predicate Valid()
      reads this
    {
      && Counted() && Sound(verticies)
      && version in history && history[version] == LinksOf(verticies)
      && forall n :: n in history ==> 0 <= n <= version
    }

    ghost predicate Counted()
      reads this`verticies, this`numOfVerticies, this`numOfEdges
    {
      numOfVerticies == |verticies| && numOfEdges == EdgeCount(verticies)
    }

    // One end of a link is entered, or renewed if it is there already.
    method Enter(m: Mib)
      requires Counted() && Keyed(verticies) && Unduplicated(verticies)
      modifies this`verticies, this`numOfVerticies, this`numOfEdges, this`version
      ensures Counted() && verticies == HalfAdded(old(verticies), m)
      ensures version == old(version) + News(old(verticies), m)
    {
      HalfAddedCount(verticies, m);
      if m.srcId !in verticies {
        verticies := verticies[m.srcId := [m]];
        numOfVerticies := numOfVerticies + 1;
        numOfEdges := numOfEdges + 1;
        version := version + 1;
      } else {
        var i := Find(verticies[m.srcId], m);
        if i < |verticies[m.srcId]| {
          verticies := verticies[m.srcId := verticies[m.srcId][i := verticies[m.srcId][i].(expiresAt := m.expiresAt)]];
        } else {
          verticies := verticies[m.srcId := verticies[m.srcId] + [m]];
          numOfEdges := numOfEdges + 1;
          version := version + 1;
        }
      }
    }

    // The first entry for m's link, or the end of the list.
    method Find(l: seq<Mib>, m: Mib) returns (i: nat)
      requires NoDuplicates(l)
      ensures i <= |l| && (i < |l| <==> Has(l, m))
      ensures Renewed(l, m) == if i < |l| then l[i := l[i].(expiresAt := m.expiresAt)] else l + [m]
    {
      i := 0;
      while i < |l| && !SameLink(l[i], m)
        invariant i <= |l| && forall j :: 0 <= j < i ==> !SameLink(l[j], m)
      {
        i := i + 1;
      }
      RenewedAt(l, m);
    }

    method CheckShadowed(srcPort: int, dst: string, dstPort: int) returns (shadowed: bool)
      ensures shadowed == Shadowed(verticies, srcPort, dst, dstPort)
    {
      if srcPort == -1 {
        if dst in verticies {
          var l, i := verticies[dst], 0;
          while i < |l|
            invariant 0 <= i <= |l| && forall j :: 0 <= j < i ==> !(l[j].srcPort == dstPort && l[j].dstPort != -1)
          {
            if l[i].srcPort == dstPort && l[i].dstPort != -1 {
              return true;
            }
            i := i + 1;
          }
        }
      }
      return false;
    }

    method AddEntry(src: string, srcPort: int, dst: string, dstPort: int, timeOut: int, simTime: int)
        returns (added: bool)
      requires Valid()
      modifies this
      ensures Valid() && added == !Shadowed(old(verticies), srcPort, dst, dstPort)
      ensures verticies == WithEntry(old(verticies), src, srcPort, dst, dstPort, simTime + timeOut)
      ensures version >= old(version) && (version == old(version) <==> LinksOf(verticies) == LinksOf(old(verticies)))
      ensures forall n :: n in old(history) ==> n in history && history[n] == old(history)[n]
      ensures added <==> !(srcPort == -1 && SwitchBehind(old(verticies), dst, dstPort))
      ensures !added ==> verticies == old(verticies)
    {
      ReportTaken(verticies, src, srcPort, dst, dstPort, simTime + timeOut);
      var shadowed := CheckShadowed(srcPort, dst, dstPort);
      if shadowed {
        return false;
      }
      EnterBoth(Mib(srcPort, dstPort, src, dst, simTime + timeOut));
      Record(old(verticies), old(version));
      added := true;
    }

    // Notes the links reached by an operation under the version they have.
    ghost method Record(v: Db, oldVersion: int)
      requires Counted() && Sound(verticies) && oldVersion in history && history[oldVersion] == LinksOf(v)
      requires version >= oldVersion && (version == oldVersion ==> LinksOf(verticies) == LinksOf(v))
      requires forall n :: n in history ==> 0 <= n <= oldVersion
      modifies this`history
      ensures Valid() && forall n :: n in old(history) ==> n in history && history[n] == old(history)[n]
    {
      history := history[version := LinksOf(verticies)];
    }

    // The link is entered at its source and, reversed, at its destination.
    method EnterBoth(m: Mib)
      requires Counted() && Sound(verticies)
      modifies this`verticies, this`numOfVerticies, this`numOfEdges, this`version
      ensures Counted() && Sound(verticies) && verticies == Added(old(verticies), m)
      ensures version >= old(version) && (version == old(version) <==> LinksOf(verticies) == LinksOf(old(verticies)))
    {
      AddedLinks(verticies, m);
      AddedSound(verticies, m);
      HalfAddedSound(verticies, m);
      Enter(m);
      Enter(Reversed(m));
    }

    // The expired entries of one vertex are erased one by one.
    method Expire(l: seq<Mib>, simTime: int) returns (r: seq<Mib>)
      modifies this`numOfEdges, this`version
      ensures r == Live(l, simTime)
      ensures numOfEdges == old(numOfEdges) - (|l| - |r|) && version == old(version) + (|l| - |r|)
    {
      r := l;
      var i := 0;
      ghost var n := 0;
      LiveConcat(l, [], simTime);
      while i < |r|
        invariant 0 <= i <= |r| && n <= |l| && r[..i] == Live(l[..n], simTime) && r[i..] == l[n..]
        invariant numOfEdges == old(numOfEdges) - (|l| - |r|) && version == old(version) + (|l| - |r|)
        decreases |r| - i
      {
        assert r[i] == r[i..][0] == l[n];
        assert l[..n + 1] == l[..n] + [l[n]];
        LiveConcat(l[..n], [l[n]], simTime);
        assert Live([l[n]], simTime) == if l[n].expiresAt < simTime then [] else [l[n]];
        if r[i].expiresAt < simTime {
          r := r[..i] + r[i + 1..];
          numOfEdges := numOfEdges - 1;
          version := version + 1;
        } else {
          i := i + 1;
        }
        n := n + 1;
      }
      assert l[..n] == l && r[..i] == r;
    }

    // Erases what has expired, and the vertices left without a link.
    method RemoveExpiredEntries(simTime: int)
      requires Valid()
      modifies this
      ensures Valid() && verticies == LiveDb(old(verticies), simTime)
      ensures version >= old(version) && (version == old(version) <==> LinksOf(verticies) == LinksOf(old(verticies)))
      ensures forall n :: n in old(history) ==> n in history && history[n] == old(history)[n]
    {
      LiveSound(verticies, simTime);
      ExpireAll(simTime);
      Record(old(verticies), old(version));
    }

    method ExpireAll(simTime: int)
      requires Counted() && Keyed(verticies)
      modifies this`verticies, this`numOfVerticies, this`numOfEdges, this`version
      ensures Counted() && verticies == LiveDb(old(verticies), simTime)
      ensures version >= old(version) && (version == old(version) <==> LinksOf(verticies) == LinksOf(old(verticies)))
    {
      ghost var v := verticies;
      var keys := verticies.Keys;
      while keys != {}
        invariant Counted() && Cleared(v, verticies, keys, simTime)
        invariant version - old(version) == EdgeCount(v) - EdgeCount(verticies) + |v| - |verticies|
        invariant version >= old(version) && (version == old(version) ==> verticies == v)
        invariant NonEmpty(verticies)
        decreases keys
      {
        var k :| k in keys;
        ClearedStep(v, verticies, keys, simTime, k);
        NonEmptyStep(verticies, k, Live(verticies[k], simTime));
        ExpireVertex(k, simTime);
        keys := keys - {k};
      }
      ClearedAll(v, verticies, simTime);
      if LinksOf(verticies) == LinksOf(v) {
        SameLinksSameCount(verticies, v);
        SameLinksSameSize(verticies, v);
      }
    }

    method ExpireVertex(k: string, simTime: int)
      requires Counted() && k in verticies && verticies[k] != []
      modifies this`verticies, this`numOfVerticies, this`numOfEdges, this`version
      ensures var l := Live(old(verticies)[k], simTime);
        verticies == WithLive(old(verticies), k, l)
      ensures Counted() && version >= old(version) && (version == old(version) ==> verticies == old(verticies))
      ensures version - old(version) == EdgeCount(old(verticies)) - EdgeCount(verticies)
          + |old(verticies)| - |verticies|
    {
      ghost var v := verticies;
      EdgeCountWithout(v, k);
      LiveLength(v[k], simTime);
      EdgeCountUpdate(v, k, Live(v[k], simTime));
      var l := Expire(verticies[k], simTime);
      verticies := verticies[k := l];
      if l == [] {
        verticies := verticies - {k};
        assert verticies == v - {k} && |v| == |v.Keys| && |verticies| == |v.Keys - {k}|;
        numOfVerticies := numOfVerticies - 1;
        version := version + 1;
      } else if |l| == |v[k]| {
        assert verticies == v;
      }
    }
  }
}
