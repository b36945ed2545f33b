/** Colour refinement by rounds, proved to give the coarsest equitable colouring below a given one, whatever the
    numbering of the vertices. */
module Refinement {
  import opened Orders
  import opened Permutations
  import opened Graphs

  type Colouring = seq<nat>

  datatype Signature = Signature(first: nat, second: seq<Triple>)

  predicate SignatureLess(a: Signature, b: Signature) {
    a.first < b.first || (a.first == b.first && LexLess(TripleLess, a.second, b.second))
  }

  lemma SignatureOrder()
    ensures StrictTotal(SignatureLess)
  {
    forall a: Signature ensures !SignatureLess(a, a) { LexIrreflexive(TripleLess, a.second); }
    forall a, b ensures SignatureLess(a, b) || a == b || SignatureLess(b, a) { LexTotal(TripleLess, a.second, b.second); }
    forall a, b, c | SignatureLess(a, b) && SignatureLess(b, c) ensures SignatureLess(a, c) {
      if a.first == b.first == c.first { LexTransitive(TripleLess, a.second, b.second, c.second); }
    }
  }

  predicate ArcsWithin(arcs: seq<Arc>, n: nat) {
    forall i :: 0 <= i < |arcs| ==> arcs[i].to < n
  }

  /** What a vertex sees along its arcs. */
  function Seen(arcs: seq<Arc>, colour: Colouring): (r: seq<Triple>)
    requires ArcsWithin(arcs, |colour|)
    ensures |r| == |arcs|
    ensures forall i :: 0 <= i < |arcs| ==> r[i] == (arcs[i].rank, arcs[i].dir, colour[arcs[i].to])
  {
    seq(|arcs|, i requires 0 <= i < |arcs| => (arcs[i].rank, arcs[i].dir, colour[arcs[i].to]))
  }

  ghost predicate Colours(g: Graph, colour: Colouring) {
    |colour| == |g.adj| && forall v :: 0 <= v < |g.adj| ==> ArcsWithin(g.adj[v], |g.adj|)
  }

  /** The old colour leads, then the sorted view along the arcs. */
  ghost function SignatureOf(g: Graph, colour: Colouring, v: nat): Signature
    requires Colours(g, colour) && v < |colour|
  {
    Signature(colour[v], Sort(TripleLess, Seen(g.adj[v], colour)))
  }

  ghost function Signatures(g: Graph, colour: Colouring): (sigs: seq<Signature>)
    requires Colours(g, colour)
    ensures |sigs| == |colour|
    ensures forall v :: 0 <= v < |colour| ==> sigs[v] == SignatureOf(g, colour, v)
  {
    seq(|colour|, v requires 0 <= v < |colour| => SignatureOf(g, colour, v))
  }

  /** The number of distinct colours. */
  function Cells(colour: Colouring): nat { |Elements(colour)| }

  /** The ranks of values among their distinct values. */
  function RankAll<T(==)>(less: (T, T) -> bool, values: seq<T>): (ranks: seq<nat>)
    ensures |ranks| == |values|
    ensures forall i :: 0 <= i < |values| ==> ranks[i] == Rank(less, Elements(values), values[i])
  {
    seq(|values|, i requires 0 <= i < |values| => Rank(less, Elements(values), values[i]))
  }

  ghost function Round(g: Graph, colour: Colouring): (next: Colouring)
    requires Colours(g, colour)
    ensures |next| == |colour|
  {
    RankAll(SignatureLess, Signatures(g, colour))
  }

  // ----- ranks of a sequence of values

  /** Ranks keep order and equality of the values. */
  lemma RankAllOrder<T(!new)>(less: (T, T) -> bool, values: seq<T>, i: nat, j: nat)
    requires StrictTotal(less) && i < |values| && j < |values|
    ensures RankAll(less, values)[i] == RankAll(less, values)[j] <==> values[i] == values[j]
    ensures RankAll(less, values)[i] < RankAll(less, values)[j] <==> less(values[i], values[j])
  {
    RankOrder(less, Elements(values), values[i], values[j]);
  }

  /** Ranks are exactly 0..k-1 for k distinct values. */
  lemma RankAllDense<T(!new)>(less: (T, T) -> bool, values: seq<T>)
    requires StrictTotal(less)
    ensures Elements(RankAll(less, values)) == Below(|Elements(values)|)
    ensures Cells(RankAll(less, values)) == |Elements(values)|
  {
    var ranks := RankAll(less, values);
    forall k: nat | k in Elements(ranks) ensures k in Below(|Elements(values)|) {
      var i :| 0 <= i < |ranks| && ranks[i] == k;
      RankBounded(less, Elements(values), values[i]);
    }
    forall k: nat | k in Below(|Elements(values)|) ensures k in Elements(ranks) {
      var v := RankDense(less, Elements(values), k);
      var i :| 0 <= i < |values| && values[i] == v;
      assert ranks[i] == k;
    }
  }

  // ----- the order of the refined cells

  /** By label, then by direction, then by the colour at the other end. */
  ghost predicate TripleBefore(a: Triple, b: Triple) {
    if a.0 != b.0 then a.0 < b.0 else if a.1 != b.1 then a.1 < b.1 else a.2 < b.2
  }

  /** Where the sorted views differ first, the smaller one comes first. */
  ghost predicate SeesLess(a: seq<Triple>, b: seq<Triple>) {
    a < b || exists k: nat :: k < |a| && k < |b| && a[..k] == b[..k] && TripleBefore(a[k], b[k])
  }

  lemma SeesLessIff(a: seq<Triple>, b: seq<Triple>)
    ensures LexLess(TripleLess, a, b) <==> SeesLess(a, b)
  {
    TripleOrder();
    LexLessIff(TripleLess, a, b);
    assert forall x, y :: TripleLess(x, y) <==> TripleBefore(x, y);
  }

  /** A round orders vertices by their colours so far, and those of one colour by what they see. */
  lemma RoundOrder(g: Graph, colour: Colouring, u: nat, v: nat)
    requires Colours(g, colour) && u < |colour| && v < |colour|
    ensures Round(g, colour)[u] < Round(g, colour)[v] <==>
              || colour[u] < colour[v]
              || (colour[u] == colour[v]
                  && SeesLess(Sort(TripleLess, Seen(g.adj[u], colour)), Sort(TripleLess, Seen(g.adj[v], colour))))
  {
    SignatureOrder();
    RankAllOrder(SignatureLess, Signatures(g, colour), u, v);
    SeesLessIff(SignatureOf(g, colour, u).second, SignatureOf(g, colour, v).second);
  }

  // ----- finer and coarser

  /** a splits at least the cells b splits. */
  ghost predicate Finer(a: Colouring, b: Colouring) {
    |a| == |b| && forall u, v :: 0 <= u < |a| && 0 <= v < |a| && a[u] == a[v] ==> b[u] == b[v]
  }

  /** a keeps the order of b's cells. */
  ghost predicate KeepsOrder(a: Colouring, b: Colouring) {
    |a| == |b| && forall u, v :: 0 <= u < |a| && 0 <= v < |a| && b[u] < b[v] ==> a[u] < a[v]
  }

  lemma KeepsOrderFiner(a: Colouring, b: Colouring)
    requires KeepsOrder(a, b)
    ensures Finer(a, b)
  {
  }

  /** Dense ranks: the colours are exactly 0..k-1. */
  ghost predicate Dense(colour: Colouring) {
    Elements(colour) == Below(Cells(colour))
  }

  lemma RoundKeepsOrder(g: Graph, colour: Colouring)
    requires Colours(g, colour)
    ensures KeepsOrder(Round(g, colour), colour) && Dense(Round(g, colour))
    ensures forall u, v :: 0 <= u < |colour| && 0 <= v < |colour| ==>
              (Round(g, colour)[u] == Round(g, colour)[v] <==> SignatureOf(g, colour, u) == SignatureOf(g, colour, v))
  {
    SignatureOrder();
    var sigs := Signatures(g, colour);
    RankAllDense(SignatureLess, sigs);
    forall u, v | 0 <= u < |colour| && 0 <= v < |colour|
      ensures Round(g, colour)[u] == Round(g, colour)[v] <==> sigs[u] == sigs[v]
      ensures Round(g, colour)[u] < Round(g, colour)[v] <==> SignatureLess(sigs[u], sigs[v])
    {
      RankAllOrder(SignatureLess, sigs, u, v);
    }
  }

  /** A vertex of each colour. */
  ghost function Sample(colour: Colouring, c: nat): (v: nat)
    requires c in colour
    ensures v < |colour| && colour[v] == c
  {
    var v: nat :| v < |colour| && colour[v] == c;
    v
  }

  /** A finer colouring has at least as many cells, and as many only when the partitions agree. */
  lemma FinerCells(a: Colouring, b: Colouring)
    requires Finer(a, b)
    ensures Cells(b) <= Cells(a)
    ensures Cells(b) == Cells(a) ==> Finer(b, a)
  {
    var f := (c: nat) => if c in b then a[Sample(b, c)] else 0;
    forall c, d | c in Elements(b) && d in Elements(b) && f(c) == f(d) ensures c == d {
      assert a[Sample(b, c)] == a[Sample(b, d)];
    }
    ImageSize(Elements(b), f);
    var image := ImageSet(Elements(b), f);
    SubsetSize(image, Elements(a));
    if Cells(b) == Cells(a) {
      forall u, v | 0 <= u < |b| && 0 <= v < |b| && b[u] == b[v] ensures a[u] == a[v] {
        assert a[u] in image && a[v] in image;
        var c :| c in Elements(b) && f(c) == a[u];
        var d :| d in Elements(b) && f(d) == a[v];
        assert b[u] == c && b[v] == d;
      }
    }
  }

  lemma CellsBounded(colour: Colouring)
    ensures Cells(colour) <= |colour|
  {
    ElementsSize(colour);
  }

  lemma {:induction false} ElementsSize<T>(s: seq<T>)
    ensures |Elements(s)| <= |s|
  {
    if s != [] {
      var s', x := s[..|s| - 1], s[|s| - 1];
      ElementsSize(s');
      assert s == s' + [x];
      assert Elements(s) == Elements(s') + {x};
    }
  }

  lemma RoundGrows(g: Graph, colour: Colouring)
    requires Colours(g, colour)
    ensures Cells(colour) <= Cells(Round(g, colour)) <= |colour|
  {
    RoundKeepsOrder(g, colour);
    KeepsOrderFiner(Round(g, colour), colour);
    FinerCells(Round(g, colour), colour);
    CellsBounded(Round(g, colour));
  }

  /** Rounds until the number of cells stops growing. */
  ghost function Refined(g: Graph, colour: Colouring): (r: Colouring)
    requires Colours(g, colour)
    ensures |r| == |colour|
    decreases |colour| - Cells(colour)
  {
    var next := Round(g, colour);
    RoundGrows(g, colour);
    if Cells(next) == Cells(colour) then next else Refined(g, next)
  }

  lemma {:induction false} RefinedKeepsOrder(g: Graph, colour: Colouring)
    requires Colours(g, colour)
    ensures KeepsOrder(Refined(g, colour), colour) && Dense(Refined(g, colour))
    decreases |colour| - Cells(colour)
  {
    RoundGrows(g, colour);
    RoundKeepsOrder(g, colour);
    if Cells(Round(g, colour)) != Cells(colour) {
      RefinedKeepsOrder(g, Round(g, colour));
    }
  }

  // ----- stability

  /** Vertices of one colour see the same colours equally often along each kind of arc. */
  ghost predicate Equitable(g: Graph, colour: Colouring)
    requires Colours(g, colour)
  {
    forall u, v :: 0 <= u < |colour| && 0 <= v < |colour| && colour[u] == colour[v] ==>
      multiset(Seen(g.adj[u], colour)) == multiset(Seen(g.adj[v], colour))
  }

  function MapSeq<T, U>(f: T -> U, s: seq<T>): (r: seq<U>)
    ensures |r| == |s| && forall i :: 0 <= i < |s| ==> r[i] == f(s[i])
  {
    seq(|s|, i requires 0 <= i < |s| => f(s[i]))
  }

  lemma MapWithout<T, U>(f: T -> U, b: seq<T>, j: nat)
    requires j < |b|
    ensures multiset(MapSeq(f, b)) == multiset(MapSeq(f, b[..j] + b[j + 1..])) + multiset{f(b[j])}
  {
    CountWithout(MapSeq(f, b), j);
    assert MapSeq(f, b)[..j] + MapSeq(f, b)[j + 1..] == MapSeq(f, b[..j] + b[j + 1..]);
  }

  lemma {:induction false} MapKeepsMultiset<T, U>(f: T -> U, a: seq<T>, b: seq<T>)
    requires multiset(a) == multiset(b)
    ensures multiset(MapSeq(f, a)) == multiset(MapSeq(f, b))
  {
    if a == [] {
      assert |multiset(b)| == 0;
    } else {
      assert a[0] in multiset(b);
      var j :| 0 <= j < |b| && b[j] == a[0];
      CountWithout(a, 0);
      CountWithout(b, j);
      MapWithout(f, a, 0);
      MapWithout(f, b, j);
      assert a[..0] + a[0 + 1..] == a[1..];
      var rest := b[..j] + b[j + 1..];
      assert multiset(a[1..]) == multiset(a) - multiset{a[0]} == multiset(rest);
      MapKeepsMultiset(f, a[1..], rest);
    }
  }

  /** The colour of b read through the colour of a finer colouring a. */
  ghost function Recolour(a: Colouring, b: Colouring, t: Triple): Triple
    requires |a| == |b|
  {
    (t.0, t.1, if t.2 >= 0 && t.2 in a then b[Sample(a, t.2)] else 0)
  }

  /** What is equal when seen through a finer colouring is equal when seen through a coarser one. */
  lemma SeenThroughCoarser(a: Colouring, b: Colouring, x: seq<Arc>, y: seq<Arc>)
    requires Finer(a, b) && ArcsWithin(x, |a|) && ArcsWithin(y, |a|)
    requires multiset(Seen(x, a)) == multiset(Seen(y, a))
    ensures multiset(Seen(x, b)) == multiset(Seen(y, b))
  {
    var f := t => Recolour(a, b, t);
    MapKeepsMultiset(f, Seen(x, a), Seen(y, a));
    SeenRecoloured(a, b, x, f);
    SeenRecoloured(a, b, y, f);
  }

  lemma SeenRecoloured(a: Colouring, b: Colouring, x: seq<Arc>, f: Triple -> Triple)
    requires Finer(a, b) && ArcsWithin(x, |a|)
    requires forall t :: f(t) == Recolour(a, b, t)
    ensures MapSeq(f, Seen(x, a)) == Seen(x, b)
  {
    forall i | 0 <= i < |x| ensures MapSeq(f, Seen(x, a))[i] == Seen(x, b)[i] {
      assert a[x[i].to] in a;
      assert a[Sample(a, a[x[i].to])] == a[x[i].to];
    }
  }

  lemma SameSignature(g: Graph, colour: Colouring, u: nat, v: nat)
    requires Colours(g, colour) && u < |colour| && v < |colour|
    ensures SignatureOf(g, colour, u) == SignatureOf(g, colour, v)
       <==> colour[u] == colour[v] && multiset(Seen(g.adj[u], colour)) == multiset(Seen(g.adj[v], colour))
  {
    SortForgetsOrder(TripleLess, Seen(g.adj[u], colour), Seen(g.adj[v], colour));
  }

  /** The refined colouring is stable. */
  lemma {:induction false} RefinedEquitable(g: Graph, colour: Colouring)
    requires Colours(g, colour)
    ensures Equitable(g, Refined(g, colour))
    decreases |colour| - Cells(colour)
  {
    var next := Round(g, colour);
    RoundGrows(g, colour);
    if Cells(next) != Cells(colour) {
      RefinedEquitable(g, next);
    } else {
      RoundKeepsOrder(g, colour);
      KeepsOrderFiner(next, colour);
      FinerCells(next, colour);
      forall u, v | 0 <= u < |next| && 0 <= v < |next| && next[u] == next[v]
        ensures multiset(Seen(g.adj[u], next)) == multiset(Seen(g.adj[v], next))
      {
        SameSignature(g, colour, u, v);
        SeenThroughCoarser(colour, next, g.adj[u], g.adj[v]);
      }
    }
  }

  /** And it is the coarsest: every stable colouring finer than the input is finer than it. */
  lemma {:induction false} RefinedCoarsest(g: Graph, colour: Colouring, d: Colouring)
    requires Colours(g, colour) && Colours(g, d) && Equitable(g, d) && Finer(d, colour)
    ensures Finer(d, Refined(g, colour))
    decreases |colour| - Cells(colour)
  {
    var next := Round(g, colour);
    RoundGrows(g, colour);
    RoundKeepsOrder(g, colour);
    forall u, v | 0 <= u < |d| && 0 <= v < |d| && d[u] == d[v] ensures next[u] == next[v] {
      SeenThroughCoarser(d, colour, g.adj[u], g.adj[v]);
      SameSignature(g, colour, u, v);
    }
    if Cells(next) != Cells(colour) {
      RefinedCoarsest(g, next, d);
    }
  }

  // ----- refinement commutes with isomorphism

  /** c2 is c1 carried along p. */
  ghost predicate Carried(p: Perm, c1: Colouring, c2: Colouring) {
    |c1| == |c2| == |p| && forall v :: 0 <= v < |p| ==> p[v] < |p| && c2[p[v]] == c1[v]
  }

  lemma ValidColours(g: Graph, colour: Colouring)
    requires ValidGraph(g) && |colour| == |g.adj|
    ensures Colours(g, colour)
  {
    forall v: nat | v < |g.adj| ensures ArcsWithin(g.adj[v], |g.adj|) {
      ArcsInRange(|g.vlabel|, DirectedLabels(g.elabel), g.edges, v);
    }
  }

  lemma SeenCarried(p: Perm, c1: Colouring, c2: Colouring, arcs1: seq<Arc>, arcs2: seq<Arc>)
    requires Carried(p, c1, c2) && ArcsWithin(arcs1, |p|) && ArcsWithin(arcs2, |p|)
    requires multiset(MovedArcs(arcs1, p)) == multiset(arcs2)
    ensures multiset(Seen(arcs1, c1)) == multiset(Seen(arcs2, c2))
  {
    var f := (a: Arc) => (a.rank, a.dir, if a.to < |c2| then c2[a.to] else 0);
    MapKeepsMultiset(f, MovedArcs(arcs1, p), arcs2);
    assert MapSeq(f, MovedArcs(arcs1, p)) == Seen(arcs1, c1);
    assert MapSeq(f, arcs2) == Seen(arcs2, c2);
  }

  /** An isomorphism carries the arcs at each vertex. */
  lemma IsoArcs(g1: Graph, g2: Graph, p: Perm, v: nat)
    requires GraphIso(g1, g2, p) && v < |p|
    ensures ArcsWithin(g1.adj[v], |p|) && multiset(MovedArcs(g1.adj[v], p)) == multiset(g2.adj[p[v]])
  {
    CarriedArcs(|p|, DirectedLabels(g1.elabel), g1.edges, g2.edges, p, v);
    assert g1.adj[v] == ArcsAt(g1.edges, v) && g2.adj[p[v]] == ArcsAt(g2.edges, p[v]);
  }

  lemma CarriedArcs(n: nat, directed: set<int>, e1: seq<StoredEdge>, e2: seq<StoredEdge>, p: Perm, v: nat)
    requires EdgesIn(n, directed, e1) && EdgesIn(n, directed, e2) && IsPerm(n, p)
    requires EdgesCarried(n, directed, e1, e2, p) && v < n
    ensures ArcsWithin(ArcsAt(e1, v), n) && multiset(MovedArcs(ArcsAt(e1, v), p)) == multiset(ArcsAt(e2, p[v]))
  {
    CarriedIffArcs(n, directed, e1, e2, p);
    assert ArcsCarried(e1, e2, p, v);
  }

  lemma SignatureCarried(g1: Graph, g2: Graph, p: Perm, c1: Colouring, c2: Colouring, v: nat)
    requires GraphIso(g1, g2, p) && Carried(p, c1, c2) && v < |p| && Colours(g1, c1) && Colours(g2, c2)
    ensures SignatureOf(g1, c1, v) == SignatureOf(g2, c2, p[v])
  {
    IsoArcs(g1, g2, p, v);
    SameView(p, c1, c2, g1.adj[v], g2.adj[p[v]]);
  }

  lemma SameView(p: Perm, c1: Colouring, c2: Colouring, arcs1: seq<Arc>, arcs2: seq<Arc>)
    requires Carried(p, c1, c2) && ArcsWithin(arcs1, |p|) && ArcsWithin(arcs2, |p|)
    requires multiset(MovedArcs(arcs1, p)) == multiset(arcs2)
    ensures Sort(TripleLess, Seen(arcs1, c1)) == Sort(TripleLess, Seen(arcs2, c2))
  {
    SeenCarried(p, c1, c2, arcs1, arcs2);
    SortForgetsOrder(TripleLess, Seen(arcs1, c1), Seen(arcs2, c2));
  }

  /** Carried values have carried ranks. */
  lemma RanksCarried<T>(less: (T, T) -> bool, n: nat, p: Perm, a: seq<T>, b: seq<T>)
    requires IsPerm(n, p) && |a| == |b| == n && forall v :: 0 <= v < n ==> b[p[v]] == a[v]
    ensures Carried(p, RankAll(less, a), RankAll(less, b))
  {
    assert Elements(a) == Elements(b) by {
      forall x | x in a ensures x in b {
        var v :| 0 <= v < n && a[v] == x;
        assert b[p[v]] == x;
      }
      forall x | x in b ensures x in a {
        var w :| 0 <= w < n && b[w] == x;
        assert b[p[Preimage(n, p, w)]] == x;
      }
    }
  }

  lemma RoundCarried(g1: Graph, g2: Graph, p: Perm, c1: Colouring, c2: Colouring)
    requires GraphIso(g1, g2, p) && Carried(p, c1, c2) && Colours(g1, c1) && Colours(g2, c2)
    ensures Carried(p, Round(g1, c1), Round(g2, c2))
  {
    forall v | 0 <= v < |p| ensures Signatures(g2, c2)[p[v]] == Signatures(g1, c1)[v] {
      SignatureCarried(g1, g2, p, c1, c2, v);
    }
    RanksCarried(SignatureLess, |p|, p, Signatures(g1, c1), Signatures(g2, c2));
  }

  lemma CellsCarried(n: nat, p: Perm, c1: Colouring, c2: Colouring)
    requires IsPerm(n, p) && Carried(p, c1, c2)
    ensures Elements(c1) == Elements(c2) && Cells(c1) == Cells(c2)
  {
    forall x | x in c1 ensures x in c2 {
      var v :| 0 <= v < n && c1[v] == x;
      assert c2[p[v]] == x;
    }
    forall x | x in c2 ensures x in c1 {
      var w :| 0 <= w < n && c2[w] == x;
      assert c2[p[Preimage(n, p, w)]] == x;
    }
  }

  /** Refining a carried colouring of an isomorphic graph gives the carried refinement. */
  lemma {:induction false} RefinedCarried(g1: Graph, g2: Graph, p: Perm, c1: Colouring, c2: Colouring)
    requires GraphIso(g1, g2, p) && Carried(p, c1, c2) && Colours(g1, c1) && Colours(g2, c2)
    ensures Carried(p, Refined(g1, c1), Refined(g2, c2))
    decreases |c1| - Cells(c1)
  {
    RoundGrows(g1, c1);
    RoundGrows(g2, c2);
    RoundCarried(g1, g2, p, c1, c2);
    CellsCarried(|p|, p, c1, c2);
    CellsCarried(|p|, p, Round(g1, c1), Round(g2, c2));
    if Cells(Round(g1, c1)) != Cells(c1) {
      RefinedCarried(g1, g2, p, Round(g1, c1), Round(g2, c2));
    }
  }

  // ----- the loops of the source

  /** One round: all signatures from the current colours, then their ranks. */
  method RoundLoop(g: Graph, colour: Colouring) returns (next: Colouring)
    requires Colours(g, colour)
    ensures next == Round(g, colour)
  {
    var sig: seq<Signature> := [];
    for v := 0 to |colour|
      invariant |sig| == v
      invariant forall u :: 0 <= u < v ==> sig[u] == SignatureOf(g, colour, u)
    {
      var second: seq<Triple> := [];
      for i := 0 to |g.adj[v]|
        invariant |second| == i
        invariant forall j :: 0 <= j < i ==> second[j] == Seen(g.adj[v], colour)[j]
      {
        var a := g.adj[v][i];
        second := second + [(a.rank, a.dir, colour[a.to])];
      }
      assert second == Seen(g.adj[v], colour);
      sig := sig + [Signature(colour[v], Sort(TripleLess, second))];
    }
    assert sig == Signatures(g, colour);
    next := RankAll(SignatureLess, sig);
  }

  method Refine(g: Graph, colour0: Colouring) returns (colour: Colouring)
    requires Colours(g, colour0)
    ensures colour == Refined(g, colour0)
  {
    colour := colour0;
    var cells := Cells(colour);
    while true
      invariant Colours(g, colour) && cells == Cells(colour)
      invariant Refined(g, colour) == Refined(g, colour0)
      decreases |colour| - cells
    {
      RoundGrows(g, colour);
      colour := RoundLoop(g, colour);
      var now := Cells(colour);
      if now == cells {
        return;
      }
      cells := now;
    }
  }
}
