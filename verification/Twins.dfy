/** The local twin test: comparing the sorted arcs of two vertices decides whether exchanging them
    preserves the whole edge multiset. */
module Twins {
  import opened Orders
  import opened Permutations
  import opened Graphs

  const SELF := -1

  /** The transposition of u and v. */
  function Swap(n: nat, u: nat, v: nat): (p: Perm)
    requires u < n && v < n
    ensures IsPerm(n, p)
  {
    Id(n)[u := v][v := u]
  }

  /** The arcs of x that do not lead to other, a self-loop marked as such. */
  function RestOf(arcs: seq<Arc>, x: nat, other: nat): seq<Triple> {
    if arcs == [] then []
    else
      var a := arcs[|arcs| - 1];
      RestOf(arcs[..|arcs| - 1], x, other)
      + if a.to == other then [] else [(a.rank, a.dir, if a.to == x then SELF else a.to)]
  }

  /** The arcs of x that lead to other. */
  function MutualOf(arcs: seq<Arc>, other: nat): seq<Pair> {
    if arcs == [] then []
    else
      var a := arcs[|arcs| - 1];
      MutualOf(arcs[..|arcs| - 1], other) + if a.to == other then [(a.rank, a.dir)] else []
  }

  lemma {:induction false} RestCount(arcs: seq<Arc>, x: nat, other: nat, t: Triple)
    requires x != other
    ensures multiset(RestOf(arcs, x, other))[t]
         == if t.2 == SELF then multiset(arcs)[Arc(t.0, t.1, x)]
            else if t.2 < 0 || t.2 == x || t.2 == other then 0
            else multiset(arcs)[Arc(t.0, t.1, t.2)]
  {
    if arcs != [] {
      var arcs', a := arcs[..|arcs| - 1], arcs[|arcs| - 1];
      RestCount(arcs', x, other, t);
      assert arcs == arcs' + [a];
      CountConcat(arcs', [a], Arc(t.0, t.1, if t.2 < 0 then x else t.2));
    }
  }

  lemma {:induction false} MutualCount(arcs: seq<Arc>, other: nat, t: Pair)
    ensures multiset(MutualOf(arcs, other))[t] == multiset(arcs)[Arc(t.0, t.1, other)]
  {
    if arcs != [] {
      var arcs', a := arcs[..|arcs| - 1], arcs[|arcs| - 1];
      MutualCount(arcs', other, t);
      assert arcs == arcs' + [a];
    }
  }

  method Profile(arcs: seq<Arc>, x: nat, other: nat) returns (rest: seq<Triple>, mutual: seq<Pair>)
    ensures rest == Sort(TripleLess, RestOf(arcs, x, other))
    ensures mutual == Sort(PairLess, MutualOf(arcs, other))
  {
    rest, mutual := [], [];
    for i := 0 to |arcs|
      invariant rest == RestOf(arcs[..i], x, other)
      invariant mutual == MutualOf(arcs[..i], other)
    {
      var a := arcs[i];
      assert arcs[..i + 1][..i] == arcs[..i] && arcs[..i + 1][i] == a;
      if a.to == other {
        mutual := mutual + [(a.rank, a.dir)];
      } else {
        rest := rest + [(a.rank, a.dir, if a.to == x then SELF else a.to)];
      }
    }
    assert arcs[..|arcs|] == arcs;
    rest := Sort(TripleLess, rest);
    mutual := Sort(PairLess, mutual);
  }

  // ----- what equal profiles say, arc by arc

  ghost predicate SameSeen(au: seq<Arc>, av: seq<Arc>, u: nat, v: nat) {
    && (forall l: int, d: int :: multiset(au)[Arc(l, d, v)] == multiset(av)[Arc(l, d, u)])
    && (forall l: int, d: int :: multiset(au)[Arc(l, d, u)] == multiset(av)[Arc(l, d, v)])
    && (forall l: int, d: int, w: nat {:trigger multiset(au)[Arc(l, d, w)]} {:trigger multiset(av)[Arc(l, d, w)]} ::
          w != u && w != v ==> multiset(au)[Arc(l, d, w)] == multiset(av)[Arc(l, d, w)])
  }

  lemma MutualIffCounts(au: seq<Arc>, av: seq<Arc>, u: nat, v: nat)
    ensures multiset(MutualOf(au, v)) == multiset(MutualOf(av, u))
       <==> forall l: int, d: int :: multiset(au)[Arc(l, d, v)] == multiset(av)[Arc(l, d, u)]
  {
    var mu, mv := MutualOf(au, v), MutualOf(av, u);
    forall t: Pair
      ensures multiset(mu)[t] == multiset(au)[Arc(t.0, t.1, v)]
      ensures multiset(mv)[t] == multiset(av)[Arc(t.0, t.1, u)]
    {
      MutualCount(au, v, t);
      MutualCount(av, u, t);
    }
    if multiset(mu) == multiset(mv) {
      forall l: int, d: int ensures multiset(au)[Arc(l, d, v)] == multiset(av)[Arc(l, d, u)] {
        assert multiset(mu)[(l, d)] == multiset(mv)[(l, d)];
      }
    }
  }

  lemma RestIffCounts(au: seq<Arc>, av: seq<Arc>, u: nat, v: nat)
    requires u != v
    requires forall l: int, d: int :: multiset(au)[Arc(l, d, v)] == multiset(av)[Arc(l, d, u)]
    ensures multiset(RestOf(au, u, v)) == multiset(RestOf(av, v, u)) <==> SameSeen(au, av, u, v)
  {
    var ru, rv := RestOf(au, u, v), RestOf(av, v, u);
    if multiset(ru) == multiset(rv) {
      forall l: int, d: int ensures multiset(au)[Arc(l, d, u)] == multiset(av)[Arc(l, d, v)] {
        RestCount(au, u, v, (l, d, SELF));
        RestCount(av, v, u, (l, d, SELF));
      }
      forall l: int, d: int, w: nat | w != u
        && w != v ensures multiset(au)[Arc(l, d, w)] == multiset(av)[Arc(l, d, w)] {
        RestCount(au, u, v, (l, d, w));
        RestCount(av, v, u, (l, d, w));
      }
    }
    if SameSeen(au, av, u, v) {
      forall t: Triple ensures multiset(ru)[t] == multiset(rv)[t] {
        RestCount(au, u, v, t);
        RestCount(av, v, u, t);
      }
    }
  }

  /** Comparing the sorted lists of arcs decides whether both vertices are seen alike. */
  lemma ProfilesIffSeen(au: seq<Arc>, av: seq<Arc>, u: nat, v: nat)
    requires u != v
    ensures Sort(TripleLess, RestOf(au, u, v)) == Sort(TripleLess, RestOf(av, v, u))
         && Sort(PairLess, MutualOf(au, v)) == Sort(PairLess, MutualOf(av, u))
       <==> SameSeen(au, av, u, v)
  {
    SortForgetsOrder(TripleLess, RestOf(au, u, v), RestOf(av, v, u));
    SortForgetsOrder(PairLess, MutualOf(au, v), MutualOf(av, u));
    MutualIffCounts(au, av, u, v);
    if multiset(MutualOf(au, v)) == multiset(MutualOf(av, u)) {
      RestIffCounts(au, av, u, v);
    }
  }

  // ----- and what they mean for the whole graph

  lemma {:induction false} MovedCount(arcs: seq<Arc>, n: nat, p: Perm, a: Arc)
    requires IsPerm(n, p) && a.to < n
    requires forall i :: 0 <= i < |arcs| ==> arcs[i].to < n
    ensures multiset(MovedArcs(arcs, p))[a.(to := p[a.to])] == multiset(arcs)[a]
  {
    if arcs != [] {
      var arcs', b := arcs[..|arcs| - 1], arcs[|arcs| - 1];
      MovedCount(arcs', n, p, a);
      assert arcs == arcs' + [b];
      CountConcat(arcs', [b], a);
      var a', b' := a.(to := p[a.to]), b.(to := p[b.to]);
      assert MovedArcs(arcs, p) == MovedArcs(arcs', p) + [b'];
      CountConcat(MovedArcs(arcs', p), [b'], a');
      assert a == b <==> a' == b' by {
        if a' == b' { assert p[a.to] == p[b.to]; }
      }
    }
  }

  /** Carrying the arcs at x by p, arc by arc. */
  ghost predicate CountsCarried(n: nat, edges: seq<StoredEdge>, p: Perm, x: nat)
    requires IsPerm(n, p) && x < n
  {
    forall l: int, d: int, y: nat :: y < n ==>
      multiset(ArcsAt(edges, x))[Arc(l, d, y)] == multiset(ArcsAt(edges, p[x]))[Arc(l, d, p[y])]
  }

  lemma CarriedIffCounts(n: nat, directed: set<int>, edges: seq<StoredEdge>, p: Perm, x: nat)
    requires EdgesIn(n, directed, edges) && IsPerm(n, p) && x < n
    ensures forall i :: 0 <= i < |ArcsAt(edges, x)| ==> ArcsAt(edges, x)[i].to < n
    ensures ArcsCarried(edges, edges, p, x) <==> CountsCarried(n, edges, p, x)
  {
    ArcsInRange(n, directed, edges, x);
    ArcsInRange(n, directed, edges, p[x]);
    var moved, there := MovedArcs(ArcsAt(edges, x), p), ArcsAt(edges, p[x]);
    forall l: int, d: int, y: nat | y < n
      ensures multiset(moved)[Arc(l, d, p[y])] == multiset(ArcsAt(edges, x))[Arc(l, d, y)]
    {
      MovedCount(ArcsAt(edges, x), n, p, Arc(l, d, y));
    }
    if CountsCarried(n, edges, p, x) {
      forall a: Arc ensures multiset(moved)[a] == multiset(there)[a] {
        if a.to < n {
          var y := Preimage(n, p, a.to);
          assert multiset(ArcsAt(edges, x))[Arc(a.rank, a.dir, y)] == multiset(there)[Arc(a.rank, a.dir, p[y])];
        } else {
          assert a !in multiset(moved) && a !in multiset(there);
        }
      }
    }
  }

  lemma SwapSeen(n: nat, directed: set<int>, edges: seq<StoredEdge>, u: nat, v: nat, x: nat)
    requires EdgesIn(n, directed, edges) && u < n && v < n && u != v && x < n
    requires SameSeen(ArcsAt(edges, u), ArcsAt(edges, v), u, v)
    ensures CountsCarried(n, edges, Swap(n, u, v), x)
  {
    var p := Swap(n, u, v);
    forall l: int, d: int, y: nat | y < n
      ensures multiset(ArcsAt(edges, x))[Arc(l, d, y)] == multiset(ArcsAt(edges, p[x]))[Arc(l, d, p[y])]
    {
      if x != u && x != v {
        ArcsMirror(n, directed, edges, x, u, l, d);
        ArcsMirror(n, directed, edges, x, v, l, d);
      }
    }
  }

  lemma CarriedSeen(n: nat, edges: seq<StoredEdge>, u: nat, v: nat)
    requires u < n && v < n && u != v
    requires forall x: nat :: x < n ==> CountsCarried(n, edges, Swap(n, u, v), x)
    requires forall i :: 0 <= i < |ArcsAt(edges, u)| ==> ArcsAt(edges, u)[i].to < n
    requires forall i :: 0 <= i < |ArcsAt(edges, v)| ==> ArcsAt(edges, v)[i].to < n
    ensures SameSeen(ArcsAt(edges, u), ArcsAt(edges, v), u, v)
  {
    var p := Swap(n, u, v);
    assert CountsCarried(n, edges, p, u);
    assert p[u] == v && p[v] == u;
    forall l: int, d: int, w: nat | w != u && w != v
      ensures multiset(ArcsAt(edges, u))[Arc(l, d, w)] == multiset(ArcsAt(edges, v))[Arc(l, d, w)]
    {
      if w < n {
        assert p[w] == w;
      } else {
        assert Arc(l, d, w) !in multiset(ArcsAt(edges, u)) && Arc(l, d, w) !in multiset(ArcsAt(edges, v));
      }
    }
    forall l: int, d: int ensures multiset(ArcsAt(edges, u))[Arc(l, d, v)] == multiset(ArcsAt(edges, v))[Arc(l, d, u)] {
      assert multiset(ArcsAt(edges, u))[Arc(l, d, v)] == multiset(ArcsAt(edges, p[u]))[Arc(l, d, p[v])];
    }
    forall l: int, d: int ensures multiset(ArcsAt(edges, u))[Arc(l, d, u)] == multiset(ArcsAt(edges, v))[Arc(l, d, v)] {
      assert multiset(ArcsAt(edges, u))[Arc(l, d, u)] == multiset(ArcsAt(edges, p[u]))[Arc(l, d, p[u])];
    }
  }

  /** The two arc lists look alike iff exchanging u and v preserves the whole edge multiset:
      self-loops, parallel edges and directed edges between the two included. */
  lemma SeenIffSwap(n: nat, directed: set<int>, edges: seq<StoredEdge>, u: nat, v: nat)
    requires EdgesIn(n, directed, edges) && u < n && v < n && u != v
    ensures SameSeen(ArcsAt(edges, u), ArcsAt(edges, v), u, v) <==> EdgesCarried(n, directed, edges, edges, Swap(n, u, v))
  {
    var p := Swap(n, u, v);
    CarriedIffArcs(n, directed, edges, edges, p);
    forall x: nat | x < n ensures ArcsCarried(edges, edges, p, x) <==> CountsCarried(n, edges, p, x) {
      CarriedIffCounts(n, directed, edges, p, x);
    }
    if SameSeen(ArcsAt(edges, u), ArcsAt(edges, v), u, v) {
      forall x: nat | x < n ensures CountsCarried(n, edges, p, x) {
        SwapSeen(n, directed, edges, u, v, x);
      }
    }
    if EdgesCarried(n, directed, edges, edges, p) {
      CarriedSeen(n, edges, u, v);
    }
  }

  method AreTwins(g: Graph, u: nat, v: nat) returns (b: bool)
    requires ValidGraph(g) && u < |g.vlabel| && v < |g.vlabel| && u != v
    ensures b <==> EdgesCarried(|g.vlabel|, DirectedLabels(g.elabel), g.edges, g.edges, Swap(|g.vlabel|, u, v))
  {
    var ru, mu := Profile(g.adj[u], u, v);
    var rv, mv := Profile(g.adj[v], v, u);
    b := ru == rv && mu == mv;
    ProfilesIffSeen(g.adj[u], g.adj[v], u, v);
    SeenIffSwap(|g.vlabel|, DirectedLabels(g.elabel), g.edges, u, v);
  }

  /** For vertices of one label the test decides whether the transposition is an automorphism. */
  lemma SwapAutomorphism(g: Graph, u: nat, v: nat)
    requires ValidGraph(g) && u < |g.vlabel| && v < |g.vlabel| && g.vkey[u] == g.vkey[v]
    ensures Automorphism(g, Swap(|g.vlabel|, u, v))
       <==> EdgesCarried(|g.vlabel|, DirectedLabels(g.elabel), g.edges, g.edges, Swap(|g.vlabel|, u, v))
  {
  }
}
