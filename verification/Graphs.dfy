/** The stripped graph: vertices are indices whose only meaning is their label and their arcs. */
module Graphs {
  import opened Wrappers
  import opened Orders
  import opened Permutations
  import opened Topology

  const UNDIRECTED := 0
  const OUT := 1
  const IN := 2

  /** rank: of the arc's label, the distinct labels of the graph being numbered in order. */
  datatype Arc = Arc(rank: int, dir: int, to: nat)
  datatype StoredEdge = StoredEdge(from: nat, to: nat, rank: int, directed: bool)

  datatype Graph = Graph(
    vkey: seq<string>,
    vlabel: seq<NodeLabel>,
    elabel: seq<Option<EdgeLabel>>,
    adj: seq<seq<Arc>>,
    edges: seq<StoredEdge>)

  // ----- arcs of an edge list

  function EdgeArcs(e: StoredEdge, v: nat): seq<Arc> {
    (if e.from == v then [Arc(e.rank, if e.directed then OUT else UNDIRECTED, e.to)] else [])
    + (if e.to == v then [Arc(e.rank, if e.directed then IN else UNDIRECTED, e.from)] else [])
  }

  /** The arcs pushed for v while the edges are added in order. */
  function ArcsAt(edges: seq<StoredEdge>, v: nat): seq<Arc> {
    if edges == [] then []
    else ArcsAt(edges[..|edges| - 1], v) + EdgeArcs(edges[|edges| - 1], v)
  }

  /** a is an arc of e at v: 1 marks the way out of a directed edge, 2 the way in, 0 an edge without direction. */
  ghost predicate IsArcOf(e: StoredEdge, v: nat, a: Arc) {
    && a.rank == e.rank
    && (|| (e.from == v && a.to == e.to && a.dir == if e.directed then 1 else 0)
        || (e.to == v && a.to == e.from && a.dir == if e.directed then 2 else 0))
  }

  /** The arcs at a vertex are those of the edges that end there. */
  lemma {:induction false} ArcsAtIff(edges: seq<StoredEdge>, v: nat, a: Arc)
    ensures a in ArcsAt(edges, v) <==> exists e :: e in edges && IsArcOf(e, v, a)
  {
    if edges != [] {
      var last := edges[|edges| - 1];
      assert edges == edges[..|edges| - 1] + [last];
      ArcsAtIff(edges[..|edges| - 1], v, a);
      assert a in EdgeArcs(last, v) <==> IsArcOf(last, v, a);
    }
  }

  // ----- well-formed graphs

  ghost predicate EdgesIn(n: nat, directed: set<int>, edges: seq<StoredEdge>) {
    forall i :: 0 <= i < |edges| ==>
      edges[i].from < n && edges[i].to < n && (edges[i].directed <==> edges[i].rank in directed)
  }

  /** The label ranks of directed edges. */
  ghost function DirectedLabels(elabel: seq<Option<EdgeLabel>>): set<int> {
    set l | 0 <= l < |elabel| && elabel[l].Some? && IsDirected(elabel[l].value.kind)
  }

  ghost predicate ValidGraph(g: Graph) {
    && |g.vkey| == |g.vlabel| == |g.adj|
    && EdgesIn(|g.vlabel|, DirectedLabels(g.elabel), g.edges)
    && (forall i :: 0 <= i < |g.edges| ==> 0 <= g.edges[i].rank < |g.elabel| && g.elabel[g.edges[i].rank].Some?)
    && (forall i, j :: 0 <= i < |g.elabel| && 0 <= j < |g.elabel| && g.elabel[i].Some? && g.elabel[i] == g.elabel[j] ==> i == j)
    && (forall v :: 0 <= v < |g.adj| ==> g.adj[v] == ArcsAt(g.edges, v))
    && (forall v, w :: 0 <= v < |g.vkey| && 0 <= w < |g.vkey| ==> (g.vkey[v] == g.vkey[w] <==> g.vlabel[v] == g.vlabel[w]))
  }

  lemma {:induction false} ArcsInRange(n: nat, directed: set<int>, edges: seq<StoredEdge>, v: nat)
    requires EdgesIn(n, directed, edges)
    ensures forall i :: 0 <= i < |ArcsAt(edges, v)| ==> ArcsAt(edges, v)[i].to < n
  {
    if edges != [] {
      ArcsInRange(n, directed, edges[..|edges| - 1], v);
    }
  }

  // ----- edges at positions

  /** The edge between the positions of its ends, an undirected one with the smaller end first. */
  function Placed(e: StoredEdge, position: seq<nat>): Triple
    requires e.from < |position| && e.to < |position|
  {
    var a, b := position[e.from], position[e.to];
    if !e.directed && b < a then (b, a, e.rank) else (a, b, e.rank)
  }

  function PlacedAll(n: nat, directed: set<int>, edges: seq<StoredEdge>, position: seq<nat>): (r: seq<Triple>)
    requires EdgesIn(n, directed, edges) && |position| == n
    ensures |r| == |edges|
    ensures forall i :: 0 <= i < |edges| ==> r[i] == Placed(edges[i], position)
  {
    seq(|edges|, i requires 0 <= i < |edges| => Placed(edges[i], position))
  }

  // ----- relabelling

  function Moved(e: StoredEdge, p: Perm): StoredEdge
    requires e.from < |p| && e.to < |p|
  {
    StoredEdge(p[e.from], p[e.to], e.rank, e.directed)
  }

  ghost function MovedAll(n: nat, directed: set<int>, edges: seq<StoredEdge>, p: Perm): (r: seq<StoredEdge>)
    requires EdgesIn(n, directed, edges) && IsPerm(n, p)
    ensures |r| == |edges| && EdgesIn(n, directed, r)
    ensures forall i :: 0 <= i < |edges| ==> r[i] == Moved(edges[i], p)
  {
    seq(|edges|, i requires 0 <= i < |edges| => Moved(edges[i], p))
  }

  function MovedArcs(arcs: seq<Arc>, p: Perm): (r: seq<Arc>)
    requires forall i :: 0 <= i < |arcs| ==> arcs[i].to < |p|
    ensures |r| == |arcs|
    ensures forall i :: 0 <= i < |arcs| ==> r[i] == arcs[i].(to := p[arcs[i].to])
  {
    seq(|arcs|, i requires 0 <= i < |arcs| => arcs[i].(to := p[arcs[i].to]))
  }

  lemma MovedEdgeArcs(n: nat, e: StoredEdge, p: Perm, v: nat)
    requires e.from < n && e.to < n && v < n && IsPerm(n, p)
    ensures EdgeArcs(Moved(e, p), p[v]) == MovedArcs(EdgeArcs(e, v), p)
  {
    assert (p[e.from] == p[v] <==> e.from == v) && (p[e.to] == p[v] <==> e.to == v);
  }

  lemma {:induction false} MovedArcsAt(n: nat, directed: set<int>, edges: seq<StoredEdge>, p: Perm, v: nat)
    requires EdgesIn(n, directed, edges) && IsPerm(n, p) && v < n
    ensures forall i :: 0 <= i < |ArcsAt(edges, v)| ==> ArcsAt(edges, v)[i].to < n
    ensures ArcsAt(MovedAll(n, directed, edges, p), p[v]) == MovedArcs(ArcsAt(edges, v), p)
  {
    ArcsInRange(n, directed, edges, v);
    if edges != [] {
      var edges', e := edges[..|edges| - 1], edges[|edges| - 1];
      MovedArcsAt(n, directed, edges', p, v);
      var moved := MovedAll(n, directed, edges, p);
      assert moved[..|moved| - 1] == MovedAll(n, directed, edges', p);
      MovedEdgeArcs(n, e, p, v);
    }
  }

  lemma MovedPlaced(n: nat, directed: set<int>, edges: seq<StoredEdge>, p: Perm)
    requires EdgesIn(n, directed, edges) && IsPerm(n, p)
    ensures PlacedAll(n, directed, MovedAll(n, directed, edges, p), Id(n)) == PlacedAll(n, directed, edges, p)
  {
  }

  // ----- the arcs at a vertex count the placed edges, and the other way round

  /** How many arcs (rank, dir, y) vertex x has, read off the multiset of placed edges. */
  ghost function ArcCount(directed: set<int>, placed: multiset<Triple>, x: nat, a: Arc): nat {
    if a.rank in directed then
      if a.dir == OUT then placed[(x, a.to, a.rank)]
      else if a.dir == IN then placed[(a.to, x, a.rank)]
      else 0
    else if a.dir != UNDIRECTED then 0
    else if x == a.to then 2 * placed[(x, x, a.rank)]
    else if x < a.to then placed[(x, a.to, a.rank)]
    else placed[(a.to, x, a.rank)]
  }

  lemma ArcCountOne(n: nat, directed: set<int>, e: StoredEdge, x: nat, a: Arc)
    requires EdgesIn(n, directed, [e])
    ensures e.from < n && e.to < n
    ensures multiset(EdgeArcs(e, x))[a] == ArcCount(directed, multiset{Placed(e, Id(n))}, x, a)
  {
    assert [e][0] == e;
  }

  lemma ArcCountAdds(directed: set<int>, m: multiset<Triple>, m': multiset<Triple>, x: nat, a: Arc)
    ensures ArcCount(directed, m + m', x, a) == ArcCount(directed, m, x, a) + ArcCount(directed, m', x, a)
  {
  }

  lemma CountConcat<T>(a: seq<T>, b: seq<T>, t: T)
    ensures multiset(a + b)[t] == multiset(a)[t] + multiset(b)[t]
  {
  }

  lemma PlacedAppend(n: nat, directed: set<int>, edges: seq<StoredEdge>)
    requires EdgesIn(n, directed, edges) && edges != []
    ensures EdgesIn(n, directed, edges[..|edges| - 1]) && EdgesIn(n, directed, [edges[|edges| - 1]])
    ensures multiset(PlacedAll(n, directed, edges, Id(n)))
         == multiset(PlacedAll(n, directed, edges[..|edges| - 1], Id(n))) + multiset{Placed(edges[|edges| - 1], Id(n))}
  {
    var edges', e := edges[..|edges| - 1], edges[|edges| - 1];
    assert PlacedAll(n, directed, edges, Id(n)) == PlacedAll(n, directed, edges', Id(n)) + [Placed(e, Id(n))];
  }

  lemma {:induction false} ArcsAtCount(n: nat, directed: set<int>, edges: seq<StoredEdge>, x: nat, a: Arc)
    requires EdgesIn(n, directed, edges)
    ensures multiset(ArcsAt(edges, x))[a] == ArcCount(directed, multiset(PlacedAll(n, directed, edges, Id(n))), x, a)
  {
    if edges != [] {
      var edges', e := edges[..|edges| - 1], edges[|edges| - 1];
      PlacedAppend(n, directed, edges);
      ArcsAtCount(n, directed, edges', x, a);
      ArcCountOne(n, directed, e, x, a);
      ArcCountAdds(directed, multiset(PlacedAll(n, directed, edges', Id(n))), multiset{Placed(e, Id(n))}, x, a);
      CountConcat(ArcsAt(edges', x), EdgeArcs(e, x), a);
    }
  }

  /** Every arc is seen from its other end, reversed. */
  function Reversed(dir: int): int {
    if dir == OUT then IN else if dir == IN then OUT else dir
  }

  lemma ArcsMirror(n: nat, directed: set<int>, edges: seq<StoredEdge>, x: nat, y: nat, rank: int, dir: int)
    requires EdgesIn(n, directed, edges)
    ensures multiset(ArcsAt(edges, x))[Arc(rank, dir, y)] == multiset(ArcsAt(edges, y))[Arc(rank, Reversed(dir), x)]
  {
    ArcsAtCount(n, directed, edges, x, Arc(rank, dir, y));
    ArcsAtCount(n, directed, edges, y, Arc(rank, Reversed(dir), x));
  }

  lemma PlacedShape(n: nat, directed: set<int>, edges: seq<StoredEdge>, t: Triple)
    requires EdgesIn(n, directed, edges)
    requires t in PlacedAll(n, directed, edges, Id(n))
    ensures 0 <= t.0 < n && 0 <= t.1 < n && (t.2 !in directed ==> t.0 <= t.1)
  {
    var i :| 0 <= i < |edges| && PlacedAll(n, directed, edges, Id(n))[i] == t;
  }

  ghost predicate SamePlaced(n: nat, directed: set<int>, e1: seq<StoredEdge>, e2: seq<StoredEdge>)
    requires EdgesIn(n, directed, e1) && EdgesIn(n, directed, e2)
  {
    multiset(PlacedAll(n, directed, e1, Id(n))) == multiset(PlacedAll(n, directed, e2, Id(n)))
  }

  ghost predicate SameArcs(n: nat, e1: seq<StoredEdge>, e2: seq<StoredEdge>) {
    forall x: nat :: x < n ==> multiset(ArcsAt(e1, x)) == multiset(ArcsAt(e2, x))
  }

  lemma SamePlacedArcs(n: nat, directed: set<int>, e1: seq<StoredEdge>, e2: seq<StoredEdge>, x: nat)
    requires EdgesIn(n, directed, e1) && EdgesIn(n, directed, e2) && SamePlaced(n, directed, e1, e2)
    ensures multiset(ArcsAt(e1, x)) == multiset(ArcsAt(e2, x))
  {
    forall a ensures multiset(ArcsAt(e1, x))[a] == multiset(ArcsAt(e2, x))[a] {
      ArcsAtCount(n, directed, e1, x, a);
      ArcsAtCount(n, directed, e2, x, a);
    }
  }

  lemma SameArcsPlaced(n: nat, directed: set<int>, e1: seq<StoredEdge>, e2: seq<StoredEdge>)
    requires EdgesIn(n, directed, e1) && EdgesIn(n, directed, e2) && SameArcs(n, e1, e2)
    ensures SamePlaced(n, directed, e1, e2)
  {
    var p1, p2 := PlacedAll(n, directed, e1, Id(n)), PlacedAll(n, directed, e2, Id(n));
    forall t ensures multiset(p1)[t] == multiset(p2)[t] {
      if t in p1 || t in p2 {
        PlacedCount(n, directed, e1, e2, t);
      } else {
        assert t !in multiset(p1) && t !in multiset(p2);
      }
    }
    assert multiset(p1) == multiset(p2);
  }

  /** Two edge lists place the same edges iff every vertex has the same arcs. */
  lemma PlacedIffArcs(n: nat, directed: set<int>, e1: seq<StoredEdge>, e2: seq<StoredEdge>)
    requires EdgesIn(n, directed, e1) && EdgesIn(n, directed, e2)
    ensures SamePlaced(n, directed, e1, e2) <==> SameArcs(n, e1, e2)
  {
    if SamePlaced(n, directed, e1, e2) {
      forall x: nat | x < n ensures multiset(ArcsAt(e1, x)) == multiset(ArcsAt(e2, x)) {
        SamePlacedArcs(n, directed, e1, e2, x);
      }
    }
    if SameArcs(n, e1, e2) {
      SameArcsPlaced(n, directed, e1, e2);
    }
  }

  lemma PlacedCount(n: nat, directed: set<int>, e1: seq<StoredEdge>, e2: seq<StoredEdge>, t: Triple)
    requires EdgesIn(n, directed, e1) && EdgesIn(n, directed, e2)
    requires t in PlacedAll(n, directed, e1, Id(n)) || t in PlacedAll(n, directed, e2, Id(n))
    requires SameArcs(n, e1, e2)
    ensures multiset(PlacedAll(n, directed, e1, Id(n)))[t] == multiset(PlacedAll(n, directed, e2, Id(n)))[t]
  {
    if t in PlacedAll(n, directed, e1, Id(n)) { PlacedShape(n, directed, e1,
                                                            t); } else { PlacedShape(n, directed, e2, t); }
    var x: nat, y: nat := t.0, t.1;
    var a := Arc(t.2, if t.2 in directed then OUT else UNDIRECTED, y);
    ArcsAtCount(n, directed, e1, x, a);
    ArcsAtCount(n, directed, e2, x, a);
    assert multiset(ArcsAt(e1, x))[a] == multiset(ArcsAt(e2, x))[a];
  }

  // ----- isomorphism of stripped graphs

  /** p carries g1 onto g2: labels, and the multiset of labelled edges with their directions. */
  ghost predicate GraphIso(g1: Graph, g2: Graph, p: Perm) {
    && ValidGraph(g1) && ValidGraph(g2)
    && |g1.vlabel| == |g2.vlabel| && IsPerm(|g1.vlabel|, p) && g1.elabel == g2.elabel
    && (forall v :: 0 <= v < |p| ==> g2.vkey[p[v]] == g1.vkey[v] && g2.vlabel[p[v]] == g1.vlabel[v])
    && EdgesCarried(|g1.vlabel|, DirectedLabels(g1.elabel), g1.edges, g2.edges, p)
  }

  ghost predicate EdgesCarried(n: nat, directed: set<int>, e1: seq<StoredEdge>, e2: seq<StoredEdge>, p: Perm)
    requires EdgesIn(n, directed, e1) && EdgesIn(n, directed, e2) && IsPerm(n, p)
  {
    multiset(PlacedAll(n, directed, e1, p)) == multiset(PlacedAll(n, directed, e2, Id(n)))
  }

  ghost predicate Automorphism(g: Graph, p: Perm) {
    GraphIso(g, g, p)
  }

  /** p carries the arcs at v onto the arcs at its image. */
  ghost predicate ArcsCarried(e1: seq<StoredEdge>, e2: seq<StoredEdge>, p: Perm, v: nat)
    requires v < |p| && forall i :: 0 <= i < |ArcsAt(e1, v)| ==> ArcsAt(e1, v)[i].to < |p|
  {
    multiset(MovedArcs(ArcsAt(e1, v), p)) == multiset(ArcsAt(e2, p[v]))
  }

  /** A bijection preserves the labelled edges iff it preserves the arcs at every vertex. */
  lemma CarriedIffArcs(n: nat, directed: set<int>, e1: seq<StoredEdge>, e2: seq<StoredEdge>, p: Perm)
    requires EdgesIn(n, directed, e1) && EdgesIn(n, directed, e2) && IsPerm(n, p)
    ensures forall v: nat :: v < n ==> forall i :: 0 <= i < |ArcsAt(e1, v)| ==> ArcsAt(e1, v)[i].to < n
    ensures EdgesCarried(n, directed, e1, e2, p) <==> forall v: nat :: v < n ==> ArcsCarried(e1, e2, p, v)
  {
    var moved := MovedAll(n, directed, e1, p);
    MovedPlaced(n, directed, e1, p);
    PlacedIffArcs(n, directed, moved, e2);
    forall v: nat | v < n
      ensures forall i :: 0 <= i < |ArcsAt(e1, v)| ==> ArcsAt(e1, v)[i].to < n
      ensures ArcsAt(moved, p[v]) == MovedArcs(ArcsAt(e1, v), p)
    {
      MovedArcsAt(n, directed, e1, p, v);
    }
    if forall v: nat :: v < n ==> ArcsCarried(e1, e2, p, v) {
      forall x: nat | x < n ensures multiset(ArcsAt(moved, x)) == multiset(ArcsAt(e2, x)) {
        var v := Preimage(n, p, x);
        assert ArcsCarried(e1, e2, p, v);
      }
    }
    if EdgesCarried(n, directed, e1, e2, p) {
      forall v: nat | v < n ensures ArcsCarried(e1, e2, p, v) {
        assert p[v] < n;
      }
    }
  }
}
