/** What a leaf is compared by: its graph with the vertices renumbered by their positions. Two graphs share a
    certificate only if they are isomorphic, and isomorphisms carry certificates along. */
module Certificates {
  import opened Wrappers
  import opened Orders
  import opened Permutations
  import opened Topology
  import opened Graphs
  import opened Refinement

  datatype Certificate = Certificate(edges: seq<(int, int, Option<EdgeLabel>)>, nodes: seq<NodeLabel>)

  function Named(elabel: seq<Option<EdgeLabel>>, t: Triple): (int, int, Option<EdgeLabel>) {
    (t.0, t.1, if 0 <= t.2 < |elabel| then elabel[t.2] else None)
  }

  ghost function SortedEdges(g: Graph, position: Perm): seq<Triple>
    requires ValidGraph(g) && IsPerm(|g.vlabel|, position)
  {
    Sort(TripleLess, PlacedAll(|g.vlabel|, DirectedLabels(g.elabel), g.edges, position))
  }

  ghost function NodesInOrder(g: Graph, position: Perm): (nodes: seq<NodeLabel>)
    requires IsPerm(|g.vlabel|, position)
    ensures |nodes| == |g.vlabel|
    ensures forall i :: 0 <= i < |nodes| ==> nodes[i] == g.vlabel[Inverse(|g.vlabel|, position)[i]]
  {
    seq(|g.vlabel|, i requires 0 <= i < |g.vlabel| => g.vlabel[Inverse(|g.vlabel|, position)[i]])
  }

  function NamedAll(elabel: seq<Option<EdgeLabel>>, placed: seq<Triple>): (r: seq<(int, int, Option<EdgeLabel>)>)
    ensures |r| == |placed| && forall i :: 0 <= i < |placed| ==> r[i] == Named(elabel, placed[i])
  {
    seq(|placed|, i requires 0 <= i < |placed| => Named(elabel, placed[i]))
  }

  /** Sorted placed edges with their labels, and the node labels in position order. */
  ghost function CertificateOf(g: Graph, position: Perm): Certificate
    requires ValidGraph(g) && IsPerm(|g.vlabel|, position)
  {
    Certificate(NamedAll(g.elabel, SortedEdges(g, position)), NodesInOrder(g, position))
  }

  /** The edges are listed by their first ends' positions, then by their second ends', then by label. */
  ghost predicate InEdgeOrder(s: seq<Triple>) {
    forall i, j :: 0 <= i < j < |s| ==>
      s[i].0 < s[j].0 || (s[i].0 == s[j].0 && (s[i].1 < s[j].1 || (s[i].1 == s[j].1 && s[i].2 <= s[j].2)))
  }

  /** A certificate lists each edge once with its label, in order, and the label of the vertex at each position. */
  lemma CertificateLists(g: Graph, position: Perm, c: Certificate) returns (s: seq<Triple>)
    requires ValidGraph(g) && IsPerm(|g.vlabel|, position) && c == CertificateOf(g, position)
    ensures multiset(s) == multiset(PlacedAll(|g.vlabel|, DirectedLabels(g.elabel), g.edges, position))
    ensures InEdgeOrder(s)
    ensures |c.edges| == |s| && forall i :: 0 <= i < |s| ==>
              0 <= s[i].2 < |g.elabel| && c.edges[i] == (s[i].0, s[i].1, g.elabel[s[i].2])
    ensures |c.nodes| == |g.vlabel| && forall v :: 0 <= v < |g.vlabel| ==> c.nodes[position[v]] == g.vlabel[v]
  {
    s := SortedEdges(g, position);
    var placed := PlacedAll(|g.vlabel|, DirectedLabels(g.elabel), g.edges, position);
    TripleOrder();
    SortSorts(TripleLess, placed);
    SortedInEdgeOrder(s);
    forall i | 0 <= i < |s| ensures 0 <= s[i].2 < |g.elabel| {
      assert s[i] in multiset(placed);
      var k: nat :| k < |placed| && placed[k] == s[i];
    }
  }

  lemma SortedInEdgeOrder(s: seq<Triple>)
    requires Sorted(TripleLess, s)
    ensures InEdgeOrder(s)
  {
    forall i, j | 0 <= i < j < |s|
      ensures s[i].0 < s[j].0 || (s[i].0 == s[j].0 && (s[i].1 < s[j].1 || (s[i].1 == s[j].1 && s[i].2 <= s[j].2)))
    {
      assert !TripleLess(s[j], s[i]);
    }
  }

  // ----- placing twice

  /** Moves a placed edge along q. */
  function PlaceAgain(n: nat, directed: set<int>, q: Perm, t: Triple): Triple
    requires |q| == n
  {
    if 0 <= t.0 < n && 0 <= t.1 < n then
      var a, b := q[t.0], q[t.1];
      if t.2 !in directed && b < a then (b, a, t.2) else (a, b, t.2)
    else t
  }

  lemma PlacedTwiceMultiset(n: nat, directed: set<int>, e1: seq<StoredEdge>, e2: seq<StoredEdge>, p1: Perm, p2: Perm,
                            q: Perm)
    requires EdgesIn(n, directed, e1) && EdgesIn(n, directed, e2) && IsPerm(n, p1) && IsPerm(n, p2) && IsPerm(n, q)
    requires multiset(PlacedAll(n, directed, e1, p1)) == multiset(PlacedAll(n, directed, e2, p2))
    ensures multiset(PlacedAll(n, directed, e1, Compose(n, p1,
                                                        q))) == multiset(PlacedAll(n, directed, e2, Compose(n, p2, q)))
  {
    var f := t => PlaceAgain(n, directed, q, t);
    MapKeepsMultiset(f, PlacedAll(n, directed, e1, p1), PlacedAll(n, directed, e2, p2));
    forall i | 0 <= i < |e1| ensures f(Placed(e1[i], p1)) == Placed(e1[i], Compose(n, p1, q)) {
    }
    forall i | 0 <= i < |e2| ensures f(Placed(e2[i], p2)) == Placed(e2[i], Compose(n, p2, q)) {
    }
    assert MapSeq(f, PlacedAll(n, directed, e1, p1)) == PlacedAll(n, directed, e1, Compose(n, p1, q));
    assert MapSeq(f, PlacedAll(n, directed, e2, p2)) == PlacedAll(n, directed, e2, Compose(n, p2, q));
  }

  // ----- isomorphisms carry certificates

  lemma SortedEdgesCarried(g1: Graph, g2: Graph, p: Perm, pos1: Perm, pos2: Perm)
    requires GraphIso(g1, g2, p) && IsPerm(|g1.vlabel|, pos1) && IsPerm(|g1.vlabel|, pos2)
    requires Compose(|g1.vlabel|, p, pos2) == pos1
    ensures SortedEdges(g1, pos1) == SortedEdges(g2, pos2)
  {
    var n, d := |g1.vlabel|, DirectedLabels(g1.elabel);
    ComposeId(n, pos2);
    PlacedTwiceMultiset(n, d, g1.edges, g2.edges, p, Id(n), pos2);
    SortForgetsOrder(TripleLess, PlacedAll(n, d, g1.edges, pos1), PlacedAll(n, d, g2.edges, pos2));
  }

  lemma NodesCarried(g1: Graph, g2: Graph, p: Perm, pos1: Perm, pos2: Perm)
    requires |g1.vlabel| == |g2.vlabel| == |p| && IsPerm(|p|, p) && IsPerm(|p|, pos1) && IsPerm(|p|, pos2)
    requires forall v :: 0 <= v < |p| ==> pos2[p[v]] == pos1[v] && g2.vlabel[p[v]] == g1.vlabel[v]
    ensures NodesInOrder(g1, pos1) == NodesInOrder(g2, pos2)
  {
    var n := |p|;
    forall i | 0 <= i < n ensures NodesInOrder(g1, pos1)[i] == NodesInOrder(g2, pos2)[i] {
      var v := Inverse(n, pos1)[i];
      assert pos2[p[v]] == i;
      assert Inverse(n, pos2)[i] == p[v];
    }
  }

  /** Positions carried along an isomorphism give the same certificate. */
  lemma CertificateCarried(g1: Graph, g2: Graph, p: Perm, pos1: Perm, pos2: Perm)
    requires GraphIso(g1, g2, p) && IsPerm(|g1.vlabel|, pos1) && IsPerm(|g1.vlabel|, pos2)
    requires forall v :: 0 <= v < |p| ==> pos2[p[v]] == pos1[v]
    ensures CertificateOf(g1, pos1) == CertificateOf(g2, pos2)
  {
    SamePerm(|g1.vlabel|, Compose(|g1.vlabel|, p, pos2), pos1);
    SortedEdgesCarried(g1, g2, p, pos1, pos2);
    NodesCarried(g1, g2, p, pos1, pos2);
  }

  // ----- equal certificates give an isomorphism

  ghost predicate LabelsAgree(g1: Graph, g2: Graph) {
    && |g1.vkey| == |g1.vlabel| && |g2.vkey| == |g2.vlabel|
    && g1.elabel == g2.elabel
    && forall v, w :: 0 <= v < |g1.vlabel| && 0 <= w < |g2.vlabel| && g1.vlabel[v] == g2.vlabel[w] ==>
         g1.vkey[v] == g2.vkey[w]
  }

  /** Each vertex goes to the vertex that holds its position in the other ordering. */
  ghost function Match(n: nat, pos1: Perm, pos2: Perm): (gamma: Perm)
    requires IsPerm(n, pos1) && IsPerm(n, pos2)
    ensures IsPerm(n, gamma)
    ensures forall v :: 0 <= v < n ==> pos2[gamma[v]] == pos1[v]
  {
    Compose(n, pos1, Inverse(n, pos2))
  }

  lemma RankBelow(g: Graph, position: Perm, t: Triple)
    requires ValidGraph(g) && IsPerm(|g.vlabel|, position)
    requires t in PlacedAll(|g.vlabel|, DirectedLabels(g.elabel), g.edges, position)
    ensures 0 <= t.2 < |g.elabel| && g.elabel[t.2].Some?
  {
    var i :| 0 <= i < |g.edges| && Placed(g.edges[i], position) == t;
  }

  ghost predicate RanksNamed(elabel: seq<Option<EdgeLabel>>, s: seq<Triple>) {
    forall i :: 0 <= i < |s| ==> 0 <= s[i].2 < |elabel| && elabel[s[i].2].Some?
  }

  lemma NamesDecide(g: Graph, s1: seq<Triple>, s2: seq<Triple>)
    requires ValidGraph(g) && RanksNamed(g.elabel, s1) && RanksNamed(g.elabel, s2)
    requires NamedAll(g.elabel, s1) == NamedAll(g.elabel, s2)
    ensures s1 == s2
  {
    assert |s1| == |NamedAll(g.elabel, s1)| == |s2|;
    forall i | 0 <= i < |s1| ensures s1[i] == s2[i] {
      assert NamedAll(g.elabel, s1)[i] == Named(g.elabel, s1[i]);
      assert NamedAll(g.elabel, s2)[i] == Named(g.elabel, s2[i]);
    }
  }

  lemma SortedRanks(g: Graph, position: Perm)
    requires ValidGraph(g) && IsPerm(|g.vlabel|, position)
    ensures RanksNamed(g.elabel, SortedEdges(g, position))
  {
    var placed, s := PlacedAll(|g.vlabel|, DirectedLabels(g.elabel), g.edges, position), SortedEdges(g, position);
    forall i | 0 <= i < |s| ensures 0 <= s[i].2 < |g.elabel| && g.elabel[s[i].2].Some? {
      assert s[i] in multiset(s) && multiset(s) == multiset(placed);
      RankBelow(g, position, s[i]);
    }
  }

  lemma EdgesDecide(g1: Graph, g2: Graph, pos1: Perm, pos2: Perm)
    requires ValidGraph(g1) && ValidGraph(g2) && g1.elabel == g2.elabel && |g1.vlabel| == |g2.vlabel|
    requires IsPerm(|g1.vlabel|, pos1) && IsPerm(|g2.vlabel|, pos2)
    requires NamedAll(g1.elabel, SortedEdges(g1, pos1)) == NamedAll(g2.elabel, SortedEdges(g2, pos2))
    ensures EdgesCarried(|g1.vlabel|, DirectedLabels(g1.elabel), g1.edges, g2.edges, Match(|g1.vlabel|, pos1, pos2))
  {
    var n, d := |g1.vlabel|, DirectedLabels(g1.elabel);
    SortedRanks(g1, pos1);
    SortedRanks(g2, pos2);
    NamesDecide(g1, SortedEdges(g1, pos1), SortedEdges(g2, pos2));
    SortForgetsOrder(TripleLess, PlacedAll(n, d, g1.edges, pos1), PlacedAll(n, d, g2.edges, pos2));
    ComposeInverse(n, pos2);
    PlacedTwiceMultiset(n, d, g1.edges, g2.edges, pos1, pos2, Inverse(n, pos2));
  }

  lemma NodesDecide(g1: Graph, g2: Graph, pos1: Perm, pos2: Perm, v: nat)
    requires |g1.vlabel| == |g2.vlabel| && v < |g1.vlabel|
    requires IsPerm(|g1.vlabel|, pos1) && IsPerm(|g2.vlabel|, pos2)
    requires NodesInOrder(g1, pos1) == NodesInOrder(g2, pos2)
    ensures g2.vlabel[Match(|g1.vlabel|, pos1, pos2)[v]] == g1.vlabel[v]
  {
    var i := pos1[v];
    assert NodesInOrder(g1, pos1)[i] == g1.vlabel[v];
    assert NodesInOrder(g2, pos2)[i] == g2.vlabel[Inverse(|g2.vlabel|, pos2)[i]];
  }

  /** Equal certificates make the match of positions an isomorphism. */
  lemma CertificateDecides(g1: Graph, g2: Graph, pos1: Perm, pos2: Perm)
    requires ValidGraph(g1) && ValidGraph(g2) && LabelsAgree(g1, g2)
    requires IsPerm(|g1.vlabel|, pos1) && IsPerm(|g2.vlabel|, pos2)
    requires CertificateOf(g1, pos1) == CertificateOf(g2, pos2)
    ensures |g1.vlabel| == |g2.vlabel| && GraphIso(g1, g2, Match(|g1.vlabel|, pos1, pos2))
  {
    assert |NodesInOrder(g1, pos1)| == |NodesInOrder(g2, pos2)|;
    EdgesDecide(g1, g2, pos1, pos2);
    forall v: nat | v < |g1.vlabel| ensures g2.vlabel[Match(|g1.vlabel|, pos1, pos2)[v]] == g1.vlabel[v] {
      NodesDecide(g1, g2, pos1, pos2, v);
    }
  }

  // ----- the loops of the source

  method Certify(g: Graph, position: Perm) returns (c: Certificate)
    requires ValidGraph(g) && IsPerm(|g.vlabel|, position)
    ensures c == CertificateOf(g, position)
  {
    var n := |g.vlabel|;
    ghost var d := DirectedLabels(g.elabel);
    var edges: seq<Triple> := [];
    for i := 0 to |g.edges|
      invariant |edges| == i
      invariant forall j :: 0 <= j < i ==> edges[j] == PlacedAll(n, d, g.edges, position)[j]
    {
      var e := g.edges[i];
      var a, b := position[e.from], position[e.to];
      if !e.directed && b < a {
        a, b := b, a;
      }
      edges := edges + [(a, b, e.rank)];
    }
    assert edges == PlacedAll(n, d, g.edges, position);
    edges := Sort(TripleLess, edges);
    var order := InverseLoop(n, position);
    var out: seq<(int, int, Option<EdgeLabel>)> := [];
    for i := 0 to |edges|
      invariant |out| == i && forall j :: 0 <= j < i ==> out[j] == Named(g.elabel, edges[j])
    {
      out := out + [Named(g.elabel, edges[i])];
    }
    var nodes: seq<NodeLabel> := [];
    for i := 0 to n
      invariant |nodes| == i && forall j :: 0 <= j < i ==> nodes[j] == g.vlabel[order[j]]
    {
      nodes := nodes + [g.vlabel[order[i]]];
    }
    c := Certificate(out, nodes);
    assert out == NamedAll(g.elabel, SortedEdges(g, position));
    assert nodes == NodesInOrder(g, position);
  }
}
