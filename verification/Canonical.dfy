/** The canonical form: the smallest printed certificate of the unpruned tree. Two models have the same
    canonical form exactly when they are isomorphic. */
module Canonical {
  import opened Wrappers
  import opened Orders
  import opened Permutations
  import opened Topology
  import opened Graphs
  import opened Refinement
  import opened Certificates
  import opened SearchTree
  import opened Pruning
  import opened Searches
  import opened Stripping

  /** s is the smallest printed certificate over all leaves of the unpruned tree of g. */
  ghost predicate IsMinimum(g: Graph, dump: Certificate -> string, s: string)
    requires ValidGraph(g)
  {
    && (exists c :: c in LeafCertificates(g, Root(g)) && dump(c) == s)
    && (forall c :: c in LeafCertificates(g, Root(g)) ==> StringLessEq(s, dump(c)))
  }

  /** s is the canonical form of m. */
  ghost predicate IsCanonical(pr: Printer, m: Model, s: string) {
    forall t {:trigger Unfold(t)} :: Unfold(t) ==>
      exists g :: Strips(pr, m, g) && ValidGraph(g) && IsMinimum(g, pr.cert, s)
  }

  // ----- the search computes the minimum

  lemma CoveredRootMinimum(g: Graph, dump: Certificate -> string, best: Leaf)
    requires ValidGraph(g) && StoredLeaf(g, dump, best) && Covers(g, dump, best.cert, [])
    ensures IsMinimum(g, dump, best.cert)
  {
    assert Unfold(0);
    LeafIsBelow(g, best.path, 0);
    assert best.path[..0] == [];
    assert CertificateOf(g, best.position) in LeafCertificates(g, Root(g));
  }

  /** More than a million different leaves exist. */
  ghost predicate TooManyLeaves(g: Graph)
    requires ValidGraph(g)
  {
    exists visited: set<seq<nat>> :: |visited| > 1_000_000 && forall q :: q in visited ==> IsLeaf(g, q)
  }

  method SearchMinimum(g: Graph, dump: Certificate -> string) returns (capped: bool, s: string)
    requires ValidGraph(g) && Injective(dump)
    ensures !capped ==> IsMinimum(g, dump, s)
    ensures capped ==> TooManyLeaves(g)
  {
    var search := new Search(g, dump);
    var colour := RankAll(StringLess, g.vkey);
    ValidColours(g, colour);
    colour := Refine(g, colour);
    RootNode(g);
    CellsBounded(colour);
    var jump := search.Run(colour, []);
    if jump.LeafCap? {
      CappedLeaves(g, search.visited);
      return true, "";
    }
    assert !jump.JumpTo?;
    CoveredRootMinimum(g, dump, search.best);
    return false, search.best.cert;
  }

  lemma CappedLeaves(g: Graph, visited: set<seq<nat>>)
    requires ValidGraph(g) && |visited| > MAX_LEAVES && AllLeaves(g, visited)
    ensures TooManyLeaves(g)
  {
    assert Unfold(0);
  }

  method CanonicalIdentityJson(pr: Printer, m: Model) returns (r: Result<string, TopologyError>)
    requires Faithful(pr)
    ensures r.Ok? ==> WellFormedModel(m) && IsCanonical(pr, m, r.value)
    ensures r == Err(NodeCapExceeded) <==> |m.nodes| > 256
    ensures r == Err(DuplicateKey) <==> |m.nodes| <= 256 && !DistinctKeys(m)
    ensures r == Err(DanglingReference) <==> |m.nodes| <= 256 && DistinctKeys(m) && !NoDangling(m)
    ensures r == Err(LeafCapExceeded) ==> exists g :: Strips(pr, m, g) && ValidGraph(g) && TooManyLeaves(g)
  {
    var stripped := Strip(pr, m);
    if stripped.Err? {
      return Err(stripped.error);
    }
    var capped, s := SearchMinimum(stripped.value, pr.cert);
    r := if capped then Err(LeafCapExceeded) else Ok(s);
  }

  // ----- sequences that hold the same elements are permutations of one another

  lemma {:induction false} PermutedMultiset<T>(a: seq<T>, b: seq<T>, q: Perm)
    requires |a| == |b| && IsPerm(|a|, q) && forall i :: 0 <= i < |a| ==> a[i] == b[q[i]]
    ensures multiset(a) == multiset(b)
  {
    if a == [] {
      assert b == [];
    } else {
      var m := |a| - 1;
      var j := q[m];
      var b' := b[..j] + b[j + 1..];
      var q' := seq(m, i requires 0 <= i < m => if q[i] < j then q[i] else q[i] - 1);
      assert IsPerm(m, q') by {
        forall i | 0 <= i < m ensures q[i] != j {
        }
      }
      PermutedMultiset(a[..m], b', q');
      CountWithout(b, j);
      assert a == a[..m] + [a[m]];
    }
  }

  /** q over the places of b without j, as places of b. */
  function Widened(q: Perm, j: nat): (r: Perm)
    ensures |r| == |q| + 1 && r[|q|] == j
    ensures forall i :: 0 <= i < |q| ==> r[i] == if q[i] < j then q[i] else q[i] + 1
  {
    seq(|q|, i requires 0 <= i < |q| => if q[i] < j then q[i] else q[i] + 1) + [j]
  }

  lemma WidenedPerm<T>(a: seq<T>, b: seq<T>, q: Perm, j: nat)
    requires j < |b| && |a| == |b| - 1 == |q| && IsPerm(|q|, q)
    requires forall i :: 0 <= i < |q| ==> a[i] == (b[..j] + b[j + 1..])[q[i]]
    ensures IsPerm(|b|, Widened(q, j))
    ensures forall i :: 0 <= i < |q| ==> a[i] == b[Widened(q, j)[i]]
  {
  }

  lemma {:induction false} MultisetPermuted<T>(a: seq<T>, b: seq<T>) returns (q: Perm)
    requires multiset(a) == multiset(b)
    ensures |a| == |b| && IsPerm(|a|, q) && forall i :: 0 <= i < |a| ==> a[i] == b[q[i]]
  {
    assert |multiset(a)| == |multiset(b)|;
    if a == [] {
      q := [];
    } else {
      var m := |a| - 1;
      var j := FindLast(a, b);
      var q' := MultisetPermuted(a[..m], b[..j] + b[j + 1..]);
      WidenedPerm(a[..m], b, q', j);
      q := Widened(q', j);
    }
  }

  // ----- isomorphic models have isomorphic graphs, and the other way round

  /** The same labels, whatever their order, get the same ranks. */
  lemma SameRanks(pr: Printer, m1: Model, m2: Model, i: nat, j: nat)
    requires i < |m1.edges| && j < |m2.edges| && LabelOfEdge(m1.edges[i]) == LabelOfEdge(m2.edges[j])
    requires Elements(EdgeKeys(pr, m1)) == Elements(EdgeKeys(pr, m2))
    ensures EdgeRanks(pr, m1)[i] == EdgeRanks(pr, m2)[j]
  {
  }

  ghost predicate SameLabels(m1: Model, m2: Model) {
    && |m1.edges| == |m2.edges|
    && (forall i :: 0 <= i < |m1.edges| ==> LabelOfEdge(m1.edges[i]) in EdgeLabels(m2))
    && (forall i :: 0 <= i < |m2.edges| ==> LabelOfEdge(m2.edges[i]) in EdgeLabels(m1))
  }

  lemma SameKeys(pr: Printer, m1: Model, m2: Model)
    requires SameLabels(m1, m2)
    ensures Elements(EdgeKeys(pr, m1)) == Elements(EdgeKeys(pr, m2))
  {
    forall k | k in EdgeKeys(pr, m1) ensures k in EdgeKeys(pr, m2) {
      var i :| 0 <= i < |m1.edges| && EdgeKeys(pr, m1)[i] == k;
      var j :| 0 <= j < |m2.edges| && EdgeLabels(m2)[j] == LabelOfEdge(m1.edges[i]);
      assert EdgeKeys(pr, m2)[j] == k;
    }
    forall k | k in EdgeKeys(pr, m2) ensures k in EdgeKeys(pr, m1) {
      var i :| 0 <= i < |m2.edges| && EdgeKeys(pr, m2)[i] == k;
      var j :| 0 <= j < |m1.edges| && EdgeLabels(m1)[j] == LabelOfEdge(m2.edges[i]);
      assert EdgeKeys(pr, m1)[j] == k;
    }
  }

  lemma LabelAt(pr: Printer, m1: Model, e1: seq<Option<EdgeLabel>>, m2: Model, e2: seq<Option<EdgeLabel>>, r: nat)
    requires StripsLabels(pr, m1, e1) && StripsLabels(pr, m2, e2) && SameLabels(m1, m2) && r < |e1|
    ensures r < |e2| && (e1[r].Some? ==> e2[r] == e1[r])
  {
    if e1[r].Some? {
      var i :| 0 <= i < |m1.edges| && EdgeRanks(pr, m1)[i] == r;
      var j :| 0 <= j < |m2.edges| && EdgeLabels(m2)[j] == LabelOfEdge(m1.edges[i]);
      SameKeys(pr, m1, m2);
      SameRanks(pr, m1, m2, i, j);
      assert e2[EdgeRanks(pr, m2)[j]] == Some(LabelOfEdge(m2.edges[j]));
    }
  }

  lemma SameElabel(pr: Printer, m1: Model, m2: Model, g1: Graph, g2: Graph)
    requires Strips(pr, m1, g1) && Strips(pr, m2, g2) && SameLabels(m1, m2)
    ensures g1.elabel == g2.elabel
  {
    forall r: nat | r < |g1.elabel| ensures g1.elabel[r] == g2.elabel[r] {
      LabelAt(pr, m1, g1.elabel, m2, g2.elabel, r);
      LabelAt(pr, m2, g2.elabel, m1, g1.elabel, r);
    }
  }

  lemma KeyIndex(m: Model, i: nat, j: nat)
    requires DistinctKeys(m) && i < |m.nodes| && j < |m.nodes| && m.nodes[i].key == m.nodes[j].key
    ensures i == j
  {
  }

  lemma IsomorphismLabels(m1: Model, m2: Model, p: Perm, q: Perm)
    requires Isomorphism(m1, m2, p, q)
    ensures SameLabels(m1, m2)
  {
    forall i | 0 <= i < |m1.edges| ensures LabelOfEdge(m1.edges[i]) in EdgeLabels(m2) {
      assert SameEdge(m1, m2, p, m1.edges[i], m2.edges[q[i]]);
      SameEdgeLabelIff(m1.edges[i], m2.edges[q[i]]);
      assert EdgeLabels(m2)[q[i]] == LabelOfEdge(m1.edges[i]);
    }
    forall j | 0 <= j < |m2.edges| ensures LabelOfEdge(m2.edges[j]) in EdgeLabels(m1) {
      var i := Preimage(|m1.edges|, q, j);
      assert SameEdge(m1, m2, p, m1.edges[i], m2.edges[q[i]]);
      SameEdgeLabelIff(m1.edges[i], m2.edges[q[i]]);
      assert EdgeLabels(m1)[i] == LabelOfEdge(m2.edges[j]);
    }
  }

  /** A matched pair of edges is placed alike. */
  lemma SameEdgePlaced(m1: Model, m2: Model, p: Perm, e1: Edge, e2: Edge, s1: StoredEdge, s2: StoredEdge, rank: nat)
    requires |m1.nodes| == |m2.nodes| && IsPerm(|m1.nodes|, p) && DistinctKeys(m1) && DistinctKeys(m2)
    requires StripsEdge(m1, e1, s1, rank) && StripsEdge(m2, e2, s2, rank) && SameEdge(m1, m2, p, e1, e2)
    ensures Placed(s1, p) == Placed(s2, Id(|m2.nodes|))
  {
    forall k1, k2, i: nat, j: nat | Carries(m1, m2, p, k1, k2) && i < |m1.nodes| && m1.nodes[i].key == k1
                                 && j < |m2.nodes| && m2.nodes[j].key == k2
      ensures p[i] == j
    {
      var i' :| 0 <= i' < |m1.nodes| && m1.nodes[i'].key == k1 && m2.nodes[p[i']].key == k2;
      KeyIndex(m1, i, i');
      KeyIndex(m2, p[i'], j);
    }
  }

  /** An isomorphism of models is one of their graphs. */
  lemma ModelsToGraphs(pr: Printer, m1: Model, m2: Model, g1: Graph, g2: Graph, p: Perm, q: Perm)
    requires Faithful(pr) && Strips(pr, m1, g1) && Strips(pr, m2, g2)
    requires WellFormedModel(m1) && WellFormedModel(m2) && Isomorphism(m1, m2, p, q)
    ensures GraphIso(g1, g2, p)
  {
    StrippedValid(pr, m1, g1);
    StrippedValid(pr, m2, g2);
    IsomorphismLabels(m1, m2, p, q);
    SameElabel(pr, m1, m2, g1, g2);
    SameKeys(pr, m1, m2);
    var n, d := |m1.nodes|, DirectedLabels(g1.elabel);
    var a, b := PlacedAll(n, d, g1.edges, p), PlacedAll(n, d, g2.edges, Id(n));
    forall i | 0 <= i < |a| ensures a[i] == b[q[i]] {
      var j := q[i];
      assert SameEdge(m1, m2, p, m1.edges[i], m2.edges[j]);
      SameEdgeLabelIff(m1.edges[i], m2.edges[j]);
      SameRanks(pr, m1, m2, i, j);
      assert StripsEdge(m1, m1.edges[i], g1.edges[i], EdgeRanks(pr, m1)[i]);
      assert StripsEdge(m2, m2.edges[j], g2.edges[j], EdgeRanks(pr, m2)[j]);
      SameEdgePlaced(m1, m2, p, m1.edges[i], m2.edges[j], g1.edges[i], g2.edges[j], EdgeRanks(pr, m1)[i]);
    }
    PermutedMultiset(a, b, q);
    NodesToGraphs(pr, m1, m2, g1, g2, p, q);
  }

  lemma NodesToGraphs(pr: Printer, m1: Model, m2: Model, g1: Graph, g2: Graph, p: Perm, q: Perm)
    requires Strips(pr, m1, g1) && Strips(pr, m2, g2) && Isomorphism(m1, m2, p, q)
    ensures forall v :: 0 <= v < |p| ==> g2.vkey[p[v]] == g1.vkey[v] && g2.vlabel[p[v]] == g1.vlabel[v]
  {
    forall v | 0 <= v < |p| ensures g2.vkey[p[v]] == g1.vkey[v] && g2.vlabel[p[v]] == g1.vlabel[v] {
      assert g1.vlabel[v] == LabelOfNode(m1.nodes[v]) && g2.vlabel[p[v]] == LabelOfNode(m2.nodes[p[v]]);
      SameNodeLabelIff(m1.nodes[v], m2.nodes[p[v]]);
    }
  }

  lemma PlacedSameEdge(pr: Printer, m1: Model, m2: Model, g1: Graph, g2: Graph, p: Perm, i: nat, j: nat)
    requires Strips(pr, m1, g1) && Strips(pr, m2, g2) && g1.elabel == g2.elabel
    requires |m1.nodes| == |m2.nodes| && IsPerm(|m1.nodes|, p) && i < |m1.edges| && j < |m2.edges|
    requires g1.edges[i].from < |p| && g1.edges[i].to < |p| && g2.edges[j].from < |p| && g2.edges[j].to < |p|
    requires Placed(g1.edges[i], p) == Placed(g2.edges[j], Id(|m2.nodes|))
    ensures SameEdge(m1, m2, p, m1.edges[i], m2.edges[j])
  {
    var e1, e2, s1, s2 := m1.edges[i], m2.edges[j], g1.edges[i], g2.edges[j];
    assert StripsEdge(m1, e1, s1, EdgeRanks(pr, m1)[i]);
    assert StripsEdge(m2, e2, s2, EdgeRanks(pr, m2)[j]);
    assert g1.elabel[EdgeRanks(pr, m1)[i]] == Some(LabelOfEdge(e1));
    assert g2.elabel[EdgeRanks(pr, m2)[j]] == Some(LabelOfEdge(e2));
    SameEdgeLabelIff(e1, e2);
    if p[s1.from] == s2.from {
      assert Carries(m1, m2, p, e1.from, e2.from) && Carries(m1, m2, p, e1.to, e2.to);
    } else {
      assert Carries(m1, m2, p, e1.from, e2.to) && Carries(m1, m2, p, e1.to, e2.from);
    }
  }

  /** An isomorphism of graphs is one of the models they strip. */
  lemma GraphsToModels(pr: Printer, m1: Model, m2: Model, g1: Graph, g2: Graph, p: Perm)
    requires Faithful(pr) && Strips(pr, m1, g1) && Strips(pr, m2, g2) && GraphIso(g1, g2, p)
    ensures Isomorphic(m1, m2)
  {
    var n, d := |m1.nodes|, DirectedLabels(g1.elabel);
    var a, b := PlacedAll(n, d, g1.edges, p), PlacedAll(n, d, g2.edges, Id(n));
    var q := MultisetPermuted(a, b);
    forall i | 0 <= i < |m1.edges| ensures SameEdge(m1, m2, p, m1.edges[i], m2.edges[q[i]]) {
      assert a[i] == b[q[i]];
      PlacedSameEdge(pr, m1, m2, g1, g2, p, i, q[i]);
    }
    forall v | 0 <= v < n ensures SamePart(m1.nodes[v], m2.nodes[p[v]]) {
      assert g1.vlabel[v] == LabelOfNode(m1.nodes[v]) && g2.vlabel[p[v]] == LabelOfNode(m2.nodes[p[v]]);
      SameNodeLabelIff(m1.nodes[v], m2.nodes[p[v]]);
    }
    assert Isomorphism(m1, m2, p, q);
  }

  // ----- equal certificates come from the same labels

  lemma EdgeNamed(pr: Printer, m: Model, g: Graph, position: Perm, i: nat)
    requires Strips(pr, m, g) && ValidGraph(g) && IsPerm(|g.vlabel|, position) && i < |m.edges|
    ensures Named(g.elabel, PlacedAll(|g.vlabel|, DirectedLabels(g.elabel), g.edges,
                                      position)[i]).2 == Some(LabelOfEdge(m.edges[i]))
  {
    assert StripsEdge(m, m.edges[i], g.edges[i], EdgeRanks(pr, m)[i]);
  }

  lemma SortedFrom(s: seq<Triple>, t: seq<Triple>, i: nat) returns (k: nat)
    requires multiset(s) == multiset(t) && i < |s|
    ensures k < |t| && t[k] == s[i]
  {
    assert s[i] in multiset(t);
    k :| k < |t| && t[k] == s[i];
  }

  lemma CertificateLabels(pr: Printer, m: Model, g: Graph, position: Perm, i: nat) returns (k: nat)
    requires Strips(pr, m, g) && ValidGraph(g) && IsPerm(|g.vlabel|, position) && i < |m.edges|
    ensures k < |SortedEdges(g, position)|
    ensures NamedAll(g.elabel, SortedEdges(g, position))[k].2 == Some(LabelOfEdge(m.edges[i]))
  {
    EdgeNamed(pr, m, g, position, i);
    k := SortedFrom(PlacedAll(|g.vlabel|, DirectedLabels(g.elabel), g.edges, position), SortedEdges(g, position), i);
  }

  lemma CertificateLabelsOnly(pr: Printer, m: Model, g: Graph, position: Perm, k: nat)
    requires Strips(pr, m, g) && ValidGraph(g) && IsPerm(|g.vlabel|, position) && k < |SortedEdges(g, position)|
    ensures NamedAll(g.elabel, SortedEdges(g, position))[k].2.Some?
    ensures NamedAll(g.elabel, SortedEdges(g, position))[k].2.value in EdgeLabels(m)
  {
    var i := SortedFrom(SortedEdges(g, position), PlacedAll(|g.vlabel|, DirectedLabels(g.elabel), g.edges, position),
                        k);
    EdgeNamed(pr, m, g, position, i);
    assert EdgeLabels(m)[i] == LabelOfEdge(m.edges[i]);
  }

  lemma EqualCertificatesLabels(pr: Printer, m1: Model, m2: Model, g1: Graph, g2: Graph, pos1: Perm, pos2: Perm)
    requires Strips(pr, m1, g1) && Strips(pr, m2, g2) && ValidGraph(g1) && ValidGraph(g2)
    requires IsPerm(|g1.vlabel|, pos1) && IsPerm(|g2.vlabel|, pos2)
    requires CertificateOf(g1, pos1) == CertificateOf(g2, pos2)
    ensures SameLabels(m1, m2)
  {
    assert NamedAll(g1.elabel, SortedEdges(g1, pos1)) == NamedAll(g2.elabel, SortedEdges(g2, pos2));
    assert |m1.edges| == |SortedEdges(g1, pos1)| == |SortedEdges(g2, pos2)| == |m2.edges|;
    forall i: nat | i < |m1.edges| ensures LabelOfEdge(m1.edges[i]) in EdgeLabels(m2) {
      var k := CertificateLabels(pr, m1, g1, pos1, i);
      CertificateLabelsOnly(pr, m2, g2, pos2, k);
    }
    forall i: nat | i < |m2.edges| ensures LabelOfEdge(m2.edges[i]) in EdgeLabels(m1) {
      var k := CertificateLabels(pr, m2, g2, pos2, i);
      CertificateLabelsOnly(pr, m1, g1, pos1, k);
    }
  }

  lemma {:induction false} LeafCertificateHas(g: Graph, colour: Colouring, c: Certificate) returns (position: Perm)
    requires NodeColouring(g, colour) && c in LeafCertificates(g, colour)
    ensures IsPerm(|g.vlabel|, position) && CertificateOf(g, position) == c
    decreases |colour| - Cells(colour)
  {
    if Discrete(colour) {
      DiscretePerm(g, colour);
      position := colour;
    } else {
      var v :| v in Below(|colour|) && Branches(colour, v) && c in ChildCertificates(g, colour, v);
      ChildSplits(g, colour, v);
      position := LeafCertificateHas(g, Child(g, colour, v), c);
    }
  }

  /** A certificate the two graphs share makes them isomorphic. */
  lemma SharedCertificate(pr: Printer, m1: Model, m2: Model, g1: Graph, g2: Graph, c: Certificate)
    requires Faithful(pr) && Strips(pr, m1, g1) && Strips(pr, m2, g2) && ValidGraph(g1) && ValidGraph(g2)
    requires c in LeafCertificates(g1, Root(g1)) && c in LeafCertificates(g2, Root(g2))
    ensures Isomorphic(m1, m2)
  {
    var pos1 := LeafCertificateHas(g1, Root(g1), c);
    var pos2 := LeafCertificateHas(g2, Root(g2), c);
    EqualCertificatesLabels(pr, m1, m2, g1, g2, pos1, pos2);
    SameElabel(pr, m1, m2, g1, g2);
    CertificateDecides(g1, g2, pos1, pos2);
    GraphsToModels(pr, m1, m2, g1, g2, Match(|g1.vlabel|, pos1, pos2));
  }

  /** A graph's minimum is unique. */
  lemma MinimumUnique(dump: Certificate -> string, certs: set<Certificate>, s1: string, s2: string)
    requires exists c :: c in certs && dump(c) == s1
    requires exists c :: c in certs && dump(c) == s2
    requires forall c :: c in certs ==> StringLessEq(s1, dump(c)) && StringLessEq(s2, dump(c))
    ensures s1 == s2
  {
    StringOrder();
    assert StringLess(s1, s2) || s1 == s2 || StringLess(s2, s1);
  }

  /** Two canonical texts agree if and only if some renaming of the nodes turns one model's identity into the
      other's. */
  lemma CanonicalDecidesIsomorphism(pr: Printer, m1: Model, m2: Model, s1: string, s2: string)
    requires Faithful(pr) && WellFormedModel(m1) && WellFormedModel(m2)
    requires IsCanonical(pr, m1, s1) && IsCanonical(pr, m2, s2)
    ensures s1 == s2 <==> Isomorphic(m1, m2)
  {
    assert Unfold(0);
    var g1 :| Strips(pr, m1, g1) && ValidGraph(g1) && IsMinimum(g1, pr.cert, s1);
    var g2 :| Strips(pr, m2, g2) && ValidGraph(g2) && IsMinimum(g2, pr.cert, s2);
    if s1 == s2 {
      var c1 :| c1 in LeafCertificates(g1, Root(g1)) && pr.cert(c1) == s1;
      var c2 :| c2 in LeafCertificates(g2, Root(g2)) && pr.cert(c2) == s2;
      assert c1 == c2;
      SharedCertificate(pr, m1, m2, g1, g2, c1);
    }
    if Isomorphic(m1, m2) {
      var p, q :| Isomorphism(m1, m2, p, q);
      ModelsToGraphs(pr, m1, m2, g1, g2, p, q);
      TreeCarried(g1, g2, p);
      MinimumUnique(pr.cert, LeafCertificates(g1, Root(g1)), s1, s2);
    }
  }
}
