/** Stripping a model to its graph: keys become indices, labels become ranks of their printed form. */
module Stripping {
  import opened Wrappers
  import opened Orders
  import opened Permutations
  import opened Topology
  import opened Graphs
  import opened Refinement
  import opened Certificates
  import opened Pruning

  const MAX_NODES := 256

  datatype TopologyError = NodeCapExceeded | DuplicateKey | DanglingReference | LeafCapExceeded

  /** How labels and certificates are printed; printing is injective. */
  datatype Printer = Printer(node: NodeLabel -> string, edge: EdgeLabel -> string, cert: Certificate -> string)

  ghost predicate Faithful(pr: Printer) {
    Injective(pr.node) && Injective(pr.edge) && Injective(pr.cert)
  }

  function EdgeLabels(m: Model): (r: seq<EdgeLabel>)
    ensures |r| == |m.edges| && forall i :: 0 <= i < |r| ==> r[i] == LabelOfEdge(m.edges[i])
  {
    seq(|m.edges|, i requires 0 <= i < |m.edges| => LabelOfEdge(m.edges[i]))
  }

  function EdgeKeys(pr: Printer, m: Model): (r: seq<string>)
    ensures |r| == |m.edges| && forall i :: 0 <= i < |r| ==> r[i] == pr.edge(LabelOfEdge(m.edges[i]))
  {
    seq(|m.edges|, i requires 0 <= i < |m.edges| => pr.edge(LabelOfEdge(m.edges[i])))
  }

  function EdgeRanks(pr: Printer, m: Model): (r: seq<nat>)
    ensures |r| == |m.edges|
  {
    RankAll(StringLess, EdgeKeys(pr, m))
  }

  /** g is the graph of m. */
  ghost predicate Strips(pr: Printer, m: Model, g: Graph) {
    && StripsNodes(pr, m, g)
    && StripsLabels(pr, m, g.elabel)
    && StripsEdges(pr, m, g)
    && |g.adj| == |m.nodes| && (forall v :: 0 <= v < |g.adj| ==> g.adj[v] == ArcsAt(g.edges, v))
  }

  ghost predicate StripsNodes(pr: Printer, m: Model, g: Graph) {
    && |g.vlabel| == |g.vkey| == |m.nodes|
    && forall i :: 0 <= i < |m.nodes| ==> g.vlabel[i] == LabelOfNode(m.nodes[i]) && g.vkey[i] == pr.node(g.vlabel[i])
  }

  /** Labels sit at their ranks; the other places, one per repeated label, are null. */
  ghost predicate StripsLabels(pr: Printer, m: Model, elabel: seq<Option<EdgeLabel>>) {
    && |elabel| == |m.edges|
    && (forall i :: 0 <= i < |m.edges| ==>
          EdgeRanks(pr, m)[i] < |elabel| && elabel[EdgeRanks(pr, m)[i]] == Some(LabelOfEdge(m.edges[i])))
    && (forall r :: 0 <= r < |elabel| && elabel[r].Some? ==> r in EdgeRanks(pr, m))
  }

  ghost predicate StripsEdges(pr: Printer, m: Model, g: Graph) {
    && |g.edges| == |m.edges|
    && forall i :: 0 <= i < |m.edges| ==> StripsEdge(m, m.edges[i], g.edges[i], EdgeRanks(pr, m)[i])
  }

  ghost predicate StripsEdge(m: Model, e: Edge, stored: StoredEdge, rank: nat) {
    && stored.from < |m.nodes| && m.nodes[stored.from].key == e.from
    && stored.to < |m.nodes| && m.nodes[stored.to].key == e.to
    && stored.rank == rank && stored.directed == IsDirected(e.kind)
  }

  lemma RanksBounded(pr: Printer, m: Model, i: nat)
    requires i < |m.edges|
    ensures EdgeRanks(pr, m)[i] < |m.edges|
  {
    StringOrder();
    RankBounded(StringLess, Elements(EdgeKeys(pr, m)), EdgeKeys(pr, m)[i]);
    ElementsSize(EdgeKeys(pr, m));
  }

  /** Ranks decide labels. */
  lemma RanksDecide(pr: Printer, m: Model, i: nat, j: nat)
    requires Faithful(pr) && i < |m.edges| && j < |m.edges|
    ensures EdgeRanks(pr, m)[i] == EdgeRanks(pr, m)[j] <==> LabelOfEdge(m.edges[i]) == LabelOfEdge(m.edges[j])
  {
    StringOrder();
    RankAllOrder(StringLess, EdgeKeys(pr, m), i, j);
  }

  lemma StrippedDirections(pr: Printer, m: Model, g: Graph, i: nat)
    requires Strips(pr, m, g) && i < |g.edges|
    ensures g.edges[i].directed <==> g.edges[i].rank in DirectedLabels(g.elabel)
    ensures 0 <= g.edges[i].rank < |g.elabel| && g.elabel[g.edges[i].rank].Some?
  {
    assert StripsEdge(m, m.edges[i], g.edges[i], EdgeRanks(pr, m)[i]);
  }

  /** What strip returns is a well-formed graph. */
  lemma StrippedValid(pr: Printer, m: Model, g: Graph)
    requires Faithful(pr) && Strips(pr, m, g)
    ensures ValidGraph(g)
  {
    forall i | 0 <= i < |g.edges|
      ensures g.edges[i].from < |g.vlabel| && g.edges[i].to < |g.vlabel|
      ensures g.edges[i].directed <==> g.edges[i].rank in DirectedLabels(g.elabel)
      ensures 0 <= g.edges[i].rank < |g.elabel| && g.elabel[g.edges[i].rank].Some?
    {
      StrippedDirections(pr, m, g, i);
      assert StripsEdge(m, m.edges[i], g.edges[i], EdgeRanks(pr, m)[i]);
    }
    forall r, s | 0 <= r < |g.elabel| && 0 <= s < |g.elabel| && g.elabel[r].Some?
      && g.elabel[r] == g.elabel[s] ensures r == s {
      var i :| 0 <= i < |m.edges| && EdgeRanks(pr, m)[i] == r;
      var j :| 0 <= j < |m.edges| && EdgeRanks(pr, m)[j] == s;
      RanksDecide(pr, m, i, j);
    }
  }

  // ----- the loops of the source

  method IndexNodes(pr: Printer, m: Model) returns (r: Result<map<string, nat>, TopologyError>, vlabel: seq<NodeLabel>,
                                                    vkey: seq<string>)
    ensures r.Ok? <==> DistinctKeys(m)
    ensures r.Err? ==> r.error == DuplicateKey
    ensures r.Ok? ==> forall key :: key in r.value <==> HasKey(m, key)
    ensures r.Ok? ==> forall key :: key in r.value ==> r.value[key] < |m.nodes| && m.nodes[r.value[key]].key == key
    ensures r.Ok? ==> |vlabel| == |vkey| == |m.nodes|
    ensures r.Ok? ==> forall i :: 0 <= i < |m.nodes| ==>
              vlabel[i] == LabelOfNode(m.nodes[i]) && vkey[i] == pr.node(vlabel[i])
  {
    var index: map<string, nat> := map[];
    vlabel, vkey := [], [];
    for i := 0 to |m.nodes|
      invariant |vlabel| == |vkey| == i
      invariant forall k :: 0 <= k < i ==> m.nodes[k].key in index && index[m.nodes[k].key] == k
      invariant forall key :: key in index ==> index[key] < i && m.nodes[index[key]].key == key
      invariant forall k :: 0 <= k < i ==> vlabel[k] == LabelOfNode(m.nodes[k]) && vkey[k] == pr.node(vlabel[k])
    {
      var node := m.nodes[i];
      if node.key in index {
        assert m.nodes[index[node.key]].key == m.nodes[i].key;
        return Err(DuplicateKey), vlabel, vkey;
      }
      index := index[node.key := i];
      vlabel := vlabel + [LabelOfNode(node)];
      vkey := vkey + [pr.node(LabelOfNode(node))];
    }
    r := Ok(index);
    forall i, j | 0 <= i < j < |m.nodes| ensures m.nodes[i].key != m.nodes[j].key {
      assert index[m.nodes[i].key] == i && index[m.nodes[j].key] == j;
    }
  }

  method PlaceLabels(pr: Printer, m: Model) returns (elabel: seq<Option<EdgeLabel>>, ranks: seq<nat>)
    requires Faithful(pr)
    ensures ranks == EdgeRanks(pr, m) && StripsLabels(pr, m, elabel)
  {
    var labels := EdgeLabels(m);
    ranks := RankAll(StringLess, EdgeKeys(pr, m));
    elabel := seq(|labels|, _ => None);
    for i := 0 to |labels|
      invariant |elabel| == |m.edges| && LabelsPlaced(pr, m, elabel, i)
    {
      RanksBounded(pr, m, i);
      PlaceOne(pr, m, elabel, i);
      elabel := elabel[ranks[i] := Some(labels[i])];
    }
  }

  ghost predicate LabelsPlaced(pr: Printer, m: Model, elabel: seq<Option<EdgeLabel>>, n: nat)
    requires n <= |m.edges|
  {
    && (forall k :: 0 <= k < n ==>
          EdgeRanks(pr, m)[k] < |elabel| && elabel[EdgeRanks(pr, m)[k]] == Some(LabelOfEdge(m.edges[k])))
    && (forall r :: 0 <= r < |elabel| && elabel[r].Some? ==> r in EdgeRanks(pr, m))
  }

  lemma PlaceOne(pr: Printer, m: Model, elabel: seq<Option<EdgeLabel>>, i: nat)
    requires Faithful(pr) && i < |m.edges| == |elabel| && LabelsPlaced(pr, m, elabel, i)
    requires EdgeRanks(pr, m)[i] < |elabel|
    ensures LabelsPlaced(pr, m, elabel[EdgeRanks(pr, m)[i] := Some(LabelOfEdge(m.edges[i]))], i + 1)
  {
    var ranks := EdgeRanks(pr, m);
    forall k | 0 <= k < i ensures ranks[k] == ranks[i] ==> LabelOfEdge(m.edges[k]) == LabelOfEdge(m.edges[i]) {
      RanksDecide(pr, m, k, i);
    }
    assert ranks[i] in ranks;
  }

  /** The arcs pushed so far are those of the edges stored so far. */
  ghost predicate ArcsPushed(n: nat, edges: seq<StoredEdge>, adj: seq<seq<Arc>>) {
    |adj| == n && forall v :: 0 <= v < n ==> adj[v] == ArcsAt(edges, v)
  }

  method PushArcs(n: nat, ghost edges: seq<StoredEdge>, adj0: seq<seq<Arc>>, e: StoredEdge) returns (adj: seq<seq<Arc>>)
    requires ArcsPushed(n, edges, adj0) && e.from < n && e.to < n
    ensures ArcsPushed(n, edges + [e], adj)
  {
    adj := adj0[e.from := adj0[e.from] + [Arc(e.rank, if e.directed then OUT else UNDIRECTED, e.to)]];
    adj := adj[e.to := adj[e.to] + [Arc(e.rank, if e.directed then IN else UNDIRECTED, e.from)]];
    ghost var longer := edges + [e];
    assert longer[..|longer| - 1] == edges;
    forall v | 0 <= v < n ensures adj[v] == ArcsAt(longer, v) {
      assert ArcsAt(longer, v) == ArcsAt(edges, v) + EdgeArcs(e, v);
    }
  }

  method StoreEdges(m: Model, index: map<string, nat>, ranks: seq<nat>)
    returns (ok: bool, edges: seq<StoredEdge>, adj: seq<seq<Arc>>)
    requires |ranks| == |m.edges|
    requires forall key :: key in index <==> HasKey(m, key)
    requires forall key :: key in index ==> index[key] < |m.nodes| && m.nodes[index[key]].key == key
    ensures ok <==> NoDangling(m)
    ensures ok ==> |edges| == |m.edges| && forall i :: 0 <= i < |edges| ==>
              StripsEdge(m, m.edges[i], edges[i], ranks[i])
    ensures ok ==> ArcsPushed(|m.nodes|, edges, adj)
  {
    edges, adj := [], seq(|m.nodes|, _ => []);
    for i := 0 to |m.edges|
      invariant |edges| == i && ArcsPushed(|m.nodes|, edges, adj)
      invariant forall k :: 0 <= k < i ==> HasKey(m, m.edges[k].from) && HasKey(m, m.edges[k].to)
      invariant forall k :: 0 <= k < i ==> StripsEdge(m, m.edges[k], edges[k], ranks[k])
    {
      var e := m.edges[i];
      if e.from !in index || e.to !in index {
        return false, edges, adj;
      }
      var stored := StoredEdge(index[e.from], index[e.to], ranks[i], IsDirected(e.kind));
      adj := PushArcs(|m.nodes|, edges, adj, stored);
      edges := edges + [stored];
    }
    ok := true;
  }

  method Strip(pr: Printer, m: Model) returns (r: Result<Graph, TopologyError>)
    requires Faithful(pr)
    ensures r == Err(NodeCapExceeded) <==> |m.nodes| > 256
    ensures r == Err(DuplicateKey) <==> |m.nodes| <= 256 && !DistinctKeys(m)
    ensures r == Err(DanglingReference) <==> |m.nodes| <= 256 && DistinctKeys(m) && !NoDangling(m)
    ensures r != Err(LeafCapExceeded)
    ensures r.Ok? ==> Strips(pr, m, r.value) && ValidGraph(r.value)
  {
    if |m.nodes| > MAX_NODES {
      return Err(NodeCapExceeded);
    }
    var index, vlabel, vkey := IndexNodes(pr, m);
    if index.Err? {
      return Err(DuplicateKey);
    }
    var elabel, ranks := PlaceLabels(pr, m);
    var ok, edges, adj := StoreEdges(m, index.value, ranks);
    if !ok {
      return Err(DanglingReference);
    }
    var g := Graph(vkey, vlabel, elabel, adj, edges);
    StrippedValid(pr, m, g);
    r := Ok(g);
  }
}
