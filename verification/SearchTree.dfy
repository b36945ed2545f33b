/** The unpruned individualisation-refinement tree, and why automorphisms make parts of it redundant. */
module SearchTree {
  import opened Orders
  import opened Permutations
  import opened Graphs
  import opened Refinement
  import opened Certificates
  import opened Twins

  // ----- cells

  predicate Discrete(colour: Colouring) {
    forall u, v :: 0 <= u < v < |colour| ==> colour[u] != colour[v]
  }

  /** The vertices of colour c, ascending. */
  function CellOf(colour: Colouring, c: nat): (cell: seq<nat>)
    ensures forall v: nat :: v in cell <==> v < |colour| && colour[v] == c
    ensures Distinct(cell)
  {
    if colour == [] then []
    else
      var m := |colour| - 1;
      var cell := CellOf(colour[..m], c);
      assert forall v: nat :: v in cell <==> v < m && colour[v] == c;
      if colour[m] == c then cell + [m] else cell
  }

  ghost predicate OpenColour(colour: Colouring, c: nat) {
    exists u, v :: 0 <= u < v < |colour| && colour[u] == c && colour[v] == c
  }

  /** The first colour shared by two vertices. */
  ghost predicate FirstOpen(colour: Colouring, c: nat) {
    OpenColour(colour, c) && forall d: nat :: d < c ==> !OpenColour(colour, d)
  }

  lemma {:induction false} LeastOpenBelow(colour: Colouring, c: nat) returns (least: nat)
    requires OpenColour(colour, c)
    ensures FirstOpen(colour, least)
  {
    if d: nat :| d < c && OpenColour(colour, d) {
      least := LeastOpenBelow(colour, d);
    } else {
      least := c;
    }
  }

  lemma FirstOpenExists(colour: Colouring)
    requires !Discrete(colour)
    ensures exists c: nat :: FirstOpen(colour, c)
  {
    var u, v :| 0 <= u < v < |colour| && colour[u] == colour[v];
    assert OpenColour(colour, colour[u]);
    var c := LeastOpenBelow(colour, colour[u]);
  }

  /** The colour of the first non-singleton cell. */
  ghost function Target(colour: Colouring): (c: nat)
    requires !Discrete(colour)
    ensures FirstOpen(colour, c)
  {
    FirstOpenExists(colour);
    var c: nat :| FirstOpen(colour, c);
    c
  }

  lemma TargetUnique(colour: Colouring, c: nat)
    requires !Discrete(colour) && FirstOpen(colour, c)
    ensures c == Target(colour)
  {
    var t := Target(colour);
    assert t < c || c < t || t == c;
  }

  /** v is a branching vertex of the node coloured colour. */
  ghost predicate Branches(colour: Colouring, v: nat) {
    !Discrete(colour) && v < |colour| && colour[v] == Target(colour)
  }

  lemma BranchHasPeer(colour: Colouring, v: nat)
    requires Branches(colour, v)
    ensures exists w: nat :: w < |colour| && w != v && colour[w] == colour[v]
  {
    var x, y :| 0 <= x < y < |colour| && colour[x] == Target(colour) && colour[y] == Target(colour);
    assert v != x || v != y;
  }

  // ----- children

  /** v comes right before the rest of its cell; the order of the cells stays as it was. */
  function Individualised(colour: Colouring, v: nat): (next: Colouring)
    requires v < |colour|
    ensures |next| == |colour|
  {
    seq(|colour|, x requires 0 <= x < |colour| => if x == v then 2 * colour[x] else 2 * colour[x] + 1)
  }

  /** A node's colouring: one colour per vertex, dense ranks. */
  ghost predicate NodeColouring(g: Graph, colour: Colouring) {
    ValidGraph(g) && |colour| == |g.vlabel| && Colours(g, colour) && Dense(colour)
  }

  ghost function Child(g: Graph, colour: Colouring, v: nat): (next: Colouring)
    requires NodeColouring(g, colour) && v < |colour|
    ensures NodeColouring(g, next)
  {
    RefinedKeepsOrder(g, Individualised(colour, v));
    Refined(g, Individualised(colour, v))
  }

  lemma ChildSplits(g: Graph, colour: Colouring, v: nat)
    requires NodeColouring(g, colour) && v < |colour|
    ensures KeepsOrder(Child(g, colour, v), colour)
    ensures forall w :: 0 <= w < |colour| && w != v && colour[w] == colour[v] ==>
              Child(g, colour, v)[v] < Child(g, colour, v)[w]
    ensures Branches(colour, v) ==> Cells(colour) < Cells(Child(g, colour, v)) <= |colour|
  {
    var ind, child := Individualised(colour, v), Child(g, colour, v);
    RefinedKeepsOrder(g, ind);
    forall w | 0 <= w < |colour| && w != v && colour[w] == colour[v] ensures child[v] < child[w] {
      assert ind[v] < ind[w];
    }
    forall a, b | 0 <= a < |colour| && 0 <= b < |colour| && colour[a] < colour[b] ensures child[a] < child[b] {
      assert ind[a] < ind[b];
    }
    if Branches(colour, v) {
      SplitGrows(colour, child, v);
    }
  }

  /** A colouring that keeps the order of another and splits one of its cells has more cells. */
  lemma SplitGrows(colour: Colouring, child: Colouring, v: nat)
    requires Branches(colour, v) && |child| == |colour| && KeepsOrder(child, colour)
    requires forall w :: 0 <= w < |colour| && w != v && colour[w] == colour[v] ==> child[v] < child[w]
    ensures Cells(colour) < Cells(child) <= |colour|
  {
    CellsBounded(child);
    KeepsOrderFiner(child, colour);
    FinerCells(child, colour);
    BranchHasPeer(colour, v);
    var w: nat :| w < |colour| && w != v && colour[w] == colour[v];
    assert child[v] != child[w];
  }

  // ----- the tree

  ghost function Initial(g: Graph): Colouring {
    RankAll(StringLess, g.vkey)
  }

  ghost function Root(g: Graph): (colour: Colouring)
    requires ValidGraph(g)
    ensures NodeColouring(g, colour)
  {
    ValidColours(g, Initial(g));
    RefinedKeepsOrder(g, Initial(g));
    Refined(g, Initial(g))
  }

  /** The colouring of the node reached by individualising path, root first. */
  ghost function ColourAt(g: Graph, path: seq<nat>): (colour: Colouring)
    requires ValidGraph(g) && forall i :: 0 <= i < |path| ==> path[i] < |g.vlabel|
    ensures NodeColouring(g, colour)
  {
    if path == [] then Root(g)
    else Child(g, ColourAt(g, path[..|path| - 1]), path[|path| - 1])
  }

  /** path leads to a node of the tree. */
  ghost predicate InTree(g: Graph, path: seq<nat>)
    requires ValidGraph(g)
  {
    && (forall i :: 0 <= i < |path| ==> path[i] < |g.vlabel|)
    && forall i {:trigger path[..i]} :: 0 <= i < |path| ==> Branches(ColourAt(g, path[..i]), path[i])
  }

  ghost predicate IsLeaf(g: Graph, path: seq<nat>)
    requires ValidGraph(g)
  {
    InTree(g, path) && Discrete(ColourAt(g, path))
  }

  lemma DiscretePerm(g: Graph, colour: Colouring)
    requires NodeColouring(g, colour) && Discrete(colour)
    ensures IsPerm(|g.vlabel|, colour)
  {
    DistinctSize(colour);
    forall i | 0 <= i < |colour| ensures colour[i] < |colour| {
      assert colour[i] in Elements(colour);
    }
  }

  /** The certificates of all leaves below the node coloured colour. */
  ghost function LeafCertificates(g: Graph, colour: Colouring): set<Certificate>
    requires NodeColouring(g, colour)
    decreases |colour| - Cells(colour)
  {
    if Discrete(colour) then
      DiscretePerm(g, colour);
      {CertificateOf(g, colour)}
    else
      set v, c | v in Below(|colour|) && Branches(colour, v) && c in ChildCertificates(g, colour, v) :: c
  }

  ghost function ChildCertificates(g: Graph, colour: Colouring, v: nat): set<Certificate>
    requires NodeColouring(g, colour) && Branches(colour, v)
    decreases |colour| - Cells(colour), 0
  {
    ChildSplits(g, colour, v);
    LeafCertificates(g, Child(g, colour, v))
  }

  // ----- going down a path

  lemma KeepsOrderTransitive(a: Colouring, b: Colouring, c: Colouring)
    requires KeepsOrder(a, b) && KeepsOrder(b, c)
    ensures KeepsOrder(a, c)
  {
  }

  lemma InTreePrefix(g: Graph, path: seq<nat>, i: nat)
    requires ValidGraph(g) && InTree(g, path) && i <= |path|
    ensures InTree(g, path[..i])
  {
    forall j | 0 <= j < i ensures path[..i][..j] == path[..j] {
    }
  }

  lemma OneStepDown(g: Graph, path: seq<nat>, i: nat)
    requires ValidGraph(g) && InTree(g, path) && i < |path|
    ensures InTree(g, path[..i]) && Branches(ColourAt(g, path[..i]), path[i])
    ensures ColourAt(g, path[..i + 1]) == Child(g, ColourAt(g, path[..i]), path[i])
  {
    InTreePrefix(g, path, i);
    assert path[..i + 1][..i] == path[..i] && path[..i + 1][i] == path[i];
  }

  lemma StepKeepsOrder(g: Graph, path: seq<nat>, i: nat)
    requires ValidGraph(g) && InTree(g, path) && i < |path|
    ensures InTree(g, path[..i]) && InTree(g, path[..i + 1])
    ensures KeepsOrder(ColourAt(g, path[..i + 1]), ColourAt(g, path[..i]))
  {
    InTreePrefix(g, path, i + 1);
    OneStepDown(g, path, i);
    ChildSplits(g, ColourAt(g, path[..i]), path[i]);
  }

  lemma {:induction false} PathKeepsOrder(g: Graph, path: seq<nat>, i: nat)
    requires ValidGraph(g) && InTree(g, path) && i <= |path|
    ensures KeepsOrder(ColourAt(g, path), ColourAt(g, path[..i]))
    decreases |path| - i
  {
    if i == |path| {
      assert path[..i] == path;
    } else {
      PathKeepsOrder(g, path, i + 1);
      StepKeepsOrder(g, path, i);
      KeepsOrderTransitive(ColourAt(g, path), ColourAt(g, path[..i + 1]), ColourAt(g, path[..i]));
    }
  }

  lemma InTreeExtend(g: Graph, path: seq<nat>, v: nat)
    requires ValidGraph(g) && InTree(g, path) && Branches(ColourAt(g, path), v)
    ensures InTree(g, path + [v])
  {
    var longer := path + [v];
    forall i {:trigger longer[..i]} | 0 <= i < |longer|
      ensures longer[i] < |g.vlabel| && Branches(ColourAt(g, longer[..i]), longer[i])
    {
      LongerBranches(g, path, v, i);
    }
    assert forall i :: 0 <= i < |longer| ==> longer[i] == if i < |path| then path[i] else v;
  }

  lemma LongerBranches(g: Graph, path: seq<nat>, v: nat, i: nat)
    requires ValidGraph(g) && InTree(g, path) && Branches(ColourAt(g, path), v) && i <= |path|
    ensures var longer := path + [v]; longer[i] < |g.vlabel| && Branches(ColourAt(g, longer[..i]), longer[i])
  {
    var longer := path + [v];
    if i < |path| {
      assert longer[..i] == path[..i];
    } else {
      assert longer[..i] == path;
    }
  }

  /** At every node below, the vertex individualised at depth i comes before the rest of its cell. */
  lemma ChosenComesFirst(g: Graph, path: seq<nat>, i: nat, w: nat)
    requires ValidGraph(g) && InTree(g, path) && i < |path| && w < |g.vlabel| && w != path[i]
    requires ColourAt(g, path[..i])[w] == ColourAt(g, path[..i])[path[i]]
    ensures ColourAt(g, path)[path[i]] < ColourAt(g, path)[w]
  {
    OneStepDown(g, path, i);
    ChildSplits(g, ColourAt(g, path[..i]), path[i]);
    PathKeepsOrder(g, path, i + 1);
  }

  /** So a vertex on the path shares its colour with no other vertex. */
  lemma PathVertexAlone(g: Graph, path: seq<nat>, i: nat, w: nat)
    requires ValidGraph(g) && InTree(g, path) && i < |path| && w < |g.vlabel| && w != path[i]
    ensures ColourAt(g, path)[path[i]] != ColourAt(g, path)[w]
  {
    if ColourAt(g, path[..i])[w] == ColourAt(g, path[..i])[path[i]] {
      ChosenComesFirst(g, path, i, w);
    } else {
      PathKeepsOrder(g, path, i);
    }
  }

  /** A leaf below a node carries one of the node's certificates. */
  lemma {:induction false} LeafIsBelow(g: Graph, path: seq<nat>, i: nat)
    requires ValidGraph(g) && IsLeaf(g, path) && i <= |path|
    ensures InTree(g, path[..i]) && IsPerm(|g.vlabel|, ColourAt(g, path))
    ensures CertificateOf(g, ColourAt(g, path)) in LeafCertificates(g, ColourAt(g, path[..i]))
    decreases |path| - i
  {
    InTreePrefix(g, path, i);
    DiscretePerm(g, ColourAt(g, path));
    if i == |path| {
      assert path[..i] == path;
    } else {
      OneStepDown(g, path, i);
      LeafIsBelow(g, path, i + 1);
      assert CertificateOf(g, ColourAt(g, path)) in ChildCertificates(g, ColourAt(g, path[..i]), path[i]);
    }
  }

  // ----- isomorphisms carry the whole tree

  lemma OpenCarried(n: nat, p: Perm, c1: Colouring, c2: Colouring, c: nat)
    requires IsPerm(n, p) && Carried(p, c1, c2)
    ensures OpenColour(c1, c) <==> OpenColour(c2, c)
  {
    if OpenColour(c1, c) {
      var u, v :| 0 <= u < v < |c1| && c1[u] == c && c1[v] == c;
      assert c2[p[u]] == c && c2[p[v]] == c && p[u] != p[v];
      assert p[u] < p[v] || p[v] < p[u];
    }
    if OpenColour(c2, c) {
      var x, y :| 0 <= x < y < |c2| && c2[x] == c && c2[y] == c;
      var u, v := Preimage(n, p, x), Preimage(n, p, y);
      assert c1[u] == c && c1[v] == c && u != v;
      assert u < v || v < u;
    }
  }

  lemma DiscreteIffClosed(colour: Colouring)
    ensures Discrete(colour) <==> forall c: nat :: !OpenColour(colour, c)
  {
    if !Discrete(colour) {
      FirstOpenExists(colour);
    }
  }

  lemma TargetCarried(n: nat, p: Perm, c1: Colouring, c2: Colouring)
    requires IsPerm(n, p) && Carried(p, c1, c2)
    ensures Discrete(c1) <==> Discrete(c2)
    ensures !Discrete(c1) ==> Target(c1) == Target(c2)
    ensures forall v :: 0 <= v < n ==> (Branches(c1, v) <==> Branches(c2, p[v]))
  {
    forall c: nat ensures OpenColour(c1, c) <==> OpenColour(c2, c) { OpenCarried(n, p, c1, c2, c); }
    DiscreteIffClosed(c1);
    DiscreteIffClosed(c2);
    if !Discrete(c1) {
      assert FirstOpen(c2, Target(c1));
      TargetUnique(c2, Target(c1));
    }
  }

  lemma ChildCarried(g1: Graph, g2: Graph, p: Perm, c1: Colouring, c2: Colouring, v: nat)
    requires GraphIso(g1, g2, p) && NodeColouring(g1, c1) && NodeColouring(g2, c2) && Carried(p, c1, c2) && v < |p|
    ensures Carried(p, Child(g1, c1, v), Child(g2, c2, p[v]))
  {
    forall x | 0 <= x < |p| ensures Individualised(c2, p[v])[p[x]] == Individualised(c1, v)[x] {
      assert p[x] == p[v] <==> x == v;
    }
    RefinedCarried(g1, g2, p, Individualised(c1, v), Individualised(c2, p[v]));
  }

  lemma {:induction false} CertificatesCarried(g1: Graph, g2: Graph, p: Perm, c1: Colouring, c2: Colouring)
    requires GraphIso(g1, g2, p) && NodeColouring(g1, c1) && NodeColouring(g2, c2) && Carried(p, c1, c2)
    ensures LeafCertificates(g1, c1) == LeafCertificates(g2, c2)
    decreases |c1| - Cells(c1)
  {
    var n := |p|;
    TargetCarried(n, p, c1, c2);
    if Discrete(c1) {
      DiscretePerm(g1, c1);
      DiscretePerm(g2, c2);
      CertificateCarried(g1, g2, p, c1, c2);
    } else {
      forall v: nat | v < n && Branches(c1, v)
        ensures ChildCertificates(g1, c1, v) == ChildCertificates(g2, c2, p[v])
      {
        ChildSplits(g1, c1, v);
        ChildCarried(g1, g2, p, c1, c2, v);
        CertificatesCarried(g1, g2, p, Child(g1, c1, v), Child(g2, c2, p[v]));
      }
      UnionCarried(g1, g2, p, c1, c2);
    }
  }

  lemma UnionCarried(g1: Graph, g2: Graph, p: Perm, c1: Colouring, c2: Colouring)
    requires NodeColouring(g1, c1) && NodeColouring(g2, c2) && IsPerm(|c1|, p) && |c1| == |c2|
    requires !Discrete(c1) && !Discrete(c2)
    requires forall v :: 0 <= v < |p| ==> (Branches(c1, v) <==> Branches(c2, p[v]))
    requires forall v: nat :: v < |p| && Branches(c1, v) ==>
              ChildCertificates(g1, c1, v) == ChildCertificates(g2, c2, p[v])
    ensures LeafCertificates(g1, c1) == LeafCertificates(g2, c2)
  {
    forall c | c in LeafCertificates(g1, c1) ensures c in LeafCertificates(g2, c2) {
      var v :| v in Below(|c1|) && Branches(c1, v) && c in ChildCertificates(g1, c1, v);
      BelowChild(g2, c2, p[v], c);
    }
    forall c | c in LeafCertificates(g2, c2) ensures c in LeafCertificates(g1, c1) {
      var w :| w in Below(|c1|) && Branches(c2, w) && c in ChildCertificates(g2, c2, w);
      BelowChild(g1, c1, Preimage(|c1|, p, w), c);
    }
  }

  lemma BelowChild(g: Graph, colour: Colouring, v: nat, cert: Certificate)
    requires NodeColouring(g, colour) && !Discrete(colour) && v < |colour| && Branches(colour, v)
    requires cert in ChildCertificates(g, colour, v)
    ensures cert in LeafCertificates(g, colour)
  {
    assert v in Below(|colour|);
  }

  lemma RootCarried(g1: Graph, g2: Graph, p: Perm)
    requires GraphIso(g1, g2, p)
    ensures Carried(p, Root(g1), Root(g2))
  {
    RanksCarried(StringLess, |p|, p, g1.vkey, g2.vkey);
    ValidColours(g1, Initial(g1));
    ValidColours(g2, Initial(g2));
    RefinedCarried(g1, g2, p, Initial(g1), Initial(g2));
  }

  /** Isomorphic graphs have the same leaf certificates: the tree depends on the class only. */
  lemma TreeCarried(g1: Graph, g2: Graph, p: Perm)
    requires GraphIso(g1, g2, p)
    ensures LeafCertificates(g1, Root(g1)) == LeafCertificates(g2, Root(g2))
  {
    RootCarried(g1, g2, p);
    CertificatesCarried(g1, g2, p, Root(g1), Root(g2));
  }

  // ----- automorphisms that fix a node's path

  lemma {:induction false} FixedPathCarried(g: Graph, p: Perm, path: seq<nat>)
    requires Automorphism(g, p) && InTree(g, path) && Fixes(p, path)
    ensures Carried(p, ColourAt(g, path), ColourAt(g, path))
  {
    if path == [] {
      RootCarried(g, g, p);
    } else {
      var up, v := path[..|path| - 1], path[|path| - 1];
      InTreePrefix(g, path, |path| - 1);
      assert Fixes(p, up);
      FixedPathCarried(g, p, up);
      ChildCarried(g, g, p, ColourAt(g, up), ColourAt(g, up), v);
      assert p[v] == v;
    }
  }

  /** Children exchanged by an automorphism fixing the path have the same leaf certificates. */
  lemma ExchangedChildren(g: Graph, p: Perm, path: seq<nat>, v: nat)
    requires Automorphism(g, p) && InTree(g, path) && Fixes(p, path)
    requires Branches(ColourAt(g, path), v)
    ensures Branches(ColourAt(g, path), p[v])
    ensures ChildCertificates(g, ColourAt(g, path), v) == ChildCertificates(g, ColourAt(g, path), p[v])
  {
    var c := ColourAt(g, path);
    FixedPathCarried(g, p, path);
    TargetCarried(|p|, p, c, c);
    ChildCarried(g, g, p, c, c, v);
    CertificatesCarried(g, g, p, Child(g, c, v), Child(g, c, p[v]));
  }

  /** The transposition of two vertices of one cell moves no vertex of the path. */
  lemma TwinsFixPath(g: Graph, path: seq<nat>, u: nat, v: nat)
    requires ValidGraph(g) && InTree(g, path) && u < |g.vlabel| && v < |g.vlabel| && u != v
    requires ColourAt(g, path)[u] == ColourAt(g, path)[v]
    requires EdgesCarried(|g.vlabel|, DirectedLabels(g.elabel), g.edges, g.edges, Swap(|g.vlabel|, u, v))
    ensures Automorphism(g, Swap(|g.vlabel|, u, v)) && Fixes(Swap(|g.vlabel|, u, v), path)
  {
    SameColourSameLabel(g, path, u, v);
    SwapAutomorphism(g, u, v);
    forall i | 0 <= i < |path| ensures path[i] != u && path[i] != v {
      if path[i] == u {
        PathVertexAlone(g, path, i, v);
      } else if path[i] == v {
        PathVertexAlone(g, path, i, u);
      }
    }
  }

  lemma SameColourSameLabel(g: Graph, path: seq<nat>, u: nat, v: nat)
    requires ValidGraph(g) && InTree(g, path) && u < |g.vlabel| && v < |g.vlabel|
    requires ColourAt(g, path)[u] == ColourAt(g, path)[v]
    ensures g.vkey[u] == g.vkey[v]
  {
    PathKeepsOrder(g, path, 0);
    KeepsOrderFiner(ColourAt(g, path), ColourAt(g, path[..0]));
    assert Root(g)[u] == Root(g)[v];
    ValidColours(g, Initial(g));
    RefinedKeepsOrder(g, Initial(g));
    KeepsOrderFiner(Root(g), Initial(g));
    assert Initial(g)[u] == Initial(g)[v];
    StringOrder();
    RankAllOrder(StringLess, g.vkey, u, v);
  }

  // ----- two leaves with equal certificates

  ghost function Gamma(g: Graph, path1: seq<nat>, path2: seq<nat>): (gamma: Perm)
    requires ValidGraph(g) && IsLeaf(g, path1) && IsLeaf(g, path2)
    ensures IsPerm(|g.vlabel|, gamma)
    ensures forall v :: 0 <= v < |g.vlabel| ==> ColourAt(g, path2)[gamma[v]] == ColourAt(g, path1)[v]
  {
    DiscretePerm(g, ColourAt(g, path1));
    DiscretePerm(g, ColourAt(g, path2));
    Match(|g.vlabel|, ColourAt(g, path1), ColourAt(g, path2))
  }

  lemma GammaAutomorphism(g: Graph, path1: seq<nat>, path2: seq<nat>)
    requires ValidGraph(g) && IsLeaf(g, path1) && IsLeaf(g, path2)
    requires IsPerm(|g.vlabel|, ColourAt(g, path1)) && IsPerm(|g.vlabel|, ColourAt(g, path2))
    requires CertificateOf(g, ColourAt(g, path1)) == CertificateOf(g, ColourAt(g, path2))
    ensures Automorphism(g, Gamma(g, path1, path2))
  {
    CertificateDecides(g, g, ColourAt(g, path1), ColourAt(g, path2));
  }

  /** While gamma carries the node on one path onto the node on the other, it maps the chosen vertex
      onto the chosen vertex: each is the first of its cell in its leaf's order. */
  lemma GammaMapsChosen(g: Graph, path1: seq<nat>, path2: seq<nat>, i: nat)
    requires ValidGraph(g) && IsLeaf(g, path1) && IsLeaf(g, path2) && i < |path1| && i < |path2|
    requires InTree(g, path1[..i]) && InTree(g, path2[..i])
    requires Carried(Gamma(g, path1, path2), ColourAt(g, path1[..i]), ColourAt(g, path2[..i]))
    ensures Gamma(g, path1, path2)[path1[i]] == path2[i]
  {
    var n, gamma := |g.vlabel|, Gamma(g, path1, path2);
    var c1, c2 := ColourAt(g, path1[..i]), ColourAt(g, path2[..i]);
    TargetCarried(n, gamma, c1, c2);
    OneStepDown(g, path1, i);
    OneStepDown(g, path2, i);
    var v1, v2 := path1[i], path2[i];
    if gamma[v1] != v2 {
      ChosenComesFirst(g, path2, i, gamma[v1]);
      var u := Preimage(n, gamma, v2);
      ChosenComesFirst(g, path1, i, u);
    }
  }

  /** gamma carries the node at depth i of the one path onto that of the other. */
  ghost predicate Aligned(g: Graph, path1: seq<nat>, path2: seq<nat>, i: nat)
    requires ValidGraph(g) && IsLeaf(g, path1) && IsLeaf(g, path2) && i <= |path1| && i <= |path2|
  {
    && InTree(g, path1[..i]) && InTree(g, path2[..i])
    && Carried(Gamma(g, path1, path2), ColourAt(g, path1[..i]), ColourAt(g, path2[..i]))
  }

  lemma GammaStep(g: Graph, path1: seq<nat>, path2: seq<nat>, i: nat)
    requires ValidGraph(g) && IsLeaf(g, path1) && IsLeaf(g, path2) && i < |path1| && i < |path2|
    requires Automorphism(g, Gamma(g, path1, path2))
    requires Aligned(g, path1, path2, i)
    ensures Gamma(g, path1, path2)[path1[i]] == path2[i]
    ensures Aligned(g, path1, path2, i + 1)
  {
    GammaMapsChosen(g, path1, path2, i);
    OneStepDown(g, path1, i);
    OneStepDown(g, path2, i);
    InTreePrefix(g, path1, i + 1);
    InTreePrefix(g, path2, i + 1);
    ChildCarried(g, g, Gamma(g, path1, path2), ColourAt(g, path1[..i]), ColourAt(g, path2[..i]), path1[i]);
  }

  lemma GammaBase(g: Graph, path1: seq<nat>, path2: seq<nat>)
    requires ValidGraph(g) && IsLeaf(g, path1) && IsLeaf(g, path2)
    requires Automorphism(g, Gamma(g, path1, path2))
    ensures Aligned(g, path1, path2, 0)
  {
    assert path1[..0] == [] && path2[..0] == [];
    RootCarried(g, g, Gamma(g, path1, path2));
  }

  lemma {:induction false} GammaAligns(g: Graph, path1: seq<nat>, path2: seq<nat>, i: nat, k: nat)
    requires ValidGraph(g) && IsLeaf(g, path1) && IsLeaf(g, path2) && i <= k <= |path1| && k <= |path2|
    requires Automorphism(g, Gamma(g, path1, path2)) && Aligned(g, path1, path2, i)
    ensures Aligned(g, path1, path2, k)
    decreases k - i
  {
    if i < k {
      GammaStep(g, path1, path2, i);
      GammaAligns(g, path1, path2, i + 1, k);
    }
  }

  /** gamma takes each vertex of the one path to the vertex in the same place of the other. */
  lemma GammaMapsPath(g: Graph, path1: seq<nat>, path2: seq<nat>, i: nat)
    requires ValidGraph(g) && IsLeaf(g, path1) && IsLeaf(g, path2) && i < |path1| && i < |path2|
    requires Automorphism(g, Gamma(g, path1, path2))
    ensures Gamma(g, path1, path2)[path1[i]] == path2[i]
  {
    GammaBase(g, path1, path2);
    GammaAligns(g, path1, path2, 0, i);
    GammaStep(g, path1, path2, i);
  }
}
