/** Why each pruning is sound, stated over nodes of the tree named by their paths. */
module Pruning {
  import opened Orders
  import opened Permutations
  import opened PermGroups
  import opened Graphs
  import opened Refinement
  import opened Certificates
  import opened Twins
  import opened SearchTree

  ghost predicate Injective<T(!new), U>(f: T -> U) {
    forall a, b :: f(a) == f(b) ==> a == b
  }

  /** The definitions below stay folded until a proof mentions Unfold, which keeps the search's own
      proof obligations about paths and certificates, not about colourings. */
  ghost predicate Unfold(t: int) { true }

  /** path leads to a node. */
  ghost predicate TreeNode(g: Graph, path: seq<nat>) {
    forall t {:trigger Unfold(t)} :: Unfold(t) ==> ValidGraph(g) && InTree(g, path)
  }

  /** path leads to a node with this colouring. */
  ghost predicate Coloured(g: Graph, path: seq<nat>, colour: Colouring) {
    forall t {:trigger Unfold(t)} :: Unfold(t) ==>
      ValidGraph(g) && InTree(g, path) && colour == ColourAt(g, path)
  }

  /** path leads to a leaf with this ordering of the vertices. */
  ghost predicate LeafNode(g: Graph, path: seq<nat>, position: seq<nat>) {
    forall t {:trigger Unfold(t)} :: Unfold(t) ==>
      ValidGraph(g) && IsLeaf(g, path) && position == ColourAt(g, path) && IsPerm(|g.vlabel|, position)
  }

  /** v is a child of the node at path. */
  ghost predicate ChildOf(g: Graph, path: seq<nat>, v: nat) {
    forall t {:trigger Unfold(t)} :: Unfold(t) ==>
      ValidGraph(g) && InTree(g, path) && Branches(ColourAt(g, path), v)
  }

  ghost predicate Symmetry(g: Graph, p: Perm) {
    forall t {:trigger Unfold(t)} :: Unfold(t) ==> Automorphism(g, p)
  }

  ghost predicate AllSymmetries(g: Graph, gens: set<Perm>) {
    forall t {:trigger Unfold(t)} :: Unfold(t) ==>
      ValidGraph(g) && forall s :: s in gens ==> Automorphism(g, s)
  }

  ghost predicate AllLeaves(g: Graph, visited: set<seq<nat>>) {
    forall t {:trigger Unfold(t)} :: Unfold(t) ==>
      ValidGraph(g) && forall q :: q in visited ==> IsLeaf(g, q)
  }

  /** cert is the printed certificate of the ordering. */
  ghost predicate Prints(g: Graph, dump: Certificate -> string, position: seq<nat>, cert: string) {
    forall t {:trigger Unfold(t)} :: Unfold(t) ==>
      ValidGraph(g) && IsPerm(|g.vlabel|, position) && cert == dump(CertificateOf(g, position))
  }

  /** cert is no larger than any leaf certificate below the node at path. */
  ghost predicate Covers(g: Graph, dump: Certificate -> string, cert: string, path: seq<nat>) {
    forall t {:trigger Unfold(t)} :: Unfold(t) ==>
      && ValidGraph(g) && InTree(g, path)
      && forall c :: c in LeafCertificates(g, ColourAt(g, path)) ==> StringLessEq(cert, dump(c))
  }

  // ----- nodes and children

  lemma RootNode(g: Graph)
    requires ValidGraph(g)
    ensures TreeNode(g, []) && Coloured(g, [], Root(g))
  {
  }

  lemma ColouredNode(g: Graph, path: seq<nat>, colour: Colouring)
    requires Coloured(g, path, colour)
    ensures TreeNode(g, path)
  {
  }

  lemma ChildNode(g: Graph, path: seq<nat>, v: nat)
    requires ChildOf(g, path, v)
    ensures TreeNode(g, path + [v])
  {
    assert Unfold(0);
    InTreeExtend(g, path, v);
  }

  lemma PathInRange(g: Graph, path: seq<nat>)
    requires TreeNode(g, path)
    ensures InRange(path, |g.vlabel|)
  {
    assert Unfold(0);
  }

  lemma AddSymmetry(g: Graph, gens: set<Perm>, p: Perm)
    requires AllSymmetries(g, gens) && Symmetry(g, p)
    ensures AllSymmetries(g, gens + {p})
  {
  }

  lemma AddLeaf(g: Graph, visited: set<seq<nat>>, path: seq<nat>, position: seq<nat>)
    requires AllLeaves(g, visited) && LeafNode(g, path, position)
    ensures AllLeaves(g, visited + {path})
  {
  }

  // ----- covering

  lemma LessEqTransitive(a: string, b: string, c: string)
    requires StringLessEq(a, b) && StringLessEq(b, c)
    ensures StringLessEq(a, c)
  {
    StringOrder();
    assert StringLess(a, b) || a == b || StringLess(b, a);
  }

  lemma LessEqSelf(a: string)
    ensures StringLessEq(a, a)
  {
    StringOrder();
  }

  lemma LessIsLessEq(a: string, b: string)
    requires StringLess(a, b)
    ensures StringLessEq(a, b)
  {
    StringOrder();
    assert StringLess(b, a) ==> StringLess(a, a);
  }

  lemma CoversMore(g: Graph, dump: Certificate -> string, better: string, cert: string, path: seq<nat>)
    requires StringLessEq(better, cert) && Covers(g, dump, cert, path)
    ensures Covers(g, dump, better, path)
  {
    assert Unfold(0);
    forall c | c in LeafCertificates(g, ColourAt(g, path)) ensures StringLessEq(better, dump(c)) {
      LessEqTransitive(better, cert, dump(c));
    }
  }

  /** A leaf is covered by its own certificate. */
  lemma LeafCovered(g: Graph, dump: Certificate -> string, best: string, path: seq<nat>, position: seq<nat>,
                    cert: string)
    requires LeafNode(g, path, position) && Prints(g, dump, position, cert) && StringLessEq(best, cert)
    ensures Covers(g, dump, best, path)
  {
    assert Unfold(0);
    assert LeafCertificates(g, ColourAt(g, path)) == {CertificateOf(g, position)};
  }

  /** A node is covered once all its children are. */
  lemma ChildrenCover(g: Graph, dump: Certificate -> string, cert: string, path: seq<nat>, v0: nat)
    requires ChildOf(g, path, v0)
    requires forall v :: ChildOf(g, path, v) ==> Covers(g, dump, cert, path + [v])
    ensures Covers(g, dump, cert, path)
  {
    assert Unfold(0);
    var colour := ColourAt(g, path);
    forall c | c in LeafCertificates(g, colour) ensures StringLessEq(cert, dump(c)) {
      var v :| v in Below(|colour|) && Branches(colour, v) && c in ChildCertificates(g, colour, v);
      assert ChildOf(g, path, v) && Covers(g, dump, cert, path + [v]);
      ChildColour(g, path, v);
    }
  }

  lemma ChildColour(g: Graph, path: seq<nat>, v: nat)
    requires ChildOf(g, path, v) && Unfold(0)
    ensures InTree(g, path + [v]) && ColourAt(g, path + [v]) == Child(g, ColourAt(g, path), v)
  {
    ChildNode(g, path, v);
    assert (path + [v])[..|path|] == path;
  }

  /** An automorphism fixing the path maps x to y. */
  ghost predicate Exchanged(g: Graph, path: seq<nat>, x: nat, y: nat) {
    exists p :: Symmetry(g, p) && Fixes(p, path) && x < |p| && p[x] == y
  }

  /** Of two children exchanged by an automorphism that fixes the path, covering one covers the other. */
  lemma ExchangedCovered(g: Graph, dump: Certificate -> string, cert: string, path: seq<nat>, x: nat, y: nat)
    requires ChildOf(g, path, x) && Exchanged(g, path, x, y)
    requires Covers(g, dump, cert, path + [y])
    ensures Covers(g, dump, cert, path + [x])
  {
    assert Unfold(0);
    var p :| Symmetry(g, p) && Fixes(p, path) && x < |p| && p[x] == y;
    ExchangedChildren(g, p, path, x);
    ChildColour(g, path, x);
    ChildColour(g, path, y);
  }

  // ----- the group keeps only automorphisms

  lemma {:induction false} WordAutomorphism(g: Graph, gens: set<Perm>, w: seq<Perm>)
    requires ValidGraph(g) && Word(|g.vlabel|, gens, w)
    requires forall s :: s in gens ==> Automorphism(g, s)
    ensures Automorphism(g, Product(|g.vlabel|, gens, w))
  {
    var n := |g.vlabel|;
    if w == [] {
      IdAutomorphism(g);
    } else {
      var s := w[|w| - 1];
      assert Letter(n, gens, s);
      WordAutomorphism(g, gens, w[..|w| - 1]);
      if s !in gens {
        InverseAutomorphism(g, Inverse(n, s));
        InverseInverse(n, s);
      }
      ComposeAutomorphism(g, Product(n, gens, w[..|w| - 1]), s);
    }
  }

  lemma IdAutomorphism(g: Graph)
    requires ValidGraph(g)
    ensures Automorphism(g, Id(|g.vlabel|))
  {
  }

  lemma ComposeAutomorphism(g: Graph, a: Perm, b: Perm)
    requires Automorphism(g, a) && Automorphism(g, b)
    ensures Automorphism(g, Compose(|g.vlabel|, a, b))
  {
    var n, d := |g.vlabel|, DirectedLabels(g.elabel);
    PlacedTwiceMultiset(n, d, g.edges, g.edges, a, Id(n), b);
    ComposeId(n, b);
  }

  lemma InverseAutomorphism(g: Graph, a: Perm)
    requires Automorphism(g, a)
    ensures Automorphism(g, Inverse(|g.vlabel|, a))
  {
    var n, d := |g.vlabel|, DirectedLabels(g.elabel);
    var b := Inverse(n, a);
    PlacedTwiceMultiset(n, d, g.edges, g.edges, a, Id(n), b);
    ComposeId(n, b);
    ComposeInverse(n, a);
    forall v | 0 <= v < n ensures g.vkey[b[v]] == g.vkey[v] && g.vlabel[b[v]] == g.vlabel[v] {
      assert a[b[v]] == v;
    }
  }

  /** Every element of the span of automorphisms is an automorphism. */
  lemma GroupAutomorphism(g: Graph, gens: set<Perm>, p: Perm)
    requires ValidGraph(g) && InGroup(|g.vlabel|, gens, p)
    requires forall s :: s in gens ==> Automorphism(g, s)
    ensures Automorphism(g, p)
  {
    var w :| Word(|g.vlabel|, gens, w) && Product(|g.vlabel|, gens, w) == p;
    WordAutomorphism(g, gens, w);
  }

  lemma StabiliserElement(g: Graph, gens: set<Perm>, path: seq<nat>, p: Perm)
    requires TreeNode(g, path) && AllSymmetries(g, gens)
    requires InStabiliser(|g.vlabel|, gens, path, p)
    ensures Symmetry(g, p) && |p| == |g.vlabel|
  {
    assert Unfold(0);
    GroupPerm(|g.vlabel|, gens, p);
    GroupAutomorphism(g, gens, p);
  }

  /** The stabiliser of the path maps the open cell to itself. */
  lemma StabiliserKeepsCell(g: Graph, gens: set<Perm>, path: seq<nat>, cell: seq<nat>)
    requires TreeNode(g, path) && AllSymmetries(g, gens)
    requires forall v :: v in cell <==> ChildOf(g, path, v)
    ensures KeepsCell(|g.vlabel|, gens, path, cell)
  {
    forall p, x | InStabiliser(|g.vlabel|, gens, path, p) && x in cell ensures x < |p| && p[x] in cell {
      StabiliserElement(g, gens, path, p);
      ChildImage(g, path, p, x);
    }
  }

  lemma ChildImage(g: Graph, path: seq<nat>, p: Perm, x: nat)
    requires Symmetry(g, p) && Fixes(p, path) && ChildOf(g, path, x)
    ensures x < |p| && ChildOf(g, path, p[x])
  {
    assert Unfold(0);
    ExchangedChildren(g, p, path, x);
  }

  /** Points of one orbit of the stabiliser are exchanged. */
  lemma OrbitExchanged(g: Graph, gens: set<Perm>, path: seq<nat>, x: nat, y: nat)
    requires TreeNode(g, path) && AllSymmetries(g, gens)
    requires SameOrbit(|g.vlabel|, gens, path, x, y)
    ensures Exchanged(g, path, x, y)
  {
    var p :| InStabiliser(|g.vlabel|, gens, path, p) && x < |p| && p[x] == y;
    StabiliserElement(g, gens, path, p);
  }

  // ----- twins

  /** The twin test holds of r and x, or they are one vertex. */
  ghost predicate TwinOf(g: Graph, r: nat, x: nat) {
    forall t {:trigger Unfold(t)} :: Unfold(t) ==>
      && ValidGraph(g) && r < |g.vlabel| && x < |g.vlabel|
      && (r == x || EdgesCarried(|g.vlabel|, DirectedLabels(g.elabel), g.edges, g.edges, Swap(|g.vlabel|, r, x)))
  }

  lemma TwinPerm(g: Graph, path: seq<nat>, x: nat, r: nat) returns (p: Perm)
    requires ValidGraph(g) && InTree(g, path) && x < |g.vlabel| && r < |g.vlabel|
    requires ColourAt(g, path)[x] == ColourAt(g, path)[r]
    requires r == x || EdgesCarried(|g.vlabel|, DirectedLabels(g.elabel), g.edges, g.edges, Swap(|g.vlabel|, r, x))
    ensures Automorphism(g, p) && Fixes(p, path) && |p| == |g.vlabel| && p[x] == r
  {
    if r == x {
      p := Id(|g.vlabel|);
      IdAutomorphism(g);
    } else {
      p := Swap(|g.vlabel|, r, x);
      TwinsFixPath(g, path, r, x);
    }
  }

  lemma ChildrenShareColour(g: Graph, path: seq<nat>, x: nat, r: nat)
    requires ChildOf(g, path, x) && ChildOf(g, path, r) && Unfold(0)
    ensures ValidGraph(g) && InTree(g, path) && x < |g.vlabel| && r < |g.vlabel|
    ensures ColourAt(g, path)[x] == ColourAt(g, path)[r]
  {
  }

  /** Twins among the children of a node are exchanged. */
  lemma TwinsExchanged(g: Graph, path: seq<nat>, x: nat, r: nat)
    requires ChildOf(g, path, x) && ChildOf(g, path, r) && TwinOf(g, r, x)
    ensures Exchanged(g, path, x, r)
  {
    assert Unfold(0);
    ChildrenShareColour(g, path, x, r);
    var p := TwinPerm(g, path, x, r);
    assert Symmetry(g, p);
  }

  // ----- equal leaves

  /** q left path at depth j, into a child finished there before. */
  ghost predicate LeftAt(q: seq<nat>, path: seq<nat>, done: seq<set<nat>>, j: nat) {
    j < |path| && j < |q| && j < |done| && q[..j] == path[..j] && q[j] in done[j]
  }

  ghost predicate Diverges(q: seq<nat>, path: seq<nat>, done: seq<set<nat>>) {
    exists j: nat :: LeftAt(q, path, done, j)
  }

  /** q goes through a finished child of the node at path. */
  ghost predicate Under(q: seq<nat>, path: seq<nat>, here: set<nat>) {
    |path| < |q| && q[..|path|] == path && q[|path|] in here
  }

  /** An automorphism fixes the path above depth j and maps its vertex there onto a finished child. */
  ghost predicate Redundant(g: Graph, path: seq<nat>, done: seq<set<nat>>, j: nat) {
    j < |path| && j < |done| && exists w :: w in done[j] && Exchanged(g, path[..j], path[j], w)
  }

  /** gamma takes the vertex at each position of one leaf to that of the other leaf. */
  ghost predicate MatchOf(g: Graph, position: seq<nat>, stored: seq<nat>, gamma: Perm) {
    && IsPerm(|g.vlabel|, position) && IsPerm(|g.vlabel|, stored)
    && gamma == Compose(|g.vlabel|, position, Inverse(|g.vlabel|, stored))
  }

  lemma MatchSymmetry(g: Graph, dump: Certificate -> string, path: seq<nat>, position: seq<nat>, q: seq<nat>,
                      stored: seq<nat>,
                      cert: string, gamma: Perm)
    requires Injective(dump) && LeafNode(g, path, position) && LeafNode(g, q, stored)
    requires Prints(g, dump, position, cert) && Prints(g, dump, stored, cert)
    requires MatchOf(g, position, stored, gamma)
    ensures Symmetry(g, gamma)
  {
    assert Unfold(0);
    GammaAutomorphism(g, path, q);
  }

  lemma MatchMapsPath(g: Graph, path: seq<nat>, position: seq<nat>, q: seq<nat>, stored: seq<nat>, gamma: Perm, i: nat)
    requires LeafNode(g, path, position) && LeafNode(g, q, stored)
    requires MatchOf(g, position, stored, gamma) && Symmetry(g, gamma)
    requires i < |path| && i < |q|
    ensures path[i] < |gamma| && gamma[path[i]] == q[i]
  {
    assert Unfold(0);
    GammaMapsPath(g, path, q, i);
  }

  /** The automorphism of two equal leaves maps the child being explored onto one explored before: all certificates
      below it are known. */
  lemma EqualLeavesRedundant(g: Graph, dump: Certificate -> string, path: seq<nat>, position: seq<nat>, q: seq<nat>,
                             stored: seq<nat>, cert: string, gamma: Perm, done: seq<set<nat>>, j: nat)
    requires Injective(dump) && LeafNode(g, path, position) && LeafNode(g, q, stored)
    requires Prints(g, dump, position, cert) && Prints(g, dump, stored, cert)
    requires MatchOf(g, position, stored, gamma) && LeftAt(q, path, done, j)
    ensures Symmetry(g, gamma) && Redundant(g, path, done, j)
  {
    MatchSymmetry(g, dump, path, position, q, stored, cert, gamma);
    forall i | 0 <= i < j ensures path[..j][i] < |gamma| && gamma[path[..j][i]] == path[..j][i] {
      MatchMapsPath(g, path, position, q, stored, gamma, i);
      assert path[..j][i] == path[i] && q[..j][i] == q[i];
    }
    MatchMapsPath(g, path, position, q, stored, gamma, j);
    assert Fixes(gamma, path[..j]);
    assert Exchanged(g, path[..j], path[j], q[j]);
  }

  /** A leaf reached for the first time was not visited before. */
  lemma FreshLeaf(path: seq<nat>, done: seq<set<nat>>, visited: set<seq<nat>>)
    requires forall j :: 0 <= j < |path| && j < |done| ==> path[j] !in done[j]
    requires forall q :: q in visited ==> Diverges(q, path, done)
    ensures path !in visited
  {
    assert !Diverges(path, path, done);
  }

  // ----- going one level down

  /** Every leaf visited so far left the path into a finished child, above or at this node. */
  ghost predicate Frontier(visited: set<seq<nat>>, path: seq<nat>, done: seq<set<nat>>, here: set<nat>) {
    forall q :: q in visited ==> Diverges(q, path, done) || Under(q, path, here)
  }

  lemma FrontierDown(visited: set<seq<nat>>, path: seq<nat>, done: seq<set<nat>>, here: set<nat>, v: nat)
    requires |done| == |path| && Frontier(visited, path, done, here)
    ensures forall q :: q in visited ==> Diverges(q, path + [v], done + [here])
  {
    forall q | q in visited ensures Diverges(q, path + [v], done + [here]) {
      if Diverges(q, path, done) {
        var j: nat :| LeftAt(q, path, done, j);
        assert (path + [v])[..j] == path[..j];
        assert LeftAt(q, path + [v], done + [here], j);
      } else {
        assert (path + [v])[..|path|] == path;
        assert LeftAt(q, path + [v], done + [here], |path|);
      }
    }
  }

  lemma FrontierUp(visited0: set<seq<nat>>, visited: set<seq<nat>>, path: seq<nat>, done: seq<set<nat>>,
                   here: set<nat>, v: nat)
    requires Frontier(visited0, path, done, here)
    requires forall q :: q in visited ==> q in visited0 || path + [v] <= q
    ensures Frontier(visited, path, done, here + {v})
  {
    forall q | q in visited ensures Diverges(q, path, done) || Under(q, path, here + {v}) {
      if q in visited0 {
        assert Diverges(q, path, done) || Under(q, path, here);
      } else {
        assert q[..|path|] == (path + [v])[..|path|] == path;
        assert q[|path|] == (path + [v])[|path|];
      }
    }
  }

  /** A jump past this node is redundant for the ancestor it names. */
  lemma RedundantAbove(g: Graph, path: seq<nat>, v: nat, done: seq<set<nat>>, here: set<nat>, j: nat)
    requires |done| == |path| && j < |path| && Redundant(g, path + [v], done + [here], j)
    ensures Redundant(g, path, done, j)
  {
    assert (path + [v])[..j] == path[..j];
  }

  /** A jump to this node: the child is exchanged with a finished one. */
  lemma RedundantHere(g: Graph, dump: Certificate -> string, cert: string, path: seq<nat>, v: nat,
                      done: seq<set<nat>>, here: set<nat>)
    requires |done| == |path| && Redundant(g, path + [v], done + [here], |path|)
    requires ChildOf(g, path, v) && forall w :: w in here ==> Covers(g, dump, cert, path + [w])
    ensures Covers(g, dump, cert, path + [v])
  {
    assert (path + [v])[..|path|] == path;
    var w :| w in here && Exchanged(g, path, v, w);
    ExchangedCovered(g, dump, cert, path, v, w);
  }
}
