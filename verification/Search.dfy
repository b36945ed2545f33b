/** The search with its three prunings, by twins, by orbits and by equal leaves; what it keeps is the smallest
    certificate of the tree without them. */
module Searches {
  import opened Wrappers
  import opened Orders
  import opened Permutations
  import opened PermGroups
  import opened Graphs
  import opened Refinement
  import opened Certificates
  import opened Twins
  import opened SearchTree
  import opened Pruning

  const MAX_LEAVES := 1_000_000

  datatype Leaf = Leaf(cert: string, position: seq<nat>, path: seq<nat>)

  /** NoJump: the subtree is done. JumpTo(d): resume at depth d. LeafCap: the search gave up. */
  datatype Outcome = NoJump | JumpTo(depth: nat) | LeafCap

  // ----- loops that do not touch the search's state

  /** The first cell with more than one vertex. */
  method FindOpen(g: Graph, colour: Colouring) returns (cell: Option<seq<nat>>)
    requires NodeColouring(g, colour)
    ensures cell.None? ==> Discrete(colour)
    ensures cell.Some? ==>
              !Discrete(colour) && Distinct(cell.value) && forall v :: v in cell.value <==> Branches(colour, v)
  {
    var n := |colour|;
    var cells: seq<seq<nat>> := seq(n, _ => []);
    for v := 0 to n
      invariant |cells| == n
      invariant forall c :: 0 <= c < n ==> cells[c] == CellOf(colour[..v], c)
    {
      assert colour[..v + 1][..v] == colour[..v] && colour[v] in Elements(colour);
      CellsBounded(colour);
      cells := cells[colour[v] := cells[colour[v]] + [v]];
    }
    assert colour[..n] == colour;
    for c := 0 to n
      invariant forall d: nat :: d < c ==> !OpenColour(colour, d)
    {
      OpenIffShared(colour, c);
      if |cells[c]| > 1 {
        NotDiscrete(colour, c);
        TargetUnique(colour, c);
        return Some(cells[c]);
      }
    }
    AllClosed(g, colour);
    cell := None;
  }

  lemma OpenIffShared(colour: Colouring, c: nat)
    ensures OpenColour(colour, c) <==> |CellOf(colour, c)| > 1
  {
    var cell := CellOf(colour, c);
    if |cell| > 1 {
      var u, v := cell[0], cell[1];
      assert u in cell && v in cell && u != v;
      assert u < v || v < u;
    }
    if OpenColour(colour, c) {
      var u, v :| 0 <= u < v < |colour| && colour[u] == c && colour[v] == c;
      assert u in cell && v in cell;
    }
  }

  lemma AllClosed(g: Graph, colour: Colouring)
    requires NodeColouring(g, colour)
    requires forall c: nat :: c < |colour| ==> !OpenColour(colour, c)
    ensures Discrete(colour)
  {
    CellsBounded(colour);
    forall c: nat ensures !OpenColour(colour, c) {
      assert c in colour ==> c in Elements(colour);
    }
    DiscreteIffClosed(colour);
  }

  lemma NotDiscrete(colour: Colouring, c: nat)
    requires OpenColour(colour, c)
    ensures !Discrete(colour)
  {
    DiscreteIffClosed(colour);
  }

  /** Each vertex of the cell is a representative or a twin of one. */
  ghost predicate Represented(g: Graph, reps: seq<nat>, x: nat) {
    exists r :: r in reps && TwinOf(g, r, x)
  }

  method TwinOfAny(g: Graph, reps: seq<nat>, v: nat) returns (covered: bool)
    requires ValidGraph(g) && v < |g.vlabel| && InRange(reps, |g.vlabel|) && v !in reps
    ensures covered ==> Represented(g, reps, v)
  {
    for k := 0 to |reps|
    {
      var twin := AreTwins(g, reps[k], v);
      if twin {
        assert TwinOf(g, reps[k], v);
        return true;
      }
    }
    return false;
  }

  /** reps holds one vertex per twin class of cell. */
  ghost predicate Represent(g: Graph, cell: seq<nat>, reps: seq<nat>) {
    && Distinct(reps) && (forall r :: r in reps ==> r in cell)
    && forall x :: x in cell ==> Represented(g, reps, x)
  }

  /** One vertex per twin class of the cell, the earliest. */
  method Representatives(g: Graph, cell: seq<nat>) returns (reps: seq<nat>)
    requires ValidGraph(g) && InRange(cell, |g.vlabel|) && Distinct(cell)
    ensures Represent(g, cell, reps)
  {
    reps := [];
    for i := 0 to |cell|
      invariant InRange(reps, |g.vlabel|) && Represent(g, cell[..i], reps)
    {
      var v := cell[i];
      assert cell[..i + 1] == cell[..i] + [v] && v !in cell[..i] && v !in reps;
      var covered := TwinOfAny(g, reps, v);
      if covered {
        RepresentCovered(g, cell[..i], reps, v);
      } else {
        RepresentNew(g, cell[..i], reps, v);
        reps := reps + [v];
      }
    }
    assert cell[..|cell|] == cell;
  }

  lemma RepresentCovered(g: Graph, cell: seq<nat>, reps: seq<nat>, v: nat)
    requires Represent(g, cell, reps) && Represented(g, reps, v)
    ensures Represent(g, cell + [v], reps)
  {
  }

  lemma RepresentNew(g: Graph, cell: seq<nat>, reps: seq<nat>, v: nat)
    requires ValidGraph(g) && v < |g.vlabel| && v !in cell && Represent(g, cell, reps)
    ensures Represent(g, cell + [v], reps + [v])
  {
    RepresentedMore(g, reps, v);
    assert v !in reps;
  }

  lemma RepresentedMore(g: Graph, reps: seq<nat>, v: nat)
    requires ValidGraph(g) && v < |g.vlabel|
    ensures Represented(g, reps + [v], v)
    ensures forall x :: Represented(g, reps, x) ==> Represented(g, reps + [v], x)
  {
    assert v in reps + [v] && TwinOf(g, v, v);
    forall x | Represented(g, reps, x) ensures Represented(g, reps + [v], x) {
      var r :| r in reps && TwinOf(g, r, x);
      assert r in reps + [v];
    }
  }

  method Individualise(colour: Colouring, v: nat) returns (next: Colouring)
    requires v < |colour|
    ensures next == Individualised(colour, v)
  {
    next := [];
    for x := 0 to |colour|
      invariant |next| == x && forall y :: 0 <= y < x ==> next[y] == 2 * colour[y] + 1
    {
      next := next + [2 * colour[x] + 1];
    }
    next := next[v := 2 * colour[v]];
    assert next == Individualised(colour, v);
  }

  ghost predicate Disjoint(orbits: seq<seq<nat>>) {
    forall k, l, x :: 0 <= k < |orbits| && 0 <= l < |orbits| && x in orbits[k] && x in orbits[l] ==> k == l
  }

  /** The points of orbits[..k] carry their orbit's number. */
  ghost predicate Numbered(orbit: seq<int>, orbits: seq<seq<nat>>, k: nat)
    requires k <= |orbits|
  {
    forall l, x :: 0 <= l < k && x in orbits[l] ==> x < |orbit| && orbit[x] == l
  }

  /** Numbers the points of each orbit. */
  method NumberOrbits(n: nat, orbits: seq<seq<nat>>, orbit0: seq<int>) returns (orbit: seq<int>)
    requires |orbit0| == n && Disjoint(orbits)
    requires forall k, x :: 0 <= k < |orbits| && x in orbits[k] ==> x < n
    ensures |orbit| == n && Numbered(orbit, orbits, |orbits|)
  {
    orbit := orbit0;
    for k := 0 to |orbits|
      invariant |orbit| == n && Numbered(orbit, orbits, k)
    {
      for i := 0 to |orbits[k]|
        invariant |orbit| == n && Numbered(orbit, orbits, k)
        invariant forall x :: x in orbits[k][..i] ==> x < n && orbit[x] == k
      {
        var x := orbits[k][i];
        assert x in orbits[k];
        assert orbits[k][..i + 1] == orbits[k][..i] + [x];
        orbit := orbit[x := k];
      }
      assert orbits[k][..|orbits[k]|] == orbits[k];
    }
  }


  // ----- the same steps at a node named by its path

  ghost predicate GoodGraph(g: Graph) {
    forall t {:trigger Unfold(t)} :: Unfold(t) ==> ValidGraph(g)
  }

  ghost predicate StoredLeaf(g: Graph, dump: Certificate -> string, leaf: Leaf) {
    LeafNode(g, leaf.path, leaf.position) && Prints(g, dump, leaf.position, leaf.cert)
  }

  method OpenCell(g: Graph, ghost path: seq<nat>, colour: Colouring) returns (cell: Option<seq<nat>>)
    requires Coloured(g, path, colour)
    ensures cell.None? ==> LeafNode(g, path, colour)
    ensures cell.Some? ==> Distinct(cell.value) && InRange(cell.value, |g.vlabel|) && cell.value != []
    ensures cell.Some? ==> forall v :: v in cell.value <==> ChildOf(g, path, v)
  {
    assert ValidGraph(g) && InTree(g, path) && colour == ColourAt(g, path) by { assert Unfold(0); }
    cell := FindOpen(g, colour);
    if cell.None? {
      DiscreteLeaf(g, path, colour);
    } else {
      BranchesAreChildren(g, path, colour, cell.value);
    }
  }

  lemma DiscreteLeaf(g: Graph, path: seq<nat>, colour: Colouring)
    requires ValidGraph(g) && InTree(g, path) && colour == ColourAt(g, path) && Discrete(colour)
    ensures LeafNode(g, path, colour)
  {
    DiscretePerm(g, colour);
  }

  lemma BranchesAreChildren(g: Graph, path: seq<nat>, colour: Colouring, cell: seq<nat>)
    requires ValidGraph(g) && InTree(g, path) && colour == ColourAt(g, path) && !Discrete(colour)
    requires forall v :: v in cell <==> Branches(colour, v)
    ensures forall v :: v in cell <==> ChildOf(g, path, v)
    ensures cell != [] && InRange(cell, |g.vlabel|)
  {
    SomeBranch(colour);
    forall v ensures v in cell <==> ChildOf(g, path, v) {
      assert Unfold(0);
    }
    forall i | 0 <= i < |cell| ensures cell[i] < |g.vlabel| {
      assert cell[i] in cell;
    }
  }

  lemma SomeBranch(colour: Colouring)
    requires !Discrete(colour)
    ensures exists v: nat :: Branches(colour, v)
  {
    var u, v :| 0 <= u < v < |colour| && colour[u] == Target(colour) && colour[v] == Target(colour);
    assert Branches(colour, u);
  }

  method CellRepresentatives(g: Graph, cell: seq<nat>) returns (reps: seq<nat>)
    requires GoodGraph(g) && InRange(cell, |g.vlabel|) && Distinct(cell)
    ensures Represent(g, cell, reps)
  {
    assert Unfold(0);
    reps := Representatives(g, cell);
  }

  /** Individualises v and refines. */
  method ChildColouring(g: Graph, ghost path: seq<nat>, colour: Colouring, v: nat) returns (next: Colouring)
    requires Coloured(g, path, colour) && ChildOf(g, path, v)
    ensures Coloured(g, path + [v], next)
    ensures Cells(colour) < Cells(next) <= |g.vlabel|
  {
    assert Unfold(0);
    ChildSplits(g, colour, v);
    ChildColour(g, path, v);
    next := Individualise(colour, v);
    next := Refine(g, next);
  }

  method PrintLeaf(g: Graph, dump: Certificate -> string, ghost path: seq<nat>,
                   position: seq<nat>) returns (cert: string)
    requires LeafNode(g, path, position)
    ensures Prints(g, dump, position, cert)
  {
    assert Unfold(0);
    var c := Certify(g, position);
    cert := dump(c);
  }

  /** Builds the permutation that matches two leaves position by position. */
  method MatchLoop(g: Graph, ghost path: seq<nat>, ghost q: seq<nat>, position: seq<nat>,
                   stored: seq<nat>) returns (gamma: Perm)
    requires LeafNode(g, path, position) && LeafNode(g, q, stored)
    ensures MatchOf(g, position, stored, gamma) && IsPerm(|g.vlabel|, gamma)
  {
    assert Unfold(0);
    var at := InverseLoop(|g.vlabel|, stored);
    gamma := ComposeLoop(|g.vlabel|, position, at);
  }

  /** The common prefix of two paths that part at depth j. */
  method FirstDifference(a: seq<nat>, b: seq<nat>, ghost j: nat) returns (d: nat)
    requires j < |a| && j < |b| && a[..j] == b[..j] && a[j] != b[j]
    ensures d == j
  {
    assert forall k :: 0 <= k < j ==> a[k] == a[..j][k] == b[..j][k] == b[k];
    d := 0;
    while d < |a| && d < |b| && a[d] == b[d]
      invariant d <= j
      decreases |a| - d
    {
      d := d + 1;
    }
  }

  // ----- automorphisms revealed by equal leaves

  /** The found group holds automorphisms only. */
  ghost predicate GroupSound(g: Graph, group: PermGroup)
    reads group
  {
    group.n == |g.vlabel| && group.Valid() && AllSymmetries(g, Elements(group.gens))
  }

  method AddToGroup(g: Graph, group: PermGroup, gamma: Perm)
    requires GroupSound(g, group) && Symmetry(g, gamma) && IsPerm(|g.vlabel|, gamma)
    modifies group
    ensures GroupSound(g, group)
  {
    ghost var gens := group.gens;
    AddSymmetry(g, Elements(gens), gamma);
    group.Add(gamma);
    assert Elements(group.gens) == Elements(gens) || Elements(group.gens) == Elements(gens) + {gamma};
  }

  /** Takes in a leaf with the stored leaf's certificate: its automorphism, and where to resume. */
  method Reveal(g: Graph, ghost dump: Certificate -> string, group: PermGroup, path: seq<nat>, stored: Leaf,
                position: seq<nat>, ghost done: seq<set<nat>>) returns (d: nat)
    requires Injective(dump) && GroupSound(g, group) && LeafNode(g, path, position)
    requires |done| == |path| && (forall j :: 0 <= j < |path| ==> path[j] !in done[j])
    requires StoredLeaf(g, dump, stored) && Diverges(stored.path, path, done)
    requires Prints(g, dump, position, stored.cert)
    modifies group
    ensures GroupSound(g, group) && Redundant(g, path, done, d)
  {
    ghost var j: nat :| LeftAt(stored.path, path, done, j);
    var gamma := MatchLoop(g, path, stored.path, position, stored.position);
    EqualLeavesRedundant(g, dump, path, position, stored.path, stored.position, stored.cert, gamma, done, j);
    AddToGroup(g, group, gamma);
    d := FirstDifference(path, stored.path, j);
  }

  /** Compares the leaf with both stored leaves; the shallower depth is where to resume. */
  method RevealBoth(g: Graph, ghost dump: Certificate -> string, group: PermGroup, path: seq<nat>, first: Leaf,
                    best: Leaf,
                    position: seq<nat>, cert: string, ghost done: seq<set<nat>>) returns (jump: Outcome)
    requires Injective(dump) && GroupSound(g, group) && LeafNode(g, path, position)
    requires |done| == |path| && (forall j :: 0 <= j < |path| ==> path[j] !in done[j])
    requires StoredLeaf(g, dump, first) && Diverges(first.path, path, done)
    requires StoredLeaf(g, dump, best) && Diverges(best.path, path, done)
    requires Prints(g, dump, position, cert)
    modifies group
    ensures GroupSound(g, group) && !jump.LeafCap?
    ensures jump.NoJump? <==> cert != first.cert && cert != best.cert
    ensures jump.JumpTo? ==> Redundant(g, path, done, jump.depth)
  {
    jump := NoJump;
    if cert == first.cert {
      var d := Reveal(g, dump, group, path, first, position, done);
      jump := JumpTo(d);
    }
    if cert == best.cert {
      var d := Reveal(g, dump, group, path, best, position, done);
      jump := if jump.JumpTo? && jump.depth < d then jump else JumpTo(d);
    }
  }

  // ----- orbits among the children

  /** Equal numbers mean exchanged children; no orbits were computed while gens is 0. */
  ghost predicate OrbitsSound(g: Graph, path: seq<nat>, cell: seq<nat>, orbit: seq<int>, gens: nat) {
    && |orbit| == |g.vlabel|
    && (gens > 0 ==> forall x, y :: x in cell && y in cell && x < |orbit| && y < |orbit| && orbit[x] == orbit[y] ==> Exchanged(g, path, x, y))
  }

  /** Points of the cell have equal numbers exactly when an element of the group that fixes the path maps one to the
      other. */
  ghost predicate NumbersOrbits(group: PermGroup, path: seq<nat>, cell: seq<nat>, orbit: seq<int>)
    reads group
  {
    forall x, y :: x in cell && y in cell && x < |orbit| && y < |orbit| ==>
      (orbit[x] == orbit[y] <==> SameOrbit(group.n, Elements(group.gens), path, x, y))
  }

  method CellOrbits(g: Graph, group: PermGroup, path: seq<nat>, cell: seq<nat>, orbit0: seq<int>,
                    ghost gens: nat) returns (orbit: seq<int>)
    requires GroupSound(g, group) && TreeNode(g, path) && InRange(path, |g.vlabel|)
    requires InRange(cell, |g.vlabel|) && (forall v :: v in cell <==> ChildOf(g, path, v)) && |orbit0| == |g.vlabel|
    ensures OrbitsSound(g, path, cell, orbit, gens) && NumbersOrbits(group, path, cell, orbit)
  {
    StabiliserKeepsCell(g, Elements(group.gens), path, cell);
    var orbits := group.OrbitsFixing(path, cell);
    PartitionDisjoint(group.n, Elements(group.gens), path, cell, orbits);
    orbit := NumberOrbits(|g.vlabel|, orbits, orbit0);
    forall x, y | x in cell && y in cell
      ensures orbit[x] == orbit[y] <==> SameOrbit(group.n, Elements(group.gens), path, x, y)
    {
      var k :| 0 <= k < |orbits| && x in orbits[k];
      var l :| 0 <= l < |orbits| && y in orbits[l];
      assert k == l <==> SameOrbit(group.n, Elements(group.gens), path, x, y);
    }
    forall x, y | x in cell && y in cell && orbit[x] == orbit[y] ensures Exchanged(g, path, x, y) {
      OrbitExchanged(g, Elements(group.gens), path, x, y);
    }
  }

  lemma PartitionDisjoint(n: nat, gens: set<Perm>, path: seq<nat>, cell: seq<nat>, orbits: seq<seq<nat>>)
    requires Partitions(n, gens, path, cell, orbits) && InRange(cell, n)
    ensures Disjoint(orbits)
    ensures forall k, x :: 0 <= k < |orbits| && x in orbits[k] ==> x < n
  {
    forall k, x | 0 <= k < |orbits| && x in orbits[k] ensures x < n {
      assert x in cell;
    }
    forall k, l, x | 0 <= k < |orbits| && 0 <= l < |orbits| && x in orbits[k] && x in orbits[l] ensures k == l {
      assert k == k <==> SameOrbit(n, gens, path, x, x);
    }
  }

  method InDoneOrbit(done: seq<nat>, orbit: seq<int>, v: nat) returns (b: bool)
    requires InRange(done, |orbit|) && v < |orbit|
    ensures b <==> exists d :: d in done && orbit[d] == orbit[v]
  {
    for i := 0 to |done|
      invariant forall k :: 0 <= k < i ==> orbit[done[k]] != orbit[v]
    {
      if orbit[done[i]] == orbit[v] {
        assert done[i] in done;
        return true;
      }
    }
    return false;
  }

  /** What one call leaves behind: new leaves lie below path, and the best certificate only gets smaller. */
  ghost predicate Advanced(path: seq<nat>, visited0: set<seq<nat>>, found0: bool, cert0: string,
                           visited: set<seq<nat>>, found: bool, cert: string) {
    && visited0 <= visited && found
    && (forall q :: q in visited ==> q in visited0 || path <= q)
    && (found0 ==> StringLessEq(cert, cert0))
  }

  lemma FinishedMore(finished: seq<nat>, reps: seq<nat>, i: nat)
    requires i < |reps| && forall d :: d in finished ==> d in reps[..i]
    ensures Elements(finished + [reps[i]]) == Elements(finished) + {reps[i]}
    ensures forall d :: d in finished + [reps[i]] ==> d in reps[..i + 1]
  {
    assert reps[..i + 1] == reps[..i] + [reps[i]];
  }

  class Search {
    const g: Graph
    const dump: Certificate -> string
    const group: PermGroup
    var path: seq<nat>
    var leaves: nat
    var first: Leaf
    var best: Leaf
    var found: bool
    ghost var visited: set<seq<nat>>

    ghost predicate Valid()
      reads this, group
    {
      && GoodGraph(g) && Injective(dump) && GroupSound(g, group)
      && |visited| == leaves && AllLeaves(g, visited)
      && (found ==> StoredLeaf(g, dump, first) && StoredLeaf(g, dump,
                                                             best) && first.path in visited && best.path in visited)
      && (!found ==> visited == {})
    }

    constructor (g: Graph, dump: Certificate -> string)
      requires ValidGraph(g) && Injective(dump)
      ensures this.g == g && this.dump == dump && Valid() && !found && path == [] && fresh(group)
    {
      this.g := g;
      this.dump := dump;
      this.group := new PermGroup(|g.vlabel|);
      path, leaves, found, visited := [], 0, false, {};
      first, best := Leaf("", [], []), Leaf("", [], []);
    }

    /** The node at path is entered for the first time: every leaf visited so far left the path into a
        finished child. */
    ghost predicate AtFreshNode(done: seq<set<nat>>)
      reads this
    {
      && |done| == |path| && (forall j :: 0 <= j < |path| ==> path[j] !in done[j])
      && forall q :: q in visited ==> Diverges(q, path, done)
    }

    /** The search met more leaves than it may, all of them different. */
    ghost predicate Capped()
      reads this
    {
      leaves > MAX_LEAVES && |visited| == leaves && AllLeaves(g, visited)
    }

    /** A leaf: takes its certificate in. */
    method AtLeaf(colour: Colouring, ghost done: seq<set<nat>>) returns (jump: Outcome)
      requires Valid() && AtFreshNode(done) && LeafNode(g, path, colour)
      modifies this, group
      ensures path == old(path)
      ensures leaves == old(leaves) + 1 && (jump.LeafCap? <==> leaves > 1_000_000)
      ensures jump.LeafCap? ==> Capped()
      ensures !jump.LeafCap? ==> Valid() && Advanced(path, old(visited), old(found), old(best.cert), visited, found,
                                                     best.cert)
      ensures jump.NoJump? ==> Covers(g, dump, best.cert, path)
      ensures jump.JumpTo? ==> Redundant(g, path, done, jump.depth)
    {
      CountLeaf(colour, done);
      if leaves > MAX_LEAVES {
        return LeafCap;
      }
      var cert := PrintLeaf(g, dump, path, colour);
      if !found {
        StoreFirst(colour, cert);
        return NoJump;
      }
      jump := CompareLeaf(colour, cert, done);
    }

    method CountLeaf(colour: Colouring, ghost done: seq<set<nat>>)
      requires Valid() && AtFreshNode(done) && LeafNode(g, path, colour)
      modifies this`leaves, this`visited
      ensures leaves == old(leaves) + 1 == |visited| && visited == old(visited) + {path} && AllLeaves(g, visited)
      ensures found ==> Valid()
    {
      FreshLeaf(path, done, visited);
      AddLeaf(g, visited, path, colour);
      leaves, visited := leaves + 1, visited + {path};
    }

    /** The first leaf met is the best one so far. */
    method StoreFirst(colour: Colouring, cert: string)
      requires !found && GoodGraph(g) && Injective(dump) && GroupSound(g, group)
      requires |visited| == leaves && AllLeaves(g, visited) && path in visited
      requires LeafNode(g, path, colour) && Prints(g, dump, colour, cert)
      modifies this`first, this`best, this`found
      ensures Valid() && found && Covers(g, dump, best.cert, path)
    {
      LessEqSelf(cert);
      first, best, found := Leaf(cert, colour, path), Leaf(cert, colour, path), true;
      LeafCovered(g, dump, cert, path, colour, cert);
    }

    /** A leaf that is not the first: an automorphism if it equals a stored one, and the best one if it is smaller. */
    method CompareLeaf(colour: Colouring, cert: string, ghost done: seq<set<nat>>) returns (jump: Outcome)
      requires Valid() && found && LeafNode(g, path, colour) && Prints(g, dump, colour, cert) && path in visited
      requires |done| == |path| && (forall j :: 0 <= j < |path| ==> path[j] !in done[j])
      requires Diverges(first.path, path, done) && Diverges(best.path, path, done)
      modifies this`best, group
      ensures Valid() && !jump.LeafCap? && StringLessEq(best.cert, old(best.cert))
      ensures jump.NoJump? ==> Covers(g, dump, best.cert, path)
      ensures jump.JumpTo? ==> Redundant(g, path, done, jump.depth)
    {
      jump := RevealBoth(g, dump, group, path, first, best, colour, cert, done);
      LessEqSelf(best.cert);
      LessEqSelf(cert);
      if StringLess(cert, best.cert) {
        LessIsLessEq(cert, best.cert);
        best := Leaf(cert, colour, path);
      }
      LeafCovered(g, dump, best.cert, path, colour, cert);
    }

    /** The subtree at path: returns where to resume. */
    method Run(colour: Colouring, ghost done: seq<set<nat>>) returns (jump: Outcome)
      requires Valid() && AtFreshNode(done) && Coloured(g, path, colour) && Cells(colour) <= |g.vlabel|
      modifies this, group
      ensures path == old(path)
      ensures jump.LeafCap? ==> Capped()
      ensures !jump.LeafCap? ==> Valid() && Advanced(path, old(visited), old(found), old(best.cert), visited, found,
                                                     best.cert)
      ensures jump.NoJump? ==> Covers(g, dump, best.cert, path)
      ensures jump.JumpTo? ==> Redundant(g, path, done, jump.depth)
      decreases |g.vlabel| - Cells(colour), 3
    {
      var open := OpenCell(g, path, colour);
      if open.None? {
        jump := AtLeaf(colour, done);
        return;
      }
      var cell := open.value;
      var reps := CellRepresentatives(g, cell);
      ColouredNode(g, path, colour);
      assert cell[0] in cell && Represented(g, reps, cell[0]);
      jump := Branch(colour, cell, reps, done);
      if jump.NoJump? {
        RepresentativesCover(g, dump, best.cert, path, cell, reps);
      }
    }

    /** Individualises v, explores the child and comes back. */
    method Explore(colour: Colouring, v: nat, ghost done: seq<set<nat>>, ghost here: set<nat>) returns (jump: Outcome)
      requires Valid() && Coloured(g, path, colour) && ChildOf(g, path, v)
      requires |done| == |path| && (forall j :: 0 <= j < |path| ==> path[j] !in done[j])
      requires Frontier(visited, path, done, here) && v !in here
      modifies this, group
      ensures path == old(path)
      ensures jump.LeafCap? ==> Capped()
      ensures !jump.LeafCap? ==> Valid() && Advanced(path + [v], old(visited), old(found), old(best.cert), visited,
                                                     found, best.cert)
      ensures jump.NoJump? ==> Covers(g, dump, best.cert, path + [v])
      ensures jump.JumpTo? ==> Redundant(g, path + [v], done + [here], jump.depth)
      decreases |g.vlabel| - Cells(colour), 0
    {
      var next := ChildColouring(g, path, colour, v);
      FrontierDown(visited, path, done, here, v);
      path := path + [v];
      jump := Run(next, done + [here]);
      path := path[..|path| - 1];
    }

    /** Tries the representatives in order; a child exchanged with a finished one is skipped. */
    method Branch(colour: Colouring, cell: seq<nat>, reps: seq<nat>, ghost done: seq<set<nat>>) returns (jump: Outcome)
      requires Valid() && AtFreshNode(done) && Coloured(g, path, colour) && TreeNode(g, path)
      requires Distinct(cell) && InRange(cell, |g.vlabel|) && (forall v :: v in cell <==> ChildOf(g, path, v))
      requires reps != [] && Distinct(reps) && forall r :: r in reps ==> r in cell
      modifies this, group
      ensures path == old(path)
      ensures jump.LeafCap? ==> Capped()
      ensures !jump.LeafCap? ==> Valid() && Advanced(path, old(visited), old(found), old(best.cert), visited, found,
                                                     best.cert)
      ensures jump.NoJump? ==> AllCovered(g, dump, best.cert, path, reps, |reps|)
      ensures jump.JumpTo? ==> Redundant(g, path, done, jump.depth)
      decreases |g.vlabel| - Cells(colour), 2
    {
      var finished: seq<nat> := [];
      var orbit: seq<int> := seq(|g.vlabel|, _ => -1);
      var orbitGenerators: nat := 0;
      for i := 0 to |reps|
        invariant Valid() && path == old(path)
        invariant i == 0 ==> finished == [] && visited == old(visited) && found == old(found) && best == old(best)
        invariant i > 0 ==> Advanced(path, old(visited), old(found), old(best.cert), visited, found, best.cert)
        invariant Frontier(visited, path, done, Elements(finished))
        invariant forall d :: d in finished ==> d in reps[..i]
        invariant AllCovered(g, dump, best.cert, path, reps, i)
        invariant OrbitsSound(g, path, cell, orbit, orbitGenerators)
      {
        orbit, orbitGenerators := RefreshOrbits(cell, finished, orbit, orbitGenerators);
        var skip := Skippable(cell, reps, i, finished, orbit, orbitGenerators);
        if !skip {
          ghost var visited0, found0, cert0 := visited, found, best.cert;
          jump := TryChild(colour, cell, reps, i, finished, done);
          if !jump.LeafCap? {
            AdvancedTwice(path, old(visited), old(found), old(best.cert), visited0, found0, cert0, visited, found,
                          best.cert);
          }
          if !jump.NoJump? {
            return;
          }
          FinishedMore(finished, reps, i);
          finished := finished + [reps[i]];
        }
      }
      jump := NoJump;
    }

    /** Brings the orbit numbers up to date once there are more generators than they were made from. */
    method RefreshOrbits(cell: seq<nat>, finished: seq<nat>, orbit0: seq<int>,
                         gens0: nat) returns (orbit: seq<int>, gens: nat)
      requires Valid() && TreeNode(g, path) && InRange(cell, |g.vlabel|)
               && (forall v :: v in cell <==> ChildOf(g, path, v))
      requires OrbitsSound(g, path, cell, orbit0, gens0)
      ensures OrbitsSound(g, path, cell, orbit, gens)
    {
      orbit, gens := orbit0, gens0;
      if finished != [] && group.gens != [] && gens != |group.gens| {
        PathInRange(g, path);
        orbit := CellOrbits(g, group, path, cell, orbit, |group.gens|);
        gens := |group.gens|;
      }
    }

    /** A child in one orbit with a finished child is redundant. */
    method Skippable(cell: seq<nat>, reps: seq<nat>, i: nat, finished: seq<nat>, orbit: seq<int>,
                     gens: nat) returns (skip: bool)
      requires i < |reps| && AllCovered(g, dump, best.cert, path, reps, i)
      requires (forall v :: v in cell <==> ChildOf(g, path, v)) && InRange(cell, |g.vlabel|)
      requires (forall r :: r in reps ==> r in cell) && (forall d :: d in finished ==> d in reps[..i])
      requires OrbitsSound(g, path, cell, orbit, gens)
      ensures skip ==> finished != [] && AllCovered(g, dump, best.cert, path, reps, i + 1)
    {
      skip := false;
      if gens > 0 {
        AllInRange(|g.vlabel|, cell, reps, i, finished);
        skip := InDoneOrbit(finished, orbit, reps[i]);
        if skip {
          SkippedCovered(g, dump, best.cert, path, cell, reps, i, finished, orbit, gens);
        }
      }
    }

    /** Explores reps[i]; a jump past this node is passed on, a jump to it ends the child. */
    method TryChild(colour: Colouring, cell: seq<nat>, reps: seq<nat>, i: nat, finished: seq<nat>,
                    ghost done: seq<set<nat>>)
        returns (jump: Outcome)
      requires Valid() && Coloured(g, path, colour) && i < |reps| && ChildOf(g, path, reps[i])
      requires |done| == |path| && (forall j :: 0 <= j < |path| ==> path[j] !in done[j])
      requires Frontier(visited, path, done, Elements(finished)) && Distinct(reps)
      requires (forall d :: d in finished ==> d in reps[..i]) && AllCovered(g, dump, best.cert, path, reps, i)
      requires i > 0 ==> found
      modifies this, group
      ensures path == old(path)
      ensures jump.LeafCap? ==> Capped()
      ensures !jump.LeafCap? ==> Valid() && Advanced(path, old(visited), old(found), old(best.cert), visited, found,
                                                     best.cert)
      ensures jump.NoJump? ==> AllCovered(g, dump, best.cert, path, reps, i + 1)
      ensures jump.NoJump? ==> Frontier(visited, path, done, Elements(finished) + {reps[i]})
      ensures jump.JumpTo? ==> Redundant(g, path, done, jump.depth)
      decreases |g.vlabel| - Cells(colour), 1
    {
      var v := reps[i];
      assert v !in finished;
      jump := Explore(colour, v, done, Elements(finished));
      if jump.LeafCap? {
        return;
      }
      AdvancedUp(path, v, old(visited), old(found), old(best.cert), visited, found, best.cert);
      if jump.JumpTo? && jump.depth < |path| {
        RedundantAbove(g, path, v, done, Elements(finished), jump.depth);
        return;
      }
      ExploredCovered(g, dump, old(best.cert), best.cert, path, reps, i, finished, done, jump);
      FrontierUp(old(visited), visited, path, done, Elements(finished), v);
      jump := NoJump;
    }
  }

  lemma AdvancedTwice(path: seq<nat>, v0: set<seq<nat>>, f0: bool, c0: string, v1: set<seq<nat>>, f1: bool, c1: string,
                      v2: set<seq<nat>>, f2: bool, c2: string)
    requires Advanced(path, v1, f1, c1, v2, f2, c2)
    requires Advanced(path, v0, f0, c0, v1, f1, c1) || (v1 == v0 && f1 == f0 && c1 == c0)
    ensures Advanced(path, v0, f0, c0, v2, f2, c2)
  {
    if f0 && Advanced(path, v0, f0, c0, v1, f1, c1) { LessEqTransitive(c2, c1, c0); }
  }

  lemma AdvancedUp(path: seq<nat>, v: nat, v0: set<seq<nat>>, f0: bool, c0: string, v1: set<seq<nat>>, f1: bool,
                   c1: string)
    requires Advanced(path + [v], v0, f0, c0, v1, f1, c1)
    ensures Advanced(path, v0, f0, c0, v1, f1, c1)
  {
    forall q | q in v1 ensures q in v0 || path <= q {
      if path + [v] <= q {
        assert q[..|path|] == (path + [v])[..|path|] == path;
      }
    }
  }

  lemma AllInRange(n: nat, cell: seq<nat>, reps: seq<nat>, i: nat, finished: seq<nat>)
    requires InRange(cell, n) && i < |reps| && (forall r :: r in reps ==> r in cell)
    requires forall d :: d in finished ==> d in reps[..i]
    ensures InRange(finished, n) && reps[i] < n
  {
    forall k | 0 <= k < |finished| ensures finished[k] < n {
      assert finished[k] in reps[..i] && finished[k] in cell;
    }
    assert reps[i] in cell;
  }

  /** The first m representatives' children are covered. */
  ghost predicate AllCovered(g: Graph, dump: Certificate -> string, cert: string, path: seq<nat>, reps: seq<nat>,
                             m: nat)
    requires m <= |reps|
  {
    forall k :: 0 <= k < m ==> Covers(g, dump, cert, path + [reps[k]])
  }

  /** Every child is a representative or a twin of one, so covering the representatives covers the node. */
  lemma RepresentativesCover(g: Graph, dump: Certificate -> string, cert: string, path: seq<nat>, cell: seq<nat>,
                             reps: seq<nat>)
    requires (forall v :: v in cell <==> ChildOf(g, path, v)) && cell != []
    requires (forall r :: r in reps ==> r in cell) && (forall x :: x in cell ==> Represented(g, reps, x))
    requires AllCovered(g, dump, cert, path, reps, |reps|)
    ensures Covers(g, dump, cert, path)
  {
    assert cell[0] in cell;
    forall v | ChildOf(g, path, v) ensures Covers(g, dump, cert, path + [v]) {
      assert v in cell;
      var r :| r in reps && TwinOf(g, r, v);
      var k :| 0 <= k < |reps| && reps[k] == r;
      assert r in cell;
      TwinsExchanged(g, path, v, r);
      ExchangedCovered(g, dump, cert, path, v, r);
    }
    ChildrenCover(g, dump, cert, path, cell[0]);
  }

  lemma SkippedCovered(g: Graph, dump: Certificate -> string, cert: string, path: seq<nat>, cell: seq<nat>,
                       reps: seq<nat>, i: nat,
                       finished: seq<nat>, orbit: seq<int>, gens: nat)
    requires i < |reps| && AllCovered(g, dump, cert, path, reps, i) && gens > 0
    requires (forall v :: v in cell <==> ChildOf(g, path, v)) && InRange(cell, |g.vlabel|)
    requires (forall r :: r in reps ==> r in cell) && (forall d :: d in finished ==> d in reps[..i])
    requires OrbitsSound(g, path, cell, orbit, gens)
    requires exists d :: d in finished && d < |orbit| && reps[i] < |orbit| && orbit[d] == orbit[reps[i]]
    ensures AllCovered(g, dump, cert, path, reps, i + 1)
  {
    var d :| d in finished && d < |orbit| && reps[i] < |orbit| && orbit[d] == orbit[reps[i]];
    var k :| 0 <= k < i && reps[k] == d;
    assert reps[i] in cell && reps[k] in cell;
    assert Exchanged(g, path, reps[i], d);
    OneMoreCovered(g, dump, cert, path, reps, i, d);
  }

  lemma OneMoreCovered(g: Graph, dump: Certificate -> string, cert: string, path: seq<nat>, reps: seq<nat>, i: nat,
                       d: nat)
    requires i < |reps| && AllCovered(g, dump, cert, path, reps, i)
    requires d in reps[..i] && ChildOf(g, path, reps[i]) && Exchanged(g, path, reps[i], d)
    ensures AllCovered(g, dump, cert, path, reps, i + 1)
  {
    var k :| 0 <= k < i && reps[k] == d;
    assert Covers(g, dump, cert, path + [reps[k]]);
    ExchangedCovered(g, dump, cert, path, reps[i], d);
    AllCoveredStep(g, dump, cert, path, reps, i);
  }

  lemma AllCoveredStep(g: Graph, dump: Certificate -> string, cert: string, path: seq<nat>, reps: seq<nat>, i: nat)
    requires i < |reps| && AllCovered(g, dump, cert, path, reps, i) && Covers(g, dump, cert, path + [reps[i]])
    ensures AllCovered(g, dump, cert, path, reps, i + 1)
  {
  }

  /** What was covered stays covered when the best certificate gets smaller. */
  lemma StillCovered(g: Graph, dump: Certificate -> string, cert0: string, cert: string, path: seq<nat>,
                     reps: seq<nat>, i: nat)
    requires i <= |reps| && AllCovered(g, dump, cert0, path, reps, i)
    requires i > 0 ==> StringLessEq(cert, cert0)
    ensures AllCovered(g, dump, cert, path, reps, i)
  {
    forall k | 0 <= k < i ensures Covers(g, dump, cert, path + [reps[k]]) {
      CoversMore(g, dump, cert, cert0, path + [reps[k]]);
    }
  }

  /** After exploring reps[i], to the end or up to a jump back to this node, its child is covered. */
  lemma ExploredCovered(g: Graph, dump: Certificate -> string, cert0: string, cert: string, path: seq<nat>,
                        reps: seq<nat>, i: nat,
                        finished: seq<nat>, done: seq<set<nat>>, jump: Outcome)
    requires i < |reps| && AllCovered(g, dump, cert0, path, reps, i) && |done| == |path| && ChildOf(g, path, reps[i])
    requires i > 0 ==> StringLessEq(cert, cert0)
    requires forall d :: d in finished ==> d in reps[..i]
    requires jump.NoJump? ==> Covers(g, dump, cert, path + [reps[i]])
    requires jump.JumpTo? ==> jump.depth >= |path| && Redundant(g, path + [reps[i]], done + [Elements(finished)],
                                                                jump.depth)
    requires !jump.LeafCap?
    ensures AllCovered(g, dump, cert, path, reps, i + 1)
  {
    StillCovered(g, dump, cert0, cert, path, reps, i);
    if jump.JumpTo? {
      forall w | w in Elements(finished) ensures Covers(g, dump, cert, path + [w]) {
        var k :| 0 <= k < i && reps[k] == w;
      }
      RedundantHere(g, dump, cert, path, reps[i], done, Elements(finished));
    }
    AllCoveredStep(g, dump, cert, path, reps, i);
  }
}
