/** A permutation group that grows by generators, and the partition of a cell into the orbits of those elements that
    fix given points, found by joining each point with its images. */
module PermGroups {
  import opened Orders
  import opened Permutations
  import opened StabiliserChains

  // ----- union-find over 0..n-1, where every link goes down

  ghost predicate Forest(root: seq<nat>) {
    forall x :: 0 <= x < |root| ==> root[x] <= x
  }

  ghost function Rep(root: seq<nat>, x: nat): (r: nat)
    requires Forest(root) && x < |root|
    ensures r <= x && root[r] == r
  {
    if root[x] == x then x else Rep(root, root[x])
  }

  ghost function Reps(root: seq<nat>): (reps: seq<nat>)
    requires Forest(root)
    ensures |reps| == |root| && forall x :: 0 <= x < |root| ==> reps[x] == Rep(root, x)
  {
    seq(|root|, x requires 0 <= x < |root| => Rep(root, x))
  }

  lemma {:induction false} HalvingKeepsRep(root: seq<nat>, x: nat, y: nat)
    requires Forest(root) && x < |root| && y < |root|
    ensures Forest(root[x := root[root[x]]])
    ensures Rep(root[x := root[root[x]]], y) == Rep(root, y)
    decreases y
  {
    var root' := root[x := root[root[x]]];
    assert root[root[x]] <= root[x];
    if root[y] != y {
      HalvingKeepsRep(root, x, root[y]);
      if y == x {
        HalvingKeepsRep(root, x, root[root[x]]);
      }
    }
  }

  lemma {:induction false} LinkMerges(root: seq<nat>, lo: nat, hi: nat, y: nat)
    requires Forest(root) && lo < hi < |root| && y < |root| && root[lo] == lo && root[hi] == hi
    ensures Forest(root[hi := lo])
    ensures Rep(root[hi := lo], y) == if Rep(root, y) == hi then lo else Rep(root, y)
    decreases y
  {
    if root[y] != y {
      LinkMerges(root, lo, hi, root[y]);
    }
  }

  /** The root of x; every visited node is relinked to its grandparent. */
  method Find(root: array<nat>, x0: nat) returns (x: nat)
    requires Forest(root[..]) && x0 < root.Length
    modifies root
    ensures Forest(root[..]) && Reps(root[..]) == old(Reps(root[..]))
    ensures x == Rep(root[..], x0)
  {
    x := x0;
    while root[x] != x
      invariant x < root.Length && Forest(root[..])
      invariant Reps(root[..]) == old(Reps(root[..]))
      invariant Rep(root[..], x) == Rep(root[..], x0)
      decreases x
    {
      ghost var before := root[..];
      var up := root[root[x]];
      assert root[x] < x && up <= root[x];
      root[x] := up;
      assert root[..] == before[x := before[before[x]]];
      forall y: nat | y < |before| ensures Rep(root[..], y) == Rep(before, y) { HalvingKeepsRep(before, x, y); }
      assert Reps(root[..]) == Reps(before);
      assert Rep(before, x) == Rep(before, before[x]) == Rep(before, up);
      x := up;
    }
  }

  // ----- being in one orbit

  ghost predicate Related(n: nat, gens: set<Perm>, x: nat, y: nat) {
    exists p :: InGroup(n, gens, p) && x < |p| && p[x] == y
  }

  lemma RelatedSelf(n: nat, gens: set<Perm>, x: nat)
    requires x < n
    ensures Related(n, gens, x, x)
  {
    GroupId(n, gens);
    assert Id(n)[x] == x;
  }

  lemma RelatedSymmetric(n: nat, gens: set<Perm>, x: nat, y: nat)
    requires Related(n, gens, x, y)
    ensures Related(n, gens, y, x)
  {
    var p :| InGroup(n, gens, p) && x < |p| && p[x] == y;
    GroupInverse(n, gens, p);
    assert Inverse(n, p)[y] == x;
  }

  lemma RelatedTransitive(n: nat, gens: set<Perm>, x: nat, y: nat, z: nat)
    requires Related(n, gens, x, y) && Related(n, gens, y, z)
    ensures Related(n, gens, x, z)
  {
    var p :| InGroup(n, gens, p) && x < |p| && p[x] == y;
    var q :| InGroup(n, gens, q) && y < |q| && q[y] == z;
    GroupCompose(n, gens, p, q);
    assert Compose(n, p, q)[x] == z;
  }

  /** Points with one representative are in one orbit. */
  ghost predicate Sound(n: nat, gens: set<Perm>, reps: seq<nat>)
    requires |reps| == n
  {
    && (forall x :: 0 <= x < n ==> reps[x] < n && reps[reps[x]] == reps[x])
    && (forall x, y {:trigger Related(n, gens, x, y)} ::
          0 <= x < n && 0 <= y < n && reps[x] == reps[y] ==> Related(n, gens, x, y))
  }

  /** reps after the class of hi joins the class of lo. */
  ghost predicate Merged(reps: seq<nat>, reps': seq<nat>, lo: nat, hi: nat) {
    |reps'| == |reps| && forall y :: 0 <= y < |reps| ==> reps'[y] == if reps[y] == hi then lo else reps[y]
  }

  lemma MergeSound(n: nat, gens: set<Perm>, reps: seq<nat>, reps': seq<nat>, x: nat, s: Perm, lo: nat, hi: nat)
    requires |reps| == n && Sound(n, gens, reps) && Merged(reps, reps', lo, hi)
    requires AllPerms(n, gens) && s in gens && x < n && lo != hi
    requires (reps[x] == lo && reps[s[x]] == hi) || (reps[x] == hi && reps[s[x]] == lo)
    ensures Sound(n, gens, reps')
  {
    GroupLetter(n, gens, s);
    assert Related(n, gens, x, s[x]);
    RelatedSymmetric(n, gens, x, s[x]);
    forall u, v | 0 <= u < n && 0 <= v < n && reps'[u] == reps'[v] ensures Related(n, gens, u, v) {
      if reps[u] != reps[v] {
        var a, b := if reps[u] == reps[x] then x else s[x], if reps[u] == reps[x] then s[x] else x;
        RelatedTransitive(n, gens, u, a, b);
        RelatedTransitive(n, gens, u, b, v);
      }
    }
  }

  // ----- completeness: every letter keeps the representative inside the cell

  ghost predicate Joins(reps: seq<nat>, s: Perm, cell: seq<nat>, m: nat)
    requires m <= |cell|
  {
    forall i :: 0 <= i < m ==>
      cell[i] < |reps| && cell[i] < |s| && s[cell[i]] < |reps| && reps[cell[i]] == reps[s[cell[i]]]
  }

  /** Classes were only merged. */
  ghost predicate Coarser(reps: seq<nat>, reps': seq<nat>) {
    |reps'| == |reps| && forall x, y :: 0 <= x < |reps| && 0 <= y < |reps| && reps[x] == reps[y] ==>
      reps'[x] == reps'[y]
  }

  lemma CoarserTwice(a: seq<nat>, b: seq<nat>, c: seq<nat>)
    requires Coarser(a, b) && Coarser(b, c)
    ensures Coarser(a, c)
  {
  }

  lemma JoinsCoarser(reps: seq<nat>, reps': seq<nat>, s: Perm, cell: seq<nat>, m: nat)
    requires m <= |cell| && Joins(reps, s, cell, m) && Coarser(reps, reps')
    ensures Joins(reps', s, cell, m)
  {
  }

  lemma JoinsMore(reps: seq<nat>, reps': seq<nat>, s: Perm, cell: seq<nat>, m: nat)
    requires m < |cell| && Joins(reps, s, cell, m) && Coarser(reps, reps')
    requires cell[m] < |reps'| && cell[m] < |s| && s[cell[m]] < |reps'| && reps'[cell[m]] == reps'[s[cell[m]]]
    ensures Joins(reps', s, cell, m + 1)
  {
    JoinsCoarser(reps, reps', s, cell, m);
  }

  lemma {:induction false} WordKeepsRep(n: nat, gens: set<Perm>, reps: seq<nat>, cell: seq<nat>, w: seq<Perm>, x: nat)
    requires |reps| == n && Word(n, gens, w) && x in cell
    requires forall s :: s in gens ==> MapsInto(n, s, Elements(cell)) && Joins(reps, s, cell, |cell|)
    requires Elements(cell) <= Below(n)
    ensures x < n && Product(n, gens, w)[x] in cell && reps[Product(n, gens, w)[x]] == reps[x]
  {
    assert x in Elements(cell);
    if w != [] {
      var w', s := w[..|w| - 1], w[|w| - 1];
      assert Letter(n, gens, s);
      WordKeepsRep(n, gens, reps, cell, w', x);
      var y := Product(n, gens, w')[x];
      LetterMapsInto(n, gens, s, Elements(cell));
      assert y in Elements(cell) && s[y] in Elements(cell);
      if s in gens {
        var i :| 0 <= i < |cell| && cell[i] == y;
        assert reps[cell[i]] == reps[s[cell[i]]];
      } else {
        var t := Inverse(n, s);
        var i :| 0 <= i < |cell| && cell[i] == s[y];
        assert reps[cell[i]] == reps[t[cell[i]]];
      }
    }
  }

  lemma JoinsComplete(n: nat, gens: set<Perm>, reps: seq<nat>, cell: seq<nat>, x: nat, y: nat)
    requires |reps| == n && x in cell && Elements(cell) <= Below(n)
    requires forall s :: s in gens ==> MapsInto(n, s, Elements(cell)) && Joins(reps, s, cell, |cell|)
    requires Related(n, gens, x, y)
    ensures x < n && y < n && reps[x] == reps[y]
  {
    var p :| InGroup(n, gens, p) && x < |p| && p[x] == y;
    var w :| Word(n, gens, w) && Product(n, gens, w) == p;
    WordKeepsRep(n, gens, reps, cell, w, x);
    assert y in Elements(cell);
  }

  // ----- grouping a cell by representative

  predicate InRange(points: seq<nat>, n: nat) {
    forall i :: 0 <= i < |points| ==> points[i] < n
  }

  /** The members of cell with representative r, in cell order. */
  ghost function Members(reps: seq<nat>, cell: seq<nat>, r: nat): seq<nat>
    requires InRange(cell, |reps|)
  {
    if cell == [] then []
    else
      var x := cell[|cell| - 1];
      Members(reps, cell[..|cell| - 1], r) + if reps[x] == r then [x] else []
  }

  lemma {:induction false} InMembers(reps: seq<nat>, cell: seq<nat>, r: nat, x: nat)
    requires InRange(cell, |reps|)
    ensures x in Members(reps, cell, r) <==> x in cell && reps[x] == r
  {
    if cell != [] {
      var c, y := cell[..|cell| - 1], cell[|cell| - 1];
      assert cell == c + [y];
      InMembers(reps, c, r, x);
    }
  }

  /** The representatives of cell in order of first appearance. */
  ghost function Heads(reps: seq<nat>, cell: seq<nat>): (heads: seq<nat>)
    requires InRange(cell, |reps|)
    ensures forall r :: r in heads <==> exists x :: x in cell && reps[x] == r
    ensures Distinct(heads)
  {
    if cell == [] then []
    else
      var c, x := cell[..|cell| - 1], cell[|cell| - 1];
      assert cell == c + [x];
      var heads := Heads(reps, c);
      if reps[x] in heads then heads else heads + [reps[x]]
  }

  /** cell grouped by representative: each group in cell order, the groups by first member. */
  ghost function Grouped(reps: seq<nat>, cell: seq<nat>): (groups: seq<seq<nat>>)
    requires InRange(cell, |reps|)
    ensures |groups| == |Heads(reps, cell)|
  {
    var heads := Heads(reps, cell);
    seq(|heads|, k requires 0 <= k < |heads| => Members(reps, cell, heads[k]))
  }

  /** Each representative's slot is its place among the heads; the others' are negative. */
  ghost predicate SlotsHold(slot: seq<int>, heads: seq<nat>) {
    && (forall r: nat :: r < |slot| ==> slot[r] < |heads| && (slot[r] >= 0 <==> r in heads))
    && (forall r: nat :: r < |slot| && slot[r] >= 0 ==> heads[slot[r]] == r)
  }

  lemma SlotOpens(slot: seq<int>, heads: seq<nat>, r: nat)
    requires SlotsHold(slot, heads) && r < |slot| && slot[r] < 0
    ensures SlotsHold(slot[r := |heads|], heads + [r])
  {
  }

  /** One step of the grouping loop, when x belongs to the group k. */
  lemma GroupedJoins(reps: seq<nat>, cell: seq<nat>, x: nat, k: nat)
    requires InRange(cell, |reps|) && x < |reps|
    requires k < |Heads(reps, cell)| && Heads(reps, cell)[k] == reps[x]
    ensures Heads(reps, cell + [x]) == Heads(reps, cell)
    ensures Grouped(reps, cell + [x]) == Grouped(reps, cell)[k := Grouped(reps, cell)[k] + [x]]
  {
    var c := cell + [x];
    assert c[..|c| - 1] == cell;
    var heads, groups, groups' := Heads(reps, cell), Grouped(reps, cell), Grouped(reps, c);
    assert reps[x] in heads;
    forall i | 0 <= i < |heads| ensures groups'[i] == groups[k := groups[k] + [x]][i] {
      assert heads[i] == reps[x] <==> i == k;
    }
  }

  /** One step of the grouping loop, when x opens a group. */
  lemma GroupedOpens(reps: seq<nat>, cell: seq<nat>, x: nat)
    requires InRange(cell, |reps|) && x < |reps| && reps[x] !in Heads(reps, cell)
    ensures Heads(reps, cell + [x]) == Heads(reps, cell) + [reps[x]]
    ensures Grouped(reps, cell + [x]) == Grouped(reps, cell) + [[x]]
  {
    var c := cell + [x];
    assert c[..|c| - 1] == cell;
    var heads, groups, groups' := Heads(reps, cell), Grouped(reps, cell), Grouped(reps, c);
    NoMembers(reps, cell, reps[x]);
    forall i | 0 <= i < |heads| ensures groups'[i] == groups[i] {
      assert heads[i] != reps[x];
    }
    assert groups'[|heads|] == [x];
    assert groups' == groups + [[x]];
  }

  lemma NoMembers(reps: seq<nat>, cell: seq<nat>, r: nat)
    requires InRange(cell, |reps|)
    requires r !in Heads(reps, cell)
    ensures Members(reps, cell, r) == []
  {
    var m := Members(reps, cell, r);
    if m != [] {
      InMembers(reps, cell, r, m[0]);
    }
  }

  // ----- the orbits of a cell

  /** x and y are in one orbit of the pointwise stabiliser of prefix. */
  ghost predicate SameOrbit(n: nat, gens: set<Perm>, prefix: seq<nat>, x: nat, y: nat) {
    exists p :: InStabiliser(n, gens, prefix, p) && x < |p| && p[x] == y
  }

  /** reps names, for the points of cell, exactly the orbits of the stabiliser. */
  ghost predicate NamesOrbits(n: nat, gens: set<Perm>, prefix: seq<nat>, cell: seq<nat>, reps: seq<nat>) {
    && |reps| == n && InRange(cell, n)
    && forall x, y :: x in cell && y in cell ==> (reps[x] == reps[y] <==> SameOrbit(n, gens, prefix, x, y))
  }

  /** orbits is a partition of cell into exactly the stabiliser's orbits. */
  ghost predicate Partitions(n: nat, gens: set<Perm>, prefix: seq<nat>, cell: seq<nat>, orbits: seq<seq<nat>>) {
    && (forall k, x :: 0 <= k < |orbits| && x in orbits[k] ==> x in cell)
    && (forall x :: x in cell ==> exists k :: 0 <= k < |orbits| && x in orbits[k])
    && (forall k, l, x, y :: 0 <= k < |orbits| && 0 <= l < |orbits| && x in orbits[k] && y in orbits[l] ==>
          (k == l <==> SameOrbit(n, gens, prefix, x, y)))
  }

  lemma GroupedPartitions(n: nat, gens: set<Perm>, prefix: seq<nat>, cell: seq<nat>, reps: seq<nat>)
    requires NamesOrbits(n, gens, prefix, cell, reps)
    ensures Partitions(n, gens, prefix, cell, Grouped(reps, cell))
  {
    var heads, groups := Heads(reps, cell), Grouped(reps, cell);
    forall k, x: nat | 0 <= k < |groups| ensures x in groups[k] <==> x in cell && reps[x] == heads[k] {
      InMembers(reps, cell, heads[k], x);
    }
    forall x | x in cell ensures exists k :: 0 <= k < |groups| && x in groups[k] {
      assert reps[x] in heads;
      var k :| 0 <= k < |heads| && heads[k] == reps[x];
      assert x in groups[k];
    }
  }

  /** The stabiliser of prefix in the span of gens maps cell into itself. */
  ghost predicate KeepsCell(n: nat, gens: set<Perm>, prefix: seq<nat>, cell: seq<nat>) {
    forall p, x :: InStabiliser(n, gens, prefix, p) && x in cell ==> x < |p| && p[x] in cell
  }

  /** Once every stabiliser generator joins every point of the cell with its image, the
      representatives name exactly the orbits. */
  lemma JoinedNamesOrbits(n: nat, gens: set<Perm>, sub: set<Perm>, prefix: seq<nat>, cell: seq<nat>, reps: seq<nat>)
    requires |reps| == n && Sound(n, sub, reps) && AllPerms(n, sub)
    requires InRange(cell, n)
    requires forall p :: InGroup(n, sub, p) <==> InStabiliser(n, gens, prefix, p)
    requires KeepsCell(n, gens, prefix, cell)
    requires forall s :: s in sub ==> Joins(reps, s, cell, |cell|)
    ensures NamesOrbits(n, gens, prefix, cell, reps)
  {
    forall s | s in sub ensures MapsInto(n, s, Elements(cell)) {
      GroupLetter(n, sub, s);
      assert InStabiliser(n, gens, prefix, s);
    }
    forall x, y | x in cell && y in cell ensures reps[x] == reps[y] <==> SameOrbit(n, gens, prefix, x, y) {
      if reps[x] == reps[y] {
        assert Related(n, sub, x, y);
        var p :| InGroup(n, sub, p) && x < |p| && p[x] == y;
        assert InStabiliser(n, gens, prefix, p);
      }
      if SameOrbit(n, gens, prefix, x, y) {
        var p :| InStabiliser(n, gens, prefix, p) && x < |p| && p[x] == y;
        assert InGroup(n, sub, p);
        JoinsComplete(n, sub, reps, cell, x, y);
      }
    }
  }

  /** Leaving out the identity or a repeated generator leaves the span as it is. */
  lemma SpanWith(n: nat, gens: seq<Perm>, p: Perm)
    requires AllPerms(n, Elements(gens)) && IsPerm(n, p)
    ensures var after := if p == Id(n) || p in gens then gens else gens + [p];
            forall q :: InGroup(n, Elements(after), q) <==> InGroup(n, Elements(gens) + {p}, q)
  {
    var after := if p == Id(n) || p in gens then gens else gens + [p];
    var all := Elements(gens) + {p};
    assert Elements(after) <= all;
    forall q ensures InGroup(n, Elements(after), q) <==> InGroup(n, all, q) {
      if InGroup(n, Elements(after), q) {
        GroupGrows(n, Elements(after), all, q);
      }
      if InGroup(n, all, q) {
        forall s | s in all ensures InGroup(n, Elements(after), s) {
          GroupId(n, Elements(after));
          if s in Elements(after) {
            GroupLetter(n, Elements(after), s);
          }
        }
        GroupSpan(n, all, Elements(after), q);
      }
    }
  }

  class PermGroup {
    const n: nat
    var gens: seq<Perm>

    ghost predicate Valid()
      reads this
    {
      forall s :: s in gens ==> IsPerm(n, s) && s != Id(n)
    }

    constructor (n: nat)
      ensures this.n == n && gens == [] && Valid()
    {
      this.n := n;
      gens := [];
    }

    method Add(p: Perm)
      requires Valid() && IsPerm(n, p)
      modifies this
      ensures Valid()
      ensures gens == if p == Id(n) || p in old(gens) then old(gens) else old(gens) + [p]
      ensures forall q :: InGroup(n, Elements(gens), q) <==> InGroup(n, Elements(old(gens)) + {p}, q)
    {
      SpanWith(n, gens, p);
      var isId := IsIdentity(n, p);
      if !isId && p !in gens {
        gens := gens + [p];
      }
    }

    /** Puts x and its image under s into one class. */
    method JoinPair(root: array<nat>, s: Perm, x: nat, ghost sub: set<Perm>)
      requires root.Length == n && Forest(root[..]) && AllPerms(n, sub) && s in sub && x < n
      requires Sound(n, sub, Reps(root[..]))
      modifies root
      ensures Forest(root[..]) && Sound(n, sub, Reps(root[..]))
      ensures Coarser(old(Reps(root[..])), Reps(root[..]))
      ensures Reps(root[..])[x] == Reps(root[..])[s[x]]
    {
      var a := Find(root, x);
      var b := Find(root, s[x]);
      if a != b {
        var lo: nat, hi: nat := if a < b then a else b, if a < b then b else a;
        ghost var before := root[..];
        root[hi] := lo;
        assert root[..] == before[hi := lo];
        forall y: nat | y < n ensures Rep(root[..], y) == if Rep(before, y) == hi then lo else Rep(before, y) {
          LinkMerges(before, lo, hi, y);
        }
        MergeSound(n, sub, Reps(before), Reps(root[..]), x, s, lo, hi);
      }
    }

    /** Joins every x in cell with its image under s. */
    method JoinOrbits(root: array<nat>, s: Perm, cell: seq<nat>, ghost sub: set<Perm>)
      requires root.Length == n && Forest(root[..]) && AllPerms(n, sub) && s in sub && InRange(cell, n)
      requires Sound(n, sub, Reps(root[..]))
      modifies root
      ensures Forest(root[..]) && Sound(n, sub, Reps(root[..]))
      ensures Coarser(old(Reps(root[..])), Reps(root[..]))
      ensures Joins(Reps(root[..]), s, cell, |cell|)
    {
      for i := 0 to |cell|
        invariant Forest(root[..]) && Sound(n, sub, Reps(root[..]))
        invariant Coarser(old(Reps(root[..])), Reps(root[..]))
        invariant Joins(Reps(root[..]), s, cell, i)
      {
        ghost var before := Reps(root[..]);
        JoinPair(root, s, cell[i], sub);
        CoarserTwice(old(Reps(root[..])), before, Reps(root[..]));
        JoinsMore(before, Reps(root[..]), s, cell, i);
      }
    }

    method GroupByRoot(root: array<nat>, cell: seq<nat>) returns (orbits: seq<seq<nat>>)
      requires root.Length == n && Forest(root[..]) && InRange(cell, n)
      modifies root
      ensures orbits == Grouped(old(Reps(root[..])), cell)
    {
      ghost var reps := Reps(root[..]);
      orbits := [];
      var slot: seq<int> := seq(n, _ => -1);
      for i := 0 to |cell|
        invariant Forest(root[..]) && Reps(root[..]) == reps
        invariant orbits == Grouped(reps, cell[..i])
        invariant |slot| == n && SlotsHold(slot, Heads(reps, cell[..i]))
      {
        var x := cell[i];
        assert cell[..i + 1] == cell[..i] + [x];
        var r := Find(root, x);
        if slot[r] < 0 {
          GroupedOpens(reps, cell[..i], x);
          SlotOpens(slot, Heads(reps, cell[..i]), r);
          slot := slot[r := |orbits|];
          orbits := orbits + [[]];
        } else {
          GroupedJoins(reps, cell[..i], x, slot[r]);
        }
        orbits := orbits[slot[r] := orbits[slot[r]] + [x]];
      }
      assert cell[..|cell|] == cell;
    }

    /** Partitions the cell by the elements that fix every point of the prefix. */
    method OrbitsFixing(prefix: seq<nat>, cell: seq<nat>) returns (orbits: seq<seq<nat>>)
      requires Valid()
      requires InRange(prefix, n) && InRange(cell, n)
      requires KeepsCell(n, Elements(gens), prefix, cell)
      ensures Partitions(n, Elements(gens), prefix, cell, orbits)
      ensures exists reps :: NamesOrbits(n, Elements(gens), prefix, cell, reps) && orbits == Grouped(reps, cell)
    {
      var root := UnionOrbits(prefix, cell);
      GroupedPartitions(n, Elements(gens), prefix, cell, Reps(root[..]));
      orbits := GroupByRoot(root, cell);
    }

    /** The union-find forest that names the orbits. */
    method UnionOrbits(prefix: seq<nat>, cell: seq<nat>) returns (root: array<nat>)
      requires Valid() && InRange(prefix, n) && InRange(cell, n)
      requires KeepsCell(n, Elements(gens), prefix, cell)
      ensures fresh(root) && root.Length == n && Forest(root[..])
      ensures NamesOrbits(n, Elements(gens), prefix, cell, Reps(root[..]))
    {
      var stab := PrefixStabiliser(prefix);
      ghost var sub := Elements(stab);
      root := new nat[n](i => i);
      assert root[..] == Id(n) && Reps(root[..]) == Id(n);
      StartSound(n, sub);
      JoinAll(root, stab, cell);
      JoinedNamesOrbits(n, Elements(gens), sub, prefix, cell, Reps(root[..]));
    }

    method JoinAll(root: array<nat>, stab: seq<Perm>, cell: seq<nat>)
      requires root.Length == n && Forest(root[..]) && AllPerms(n, Elements(stab)) && InRange(cell, n)
      requires Sound(n, Elements(stab), Reps(root[..]))
      modifies root
      ensures Forest(root[..]) && Sound(n, Elements(stab), Reps(root[..]))
      ensures forall s :: s in Elements(stab) ==> Joins(Reps(root[..]), s, cell, |cell|)
    {
      for j := 0 to |stab|
        invariant Forest(root[..]) && Sound(n, Elements(stab), Reps(root[..]))
        invariant forall i :: 0 <= i < j ==> Joins(Reps(root[..]), stab[i], cell, |cell|)
      {
        ghost var before := Reps(root[..]);
        assert stab[j] in Elements(stab);
        JoinOrbits(root, stab[j], cell, Elements(stab));
        forall i | 0 <= i < j ensures Joins(Reps(root[..]), stab[i], cell, |cell|) {
          JoinsCoarser(before, Reps(root[..]), stab[i], cell, |cell|);
        }
      }
    }

    /** Generators of exactly the pointwise stabiliser of prefix. */
    method PrefixStabiliser(prefix: seq<nat>) returns (stab: seq<Perm>)
      requires Valid() && InRange(prefix, n)
      ensures AllPerms(n, Elements(stab))
      ensures forall p :: InGroup(n, Elements(stab), p) <==> InStabiliser(n, Elements(gens), prefix, p)
    {
      if gens != [] {
        var chain := new StabiliserChain(n, prefix, gens);
        stab := chain.StabiliserGenerators(|prefix|);
      } else {
        stab := [];
        NoGenerators(n, prefix);
        assert Elements(gens) == {} && Elements(stab) == {};
      }
    }
  }

  lemma StartSound(n: nat, gens: set<Perm>)
    ensures Sound(n, gens, Id(n))
  {
    forall x: nat | x < n ensures Related(n, gens, x, x) { RelatedSelf(n, gens, x); }
  }

  lemma NoGenerators(n: nat, prefix: seq<nat>)
    requires InRange(prefix, n)
    ensures forall p :: InGroup(n, {}, p) <==> InStabiliser(n, {}, prefix, p)
  {
    forall p | InGroup(n, {}, p) ensures Fixes(p, prefix) {
      GroupFixes(n, {}, prefix, p);
    }
  }
}
