/** The Schreier-Sims construction as the source runs it: levels are rebuilt in place, and every
    residue found while closing one level reopens the level where its sift stopped. */
module StabiliserChains {
  import opened Wrappers
  import opened Orders
  import opened Permutations
  import opened SchreierSims

  // ----- building one level

  /** The breadth-first orbit so far: every stored representative lies in the group and is indexed
      by the point it maps b to. */
  ghost predicate Growing(n: nat, b: nat, gens: set<Perm>, index: seq<int>, reps: seq<Perm>) {
    && b < n && AllPerms(n, gens) && |index| == n
    && 0 < |reps| && reps[0] == Id(n)
    && (forall k :: 0 <= k < |reps| ==> InGroup(n, gens, reps[k]) && IsPerm(n, reps[k]))
    && (forall k :: 0 <= k < |reps| ==> index[reps[k][b]] == k)
    && (forall x :: 0 <= x < n ==> -1 <= index[x] < |reps|)
    && (forall x: nat {:trigger Represents(b, index, reps, x)} :: x < n && index[x] >= 0 ==>
          Represents(b, index, reps, x))
  }

  /** Every generator of gens[..m] maps y to an indexed point. */
  ghost predicate Swept(gens: seq<Perm>, index: seq<int>, y: nat, m: nat)
    requires m <= |gens|
  {
    forall j :: 0 <= j < m ==> y < |gens[j]| && gens[j][y] < |index| && index[gens[j][y]] >= 0
  }

  lemma GrowStep(n: nat, b: nat, gens: set<Perm>, index: seq<int>, reps: seq<Perm>, k: nat, s: Perm)
    requires Growing(n, b, gens, index, reps) && k < |reps| && s in gens
    requires index[s[reps[k][b]]] < 0
    ensures Growing(n, b, gens, index[s[reps[k][b]] := |reps|], reps + [Compose(n, reps[k], s)])
  {
    var z := s[reps[k][b]];
    var u := Compose(n, reps[k], s);
    GroupLetter(n, gens, s);
    GroupCompose(n, gens, reps[k], s);
    var index', reps' := index[z := |reps|], reps + [u];
    forall i | 0 <= i < |reps'| ensures index'[reps'[i][b]] == i {
      if i < |reps| { assert reps'[i] == reps[i] && index[reps[i][b]] == i; }
    }
    forall x: nat | x < n && index'[x] >= 0 ensures Represents(b, index', reps', x) {
      if x != z { assert Represents(b, index, reps, x); }
    }
  }

  lemma RepsBounded(n: nat, b: nat, gens: set<Perm>, index: seq<int>, reps: seq<Perm>)
    requires Growing(n, b, gens, index, reps)
    ensures |reps| <= n
  {
    var points := seq(|reps|, k requires 0 <= k < |reps| => reps[k][b]);
    forall i, j | 0 <= i < j < |points| ensures points[i] != points[j] {
      assert index[points[i]] == i && index[points[j]] == j;
    }
    DistinctSize(points);
    forall x | x in Elements(points) ensures x in Below(n) {
    }
    SubsetSize(Elements(points), Below(n));
  }

  /** Adds every new point the generators reach from the k-th orbit point. */
  method SweepPoint(n: nat, b: nat, gens: seq<Perm>, index0: seq<int>, reps0: seq<Perm>, k: nat)
      returns (index: seq<int>, reps: seq<Perm>)
    requires Growing(n, b, Elements(gens), index0, reps0) && k < |reps0|
    ensures Growing(n, b, Elements(gens), index, reps)
    ensures |reps0| <= |reps| && reps[..|reps0|] == reps0
    ensures forall x :: 0 <= x < n && index0[x] >= 0 ==> index[x] >= 0
    ensures Swept(gens, index, reps0[k][b], |gens|)
  {
    index, reps := index0, reps0;
    var y := reps0[k][b];
    for m := 0 to |gens|
      invariant Growing(n, b, Elements(gens), index, reps)
      invariant |reps0| <= |reps| && reps[..|reps0|] == reps0
      invariant forall x :: 0 <= x < n && index0[x] >= 0 ==> index[x] >= 0
      invariant Swept(gens, index, y, m)
    {
      var s := gens[m];
      assert s in Elements(gens) && reps[k] == reps0[k];
      var z := s[y];
      if index[z] < 0 {
        GrowStep(n, b, Elements(gens), index, reps, k, s);
        var u := ComposeLoop(n, reps[k], s);
        index, reps := index[z := |reps|], reps + [u];
      }
    }
  }

  /** The inverses of all representatives. */
  method InvertAll(n: nat, reps: seq<Perm>) returns (inv: seq<Perm>)
    requires forall k :: 0 <= k < |reps| ==> IsPerm(n, reps[k])
    ensures |inv| == |reps| && forall k :: 0 <= k < |reps| ==> inv[k] == Inverse(n, reps[k])
  {
    inv := [];
    for i := 0 to |reps|
      invariant |inv| == i
      invariant forall j :: 0 <= j < i ==> inv[j] == Inverse(n, reps[j])
    {
      var q := InverseLoop(n, reps[i]);
      inv := inv + [q];
    }
  }

  ghost predicate AllSwept(b: nat, gens: seq<Perm>, index: seq<int>, reps: seq<Perm>, k: nat)
    requires k <= |reps|
  {
    forall i :: 0 <= i < k ==> b < |reps[i]| && Swept(gens, index, reps[i][b], |gens|)
  }

  lemma SweptIsBuilt(n: nat, b: nat, gens: seq<Perm>, index: seq<int>, reps: seq<Perm>, inv: seq<Perm>)
    requires Growing(n, b, Elements(gens), index, reps) && AllSwept(b, gens, index, reps, |reps|)
    requires |inv| == |reps| && forall k :: 0 <= k < |reps| ==> inv[k] == Inverse(n, reps[k])
    ensures Built(n, b, Elements(gens), Level(index, reps, inv))
  {
    forall i, s | 0 <= i < |reps| && s in Elements(gens) ensures index[s[reps[i][b]]] >= 0 {
      var j :| 0 <= j < |gens| && gens[j] == s;
      assert Swept(gens, index, reps[i][b], |gens|);
    }
  }

  method BuildLevel(n: nat, b: nat, gens: seq<Perm>) returns (level: Level)
    requires b < n && AllPerms(n, Elements(gens))
    ensures Built(n, b, Elements(gens), level)
  {
    var index: seq<int> := seq(n, _ => -1)[b := 0];
    var reps := [Id(n)];
    GroupId(n, Elements(gens));
    var k := 0;
    while k < |reps|
      invariant 0 <= k <= |reps| <= n
      invariant Growing(n, b, Elements(gens), index, reps)
      invariant AllSwept(b, gens, index, reps, k)
      decreases n - k
    {
      ghost var index0, reps0 := index, reps;
      index, reps := SweepPoint(n, b, gens, index, reps, k);
      AllSweptGrows(n, b, gens, index0, reps0, index, reps, k);
      RepsBounded(n, b, Elements(gens), index, reps);
      k := k + 1;
    }
    var inv := InvertAll(n, reps);
    SweptIsBuilt(n, b, gens, index, reps, inv);
    level := Level(index, reps, inv);
  }

  lemma AllSweptGrows(n: nat, b: nat, gens: seq<Perm>, index0: seq<int>, reps0: seq<Perm>, index: seq<int>,
                      reps: seq<Perm>, k: nat)
    requires k < |reps0| <= |reps| && reps[..|reps0|] == reps0
    requires |index0| == n == |index| && forall x :: 0 <= x < n && index0[x] >= 0 ==> index[x] >= 0
    requires AllSwept(b, gens, index0, reps0, k) && b < |reps0[k]|
    requires Swept(gens, index, reps0[k][b], |gens|)
    ensures AllSwept(b, gens, index, reps, k + 1)
  {
    forall i | 0 <= i < k + 1 ensures b < |reps[i]| && Swept(gens, index, reps[i][b], |gens|) {
      assert reps[i] == reps0[i];
      if i < k {
        var y := reps0[i][b];
        assert Swept(gens, index0, y, |gens|);
        forall j | 0 <= j < |gens| ensures y < |gens[j]| && gens[j][y] < |index| && index[gens[j][y]] >= 0 {
          assert index0[gens[j][y]] >= 0;
        }
      }
    }
  }

  // ----- sifting

  /** One sift step through a built level: the stripped element also fixes the level's base point. */
  lemma SiftStep(n: nat, base: seq<nat>, strong: seq<Perm>, levels: seq<Level>, l: nat, h: Perm)
    requires l < |base| == |levels| && WellFormed(n, base, strong)
    requires Built(n, base[l], Fixing(strong, base, l), levels[l])
    requires IsPerm(n, h) && Fixes(h, base[..l])
    requires levels[l].index[h[base[l]]] >= 0
    ensures var w := levels[l].inv[levels[l].index[h[base[l]]]];
            IsPerm(n, w) && InGroup(n, Fixing(strong, base, l), w) && Fixes(Compose(n, h, w), base[..l + 1])
  {
    var k := levels[l].index[h[base[l]]];
    var r, w := levels[l].reps[k], levels[l].inv[k];
    assert Represents(base[l], levels[l].index, levels[l].reps, h[base[l]]);
    GroupInverse(n, Fixing(strong, base, l), r);
    GroupFixes(n, Fixing(strong, base, l), base[..l], w);
    var c := Compose(n, h, w);
    assert w[r[base[l]]] == base[l];
    forall i | 0 <= i < l ensures c[base[i]] == base[i] {
      assert base[..l][i] == base[i];
    }
  }

  lemma FixingShrinks(strong: seq<Perm>, base: seq<nat>, k: nat, m: nat)
    requires k <= m <= |base|
    ensures Fixing(strong, base, m) <= Fixing(strong, base, k)
  {
    forall s | s in Fixing(strong, base, m) ensures s in Fixing(strong, base, k) {
      FixesPrefix(s, base, k, m);
    }
  }

  /** h == h0 t for some t spanned by gens. */
  ghost predicate Stripped(n: nat, gens: set<Perm>, h0: Perm, h: Perm) {
    IsPerm(n, h0) && IsPerm(n, h) && InGroup(n, gens, Compose(n, Inverse(n, h0), h))
  }

  lemma StrippedSelf(n: nat, gens: set<Perm>, h: Perm)
    requires IsPerm(n, h)
    ensures Stripped(n, gens, h, h)
  {
    ComposeInverse(n, h);
    GroupId(n, gens);
  }

  lemma StrippedStep(n: nat, gens: set<Perm>, h0: Perm, h: Perm, w: Perm)
    requires Stripped(n, gens, h0, h) && InGroup(n, gens, w)
    ensures IsPerm(n, w) && Stripped(n, gens, h0, Compose(n, h, w))
  {
    GroupPerm(n, gens, w);
    GroupCompose(n, gens, Compose(n, Inverse(n, h0), h), w);
    ComposeAssoc(n, Inverse(n, h0), h, w);
  }

  /** What sifts to the identity was spanned by the generators it sifted through. */
  lemma StrippedToIdentity(n: nat, gens: set<Perm>, h0: Perm)
    requires Stripped(n, gens, h0, Id(n))
    ensures InGroup(n, gens, h0)
  {
    ComposeId(n, Inverse(n, h0));
    GroupInverse(n, gens, Inverse(n, h0));
    InverseInverse(n, h0);
  }

  /** A residue stays in any group that holds the element and the generators. */
  lemma StrippedStaysIn(n: nat, gens: set<Perm>, all: set<Perm>, h0: Perm, h: Perm)
    requires Stripped(n, gens, h0, h) && gens <= all && AllPerms(n, all) && InGroup(n, all, h0)
    ensures InGroup(n, all, h)
  {
    GroupGrows(n, gens, all, Compose(n, Inverse(n, h0), h));
    GroupCompose(n, all, h0, Compose(n, Inverse(n, h0), h));
    SamePerm(n, Compose(n, h0, Compose(n, Inverse(n, h0), h)), h);
  }

  /** The sift loop's state after the levels from..l-1. */
  ghost predicate SiftedTo(n: nat, base: seq<nat>, strong: seq<Perm>, from: nat, l: nat, h0: Perm, h: Perm)
    requires from <= |base| && l <= |base|
  {
    IsPerm(n, h) && Fixes(h, base[..l]) && Stripped(n, Fixing(strong, base, from), h0, h)
  }

  lemma SiftAdvance(n: nat, base: seq<nat>, strong: seq<Perm>, levels: seq<Level>, from: nat, l: nat, h0: Perm, h: Perm)
    requires from <= l < |base| == |levels| && WellFormed(n, base, strong)
    requires DoneFrom(n, base, strong, levels, from)
    requires SiftedTo(n, base, strong, from, l, h0, h)
    requires Shaped(n, levels[l]) && levels[l].index[h[base[l]]] >= 0
    ensures var w := levels[l].inv[levels[l].index[h[base[l]]]];
            IsPerm(n, w) && SiftedTo(n, base, strong, from, l + 1, h0, Compose(n, h, w))
  {
    assert LevelDone(n, base, strong, levels, l);
    SiftStep(n, base, strong, levels, l, h);
    var w := levels[l].inv[levels[l].index[h[base[l]]]];
    FixingShrinks(strong, base, from, l);
    GroupGrows(n, Fixing(strong, base, l), Fixing(strong, base, from), w);
    StrippedStep(n, Fixing(strong, base, from), h0, h, w);
  }

  ghost predicate Shaped(n: nat, level: Level) {
    |level.index| == n && |level.inv| == |level.reps| && forall x :: 0 <= x < n ==> level.index[x] < |level.reps|
  }

  lemma LevelShape(n: nat, base: seq<nat>, strong: seq<Perm>, levels: seq<Level>, from: nat, l: nat)
    requires from <= l < |base| == |levels| && DoneFrom(n, base, strong, levels, from)
    ensures Shaped(n, levels[l])
  {
    assert LevelDone(n, base, strong, levels, l);
  }

  /** The level does not reach x. */
  ghost predicate OffOrbit(n: nat, level: Level, x: nat) {
    |level.index| == n && x < n && level.index[x] < 0
  }

  // ----- closing a level

  lemma FixingAppend(strong: seq<Perm>, s: Perm, base: seq<nat>, k: nat)
    requires k <= |base|
    ensures Fixing(strong + [s], base, k) == Fixing(strong, base, k) + (if Fixes(s, base[..k]) then {s} else {})
  {
  }

  lemma DeeperStayDone(n: nat, base: seq<nat>, strong: seq<Perm>, levels: seq<Level>, h: Perm, j: nat)
    requires j < |base| == |levels|
    requires DoneFrom(n, base, strong, levels, j + 1) && !Fixes(h, base[..j + 1])
    ensures DoneFrom(n, base, strong + [h], levels, j + 1)
  {
    forall l | j + 1 <= l < |base| ensures LevelDone(n, base, strong + [h], levels, l) {
      DeeperUnchanged(strong, base, h, j, l);
      DeeperUnchanged(strong, base, h, j, l + 1);
      assert LevelDone(n, base, strong, levels, l);
    }
  }

  lemma AppendKeepsWellFormed(n: nat, base: seq<nat>, strong: seq<Perm>, base': seq<nat>, h: Perm)
    requires WellFormed(n, base, strong)
    requires |base| <= |base'| && base'[..|base|] == base && (forall l :: 0 <= l < |base'| ==> base'[l] < n)
    requires IsPerm(n, h) && !Fixes(h, base')
    ensures WellFormed(n, base', strong + [h])
  {
    forall s | s in strong + [h] ensures IsPerm(n, s) && !Fixes(s, base') {
      assert base' == base'[..|base'|] && base == base'[..|base|];
      FixesPrefix(s, base', |base|, |base'|);
    }
  }

  method FixesAll(n: nat, base: seq<nat>, s: Perm, k: nat) returns (b: bool)
    requires k <= |base| && IsPerm(n, s) && (forall l :: 0 <= l < |base| ==> base[l] < n)
    ensures b <==> Fixes(s, base[..k])
  {
    for l := 0 to k
      invariant Fixes(s, base[..l])
    {
      if s[base[l]] != base[l] {
        assert base[..k][l] == base[l];
        return false;
      }
      assert base[..l + 1] == base[..l] + [base[l]];
    }
    return true;
  }

  lemma MovedPointIsNew(n: nat, base: seq<nat>, s: Perm, x: nat)
    requires Fixes(s, base) && IsPerm(n, s) && x < n && s[x] != x
    ensures x !in base
  {
  }

  lemma AppendedMoves(base: seq<nat>, x: nat, s: Perm)
    requires !Fixes(s, base)
    ensures !Fixes(s, base + [x])
  {
    var longer := base + [x];
    assert longer[..|base|] == base && longer[..|longer|] == longer;
    FixesPrefix(s, longer, |base|, |longer|);
  }

  /** Adds points to the prefix until every generator moves one. */
  method ExtendBase(n: nat, prefix: seq<nat>, gens: seq<Perm>) returns (base: seq<nat>)
    requires forall i :: 0 <= i < |prefix| ==> prefix[i] < n
    requires forall s :: s in gens ==> IsPerm(n, s) && s != Id(n)
    ensures |prefix| <= |base| && base[..|prefix|] == prefix && Distinct(base[|prefix|..])
    ensures WellFormed(n, base, gens)
  {
    base := prefix;
    for i := 0 to |gens|
      invariant |prefix| <= |base| && base[..|prefix|] == prefix && Distinct(base[|prefix|..])
      invariant forall l :: 0 <= l < |base| ==> base[l] < n
      invariant forall m :: 0 <= m < i ==> !Fixes(gens[m], base)
    {
      assert base[..|base|] == base;
      var fixes := FixesAll(n, base, gens[i], |base|);
      if fixes {
        var x := FirstMoved(n, gens[i]);
        MovedPointIsNew(n, base, gens[i], x);
        forall m | 0 <= m < i ensures !Fixes(gens[m], base + [x]) { AppendedMoves(base, x, gens[m]); }
        assert (base + [x])[|base|] == x;
        assert (base + [x])[|prefix|..] == base[|prefix|..] + [x];
        base := base + [x];
      }
    }
  }

  /** What the residue h of a sift that stopped at level j leaves behind. */
  lemma ResidueAdded(n: nat, base: seq<nat>, strong: seq<Perm>, levels: seq<Level>, base': seq<nat>, h: Perm, j: nat,
                     m: nat)
    requires WellFormed(n, base, strong) && |levels| == |base| && j <= |base| && DoneFrom(n, base, strong, levels, j)
    requires IsPerm(n, h) && Fixes(h, base[..j])
    requires if j < |base| then base' == base && OffOrbit(n, levels[j], h[base[j]])
             else exists x: nat :: x < n && h[x] != x && base' == base + [x]
    requires |base'| <= m
    ensures j < |base'| && WellFormed(n, base', strong + [h])
    ensures !Fixes(h, base'[..j + 1])
    ensures Slack(n, base', strong + [h], 0, m) < Slack(n, base, strong, 0, m)
  {
    if j < |base| {
      assert LevelDone(n, base, strong, levels, j);
      OffOrbitMoves(n, base[j], Fixing(strong, base, j), levels[j], h);
    }
    assert h[base'[j]] != base'[j] && base'[..j + 1][j] == base'[j];
    assert base'[..|base|] == base && base'[..j] == base[..j];
    assert base'[..|base'|] == base';
    FixesPrefix(h, base', j + 1, |base'|);
    AppendKeepsWellFormed(n, base, strong, base', h);
    SlackDrops(n, base, strong, base', h, j, 0, m);
  }

  lemma OffOrbitMoves(n: nat, b: nat, gens: set<Perm>, level: Level, h: Perm)
    requires Built(n, b, gens, level) && IsPerm(n, h) && OffOrbit(n, level, h[b])
    ensures h[b] != b && h[b] !in Orbit(n, gens, b)
  {
    assert level.reps[0][b] == b && level.index[level.reps[0][b]] == 0;
    BuiltHoldsOrbit(n, b, gens, level);
  }

  /** What adding a residue did to a chain: base and strong generators grew, some level j > i was
      reopened, the levels deeper than j are done, and the slack dropped. */
  ghost predicate Reopened(n: nat, m0: nat, i: nat, base0: seq<nat>, strong0: seq<Perm>,
                           base: seq<nat>, strong: seq<Perm>, levels: seq<Level>, grown: Option<nat>) {
    && WellFormed(n, base0, strong0) && WellFormed(n, base, strong) && |levels| == |base|
    && |base0| <= |base| && base[..|base0|] == base0 && Elements(strong0) <= Elements(strong)
    && grown.Some? && i < grown.value < |base| && DoneFrom(n, base, strong, levels, grown.value + 1)
    && Slack(n, base, strong, 0, m0 + n) < Slack(n, base0, strong0, 0, m0 + n)
  }

  lemma SameSpan(n: nat, strong: set<Perm>, gens: set<Perm>, p: Perm)
    requires gens <= strong && AllPerms(n, strong) && forall s :: s in strong ==> InGroup(n, gens, s)
    ensures InGroup(n, strong, p) <==> InGroup(n, gens, p)
  {
    if InGroup(n, strong, p) { GroupSpan(n, strong, gens, p); }
    if InGroup(n, gens, p) { GroupGrows(n, gens, strong, p); }
  }

  /** The Schreier generator, composed as the source composes it. */
  method FormGenerator(n: nat, b: nat, ghost gens: set<Perm>, level: Level, k: nat, s: Perm) returns (h: Perm)
    requires Built(n, b, gens, level) && k < |level.reps| && s in gens
    ensures h == SchreierGenerator(n, b, gens, level, k, s)
  {
    var us := ComposeLoop(n, level.reps[k], s);
    assert us[b] == s[level.reps[k][b]];
    assert level.index[s[level.reps[k][b]]] >= 0;
    h := ComposeLoop(n, us, level.inv[level.index[us[b]]]);
  }

  class StabiliserChain {
    const n: nat
    var base: seq<nat>
    var strong: seq<Perm>
    var levels: seq<Level>

    ghost predicate Shape()
      reads this
    {
      WellFormed(n, base, strong) && |levels| == |base|
    }

    /** The invariant once built. */
    ghost predicate Valid()
      reads this
    {
      Shape() && DoneFrom(n, base, strong, levels, 0)
    }

    /** While building: the base is the caller's prefix, m0 points long, plus distinct moved points,
        and the strong generators stay inside the span of G. */
    ghost predicate Growing(m0: nat, G: set<Perm>)
      reads this
    {
      && Shape() && m0 <= |base| <= m0 + n && Distinct(base[m0..])
      && forall s :: s in strong ==> InGroup(n, G, s)
    }

    constructor (n: nat, prefix: seq<nat>, gens: seq<Perm>)
      requires forall i :: 0 <= i < |prefix| ==> prefix[i] < n
      requires forall s :: s in gens ==> IsPerm(n, s) && s != Id(n)
      ensures this.n == n && Valid()
      ensures |prefix| <= |base| && base[..|prefix|] == prefix
      ensures forall k: nat, p :: k <= |base| ==>
                (InGroup(n, Fixing(strong, base, k), p) <==> InStabiliser(n, Elements(gens), base[..k], p))
    {
      var b := ExtendBase(n, prefix, gens);
      this.n := n;
      this.base := b;
      this.strong := gens;
      this.levels := seq(|b|, _ => Level([], [], []));
      new;
      ghost var G := Elements(gens);
      BaseBounded(n, base, |prefix|);
      forall s | s in strong ensures InGroup(n, G, s) { GroupLetter(n, G, s); }
      var i := |base|;
      while i > 0
        invariant Growing(|prefix|, G) && 0 <= i <= |base|
        invariant base[..|prefix|] == prefix && G <= Elements(strong)
        invariant DoneFrom(n, base, strong, levels, i)
        decreases Slack(n, base, strong, 0, |prefix| + n), i
      {
        ghost var base0 := base;
        var grown := CloseLevel(i - 1, |prefix|, G);
        assert base[..|prefix|] == base0[..|prefix|];
        i := match grown case None => i - 1 case Some(j) => j + 1;
      }
      forall k: nat, p | k <= |base|
        ensures InGroup(n, Fixing(strong, base, k), p) <==> InStabiliser(n, G, base[..k], p)
      {
        ChainStabilises(n, base, strong, levels, k, p);
        SameSpan(n, Elements(strong), G, p);
      }
    }

    /** Those of the strong generators that move none of the first k base points, in order. */
    method StabiliserGenerators(k: nat) returns (r: seq<Perm>)
      requires k <= |base| && WellFormed(n, base, strong)
      ensures Elements(r) == Fixing(strong, base, k)
    {
      r := [];
      for i := 0 to |strong|
        invariant Elements(r) == Fixing(strong[..i], base, k)
      {
        assert strong[..i + 1] == strong[..i] + [strong[i]];
        FixingAppend(strong[..i], strong[i], base, k);
        var b := FixesAll(n, base, strong[i], k);
        if b {
          assert Elements(r + [strong[i]]) == Elements(r) + {strong[i]};
          r := r + [strong[i]];
        }
      }
      assert strong[..|strong|] == strong;
    }

    /** Strips h0 through the levels from..end; j is where it stopped. */
    method Sift(h0: Perm, from: nat) returns (h: Perm, j: nat)
      requires Shape() && from <= |base| && DoneFrom(n, base, strong, levels, from)
      requires IsPerm(n, h0) && Fixes(h0, base[..from])
      ensures from <= j <= |base| && SiftedTo(n, base, strong, from, j, h0, h)
      ensures j < |base| ==> OffOrbit(n, levels[j], h[base[j]])
    {
      h := h0;
      StrippedSelf(n, Fixing(strong, base, from), h0);
      for l := from to |base|
        invariant SiftedTo(n, base, strong, from, l, h0, h)
      {
        LevelShape(n, base, strong, levels, from, l);
        var k := levels[l].index[h[base[l]]];
        if k < 0 {
          return h, l;
        }
        SiftAdvance(n, base, strong, levels, from, l, h0, h);
        h := ComposeLoop(n, h, levels[l].inv[k]);
      }
      j := |base|;
    }

    /** Rebuilds level i and checks its Schreier generators. None: the level is done. Some(j): a
        residue was added that reopens level j, and the levels deeper than j are still done. */
    method CloseLevel(i: nat, ghost m0: nat, ghost G: set<Perm>) returns (grown: Option<nat>)
      requires Growing(m0, G) && i < |base| && DoneFrom(n, base, strong, levels, i + 1)
      modifies this`base, this`strong, this`levels
      ensures Growing(m0, G)
      ensures grown.None? ==> base == old(base) && strong == old(strong) && DoneFrom(n, base, strong, levels, i)
      ensures grown.Some? ==> Reopened(n, m0, i, old(base), old(strong), base, strong, levels, grown)
    {
      var gens := StabiliserGenerators(i);
      var level := BuildLevel(n, base[i], gens);
      levels := levels[i := level];
      ShallowRebuilt(n, base, strong, old(levels), i, level);
      grown := CheckLevel(i, level, gens, m0, G);
    }

    /** Checks every Schreier generator of the built level i. */
    method CheckLevel(i: nat, level: Level, gens: seq<Perm>, ghost m0: nat,
                      ghost G: set<Perm>) returns (grown: Option<nat>)
      requires Growing(m0, G) && i < |base| && DoneFrom(n, base, strong, levels, i + 1)
      requires Built(n, base[i], Fixing(strong, base, i), level) && levels[i] == level
      requires Elements(gens) == Fixing(strong, base, i)
      modifies this`base, this`strong, this`levels
      ensures Growing(m0, G)
      ensures grown.None? ==> base == old(base) && strong == old(strong) && DoneFrom(n, base, strong, levels, i)
      ensures grown.Some? ==> Reopened(n, m0, i, old(base), old(strong), base, strong, levels, grown)
    {
      for k := 0 to |level.reps|
        invariant base == old(base) && strong == old(strong) && levels == old(levels)
        invariant forall k' :: 0 <= k' < k ==> Checked(n, base, strong, i, level, gens, k', |gens|)
      {
        var ok;
        ok, grown := CheckRow(i, level, gens, k, m0, G);
        if !ok {
          return;
        }
      }
      grown := None;
      LevelChecked(n, base, strong, levels, i, gens);
    }

    /** The Schreier generators of the k-th representative. */
    method CheckRow(i: nat, level: Level, gens: seq<Perm>, k: nat, ghost m0: nat, ghost G: set<Perm>)
        returns (ok: bool, grown: Option<nat>)
      requires Growing(m0, G) && i < |base| && DoneFrom(n, base, strong, levels, i + 1)
      requires Built(n, base[i], Fixing(strong, base, i), level) && k < |level.reps|
      requires Elements(gens) == Fixing(strong, base, i)
      modifies this`base, this`strong, this`levels
      ensures ok ==> base == old(base) && strong == old(strong) && levels == old(levels)
      ensures ok ==> Checked(n, base, strong, i, level, gens, k, |gens|)
      ensures !ok ==> Growing(m0, G) && Reopened(n, m0, i, old(base), old(strong), base, strong, levels, grown)
    {
      for m := 0 to |gens|
        invariant base == old(base) && strong == old(strong) && levels == old(levels)
        invariant Checked(n, base, strong, i, level, gens, k, m)
      {
        assert gens[m] in Elements(gens);
        ok, grown := CheckGenerator(i, level, k, gens[m], m0, G);
        if !ok {
          return;
        }
        CheckedStep(n, base, strong, i, level, gens, k, m);
      }
      return true, None;
    }

    /** Sifts one Schreier generator of level i; ok when it sifts to the identity, otherwise its
        residue is stored. */
    method CheckGenerator(i: nat, level: Level, k: nat, s: Perm, ghost m0: nat, ghost G: set<Perm>)
        returns (ok: bool, grown: Option<nat>)
      requires Growing(m0, G) && i < |base| && DoneFrom(n, base, strong, levels, i + 1)
      requires Built(n, base[i], Fixing(strong, base, i), level) && k < |level.reps| && s in Fixing(strong, base, i)
      modifies this`base, this`strong, this`levels
      ensures ok ==> grown == None && base == old(base) && strong == old(strong) && levels == old(levels)
      ensures ok ==>
                InGroup(n, Fixing(strong, base, i + 1), SchreierGenerator(n, base[i], Fixing(strong, base, i), level, k, s))
      ensures !ok ==> Growing(m0, G) && Reopened(n, m0, i, old(base), old(strong), base, strong, levels, grown)
    {
      var h0 := FormGenerator(n, base[i], Fixing(strong, base, i), level, k, s);
      SchreierGeneratorIn(n, base, strong, i, level, k, s);
      var h, j := Sift(h0, i + 1);
      var isId := IsIdentity(n, h);
      if j == |base| && isId {
        StrippedToIdentity(n, Fixing(strong, base, i + 1), h0);
        return true, None;
      }
      ResidueIn(n, base, strong, i, G, h0, h);
      AddResidue(h, i, j, m0, G);
      return false, Some(j);
    }

    /** Stores the residue; a residue that passed every level opens a new one. */
    method AddResidue(h: Perm, ghost i: nat, j: nat, ghost m0: nat, ghost G: set<Perm>)
      requires Growing(m0, G) && i < j <= |base| && DoneFrom(n, base, strong, levels, j)
      requires IsPerm(n, h) && InGroup(n, G, h) && Fixes(h, base[..j])
      requires if j < |base| then OffOrbit(n, levels[j], h[base[j]]) else h != Id(n)
      modifies this`base, this`strong, this`levels
      ensures Growing(m0, G)
      ensures strong == old(strong) + [h]
      ensures Reopened(n, m0, i, old(base), old(strong), base, strong, levels, Some(j))
    {
      var base', levels' := base, levels;
      if j == |base| {
        var x := FirstMoved(n, h);
        OpenedLevel(n, base, m0, h, x);
        base' := base + [x];
        levels' := levels + [Level([], [], [])];
      }
      ResidueReopens(n, m0, G, base, strong, levels, base', levels', h, i, j);
      base, levels, strong := base', levels', strong + [h];
    }
  }

  /** The state after a residue is stored. */
  lemma ResidueReopens(n: nat, m0: nat, G: set<Perm>, base: seq<nat>, strong: seq<Perm>, levels: seq<Level>,
                       base': seq<nat>, levels': seq<Level>, h: Perm, i: nat, j: nat)
    requires WellFormed(n, base, strong) && |levels| == |base| && i < j <= |base|
             && DoneFrom(n, base, strong, levels, j)
    requires IsPerm(n, h) && InGroup(n, G, h) && Fixes(h, base[..j]) && forall s :: s in strong ==> InGroup(n, G, s)
    requires if j < |base| then base' == base && levels' == levels && OffOrbit(n, levels[j], h[base[j]])
             else exists x: nat :: x < n && h[x] != x && base' == base + [x]
    requires |levels'| == |base'| <= m0 + n
    ensures Reopened(n, m0, i, base, strong, base', strong + [h], levels', Some(j))
    ensures forall s :: s in strong + [h] ==> InGroup(n, G, s)
  {
    ResidueAdded(n, base, strong, levels, base', h, j, m0 + n);
    if j < |base| {
      DeeperStayDone(n, base, strong, levels, h, j);
    }
  }

  lemma OpenedLevel(n: nat, base: seq<nat>, m0: nat, h: Perm, x: nat)
    requires m0 <= |base| && Distinct(base[m0..]) && (forall l :: 0 <= l < |base| ==> base[l] < n)
    requires IsPerm(n, h) && Fixes(h, base[..|base|]) && x < n && h[x] != x
    ensures Distinct((base + [x])[m0..]) && |base| + 1 <= m0 + n
  {
    assert base[..|base|] == base;
    MovedPointIsNew(n, base, h, x);
    assert (base + [x])[m0..] == base[m0..] + [x];
    BaseBounded(n, base + [x], m0);
  }

  /** The Schreier generators of the k-th representative with gens[..m] are spanned one level down. */
  ghost predicate Checked(n: nat, base: seq<nat>, strong: seq<Perm>, i: nat, level: Level, gens: seq<Perm>, k: nat,
                          m: nat)
    requires i < |base| && m <= |gens|
  {
    && Built(n, base[i], Fixing(strong, base, i), level) && k < |level.reps|
    && Elements(gens) == Fixing(strong, base, i)
    && (forall j :: 0 <= j < m ==>
          && gens[j] in Fixing(strong, base, i)
          && InGroup(n, Fixing(strong, base, i + 1), SchreierGenerator(n, base[i], Fixing(strong, base, i), level, k, gens[j])))
  }

  lemma LevelChecked(n: nat, base: seq<nat>, strong: seq<Perm>, levels: seq<Level>, i: nat, gens: seq<Perm>)
    requires i < |base| == |levels| && Built(n, base[i], Fixing(strong, base, i), levels[i])
    requires Elements(gens) == Fixing(strong, base, i)
    requires forall k :: 0 <= k < |levels[i].reps| ==> Checked(n, base, strong, i, levels[i], gens, k, |gens|)
    requires DoneFrom(n, base, strong, levels, i + 1)
    ensures DoneFrom(n, base, strong, levels, i)
  {
    CheckedAll(n, base, strong, i, levels[i], gens);
    LevelsDoneFrom(n, base, strong, levels, i);
  }

  lemma ShallowRebuilt(n: nat, base: seq<nat>, strong: seq<Perm>, levels: seq<Level>, i: nat, level: Level)
    requires i < |base| == |levels| && DoneFrom(n, base, strong, levels, i + 1)
    ensures DoneFrom(n, base, strong, levels[i := level], i + 1)
  {
    var levels' := levels[i := level];
    forall l | i + 1 <= l < |base| ensures LevelDone(n, base, strong, levels', l) {
      assert levels'[l] == levels[l] && LevelDone(n, base, strong, levels, l);
    }
  }

  lemma LevelsDoneFrom(n: nat, base: seq<nat>, strong: seq<Perm>, levels: seq<Level>, i: nat)
    requires i < |base| == |levels| && LevelDone(n, base, strong, levels, i)
    requires DoneFrom(n, base, strong, levels, i + 1)
    ensures DoneFrom(n, base, strong, levels, i)
  {
  }

  lemma CheckedStep(n: nat, base: seq<nat>, strong: seq<Perm>, i: nat, level: Level, gens: seq<Perm>, k: nat, m: nat)
    requires i < |base| && m < |gens| && Checked(n, base, strong, i, level, gens, k, m)
    requires gens[m] in Fixing(strong, base, i)
    requires InGroup(n, Fixing(strong, base, i + 1), SchreierGenerator(n, base[i], Fixing(strong, base, i), level, k, gens[m]))
    ensures Checked(n, base, strong, i, level, gens, k, m + 1)
  {
  }

  lemma CheckedAll(n: nat, base: seq<nat>, strong: seq<Perm>, i: nat, level: Level, gens: seq<Perm>)
    requires i < |base| && Built(n, base[i], Fixing(strong, base, i), level)
    requires Elements(gens) == Fixing(strong, base, i)
    requires forall k :: 0 <= k < |level.reps| ==> Checked(n, base, strong, i, level, gens, k, |gens|)
    ensures Closed(n, base[i], Fixing(strong, base, i), Fixing(strong, base, i + 1), level)
  {
    forall k, s | 0 <= k < |level.reps| && s in Fixing(strong, base, i)
      ensures InGroup(n, Fixing(strong, base, i + 1), SchreierGenerator(n, base[i], Fixing(strong, base, i), level, k, s))
    {
      assert Checked(n, base, strong, i, level, gens, k, |gens|);
      var j :| 0 <= j < |gens| && gens[j] == s;
    }
  }

  lemma BaseBounded(n: nat, base: seq<nat>, m0: nat)
    requires m0 <= |base| && Distinct(base[m0..]) && (forall l :: 0 <= l < |base| ==> base[l] < n)
    ensures |base| <= m0 + n
  {
    DistinctSize(base[m0..]);
    forall x | x in Elements(base[m0..]) ensures x in Below(n) {
      var i :| 0 <= i < |base[m0..]| && base[m0..][i] == x;
      assert x == base[m0 + i];
    }
    SubsetSize(Elements(base[m0..]), Below(n));
  }

  /** A Schreier generator of level i fixes base[..i+1] and lies in the span of that level's generators. */
  lemma SchreierGeneratorIn(n: nat, base: seq<nat>, strong: seq<Perm>, i: nat, level: Level, k: nat, s: Perm)
    requires i < |base| && WellFormed(n, base, strong)
    requires Built(n, base[i], Fixing(strong, base, i), level)
    requires k < |level.reps| && s in Fixing(strong, base, i)
    ensures var h := SchreierGenerator(n, base[i], Fixing(strong, base, i), level, k, s);
            InGroup(n, Fixing(strong, base, i), h) && Fixes(h, base[..i + 1])
  {
    var S := Fixing(strong, base, i);
    var h := SchreierGenerator(n, base[i], S, level, k, s);
    GeneratorInGroup(n, base[i], S, level, k, s);
    GroupFixes(n, S, base[..i], h);
    assert base[..i + 1] == base[..i] + [base[i]];
  }

  lemma GeneratorInGroup(n: nat, b: nat, gens: set<Perm>, level: Level, k: nat, s: Perm)
    requires Built(n, b, gens, level) && k < |level.reps| && s in gens
    ensures InGroup(n, gens, SchreierGenerator(n, b, gens, level, k, s))
  {
    var m := level.index[s[level.reps[k][b]]];
    assert InGroup(n, gens, level.reps[k]) && InGroup(n, gens, level.reps[m]);
    GroupLetter(n, gens, s);
    GroupCompose(n, gens, level.reps[k], s);
    GroupInverse(n, gens, level.reps[m]);
    GroupCompose(n, gens, Compose(n, level.reps[k], s), level.inv[m]);
  }

  lemma ResidueIn(n: nat, base: seq<nat>, strong: seq<Perm>, i: nat, G: set<Perm>, h0: Perm, h: Perm)
    requires i < |base| && WellFormed(n, base, strong)
    requires InGroup(n, Fixing(strong, base, i), h0)
    requires Stripped(n, Fixing(strong, base, i + 1), h0, h)
    requires forall s :: s in strong ==> InGroup(n, G, s)
    ensures InGroup(n, G, h)
  {
    GroupGrows(n, Fixing(strong, base, i), Elements(strong), h0);
    StrippedStaysIn(n, Fixing(strong, base, i + 1), Elements(strong), h0, h);
    GroupSpan(n, Elements(strong), G, h);
  }
}
