/** Why the construction of Schreier and Sims gives pointwise stabilisers: levels of orbits, Schreier's lemma, and
    the measure that every new generator lowers. */
module SchreierSims {
  import opened Orders
  import opened Permutations

  /** One orbit: index holds each orbit point's number, and -1 elsewhere; reps takes the base point to the orbit points
      in the order of their numbers, and inv takes them back. */
  datatype Level = Level(index: seq<int>, reps: seq<Perm>, inv: seq<Perm>)

  /** Those of the strong generators that move none of the first k base points. */
  ghost function Fixing(strong: seq<Perm>, base: seq<nat>, k: nat): set<Perm>
    requires k <= |base|
  {
    set s | s in strong && Fixes(s, base[..k])
  }

  ghost predicate WellFormed(n: nat, base: seq<nat>, strong: seq<Perm>) {
    && (forall l :: 0 <= l < |base| ==> base[l] < n)
    && (forall s :: s in strong ==> IsPerm(n, s) && !Fixes(s, base))
  }

  // ----- one level

  /** The representative stored for x maps b to x. */
  ghost predicate Represents(b: nat, index: seq<int>, reps: seq<Perm>, x: nat) {
    x < |index| && 0 <= index[x] < |reps| && b < |reps[index[x]]| && reps[index[x]][b] == x
  }

  /** The level holds the orbit of b under the group of gens, with representatives. */
  ghost predicate Built(n: nat, b: nat, gens: set<Perm>, level: Level) {
    && b < n && AllPerms(n, gens)
    && |level.index| == n && |level.reps| == |level.inv|
    && 0 < |level.reps| && level.reps[0] == Id(n)
    && (forall k :: 0 <= k < |level.reps| ==> IsPerm(n, level.reps[k]) && level.inv[k] == Inverse(n, level.reps[k]))
    && (forall k {:trigger InGroup(n, gens, level.reps[k])} :: 0 <= k < |level.reps| ==>
          InGroup(n, gens, level.reps[k]))
    && (forall k :: 0 <= k < |level.reps| ==> level.index[level.reps[k][b]] == k)
    && (forall x :: 0 <= x < n ==> -1 <= level.index[x] < |level.reps|)
    && (forall x: nat {:trigger Represents(b, level.index, level.reps, x)} :: x < n && level.index[x] >= 0 ==>
          Represents(b, level.index, level.reps, x))
    && (forall k, s {:trigger level.index[s[level.reps[k][b]]]} ::
          0 <= k < |level.reps| && s in gens ==> level.index[s[level.reps[k][b]]] >= 0)
  }

  /** The points the level reaches. */
  ghost function Reached(n: nat, level: Level): set<nat>
    requires |level.index| == n
  {
    set x | x in Below(n) && level.index[x] >= 0
  }

  /** The k-th representative, then s, then back along the representative of the point reached. */
  ghost function SchreierGenerator(n: nat, b: nat, gens: set<Perm>, level: Level, k: nat, s: Perm): (h: Perm)
    requires Built(n, b, gens, level) && k < |level.reps| && s in gens
    ensures IsPerm(n, h) && h[b] == b
  {
    var z := s[level.reps[k][b]];
    assert level.inv[level.index[z]] == Inverse(n, level.reps[level.index[z]]);
    assert Represents(b, level.index, level.reps, z);
    var h := Compose(n, Compose(n, level.reps[k], s), level.inv[level.index[z]]);
    assert h[b] == Inverse(n, level.reps[level.index[z]])[z];
    h
  }

  /** Every Schreier generator of the level is in the span of sub. */
  ghost predicate SchreierClosed(n: nat, b: nat, gens: set<Perm>, sub: set<Perm>, level: Level)
    requires Built(n, b, gens, level)
  {
    forall k, s {:trigger SchreierGenerator(n, b, gens, level, k, s)} ::
      0 <= k < |level.reps| && s in gens ==> InGroup(n, sub, SchreierGenerator(n, b, gens, level, k, s))
  }

  lemma ReachedStep(n: nat, b: nat, gens: set<Perm>, level: Level, t: Perm, x: nat)
    requires Built(n, b, gens, level) && t in gens && x in Reached(n, level)
    ensures t[x] in Reached(n, level)
  {
    var k := level.index[x];
    assert Represents(b, level.index, level.reps, x);
    assert level.index[t[level.reps[k][b]]] >= 0;
  }

  lemma ReachedClosed(n: nat, b: nat, gens: set<Perm>, level: Level, s: Perm)
    requires Built(n, b, gens, level) && Letter(n, gens, s)
    ensures MapsInto(n, s, Reached(n, level))
  {
    forall t | t in gens ensures MapsInto(n, t, Reached(n, level)) {
      forall x | x in Reached(n, level) ensures t[x] in Reached(n, level) {
        ReachedStep(n, b, gens, level, t, x);
      }
    }
    LetterMapsInto(n, gens, s, Reached(n, level));
  }

  /** (rep(x) s^-1) (rep(s^-1 x))^-1 is the inverse of the Schreier generator at s^-1 x. */
  lemma BackwardGenerator(n: nat, s: Perm, rx: Perm, ry: Perm)
    requires IsPerm(n, s) && IsPerm(n, rx) && IsPerm(n, ry)
    ensures Compose(n, Compose(n, rx, Inverse(n, s)), Inverse(n, ry))
            == Inverse(n, Compose(n, Compose(n, ry, s), Inverse(n, rx)))
  {
    InverseCompose(n, Compose(n, ry, s), Inverse(n, rx));
    InverseCompose(n, ry, s);
    InverseInverse(n, rx);
    ComposeAssoc(n, rx, Inverse(n, s), Inverse(n, ry));
  }

  /** One letter of Schreier's argument: rep(x) s rep(s[x])^-1 is in the span of sub. */
  lemma SchreierLetter(n: nat, b: nat, gens: set<Perm>, sub: set<Perm>, level: Level, x: nat, s: Perm)
    requires Built(n, b, gens, level) && SchreierClosed(n, b, gens, sub, level)
    requires Letter(n, gens, s) && x in Reached(n, level)
    ensures s[x] in Reached(n, level)
    ensures InGroup(n, sub, Compose(n, Compose(n, level.reps[level.index[x]], s), level.inv[level.index[s[x]]]))
  {
    ReachedClosed(n, b, gens, level, s);
    var k := level.index[x];
    assert Represents(b, level.index, level.reps, x);
    if s in gens {
      assert SchreierGenerator(n, b, gens, level, k, s)
          == Compose(n, Compose(n, level.reps[k], s), level.inv[level.index[s[x]]]);
    } else {
      var t := Inverse(n, s);
      var y := s[x];
      var m := level.index[y];
      assert Represents(b, level.index, level.reps, y) && t[y] == x;
      var g := SchreierGenerator(n, b, gens, level, m, t);
      assert g == Compose(n, Compose(n, level.reps[m], t), Inverse(n, level.reps[k]));
      GroupInverse(n, sub, g);
      InverseInverse(n, s);
      BackwardGenerator(n, t, level.reps[k], level.reps[m]);
    }
  }

  /** (p r^-1)(r s q) == (p s) q, the telescoping step. */
  lemma Telescope(n: nat, p: Perm, r: Perm, s: Perm, q: Perm)
    requires IsPerm(n, p) && IsPerm(n, r) && IsPerm(n, s) && IsPerm(n, q)
    ensures Compose(n, Compose(n, p, Inverse(n, r)), Compose(n, Compose(n, r, s), q))
            == Compose(n, Compose(n, p, s), q)
  {
    SamePerm(n, Compose(n, Compose(n, p, Inverse(n, r)), Compose(n, Compose(n, r, s), q)),
             Compose(n, Compose(n, p, s), q));
  }

  lemma {:induction false} SchreierWord(n: nat, b: nat, gens: set<Perm>, sub: set<Perm>, level: Level, w: seq<Perm>)
    requires Built(n, b, gens, level) && SchreierClosed(n, b, gens, sub, level)
    requires Word(n, gens, w)
    ensures Product(n, gens, w)[b] in Reached(n, level)
    ensures InGroup(n, sub, Compose(n, Product(n, gens, w), level.inv[level.index[Product(n, gens, w)[b]]]))
  {
    if w == [] {
      assert level.reps[0][b] == b;
      ComposeInverse(n, Id(n));
      GroupId(n, sub);
    } else {
      var w', s := w[..|w| - 1], w[|w| - 1];
      assert Letter(n, gens, s);
      SchreierWord(n, b, gens, sub, level, w');
      var p := Product(n, gens, w');
      var x := p[b];
      SchreierLetter(n, b, gens, sub, level, x, s);
      var r, q := level.reps[level.index[x]], level.inv[level.index[s[x]]];
      GroupCompose(n, sub, Compose(n, p, Inverse(n, r)), Compose(n, Compose(n, r, s), q));
      Telescope(n, p, r, s, q);
    }
  }

  /** Schreier's lemma: if all Schreier generators lie in the span of sub, so does every element of
      the group that fixes the level's base point. */
  lemma SchreierLemma(n: nat, b: nat, gens: set<Perm>, sub: set<Perm>, level: Level, p: Perm)
    requires Built(n, b, gens, level) && SchreierClosed(n, b, gens, sub, level)
    requires InGroup(n, gens, p) && p[b] == b
    ensures InGroup(n, sub, p)
  {
    var w :| Word(n, gens, w) && Product(n, gens, w) == p;
    SchreierWord(n, b, gens, sub, level, w);
    assert level.reps[0][b] == b;
    assert level.index[b] == 0 && level.inv[0] == Inverse(n, Id(n));
    InverseUnique(n, Id(n), Id(n));
    ComposeId(n, p);
  }

  // ----- the orbit a level holds

  ghost predicate Reaches(n: nat, gens: set<Perm>, b: nat, x: nat)
    requires b < n
  {
    exists p :: InGroup(n, gens, p) && p[b] == x
  }

  ghost function Orbit(n: nat, gens: set<Perm>, b: nat): set<nat>
    requires b < n
  {
    set x | x in Below(n) && Reaches(n, gens, b, x)
  }

  lemma {:induction false} WordStaysReached(n: nat, b: nat, gens: set<Perm>, level: Level, w: seq<Perm>)
    requires Built(n, b, gens, level) && Word(n, gens, w)
    ensures Product(n, gens, w)[b] in Reached(n, level)
  {
    if w == [] {
      assert level.reps[0][b] == b;
    } else {
      assert Letter(n, gens, w[|w| - 1]);
      WordStaysReached(n, b, gens, level, w[..|w| - 1]);
      ReachedClosed(n, b, gens, level, w[|w| - 1]);
    }
  }

  /** A built level holds exactly the orbit of its base point. */
  lemma BuiltHoldsOrbit(n: nat, b: nat, gens: set<Perm>, level: Level)
    requires Built(n, b, gens, level)
    ensures Reached(n, level) == Orbit(n, gens, b)
  {
    forall x | x in Reached(n, level) ensures x in Orbit(n, gens, b) {
      assert Represents(b, level.index, level.reps, x);
      var p := level.reps[level.index[x]];
      assert InGroup(n, gens, p) && p[b] == x;
    }
    forall x | x in Orbit(n, gens, b) ensures x in Reached(n, level) {
      var p :| InGroup(n, gens, p) && p[b] == x;
      var w :| Word(n, gens, w) && Product(n, gens, w) == p;
      WordStaysReached(n, b, gens, level, w);
    }
  }

  lemma OrbitGrows(n: nat, gens: set<Perm>, more: set<Perm>, b: nat)
    requires AllPerms(n, more) && gens <= more && b < n
    ensures Orbit(n, gens, b) <= Orbit(n, more, b)
  {
    forall x | x in Orbit(n, gens, b) ensures x in Orbit(n, more, b) {
      var p :| InGroup(n, gens, p) && p[b] == x;
      GroupGrows(n, gens, more, p);
    }
  }

  // ----- the whole chain

  /** The level holds the orbit of b under gens, and all its Schreier generators are in the span of
      sub, the generators that also fix b. */
  ghost predicate Closed(n: nat, b: nat, gens: set<Perm>, sub: set<Perm>, level: Level) {
    Built(n, b, gens, level) && SchreierClosed(n, b, gens, sub, level)
  }

  ghost predicate LevelDone(n: nat, base: seq<nat>, strong: seq<Perm>, levels: seq<Level>, l: nat)
    requires l < |base| == |levels|
  {
    Closed(n, base[l], Fixing(strong, base, l), Fixing(strong, base, l + 1), levels[l])
  }

  ghost predicate DoneFrom(n: nat, base: seq<nat>, strong: seq<Perm>, levels: seq<Level>, from: nat)
    requires |base| == |levels|
  {
    forall l :: from <= l < |base| ==> LevelDone(n, base, strong, levels, l)
  }

  /** With every level done, the strong generators fixing base[..k] span the stabiliser of base[..k]. */
  lemma {:induction false} ChainStabilises(n: nat, base: seq<nat>, strong: seq<Perm>, levels: seq<Level>, k: nat, p: Perm)
    requires |base| == |levels| && k <= |base|
    requires WellFormed(n, base, strong) && DoneFrom(n, base, strong, levels, 0)
    ensures InGroup(n, Fixing(strong, base, k), p) <==> InStabiliser(n, Elements(strong), base[..k], p)
  {
    if InGroup(n, Fixing(strong, base, k), p) {
      GroupGrows(n, Fixing(strong, base, k), Elements(strong), p);
      GroupFixes(n, Fixing(strong, base, k), base[..k], p);
    }
    if InStabiliser(n, Elements(strong), base[..k], p) {
      if k == 0 {
        assert Fixing(strong, base, 0) == Elements(strong);
      } else {
        assert base[..k][..k - 1] == base[..k - 1] && base[..k][k - 1] == base[k - 1];
        assert Fixes(p, base[..k - 1]) by {
          forall i | 0 <= i < k - 1 ensures p[base[i]] == base[i] && base[i] < |p| { assert base[..k][i] == base[i]; }
        }
        ChainStabilises(n, base, strong, levels, k - 1, p);
        assert LevelDone(n, base, strong, levels, k - 1);
        SchreierLemma(n, base[k - 1], Fixing(strong, base, k - 1), Fixing(strong, base, k), levels[k - 1], p);
      }
    }
  }

  // ----- what adding a residue changes

  lemma FixesPrefix(p: Perm, points: seq<nat>, k: nat, m: nat)
    requires k <= m <= |points|
    ensures Fixes(p, points[..m]) ==> Fixes(p, points[..k])
  {
    assert points[..m][..k] == points[..k];
  }

  /** Levels deeper than the one where the residue stopped keep their generators. */
  lemma DeeperUnchanged(strong: seq<Perm>, base: seq<nat>, h: Perm, j: nat, l: nat)
    requires j < l <= |base| && !Fixes(h, base[..j + 1])
    ensures Fixing(strong + [h], base, l) == Fixing(strong, base, l)
  {
    FixesPrefix(h, base, j + 1, l);
  }

  /** How far the orbits can still grow, over levels l, l+1, ..., m-1; a level that does not exist
      yet counts n. */
  ghost function Slack(n: nat, base: seq<nat>, strong: seq<Perm>, l: nat, m: nat): nat
    requires l <= m && WellFormed(n, base, strong)
    decreases m - l
  {
    if l == m then 0
    else LevelSlack(n, base, strong, l) + Slack(n, base, strong, l + 1, m)
  }

  ghost function LevelSlack(n: nat, base: seq<nat>, strong: seq<Perm>, l: nat): nat
    requires WellFormed(n, base, strong)
  {
    if l < |base| then
      SubsetSize(Orbit(n, Fixing(strong, base, l), base[l]), Below(n));
      n - |Orbit(n, Fixing(strong, base, l), base[l])|
    else n
  }

  lemma LevelSlackShrinks(n: nat, base: seq<nat>, strong: seq<Perm>, base': seq<nat>, h: Perm, l: nat)
    requires WellFormed(n, base, strong) && WellFormed(n, base', strong + [h])
    requires |base| <= |base'| && base'[..|base|] == base
    ensures LevelSlack(n, base', strong + [h], l) <= LevelSlack(n, base, strong, l)
  {
    if l < |base| {
      assert base'[..l] == base[..l] && base'[l] == base[l];
      OrbitGrows(n, Fixing(strong, base, l), Fixing(strong + [h], base', l), base[l]);
      SubsetSize(Orbit(n, Fixing(strong, base, l), base[l]), Orbit(n, Fixing(strong + [h], base', l), base[l]));
    }
  }

  /** Adding a residue that stopped at level j strictly lowers the slack: it enlarges that level's
      orbit, or opens a level. */
  lemma LevelSlackDrops(n: nat, base: seq<nat>, strong: seq<Perm>, base': seq<nat>, h: Perm, j: nat)
    requires WellFormed(n, base, strong) && WellFormed(n, base', strong + [h])
    requires |base| <= |base'| && base'[..|base|] == base && j < |base'|
    requires Fixes(h, base'[..j])
    requires j < |base| ==> |h| == n && h[base[j]] !in Orbit(n, Fixing(strong, base, j), base[j])
    ensures LevelSlack(n, base', strong + [h], j) < LevelSlack(n, base, strong, j)
  {
    var gens' := Fixing(strong + [h], base', j);
    if j < |base| {
      assert base'[..j] == base[..j] && base'[j] == base[j];
      OrbitGrows(n, Fixing(strong, base, j), gens', base[j]);
      assert h in strong + [h];
      GroupLetter(n, gens', h);
      assert h[base[j]] in Orbit(n, gens', base[j]);
      SubsetSize(Orbit(n, Fixing(strong, base, j), base[j]), Orbit(n, gens', base[j]));
    } else {
      GroupId(n, gens');
      assert Id(n)[base'[j]] == base'[j];
      assert base'[j] in Orbit(n, gens', base'[j]);
    }
  }

  lemma {:induction false} SlackDrops(n: nat, base: seq<nat>, strong: seq<Perm>, base': seq<nat>, h: Perm, j: nat, l: nat, m: nat)
    requires WellFormed(n, base, strong) && WellFormed(n, base', strong + [h])
    requires |base| <= |base'| && base'[..|base|] == base && j < |base'|
    requires Fixes(h, base'[..j]) && l <= m
    requires j < |base| ==> |h| == n && h[base[j]] !in Orbit(n, Fixing(strong, base, j), base[j])
    ensures Slack(n, base', strong + [h], l, m) <= Slack(n, base, strong, l, m)
    ensures l <= j < m ==> Slack(n, base', strong + [h], l, m) < Slack(n, base, strong, l, m)
    decreases m - l
  {
    if l < m {
      SlackDrops(n, base, strong, base', h, j, l + 1, m);
      LevelSlackShrinks(n, base, strong, base', h, l);
      if l == j { LevelSlackDrops(n, base, strong, base', h, j); }
    }
  }
}
