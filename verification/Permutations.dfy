/** Permutations of 0..n-1 as their image sequences, and the groups they span. */
module Permutations {
  import opened Orders

  type Perm = seq<nat>

  predicate IsPerm(n: nat, p: Perm) {
    && |p| == n
    && (forall i :: 0 <= i < n ==> p[i] < n)
    && (forall i, j :: 0 <= i < j < n ==> p[i] != p[j])
  }

  function Id(n: nat): Perm {
    seq(n, i => i)
  }

  /** First a, then b. */
  function Compose(n: nat, a: Perm, b: Perm): (c: Perm)
    requires IsPerm(n, a) && IsPerm(n, b)
    ensures IsPerm(n, c)
    ensures forall x :: 0 <= x < n ==> c[x] == b[a[x]]
  {
    seq(n, x requires 0 <= x < n => b[a[x]])
  }

  // ----- a permutation reaches every point

  function Elements<T(==)>(s: seq<T>): set<T> {
    set x | x in s
  }

  ghost predicate Distinct<T>(s: seq<T>) {
    forall i, j :: 0 <= i < j < |s| ==> s[i] != s[j]
  }

  lemma {:induction false} DistinctSize<T>(s: seq<T>)
    requires Distinct(s)
    ensures |Elements(s)| == |s|
  {
    if s == [] {
      assert Elements(s) == {};
    } else {
      var s', x := s[..|s| - 1], s[|s| - 1];
      DistinctSize(s');
      assert s == s' + [x] && x !in s';
      assert Elements(s) == Elements(s') + {x};
    }
  }

  lemma PermOnto(n: nat, p: Perm, y: nat)
    requires IsPerm(n, p) && y < n
    ensures exists x :: 0 <= x < n && p[x] == y
  {
    DistinctSize(p);
    SubsetSize(Elements(p), Below(n));
    assert y in Elements(p);
  }

  ghost function Preimage(n: nat, p: Perm, y: nat): (x: nat)
    requires IsPerm(n, p) && y < n
    ensures x < n && p[x] == y
  {
    PermOnto(n, p, y);
    var x: nat :| x < n && p[x] == y;
    x
  }

  ghost function Inverse(n: nat, p: Perm): (q: Perm)
    requires IsPerm(n, p)
    ensures IsPerm(n, q)
    ensures forall y :: 0 <= y < n ==> p[q[y]] == y
    ensures forall x :: 0 <= x < n ==> q[p[x]] == x
  {
    var q := seq(n, y requires 0 <= y < n => Preimage(n, p, y));
    assert forall y :: 0 <= y < n ==> p[q[y]] == y;
    forall x | 0 <= x < n ensures q[p[x]] == x {
      assert p[q[p[x]]] == p[x];
    }
    q
  }

  // ----- algebra

  lemma SamePerm(n: nat, a: Perm, b: Perm)
    requires IsPerm(n, a) && IsPerm(n, b)
    requires forall x :: 0 <= x < n ==> a[x] == b[x]
    ensures a == b
  {
  }

  lemma ComposeId(n: nat, p: Perm)
    requires IsPerm(n, p)
    ensures Compose(n, p, Id(n)) == p
    ensures Compose(n, Id(n), p) == p
  {
    SamePerm(n, Compose(n, p, Id(n)), p);
    SamePerm(n, Compose(n, Id(n), p), p);
  }

  lemma ComposeAssoc(n: nat, a: Perm, b: Perm, c: Perm)
    requires IsPerm(n, a) && IsPerm(n, b) && IsPerm(n, c)
    ensures Compose(n, Compose(n, a, b), c) == Compose(n, a, Compose(n, b, c))
  {
    SamePerm(n, Compose(n, Compose(n, a, b), c), Compose(n, a, Compose(n, b, c)));
  }

  lemma ComposeInverse(n: nat, p: Perm)
    requires IsPerm(n, p)
    ensures Compose(n, p, Inverse(n, p)) == Id(n)
    ensures Compose(n, Inverse(n, p), p) == Id(n)
  {
    SamePerm(n, Compose(n, p, Inverse(n, p)), Id(n));
    SamePerm(n, Compose(n, Inverse(n, p), p), Id(n));
  }

  lemma InverseUnique(n: nat, p: Perm, q: Perm)
    requires IsPerm(n, p) && IsPerm(n, q)
    requires forall x :: 0 <= x < n ==> q[p[x]] == x
    ensures q == Inverse(n, p)
  {
    forall y | 0 <= y < n ensures q[y] == Inverse(n, p)[y] {
      assert p[Inverse(n, p)[y]] == y;
    }
    SamePerm(n, q, Inverse(n, p));
  }

  lemma InverseInverse(n: nat, p: Perm)
    requires IsPerm(n, p)
    ensures Inverse(n, Inverse(n, p)) == p
  {
    InverseUnique(n, Inverse(n, p), p);
  }

  lemma InverseCompose(n: nat, a: Perm, b: Perm)
    requires IsPerm(n, a) && IsPerm(n, b)
    ensures Inverse(n, Compose(n, a, b)) == Compose(n, Inverse(n, b), Inverse(n, a))
  {
    InverseUnique(n, Compose(n, a, b), Compose(n, Inverse(n, b), Inverse(n, a)));
  }

  // ----- the loops of the source

  /** Composes by one pass over the points. */
  method ComposeLoop(n: nat, a: Perm, b: Perm) returns (r: Perm)
    requires IsPerm(n, a) && IsPerm(n, b)
    ensures r == Compose(n, a, b)
  {
    var out := new nat[n];
    for x := 0 to n
      invariant forall i :: 0 <= i < x ==> out[i] == b[a[i]]
    {
      out[x] := b[a[x]];
    }
    r := out[..];
  }

  /** Inverts by writing every point at its image. */
  method InverseLoop(n: nat, p: Perm) returns (r: Perm)
    requires IsPerm(n, p)
    ensures r == Inverse(n, p)
  {
    var out := new nat[n];
    for x := 0 to n
      invariant forall i :: 0 <= i < x ==> out[p[i]] == i
    {
      out[p[x]] := x;
    }
    r := out[..];
    forall y | 0 <= y < n ensures r[y] == Inverse(n, p)[y] {
      assert p[Inverse(n, p)[y]] == y;
    }
  }

  method IsIdentity(n: nat, p: Perm) returns (b: bool)
    requires IsPerm(n, p)
    ensures b <==> p == Id(n)
  {
    for x := 0 to n
      invariant forall i :: 0 <= i < x ==> p[i] == i
    {
      if p[x] != x {
        return false;
      }
    }
    return true;
  }

  /** The first point p moves; the source's -1 is None. */
  method FirstMoved(n: nat, p: Perm) returns (x: nat)
    requires IsPerm(n, p) && p != Id(n)
    ensures x < n && p[x] != x
    ensures forall i :: 0 <= i < x ==> p[i] == i
  {
    x := 0;
    while x < n && p[x] == x
      invariant x <= n
      invariant forall i :: 0 <= i < x ==> p[i] == i
    {
      x := x + 1;
    }
  }

  // ----- the group a set of permutations spans

  ghost predicate AllPerms(n: nat, gens: set<Perm>) {
    forall s :: s in gens ==> IsPerm(n, s)
  }

  /** A generator or the inverse of one. */
  ghost predicate Letter(n: nat, gens: set<Perm>, s: Perm) {
    IsPerm(n, s) && (s in gens || Inverse(n, s) in gens)
  }

  ghost predicate Word(n: nat, gens: set<Perm>, w: seq<Perm>) {
    forall i :: 0 <= i < |w| ==> Letter(n, gens, w[i])
  }

  ghost function Product(n: nat, gens: set<Perm>, w: seq<Perm>): (p: Perm)
    requires Word(n, gens, w)
    ensures IsPerm(n, p)
  {
    if w == [] then Id(n)
    else
      assert Letter(n, gens, w[|w| - 1]);
      Compose(n, Product(n, gens, w[..|w| - 1]), w[|w| - 1])
  }

  ghost predicate InGroup(n: nat, gens: set<Perm>, p: Perm) {
    exists w: seq<Perm> :: Word(n, gens, w) && Product(n, gens, w) == p
  }

  lemma GroupPerm(n: nat, gens: set<Perm>, p: Perm)
    requires InGroup(n, gens, p)
    ensures IsPerm(n, p)
  {
  }

  lemma GroupId(n: nat, gens: set<Perm>)
    ensures InGroup(n, gens, Id(n))
  {
    assert Word(n, gens, []) && Product(n, gens, []) == Id(n);
  }

  lemma GroupLetter(n: nat, gens: set<Perm>, s: Perm)
    requires Letter(n, gens, s)
    ensures InGroup(n, gens, s)
  {
    assert Word(n, gens, [s]) && Product(n, gens, [s]) == s by {
      assert [s][..0] == [];
      ComposeId(n, s);
    }
  }

  lemma {:induction false} ProductConcat(n: nat, gens: set<Perm>, u: seq<Perm>, v: seq<Perm>)
    requires Word(n, gens, u) && Word(n, gens, v)
    ensures Word(n, gens, u + v)
    ensures Product(n, gens, u + v) == Compose(n, Product(n, gens, u), Product(n, gens, v))
  {
    if v == [] {
      assert u + v == u;
      ComposeId(n, Product(n, gens, u));
    } else {
      var v', s := v[..|v| - 1], v[|v| - 1];
      ProductConcat(n, gens, u, v');
      assert (u + v)[..|u + v| - 1] == u + v';
      assert Letter(n, gens, s);
      ComposeAssoc(n, Product(n, gens, u), Product(n, gens, v'), s);
    }
  }

  lemma GroupCompose(n: nat, gens: set<Perm>, a: Perm, b: Perm)
    requires InGroup(n, gens, a) && InGroup(n, gens, b)
    ensures IsPerm(n, a) && IsPerm(n, b) && InGroup(n, gens, Compose(n, a, b))
  {
    var u :| Word(n, gens, u) && Product(n, gens, u) == a;
    var v :| Word(n, gens, v) && Product(n, gens, v) == b;
    ProductConcat(n, gens, u, v);
  }

  lemma {:induction false} WordInverse(n: nat, gens: set<Perm>, w: seq<Perm>)
    requires Word(n, gens, w)
    ensures InGroup(n, gens, Inverse(n, Product(n, gens, w)))
  {
    if w == [] {
      InverseUnique(n, Id(n), Id(n));
      GroupId(n, gens);
    } else {
      var w', s := w[..|w| - 1], w[|w| - 1];
      assert Letter(n, gens, s);
      WordInverse(n, gens, w');
      InverseInverse(n, s);
      GroupLetter(n, gens, Inverse(n, s));
      GroupCompose(n, gens, Inverse(n, s), Inverse(n, Product(n, gens, w')));
      InverseCompose(n, Product(n, gens, w'), s);
    }
  }

  lemma GroupInverse(n: nat, gens: set<Perm>, p: Perm)
    requires InGroup(n, gens, p)
    ensures IsPerm(n, p) && InGroup(n, gens, Inverse(n, p))
  {
    var w :| Word(n, gens, w) && Product(n, gens, w) == p;
    WordInverse(n, gens, w);
  }

  lemma {:induction false} WordSpan(n: nat, gens: set<Perm>, other: set<Perm>, w: seq<Perm>)
    requires Word(n, gens, w)
    requires forall s :: s in gens ==> InGroup(n, other, s)
    ensures InGroup(n, other, Product(n, gens, w))
  {
    if w == [] {
      GroupId(n, other);
    } else {
      var w', s := w[..|w| - 1], w[|w| - 1];
      assert Letter(n, gens, s);
      WordSpan(n, gens, other, w');
      if s !in gens {
        GroupInverse(n, other, Inverse(n, s));
        InverseInverse(n, s);
      }
      GroupCompose(n, other, Product(n, gens, w'), s);
    }
  }

  /** Generators inside another span keep their whole span inside it. */
  lemma GroupSpan(n: nat, gens: set<Perm>, other: set<Perm>, p: Perm)
    requires forall s :: s in gens ==> InGroup(n, other, s)
    requires InGroup(n, gens, p)
    ensures InGroup(n, other, p)
  {
    var w :| Word(n, gens, w) && Product(n, gens, w) == p;
    WordSpan(n, gens, other, w);
  }

  lemma GroupGrows(n: nat, gens: set<Perm>, more: set<Perm>, p: Perm)
    requires AllPerms(n, more) && gens <= more && InGroup(n, gens, p)
    ensures InGroup(n, more, p)
  {
    forall s | s in gens ensures InGroup(n, more, s) { GroupLetter(n, more, s); }
    GroupSpan(n, gens, more, p);
  }

  // ----- stabilisers

  ghost predicate Fixes(p: Perm, points: seq<nat>) {
    forall i :: 0 <= i < |points| ==> points[i] < |p| && p[points[i]] == points[i]
  }

  /** p is in the pointwise stabiliser of the points in the group gens span. */
  ghost predicate InStabiliser(n: nat, gens: set<Perm>, points: seq<nat>, p: Perm) {
    InGroup(n, gens, p) && Fixes(p, points)
  }

  lemma {:induction false} WordFixes(n: nat, gens: set<Perm>, points: seq<nat>, w: seq<Perm>)
    requires Word(n, gens, w)
    requires forall i :: 0 <= i < |points| ==> points[i] < n
    requires forall s :: s in gens ==> Fixes(s, points)
    ensures Fixes(Product(n, gens, w), points)
  {
    if w != [] {
      var s := w[|w| - 1];
      assert Letter(n, gens, s);
      WordFixes(n, gens, points, w[..|w| - 1]);
    }
  }

  lemma GroupFixes(n: nat, gens: set<Perm>, points: seq<nat>, p: Perm)
    requires forall i :: 0 <= i < |points| ==> points[i] < n
    requires forall s :: s in gens ==> Fixes(s, points)
    requires InGroup(n, gens, p)
    ensures Fixes(p, points)
  {
    var w :| Word(n, gens, w) && Product(n, gens, w) == p;
    WordFixes(n, gens, points, w);
  }

  // ----- sets of points a permutation keeps

  ghost predicate MapsInto(n: nat, s: Perm, points: set<nat>) {
    IsPerm(n, s) && points <= Below(n) && forall x :: x in points ==> s[x] in points
  }

  ghost function ImageOf(n: nat, s: Perm, points: set<nat>): set<nat>
    requires IsPerm(n, s) && points <= Below(n)
  {
    set x | x in points :: s[x]
  }

  lemma {:induction false} ImageOfSize(n: nat, s: Perm, points: set<nat>)
    requires IsPerm(n, s) && points <= Below(n)
    ensures |ImageOf(n, s, points)| == |points|
  {
    if points == {} {
      assert ImageOf(n, s, points) == {};
    } else {
      var a :| a in points;
      var rest := points - {a};
      ImageOfSize(n, s, rest);
      assert ImageOf(n, s, points) == ImageOf(n, s, rest) + {s[a]};
      assert s[a] !in ImageOf(n, s, rest);
    }
  }

  lemma MapsIntoOnto(n: nat, s: Perm, points: set<nat>)
    requires MapsInto(n, s, points)
    ensures ImageOf(n, s, points) == points
  {
    ImageOfSize(n, s, points);
    assert ImageOf(n, s, points) <= points;
    SubsetSize(ImageOf(n, s, points), points);
  }

  lemma InverseStaysIn(n: nat, s: Perm, points: set<nat>, x: nat)
    requires IsPerm(n, s) && points <= Below(n) && x in ImageOf(n, s, points)
    ensures x < n && Inverse(n, s)[x] in points
  {
    var y :| y in points && s[y] == x;
  }

  /** A permutation that maps a finite set into itself maps it onto itself, so its inverse does too. */
  lemma MapsIntoInverse(n: nat, s: Perm, points: set<nat>)
    requires MapsInto(n, s, points)
    ensures MapsInto(n, Inverse(n, s), points)
  {
    MapsIntoOnto(n, s, points);
    forall x | x in points ensures Inverse(n, s)[x] in points {
      InverseStaysIn(n, s, points, x);
    }
  }

  lemma LetterMapsInto(n: nat, gens: set<Perm>, s: Perm, points: set<nat>)
    requires Letter(n, gens, s)
    requires forall t :: t in gens ==> MapsInto(n, t, points)
    ensures MapsInto(n, s, points)
  {
    if s !in gens {
      MapsIntoInverse(n, Inverse(n, s), points);
      InverseInverse(n, s);
    }
  }
}
