/** Strict total orders, and the three library facilities the canonical form is built from:
    lexicographic comparison, sorting, and the ranks of sorted distinct values. */
module Orders {

  ghost predicate StrictTotal<T(!new)>(less: (T, T) -> bool) {
    && (forall a :: !less(a, a))
    && (forall a, b :: less(a, b) || a == b || less(b, a))
    && (forall a, b, c :: less(a, b) && less(b, c) ==> less(a, c))
  }

  // ----- lexicographic order

  /** How std::vector and std::string compare: the first difference decides, a prefix is smaller. */
  predicate LexLess<T(==)>(less: (T, T) -> bool, a: seq<T>, b: seq<T>) {
    if b == [] then false
    else if a == [] then true
    else if a[0] == b[0] then LexLess(less, a[1..], b[1..])
    else less(a[0], b[0])
  }

  lemma {:induction false} LexIrreflexive<T(!new)>(less: (T, T) -> bool, a: seq<T>)
    requires StrictTotal(less)
    ensures !LexLess(less, a, a)
  {
    if a != [] { LexIrreflexive(less, a[1..]); }
  }

  lemma {:induction false} LexTotal<T(!new)>(less: (T, T) -> bool, a: seq<T>, b: seq<T>)
    requires StrictTotal(less)
    ensures LexLess(less, a, b) || a == b || LexLess(less, b, a)
  {
    if a != [] && b != [] && a[0] == b[0] {
      LexTotal(less, a[1..], b[1..]);
      if a[1..] == b[1..] {
        assert a == [a[0]] + a[1..] && b == [b[0]] + b[1..];
      }
    }
  }

  lemma {:induction false} LexTransitive<T(!new)>(less: (T, T) -> bool, a: seq<T>, b: seq<T>, c: seq<T>)
    requires StrictTotal(less)
    requires LexLess(less, a, b) && LexLess(less, b, c)
    ensures LexLess(less, a, c)
  {
    if a != [] && a[0] == b[0] && b[0] == c[0] {
      LexTransitive(less, a[1..], b[1..], c[1..]);
    }
  }

  /** A proper prefix is smaller; else the first place where they differ decides. */
  ghost predicate FirstDiffers<T(!new)>(less: (T, T) -> bool, a: seq<T>, b: seq<T>) {
    a < b || exists k: nat :: k < |a| && k < |b| && a[..k] == b[..k] && less(a[k], b[k])
  }

  lemma {:induction false} LexLessIff<T(!new)>(less: (T, T) -> bool, a: seq<T>, b: seq<T>)
    requires StrictTotal(less)
    ensures LexLess(less, a, b) <==> FirstDiffers(less, a, b)
  {
    if a != [] && b != [] {
      if a[0] == b[0] {
        LexLessIff(less, a[1..], b[1..]);
        FirstDiffersNext(less, a, b);
      } else {
        assert forall k :: 0 < k <= |a| ==> a[..k][0] == a[0];
        assert forall k :: 0 < k <= |b| ==> b[..k][0] == b[0];
        assert a[..0] == b[..0];
      }
    }
  }

  lemma FirstDiffersNext<T(!new)>(less: (T, T) -> bool, a: seq<T>, b: seq<T>)
    requires a != [] && b != [] && a[0] == b[0] && StrictTotal(less)
    ensures FirstDiffers(less, a, b) <==> FirstDiffers(less, a[1..], b[1..])
  {
    assert a == [a[0]] + a[1..] && b == [b[0]] + b[1..];
    if k: nat :| k < |a[1..]| && k < |b[1..]| && a[1..][..k] == b[1..][..k] && less(a[1..][k], b[1..][k]) {
      assert a[..k + 1] == [a[0]] + a[1..][..k] && b[..k + 1] == [b[0]] + b[1..][..k];
      assert a[k + 1] == a[1..][k] && b[k + 1] == b[1..][k];
    }
    if k: nat :| k < |a| && k < |b| && a[..k] == b[..k] && less(a[k], b[k]) {
      assert k > 0;
      assert a[1..][..k - 1] == a[..k][1..] && b[1..][..k - 1] == b[..k][1..];
      assert a[1..][k - 1] == a[k] && b[1..][k - 1] == b[k];
    }
  }

  /** Texts compare by their first different characters, as numbers, and a proper prefix is smaller. */
  lemma StringLessIff(a: string, b: string)
    ensures StringLess(a, b) <==>
              a < b || exists k: nat :: k < |a| && k < |b| && a[..k] == b[..k] && a[k] as int < b[k] as int
  {
    assert StrictTotal(CharLess);
    LexLessIff(CharLess, a, b);
    assert forall k: nat :: k < |a| && k < |b| ==> (CharLess(a[k], b[k]) <==> a[k] as int < b[k] as int);
  }

  predicate CharLess(a: char, b: char) { a < b }

  predicate StringLess(a: string, b: string) { LexLess(CharLess, a, b) }

  predicate StringLessEq(a: string, b: string) { !StringLess(b, a) }

  lemma StringOrder()
    ensures StrictTotal(StringLess)
  {
    assert StrictTotal(CharLess);
    forall a { LexIrreflexive(CharLess, a); }
    forall a, b ensures StringLess(a, b) || a == b || StringLess(b, a) { LexTotal(CharLess, a, b); }
    forall a, b, c | StringLess(a, b) && StringLess(b, c) ensures StringLess(a, c) {
      LexTransitive(CharLess, a, b, c);
    }
  }

  // ----- pairs of strings

  /** By the first string, then by the second. */
  predicate KeysLess(p: (string, string), q: (string, string)) {
    StringLess(p.0, q.0) || (p.0 == q.0 && StringLess(p.1, q.1))
  }

  lemma KeysOrder()
    ensures StrictTotal(KeysLess)
  {
    StringOrder();
    forall p, q, r | KeysLess(p, q) && KeysLess(q, r) ensures KeysLess(p, r) {
      assert StringLess(p.0, q.0) && StringLess(q.0, r.0) ==> StringLess(p.0, r.0);
    }
  }

  /** The least element of a set, which an ordered set gives first. */
  method Least<T(==, !new)>(less: (T, T) -> bool, values: set<T>) returns (least: T)
    requires StrictTotal(less) && values != {}
    ensures least in values && forall v :: v in values ==> v == least || less(least, v)
  {
    var todo := values;
    least :| least in todo;
    todo := todo - {least};
    while todo != {}
      invariant todo <= values && least in values
      invariant forall v :: v in values - todo ==> v == least || less(least, v)
    {
      var v :| v in todo;
      ghost var seen, was := values - todo, least;
      todo := todo - {v};
      if less(v, least) {
        least := v;
      }
      forall w | w in values - todo ensures w == least || less(least, w) {
        assert w == v || w in seen;
        assert w in seen && less(v, was) && less(was, w) ==> less(v, w);
        assert less(v, was) || v == was || less(was, v);
      }
    }
  }

  // ----- tuples of integers

  type Triple = (int, int, int)

  predicate TripleLess(a: Triple, b: Triple) {
    a.0 < b.0 || (a.0 == b.0 && (a.1 < b.1 || (a.1 == b.1 && a.2 < b.2)))
  }

  lemma TripleOrder()
    ensures StrictTotal(TripleLess)
  {
  }

  type Pair = (int, int)

  predicate PairLess(a: Pair, b: Pair) {
    a.0 < b.0 || (a.0 == b.0 && a.1 < b.1)
  }

  // ----- sorting

  ghost predicate Sorted<T>(less: (T, T) -> bool, s: seq<T>) {
    forall i, j :: 0 <= i < j < |s| ==> !less(s[j], s[i])
  }

  function Insert<T>(less: (T, T) -> bool, x: T, s: seq<T>): (r: seq<T>)
    ensures multiset(r) == multiset{x} + multiset(s)
  {
    if s == [] || less(x, s[0]) then [x] + s
    else
      assert s == [s[0]] + s[1..];
      [s[0]] + Insert(less, x, s[1..])
  }

  function Sort<T>(less: (T, T) -> bool, s: seq<T>): (r: seq<T>)
    ensures multiset(r) == multiset(s)
    ensures |r| == |s|
  {
    if s == [] then []
    else
      assert s == [s[0]] + s[1..];
      var r := Insert(less, s[0], Sort(less, s[1..]));
      assert |multiset(r)| == |multiset(s)|;
      r
  }

  lemma {:induction false} InsertKeepsSorted<T(!new)>(less: (T, T) -> bool, x: T, s: seq<T>)
    requires StrictTotal(less) && Sorted(less, s)
    ensures Sorted(less, Insert(less, x, s))
  {
    var r := Insert(less, x, s);
    if s == [] {
    } else if less(x, s[0]) {
      forall j | 0 <= j < |s| ensures !less(s[j], x) {
        assert less(x, s[0]) && !less(s[j], s[0]);
      }
    } else {
      InsertKeepsSorted(less, x, s[1..]);
      var t := Insert(less, x, s[1..]);
      forall j | 0 <= j < |t| ensures !less(t[j], s[0]) {
        assert t[j] in multiset(t);
        if t[j] != x {
          assert t[j] in multiset(s[1..]);
          var k :| 0 <= k < |s[1..]| && s[1..][k] == t[j];
          assert s[k + 1] == t[j];
        }
      }
    }
  }

  lemma {:induction false} SortSorts<T(!new)>(less: (T, T) -> bool, s: seq<T>)
    requires StrictTotal(less)
    ensures Sorted(less, Sort(less, s))
  {
    if s != [] {
      SortSorts(less, s[1..]);
      InsertKeepsSorted(less, s[0], Sort(less, s[1..]));
    }
  }

  lemma SortedHeads<T(!new)>(less: (T, T) -> bool, a: seq<T>, b: seq<T>)
    requires StrictTotal(less) && Sorted(less, a) && Sorted(less, b)
    requires a != [] && multiset(a) == multiset(b)
    ensures b != [] && a[0] == b[0]
  {
    assert a[0] in multiset(b);
    var i :| 0 <= i < |b| && b[i] == a[0];
    assert b[0] in multiset(a);
    var j :| 0 <= j < |a| && a[j] == b[0];
    assert !less(a[0], b[0]) && !less(b[0], a[0]);
  }

  lemma TailMultiset<T>(a: seq<T>)
    requires a != []
    ensures multiset(a[1..]) == multiset(a) - multiset{a[0]}
  {
    assert a == [a[0]] + a[1..];
  }

  lemma {:induction false} SortedUnique<T(!new)>(less: (T, T) -> bool, a: seq<T>, b: seq<T>)
    requires StrictTotal(less) && Sorted(less, a) && Sorted(less, b)
    requires multiset(a) == multiset(b)
    ensures a == b
  {
    if a == [] {
      assert |multiset(b)| == 0;
    } else {
      SortedHeads(less, a, b);
      TailMultiset(a);
      TailMultiset(b);
      SortedUnique(less, a[1..], b[1..]);
    }
  }

  /** Sorting forgets exactly the order: two sequences sort alike iff they hold the same elements
      equally often. */
  lemma SortForgetsOrder<T(!new)>(less: (T, T) -> bool, a: seq<T>, b: seq<T>)
    requires StrictTotal(less)
    ensures Sort(less, a) == Sort(less, b) <==> multiset(a) == multiset(b)
  {
    SortSorts(less, a);
    SortSorts(less, b);
    if multiset(a) == multiset(b) {
      SortedUnique(less, Sort(less, a), Sort(less, b));
    }
  }

  // ----- ranks of sorted distinct values

  /** The index std::lower_bound finds for v in the sorted distinct values: how many are smaller. */
  function Rank<T(==)>(less: (T, T) -> bool, values: set<T>, v: T): nat {
    |set x | x in values && less(x, v)|
  }

  lemma SubsetSize<T>(a: set<T>, b: set<T>)
    requires a <= b
    ensures |a| <= |b|
    ensures a != b ==> |a| < |b|
  {
    assert b == a + (b - a);
    if a != b {
      assert b - a != {};
    }
  }

  lemma RankMonotone<T(!new)>(less: (T, T) -> bool, values: set<T>, a: T, b: T)
    requires StrictTotal(less)
    requires a in values && less(a, b)
    ensures Rank(less, values, a) < Rank(less, values, b)
  {
    var x := set x | x in values && less(x, a);
    var y := set x | x in values && less(x, b);
    assert a in y && a !in x;
    SubsetSize(x, y);
  }

  lemma RankBounded<T(!new)>(less: (T, T) -> bool, values: set<T>, a: T)
    requires StrictTotal(less)
    requires a in values
    ensures Rank(less, values, a) < |values|
  {
    var x := set x | x in values && less(x, a);
    assert a !in x;
    SubsetSize(x, values);
  }

  /** On the values themselves the rank decides the order and equality. */
  lemma RankOrder<T(!new)>(less: (T, T) -> bool, values: set<T>, a: T, b: T)
    requires StrictTotal(less)
    requires a in values && b in values
    ensures Rank(less, values, a) < Rank(less, values, b) <==> less(a, b)
    ensures Rank(less, values, a) == Rank(less, values, b) <==> a == b
  {
    if less(a, b) {
      RankMonotone(less, values, a, b);
    } else if less(b, a) {
      RankMonotone(less, values, b, a);
    }
  }

  /** The numbers 0..n-1. */
  ghost function Below(n: nat): (s: set<nat>)
    ensures forall i: nat :: i in s <==> i < n
    ensures |s| == n
  {
    if n == 0 then {} else Below(n - 1) + {n - 1}
  }

  ghost function ImageSet<T, U>(s: set<T>, f: T -> U): (image: set<U>)
    ensures forall x :: x in s ==> f(x) in image
    ensures forall y :: y in image ==> exists x :: x in s && f(x) == y
  {
    set x | x in s :: f(x)
  }

  lemma {:induction false} ImageSize<T, U>(s: set<T>, f: T -> U)
    requires forall a, b :: a in s && b in s && f(a) == f(b) ==> a == b
    ensures |ImageSet(s, f)| == |s|
  {
    if s == {} {
      assert ImageSet(s, f) == {};
    } else {
      var a :| a in s;
      var rest := s - {a};
      ImageSize(rest, f);
      assert f(a) !in ImageSet(rest, f);
      assert ImageSet(s, f) == ImageSet(rest, f) + {f(a)};
    }
  }

  /** The ranks are dense: every number below the count of values is one value's rank. */
  lemma RankDense<T(!new)>(less: (T, T) -> bool, values: set<T>, k: nat) returns (v: T)
    requires StrictTotal(less)
    requires k < |values|
    ensures v in values && Rank(less, values, v) == k
  {
    var f := x => Rank(less, values, x);
    forall a, b | a in values && b in values && f(a) == f(b) ensures a == b {
      RankOrder(less, values, a, b);
    }
    ImageSize(values, f);
    var image := ImageSet(values, f);
    forall i | i in image ensures i in Below(|values|) {
      var x :| x in values && f(x) == i;
      RankBounded(less, values, x);
    }
    SubsetSize(image, Below(|values|));
    assert k in Below(|values|);
    v :| v in values && f(v) == k;
  }

  lemma CountWithout<T>(b: seq<T>, j: nat)
    requires j < |b|
    ensures multiset(b) == multiset(b[..j] + b[j + 1..]) + multiset{b[j]}
  {
    assert b == b[..j] + [b[j]] + b[j + 1..];
  }

  /** The last of one list, found in another list of the same values. */
  lemma FindLast<T>(a: seq<T>, b: seq<T>) returns (j: nat)
    requires a != [] && multiset(a) == multiset(b)
    ensures j < |b| && b[j] == a[|a| - 1]
    ensures multiset(a[..|a| - 1]) == multiset(b[..j] + b[j + 1..])
  {
    var m := |a| - 1;
    assert a[m] in multiset(b);
    j :| j < |b| && b[j] == a[m];
    CountWithout(b, j);
    assert a == a[..m] + [a[m]];
    assert multiset(a) == multiset(a[..m]) + multiset{a[m]};
    assert multiset(a[..m]) == multiset(a) - multiset{a[m]};
    assert multiset(b[..j] + b[j + 1..]) == multiset(b) - multiset{b[j]};
  }
}
