/** What the canonical form forgets: the order of nodes and edges, their keys, and so the order in which the
    machine's parts were listed. */
module OrderLaws {
  import opened Orders
  import opened Permutations
  import opened Topology
  import opened NvLinks
  import opened Builder
  import Canonical
  import Stripping

  /** The same nodes and edges in another order make an isomorphic model. */
  lemma OrderForgotten(m1: Model, m2: Model)
    requires multiset(m1.nodes) == multiset(m2.nodes) && multiset(m1.edges) == multiset(m2.edges)
    requires NoDangling(m1)
    ensures Isomorphic(m1, m2)
  {
    var p := Canonical.MultisetPermuted(m1.nodes, m2.nodes);
    var q := Canonical.MultisetPermuted(m1.edges, m2.edges);
    forall i | 0 <= i < |m1.edges| ensures SameEdge(m1, m2, p, m1.edges[i], m2.edges[q[i]]) {
      KeyCarried(m1, m2, p, m1.edges[i].from, k => k);
      KeyCarried(m1, m2, p, m1.edges[i].to, k => k);
    }
    assert Isomorphism(m1, m2, p, q);
  }

  lemma KeyCarried(m1: Model, m2: Model, p: Perm, key: string, f: string -> string)
    requires |m1.nodes| == |m2.nodes| && IsPerm(|m1.nodes|, p) && HasKey(m1, key)
    requires forall i :: 0 <= i < |m1.nodes| ==> m2.nodes[p[i]].key == f(m1.nodes[i].key)
    ensures Carries(m1, m2, p, key, f(key))
  {
    var i :| 0 <= i < |m1.nodes| && m1.nodes[i].key == key;
    assert m2.nodes[p[i]].key == f(key);
  }

  function Renamed(m: Model, f: string -> string): Model {
    Model(seq(|m.nodes|, i requires 0 <= i < |m.nodes| => m.nodes[i].(key := f(m.nodes[i].key))),
          seq(|m.edges|, i requires 0 <= i < |m.edges| => m.edges[i].(from := f(m.edges[i].from), to := f(m.edges[i].to))))
  }

  lemma RenamedEdge(m: Model, f: string -> string, p: Perm, i: nat)
    requires i < |m.edges| && p == Id(|m.nodes|) && HasKey(m, m.edges[i].from) && HasKey(m, m.edges[i].to)
    ensures SameEdge(m, Renamed(m, f), p, m.edges[i], Renamed(m, f).edges[i])
  {
    KeyCarried(m, Renamed(m, f), p, m.edges[i].from, f);
    KeyCarried(m, Renamed(m, f), p, m.edges[i].to, f);
  }

  /** New keys make an isomorphic model. */
  lemma KeysForgotten(m: Model, f: string -> string)
    requires NoDangling(m)
    ensures Isomorphic(m, Renamed(m, f))
  {
    var r := Renamed(m, f);
    var p, q := Id(|m.nodes|), Id(|m.edges|);
    forall i | 0 <= i < |m.edges| ensures SameEdge(m, r, p, m.edges[i], r.edges[q[i]]) {
      RenamedEdge(m, f, p, i);
    }
    RenamedParts(m, f, p);
    assert Isomorphism(m, r, p, q);
  }

  lemma RenamedParts(m: Model, f: string -> string, p: Perm)
    requires p == Id(|m.nodes|)
    ensures forall i :: 0 <= i < |m.nodes| ==> SamePart(m.nodes[i], Renamed(m, f).nodes[p[i]])
  {
  }

  // ----- facts listed in another order

  /** A PCI entry with its NUMA nodes in no order. */
  ghost function PciView(p: PciFacts): (PciFacts, multiset<int>) { (p.(numa := []), multiset(p.numa)) }

  ghost function PciViews(pci: seq<PciFacts>): (r: seq<(PciFacts, multiset<int>)>)
    ensures |r| == |pci| && forall i :: 0 <= i < |pci| ==> r[i] == PciView(pci[i])
  {
    seq(|pci|, i requires 0 <= i < |pci| => PciView(pci[i]))
  }

  /** The same entries in another order, and for each key the same last one, which is the one that counts. */
  ghost predicate SamePci(a: seq<PciFacts>, b: seq<PciFacts>) {
    && multiset(PciViews(a)) == multiset(PciViews(b)) && ByKey(a).Keys == ByKey(b).Keys
    && forall k :: k in ByKey(a) ==> PciView(ByKey(a)[k]) == PciView(ByKey(b)[k])
  }

  /** Entries of distinct keys may come in any order. */
  lemma DistinctAnyOrder(a: seq<PciFacts>, b: seq<PciFacts>)
    requires OneEntryPerKey(a) && multiset(PciViews(a)) == multiset(PciViews(b))
    ensures SamePci(a, b)
  {
    ViewsFrom(a, b);
    ViewsFrom(b, a);
    forall k | k in ByKey(a) && k in ByKey(b) ensures PciView(ByKey(a)[k]) == PciView(ByKey(b)[k]) {
      var p :| p in a && PciView(p) == PciView(ByKey(b)[k]);
      UniqueByKey(a, p);
    }
  }

  /** What a lists, b lists too. */
  lemma ViewsFrom(a: seq<PciFacts>, b: seq<PciFacts>)
    requires multiset(PciViews(a)) == multiset(PciViews(b))
    ensures forall p :: p in a ==> exists q :: q in b && PciView(q) == PciView(p)
    ensures ByKey(a).Keys <= ByKey(b).Keys
  {
    forall p | p in a ensures exists q :: q in b && PciView(q) == PciView(p) {
      assert PciView(p) in multiset(PciViews(b));
      var j: nat :| j < |b| && PciViews(b)[j] == PciView(p);
      assert b[j] in b;
    }
    forall k | k in ByKey(a) ensures k in ByKey(b) {
      var q :| q in b && PciView(q) == PciView(ByKey(a)[k]);
    }
  }

  /** Facts that differ only in the order in which things are listed. */
  ghost predicate SameFactsButOrder(f1: Facts, f2: Facts) {
    && f1.packages == f2.packages && multiset(f1.numaNodes) == multiset(f2.numaNodes)
    && SamePci(f1.pci, f2.pci) && multiset(f1.nics) == multiset(f2.nics)
    && f1.gpus.Some? == f2.gpus.Some? && SameButOrder(GpusOf(f1), GpusOf(f2))
  }

  lemma GpusPermuted(a: seq<Gpu>, b: seq<Gpu>)
    requires SameButOrder(a, b)
    ensures multiset(GpuNodes(a)) == multiset(GpuNodes(b))
    ensures (set g | g in a :: g.busId) == set g | g in b :: g.busId
  {
    var q := Canonical.MultisetPermuted(Views(a), Views(b));
    forall i | 0 <= i < |a| ensures GpuNodes(a)[i] == GpuNodes(b)[q[i]] {
      assert Views(a)[i] == Views(b)[q[i]];
    }
    Canonical.PermutedMultiset(GpuNodes(a), GpuNodes(b), q);
    GpuKeysFrom(a, b);
    GpuKeysFrom(b, a);
  }

  lemma GpuKeysFrom(a: seq<Gpu>, b: seq<Gpu>)
    requires SameButOrder(a, b)
    ensures (set g | g in a :: g.busId) <= set g | g in b :: g.busId
  {
    forall g | g in a ensures exists h :: h in b && h.busId == g.busId {
      assert ViewOf(g) in multiset(Views(b));
      var j: nat :| j < |b| && Views(b)[j] == ViewOf(g);
      assert b[j] in b;
    }
  }

  lemma SameLeaves(f1: Facts, f2: Facts)
    requires SameFactsButOrder(f1, f2)
    ensures Leaves(f1) == Leaves(f2)
  {
    GpusPermuted(GpusOf(f1), GpusOf(f2));
    assert (set n | n in f1.nics :: n.busId) == set n | n in multiset(f2.nics) :: n.busId;
    assert Leaves(f1) == GpuKeys(f1) + set n | n in f1.nics :: n.busId;
    assert Leaves(f2) == GpuKeys(f2) + set n | n in f2.nics :: n.busId;
  }

  lemma SameKept(f1: Facts, f2: Facts)
    requires SamePci(f1.pci, f2.pci) && Leaves(f1) == Leaves(f2)
    ensures forall k :: IsKept(f1, k) <==> IsKept(f2, k)
  {
    SameParents(ByKey(f1.pci), ByKey(f2.pci));
  }

  lemma SameParents(m1: map<string, PciFacts>, m2: map<string, PciFacts>)
    requires m1.Keys == m2.Keys && forall k :: k in m1 ==> PciView(m1[k]) == PciView(m2[k])
    ensures ParentKeys(m1) == ParentKeys(m2)
  {
    forall k | k in m1 ensures m1[k].parentKey == m2[k].parentKey {
      assert m1[k].(numa := []) == m2[k].(numa := []);
    }
  }

  lemma NumaPermuted(a: seq<int>, b: seq<int>, decimal: int -> string)
    requires multiset(a) == multiset(b)
    ensures multiset(NumaNodes(a, decimal)) == multiset(NumaNodes(b, decimal))
  {
    var q := Canonical.MultisetPermuted(a, b);
    Canonical.PermutedMultiset(NumaNodes(a, decimal), NumaNodes(b, decimal), q);
  }

  lemma NicsPermuted(f1: Facts, f2: Facts)
    requires SamePci(f1.pci, f2.pci) && multiset(f1.nics) == multiset(f2.nics)
    requires forall n :: n in f1.nics ==> n.busId in ByKey(f1.pci)
    requires forall n :: n in f2.nics ==> n.busId in ByKey(f2.pci)
    ensures multiset(NicNodes(f1.nics, ByKey(f1.pci))) == multiset(NicNodes(f2.nics, ByKey(f2.pci)))
  {
    var a, b := NicNodes(f1.nics, ByKey(f1.pci)), NicNodes(f2.nics, ByKey(f2.pci));
    var q := Canonical.MultisetPermuted(f1.nics, f2.nics);
    forall i | 0 <= i < |a| ensures a[i] == b[q[i]] {
      var n := f1.nics[i];
      assert n in f1.nics && n == f2.nics[q[i]];
      assert PciView(ByKey(f1.pci)[n.busId]) == PciView(ByKey(f2.pci)[n.busId]);
    }
    Canonical.PermutedMultiset(a, b, q);
  }

  /** What f makes of each, one after another. */
  function Chained<T, U>(f: T -> seq<U>, s: seq<T>): seq<U> {
    if s == [] then [] else Chained(f, s[..|s| - 1]) + f(s[|s| - 1])
  }

  lemma {:induction false} ChainedJoin<T, U>(f: T -> seq<U>, a: seq<T>, b: seq<T>)
    ensures Chained(f, a + b) == Chained(f, a) + Chained(f, b)
  {
    if b == [] {
      assert a + b == a;
    } else {
      var c := b[..|b| - 1];
      ChainedJoin(f, a, c);
      assert (a + b)[..|a + b| - 1] == a + c;
    }
  }

  lemma ChainedWithout<T, U>(f: T -> seq<U>, a: seq<T>, j: nat)
    requires j < |a|
    ensures multiset(Chained(f, a)) == multiset(Chained(f, a[..j] + a[j + 1..])) + multiset(f(a[j]))
  {
    ChainedJoin(f, a[..j], a[j + 1..]);
    ChainedJoin(f, a[..j + 1], a[j + 1..]);
    assert a == a[..j + 1] + a[j + 1..] && a[..j + 1][..j] == a[..j];
  }

  /** Where what f makes depends on a view alone, lists of the same views chain to the same elements. */
  lemma {:induction false} ChainedPermuted<T, U, V>(f: T -> seq<U>, a: seq<T>, b: seq<T>, va: seq<V>, vb: seq<V>)
    requires |a| == |va| && |b| == |vb| && multiset(va) == multiset(vb)
    requires forall i, j :: 0 <= i < |a| && 0 <= j < |b| && va[i] == vb[j] ==> multiset(f(a[i])) == multiset(f(b[j]))
    ensures multiset(Chained(f, a)) == multiset(Chained(f, b))
  {
    if a == [] {
      assert |multiset(vb)| == |b|;
    } else {
      var m := |a| - 1;
      var j := FindLast(va, vb);
      ChainedPermuted(f, a[..m], b[..j] + b[j + 1..], va[..m], vb[..j] + vb[j + 1..]);
      ChainedWithout(f, b, j);
    }
  }

  lemma {:induction false} PciChained(pci: seq<PciFacts>, kept: set<string>, leaves: set<string>,
                                      decimal: int -> string)
    ensures BridgeNodes(pci, kept) == Chained(p => BridgeOf(p, kept), pci)
    ensures PciEdges(pci, kept, leaves, decimal) == Chained(p => EdgesOf(p, kept, leaves, decimal), pci)
  {
    if pci != [] {
      PciChained(pci[..|pci| - 1], kept, leaves, decimal);
    }
  }

  lemma EdgesOfSame(p: PciFacts, q: PciFacts, kept: set<string>, leaves: set<string>, decimal: int -> string)
    requires PciView(p) == PciView(q)
    ensures multiset(EdgesOf(p, kept, leaves, decimal)) == multiset(EdgesOf(q, kept, leaves, decimal))
  {
    var r := Canonical.MultisetPermuted(p.numa, q.numa);
    Canonical.PermutedMultiset(NumaEdges(p, decimal), NumaEdges(q, decimal), r);
    assert p.key == p.(numa := []).key && q.key == q.(numa := []).key;
    assert PcieEdge(p) == PcieEdge(p.(numa := [])) == PcieEdge(q);
  }

  /** The entries in another order add the same nodes and edges. */
  lemma PciPermuted(a: seq<PciFacts>, b: seq<PciFacts>, kept: set<string>, leaves: set<string>, decimal: int -> string)
    requires multiset(PciViews(a)) == multiset(PciViews(b))
    ensures multiset(BridgeNodes(a, kept)) == multiset(BridgeNodes(b, kept))
    ensures multiset(PciEdges(a, kept, leaves, decimal)) == multiset(PciEdges(b, kept, leaves, decimal))
  {
    forall i, j | 0 <= i < |a| && 0 <= j < |b| && PciViews(a)[i] == PciViews(b)[j]
      ensures BridgeOf(a[i], kept) == BridgeOf(b[j], kept)
      ensures multiset(EdgesOf(a[i], kept, leaves, decimal)) == multiset(EdgesOf(b[j], kept, leaves, decimal)) {
      EdgesOfSame(a[i], b[j], kept, leaves, decimal);
      assert a[i].(numa := []) == b[j].(numa := []);
    }
    PciChained(a, kept, leaves, decimal);
    PciChained(b, kept, leaves, decimal);
    ChainedPermuted(p => BridgeOf(p, kept), a, b, PciViews(a), PciViews(b));
    ChainedPermuted(p => EdgesOf(p, kept, leaves, decimal), a, b, PciViews(a), PciViews(b));
  }

  lemma {:induction false} NoRepeatsSame(a: seq<Edge>, b: seq<Edge>)
    requires NoRepeats(a) && NoRepeats(b) && forall e :: e in a <==> e in b
    ensures multiset(a) == multiset(b)
  {
    forall e ensures multiset(a)[e] == multiset(b)[e] {
      NoRepeatsCount(a, e);
      NoRepeatsCount(b, e);
    }
  }

  /** The models built from facts in any order hold the same nodes and edges. */
  lemma BuiltSame(f1: Facts, f2: Facts, decimal: int -> string, m1: Model, m2: Model)
    requires SameFactsButOrder(f1, f2) && IsBuilt(f1, decimal, m1) && IsBuilt(f2, decimal, m2)
    ensures multiset(m1.nodes) == multiset(m2.nodes) && multiset(m1.edges) == multiset(m2.edges)
  {
    var kept1, pe1, se1 :| IsModelOf(f1, decimal, kept1, pe1, se1, m1);
    var kept2, pe2, se2 :| IsModelOf(f2, decimal, kept2, pe2, se2, m2);
    SameLeaves(f1, f2);
    SameKept(f1, f2);
    assert kept1 == kept2;
    NumaPermuted(f1.numaNodes, f2.numaNodes, decimal);
    GpusPermuted(GpusOf(f1), GpusOf(f2));
    NicsPermuted(f1, f2);
    PciPermuted(f1.pci, f2.pci, kept1, Leaves(f1), decimal);
    NvEdgesSame(GpusOf(f1), GpusOf(f2), pe1, se1, pe2, se2);
  }

  lemma NvEdgesSame(a: seq<Gpu>, b: seq<Gpu>, pe1: seq<Edge>, se1: seq<Edge>, pe2: seq<Edge>, se2: seq<Edge>)
    requires SameButOrder(a, b) && AreNvEdges(a, pe1, se1) && AreNvEdges(b, pe2, se2)
    ensures multiset(pe1) == multiset(pe2) && multiset(se1) == multiset(se2) && (se1 == [] <==> se2 == [])
  {
    forall e ensures (e in pe1 <==> e in pe2) && (e in se1 <==> e in se2) {
      EdgesAnyOrder(a, b, e);
    }
    NoRepeatsSame(pe1, pe2);
    NoRepeatsSame(se1, se2);
    SameEmpty(se1, se2);
  }

  lemma SameEmpty(a: seq<Edge>, b: seq<Edge>)
    requires multiset(a) == multiset(b)
    ensures a == [] <==> b == []
  {
    assert |multiset(a)| == |a| && |multiset(b)| == |b|;
  }

  /** The canonical form of the machine does not depend on the order in which its parts are listed. */
  lemma ListingForgotten(pr: Stripping.Printer, f1: Facts, f2: Facts, decimal: int -> string, m1: Model, m2: Model,
                         s1: string, s2: string)
    requires SameFactsButOrder(f1, f2) && IsBuilt(f1, decimal, m1) && IsBuilt(f2, decimal, m2)
    requires Stripping.Faithful(pr) && WellFormedModel(m1) && WellFormedModel(m2)
    requires Canonical.IsCanonical(pr, m1, s1) && Canonical.IsCanonical(pr, m2, s2)
    ensures s1 == s2
  {
    BuiltSame(f1, f2, decimal, m1, m2);
    OrderForgotten(m1, m2);
    Canonical.CanonicalDecidesIsomorphism(pr, m1, m2, s1, s2);
  }
}
