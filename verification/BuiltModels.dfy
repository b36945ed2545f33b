/** What a built model holds, node by node and edge by edge, and how often. */
module BuiltModels {
  import opened Wrappers
  import opened Topology
  import opened NvLinks
  import opened Builder
  import BridgePruning

  // ----- counting

  function Total<T>(s: seq<T>, f: T -> nat): nat {
    if s == [] then 0 else Total(s[..|s| - 1], f) + f(s[|s| - 1])
  }

  /** Counts one for each that holds. */
  ghost function Once<T>(holds: T -> bool): T -> nat {
    t => if holds(t) then 1 else 0
  }

  /** One element for each, and how often x is among them. */
  lemma {:induction false} MappedCount<T, U>(s: seq<T>, r: seq<U>, x: U, f: T -> nat)
    requires |r| == |s| && forall i :: 0 <= i < |s| ==> f(s[i]) == if r[i] == x then 1 else 0
    ensures multiset(r)[x] == Total(s, f)
  {
    if s != [] {
      var n := |s| - 1;
      MappedCount(s[..n], r[..n], x, f);
      assert r == r[..n] + [r[n]];
    }
  }

  lemma {:induction false} NoneOf<T>(s: seq<T>, x: T)
    requires x !in s
    ensures multiset(s)[x] == 0
  {
  }

  // ----- what an entry stands for

  /** A kept entry gives the edge from its parent, with its generation and width where they are known. */
  ghost predicate IsPcieEdge(facts: Facts, p: PciFacts, e: Edge) {
    && e.kind == Pcie && IsKept(facts, p.key) && p.parentKey != "" && e.from == p.parentKey && e.to == p.key
    && AreLinkAttrs(p, e.attrs)
  }

  ghost predicate AreLinkAttrs(p: PciFacts, attrs: map<string, int>) {
    && (forall name :: name in attrs <==> (name == "gen" && p.maxGen != 0) || (name == "width" && p.maxWidth != 0))
    && ("gen" in attrs ==> attrs["gen"] == p.maxGen) && ("width" in attrs ==> attrs["width"] == p.maxWidth)
  }

  /** A GPU's or NIC's entry gives an edge to each NUMA node it lists. */
  ghost predicate IsNumaEdge(facts: Facts, decimal: int -> string, p: PciFacts, n: int, e: Edge) {
    && e.kind == NumaLocal && p.key in Leaves(facts) && e.from == p.key && e.to == "numa-" + decimal(n)
    && e.attrs == map[]
  }

  ghost predicate IsBridgeNode(facts: Facts, p: PciFacts, n: Node) {
    p.bridge && IsKept(facts, p.key) && n == Node(PcieBridge, p.key, map[])
  }

  /** A NIC's attributes, and the vendor and device of its PCI entry. */
  ghost predicate IsNicNode(facts: Facts, nic: Nic, n: Node)
    requires nic.busId in ByKey(facts.pci)
  {
    && n.kind == NodeKind.Nic && n.key == nic.busId
    && (forall name :: name in n.attrs <==> name in nic.attrs || name == "pci_vendor" || name == "pci_device")
    && "pci_vendor" in n.attrs && n.attrs["pci_vendor"] == IntValue(ByKey(facts.pci)[nic.busId].vendor)
    && "pci_device" in n.attrs && n.attrs["pci_device"] == IntValue(ByKey(facts.pci)[nic.busId].device)
    && forall name :: name in nic.attrs && name != "pci_vendor" && name != "pci_device" ==>
         n.attrs[name] == nic.attrs[name]
  }

  // ----- edges

  lemma PcieEdgeIs(facts: Facts, p: PciFacts, e: Edge)
    requires IsKept(facts, p.key) && p.parentKey != ""
    ensures e == PcieEdge(p) <==> IsPcieEdge(facts, p, e)
  {
    LinkAttrsIs(p, e.attrs);
  }

  lemma LinkAttrsIs(p: PciFacts, attrs: map<string, int>)
    ensures attrs == PcieEdge(p).attrs <==> AreLinkAttrs(p, attrs)
  {
    var made := PcieEdge(p).attrs;
    assert AreLinkAttrs(p, made);
    if AreLinkAttrs(p, attrs) {
      assert attrs == made;
    }
  }

  lemma PciEdgesCount(pci: seq<PciFacts>, kept: set<string>, leaves: set<string>, decimal: int -> string, e: Edge,
                      f: PciFacts -> nat)
    requires forall p :: p in pci ==> f(p) == multiset(EdgesOf(p, kept, leaves, decimal))[e]
    ensures multiset(PciEdges(pci, kept, leaves, decimal))[e] == Total(pci, f)
  {
    if pci != [] {
      var front := pci[..|pci| - 1];
      assert pci == front + [pci[|pci| - 1]];
      PciEdgesCount(front, kept, leaves, decimal, e, f);
    }
  }

  lemma OnePcieEdge(facts: Facts, kept: set<string>, decimal: int -> string, p: PciFacts, e: Edge)
    requires IsKeptSet(facts, kept) && e.kind == Pcie
    ensures multiset(EdgesOf(p, kept, Leaves(facts), decimal))[e] == if IsPcieEdge(facts, p, e) then 1 else 0
  {
    if p.key in kept && p.parentKey != "" {
      PcieEdgeIs(facts, p, e);
    }
    NoneOf(NumaEdges(p, decimal), e);
  }

  /** A leaf is kept, being above itself. */
  lemma LeafKept(facts: Facts, key: string)
    requires key in Leaves(facts)
    ensures IsKept(facts, key)
  {
    assert BridgePruning.Up(ParentKeys(ByKey(facts.pci)), key, 0) == Some(key);
  }

  /** How many of the NUMA nodes an entry lists the edge leads to. */
  ghost function NumaTimes(facts: Facts, decimal: int -> string, e: Edge): PciFacts -> nat {
    (p: PciFacts) => Total(p.numa, Once((n: int) => IsNumaEdge(facts, decimal, p, n, e)))
  }

  lemma NumaEdgesOf(facts: Facts, kept: set<string>, decimal: int -> string, p: PciFacts, e: Edge)
    requires IsKeptSet(facts, kept) && e.kind == NumaLocal
    ensures multiset(EdgesOf(p, kept, Leaves(facts), decimal))[e] == NumaTimes(facts, decimal, e)(p)
  {
    var f := Once((n: int) => IsNumaEdge(facts, decimal, p, n, e));
    if p.key in Leaves(facts) {
      LeafKept(facts, p.key);
      MappedCount(p.numa, NumaEdges(p, decimal), e, f);
    } else {
      TotalZero(p.numa, f);
    }
  }

  lemma {:induction false} TotalZero<T>(s: seq<T>, f: T -> nat)
    requires forall t :: t in s ==> f(t) == 0
    ensures Total(s, f) == 0
  {
    if s != [] {
      assert s == s[..|s| - 1] + [s[|s| - 1]];
      TotalZero(s[..|s| - 1], f);
    }
  }

  /** A pcie edge is in the model once for each kept entry that gives it, and so not at all without one. */
  lemma PcieEdgeCount(facts: Facts, decimal: int -> string, m: Model, e: Edge)
    requires IsBuilt(facts, decimal, m) && e.kind == Pcie
    ensures multiset(m.edges)[e] == Total(facts.pci, Once((p: PciFacts) => IsPcieEdge(facts, p, e)))
  {
    var kept, pe, se :| IsModelOf(facts, decimal, kept, pe, se, m);
    var f := Once((p: PciFacts) => IsPcieEdge(facts, p, e));
    forall p | p in facts.pci ensures f(p) == multiset(EdgesOf(p, kept, Leaves(facts), decimal))[e] {
      OnePcieEdge(facts, kept, decimal, p, e);
    }
    PciEdgesCount(facts.pci, kept, Leaves(facts), decimal, e, f);
    NvEdgesOther(facts, pe, se, e);
  }

  lemma NvEdgesOther(facts: Facts, pe: seq<Edge>, se: seq<Edge>, e: Edge)
    requires AreNvEdges(GpusOf(facts), pe, se) && e.kind != NvLink
    ensures multiset(pe)[e] == 0 && multiset(se)[e] == 0
  {
    NoneOf(pe, e);
    NoneOf(se, e);
  }

  /** An edge to a NUMA node is there once for each time an entry of a leaf lists that node. */
  lemma NumaEdgeCount(facts: Facts, decimal: int -> string, m: Model, e: Edge)
    requires IsBuilt(facts, decimal, m) && e.kind == NumaLocal
    ensures multiset(m.edges)[e] == Total(facts.pci, NumaTimes(facts, decimal, e))
  {
    var kept, pe, se :| IsModelOf(facts, decimal, kept, pe, se, m);
    var f := NumaTimes(facts, decimal, e);
    forall p | p in facts.pci ensures f(p) == multiset(EdgesOf(p, kept, Leaves(facts), decimal))[e] {
      NumaEdgesOf(facts, kept, decimal, p, e);
    }
    PciEdgesCount(facts.pci, kept, Leaves(facts), decimal, e, f);
    NvEdgesOther(facts, pe, se, e);
  }

  lemma NoNvLink(p: PciFacts, kept: set<string>, leaves: set<string>, decimal: int -> string, e: Edge)
    requires e.kind == NvLink
    ensures multiset(EdgesOf(p, kept, leaves, decimal))[e] == 0
  {
    NoneOf(EdgesOf(p, kept, leaves, decimal), e);
  }

  lemma NoNvLinks(pci: seq<PciFacts>, kept: set<string>, leaves: set<string>, decimal: int -> string, e: Edge)
    requires e.kind == NvLink
    ensures multiset(PciEdges(pci, kept, leaves, decimal))[e] == 0
  {
    forall p | p in pci ensures multiset(EdgesOf(p, kept, leaves, decimal))[e] == 0 {
      NoNvLink(p, kept, leaves, decimal, e);
    }
    var none: PciFacts -> nat := p => 0;
    PciEdgesCount(pci, kept, leaves, decimal, e, none);
    TotalZero(pci, none);
  }

  /** An NVLink edge is there once where it joins a pair of GPUs or a GPU and a switch as they report it. */
  lemma NvLinkEdgeCount(facts: Facts, decimal: int -> string, m: Model, e: Edge)
    requires IsBuilt(facts, decimal, m) && e.kind == NvLink
    ensures multiset(m.edges)[e] == (if IsPairEdge(GpusOf(facts), e) then 1 else 0)
                                    + if IsSwitchEdge(GpusOf(facts), e) then 1 else 0
  {
    var kept, pe, se :| IsModelOf(facts, decimal, kept, pe, se, m);
    NoNvLinks(facts.pci, kept, Leaves(facts), decimal, e);
    NoRepeatsCount(pe, e);
    NoRepeatsCount(se, e);
  }

  // ----- nodes

  function Range(n: nat): (r: seq<int>)
    ensures |r| == n && forall i :: 0 <= i < n ==> r[i] == i
  {
    seq(n, i => i)
  }

  /** How often a node should be in the model of the facts: what is equal to it, of each kind. */
  ghost function NodeTimes(facts: Facts, decimal: int -> string, n: Node): nat {
    MachineTimes(facts, decimal, n) + GpuTimes(facts, n) + NicTimes(facts, n) + BridgeTimes(facts, n)
    + SwitchTimes(facts, n)
  }

  ghost function MachineTimes(facts: Facts, decimal: int -> string, n: Node): nat {
    Total(Range(facts.packages), Once((i: int) => n == Node(Package, "package-" + decimal(i), map[])))
    + Total(facts.numaNodes, Once((k: int) => n == Node(Numa, "numa-" + decimal(k), map[])))
  }

  ghost function GpuTimes(facts: Facts, n: Node): nat {
    match facts.gpus
    case None => 0
    case Some(gpus) => Total(gpus, Once((g: NvLinks.Gpu) => n == Node(NodeKind.Gpu, g.busId, g.attrs)))
  }

  ghost function NicTimes(facts: Facts, n: Node): nat {
    Total(facts.nics, Once((nic: Builder.Nic) => nic.busId in ByKey(facts.pci) && IsNicNode(facts, nic, n)))
  }

  ghost function BridgeTimes(facts: Facts, n: Node): nat {
    Total(facts.pci, Once((p: PciFacts) => IsBridgeNode(facts, p, n)))
  }

  ghost function SwitchTimes(facts: Facts, n: Node): nat {
    if HasSwitch(facts) && n == Node(SwitchGroup, "switch-group-0", map[]) then 1 else 0
  }

  /** Some GPU has an active link to a switch. */
  ghost predicate HasSwitch(facts: Facts) {
    exists id :: Counted(GpusOf(facts), id, ToSwitch) > 0
  }

  lemma MachineCount(facts: Facts, decimal: int -> string, n: Node)
    ensures multiset(MachineNodes(facts, decimal))[n] == MachineTimes(facts, decimal, n)
  {
    var packages := seq(facts.packages, i => Node(Package, "package-" + decimal(i), map[]));
    var numa := NumaNodes(facts.numaNodes, decimal);
    assert MachineNodes(facts, decimal) == packages + numa;
    MappedCount(Range(facts.packages), packages, n,
                Once((i: int) => n == Node(Package, "package-" + decimal(i), map[])));
    MappedCount(facts.numaNodes, numa, n, Once((k: int) => n == Node(Numa, "numa-" + decimal(k), map[])));
  }

  lemma GpuCount(facts: Facts, n: Node)
    ensures multiset(GpuNodes(GpusOf(facts)))[n] == GpuTimes(facts, n)
  {
    MappedCount(GpusOf(facts), GpuNodes(GpusOf(facts)), n,
                Once((g: NvLinks.Gpu) => n == Node(NodeKind.Gpu, g.busId, g.attrs)));
  }

  lemma {:induction false} BridgesCount(facts: Facts, pci: seq<PciFacts>, kept: set<string>, n: Node,
                                        f: PciFacts -> nat)
    requires IsKeptSet(facts, kept) && forall p :: f(p) == if IsBridgeNode(facts, p, n) then 1 else 0
    ensures multiset(BridgeNodes(pci, kept))[n] == Total(pci, f)
  {
    if pci != [] {
      BridgesCount(facts, pci[..|pci| - 1], kept, n, f);
    }
  }

  lemma NicNodeIs(facts: Facts, nic: Builder.Nic, n: Node)
    requires nic.busId in ByKey(facts.pci)
    ensures n == NicNode(nic, ByKey(facts.pci)[nic.busId]) <==> IsNicNode(facts, nic, n)
  {
    var made := NicNode(nic, ByKey(facts.pci)[nic.busId]);
    if IsNicNode(facts, nic, n) {
      assert n.attrs == made.attrs;
    }
  }

  lemma NicsCount(facts: Facts, n: Node)
    requires forall nic :: nic in facts.nics ==> nic.busId in ByKey(facts.pci)
    ensures multiset(NicNodes(facts.nics, ByKey(facts.pci)))[n] == NicTimes(facts, n)
  {
    var f := Once((nic: Builder.Nic) => nic.busId in ByKey(facts.pci) && IsNicNode(facts, nic, n));
    forall i | 0 <= i < |facts.nics|
      ensures f(facts.nics[i]) == if NicNodes(facts.nics, ByKey(facts.pci))[i] == n then 1 else 0
    {
      NicNodeIs(facts, facts.nics[i], n);
    }
    MappedCount(facts.nics, NicNodes(facts.nics, ByKey(facts.pci)), n, f);
  }

  lemma GroupCount(facts: Facts, pe: seq<Edge>, se: seq<Edge>, n: Node)
    requires AreNvEdges(GpusOf(facts), pe, se)
    ensures multiset(GroupNodes(se))[n] == SwitchTimes(facts, n)
  {
    if id :| Counted(GpusOf(facts), id, ToSwitch) > 0 {
      var e := Edge(NvLink, id, "switch-group-0", map["links" := Counted(GpusOf(facts), id, ToSwitch)]);
      assert IsSwitchEdge(GpusOf(facts), e);
      assert e in se;
    }
    if se != [] {
      assert se[0] in se;
    }
  }

  lemma PartsCount(machine: seq<Node>, gpus: seq<Node>, nics: seq<Node>, bridges: seq<Node>, group: seq<Node>, n: Node)
    ensures multiset(machine + (gpus + nics) + bridges + group)[n]
         == multiset(machine)[n] + multiset(gpus)[n] + multiset(nics)[n] + multiset(bridges)[n] + multiset(group)[n]
  {
  }

  /** A node is in the model as often as the facts say, and no other is. */
  lemma NodeCount(facts: Facts, decimal: int -> string, m: Model, n: Node)
    requires IsBuilt(facts, decimal, m)
    ensures multiset(m.nodes)[n] == NodeTimes(facts, decimal, n)
  {
    var kept, pe, se :| IsModelOf(facts, decimal, kept, pe, se, m);
    PartsCount(MachineNodes(facts, decimal), GpuNodes(GpusOf(facts)), NicNodes(facts.nics, ByKey(facts.pci)),
               BridgeNodes(facts.pci, kept), GroupNodes(se), n);
    MachineCount(facts, decimal, n);
    GpuCount(facts, n);
    NicsCount(facts, n);
    BridgesCount(facts, facts.pci, kept, n, Once((p: PciFacts) => IsBridgeNode(facts, p, n)));
    GroupCount(facts, pe, se, n);
  }

  // ----- entries of one key

  /** Of the entries with one key the last counts. */
  lemma {:induction false} LastCounts(pci: seq<PciFacts>, i: nat)
    requires i < |pci| && forall j :: i < j < |pci| ==> pci[j].key != pci[i].key
    ensures pci[i].key in ByKey(pci) && ByKey(pci)[pci[i].key] == pci[i]
  {
    if i < |pci| - 1 {
      LastCounts(pci[..|pci| - 1], i);
    }
  }
}
