/** Building the machine model from the facts read: devices, the bridges above them, and the NVLinks between GPUs. */
module Builder {
  import opened Wrappers
  import opened Topology
  import opened NvLinks
  import BridgePruning

  /** parentKey is "" for a root; maxGen and maxWidth are 0 when absent. */
  datatype PciFacts = PciFacts(key: string, parentKey: string, bridge: bool, vendor: int, device: int,
                               maxGen: int, maxWidth: int, numa: seq<int>)

  datatype Nic = Nic(busId: string, attrs: map<string, Value>)

  datatype Facts = Facts(packages: nat, numaNodes: seq<int>, pci: seq<PciFacts>, gpus: Option<seq<Gpu>>, nics: seq<Nic>)

  datatype BuildError = DanglingReference(file: string, key: string) | MissingParent

  // ----- what the model should hold

  function GpusOf(facts: Facts): seq<Gpu> { if facts.gpus.Some? then facts.gpus.value else [] }

  /** The facts of a key; a later entry replaces an earlier one. */
  function ByKey(pci: seq<PciFacts>): (m: map<string, PciFacts>)
    ensures forall k :: k in m ==> m[k] in pci && m[k].key == k
    ensures forall p :: p in pci ==> p.key in m
  {
    if pci == [] then map[]
    else
      var front, last := pci[..|pci| - 1], pci[|pci| - 1];
      assert pci == front + [last];
      ByKey(front)[last.key := last]
  }

  function ParentKeys(byKey: map<string, PciFacts>): BridgePruning.Parents {
    map k | k in byKey :: byKey[k].parentKey
  }

  predicate IsDevice(byKey: map<string, PciFacts>, key: string) { key in byKey && !byKey[key].bridge }

  function Leaves(facts: Facts): set<string> {
    (set g | g in GpusOf(facts) :: g.busId) + (set n | n in facts.nics :: n.busId)
  }

  /** Kept: the devices, and every bridge above one. */
  ghost predicate IsKept(facts: Facts, key: string) {
    BridgePruning.Above(ParentKeys(ByKey(facts.pci)), Leaves(facts), key)
  }

  function NumaKey(n: int, decimal: int -> string): string { "numa-" + decimal(n) }

  function NumaNodes(numa: seq<int>, decimal: int -> string): (r: seq<Node>)
    ensures |r| == |numa| && forall i :: 0 <= i < |numa| ==> r[i] == Node(Numa, NumaKey(numa[i], decimal), map[])
  {
    seq(|numa|, i requires 0 <= i < |numa| => Node(Numa, NumaKey(numa[i], decimal), map[]))
  }

  function MachineNodes(facts: Facts, decimal: int -> string): seq<Node> {
    seq(facts.packages, i => Node(Package, "package-" + decimal(i), map[])) + NumaNodes(facts.numaNodes, decimal)
  }

  function GpuNodes(gpus: seq<Gpu>): (r: seq<Node>)
    ensures |r| == |gpus| && forall i :: 0 <= i < |gpus| ==> r[i] == Node(NodeKind.Gpu, gpus[i].busId, gpus[i].attrs)
  {
    seq(|gpus|, i requires 0 <= i < |gpus| => Node(NodeKind.Gpu, gpus[i].busId, gpus[i].attrs))
  }

  /** A nic carries the vendor and device IDs of its PCI entry. */
  function NicNode(n: Nic, dev: PciFacts): Node {
    Node(NodeKind.Nic, n.busId, n.attrs["pci_vendor" := IntValue(dev.vendor)]["pci_device" := IntValue(dev.device)])
  }

  function NicNodes(nics: seq<Nic>, byKey: map<string, PciFacts>): (r: seq<Node>)
    requires forall n :: n in nics ==> n.busId in byKey
    ensures |r| == |nics| && forall i :: 0 <= i < |nics| ==> r[i] == NicNode(nics[i], byKey[nics[i].busId])
  {
    seq(|nics|, i requires 0 <= i < |nics| => assert nics[i] in nics; NicNode(nics[i], byKey[nics[i].busId]))
  }

  function BridgeOf(p: PciFacts, kept: set<string>): seq<Node> {
    if p.key in kept && p.bridge then [Node(PcieBridge, p.key, map[])] else []
  }

  function BridgeNodes(pci: seq<PciFacts>, kept: set<string>): seq<Node> {
    if pci == [] then [] else BridgeNodes(pci[..|pci| - 1], kept) + BridgeOf(pci[|pci| - 1], kept)
  }

  function PcieEdge(p: PciFacts): Edge {
    var gen := if p.maxGen != 0 then map["gen" := p.maxGen] else map[];
    Edge(Pcie, p.parentKey, p.key, if p.maxWidth != 0 then gen["width" := p.maxWidth] else gen)
  }

  function NumaEdges(p: PciFacts, decimal: int -> string): (r: seq<Edge>)
    ensures |r| == |p.numa| && forall i :: 0 <= i < |p.numa| ==>
              r[i] == Edge(NumaLocal, p.key, NumaKey(p.numa[i], decimal), map[])
  {
    seq(|p.numa|, i requires 0 <= i < |p.numa| => Edge(NumaLocal, p.key, NumaKey(p.numa[i], decimal), map[]))
  }

  function EdgesOf(p: PciFacts, kept: set<string>, leaves: set<string>, decimal: int -> string): seq<Edge> {
    if p.key !in kept then []
    else (if p.parentKey != "" then [PcieEdge(p)] else []) + if p.key in leaves then NumaEdges(p, decimal) else []
  }

  function PciEdges(pci: seq<PciFacts>, kept: set<string>, leaves: set<string>, decimal: int -> string): seq<Edge> {
    if pci == [] then []
    else PciEdges(pci[..|pci| - 1], kept, leaves, decimal) + EdgesOf(pci[|pci| - 1], kept, leaves, decimal)
  }

  /** Every reference names what it should. */
  ghost predicate Buildable(facts: Facts) {
    var byKey := ByKey(facts.pci);
    && (forall k :: k in Leaves(facts) ==> k in byKey && !byKey[k].bridge)
    && (forall k :: IsKept(facts, k) ==> k in byKey)
    && (forall i, j :: !Dangles(GpusOf(facts), GpuKeys(facts), i, j))
  }

  function GpuKeys(facts: Facts): set<string> { set g | g in GpusOf(facts) :: g.busId }

  ghost predicate IsKeptSet(facts: Facts, kept: set<string>) { forall k :: k in kept <==> IsKept(facts, k) }

  /** The NVLink edges: one for each pair of GPUs and one for each GPU on a switch, in some order. */
  ghost predicate AreNvEdges(gpus: seq<Gpu>, pairEdges: seq<Edge>, switchEdges: seq<Edge>) {
    && NoRepeats(pairEdges) && (forall e :: e in pairEdges <==> IsPairEdge(gpus, e))
    && NoRepeats(switchEdges) && (forall e :: e in switchEdges <==> IsSwitchEdge(gpus, e))
  }

  function GroupNodes(switchEdges: seq<Edge>): seq<Node> {
    if switchEdges == [] then [] else [Node(SwitchGroup, SWITCH_GROUP, map[])]
  }

  ghost predicate IsModelOf(facts: Facts, decimal: int -> string, kept: set<string>, pairEdges: seq<Edge>,
                            switchEdges: seq<Edge>, m: Model)
    requires forall n :: n in facts.nics ==> n.busId in ByKey(facts.pci)
  {
    && IsKeptSet(facts, kept) && AreNvEdges(GpusOf(facts), pairEdges, switchEdges)
    && m.nodes == MachineNodes(facts, decimal) + (GpuNodes(GpusOf(facts)) + NicNodes(facts.nics, ByKey(facts.pci)))
                  + BridgeNodes(facts.pci, kept) + GroupNodes(switchEdges)
    && m.edges == PciEdges(facts.pci, kept, Leaves(facts), decimal) + pairEdges + switchEdges
  }

  // ----- the passes

  method IndexPci(pci: seq<PciFacts>) returns (byKey: map<string, PciFacts>)
    ensures byKey == ByKey(pci)
  {
    byKey := map[];
    for i := 0 to |pci|
      invariant byKey == ByKey(pci[..i])
    {
      assert pci[..i + 1][..i] == pci[..i];
      byKey := byKey[pci[i].key := pci[i]];
    }
    assert pci[..|pci|] == pci;
  }

  /** The first GPU without a PCI device. */
  ghost predicate FirstBadGpu(gpus: seq<Gpu>, byKey: map<string, PciFacts>, key: string) {
    exists i :: 0 <= i < |gpus| && gpus[i].busId == key && !IsDevice(byKey, key)
                && forall j :: 0 <= j < i ==> IsDevice(byKey, gpus[j].busId)
  }

  ghost predicate FirstBadNic(nics: seq<Nic>, byKey: map<string, PciFacts>, key: string) {
    exists i :: 0 <= i < |nics| && nics[i].busId == key && !IsDevice(byKey, key)
                && forall j :: 0 <= j < i ==> IsDevice(byKey, nics[j].busId)
  }

  /** What is wrong: a GPU, then a NIC, then a parent, then the far end of a link is not known. */
  ghost predicate IsError(facts: Facts, e: BuildError) {
    var byKey := ByKey(facts.pci);
    var gpusKnown := forall g :: g in GpusOf(facts) ==> IsDevice(byKey, g.busId);
    var known := forall k :: k in Leaves(facts) ==> IsDevice(byKey, k);
    var parentsKnown := forall k :: IsKept(facts, k) ==> k in byKey;
    match e
    case DanglingReference(file, key) =>
      || (file == "nvml.json" && FirstBadGpu(GpusOf(facts), byKey, key))
      || (file == "nics.json" && gpusKnown && FirstBadNic(facts.nics, byKey, key))
      || (file == "nvml.json" && known && parentsKnown && key == "nvlink remote"
          && exists i, j :: Dangles(GpusOf(facts), GpuKeys(facts), i, j))
    case MissingParent => known && !parentsKnown
  }

  lemma MissingIsError(facts: Facts)
    requires forall k :: k in Leaves(facts) ==> IsDevice(ByKey(facts.pci), k)
    requires exists k :: IsKept(facts, k) && k !in ByKey(facts.pci)
    ensures IsError(facts, MissingParent)
  {
  }

  lemma RemoteIsError(facts: Facts)
    requires forall k :: k in Leaves(facts) ==> IsDevice(ByKey(facts.pci), k)
    requires forall k :: IsKept(facts, k) ==> k in ByKey(facts.pci)
    requires exists i, j :: Dangles(GpusOf(facts), GpuKeys(facts), i, j)
    ensures IsError(facts, DanglingReference("nvml.json", "nvlink remote"))
  {
  }

  method AddGpus(gpus: seq<Gpu>, byKey: map<string, PciFacts>)
    returns (bad: Option<string>, nodes: seq<Node>, keys: set<string>)
    ensures bad.Some? <==> exists g :: g in gpus && !IsDevice(byKey, g.busId)
    ensures bad.Some? ==> FirstBadGpu(gpus, byKey, bad.value)
    ensures bad.None? ==> nodes == GpuNodes(gpus) && keys == set g | g in gpus :: g.busId
  {
    nodes, keys := [], {};
    for i := 0 to |gpus|
      invariant nodes == GpuNodes(gpus[..i]) && keys == set g | g in gpus[..i] :: g.busId
      invariant forall g :: g in gpus[..i] ==> IsDevice(byKey, g.busId)
    {
      assert gpus[..i + 1] == gpus[..i] + [gpus[i]];
      if !IsDevice(byKey, gpus[i].busId) {
        return Some(gpus[i].busId), nodes, keys;
      }
      nodes := nodes + [Node(NodeKind.Gpu, gpus[i].busId, gpus[i].attrs)];
      keys := keys + {gpus[i].busId};
    }
    assert gpus[..|gpus|] == gpus;
    bad := None;
  }

  method AddNics(nics: seq<Nic>, byKey: map<string, PciFacts>)
    returns (bad: Option<string>, nodes: seq<Node>, keys: set<string>)
    ensures bad.Some? <==> exists n :: n in nics && !IsDevice(byKey, n.busId)
    ensures bad.Some? ==> FirstBadNic(nics, byKey, bad.value)
    ensures bad.None? ==> (forall n :: n in nics ==> n.busId in byKey) && nodes == NicNodes(nics, byKey)
    ensures bad.None? ==> keys == set n | n in nics :: n.busId
  {
    nodes, keys := [], {};
    for i := 0 to |nics|
      invariant forall n :: n in nics[..i] ==> IsDevice(byKey, n.busId)
      invariant nodes == NicNodes(nics[..i], byKey) && keys == set n | n in nics[..i] :: n.busId
    {
      assert nics[..i + 1] == nics[..i] + [nics[i]];
      if !IsDevice(byKey, nics[i].busId) {
        return Some(nics[i].busId), nodes, keys;
      }
      nodes := nodes + [NicNode(nics[i], byKey[nics[i].busId])];
      keys := keys + {nics[i].busId};
    }
    assert nics[..|nics|] == nics;
    bad := None;
  }

  /** A node for each kept bridge, an edge from each kept parent, and an edge to each NUMA node of a leaf. */
  method AddPci(pci: seq<PciFacts>, kept: set<string>, leaves: set<string>, decimal: int -> string)
    returns (nodes: seq<Node>, edges: seq<Edge>)
    ensures nodes == BridgeNodes(pci, kept) && edges == PciEdges(pci, kept, leaves, decimal)
  {
    nodes, edges := [], [];
    for i := 0 to |pci|
      invariant nodes == BridgeNodes(pci[..i], kept) && edges == PciEdges(pci[..i], kept, leaves, decimal)
    {
      assert pci[..i + 1][..i] == pci[..i];
      if pci[i].key !in kept {
        assert edges + [] == edges && nodes + [] == nodes;
        continue;
      }
      var moreNodes, moreEdges := AddEntry(pci[i], kept, leaves, decimal);
      nodes, edges := nodes + moreNodes, edges + moreEdges;
    }
    assert pci[..|pci|] == pci;
  }

  method AddEntry(p: PciFacts, ghost kept: set<string>, leaves: set<string>, decimal: int -> string)
    returns (nodes: seq<Node>, edges: seq<Edge>)
    requires p.key in kept
    ensures nodes == (if p.bridge then [Node(PcieBridge, p.key,
                                             map[])] else []) && edges == EdgesOf(p, kept, leaves, decimal)
  {
    nodes, edges := [], [];
    if p.bridge {
      nodes := [Node(PcieBridge, p.key, map[])];
    }
    if p.parentKey != "" {
      edges := edges + [PcieEdge(p)];
    }
    if p.key in leaves {
      edges := edges + NumaEdges(p, decimal);
    }
  }

  method AddNvLinks(facts: Facts) returns (ok: bool, pairEdges: seq<Edge>, switchEdges: seq<Edge>)
    ensures ok <==> forall i, j :: !Dangles(GpusOf(facts), GpuKeys(facts), i, j)
    ensures ok ==> AreNvEdges(GpusOf(facts), pairEdges, switchEdges)
  {
    pairEdges, switchEdges := [], [];
    var tally, pairs;
    ok, tally, pairs := TallyAll(GpusOf(facts), GpuKeys(facts));
    if !ok {
      return;
    }
    pairEdges := PairEdges(tally, pairs, GpusOf(facts));
    switchEdges := SwitchEdges(tally, GpusOf(facts));
  }

  /** The nodes of the GPUs and NICs; bad at the first that has no PCI device. */
  method AddDevices(facts: Facts, byKey: map<string, PciFacts>)
    returns (bad: Option<BuildError>, nodes: seq<Node>, leaves: set<string>)
    requires byKey == ByKey(facts.pci)
    ensures bad.None? <==> forall k :: k in Leaves(facts) ==> IsDevice(byKey, k)
    ensures bad.Some? ==> IsError(facts, bad.value)
    ensures bad.None? ==> leaves == Leaves(facts) && forall n :: n in facts.nics ==> n.busId in byKey
    ensures bad.None? ==> nodes == GpuNodes(GpusOf(facts)) + NicNodes(facts.nics, byKey)
  {
    nodes, leaves := [], {};
    var badGpu, gpuNodes, gpuKeys := AddGpus(GpusOf(facts), byKey);
    if badGpu.Some? {
      ghost var g :| g in GpusOf(facts) && !IsDevice(byKey, g.busId);
      assert g.busId in Leaves(facts);
      return Some(DanglingReference("nvml.json", badGpu.value)), nodes, leaves;
    }
    var badNic, nicNodes, nicKeys := AddNics(facts.nics, byKey);
    if badNic.Some? {
      ghost var n :| n in facts.nics && !IsDevice(byKey, n.busId);
      assert n.busId in Leaves(facts);
      return Some(DanglingReference("nics.json", badNic.value)), nodes, leaves;
    }
    bad, nodes, leaves := None, gpuNodes + nicNodes, gpuKeys + nicKeys;
  }

  /** Some kept keys and NVLink edges make m a model of the facts. */
  ghost predicate IsBuilt(facts: Facts, decimal: int -> string, m: Model) {
    && (forall n :: n in facts.nics ==> n.busId in ByKey(facts.pci))
    && exists kept, pe, se :: IsModelOf(facts, decimal, kept, pe, se, m)
  }

  method Build(facts: Facts, decimal: int -> string) returns (r: Result<Model, BuildError>)
    ensures r.Ok? <==> Buildable(facts)
    ensures r.Ok? ==> IsBuilt(facts, decimal, r.value)
    ensures r.Err? ==> IsError(facts, r.error)
  {
    var byKey := IndexPci(facts.pci);
    var bad, devices, leaves := AddDevices(facts, byKey);
    if bad.Some? {
      return Err(bad.value);
    }
    var kept := BridgePruning.Keep(ParentKeys(byKey), leaves);
    if kept.None? {
      MissingIsError(facts);
      return Err(MissingParent);
    }
    var bridges, pciEdges := AddPci(facts.pci, kept.value, leaves, decimal);
    var ok, pairEdges, switchEdges := AddNvLinks(facts);
    if !ok {
      RemoteIsError(facts);
      return Err(DanglingReference("nvml.json", "nvlink remote"));
    }
    var m := Assemble(facts, decimal, devices, bridges, pciEdges, pairEdges, switchEdges, kept.value);
    r := Ok(m);
  }

  method Assemble(facts: Facts, decimal: int -> string, devices: seq<Node>, bridges: seq<Node>, pciEdges: seq<Edge>,
                  pairEdges: seq<Edge>, switchEdges: seq<Edge>, ghost kept: set<string>) returns (m: Model)
    requires forall n :: n in facts.nics ==> n.busId in ByKey(facts.pci)
    requires IsKeptSet(facts, kept) && AreNvEdges(GpusOf(facts), pairEdges, switchEdges)
    requires devices == GpuNodes(GpusOf(facts)) + NicNodes(facts.nics, ByKey(facts.pci))
    requires bridges == BridgeNodes(facts.pci, kept) && pciEdges == PciEdges(facts.pci, kept, Leaves(facts), decimal)
    ensures IsBuilt(facts, decimal, m)
  {
    m := Model(MachineNodes(facts, decimal) + devices + bridges + GroupNodes(switchEdges),
               pciEdges + pairEdges + switchEdges);
    assert IsModelOf(facts, decimal, kept, pairEdges, switchEdges, m);
  }

  // ----- every edge of the model joins two of its nodes

  ghost predicate OneEntryPerKey(pci: seq<PciFacts>) {
    forall i, j :: 0 <= i < j < |pci| ==> pci[i].key != pci[j].key
  }

  /** What hwloc gives: one entry a key, and every parent a bridge or a device of the model. */
  ghost predicate WellParented(facts: Facts) {
    && OneEntryPerKey(facts.pci)
    && (forall p :: p in facts.pci && p.parentKey != "" ==>
          exists q :: q in facts.pci && q.key == p.parentKey && (q.bridge || q.key in Leaves(facts)))
    && (forall p, n :: p in facts.pci && n in p.numa ==> n in facts.numaNodes)
  }

  ghost predicate InNodes(nodes: seq<Node>, key: string) { exists n :: n in nodes && n.key == key }

  lemma {:induction false} BridgeNodesHave(pci: seq<PciFacts>, kept: set<string>, p: PciFacts)
    requires p in pci && p.bridge && p.key in kept
    ensures InNodes(BridgeNodes(pci, kept), p.key)
  {
    var front, last := pci[..|pci| - 1], pci[|pci| - 1];
    if p == last {
      assert Node(PcieBridge, p.key, map[]) in BridgeNodes(pci, kept);
    } else {
      assert p in front;
      BridgeNodesHave(front, kept, p);
      var n :| n in BridgeNodes(front, kept) && n.key == p.key;
      assert n in BridgeNodes(pci, kept);
    }
  }

  lemma {:induction false} PciEdgesFrom(pci: seq<PciFacts>, kept: set<string>, leaves: set<string>,
                                        decimal: int -> string, e: Edge)
    returns (p: PciFacts)
    requires e in PciEdges(pci, kept, leaves, decimal)
    ensures p in pci && p.key in kept
    ensures (e == PcieEdge(p) && p.parentKey != "") || (e in NumaEdges(p, decimal) && e.from == p.key)
  {
    p := pci[|pci| - 1];
    if e in PciEdges(pci[..|pci| - 1], kept, leaves, decimal) {
      p := PciEdgesFrom(pci[..|pci| - 1], kept, leaves, decimal, e);
    }
  }

  lemma UniqueByKey(pci: seq<PciFacts>, p: PciFacts)
    requires OneEntryPerKey(pci) && p in pci
    ensures ByKey(pci)[p.key] == p
  {
    var q := ByKey(pci)[p.key];
    var i: nat :| i < |pci| && pci[i] == p;
    var j: nat :| j < |pci| && pci[j] == q;
  }

  /** A kept key is a bridge or a leaf, so it has a node. */
  lemma KeptHasNode(facts: Facts, decimal: int -> string, kept: set<string>, pe: seq<Edge>, se: seq<Edge>, m: Model,
                    p: PciFacts)
    requires forall n :: n in facts.nics ==> n.busId in ByKey(facts.pci)
    requires IsModelOf(facts, decimal, kept, pe, se, m) && WellParented(facts)
    requires p in facts.pci && p.key in kept && (p.bridge || p.key in Leaves(facts))
    ensures InNodes(m.nodes, p.key)
  {
    var machine, gpus, nics := MachineNodes(facts, decimal), GpuNodes(GpusOf(facts)), NicNodes(facts.nics, ByKey(facts.pci));
    var bridges := BridgeNodes(facts.pci, kept);
    assert forall n :: n in gpus || n in nics || n in bridges ==> n in m.nodes;
    if p.bridge {
      BridgeNodesHave(facts.pci, kept, p);
      var n :| n in bridges && n.key == p.key;
    } else {
      LeafHasNode(facts, p.key);
      var n :| (n in gpus || n in nics) && n.key == p.key;
    }
  }

  lemma LeafHasNode(facts: Facts, key: string)
    requires forall n :: n in facts.nics ==> n.busId in ByKey(facts.pci)
    requires key in Leaves(facts)
    ensures exists n :: (n in GpuNodes(GpusOf(facts)) || n in NicNodes(facts.nics, ByKey(facts.pci))) && n.key == key
  {
    if key in GpuKeys(facts) {
      var g :| g in GpusOf(facts) && g.busId == key;
      var i: nat :| i < |GpusOf(facts)| && GpusOf(facts)[i] == g;
      assert GpuNodes(GpusOf(facts))[i].key == key;
    } else {
      var n :| n in facts.nics && n.busId == key;
      var i: nat :| i < |facts.nics| && facts.nics[i] == n;
      assert NicNodes(facts.nics, ByKey(facts.pci))[i].key == key;
    }
  }

  /** What lies above a leaf is a leaf itself or the parent of an entry. */
  lemma KeptIsBridgeOrLeaf(facts: Facts, p: PciFacts)
    requires WellParented(facts) && p in facts.pci && IsKept(facts, p.key)
    ensures p.bridge || p.key in Leaves(facts)
  {
    var parents := ParentKeys(ByKey(facts.pci));
    var leaf, n: nat :| leaf in Leaves(facts) && BridgePruning.Up(parents, leaf, n) == Some(p.key);
    if n > 0 {
      var below := BridgePruning.Up(parents, leaf, n - 1).value;
      var child := ByKey(facts.pci)[below];
      assert child in facts.pci && child.parentKey == p.key;
      var q :| q in facts.pci && q.key == child.parentKey && (q.bridge || q.key in Leaves(facts));
      UniqueByKey(facts.pci, p);
      UniqueByKey(facts.pci, q);
    }
  }

  /** Both ends of a pcie edge are nodes. */
  lemma PcieEdgeJoins(facts: Facts, decimal: int -> string, kept: set<string>, pe: seq<Edge>, se: seq<Edge>, m: Model,
                      p: PciFacts)
    requires forall n :: n in facts.nics ==> n.busId in ByKey(facts.pci)
    requires IsModelOf(facts, decimal, kept, pe, se, m) && WellParented(facts)
    requires p in facts.pci && p.key in kept
    ensures InNodes(m.nodes, p.key) && (p.parentKey != "" ==> InNodes(m.nodes, p.parentKey))
  {
    KeptIsBridgeOrLeaf(facts, p);
    KeptHasNode(facts, decimal, kept, pe, se, m, p);
    if p.parentKey != "" {
      UniqueByKey(facts.pci, p);
      BridgePruning.ParentAbove(ParentKeys(ByKey(facts.pci)), Leaves(facts), p.key);
      var q :| q in facts.pci && q.key == p.parentKey && (q.bridge || q.key in Leaves(facts));
      KeptHasNode(facts, decimal, kept, pe, se, m, q);
    }
  }

  lemma NumaHasNode(facts: Facts, decimal: int -> string, n: int)
    requires n in facts.numaNodes
    ensures InNodes(MachineNodes(facts, decimal), NumaKey(n, decimal))
  {
    var i: nat :| i < |facts.numaNodes| && facts.numaNodes[i] == n;
    assert MachineNodes(facts, decimal)[facts.packages + i].key == NumaKey(n, decimal);
  }

  /** A GPU that counts links is listed, and so is the GPU it counts them to. */
  lemma CountedKnown(gpus: seq<Gpu>, keys: set<string>, self: string, r: Remote)
    requires Counted(gpus, self, r) > 0 && keys == (set g | g in gpus :: g.busId)
    requires forall i, j :: !Dangles(gpus, keys, i, j)
    ensures self in keys && (r.ToGpu? ==> r.busId in keys)
  {
    CountedReports(gpus, self, r);
    var i, j := CountedWhere(gpus, self, r);
    assert gpus[i] in gpus;
    assert !Dangles(gpus, keys, i, j);
  }

  lemma {:induction false} CountedWhere(gpus: seq<Gpu>, self: string, r: Remote) returns (i: nat, j: nat)
    requires Counted(gpus, self, r) > 0
    ensures i < |gpus| && gpus[i].links.Some? && j < |gpus[i].links.value| && gpus[i].links.value[j] == Link(true, r)
  {
    var last := gpus[|gpus| - 1];
    if last.busId == self && LinksTo(last, r) > 0 {
      i := |gpus| - 1;
      assert Link(true, r) in multiset(last.links.value);
      j :| j < |last.links.value| && last.links.value[j] == Link(true, r);
    } else {
      i, j := CountedWhere(gpus[..|gpus| - 1], self, r);
    }
  }

  lemma NvEdgeJoins(facts: Facts, decimal: int -> string, kept: set<string>, pe: seq<Edge>, se: seq<Edge>, m: Model,
                    e: Edge)
    requires forall n :: n in facts.nics ==> n.busId in ByKey(facts.pci)
    requires IsModelOf(facts, decimal, kept, pe, se, m) && Buildable(facts) && (e in pe || e in se)
    ensures InNodes(m.nodes, e.from) && InNodes(m.nodes, e.to)
  {
    var gpus, keys := GpusOf(facts), GpuKeys(facts);
    forall k | k in keys ensures InNodes(m.nodes, k) {
      var g :| g in gpus && g.busId == k;
      var i: nat :| i < |gpus| && gpus[i] == g;
      assert GpuNodes(gpus)[i] in m.nodes;
    }
    if e in pe {
      if Counted(gpus, e.from, ToGpu(e.to)) > 0 {
        CountedKnown(gpus, keys, e.from, ToGpu(e.to));
      } else {
        CountedKnown(gpus, keys, e.to, ToGpu(e.from));
      }
    } else {
      CountedKnown(gpus, keys, e.from, ToSwitch);
      assert Node(SwitchGroup, SWITCH_GROUP, map[]) in m.nodes;
    }
  }

  lemma NumaEdgeJoins(facts: Facts, decimal: int -> string, kept: set<string>, pe: seq<Edge>, se: seq<Edge>, m: Model,
                      p: PciFacts, e: Edge)
    requires forall n :: n in facts.nics ==> n.busId in ByKey(facts.pci)
    requires IsModelOf(facts, decimal, kept, pe, se, m) && WellParented(facts)
    requires p in facts.pci && e in NumaEdges(p, decimal)
    ensures InNodes(m.nodes, e.to)
  {
    var k: nat :| k < |p.numa| && NumaEdges(p, decimal)[k] == e;
    assert p.numa[k] in p.numa;
    NumaHasNode(facts, decimal, p.numa[k]);
    var n :| n in MachineNodes(facts, decimal) && n.key == e.to;
    assert n in m.nodes;
  }

  lemma PciEdgeJoins(facts: Facts, decimal: int -> string, kept: set<string>, pe: seq<Edge>, se: seq<Edge>, m: Model,
                     e: Edge)
    requires forall n :: n in facts.nics ==> n.busId in ByKey(facts.pci)
    requires IsModelOf(facts, decimal, kept, pe, se, m) && WellParented(facts)
    requires e in PciEdges(facts.pci, kept, Leaves(facts), decimal)
    ensures InNodes(m.nodes, e.from) && InNodes(m.nodes, e.to)
  {
    var p := PciEdgesFrom(facts.pci, kept, Leaves(facts), decimal, e);
    PcieEdgeJoins(facts, decimal, kept, pe, se, m, p);
    if e in NumaEdges(p, decimal) {
      NumaEdgeJoins(facts, decimal, kept, pe, se, m, p, e);
    }
  }

  /** No edge of a built model dangles, when every parent is a bridge or a device of the model. */
  lemma BuiltModelJoined(facts: Facts, decimal: int -> string, kept: set<string>, pe: seq<Edge>, se: seq<Edge>,
                         m: Model)
    requires Buildable(facts) && WellParented(facts)
    requires forall n :: n in facts.nics ==> n.busId in ByKey(facts.pci)
    requires IsModelOf(facts, decimal, kept, pe, se, m)
    ensures NoDangling(m)
  {
    forall e | e in m.edges ensures InNodes(m.nodes, e.from) && InNodes(m.nodes, e.to) {
      if e in pe || e in se {
        NvEdgeJoins(facts, decimal, kept, pe, se, m, e);
      } else {
        PciEdgeJoins(facts, decimal, kept, pe, se, m, e);
      }
    }
    forall i | 0 <= i < |m.edges| ensures HasKey(m, m.edges[i].from) && HasKey(m, m.edges[i].to) {
      assert m.edges[i] in m.edges;
      NodesHaveKey(m, m.edges[i].from);
      NodesHaveKey(m, m.edges[i].to);
    }
  }

  lemma NodesHaveKey(m: Model, key: string)
    requires InNodes(m.nodes, key)
    ensures HasKey(m, key)
  {
  }
}
