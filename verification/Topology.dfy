/** The machine model, the identity labels topo1 keeps of it, and when two models are the same
    machine up to keys, order and data attributes. */
module Topology {
  import opened Permutations

  datatype NodeKind = Package | Numa | PcieBridge | Gpu | SwitchGroup | Nic
  datatype EdgeKind = Pcie | NvLink | NumaLocal

  datatype Value = IntValue(i: int) | StrValue(s: string)

  datatype Node = Node(kind: NodeKind, key: string, attrs: map<string, Value>)
  datatype Edge = Edge(kind: EdgeKind, from: string, to: string, attrs: map<string, int>)
  datatype Model = Model(nodes: seq<Node>, edges: seq<Edge>)

  // ----- identity labels

  function IdentityNodeAttrs(kind: NodeKind): set<string> {
    match kind
    case Gpu => {"model", "cc_major", "cc_minor"}
    case Nic => {"pci_vendor", "pci_device"}
    case _ => {}
  }

  function IdentityEdgeAttrs(kind: EdgeKind): set<string> {
    match kind
    case Pcie => {"gen", "width"}
    case NvLink => {"links"}
    case NumaLocal => {}
  }

  datatype NodeLabel = NodeLabel(kind: NodeKind, attrs: map<string, Value>)
  datatype EdgeLabel = EdgeLabel(kind: EdgeKind, attrs: map<string, int>)

  function LabelOfNode(n: Node): NodeLabel {
    NodeLabel(n.kind, map name | name in n.attrs && name in IdentityNodeAttrs(n.kind) :: n.attrs[name])
  }

  function LabelOfEdge(e: Edge): EdgeLabel {
    EdgeLabel(e.kind, map name | name in e.attrs && name in IdentityEdgeAttrs(e.kind) :: e.attrs[name])
  }

  /** Both leave the attribute out, or both give it the same value. */
  ghost predicate SameAttr<V>(a: map<string, V>, b: map<string, V>, name: string) {
    (name in a <==> name in b) && (name in a ==> a[name] == b[name])
  }

  /** The same part of a machine: GPUs compare by model and compute capability, NICs by vendor and device, and
      anything else by kind alone. */
  ghost predicate SamePart(a: Node, b: Node) {
    && a.kind == b.kind
    && (a.kind == Gpu ==>
          SameAttr(a.attrs, b.attrs, "model") && SameAttr(a.attrs, b.attrs, "cc_major")
          && SameAttr(a.attrs, b.attrs, "cc_minor"))
    && (a.kind == Nic ==> SameAttr(a.attrs, b.attrs, "pci_vendor") && SameAttr(a.attrs, b.attrs, "pci_device"))
  }

  /** The same sort of link: PCIe by generation and width, NVLink by its count of links. */
  ghost predicate SameLink(a: Edge, b: Edge) {
    && a.kind == b.kind
    && (a.kind == Pcie ==> SameAttr(a.attrs, b.attrs, "gen") && SameAttr(a.attrs, b.attrs, "width"))
    && (a.kind == NvLink ==> SameAttr(a.attrs, b.attrs, "links"))
  }

  /** A label holds the identity attributes with their values, and nothing else. */
  lemma NodeLabelHolds(n: Node)
    ensures LabelOfNode(n).kind == n.kind
    ensures forall name :: name in LabelOfNode(n).attrs <==>
              name in n.attrs
              && ((n.kind == Gpu && (name == "model" || name == "cc_major" || name == "cc_minor"))
                  || (n.kind == Nic && (name == "pci_vendor" || name == "pci_device")))
    ensures forall name :: name in LabelOfNode(n).attrs ==> LabelOfNode(n).attrs[name] == n.attrs[name]
  {
  }

  lemma EdgeLabelHolds(e: Edge)
    ensures LabelOfEdge(e).kind == e.kind
    ensures forall name :: name in LabelOfEdge(e).attrs <==>
              name in e.attrs
              && ((e.kind == Pcie && (name == "gen" || name == "width")) || (e.kind == NvLink && name == "links"))
    ensures forall name :: name in LabelOfEdge(e).attrs ==> LabelOfEdge(e).attrs[name] == e.attrs[name]
  {
  }

  /** Labels tell nodes apart by their kinds and identity attributes only. */
  lemma SameNodeLabelIff(a: Node, b: Node)
    ensures LabelOfNode(a) == LabelOfNode(b) <==> SamePart(a, b)
  {
    NodeLabelHolds(a);
    NodeLabelHolds(b);
    if SamePart(a, b) {
      assert LabelOfNode(a).attrs == LabelOfNode(b).attrs;
    }
  }

  /** Labels tell edges apart by their kinds and identity attributes only. */
  lemma SameEdgeLabelIff(a: Edge, b: Edge)
    ensures LabelOfEdge(a) == LabelOfEdge(b) <==> SameLink(a, b)
  {
    EdgeLabelHolds(a);
    EdgeLabelHolds(b);
    if SameLink(a, b) {
      assert LabelOfEdge(a).attrs == LabelOfEdge(b).attrs;
    }
  }

  /** Only NVLink edges have no direction. */
  predicate IsDirected(kind: EdgeKind) { kind != NvLink }

  // ----- well-formed models

  ghost predicate DistinctKeys(m: Model) {
    forall i, j :: 0 <= i < j < |m.nodes| ==> m.nodes[i].key != m.nodes[j].key
  }

  ghost predicate HasKey(m: Model, key: string) {
    exists i :: 0 <= i < |m.nodes| && m.nodes[i].key == key
  }

  ghost predicate NoDangling(m: Model) {
    forall i :: 0 <= i < |m.edges| ==> HasKey(m, m.edges[i].from) && HasKey(m, m.edges[i].to)
  }

  ghost predicate WellFormedModel(m: Model) {
    DistinctKeys(m) && NoDangling(m)
  }

  // ----- isomorphism, stated on the models themselves

  /** The node bijection p carries the node keyed k1 to the node keyed k2. */
  ghost predicate Carries(m1: Model, m2: Model, p: Perm, k1: string, k2: string)
    requires |m1.nodes| == |m2.nodes| && IsPerm(|m1.nodes|, p)
  {
    exists i :: 0 <= i < |m1.nodes| && m1.nodes[i].key == k1 && m2.nodes[p[i]].key == k2
  }

  ghost predicate SameEdge(m1: Model, m2: Model, p: Perm, e1: Edge, e2: Edge)
    requires |m1.nodes| == |m2.nodes| && IsPerm(|m1.nodes|, p)
  {
    && SameLink(e1, e2)
    && (|| (Carries(m1, m2, p, e1.from, e2.from) && Carries(m1, m2, p, e1.to, e2.to))
        || (e1.kind == NvLink && Carries(m1, m2, p, e1.from, e2.to) && Carries(m1, m2, p, e1.to, e2.from)))
  }

  /** p matches the nodes and q the edges, keeping parts and links, endpoints and, but for NVLinks, directions. */
  ghost predicate Isomorphism(m1: Model, m2: Model, p: Perm, q: Perm) {
    && |m1.nodes| == |m2.nodes| && IsPerm(|m1.nodes|, p)
    && |m1.edges| == |m2.edges| && IsPerm(|m1.edges|, q)
    && (forall i :: 0 <= i < |m1.nodes| ==> SamePart(m1.nodes[i], m2.nodes[p[i]]))
    && (forall i :: 0 <= i < |m1.edges| ==> SameEdge(m1, m2, p, m1.edges[i], m2.edges[q[i]]))
  }

  ghost predicate Isomorphic(m1: Model, m2: Model) {
    exists p, q :: Isomorphism(m1, m2, p, q)
  }
}
