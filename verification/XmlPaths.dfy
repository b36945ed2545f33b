/** Following the path of a span in the document reaches the element, text or attribute the span covers. */
module XmlPaths {
  import opened Spans
  import opened XmlSpans
  import opened XmlDocuments

  // ----- following a path

  /** nodes are the siblings of list from some place on. */
  ghost predicate From(list: Nodes, nodes: Nodes) {
    list == nodes || (!list.NoNodes? && From(list.tail, nodes))
  }

  predicate IsElement(e: Nodes) { e.Element? || e.Empty? }

  function Children(e: Nodes): Nodes
    requires IsElement(e)
  {
    if e.Element? then e.children else NoNodes
  }

  ghost predicate Named(list: Nodes, name: string, e: Nodes) {
    From(list, e) && IsElement(e) && e.name == name && '/' !in name
  }

  /** The path names elements from the root down, each name after a slash, and the last of them is e. */
  ghost predicate Reaches(list: Nodes, path: string, e: Nodes)
    decreases |path|, 0
  {
    exists name, rest, next :: path == "/" + name + rest && Named(list, name, next) && Goes(next, rest, e)
  }

  /** The rest of a path, from an element on. */
  ghost predicate Goes(next: Nodes, rest: string, e: Nodes)
    requires IsElement(next)
    decreases |rest|, 1
  {
    (rest == [] && next == e) || Reaches(Children(next), rest, e)
  }

  ghost predicate HasAttr(attrs: Attrs, name: string, value: string) {
    attrs.Attr? && ((attrs.name == name && attrs.value == value) || HasAttr(attrs.tail, name, value))
  }

  ghost predicate HasText(list: Nodes, s: string) { exists n :: From(list, n) && n.Text? && n.s == s }

  /** list is what stands inside the element of the path, or the whole document. */
  ghost predicate Inside(root: Nodes, path: string, list: Nodes) {
    (path == [] && list == root) || exists e :: Reaches(root, path, e) && IsElement(e) && Children(e) == list
  }

  /** The locator leads to what the piece of text spells: the start of a tag, a text, or an attribute's value. */
  ghost predicate Points(root: Nodes, locator: string, piece: string) {
    || (exists e :: Reaches(root, locator, e) && IsElement(e) && piece == "<" + e.name)
    || (exists list :: Inside(root, locator, list) && HasText(list, piece))
    || (exists path, name, e :: locator == path + "/@" + name && Reaches(root, path, e) && IsElement(e)
                                && HasAttr(e.attrs, name, piece))
  }

  lemma ReachFirst(list: Nodes, name: string, rest: string, next: Nodes, e: Nodes, path: string)
    requires Named(list, name, next) && path == "/" + name + rest && Goes(next, rest, e)
    ensures Reaches(list, path, e)
  {
  }

  lemma {:induction false} ReachesOn(root: Nodes, path: string, e: Nodes, next: Nodes, id: string, step: string)
    requires Reaches(root, path, e) && IsElement(e) && Named(Children(e), id, next) && step == "/" + id
    ensures Reaches(root, path + step, next)
    decreases |path|, 0
  {
    var name, rest, first :| path == "/" + name + rest && Named(root, name, first) && Goes(first, rest, e);
    GoesOn(first, rest, e, next, id, step);
    assert path + step == "/" + name + (rest + step);
    ReachFirst(root, name, rest + step, first, next, path + step);
  }

  lemma {:induction false} GoesOn(first: Nodes, rest: string, e: Nodes, next: Nodes, id: string, step: string)
    requires IsElement(first) && Goes(first, rest, e)
    requires IsElement(e) && Named(Children(e), id, next) && step == "/" + id
    ensures Goes(first, rest + step, next)
    decreases |rest|, 1
  {
    if rest == [] && first == e {
      assert step == "/" + id + [] && rest + step == step;
      ReachFirst(Children(e), id, [], next, next, step);
    } else {
      ReachesOn(Children(first), rest, e, next, id, step);
    }
  }

  /** An element inside the list of a path has that path and its name. */
  lemma ElementReached(root: Nodes, path: string, list: Nodes, e: Nodes, id: string, step: string)
    requires Inside(root, path, list) && Named(list, id, e) && step == "/" + id
    ensures Reaches(root, path + step, e)
  {
    if path == [] && list == root {
      assert path + step == "/" + id + [];
      ReachFirst(root, id, [], e, e, path + step);
    } else {
      var above :| Reaches(root, path, above) && IsElement(above) && Children(above) == list;
      ReachesOn(root, path, above, e, id, step);
    }
  }

  // ----- every span of a document

  /** Keeps Lies and Leads folded until a proof opens them. */
  ghost predicate Opened(t: int, path: string) { true }

  /** Inside, folded, from a place in the list on. */
  ghost predicate Lies(root: Nodes, path: string, nodes: Nodes) {
    forall t {:trigger Opened(t, path)} :: Opened(t, path) ==>
      exists list :: Inside(root, path, list) && From(list, nodes)
  }

  ghost predicate Leads(root: Nodes, path: string, e: Nodes) {
    forall t {:trigger Opened(t, path)} :: Opened(t, path) ==> Reaches(root, path, e) && IsElement(e)
  }

  lemma {:induction false} FromTail(list: Nodes, nodes: Nodes)
    requires From(list, nodes) && !nodes.NoNodes?
    ensures From(list, nodes.tail)
  {
    if list != nodes {
      FromTail(list.tail, nodes);
    }
  }

  lemma LiesTail(root: Nodes, path: string, nodes: Nodes)
    requires Lies(root, path, nodes) && !nodes.NoNodes?
    ensures Lies(root, path, nodes.tail)
  {
    assert Opened(0, path);
    var list :| Inside(root, path, list) && From(list, nodes);
    FromTail(list, nodes);
  }

  lemma NoSlash(name: string)
    requires NameOk(name)
    ensures '/' !in name
  {
  }

  lemma LiesElement(root: Nodes, path: string, e: Nodes)
    requires Lies(root, path, e) && IsElement(e) && NameOk(e.name)
    ensures Leads(root, path + "/" + e.name, e) && Lies(root, path + "/" + e.name, Children(e))
  {
    assert Opened(0, path);
    var list :| Inside(root, path, list) && From(list, e);
    NoSlash(e.name);
    ElementReached(root, path, list, e, e.name, "/" + e.name);
    assert path + "/" + e.name == path + ("/" + e.name);
    assert Inside(root, path + "/" + e.name, Children(e));
  }

  /** Keeps Located folded until a proof opens it. */
  ghost predicate Listing(t: int, spans: seq<Span>) { true }

  ghost predicate Located(root: Nodes, text: string, spans: seq<Span>) {
    forall t {:trigger Listing(t, spans)} :: Listing(t, spans) ==>
      forall s :: s in spans ==> s.begin <= s.end <= |text| && Points(root, s.locator, text[s.begin..s.end])
  }

  lemma LocatedJoin(root: Nodes, text: string, a: seq<Span>, b: seq<Span>)
    requires Located(root, text, a) && Located(root, text, b)
    ensures Located(root, text, a + b)
  {
    assert Listing(0, a) && Listing(0, b);
    assert forall s :: s in a + b ==> s in a || s in b;
  }

  lemma OneLocated(root: Nodes, text: string, at: nat, piece: string, path: string)
    requires Reads(text, at, piece) && Points(root, path, piece)
    ensures Located(root, text, [Span(at, at + |piece|, path)])
  {
    assert Open(0, at, piece);
  }

  lemma TextLocated(root: Nodes, text: string, nodes: Nodes, at: nat, path: string)
    requires nodes.Text? && Lies(root, path, nodes) && Reads(text, at, nodes.s)
    ensures Located(root, text, [Span(at, at + |nodes.s|, path)])
  {
    assert Opened(0, path);
    var list :| Inside(root, path, list) && From(list, nodes);
    assert HasText(list, nodes.s);
    OneLocated(root, text, at, nodes.s, path);
  }

  lemma TagPoints(root: Nodes, path: string, e: Nodes)
    requires Leads(root, path, e)
    ensures IsElement(e) && Points(root, path, "<" + e.name)
  {
    assert Opened(0, path);
  }

  lemma AttrPoints(root: Nodes, path: string, e: Nodes, name: string, value: string)
    requires Leads(root, path, e) && IsElement(e) && HasAttr(e.attrs, name, value)
    ensures Points(root, path + "/@" + name, value)
  {
    assert Opened(0, path);
  }

  lemma AttrLocated(root: Nodes, text: string, e: Nodes, name: string, value: string, begin: nat, path: string)
    requires Leads(root, path, e) && IsElement(e) && HasAttr(e.attrs, name, value) && Reads(text, begin, value)
    ensures Located(root, text, [Span(begin, begin + |value|, path + "/@" + name)])
  {
    AttrPoints(root, path, e, name, value);
    OneLocated(root, text, begin, value, path + "/@" + name);
  }

  /** The attributes from some place on are the element's. */
  ghost predicate AttrsOf(e: Nodes, attrs: Attrs) {
    IsElement(e) && forall name, value :: HasAttr(attrs, name, value) ==> HasAttr(e.attrs, name, value)
  }

  lemma NextAttrs(e: Nodes, attrs: Attrs)
    requires AttrsOf(e, attrs) && attrs.Attr?
    ensures HasAttr(e.attrs, attrs.name, attrs.value) && AttrsOf(e, attrs.tail)
  {
    assert HasAttr(attrs, attrs.name, attrs.value);
    forall name, value | HasAttr(attrs.tail, name, value) ensures HasAttr(e.attrs, name, value) {
      assert HasAttr(attrs, name, value);
    }
  }

  lemma {:induction false} AttrsLocated(root: Nodes, text: string, e: Nodes, attrs: Attrs, at: nat, path: string)
    requires Leads(root, path, e) && AttrsOf(e, attrs) && Reads(text, at, PrintAttrs(attrs))
    ensures Located(root, text, SpansOfAttrs(attrs, at, path))
    decreases attrs
  {
    if attrs.Attr? {
      var begin := at + ValueAt(attrs);
      AttrReads(text, at, attrs);
      NextAttrs(e, attrs);
      AttrLocated(root, text, e, attrs.name, attrs.value, begin, path);
      AttrsLocated(root, text, e, attrs.tail, begin + |attrs.value| + 1, path);
      AttrsUnfold(attrs, at, path);
      LocatedJoin(root, text, [Span(begin, begin + |attrs.value|, path + "/@" + attrs.name)],
                  SpansOfAttrs(attrs.tail, begin + |attrs.value| + 1, path));
    }
  }

  /** The start of a tag and the values of its attributes. */
  lemma TagLocated(root: Nodes, text: string, e: Nodes, at: nat, path: string)
    requires IsElement(e) && Leads(root, path, e) && Reads(text, at, "<" + e.name)
    requires Reads(text, at + 1 + |e.name|, PrintAttrs(e.attrs))
    ensures Located(root, text, TagSpans(e.name, e.attrs, at, path))
  {
    TagPoints(root, path, e);
    OneLocated(root, text, at, "<" + e.name, path);
    AttrsLocated(root, text, e, e.attrs, at + 1 + |e.name|, path);
    LocatedJoin(root, text, [Span(at, at + 1 + |e.name|, path)], SpansOfAttrs(e.attrs, at + 1 + |e.name|, path));
  }

  lemma PathGrows(stack: seq<string>, name: string)
    ensures Path(stack + [name]) == Path(stack) + "/" + name
  {
    assert (stack + [name])[..|stack|] == stack;
  }

  lemma {:induction false} NodesLocated(root: Nodes, text: string, nodes: Nodes, at: nat, stack: seq<string>)
    requires WellFormed(nodes) && Lies(root, Path(stack), nodes) && Reads(text, at, Print(nodes))
    ensures Located(root, text, SpansOf(nodes, at, stack))
    decreases nodes, 1
  {
    match nodes
    case NoNodes =>
    case Text(_, _) => TextNodeLocated(root, text, nodes, at, stack);
    case Markup(s, tail) =>
      ReadsSplit(text, at, s, Print(tail));
      LiesTail(root, Path(stack), nodes);
      NodesLocated(root, text, tail, at + |s|, stack);
    case Element(_, _, _, _, _, _) => ElementLocated(root, text, nodes, at, stack);
    case Empty(_, _, _, _) => EmptyLocated(root, text, nodes, at, stack);
  }

  lemma {:induction false} TextNodeLocated(root: Nodes, text: string, n: Nodes, at: nat, stack: seq<string>)
    requires n.Text? && WellFormed(n) && Lies(root, Path(stack), n) && Reads(text, at, Print(n))
    ensures Located(root, text, SpansOf(n, at, stack))
    decreases n, 0
  {
    ReadsSplit(text, at, n.s, Print(n.tail));
    TextLocated(root, text, n, at, Path(stack));
    LiesTail(root, Path(stack), n);
    NodesLocated(root, text, n.tail, at + |n.s|, stack);
    LocatedJoin(root, text, [Span(at, at + |n.s|, Path(stack))], SpansOf(n.tail, at + |n.s|, stack));
  }

  lemma {:induction false} ElementLocated(root: Nodes, text: string, e: Nodes, at: nat, stack: seq<string>)
    requires e.Element? && WellFormed(e) && Lies(root, Path(stack), e) && Reads(text, at, Print(e))
    ensures Located(root, text, SpansOf(e, at, stack))
    decreases e, 0
  {
    var p, inner := PlacesOf(e, at), stack + [e.name];
    ElementPartsRead(text, at, e);
    ElementSize(e, at, stack);
    PathGrows(stack, e.name);
    LiesElement(root, Path(stack), e);
    LiesTail(root, Path(stack), e);
    TagLocated(root, text, e, at, Path(inner));
    NodesLocated(root, text, e.children, p.body, inner);
    NodesLocated(root, text, e.tail, p.next, stack);
    LocatedJoin(root, text, SpansOf(e.children, p.body, inner), SpansOf(e.tail, p.next, stack));
    LocatedJoin(root, text, TagSpans(e.name, e.attrs, at, Path(inner)),
                SpansOf(e.children, p.body, inner) + SpansOf(e.tail, p.next, stack));
  }

  lemma {:induction false} EmptyLocated(root: Nodes, text: string, e: Nodes, at: nat, stack: seq<string>)
    requires e.Empty? && WellFormed(e) && Lies(root, Path(stack), e) && Reads(text, at, Print(e))
    ensures Located(root, text, SpansOf(e, at, stack))
    decreases e, 0
  {
    var next := at + TagSize(e.name, e.attrs, e.gap, true);
    EmptyPartsRead(text, at, e, next);
    EmptySize(e, at, stack, next);
    PathGrows(stack, e.name);
    LiesElement(root, Path(stack), e);
    LiesTail(root, Path(stack), e);
    TagLocated(root, text, e, at, Path(stack + [e.name]));
    NodesLocated(root, text, e.tail, next, stack);
    LocatedJoin(root, text, TagSpans(e.name, e.attrs, at, Path(stack + [e.name])), SpansOf(e.tail, next, stack));
  }

  /** The locator of every span that the scanner finds in a document leads to what the span covers. */
  lemma SpansPoint(nodes: Nodes, s: Span)
    requires WellFormed(nodes) && s in SpansFrom(Print(nodes), START)
    ensures s.begin <= s.end <= |Print(nodes)| && Points(nodes, s.locator, Print(nodes)[s.begin..s.end])
  {
    DocumentPaths(nodes);
    ReadsAll(Print(nodes));
    assert Inside(nodes, "", nodes);
    NodesLocated(nodes, Print(nodes), nodes, 0, []);
    assert Listing(0, SpansOf(nodes, 0, []));
  }

  lemma TextSpans(s: string, at: nat, stack: seq<string>)
    requires s != [] && '<' !in s
    ensures WellFormed(Text(s, NoNodes)) && SpansOf(Text(s, NoNodes), at, stack) == [Span(at, at + |s|, Path(stack))]
  {
    assert SpansOf(NoNodes, at + |s|, stack) == [];
  }

  lemma BareTag(name: string, at: nat, path: string)
    ensures TagSpans(name, NoAttrs, at, path) == [Span(at, at + 1 + |name|, path)]
    ensures TagSize(name, NoAttrs, "", false) == 2 + |name|
  {
  }

  /** e holds nothing but the text s. */
  ghost predicate HoldsText(e: Nodes, name: string, s: string) {
    && e.Element? && e.name == name && e.attrs.NoAttrs? && e.gap == "" && e.endGap == "" && e.tail.NoNodes?
    && e.children == Text(s, NoNodes)
  }

  lemma TextElementOk(e: Nodes, name: string, s: string)
    requires HoldsText(e, name, s) && NameOk(name) && s != [] && '<' !in s
    ensures WellFormed(e)
  {
    TextSpans(s, 0, []);
  }

  lemma TextElementSpans(e: Nodes, name: string, s: string, path: string)
    requires HoldsText(e, name, s) && s != [] && '<' !in s && path == Path([name])
    ensures SpansOf(e, 0, []) == [Span(0, 1 + |name|, path), Span(2 + |name|, 2 + |name| + |s|, path)]
  {
    TextSpans(s, 2 + |name|, [name]);
    BareTag(name, 0, path);
    ElementSize(e, 0, []);
    assert [] + [name] == [name];
    assert SpansOf(e.tail, PlacesOf(e, 0).next, []) == [];
  }

  lemma OneName(name: string)
    ensures Path([name]) == "/" + name
  {
    PathGrows([], name);
    assert [] + [name] == [name];
  }

  /** An element with nothing but a text: its tag and its text both have its path. */
  lemma TextElement(e: Nodes, name: string, s: string)
    requires HoldsText(e, name, s) && NameOk(name) && s != [] && '<' !in s
    ensures WellFormed(e)
    ensures SpansFrom(Print(e), START)
         == [Span(0, 1 + |name|, "/" + name), Span(2 + |name|, 2 + |name| + |s|, "/" + name)]
  {
    TextElementOk(e, name, s);
    OneName(name);
    TextElementSpans(e, name, s, "/" + name);
    DocumentPaths(e);
  }
}
