/** XML documents, and the proof that the scanner gives every tag and text the path of its element, and every
    attribute value that path with /@name. */
module XmlDocuments {
  import opened Spans
  import opened XmlSpans

  // ----- documents with their own white space

  /** gap goes before the name, pre and post around the equals sign. */
  datatype Attrs = NoAttrs | Attr(gap: string, name: string, pre: string, post: string, quote: char, value: string,
                                  tail: Attrs)

  /** A comment, instruction or declaration is Markup, given whole; gaps end the tags. */
  datatype Nodes =
    | NoNodes
    | Text(s: string, tail: Nodes)
    | Markup(s: string, tail: Nodes)
    | Element(name: string, attrs: Attrs, gap: string, children: Nodes, endGap: string, tail: Nodes)
    | Empty(name: string, attrs: Attrs, gap: string, tail: Nodes)

  function PrintAttrs(attrs: Attrs): string {
    match attrs
    case NoAttrs => ""
    case Attr(gap, name, pre, post, quote, value, tail) =>
      gap + (name + (pre + ("=" + (post + ([quote] + (value + ([quote] + PrintAttrs(tail))))))))
  }

  function EndTag(name: string, gap: string): string { "</" + name + gap + ">" }

  /** The end of an opening tag; an empty element closes itself. */
  function CloseOf(empty: bool): string { if empty then "/>" else ">" }

  function Print(nodes: Nodes): string {
    match nodes
    case NoNodes => ""
    case Text(s, tail) => s + Print(tail)
    case Markup(s, tail) => s + Print(tail)
    case Element(name, attrs, gap, children, endGap, tail) =>
      ("<" + name) + (PrintAttrs(attrs) + ((gap + CloseOf(false)) + (Print(children) + (EndTag(name, endGap) + Print(tail)))))
    case Empty(name, attrs, gap, tail) =>
      ("<" + name) + (PrintAttrs(attrs) + ((gap + CloseOf(true)) + Print(tail)))
  }

  predicate Blank(gap: string) {
    forall i :: 0 <= i < |gap| ==> gap[i] == ' ' || gap[i] == '\t' || gap[i] == '\n' || gap[i] == '\r'
  }

  predicate NameChar(c: char) {
    '0' <= c <= '9' || 'a' <= c <= 'z' || 'A' <= c <= 'Z' || c == ':' || c == '_' || c == '-' || c == '.'
  }

  predicate NameOk(name: string) {
    name != [] && forall i :: 0 <= i < |name| ==> NameChar(name[i])
  }

  predicate WellFormedAttrs(attrs: Attrs) {
    attrs.NoAttrs? ||
    (Blank(attrs.gap) && attrs.gap != [] && NameOk(attrs.name) && Blank(attrs.pre) && Blank(attrs.post)
     && IsQuote(attrs.quote) && (forall i :: 0 <= i < |attrs.value| ==> attrs.value[i] != attrs.quote)
     && WellFormedAttrs(attrs.tail))
  }

  /** Markup that the scanner's skipping ends where the markup ends: a comment with no "-->" but its last, or an
      instruction or declaration with no ">" but its last. */
  predicate MarkupOk(s: string) {
    |s| >= 3 && s[0] == '<' &&
    if StartsWith(s, 0, "<!--") then |s| >= 7 && Find(s, "-->", 0) == |s| - 3
    else (s[1] == '?' || s[1] == '!') && Find(s, ">", 0) == |s| - 1
  }

  predicate WellFormed(nodes: Nodes) {
    match nodes
    case NoNodes => true
    case Text(s, tail) => s != [] && (forall i :: 0 <= i < |s| ==> s[i] != '<') && !tail.Text? && WellFormed(tail)
    case Markup(s, tail) => MarkupOk(s) && WellFormed(tail)
    case Element(name, attrs, gap, children, endGap, tail) =>
      NameOk(name) && WellFormedAttrs(attrs) && Blank(gap) && WellFormed(children) && Blank(endGap) && WellFormed(tail)
    case Empty(name, attrs, gap, tail) => NameOk(name) && WellFormedAttrs(attrs) && Blank(gap) && WellFormed(tail)
  }

  // ----- the locators

  /** The size of an attribute up to its value. */
  function ValueAt(attrs: Attrs): nat
    requires attrs.Attr?
  {
    |attrs.gap| + |attrs.name| + |attrs.pre| + 1 + |attrs.post| + 1
  }

  function SpansOfAttrs(attrs: Attrs, at: nat, path: string): seq<Span> {
    if attrs.NoAttrs? then []
    else
      var begin := at + ValueAt(attrs);
      [Span(begin, begin + |attrs.value|, path + "/@" + attrs.name)]
      + SpansOfAttrs(attrs.tail, begin + |attrs.value| + 1, path)
  }

  /** The size of an opening tag. */
  function TagSize(name: string, attrs: Attrs, gap: string, empty: bool): nat {
    1 + |name| + |PrintAttrs(attrs)| + |gap| + |CloseOf(empty)|
  }

  /** The spans of the nodes at an offset, inside the elements of the stack. */
  function SpansOf(nodes: Nodes, at: nat, stack: seq<string>): seq<Span> {
    match nodes
    case NoNodes => []
    case Text(s, tail) => [Span(at, at + |s|, Path(stack))] + SpansOf(tail, at + |s|, stack)
    case Markup(s, tail) => SpansOf(tail, at + |s|, stack)
    case Element(name, attrs, gap, children, endGap, tail) =>
      var body := at + TagSize(name, attrs, gap, false);
      TagSpans(name, attrs, at, Path(stack + [name]))
      + (SpansOf(children, body, stack + [name]) + SpansOf(tail, body + |Print(children)| + |EndTag(name, endGap)|,
                                                           stack))
    case Empty(name, attrs, gap, tail) =>
      TagSpans(name, attrs, at, Path(stack + [name]))
      + SpansOf(tail, at + TagSize(name, attrs, gap, true), stack)
  }

  function TagSpans(name: string, attrs: Attrs, at: nat, path: string): seq<Span> {
    [Span(at, at + 1 + |name|, path)] + SpansOfAttrs(attrs, at + 1 + |name|, path)
  }

  // ----- inside a tag

  lemma {:induction false} NameRead(text: string, at: nat, name: string)
    requires Reads(text, at, name) && forall i :: 0 <= i < |name| ==> NameChar(name[i])
    requires at + |name| < |text| ==> EndsName(text[at + |name|])
    ensures NameStop(text, at) == at + |name|
    decreases |name|
  {
    if name != [] {
      ReadsAt(text, at, name, 0);
      ReadsSplit(text, at, name[..1], name[1..]);
      assert name == name[..1] + name[1..];
      NameRead(text, at + 1, name[1..]);
    }
  }

  /** Blanks and what they do not stop at are skipped on the way to the value. */
  lemma {:induction false} ValueFound(text: string, at: nat, skipped: string)
    requires Reads(text, at, skipped) && forall i :: 0 <= i < |skipped| ==> !IsQuote(skipped[i]) && skipped[i] != '>'
    requires at + |skipped| < |text| && IsQuote(text[at + |skipped|])
    ensures ValueStop(text, at) == at + |skipped|
    decreases |skipped|
  {
    if skipped != [] {
      ReadsAt(text, at, skipped, 0);
      ReadsSplit(text, at, skipped[..1], skipped[1..]);
      assert skipped == skipped[..1] + skipped[1..];
      ValueFound(text, at + 1, skipped[1..]);
    }
  }

  /** A character found past ones that differ from it. */
  lemma {:induction false} CharFound(text: string, c: char, at: nat, skipped: string)
    requires Reads(text, at, skipped) && forall i :: 0 <= i < |skipped| ==> skipped[i] != c
    requires at + |skipped| <= |text| && (at + |skipped| < |text| ==> text[at + |skipped|] == c)
    ensures Find(text, [c], at) == at + |skipped|
    decreases |skipped|
  {
    if skipped != [] {
      ReadsAt(text, at, skipped, 0);
      ReadsSplit(text, at, skipped[..1], skipped[1..]);
      assert skipped == skipped[..1] + skipped[1..];
      assert text[at..at + 1][0] == text[at];
      CharFound(text, c, at + 1, skipped[1..]);
    } else if at < |text| {
      assert text[at..at + 1] == [c];
    }
  }

  lemma {:induction false} BlanksSkipped(text: string, at: nat, gap: string, closed: bool, path: string)
    requires Blank(gap) && Reads(text, at, gap)
    ensures TagFrom(text, at, closed, path) == TagFrom(text, at + |gap|, closed, path)
    decreases |gap|
  {
    if gap != [] {
      ReadsAt(text, at, gap, 0);
      ReadsSplit(text, at, gap[..1], gap[1..]);
      assert gap == gap[..1] + gap[1..];
      BlanksSkipped(text, at + 1, gap[1..], closed, path);
    }
  }

  /** Where the parts of an attribute are. */
  ghost predicate AttrAt(text: string, at: nat, a: Attrs)
    requires a.Attr?
  {
    var name := at + |a.gap|;
    var skip := name + |a.name|;
    && Reads(text, at, a.gap) && Reads(text, name, a.name) && Reads(text, skip, a.pre + ("=" + a.post))
    && Reads(text, at + ValueAt(a) - 1, [a.quote]) && Reads(text, at + ValueAt(a), a.value)
    && Reads(text, at + ValueAt(a) + |a.value|, [a.quote])
    && Reads(text, at + ValueAt(a) + |a.value| + 1, PrintAttrs(a.tail))
  }

  lemma Regroup(a: string, b: string, c: string, d: string)
    ensures a + (b + (c + d)) == (a + (b + c)) + d
  {
  }

  lemma AttrReads(text: string, at: nat, a: Attrs)
    requires a.Attr? && Reads(text, at, PrintAttrs(a))
    ensures AttrAt(text, at, a)
  {
    var quoted := [a.quote] + (a.value + ([a.quote] + PrintAttrs(a.tail)));
    var mid := a.pre + ("=" + a.post);
    NameReads(text, at, a.gap, a.name, a.pre, "=", a.post, quoted);
    QuotedReads(text, at + |a.gap| + |a.name| + |mid|, [a.quote], a.value, PrintAttrs(a.tail));
  }

  lemma NameReads(text: string, at: nat, gap: string, name: string, pre: string, sign: string, post: string,
                  rest: string)
    requires Reads(text, at, gap + (name + (pre + (sign + (post + rest)))))
    ensures Reads(text, at, gap) && Reads(text, at + |gap|, name)
    ensures Reads(text, at + |gap| + |name|, pre + (sign + post))
    ensures Reads(text, at + |gap| + |name| + |pre + (sign + post)|, rest)
  {
    ReadsSplit(text, at, gap, name + (pre + (sign + (post + rest))));
    ReadsSplit(text, at + |gap|, name, pre + (sign + (post + rest)));
    Regroup(pre, sign, post, rest);
    ReadsSplit(text, at + |gap| + |name|, pre + (sign + post), rest);
  }

  lemma QuotedReads(text: string, at: nat, quote: string, value: string, rest: string)
    requires |quote| == 1 && Reads(text, at, quote + (value + (quote + rest)))
    ensures Reads(text, at, quote) && Reads(text, at + 1, value)
    ensures Reads(text, at + 1 + |value|, quote) && Reads(text, at + 1 + |value| + 1, rest)
  {
    ReadsSplit(text, at, quote, value + (quote + rest));
    ReadsSplit(text, at + 1, value, quote + rest);
    ReadsSplit(text, at + 1 + |value|, quote, rest);
  }

  /** The name ends where white space or the equals sign begins. */
  lemma NameEnds(text: string, at: nat, pre: string, post: string)
    requires Blank(pre) && Reads(text, at, pre + ("=" + post))
    ensures at < |text| && EndsName(text[at])
  {
    ReadsAt(text, at, pre + ("=" + post), 0);
  }

  lemma AttributeIs(text: string, j: nat, path: string, name: nat, q: nat, end: nat)
    requires j < |text| && InName(text[j]) && NameStop(text, j) == name && ValueStop(text, name) == q
    requires q < |text| && IsQuote(text[q]) && Find(text, [text[q]], q + 1) == end && end < |text|
    ensures Attribute(text, j, path) == (end + 1, [Span(q + 1, end, path + "/@" + text[j..name])])
  {
  }

  lemma AttrNameRead(text: string, at: nat, a: Attrs)
    requires a.Attr? && WellFormedAttrs(a) && AttrAt(text, at, a)
    ensures at + |a.gap| < |text| && InName(text[at + |a.gap|])
    ensures NameStop(text, at + |a.gap|) == at + |a.gap| + |a.name|
    ensures text[at + |a.gap|..at + |a.gap| + |a.name|] == a.name
  {
    ReadsAt(text, at + |a.gap|, a.name, 0);
    NameEnds(text, at + |a.gap| + |a.name|, a.pre, a.post);
    NameRead(text, at + |a.gap|, a.name);
    ReadsIs(text, at + |a.gap|, a.name);
  }

  lemma AttrValueRead(text: string, at: nat, a: Attrs)
    requires a.Attr? && WellFormedAttrs(a) && AttrAt(text, at, a)
    ensures ValueStop(text, at + |a.gap| + |a.name|) == at + ValueAt(a) - 1
    ensures at + ValueAt(a) + |a.value| < |text| && text[at + ValueAt(a) - 1] == a.quote
    ensures Find(text, [a.quote], at + ValueAt(a)) == at + ValueAt(a) + |a.value|
  {
    var value := at + ValueAt(a);
    ReadsAt(text, value - 1, [a.quote], 0);
    ValueFound(text, at + |a.gap| + |a.name|, a.pre + ("=" + a.post));
    ReadsAt(text, value + |a.value|, [a.quote], 0);
    CharFound(text, a.quote, value, a.value);
  }

  lemma AttributeTaken(text: string, at: nat, a: Attrs, path: string, start: nat, value: nat, end: nat)
    requires a.Attr? && WellFormedAttrs(a) && AttrAt(text, at, a)
    requires start == at + |a.gap| && value == at + ValueAt(a) && end == value + |a.value|
    ensures start < |text| && InName(text[start])
    ensures Attribute(text, start, path) == (end + 1, [Span(value, end, path + "/@" + a.name)])
  {
    AttrNameRead(text, at, a);
    AttrValueRead(text, at, a);
    AttributeIs(text, start, path, start + |a.name|, value - 1, end);
  }

  lemma ReadsIs(text: string, at: nat, s: string)
    requires Reads(text, at, s)
    ensures text[at..at + |s|] == s
  {
    assert Spans.Open(0, at, s);
  }

  /** One attribute with the white space before it. */
  lemma AttrStep(text: string, at: nat, a: Attrs, closed: bool, path: string)
    requires a.Attr? && WellFormedAttrs(a) && AttrAt(text, at, a)
    ensures var next := at + ValueAt(a) + |a.value| + 1;
            var rest := TagFrom(text, next, closed, path);
            TagFrom(text, at, closed, path) == rest.(spans := [Span(at + ValueAt(a), next - 1,
                                                                    path + "/@" + a.name)] + rest.spans)
  {
    AttributeTaken(text, at, a, path, at + |a.gap|, at + ValueAt(a), at + ValueAt(a) + |a.value|);
    BlanksSkipped(text, at, a.gap, closed, path);
  }

  /** The attributes of a tag, one after the other. */
  lemma {:induction false} AttrsTaken(text: string, at: nat, attrs: Attrs, closed: bool, path: string)
    requires WellFormedAttrs(attrs) && Reads(text, at, PrintAttrs(attrs))
    ensures var rest := TagFrom(text, at + |PrintAttrs(attrs)|, closed, path);
            TagFrom(text, at, closed, path) == rest.(spans := SpansOfAttrs(attrs, at, path) + rest.spans)
    decreases attrs
  {
    if attrs.NoAttrs? {
      var rest := TagFrom(text, at, closed, path);
      assert [] + rest.spans == rest.spans;
    } else {
      var next := at + ValueAt(attrs) + |attrs.value| + 1;
      AttrReads(text, at, attrs);
      AttrStep(text, at, attrs, closed, path);
      AttrsTaken(text, next, attrs.tail, closed, path);
      AttrsUnfold(attrs, at, path);
      TagGrows([Span(at + ValueAt(attrs), next - 1, path + "/@" + attrs.name)], SpansOfAttrs(attrs.tail, next, path),
               TagFrom(text, next + |PrintAttrs(attrs.tail)|, closed, path).spans);
    }
  }

  lemma AttrsUnfold(attrs: Attrs, at: nat, path: string)
    requires attrs.Attr?
    ensures var next := at + ValueAt(attrs) + |attrs.value| + 1;
            && at + |PrintAttrs(attrs)| == next + |PrintAttrs(attrs.tail)|
            && SpansOfAttrs(attrs, at, path)
               == [Span(at + ValueAt(attrs), next - 1, path + "/@" + attrs.name)] + SpansOfAttrs(attrs.tail, next, path)
  {
  }

  // ----- runs of the scanner

  /** Keeps Left folded until a proof opens it. */
  ghost predicate Opened(t: int, s: Scanner) { true }

  ghost predicate IsLeft(text: string, s: Scanner, r: seq<Span>)
    requires s.at <= |text|
  {
    forall t {:trigger Opened(t, s)} :: Opened(t, s) ==> r == SpansFrom(text, s)
  }

  /** The spans still to come: SpansFrom, folded. */
  ghost function Left(text: string, s: Scanner): seq<Span>
    requires s.at <= |text|
  {
    assert IsLeft(text, s, SpansFrom(text, s));
    var r: seq<Span> :| IsLeft(text, s, r);
    r
  }

  lemma LeftIs(text: string, s: Scanner)
    requires s.at <= |text|
    ensures Left(text, s) == SpansFrom(text, s)
  {
    assert Opened(0, s);
  }

  /** From s the scanner gives out and goes on from m. */
  ghost predicate Takes(text: string, s: Scanner, out: seq<Span>, m: Scanner) {
    s.at <= |text| && m.at <= |text| && Left(text, s) == out + Left(text, m)
  }

  lemma TakesSame(text: string, s: Scanner, a: seq<Span>, m: Scanner, b: seq<Span>, n: Scanner)
    requires Takes(text, s, a, m) && a == b && m == n
    ensures Takes(text, s, b, n)
  {
  }

  lemma Then(text: string, s: Scanner, a: seq<Span>, m: Scanner, b: seq<Span>, n: Scanner)
    requires Takes(text, s, a, m) && Takes(text, m, b, n)
    ensures Takes(text, s, a + b, n)
  {
    assert (a + b) + Left(text, n) == a + (b + Left(text, n));
  }

  /** A step that gives nothing. */
  lemma Quiet(text: string, s: Scanner, m: Scanner, out: seq<Span>, n: Scanner)
    requires Takes(text, s, [], m) && Takes(text, m, out, n)
    ensures Takes(text, s, out, n)
  {
    Then(text, s, [], m, out, n);
    assert [] + out == out;
  }

  lemma One(text: string, s: Scanner, out: seq<Span>, m: Scanner)
    requires s.at < |text| && Next(text, s) == (m, out)
    ensures Takes(text, s, out, m)
  {
    LeftIs(text, s);
    LeftIs(text, m);
  }

  // ----- tags

  /** The rest of a tag after its name. */
  lemma RestOfTag(text: string, at: nat, attrs: Attrs, gap: string, empty: bool, path: string)
    requires WellFormedAttrs(attrs) && Blank(gap)
    requires Reads(text, at, PrintAttrs(attrs)) && Reads(text, at + |PrintAttrs(attrs)|, gap + CloseOf(empty))
    ensures TagFrom(text, at, false, path)
            == Tag(at + |PrintAttrs(attrs)| + |gap| + |CloseOf(empty)|, empty, SpansOfAttrs(attrs, at, path))
  {
    AttrsTaken(text, at, attrs, false, path);
    EndOfTag(text, at + |PrintAttrs(attrs)|, gap, empty, path);
    assert SpansOfAttrs(attrs, at, path) + [] == SpansOfAttrs(attrs, at, path);
  }

  lemma EndOfTag(text: string, at: nat, gap: string, empty: bool, path: string)
    requires Blank(gap) && Reads(text, at, gap + CloseOf(empty))
    ensures TagFrom(text, at, false, path) == Tag(at + |gap| + |CloseOf(empty)|, empty, [])
  {
    ReadsSplit(text, at, gap, CloseOf(empty));
    BlanksSkipped(text, at, gap, false, path);
    TagCloses(text, at + |gap|, empty, path);
  }

  /** Where an opening tag with these parts is, from "<" on. */
  ghost predicate TagAt(text: string, at: nat, name: string, attrs: Attrs, gap: string, empty: bool) {
    && NameOk(name) && WellFormedAttrs(attrs) && Blank(gap)
    && Reads(text, at, "<" + name) && Reads(text, at + 1 + |name|, PrintAttrs(attrs))
    && Reads(text, at + 1 + |name| + |PrintAttrs(attrs)|, gap + CloseOf(empty))
  }

  /** An opening tag up to its end. */
  lemma TagTaken(text: string, at: nat, name: string, attrs: Attrs, gap: string, empty: bool, stack: seq<string>,
                 path: string, end: nat, values: seq<Span>)
    requires TagAt(text, at, name, attrs, gap, empty) && path == Path(stack + [name])
    requires end == at + TagSize(name, attrs, gap, empty) && values == SpansOfAttrs(attrs, at + 1 + |name|, path)
    ensures Takes(text, Scanner(at, stack), [Span(at, at + 1 + |name|, path)] + values,
                  Scanner(end, if empty then stack else stack + [name]))
  {
    TagNameRead(text, at, name, attrs, gap, empty);
    RestOfTag(text, at + 1 + |name|, attrs, gap, empty, path);
    NamedTagTaken(text, at, name, stack, path, end, empty, values);
  }

  lemma NamedTagTaken(text: string, at: nat, name: string, stack: seq<string>, path: string, end: nat, empty: bool,
                      values: seq<Span>)
    requires NameOk(name) && Reads(text, at, "<" + name) && path == Path(stack + [name])
    requires NameStop(text, at + 1) == at + 1 + |name| && text[at + 1..at + 1 + |name|] == name
    requires TagFrom(text, at + 1 + |name|, false, path) == Tag(end, empty, values)
    ensures Takes(text, Scanner(at, stack), [Span(at, at + 1 + |name|, path)] + values,
                  Scanner(end, if empty then stack else stack + [name]))
  {
    OpensTag(text, at, name, stack);
    OpenTagIs(text, at, name, stack, path, end, empty, values);
    One(text, Scanner(at, stack), [Span(at, at + 1 + |name|, path)] + values,
        Scanner(end, if empty then stack else stack + [name]));
  }

  lemma OpenTagIs(text: string, at: nat, name: string, stack: seq<string>, path: string, end: nat, empty: bool,
                  values: seq<Span>)
    requires at + 1 + |name| <= |text| && path == Path(stack + [name])
    requires NameStop(text, at + 1) == at + 1 + |name| && text[at + 1..at + 1 + |name|] == name
    requires TagFrom(text, at + 1 + |name|, false, path) == Tag(end, empty, values)
    ensures OpenTag(text, Scanner(at, stack)) == (Scanner(end, if empty then stack else stack + [name]),
                                                  [Span(at, at + 1 + |name|, path)] + values)
  {
  }

  lemma TagNameRead(text: string, at: nat, name: string, attrs: Attrs, gap: string, empty: bool)
    requires NameOk(name) && WellFormedAttrs(attrs) && Blank(gap)
    requires Reads(text, at, "<" + name) && Reads(text, at + 1 + |name|, PrintAttrs(attrs))
    requires Reads(text, at + 1 + |name| + |PrintAttrs(attrs)|, gap + CloseOf(empty))
    ensures NameStop(text, at + 1) == at + 1 + |name| && text[at + 1..at + 1 + |name|] == name
  {
    ReadsSplit(text, at, "<", name);
    ReadsIs(text, at + 1, name);
    AfterName(text, at + 1 + |name|, attrs, gap, empty);
    NameRead(text, at + 1, name);
  }

  /** A name after "<" opens an element. */
  lemma OpensTag(text: string, at: nat, name: string, stack: seq<string>)
    requires NameOk(name) && Reads(text, at, "<" + name)
    ensures at < |text| && Next(text, Scanner(at, stack)) == OpenTag(text, Scanner(at, stack))
  {
    ReadsAt(text, at, "<" + name, 0);
    ReadsAt(text, at, "<" + name, 1);
    assert ("<" + name)[1] == name[0];
    NotMarkup(text, at);
  }

  lemma NotMarkup(text: string, at: nat)
    requires at + 1 < |text| && NameChar(text[at + 1])
    ensures !StartsWith(text, at, "<!--") && !StartsWith(text, at, "<?")
    ensures !StartsWith(text, at, "<!") && !StartsWith(text, at, "</")
  {
    if at + 4 <= |text| { assert text[at..at + 4][1] == text[at + 1]; }
    assert text[at..at + 2][1] == text[at + 1];
  }

  /** The tag's own name ends where its attributes, white space or end begin. */
  lemma AfterName(text: string, at: nat, attrs: Attrs, gap: string, empty: bool)
    requires WellFormedAttrs(attrs) && Blank(gap)
    requires Reads(text, at, PrintAttrs(attrs)) && Reads(text, at + |PrintAttrs(attrs)|, gap + CloseOf(empty))
    ensures at < |text| && EndsName(text[at])
  {
    if attrs.Attr? {
      AttrReads(text, at, attrs);
      ReadsAt(text, at, attrs.gap, 0);
    } else {
      ReadsAt(text, at, gap + CloseOf(empty), 0);
    }
  }

  lemma TagCloses(text: string, at: nat, empty: bool, path: string)
    requires Reads(text, at, CloseOf(empty))
    ensures TagFrom(text, at, false, path) == Tag(at + |CloseOf(empty)|, empty, [])
  {
    ReadsAt(text, at, CloseOf(empty), 0);
    if empty {
      ReadsAt(text, at, CloseOf(empty), 1);
      assert TagFrom(text, at, false, path) == TagFrom(text, at + 1, true, path);
    }
  }

  // ----- the nodes

  lemma TextTaken(text: string, at: nat, s: string, stack: seq<string>)
    requires s != [] && (forall i :: 0 <= i < |s| ==> s[i] != '<') && Reads(text, at, s)
    requires at + |s| < |text| ==> text[at + |s|] == '<'
    ensures Takes(text, Scanner(at, stack), [Span(at, at + |s|, Path(stack))], Scanner(at + |s|, stack))
  {
    ReadsAt(text, at, s, 0);
    CharFound(text, '<', at, s);
    One(text, Scanner(at, stack), [Span(at, at + |s|, Path(stack))], Scanner(at + |s|, stack));
  }

  lemma StartsInside(text: string, at: nat, s: string, what: string, j: nat)
    requires Reads(text, at, s) && j + |what| <= |s|
    ensures StartsWith(text, at + j, what) <==> StartsWith(s, j, what)
  {
    ReadsIs(text, at, s);
    var w := text[at..at + |s|];
    forall k: nat | k < |s| ensures s[k] == text[at + k] {
      assert w[k] == text[at + k];
    }
    assert s[j..j + |what|] == text[at + j..at + j + |what|];
  }

  /** Where something first occurs in a piece, it first occurs in the text. */
  lemma {:induction false} FoundIn(text: string, at: nat, s: string, what: string, j: nat)
    requires Reads(text, at, s) && j <= |s| && what != [] && Find(s, what, j) < |s|
    ensures Find(text, what, at + j) == at + Find(s, what, j)
    decreases |s| - j
  {
    var k := Find(s, what, j);
    StartsInside(text, at, s, what, k);
    if !StartsWith(s, j, what) {
      FoundIn(text, at, s, what, j + 1);
      StartsInside(text, at, s, what, j);
    }
  }

  lemma Prefix(text: string, at: nat, s: string, what: string)
    requires Reads(text, at, s)
    ensures |what| <= |s| ==> (StartsWith(text, at, what) <==> StartsWith(s, 0, what))
  {
    if |what| <= |s| { StartsInside(text, at, s, what, 0); }
  }

  lemma MarkupTaken(text: string, at: nat, s: string, stack: seq<string>)
    requires MarkupOk(s) && Reads(text, at, s)
    ensures Takes(text, Scanner(at, stack), [], Scanner(at + |s|, stack))
  {
    ReadsAt(text, at, s, 0);
    if StartsWith(s, 0, "<!--") {
      Prefix(text, at, s, "<!--");
      FoundIn(text, at, s, "-->", 0);
    } else {
      NotComment(text, at, s);
      Prefix(text, at, s, "<?");
      Prefix(text, at, s, "<!");
      assert s[0..2] == [s[0], s[1]];
      FoundIn(text, at, s, ">", 0);
    }
    One(text, Scanner(at, stack), [], Scanner(at + |s|, stack));
  }

  lemma NotComment(text: string, at: nat, s: string)
    requires Reads(text, at, s) && MarkupOk(s) && !StartsWith(s, 0, "<!--")
    ensures !StartsWith(text, at, "<!--")
  {
    if |s| >= 4 {
      Prefix(text, at, s, "<!--");
    } else {
      ReadsAt(text, at, s, 2);
      assert s[2..3] == ">";
      assert s[2] == s[2..3][0];
      if at + 4 <= |text| { assert text[at..at + 4][2] == text[at + 2]; }
    }
  }

  lemma EndTagTaken(text: string, at: nat, name: string, gap: string, stack: seq<string>)
    requires NameOk(name) && Blank(gap) && Reads(text, at, EndTag(name, gap))
    ensures Takes(text, Scanner(at, stack + [name]), [], Scanner(at + |EndTag(name, gap)|, stack))
  {
    var head := "</" + name + gap;
    ReadsSplit(text, at, head, ">");
    ReadsAt(text, at, head, 0);
    ReadsAt(text, at, head, 1);
    ReadsAt(text, at + |head|, ">", 0);
    EndNotOpen(text, at);
    CharFound(text, '>', at, head);
    assert Popped(stack + [name]) == stack;
    One(text, Scanner(at, stack + [name]), [], Scanner(at + |EndTag(name, gap)|, stack));
  }

  lemma EndNotOpen(text: string, at: nat)
    requires at + 1 < |text| && text[at] == '<' && text[at + 1] == '/'
    ensures StartsWith(text, at, "</") && !StartsWith(text, at, "<!--")
    ensures !StartsWith(text, at, "<?") && !StartsWith(text, at, "<!")
  {
    assert text[at..at + 2] == [text[at], text[at + 1]];
    if at + 4 <= |text| { assert text[at..at + 4][1] == text[at + 1]; }
  }

  /** The text ends here, or a tag or other markup follows. */
  predicate Follows(text: string, at: nat) { at == |text| || (at < |text| && text[at] == '<') }

  /** Nodes that do not start with text start with "<". */
  lemma TailFollows(text: string, at: nat, tail: Nodes)
    requires WellFormed(tail) && !tail.Text? && Reads(text, at, Print(tail)) && Follows(text, at + |Print(tail)|)
    ensures Follows(text, at)
  {
    if !tail.NoNodes? {
      assert |Print(tail)| > 0 && Print(tail)[0] == '<';
      ReadsAt(text, at, Print(tail), 0);
    }
  }

  lemma ElementReads(text: string, at: nat, head: string, attrs: string, close: string, children: string, end: string,
                     tail: string)
    requires Reads(text, at, head + (attrs + (close + (children + (end + tail)))))
    ensures Reads(text, at, head) && Reads(text, at + |head|, attrs) && Reads(text, at + |head| + |attrs|, close)
    ensures Reads(text, at + |head| + |attrs| + |close|, children)
    ensures Reads(text, at + |head| + |attrs| + |close| + |children|, end)
    ensures Reads(text, at + |head| + |attrs| + |close| + |children| + |end|, tail)
  {
    ReadsSplit(text, at, head, attrs + (close + (children + (end + tail))));
    ReadsSplit(text, at + |head|, attrs, close + (children + (end + tail)));
    ReadsSplit(text, at + |head| + |attrs|, close, children + (end + tail));
    ReadsSplit(text, at + |head| + |attrs| + |close|, children, end + tail);
    ReadsSplit(text, at + |head| + |attrs| + |close| + |children|, end, tail);
  }

  lemma EmptyReads(text: string, at: nat, head: string, attrs: string, close: string, tail: string)
    requires Reads(text, at, head + (attrs + (close + tail)))
    ensures Reads(text, at, head) && Reads(text, at + |head|, attrs) && Reads(text, at + |head| + |attrs|, close)
    ensures Reads(text, at + |head| + |attrs| + |close|, tail)
  {
    ReadsSplit(text, at, head, attrs + (close + tail));
    ReadsSplit(text, at + |head|, attrs, close + tail);
    ReadsSplit(text, at + |head| + |attrs|, close, tail);
  }

  lemma None(text: string, s: Scanner)
    requires s.at <= |text|
    ensures Takes(text, s, [], s)
  {
    assert [] + Left(text, s) == Left(text, s);
  }

  /** The nodes of an element, or of a document, one after the other. */
  lemma {:induction false} NodesTaken(text: string, at: nat, nodes: Nodes, stack: seq<string>)
    requires WellFormed(nodes) && Reads(text, at, Print(nodes)) && Follows(text, at + |Print(nodes)|)
    ensures Takes(text, Scanner(at, stack), SpansOf(nodes, at, stack), Scanner(at + |Print(nodes)|, stack))
    decreases nodes, 4
  {
    match nodes
    case NoNodes =>
      None(text, Scanner(at, stack));
    case Text(_, _) =>
      TextNodeTaken(text, at, nodes, stack);
    case Markup(_, _) =>
      MarkupNodeTaken(text, at, nodes, stack);
    case Element(_, _, _, _, _, _) =>
      ElementTaken(text, at, nodes, stack);
    case Empty(_, _, _, _) =>
      EmptyTaken(text, at, nodes, stack);
  }

  lemma {:induction false} TextNodeTaken(text: string, at: nat, n: Nodes, stack: seq<string>)
    requires n.Text? && WellFormed(n) && Reads(text, at, Print(n)) && Follows(text, at + |Print(n)|)
    ensures Takes(text, Scanner(at, stack), SpansOf(n, at, stack), Scanner(at + |Print(n)|, stack))
    decreases n, 0
  {
    var Text(s, tail) := n;
    ReadsSplit(text, at, s, Print(tail));
    TailFollows(text, at + |s|, tail);
    TextTaken(text, at, s, stack);
    NodesTaken(text, at + |s|, tail, stack);
    Then(text, Scanner(at, stack), [Span(at, at + |s|, Path(stack))], Scanner(at + |s|, stack),
         SpansOf(tail, at + |s|, stack), Scanner(at + |Print(n)|, stack));
  }

  lemma {:induction false} MarkupNodeTaken(text: string, at: nat, n: Nodes, stack: seq<string>)
    requires n.Markup? && WellFormed(n) && Reads(text, at, Print(n)) && Follows(text, at + |Print(n)|)
    ensures Takes(text, Scanner(at, stack), SpansOf(n, at, stack), Scanner(at + |Print(n)|, stack))
    decreases n, 0
  {
    var Markup(s, tail) := n;
    ReadsSplit(text, at, s, Print(tail));
    MarkupTaken(text, at, s, stack);
    NodesTaken(text, at + |s|, tail, stack);
    Quiet(text, Scanner(at, stack), Scanner(at + |s|, stack), SpansOf(tail, at + |s|, stack),
          Scanner(at + |Print(n)|, stack));
  }

  lemma {:induction false} EmptyTaken(text: string, at: nat, e: Nodes, stack: seq<string>)
    requires e.Empty? && WellFormed(e) && Reads(text, at, Print(e)) && Follows(text, at + |Print(e)|)
    ensures Takes(text, Scanner(at, stack), SpansOf(e, at, stack), Scanner(at + |Print(e)|, stack))
    decreases e, 0
  {
    var next := at + TagSize(e.name, e.attrs, e.gap, true);
    EmptyPartsRead(text, at, e, next);
    EmptySize(e, at, stack, next);
    NodesTaken(text, next, e.tail, stack);
    var after := SpansOf(e.tail, next, stack);
    var path := Path(stack + [e.name]);
    var values := SpansOfAttrs(e.attrs, at + 1 + |e.name|, path);
    TagTaken(text, at, e.name, e.attrs, e.gap, true, stack, path, next, values);
    var tag := [Span(at, at + 1 + |e.name|, path)] + values;
    Then(text, Scanner(at, stack), tag, Scanner(next, stack), after, Scanner(next + |Print(e.tail)|, stack));
    TakesSame(text, Scanner(at, stack), tag + after,
              Scanner(next + |Print(e.tail)|, stack), SpansOf(e, at, stack), Scanner(at + |Print(e)|, stack));
  }

  lemma EmptyPartsRead(text: string, at: nat, e: Nodes, next: nat)
    requires e.Empty? && WellFormed(e) && Reads(text, at, Print(e))
             && next == at + TagSize(e.name, e.attrs, e.gap, true)
    ensures TagAt(text, at, e.name, e.attrs, e.gap, true) && Reads(text, next, Print(e.tail))
  {
    EmptyReads(text, at, "<" + e.name, PrintAttrs(e.attrs), e.gap + CloseOf(true), Print(e.tail));
  }

  lemma EmptySize(e: Nodes, at: nat, stack: seq<string>, next: nat)
    requires e.Empty? && next == at + TagSize(e.name, e.attrs, e.gap, true)
    ensures at + |Print(e)| == next + |Print(e.tail)|
    ensures SpansOf(e, at, stack)
         == TagSpans(e.name, e.attrs, at, Path(stack + [e.name])) + SpansOf(e.tail, next, stack)
  {
  }

  /** Where an element's children, its end tag, what comes after it and the end of that are. */
  datatype Places = Places(body: nat, end: nat, next: nat, last: nat)

  ghost function PlacesOf(e: Nodes, at: nat): Places
    requires e.Element?
  {
    var body := at + TagSize(e.name, e.attrs, e.gap, false);
    var end := body + |Print(e.children)|;
    var next := end + |EndTag(e.name, e.endGap)|;
    Places(body, end, next, next + |Print(e.tail)|)
  }

  /** The parts of an element are read at their places. */
  ghost predicate ElementAt(text: string, at: nat, e: Nodes, p: Places)
    requires e.Element?
  {
    && TagAt(text, at, e.name, e.attrs, e.gap, false) && Reads(text, p.body, Print(e.children))
    && Reads(text, p.end, EndTag(e.name, e.endGap)) && Reads(text, p.next, Print(e.tail))
  }

  lemma ElementPartsRead(text: string, at: nat, e: Nodes)
    requires e.Element? && WellFormed(e) && Reads(text, at, Print(e))
    ensures ElementAt(text, at, e, PlacesOf(e, at))
  {
    ElementReads(text, at, "<" + e.name, PrintAttrs(e.attrs), e.gap + CloseOf(false), Print(e.children),
                 EndTag(e.name, e.endGap), Print(e.tail));
  }

  lemma ElementSize(e: Nodes, at: nat, stack: seq<string>)
    requires e.Element?
    ensures var p := PlacesOf(e, at);
            && at + |Print(e)| == p.last
            && SpansOf(e, at, stack) == TagSpans(e.name, e.attrs, at, Path(stack + [e.name]))
                 + (SpansOf(e.children, p.body, stack + [e.name]) + SpansOf(e.tail, p.next, stack))
  {
  }

  lemma {:induction false} ElementTaken(text: string, at: nat, e: Nodes, stack: seq<string>)
    requires e.Element? && WellFormed(e) && Reads(text, at, Print(e)) && Follows(text, at + |Print(e)|)
    ensures Takes(text, Scanner(at, stack), SpansOf(e, at, stack), Scanner(at + |Print(e)|, stack))
    decreases e, 2
  {
    var p := PlacesOf(e, at);
    ElementPartsRead(text, at, e);
    ElementSize(e, at, stack);
    InsideTaken(text, at, e, stack, p);
    var path := Path(stack + [e.name]);
    var values := SpansOfAttrs(e.attrs, at + 1 + |e.name|, path);
    TagTaken(text, at, e.name, e.attrs, e.gap, false, stack, path, p.body, values);
    EndTagTaken(text, p.end, e.name, e.endGap, stack);
    var tag := [Span(at, at + 1 + |e.name|, path)] + values;
    var inside := SpansOf(e.children, p.body, stack + [e.name]);
    var after := SpansOf(e.tail, p.next, stack);
    PartsTaken(text, Scanner(at, stack), tag, Scanner(p.body, stack + [e.name]), inside,
               Scanner(p.end, stack + [e.name]), Scanner(p.next, stack), after, Scanner(p.last, stack));
    TakesSame(text, Scanner(at, stack), tag + (inside + after), Scanner(p.last, stack), SpansOf(e, at, stack),
              Scanner(at + |Print(e)|, stack));
  }

  /** A tag, what is inside, an end tag without spans and what comes after it. */
  lemma PartsTaken(text: string, s: Scanner, tag: seq<Span>, body: Scanner, inside: seq<Span>, end: Scanner,
                   next: Scanner, after: seq<Span>, last: Scanner)
    requires Takes(text, s, tag, body) && Takes(text, body, inside, end) && Takes(text, end, [], next)
    requires Takes(text, next, after, last)
    ensures Takes(text, s, tag + (inside + after), last)
  {
    Quiet(text, end, next, after, last);
    Then(text, body, inside, end, after, last);
    Then(text, s, tag, body, inside + after, last);
  }

  /** The children up to the end tag, and what comes after it. */
  lemma {:induction false} InsideTaken(text: string, at: nat, e: Nodes, stack: seq<string>, p: Places)
    requires e.Element? && WellFormed(e) && p == PlacesOf(e, at) && ElementAt(text, at, e, p) && Follows(text, p.last)
    ensures Takes(text, Scanner(p.body, stack + [e.name]), SpansOf(e.children, p.body, stack + [e.name]),
                  Scanner(p.end, stack + [e.name]))
    ensures Takes(text, Scanner(p.next, stack), SpansOf(e.tail, p.next, stack), Scanner(p.last, stack))
    decreases e, 1
  {
    ReadsAt(text, p.end, EndTag(e.name, e.endGap), 0);
    NodesTaken(text, p.body, e.children, stack + [e.name]);
    NodesTaken(text, p.next, e.tail, stack);
  }

  /** Every tag, text and attribute value of a document gets a span over exactly its characters, with the path of
      its element and the attribute's name. */
  lemma DocumentPaths(nodes: Nodes)
    requires WellFormed(nodes)
    ensures SpansFrom(Print(nodes), START) == SpansOf(nodes, 0, [])
  {
    var text := Print(nodes);
    ReadsAll(text);
    NodesTaken(text, 0, nodes, []);
    LeftIs(text, START);
    LeftIs(text, Scanner(|text|, []));
  }

  /** An offset inside a tag name, a text or an attribute value is located by its path. */
  lemma PathAt(nodes: Nodes, offset: nat, i: nat)
    requires WellFormed(nodes) && i < |SpansOf(nodes, 0, [])| && Covers(SpansOf(nodes, 0, [])[i], offset)
    ensures Nearest(SpansFrom(Print(nodes), START), offset) == SpansOf(nodes, 0, [])[i].locator
  {
    DocumentPaths(nodes);
    SpansOrdered(Print(nodes), START);
    NearestCovers(SpansOf(nodes, 0, []), offset, i, |Print(nodes)|);
  }
}
