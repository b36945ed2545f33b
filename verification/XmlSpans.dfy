/** The spans of an XML text: tags and text with the path of their element, attribute values with /@name. */
module XmlSpans {
  import opened Spans

  // ----- the scanner as a machine over the text

  datatype Scanner = Scanner(at: nat, stack: seq<string>)

  const START := Scanner(0, [])

  function Path(stack: seq<string>): string {
    if stack == [] then "" else Path(stack[..|stack| - 1]) + "/" + stack[|stack| - 1]
  }

  function Popped(stack: seq<string>): seq<string> {
    if stack == [] then [] else stack[..|stack| - 1]
  }

  predicate StartsWith(text: string, at: nat, s: string) {
    at + |s| <= |text| && text[at..at + |s|] == s
  }

  /** Where s first occurs from j on, or the end of the text. */
  function Find(text: string, s: string, j: nat): (r: nat)
    requires j <= |text|
    ensures j <= r <= |text|
    ensures r < |text| && s != [] ==> StartsWith(text, r, s)
    ensures forall k :: j <= k < r ==> !StartsWith(text, k, s)
    decreases |text| - j
  {
    if j == |text| || StartsWith(text, j, s) then j else Find(text, s, j + 1)
  }

  function SkipPast(text: string, s: string, j: nat): (r: nat)
    requires j < |text| && s != []
    ensures j < r <= |text|
  {
    var at := Find(text, s, j);
    if at == |text| then |text| else at + |s|
  }

  predicate EndsName(c: char) { c == '/' || c == '>' || c == '=' || IsSpace(c) }

  function NameStop(text: string, j: nat): (r: nat)
    requires j <= |text|
    ensures j <= r <= |text|
    ensures j < |text| && !EndsName(text[j]) ==> j < r
    decreases |text| - j
  {
    if j == |text| || EndsName(text[j]) then j else NameStop(text, j + 1)
  }

  predicate IsQuote(c: char) { c == '"' || c == '\'' }

  /** The next quote or end of tag. */
  function ValueStop(text: string, j: nat): (r: nat)
    requires j <= |text|
    ensures j <= r <= |text|
    ensures r < |text| ==> IsQuote(text[r]) || text[r] == '>'
    decreases |text| - j
  {
    if j == |text| || IsQuote(text[j]) || text[j] == '>' then j else ValueStop(text, j + 1)
  }

  function Min(a: nat, b: nat): nat { if a < b then a else b }

  /** Whether the tag closes itself, where it ends, and its attribute values. */
  datatype Tag = Tag(end: nat, closed: bool, spans: seq<Span>)

  predicate InName(c: char) { c != '>' && c != '/' && !IsSpace(c) }

  /** An attribute whose name starts at j: where the scan goes on, and the span of its quoted value. */
  function Attribute(text: string, j: nat, path: string): (r: (nat, seq<Span>))
    requires j < |text| && InName(text[j])
    ensures j < r.0 <= |text|
  {
    var name := NameStop(text, j);
    var q := ValueStop(text, name);
    if q == |text| || text[q] == '>' then (q, [])
    else
      var end := Find(text, [text[q]], q + 1);
      (Min(end + 1, |text|), [Span(q + 1, end, path + "/@" + text[j..name])])
  }

  /** The rest of a tag whose name ended before j. */
  function TagFrom(text: string, j: nat, closed: bool, path: string): (r: Tag)
    requires j <= |text|
    ensures j <= r.end <= |text|
    decreases |text| - j
  {
    if j == |text| then Tag(j, closed, [])
    else if text[j] == '>' then Tag(j + 1, closed, [])
    else if text[j] == '/' then TagFrom(text, j + 1, true, path)
    else if IsSpace(text[j]) then TagFrom(text, j + 1, closed, path)
    else
      var (next, found) := Attribute(text, j, path);
      var rest := TagFrom(text, next, closed, path);
      rest.(spans := found + rest.spans)
  }

  /** An opening tag at s.at. */
  function OpenTag(text: string, s: Scanner): (r: (Scanner, seq<Span>))
    requires s.at < |text|
    ensures s.at < r.0.at <= |text|
  {
    var name := NameStop(text, s.at + 1);
    var stack := s.stack + [text[s.at + 1..name]];
    var tag := TagFrom(text, name, false, Path(stack));
    (Scanner(tag.end, if tag.closed then s.stack else stack), [Span(s.at, name, Path(stack))] + tag.spans)
  }

  function Next(text: string, s: Scanner): (r: (Scanner, seq<Span>))
    requires s.at < |text|
    ensures s.at < r.0.at <= |text|
  {
    if text[s.at] != '<' then
      var next := Find(text, "<", s.at);
      (s.(at := next), [Span(s.at, next, Path(s.stack))])
    else if StartsWith(text, s.at, "<!--") then (s.(at := SkipPast(text, "-->", s.at)), [])
    else if StartsWith(text, s.at, "<?") || StartsWith(text, s.at, "<!") then (s.(at := SkipPast(text, ">", s.at)), [])
    else if StartsWith(text, s.at, "</") then (Scanner(SkipPast(text, ">", s.at), Popped(s.stack)), [])
    else OpenTag(text, s)
  }

  function SpansFrom(text: string, s: Scanner): seq<Span>
    requires s.at <= |text|
    decreases |text| - s.at
  {
    if s.at == |text| then [] else Next(text, s).1 + SpansFrom(text, Next(text, s).0)
  }

  // ----- the order of the spans

  /** Attribute values lie inside their tag, in order, past its name. */
  ghost predicate InTag(tag: Tag, j: nat, size: nat) {
    && Ordered(tag.spans, j, size)
    && (forall s :: s in tag.spans ==> j < s.begin && s.end <= tag.end && (tag.end < size ==> s.begin < tag.end))
  }

  /** An attribute lies between its name and where the scan goes on. */
  ghost predicate Within(found: seq<Span>, j: nat, next: nat, size: nat) {
    |found| <= 1 && forall s :: s in found ==> j < s.begin <= s.end <= next && (next < size ==> s.end < next)
  }

  lemma AttributeWithin(text: string, j: nat, path: string)
    requires j < |text| && InName(text[j])
    ensures Within(Attribute(text, j, path).1, j, Attribute(text, j, path).0, |text|)
  {
  }

  lemma AttributeFirst(found: seq<Span>, rest: Tag, j: nat, next: nat, size: nat)
    requires Within(found, j, next, size) && j < next <= rest.end <= size
    requires InTag(rest, next, size)
    ensures InTag(rest.(spans := found + rest.spans), j, size)
  {
    var all := found + rest.spans;
    assert forall i :: 0 <= i < |found| ==> found[i] in found;
    if rest.spans == [] {
      assert all == found;
    } else {
      assert rest.spans[0] in rest.spans;
      OrderedJoin(found, rest.spans, j, next, size);
    }
    assert forall s :: s in all <==> s in found || s in rest.spans;
  }

  lemma InTagFrom(tag: Tag, j: nat, k: nat, size: nat)
    requires InTag(tag, k, size) && j <= k
    ensures InTag(tag, j, size)
  {
  }

  lemma {:induction false} TagOrdered(text: string, j: nat, closed: bool, path: string)
    requires j <= |text|
    ensures InTag(TagFrom(text, j, closed, path), j, |text|)
    decreases |text| - j
  {
    if j == |text| || text[j] == '>' {
    } else if text[j] == '/' {
      TagOrdered(text, j + 1, true, path);
      InTagFrom(TagFrom(text, j + 1, true, path), j, j + 1, |text|);
    } else if IsSpace(text[j]) {
      TagOrdered(text, j + 1, closed, path);
      InTagFrom(TagFrom(text, j + 1, closed, path), j, j + 1, |text|);
    } else {
      var next := Attribute(text, j, path).0;
      TagOrdered(text, next, closed, path);
      AttributeWithin(text, j, path);
      AttributeFirst(Attribute(text, j, path).1, TagFrom(text, next, closed, path), j, next, |text|);
    }
  }

  lemma {:induction false} SpansOrdered(text: string, s: Scanner)
    requires s.at <= |text|
    ensures Ordered(SpansFrom(text, s), s.at, |text|)
    decreases |text| - s.at
  {
    if s.at < |text| {
      var (m, out) := Next(text, s);
      NextOrdered(text, s);
      SpansOrdered(text, m);
      if m.at < |text| {
        OrderedJoin(out, SpansFrom(text, m), s.at, m.at, |text|);
      } else {
        assert out + [] == out;
      }
    }
  }

  lemma NextOrdered(text: string, s: Scanner)
    requires s.at < |text|
    ensures var (m, out) := Next(text, s); Ordered(out, s.at,
                                                   |text|) && forall i :: 0 <= i < |out| ==> out[i].end <= m.at
    ensures var (m, out) := Next(text, s); m.at < |text| ==> forall i :: 0 <= i < |out| ==> out[i].begin < m.at
  {
    if Next(text, s) == OpenTag(text, s) {
      OpenTagOrdered(text, s);
    }
  }

  lemma OpenTagOrdered(text: string, s: Scanner)
    requires s.at < |text|
    ensures var (m, out) := OpenTag(text, s);
            && Ordered(out, s.at, |text|) && (forall i :: 0 <= i < |out| ==> out[i].end <= m.at)
            && (m.at < |text| ==> forall i :: 0 <= i < |out| ==> out[i].begin < m.at)
  {
    var name := NameStop(text, s.at + 1);
    var path := Path(s.stack + [text[s.at + 1..name]]);
    TagOrdered(text, name, false, path);
    NameThenTag(Span(s.at, name, path), TagFrom(text, name, false, path), |text|);
  }

  /** The span of a name goes in front of those of the attributes. */
  lemma NameThenTag(name: Span, tag: Tag, size: nat)
    requires name.begin < name.end <= tag.end && name.end <= size && InTag(tag, name.end, size)
    ensures var out := [name] + tag.spans;
            && Ordered(out, name.begin, size) && (forall i :: 0 <= i < |out| ==> out[i].end <= tag.end)
            && (tag.end < size ==> forall i :: 0 <= i < |out| ==> out[i].begin < tag.end)
  {
    var out := [name] + tag.spans;
    forall i | 0 <= i < |out| ensures out[i].end <= tag.end && (tag.end < size ==> out[i].begin < tag.end) {
      assert out[i] == if i == 0 then name else tag.spans[i - 1];
    }
    OrderedJoin([name], tag.spans, name.begin, name.end, size);
  }

  // ----- the loops

  method ReadName(text: string, i: nat) returns (j: nat)
    requires i <= |text|
    ensures j == NameStop(text, i)
  {
    j := i;
    while j < |text| && !EndsName(text[j])
      invariant i <= j <= |text| && NameStop(text, j) == NameStop(text, i)
    {
      j := j + 1;
    }
  }

  method ReadToValue(text: string, i: nat) returns (j: nat)
    requires i <= |text|
    ensures j == ValueStop(text, i)
  {
    j := i;
    while j < |text| && text[j] != '"' && text[j] != '\'' && text[j] != '>'
      invariant i <= j <= |text| && ValueStop(text, j) == ValueStop(text, i)
    {
      j := j + 1;
    }
  }

  /** The attributes of a tag, up to its end. */
  method ReadTag(text: string, i: nat, path: string) returns (j: nat, closed: bool, spans: seq<Span>)
    requires i <= |text|
    ensures TagFrom(text, i, false, path) == Tag(j, closed, spans)
  {
    j, closed, spans := i, false, [];
    while j < |text|
      invariant j <= |text|
      invariant TagFrom(text, i, false, path)
                == TagFrom(text, j, closed, path).(spans := spans + TagFrom(text, j, closed, path).spans)
      decreases |text| - j
    {
      if text[j] == '>' {
        j := j + 1;
        return;
      }
      if text[j] == '/' {
        closed, j := true, j + 1;
        continue;
      }
      if IsSpace(text[j]) {
        j := j + 1;
        continue;
      }
      var next, found := ReadAttribute(text, j, path);
      TagGrows(spans, found, TagFrom(text, next, closed, path).spans);
      j, spans := next, spans + found;
    }
  }

  method ReadAttribute(text: string, j: nat, path: string) returns (next: nat, found: seq<Span>)
    requires j < |text| && InName(text[j])
    ensures (next, found) == Attribute(text, j, path)
  {
    var nameEnd := ReadName(text, j);
    var q := ReadToValue(text, nameEnd);
    if q >= |text| || text[q] == '>' {
      return q, [];
    }
    var valueEnd := Min(Find(text, [text[q]], q + 1), |text|);
    found := [Span(q + 1, valueEnd, path + "/@" + text[j..nameEnd])];
    next := Min(valueEnd + 1, |text|);
  }

  lemma TagGrows(spans: seq<Span>, found: seq<Span>, rest: seq<Span>)
    ensures spans + (found + rest) == (spans + found) + rest
  {
  }

  ghost predicate Progress(text: string, s: Scanner, spans: seq<Span>) {
    s.at <= |text| && spans + SpansFrom(text, s) == SpansFrom(text, START)
  }

  lemma Advanced(text: string, s: Scanner, spans: seq<Span>, m: Scanner, more: seq<Span>)
    requires Progress(text, s, spans) && s.at < |text| && Next(text, s) == (m, more)
    ensures Progress(text, m, spans + more)
  {
    var rest := SpansFrom(text, m);
    assert SpansFrom(text, s) == more + rest;
    assert (spans + more) + rest == spans + (more + rest);
  }

  /** What a place inside markup that opens no element does to the stack. */
  method SkipMarkup(text: string, i: nat, stack: seq<string>) returns (skipped: bool, next: nat, stack': seq<string>)
    requires i < |text| && text[i] == '<'
    ensures skipped ==> Next(text, Scanner(i, stack)) == (Scanner(next, stack'), [])
    ensures !skipped ==> stack' == stack && Next(text, Scanner(i, stack)) == OpenTag(text, Scanner(i, stack))
  {
    skipped, next, stack' := true, i, stack;
    if StartsWith(text, i, "<!--") {
      next := SkipPast(text, "-->", i);
    } else if StartsWith(text, i, "<?") || StartsWith(text, i, "<!") {
      next := SkipPast(text, ">", i);
    } else if StartsWith(text, i, "</") {
      if stack != [] {
        stack' := stack[..|stack| - 1];
      }
      next := SkipPast(text, ">", i);
    } else {
      skipped := false;
    }
  }

  method ReadOpenTag(text: string, i: nat, stack: seq<string>) returns (j: nat, stack': seq<string>, more: seq<Span>)
    requires i < |text|
    ensures OpenTag(text, Scanner(i, stack)) == (Scanner(j, stack'), more)
  {
    j := ReadName(text, i + 1);
    stack' := stack + [text[i + 1..j]];
    more := [Span(i, j, Path(stack'))];
    var closed, values;
    j, closed, values := ReadTag(text, j, Path(stack'));
    more := more + values;
    if closed && stack' != [] {
      stack' := stack'[..|stack'| - 1];
      assert stack' == stack;
    }
  }

  method Scan(text: string) returns (spans: seq<Span>)
    ensures spans == SpansFrom(text, START)
    ensures Ordered(spans, 0, |text|)
  {
    var stack: seq<string> := [];
    spans := [];
    var i := 0;
    while i < |text|
      invariant Progress(text, Scanner(i, stack), spans)
      decreases |text| - i
    {
      ghost var s := Scanner(i, stack);
      if text[i] != '<' {
        var next := Min(Find(text, "<", i), |text|);
        Advanced(text, s, spans, Scanner(next, stack), [Span(i, next, Path(stack))]);
        spans := spans + [Span(i, next, Path(stack))];
        i := next;
        continue;
      }
      var skipped, next;
      skipped, next, stack := SkipMarkup(text, i, stack);
      if skipped {
        Advanced(text, s, spans, Scanner(next, stack), []);
        assert spans + [] == spans;
        i := next;
        continue;
      }
      var more;
      next, stack, more := ReadOpenTag(text, i, stack);
      Advanced(text, s, spans, Scanner(next, stack), more);
      spans := spans + more;
      i := next;
    }
    SpansOrdered(text, START);
  }
}
