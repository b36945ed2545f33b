/** The spans of a JSON text: one per string or bare token, each with the JSON pointer of its place. */
module JsonSpans {
  import opened Spans

  // ----- the tokenizer as a machine over the text

  datatype Frame = Frame(isObject: bool, base: string, key: string, index: nat)

  datatype Lexer = Lexer(at: nat, stack: seq<Frame>, expectKey: bool)

  const START := Lexer(0, [], false)

  function PointerToken(key: string): string {
    if key == [] then []
    else (if key[0] == '~' then "~0" else if key[0] == '/' then "~1" else [key[0]]) + PointerToken(key[1..])
  }

  function Digit(n: nat): char
    requires n < 10
  {
    "0123456789"[n]
  }

  function Decimal(n: nat): string {
    if n < 10 then [Digit(n)] else Decimal(n / 10) + [Digit(n % 10)]
  }

  function FrameLocator(top: Frame): string {
    top.base + "/" + if top.isObject then PointerToken(top.key) else Decimal(top.index)
  }

  function Current(stack: seq<Frame>): string {
    if stack == [] then "" else FrameLocator(stack[|stack| - 1])
  }

  function Pushed(stack: seq<Frame>, isObject: bool): seq<Frame> {
    stack + [Frame(isObject, Current(stack), "", 0)]
  }

  function Popped(stack: seq<Frame>): seq<Frame> {
    if stack == [] then [] else stack[..|stack| - 1]
  }

  function WithTop(stack: seq<Frame>, top: Frame): seq<Frame>
    requires stack != []
  {
    stack[..|stack| - 1] + [top]
  }

  /** Where a string that opened before j closes. */
  function StringStop(text: string, j: nat): (end: nat)
    requires j <= |text|
    ensures j <= end <= |text|
    decreases |text| - j
  {
    if j == |text| || text[j] == '"' then j
    else if text[j] == '\\' && j + 1 < |text| then StringStop(text, j + 2)
    else StringStop(text, j + 1)
  }

  /** Its characters, without the backslashes of escapes. */
  function Content(text: string, j: nat): string
    requires j <= |text|
    decreases |text| - j
  {
    if j == |text| || text[j] == '"' then []
    else if text[j] == '\\' && j + 1 < |text| then [text[j + 1]] + Content(text, j + 2)
    else [text[j]] + Content(text, j + 1)
  }

  predicate EndsToken(c: char) { c == ',' || c == '}' || c == ']' || c == ' ' || c == '\t' || c == '\r' || c == '\n' }

  function TokenStop(text: string, j: nat): (end: nat)
    requires j <= |text|
    ensures j <= end <= |text|
    ensures forall k :: j <= k < end ==> !EndsToken(text[k])
    ensures end < |text| ==> EndsToken(text[end])
    decreases |text| - j
  {
    if j == |text| || EndsToken(text[j]) then j else TokenStop(text, j + 1)
  }

  function Min(a: nat, b: nat): nat { if a < b then a else b }

  predicate TakesKey(l: Lexer) { l.expectKey && l.stack != [] && l.stack[|l.stack| - 1].isObject }

  /** The stack once the string that opens at l.at is read. */
  function AfterString(text: string, l: Lexer): seq<Frame>
    requires l.at < |text|
  {
    if TakesKey(l) then WithTop(l.stack, l.stack[|l.stack| - 1].(key := Content(text, l.at + 1))) else l.stack
  }

  function Comma(l: Lexer): Lexer {
    if l.stack == [] then l.(at := l.at + 1)
    else
      var top := l.stack[|l.stack| - 1];
      if top.isObject then l.(at := l.at + 1, expectKey := true)
      else l.(at := l.at + 1, stack := WithTop(l.stack, top.(index := top.index + 1)))
  }

  function Next(text: string, l: Lexer): (r: (Lexer, seq<Span>))
    requires l.at < |text|
    ensures l.at < r.0.at <= |text|
  {
    var c := text[l.at];
    if c == '{' || c == '[' then (Lexer(l.at + 1, Pushed(l.stack, c == '{'), c == '{'), [])
    else if c == '}' || c == ']' then (Lexer(l.at + 1, Popped(l.stack), false), [])
    else if c == ',' then (Comma(l), [])
    else if c == ':' || IsSpace(c) then (l.(at := l.at + 1), [])
    else if c == '"' then
      var end := Min(StringStop(text, l.at + 1) + 1, |text|);
      var stack := AfterString(text, l);
      (Lexer(end, stack, l.expectKey && !TakesKey(l)), [Span(l.at, end, Current(stack))])
    else
      var end := TokenStop(text, l.at);
      (l.(at := end), [Span(l.at, end, Current(l.stack))])
  }

  function SpansFrom(text: string, l: Lexer): seq<Span>
    requires l.at <= |text|
    decreases |text| - l.at
  {
    if l.at == |text| then [] else Next(text, l).1 + SpansFrom(text, Next(text, l).0)
  }

  // ----- the loops

  lemma ContentGrows(read: string, c: char, rest: string)
    ensures (read + [c]) + rest == read + ([c] + rest)
  {
  }

  method ReadString(text: string, i: nat) returns (content: string, end: nat)
    requires i < |text|
    ensures content == Content(text, i + 1) && end == Min(StringStop(text, i + 1) + 1, |text|)
  {
    var j := i + 1;
    content := "";
    while j < |text| && text[j] != '"'
      invariant i < j <= |text|
      invariant content + Content(text, j) == Content(text, i + 1)
      invariant StringStop(text, j) == StringStop(text, i + 1)
    {
      if text[j] == '\\' && j + 1 < |text| {
        j := j + 1;
      }
      ContentGrows(content, text[j], Content(text, j + 1));
      content := content + [text[j]];
      j := j + 1;
    }
    end := Min(j + 1, |text|);
  }

  method ReadToken(text: string, i: nat) returns (end: nat)
    requires i < |text|
    ensures end == TokenStop(text, i)
  {
    end := i;
    while end < |text| && !EndsToken(text[end])
      invariant i <= end <= |text| && TokenStop(text, end) == TokenStop(text, i)
    {
      end := end + 1;
    }
  }

  /** The spans found so far and those still to come are all. */
  ghost predicate Progress(text: string, l: Lexer, spans: seq<Span>) {
    l.at <= |text| && spans + SpansFrom(text, l) == SpansFrom(text, START)
  }

  lemma Advanced(text: string, l: Lexer, spans: seq<Span>, m: Lexer, more: seq<Span>)
    requires l.at < |text| && Progress(text, l, spans) && Next(text, l) == (m, more)
    ensures Progress(text, m, spans + more)
  {
    assert (spans + more) + SpansFrom(text, m) == spans + (more + SpansFrom(text, m));
  }

  predicate IsPunctuation(c: char) {
    c == '{' || c == '[' || c == '}' || c == ']' || c == ',' || c == ':' || IsSpace(c)
  }

  /** What a character outside strings and tokens does to the stack. */
  method Punctuate(c: char, stack: seq<Frame>, expectKey: bool, ghost text: string, ghost i: nat)
    returns (stack': seq<Frame>, expectKey': bool)
    requires i < |text| && text[i] == c && IsPunctuation(c)
    ensures Next(text, Lexer(i, stack, expectKey)) == (Lexer(i + 1, stack', expectKey'), [])
  {
    stack', expectKey' := stack, expectKey;
    if c == '{' || c == '[' {
      stack' := Pushed(stack, c == '{');
      expectKey' := c == '{';
    } else if c == '}' || c == ']' {
      if stack != [] {
        stack' := stack[..|stack| - 1];
      }
      expectKey' := false;
    } else if c == ',' && stack != [] {
      var top := stack[|stack| - 1];
      if top.isObject {
        expectKey' := true;
      } else {
        stack' := WithTop(stack, top.(index := top.index + 1));
      }
    }
  }

  /** A string is the key of its object where one is expected. */
  lemma NextString(text: string, l: Lexer, end: nat)
    requires l.at < |text| && text[l.at] == '"' && end == Min(StringStop(text, l.at + 1) + 1, |text|)
    ensures var stack := AfterString(text, l);
            Next(text, l) == (Lexer(end, stack, l.expectKey && !TakesKey(l)), [Span(l.at, end, Current(stack))])
  {
  }

  method TakeString(text: string, i: nat, stack: seq<Frame>, expectKey: bool)
    returns (end: nat, stack': seq<Frame>, expectKey': bool)
    requires i < |text| && text[i] == '"'
    ensures Next(text, Lexer(i, stack, expectKey)) == (Lexer(end, stack', expectKey'), [Span(i, end, Current(stack'))])
  {
    var content;
    content, end := ReadString(text, i);
    NextString(text, Lexer(i, stack, expectKey), end);
    stack', expectKey' := stack, expectKey;
    if expectKey && stack != [] && stack[|stack| - 1].isObject {
      stack' := WithTop(stack, stack[|stack| - 1].(key := content));
      expectKey' := false;
    }
  }

  method Scan(text: string) returns (spans: seq<Span>)
    ensures spans == SpansFrom(text, START)
    ensures Ordered(spans, 0, |text|)
  {
    var stack: seq<Frame> := [];
    spans := [];
    var expectKey := false;
    var i := 0;
    while i < |text|
      invariant Progress(text, Lexer(i, stack, expectKey), spans)
      decreases |text| - i
    {
      ghost var l := Lexer(i, stack, expectKey);
      var c := text[i];
      if c == '"' {
        var end;
        end, stack, expectKey := TakeString(text, i, stack, expectKey);
        Advanced(text, l, spans, Lexer(end, stack, expectKey), [Span(i, end, Current(stack))]);
        spans := spans + [Span(i, end, Current(stack))];
        i := end;
      } else if IsPunctuation(c) {
        stack, expectKey := Punctuate(c, stack, expectKey, text, i);
        Advanced(text, l, spans, Lexer(i + 1, stack, expectKey), []);
        assert spans + [] == spans;
        i := i + 1;
      } else {
        var end := ReadToken(text, i);
        Advanced(text, l, spans, Lexer(end, stack, expectKey), [Span(i, end, Current(stack))]);
        spans := spans + [Span(i, end, Current(stack))];
        i := end;
      }
    }
    SpansOrdered(text, START);
  }

  /** Whatever the text, each step moves on and the spans never overlap. */
  lemma {:induction false} SpansOrdered(text: string, l: Lexer)
    requires l.at <= |text|
    ensures Ordered(SpansFrom(text, l), l.at, |text|)
    decreases |text| - l.at
  {
    if l.at < |text| {
      var (m, out) := Next(text, l);
      SpansOrdered(text, m);
      OrderedJoin(out, SpansFrom(text, m), l.at, m.at, |text|);
    }
  }
}
