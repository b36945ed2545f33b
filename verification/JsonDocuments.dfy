/** JSON documents as RFC 8259 writes them, and the proof that the tokenizer gives every key, string and
    bare value the JSON pointer of its place (RFC 6901). */
module JsonDocuments {
  import opened Spans
  import opened JsonSpans

  // ----- documents with their own white space and spelling

  /** pre and post are the white space around a value; raw strings are spelled with their escapes. */
  datatype Json =
    | Bare(pre: string, token: string, post: string)
    | Text(pre: string, raw: string, post: string)
    | Array(pre: string, inner: string, items: Items, post: string)
    | Object(pre: string, inner: string, members: Members, post: string)

  datatype Items = NoItems | Item(head: Json, tail: Items)

  datatype Members = NoMembers | Member(pre: string, key: string, mid: string, value: Json, tail: Members)

  function Print(v: Json): string {
    match v
    case Bare(pre, token, post) => pre + (token + post)
    case Text(pre, raw, post) => pre + (Quoted(raw) + post)
    case Array(pre, inner, items, post) => pre + ("[" + (inner + (PrintItems(items) + ("]" + post))))
    case Object(pre, inner, members, post) => pre + ("{" + (inner + (PrintMembers(members) + ("}" + post))))
  }

  function PrintItems(items: Items): string {
    match items
    case NoItems => ""
    case Item(head, NoItems) => Print(head)
    case Item(head, tail) => Print(head) + ("," + PrintItems(tail))
  }

  function PrintMembers(members: Members): string {
    match members
    case NoMembers => ""
    case Member(pre, key, mid, value, NoMembers) => pre + (Quoted(key) + (mid + (":" + Print(value))))
    case Member(pre, key, mid, value, tail) => pre + (Quoted(key) + (mid + (":" + (Print(value) + ("," + PrintMembers(tail))))))
  }

  function Quoted(raw: string): string { "\"" + (raw + "\"") }

  predicate Blank(gap: string) {
    forall i :: 0 <= i < |gap| ==> gap[i] == ' ' || gap[i] == '\t' || gap[i] == '\n' || gap[i] == '\r'
  }

  /** The characters of numbers and of true, false and null. */
  predicate Plain(c: char) {
    '0' <= c <= '9' || 'a' <= c <= 'z' || 'A' <= c <= 'Z' || c == '+' || c == '-' || c == '.'
  }

  predicate TokenOk(token: string) {
    token != [] && forall i :: 0 <= i < |token| ==> Plain(token[i])
  }

  /** No bare quote, and each backslash escapes a character. */
  predicate RawOk(raw: string) {
    raw == [] || (if raw[0] == '\\' then |raw| >= 2 && RawOk(raw[2..]) else raw[0] != '"' && RawOk(raw[1..]))
  }

  function Unescaped(raw: string): string
    requires RawOk(raw)
  {
    if raw == [] then []
    else if raw[0] == '\\' then [raw[1]] + Unescaped(raw[2..])
    else [raw[0]] + Unescaped(raw[1..])
  }

  predicate WellFormed(v: Json) {
    Blank(v.pre) && Blank(v.post) &&
    match v
    case Bare(_, token, _) => TokenOk(token)
    case Text(_, raw, _) => RawOk(raw)
    case Array(_, inner, items, _) => Blank(inner) && WellFormedItems(items)
    case Object(_, inner, members, _) => Blank(inner) && WellFormedMembers(members)
  }

  predicate WellFormedItems(items: Items) {
    items.NoItems? || (WellFormed(items.head) && WellFormedItems(items.tail))
  }

  predicate WellFormedMembers(members: Members) {
    members.NoMembers? || (Blank(members.pre) && RawOk(members.key) && Blank(members.mid)
                           && WellFormed(members.value) && WellFormedMembers(members.tail))
  }

  // ----- the pointers

  function Child(path: string, token: string): string { path + "/" + token }

  /** The spans a value at an offset should have, its place being path. */
  function SpansOf(v: Json, at: nat, path: string): seq<Span>
    requires WellFormed(v)
  {
    var start := at + |v.pre|;
    match v
    case Bare(_, token, _) => [Span(start, start + |token|, path)]
    case Text(_, raw, _) => [Span(start, start + |Quoted(raw)|, path)]
    case Array(_, inner, items, _) => SpansOfItems(items, start + 1 + |inner|, path, 0)
    case Object(_, inner, members, _) => SpansOfMembers(members, start + 1 + |inner|, path)
  }

  function SpansOfItems(items: Items, at: nat, path: string, k: nat): seq<Span>
    requires WellFormedItems(items)
  {
    match items
    case NoItems => []
    case Item(head, tail) =>
      SpansOf(head, at, Child(path, Decimal(k))) + SpansOfItems(tail, at + |Print(head)| + 1, path, k + 1)
  }

  function KeySpans(start: nat, raw: string, path: string): seq<Span>
    requires RawOk(raw)
  {
    [Span(start, start + |Quoted(raw)|, Child(path, PointerToken(Unescaped(raw))))]
  }

  /** A key has the place of its value. */
  function SpansOfMembers(members: Members, at: nat, path: string): seq<Span>
    requires WellFormedMembers(members)
  {
    match members
    case NoMembers => []
    case Member(pre, key, mid, value, tail) =>
      var place := Child(path, PointerToken(Unescaped(key)));
      var start := at + |pre|;
      var after := start + |Quoted(key)| + |mid| + 1;
      KeySpans(start, key, path)
      + (SpansOf(value, after, place) + SpansOfMembers(tail, after + |Print(value)| + 1, path))
  }

  lemma ItemsUnfold(items: Items, at: nat, path: string, k: nat)
    requires WellFormedItems(items) && items.Item?
    ensures SpansOfItems(items, at, path, k) == SpansOf(items.head, at, Child(path, Decimal(k)))
              + SpansOfItems(items.tail, at + |Print(items.head)| + 1, path, k + 1)
    ensures items.tail.NoItems? ==> SpansOfItems(items, at, path, k) == SpansOf(items.head, at, Child(path, Decimal(k)))
    ensures |PrintItems(items)| == |Print(items.head)| + if items.tail.NoItems? then 0 else 1 + |PrintItems(items.tail)|
  {
  }

  lemma MembersUnfold(m: Members, at: nat, path: string, after: nat, place: string)
    requires WellFormedMembers(m) && m.Member?
    requires after == at + |m.pre| + |Quoted(m.key)| + |m.mid| + 1
             && place == Child(path, PointerToken(Unescaped(m.key)))
    ensures SpansOfMembers(m, at, path) == KeySpans(at + |m.pre|, m.key, path)
              + (SpansOf(m.value, after, place) + SpansOfMembers(m.tail, after + |Print(m.value)| + 1, path))
    ensures m.tail.NoMembers? ==>
              SpansOfMembers(m, at, path) == KeySpans(at + |m.pre|, m.key, path) + SpansOf(m.value, after, place)
    ensures at + |PrintMembers(m)| == after + |Print(m.value)| + if m.tail.NoMembers? then 0 else 1 + |PrintMembers(m.tail)|
  {
  }

  // ----- runs of the tokenizer

  /** Keeps Left folded until a proof opens it. */
  ghost predicate Opened(t: int, l: Lexer) { true }

  ghost predicate IsLeft(text: string, l: Lexer, r: seq<Span>)
    requires l.at <= |text|
  {
    forall t {:trigger Opened(t, l)} :: Opened(t, l) ==> r == SpansFrom(text, l)
  }

  /** The spans still to come: SpansFrom, folded. */
  ghost function Left(text: string, l: Lexer): seq<Span>
    requires l.at <= |text|
  {
    assert IsLeft(text, l, SpansFrom(text, l));
    var r: seq<Span> :| IsLeft(text, l, r);
    r
  }

  lemma LeftIs(text: string, l: Lexer)
    requires l.at <= |text|
    ensures Left(text, l) == SpansFrom(text, l)
  {
    assert Opened(0, l);
  }

  /** From l the tokenizer gives out and goes on from m. */
  ghost predicate Takes(text: string, l: Lexer, out: seq<Span>, m: Lexer) {
    l.at <= |text| && m.at <= |text| && Left(text, l) == out + Left(text, m)
  }

  lemma Then(text: string, l: Lexer, a: seq<Span>, m: Lexer, b: seq<Span>, n: Lexer)
    requires Takes(text, l, a, m) && Takes(text, m, b, n)
    ensures Takes(text, l, a + b, n)
  {
    assert (a + b) + Left(text, n) == a + (b + Left(text, n));
  }

  /** A step that gives nothing. */
  lemma Quiet(text: string, l: Lexer, m: Lexer, out: seq<Span>, n: Lexer)
    requires Takes(text, l, [], m) && Takes(text, m, out, n)
    ensures Takes(text, l, out, n)
  {
    Then(text, l, [], m, out, n);
    assert [] + out == out;
  }

  lemma Loud(text: string, l: Lexer, out: seq<Span>, m: Lexer, n: Lexer)
    requires Takes(text, l, out, m) && Takes(text, m, [], n)
    ensures Takes(text, l, out, n)
  {
    Then(text, l, out, m, [], n);
    assert out + [] == out;
  }

  lemma One(text: string, l: Lexer)
    requires l.at < |text|
    ensures Takes(text, l, Next(text, l).1, Next(text, l).0)
  {
    LeftIs(text, l);
    LeftIs(text, Next(text, l).0);
  }

  lemma None(text: string, l: Lexer)
    requires l.at <= |text|
    ensures Takes(text, l, [], l)
  {
    assert [] + Left(text, l) == Left(text, l);
  }

  lemma {:induction false} Gap(text: string, l: Lexer, gap: string)
    requires Blank(gap) && Reads(text, l.at, gap)
    ensures Takes(text, l, [], l.(at := l.at + |gap|))
    decreases |gap|
  {
    if gap == [] {
      assert l.(at := l.at + |gap|) == l;
      None(text, l);
    } else {
      ReadsSplit(text, l.at, [gap[0]], gap[1..]);
      assert [gap[0]] + gap[1..] == gap;
      ReadsAt(text, l.at, gap, 0);
      var m := l.(at := l.at + 1);
      One(text, l);
      assert Next(text, l) == (m, []);
      Gap(text, m, gap[1..]);
      Quiet(text, l, m, [], m.(at := m.at + |gap[1..]|));
    }
  }

  lemma {:induction false} RawRead(text: string, j: nat, raw: string)
    requires RawOk(raw) && Reads(text, j, raw + "\"")
    ensures StringStop(text, j) == j + |raw| && Content(text, j) == Unescaped(raw)
    decreases |raw|
  {
    ReadsSplit(text, j, raw, "\"");
    if raw == [] {
      ReadsAt(text, j, "\"", 0);
    } else {
      ReadsAt(text, j, raw, 0);
      if raw[0] == '\\' {
        ReadsAt(text, j, raw, 1);
        assert raw + "\"" == raw[..2] + (raw[2..] + "\"");
        ReadsSplit(text, j, raw[..2], raw[2..] + "\"");
        RawRead(text, j + 2, raw[2..]);
      } else {
        assert raw + "\"" == raw[..1] + (raw[1..] + "\"");
        ReadsSplit(text, j, raw[..1], raw[1..] + "\"");
        RawRead(text, j + 1, raw[1..]);
      }
    }
  }

  lemma {:induction false} TokenRead(text: string, j: nat, token: string)
    requires Reads(text, j, token) && forall i :: 0 <= i < |token| ==> Plain(token[i])
    requires j + |token| < |text| ==> EndsToken(text[j + |token|])
    ensures TokenStop(text, j) == j + |token|
  {
    var stop := TokenStop(text, j);
    if j <= stop < j + |token| {
      ReadsAt(text, j, token, stop - j);
    }
  }

  /** Past a value only white space, a comma or a closing bracket follows. */
  predicate Follows(text: string, at: nat) {
    at == |text| || (at < |text| && (text[at] == ',' || text[at] == ']' || text[at] == '}'))
  }

  lemma BareTaken(text: string, l: Lexer, token: string)
    requires TokenOk(token) && Reads(text, l.at, token)
    requires l.at + |token| < |text| ==> EndsToken(text[l.at + |token|])
    ensures Takes(text, l, [Span(l.at, l.at + |token|, Current(l.stack))], l.(at := l.at + |token|))
  {
    ReadsAt(text, l.at, token, 0);
    TokenRead(text, l.at, token);
    NextToken(text, l, l.at + |token|);
    One(text, l);
  }

  lemma NextToken(text: string, l: Lexer, end: nat)
    requires l.at < |text| && Plain(text[l.at]) && end == TokenStop(text, l.at)
    ensures Next(text, l) == (l.(at := end), [Span(l.at, end, Current(l.stack))])
  {
  }

  /** What a string at l leaves: the key of its object, where one is expected. */
  function Named(l: Lexer, raw: string): Lexer
    requires RawOk(raw)
  {
    Lexer(l.at + |Quoted(raw)|,
          if TakesKey(l) then WithTop(l.stack, l.stack[|l.stack| - 1].(key := Unescaped(raw))) else l.stack,
          l.expectKey && !TakesKey(l))
  }

  lemma StringTaken(text: string, l: Lexer, raw: string)
    requires RawOk(raw) && Reads(text, l.at, Quoted(raw))
    ensures Takes(text, l, [Span(l.at, l.at + |Quoted(raw)|, Current(Named(l, raw).stack))], Named(l, raw))
  {
    ReadsSplit(text, l.at, "\"", raw + "\"");
    ReadsAt(text, l.at, "\"", 0);
    RawRead(text, l.at + 1, raw);
    One(text, l);
  }

  lemma MarkTaken(text: string, l: Lexer, c: char, m: Lexer)
    requires Reads(text, l.at, [c]) && (c == '{' || c == '[' || c == '}' || c == ']' || c == ',' || c == ':')
    requires m == if c == '{' || c == '[' then Lexer(l.at + 1, Pushed(l.stack, c == '{'), c == '{')
                  else if c == '}' || c == ']' then Lexer(l.at + 1, Popped(l.stack), false)
                  else if c == ',' then Comma(l)
                  else l.(at := l.at + 1)
    ensures Takes(text, l, [], m)
  {
    ReadsAt(text, l.at, [c], 0);
    One(text, l);
  }

  /** A bare value ends where its white space or the mark after it begins. */
  lemma BareEnds(text: string, at: nat, post: string)
    requires Blank(post) && Reads(text, at, post) && Follows(text, at + |post|)
    ensures at < |text| ==> EndsToken(text[at])
  {
    if post != [] {
      ReadsAt(text, at, post, 0);
    }
  }

  // ----- a value, the items of an array, the members of an object

  function LastIndex(items: Items, k: nat): nat {
    if items.NoItems? || items.tail.NoItems? then k else LastIndex(items.tail, k + 1)
  }

  function LastKey(members: Members, key: string): string
    requires WellFormedMembers(members)
  {
    if members.NoMembers? then key else LastKey(members.tail, Unescaped(members.key))
  }

  /** White space around what is read. */
  lemma Padded(text: string, l: Lexer, pre: string, out: seq<Span>, n: Lexer, post: string)
    requires Blank(pre) && Reads(text, l.at, pre) && Takes(text, l.(at := l.at + |pre|), out, n)
    requires Blank(post) && Reads(text, n.at, post)
    ensures Takes(text, l, out, n.(at := n.at + |post|))
  {
    Gap(text, l, pre);
    Quiet(text, l, l.(at := l.at + |pre|), out, n);
    Gap(text, n, post);
    Loud(text, l, out, n, n.(at := n.at + |post|));
  }

  lemma ScalarReads(text: string, at: nat, pre: string, s: string, post: string)
    requires Reads(text, at, pre + (s + post))
    ensures Reads(text, at, pre) && Reads(text, at + |pre|, s) && Reads(text, at + |pre| + |s|, post)
  {
    ReadsSplit(text, at, pre, s + post);
    ReadsSplit(text, at + |pre|, s, post);
  }

  lemma NestReads(text: string, at: nat, pre: string, open: string, inner: string, body: string, close: string,
                  post: string)
    requires |open| == |close| == 1 && Reads(text, at, pre + (open + (inner + (body + (close + post)))))
    ensures Reads(text, at, pre) && Reads(text, at + |pre|, open) && Reads(text, at + |pre| + 1, inner)
    ensures Reads(text, at + |pre| + 1 + |inner|, body) && Reads(text, at + |pre| + 1 + |inner| + |body|, close)
    ensures Reads(text, at + |pre| + 1 + |inner| + |body| + 1, post)
  {
    ReadsSplit(text, at, pre, open + (inner + (body + (close + post))));
    ReadsSplit(text, at + |pre|, open, inner + (body + (close + post)));
    ReadsSplit(text, at + |pre| + 1, inner, body + (close + post));
    ReadsSplit(text, at + |pre| + 1 + |inner|, body, close + post);
    ReadsSplit(text, at + |pre| + 1 + |inner| + |body|, close, post);
  }

  /** A bracket, what is inside and the bracket that closes it. */
  lemma NestTaken(text: string, l: Lexer, open: char, inner: string, out: seq<Span>, last: Lexer, close: char)
    requires (open == '{' && close == '}') || (open == '[' && close == ']')
    requires Reads(text, l.at, [open]) && Blank(inner) && Reads(text, l.at + 1, inner)
    requires Takes(text, Lexer(l.at + 1 + |inner|, Pushed(l.stack, open == '{'), open == '{'), out, last)
    requires Reads(text, last.at, [close]) && Popped(last.stack) == l.stack && !l.expectKey
    ensures Takes(text, l, out, l.(at := last.at + 1))
  {
    var inside := Lexer(l.at + 1, Pushed(l.stack, open == '{'), open == '{');
    MarkTaken(text, l, open, inside);
    Gap(text, inside, inner);
    Quiet(text, l, inside, [], inside.(at := l.at + 1 + |inner|));
    Quiet(text, l, inside.(at := l.at + 1 + |inner|), out, last);
    MarkTaken(text, last, close, l.(at := last.at + 1));
    Loud(text, l, out, last, l.(at := last.at + 1));
  }

  lemma ScalarTaken(text: string, at: nat, v: Json, stack: seq<Frame>)
    requires (v.Bare? || v.Text?) && WellFormed(v) && Reads(text, at, Print(v)) && Follows(text, at + |Print(v)|)
    ensures Takes(text, Lexer(at, stack, false), SpansOf(v, at, Current(stack)), Lexer(at + |Print(v)|, stack, false))
  {
    var l := Lexer(at + |v.pre|, stack, false);
    if v.Bare? {
      ScalarReads(text, at, v.pre, v.token, v.post);
      BareEnds(text, l.at + |v.token|, v.post);
      BareTaken(text, l, v.token);
      Padded(text, Lexer(at, stack, false), v.pre, SpansOf(v, at, Current(stack)), l.(at := l.at + |v.token|), v.post);
    } else {
      ScalarReads(text, at, v.pre, Quoted(v.raw), v.post);
      StringTaken(text, l, v.raw);
      Padded(text, Lexer(at, stack, false), v.pre, SpansOf(v, at, Current(stack)), l.(at := l.at + |Quoted(v.raw)|),
             v.post);
    }
  }

  lemma {:induction false} ValueTaken(text: string, at: nat, v: Json, stack: seq<Frame>)
    requires WellFormed(v) && Reads(text, at, Print(v)) && Follows(text, at + |Print(v)|)
    ensures Takes(text, Lexer(at, stack, false), SpansOf(v, at, Current(stack)), Lexer(at + |Print(v)|, stack, false))
    decreases v, 2
  {
    match v
    case Bare(_, _, _) =>
      ScalarTaken(text, at, v, stack);
    case Text(_, _, _) =>
      ScalarTaken(text, at, v, stack);
    case Array(_, _, _, _) =>
      ArrayTaken(text, at, v, stack);
    case Object(_, _, _, _) =>
      ObjectTaken(text, at, v, stack);
  }

  lemma {:induction false} ArrayTaken(text: string, at: nat, v: Json, stack: seq<Frame>)
    requires v.Array? && WellFormed(v) && Reads(text, at, Print(v))
    ensures Takes(text, Lexer(at, stack, false), SpansOf(v, at, Current(stack)), Lexer(at + |Print(v)|, stack, false))
    decreases v, 1
  {
    var Array(pre, inner, items, post) := v;
    NestReads(text, at, pre, "[", inner, PrintItems(items), "]", post);
    var l, end := Lexer(at + |pre|, stack, false), at + |pre| + 2 + |inner| + |PrintItems(items)|;
    BracketsTaken(text, at + |pre|, v, stack);
    Padded(text, Lexer(at, stack, false), pre, SpansOf(v, at, Current(stack)), l.(at := end), post);
  }

  lemma {:induction false} BracketsTaken(text: string, start: nat, v: Json, stack: seq<Frame>)
    requires v.Array? && WellFormed(v) && Reads(text, start, "[") && Reads(text, start + 1, v.inner)
    requires Reads(text, start + 1 + |v.inner|, PrintItems(v.items))
    requires Reads(text, start + 1 + |v.inner| + |PrintItems(v.items)|, "]")
    ensures Takes(text, Lexer(start, stack, false), SpansOfItems(v.items, start + 1 + |v.inner|, Current(stack), 0),
                  Lexer(start + 2 + |v.inner| + |PrintItems(v.items)|, stack, false))
    decreases v, 0
  {
    var from, path := start + 1 + |v.inner|, Current(stack);
    var last := InArray(from + |PrintItems(v.items)|, stack, path, LastIndex(v.items, 0));
    ReadsAt(text, last.at, "]", 0);
    ItemsTaken(text, from, v.items, stack, path, 0);
    assert InArray(from, stack, path, 0) == Lexer(from, Pushed(stack, false), false);
    NestTaken(text, Lexer(start, stack, false), '[', v.inner, SpansOfItems(v.items, from, path, 0), last, ']');
  }

  lemma CommaReads(text: string, at: nat, head: string, tail: string)
    requires Reads(text, at, head + ("," + tail))
    ensures Reads(text, at, head) && Reads(text, at + |head|, ",") && Reads(text, at + |head| + 1, tail)
    ensures Follows(text, at + |head|)
  {
    ReadsSplit(text, at, head, "," + tail);
    ReadsSplit(text, at + |head|, ",", tail);
    ReadsAt(text, at + |head|, ",", 0);
  }

  /** An item, the comma and the items after it. */
  lemma CommaTaken(text: string, l: Lexer, first: seq<Span>, next: Lexer, rest: seq<Span>, last: Lexer)
    requires Takes(text, l, first, next) && Reads(text, next.at, ",") && Takes(text, Comma(next), rest, last)
    ensures Takes(text, l, first + rest, last)
  {
    MarkTaken(text, next, ',', Comma(next));
    Loud(text, l, first, next, Comma(next));
    Then(text, l, first, Comma(next), rest, last);
  }

  function InArray(at: nat, base: seq<Frame>, path: string, k: nat): Lexer {
    Lexer(at, base + [Frame(false, path, "", k)], false)
  }

  /** An item of an array, at the place its index names. */
  lemma {:induction false} ItemValue(text: string, at: nat, v: Json, base: seq<Frame>, path: string, k: nat)
    requires WellFormed(v) && Reads(text, at, Print(v)) && Follows(text, at + |Print(v)|)
    ensures Takes(text, InArray(at, base, path, k), SpansOf(v, at, Child(path, Decimal(k))),
                  InArray(at + |Print(v)|, base, path, k))
    decreases v, 3
  {
    var stack := base + [Frame(false, path, "", k)];
    assert Current(stack) == Child(path, Decimal(k));
    ValueTaken(text, at, v, stack);
  }

  lemma {:induction false} ItemsTaken(text: string, at: nat, items: Items, base: seq<Frame>, path: string, k: nat)
    requires WellFormedItems(items) && Reads(text, at, PrintItems(items)) && Follows(text, at + |PrintItems(items)|)
    ensures Takes(text, InArray(at, base, path, k), SpansOfItems(items, at, path, k),
                  InArray(at + |PrintItems(items)|, base, path, LastIndex(items, k)))
    decreases items, 1
  {
    if items.NoItems? {
      None(text, InArray(at, base, path, k));
    } else {
      ItemsUnfold(items, at, path, k);
      if items.tail.NoItems? {
        ItemValue(text, at, items.head, base, path, k);
      } else {
        assert LastIndex(items, k) == LastIndex(items.tail, k + 1);
        CommaReads(text, at, Print(items.head), PrintItems(items.tail));
        MoreItems(text, at, items, base, path, k);
      }
    }
  }

  lemma {:induction false} MoreItems(text: string, at: nat, items: Items, base: seq<Frame>, path: string, k: nat)
    requires items.Item? && items.tail.Item? && WellFormedItems(items)
    requires Reads(text, at, Print(items.head)) && Follows(text, at + |Print(items.head)|)
    requires Reads(text, at + |Print(items.head)|, ",") && Reads(text, at + |Print(items.head)| + 1,
                                                                 PrintItems(items.tail))
    requires Follows(text, at + |Print(items.head)| + 1 + |PrintItems(items.tail)|)
    ensures Takes(text, InArray(at, base, path, k),
                  SpansOf(items.head, at, Child(path, Decimal(k))) + SpansOfItems(items.tail, at + |Print(items.head)| + 1, path, k + 1),
                  InArray(at + |Print(items.head)| + 1 + |PrintItems(items.tail)|, base, path,
                          LastIndex(items.tail, k + 1)))
    decreases items, 0
  {
    var comma := at + |Print(items.head)|;
    ItemValue(text, at, items.head, base, path, k);
    ItemsTaken(text, comma + 1, items.tail, base, path, k + 1);
    ItemTaken(text, at, base, path, k, SpansOf(items.head, at, Child(path, Decimal(k))), comma,
              SpansOfItems(items.tail, comma + 1, path, k + 1),
              InArray(comma + 1 + |PrintItems(items.tail)|, base, path, LastIndex(items.tail, k + 1)));
  }

  /** An item up to the comma, and the items after it at the next index. */
  lemma ItemTaken(text: string, at: nat, base: seq<Frame>, path: string, k: nat, first: seq<Span>, comma: nat,
                  rest: seq<Span>, last: Lexer)
    requires Takes(text, InArray(at, base, path, k), first, InArray(comma, base, path, k)) && Reads(text, comma, ",")
    requires Takes(text, InArray(comma + 1, base, path, k + 1), rest, last)
    ensures Takes(text, InArray(at, base, path, k), first + rest, last)
  {
    assert Comma(InArray(comma, base, path, k)) == InArray(comma + 1, base, path, k + 1);
    CommaTaken(text, InArray(at, base, path, k), first, InArray(comma, base, path, k), rest, last);
  }

  lemma {:induction false} ObjectTaken(text: string, at: nat, v: Json, stack: seq<Frame>)
    requires v.Object? && WellFormed(v) && Reads(text, at, Print(v))
    ensures Takes(text, Lexer(at, stack, false), SpansOf(v, at, Current(stack)), Lexer(at + |Print(v)|, stack, false))
    decreases v, 1
  {
    var Object(pre, inner, members, post) := v;
    NestReads(text, at, pre, "{", inner, PrintMembers(members), "}", post);
    var l, end := Lexer(at + |pre|, stack, false), at + |pre| + 2 + |inner| + |PrintMembers(members)|;
    BracesTaken(text, at + |pre|, v, stack);
    Padded(text, Lexer(at, stack, false), pre, SpansOf(v, at, Current(stack)), l.(at := end), post);
  }

  lemma {:induction false} BracesTaken(text: string, start: nat, v: Json, stack: seq<Frame>)
    requires v.Object? && WellFormed(v) && Reads(text, start, "{") && Reads(text, start + 1, v.inner)
    requires Reads(text, start + 1 + |v.inner|, PrintMembers(v.members))
    requires Reads(text, start + 1 + |v.inner| + |PrintMembers(v.members)|, "}")
    ensures Takes(text, Lexer(start, stack, false), SpansOfMembers(v.members, start + 1 + |v.inner|, Current(stack)),
                  Lexer(start + 2 + |v.inner| + |PrintMembers(v.members)|, stack, false))
    decreases v, 0
  {
    var from, path := start + 1 + |v.inner|, Current(stack);
    var last := InObject(from + |PrintMembers(v.members)|, stack, path, LastKey(v.members, ""), v.members.NoMembers?);
    ReadsAt(text, last.at, "}", 0);
    MembersTaken(text, from, v.members, stack, path, "");
    assert InObject(from, stack, path, "", true) == Lexer(from, Pushed(stack, true), true);
    NestTaken(text, Lexer(start, stack, false), '{', v.inner, SpansOfMembers(v.members, from, path), last, '}');
  }

  lemma KeyReads(text: string, at: nat, pre: string, raw: string, mid: string, rest: string)
    requires Reads(text, at, pre + (Quoted(raw) + (mid + (":" + rest))))
    ensures Reads(text, at, pre) && Reads(text, at + |pre|, Quoted(raw))
    ensures Reads(text, at + |pre| + |Quoted(raw)|, mid) && Reads(text, at + |pre| + |Quoted(raw)| + |mid|, ":")
    ensures Reads(text, at + |pre| + |Quoted(raw)| + |mid| + 1, rest)
  {
    ReadsSplit(text, at, pre, Quoted(raw) + (mid + (":" + rest)));
    ReadsSplit(text, at + |pre|, Quoted(raw), mid + (":" + rest));
    ReadsSplit(text, at + |pre| + |Quoted(raw)|, mid, ":" + rest);
    ReadsSplit(text, at + |pre| + |Quoted(raw)| + |mid|, ":", rest);
  }

  function InObject(at: nat, base: seq<Frame>, path: string, key: string, expectKey: bool): Lexer {
    Lexer(at, base + [Frame(true, path, key, 0)], expectKey)
  }

  /** The key of a member, up to its value. */
  lemma KeyTaken(text: string, at: nat, pre: string, raw: string, mid: string, base: seq<Frame>, path: string,
                 key: string)
    requires Blank(pre) && RawOk(raw) && Blank(mid)
    requires Reads(text, at, pre) && Reads(text, at + |pre|, Quoted(raw))
    requires Reads(text, at + |pre| + |Quoted(raw)|, mid) && Reads(text, at + |pre| + |Quoted(raw)| + |mid|, ":")
    ensures Takes(text, InObject(at, base, path, key, true), KeySpans(at + |pre|, raw, path),
                  InObject(at + |pre| + |Quoted(raw)| + |mid| + 1, base, path, Unescaped(raw), false))
  {
    var l := InObject(at, base, path, key, true);
    var quote := InObject(at + |pre|, base, path, key, true);
    var named := InObject(quote.at + |Quoted(raw)|, base, path, Unescaped(raw), false);
    var colon := named.(at := named.at + |mid|);
    var end := named.(at := colon.at + 1);
    var out := KeySpans(at + |pre|, raw, path);
    Gap(text, l, pre);
    assert Takes(text, quote, out, named) by {
      StringTaken(text, quote, raw);
      assert Named(quote, raw) == named;
      assert Current(named.stack) == Child(path, PointerToken(Unescaped(raw)));
    }
    Quiet(text, l, quote, out, named);
    Gap(text, named, mid);
    MarkTaken(text, colon, ':', end);
    Quiet(text, named, colon, [], end);
    Loud(text, l, out, named, end);
  }

  /** A key, its value and what comes after the value. */
  lemma MemberTaken(text: string, at: nat, pre: string, raw: string, mid: string, base: seq<Frame>, path: string,
                    key: string,
                    out: seq<Span>, last: Lexer)
    requires Blank(pre) && RawOk(raw) && Blank(mid)
    requires Reads(text, at, pre) && Reads(text, at + |pre|, Quoted(raw))
    requires Reads(text, at + |pre| + |Quoted(raw)|, mid) && Reads(text, at + |pre| + |Quoted(raw)| + |mid|, ":")
    requires Takes(text, InObject(at + |pre| + |Quoted(raw)| + |mid| + 1, base, path, Unescaped(raw), false), out, last)
    ensures Takes(text, InObject(at, base, path, key, true), KeySpans(at + |pre|, raw, path) + out, last)
  {
    KeyTaken(text, at, pre, raw, mid, base, path, key);
    Then(text, InObject(at, base, path, key, true), KeySpans(at + |pre|, raw, path),
         InObject(at + |pre| + |Quoted(raw)| + |mid| + 1, base, path, Unescaped(raw), false), out, last);
  }

  /** The value of a member, at the place its key names. */
  lemma {:induction false} MemberValue(text: string, at: nat, v: Json, base: seq<Frame>, path: string, name: string)
    requires WellFormed(v) && Reads(text, at, Print(v)) && Follows(text, at + |Print(v)|)
    ensures Takes(text, InObject(at, base, path, name, false), SpansOf(v, at, Child(path, PointerToken(name))),
                  InObject(at + |Print(v)|, base, path, name, false))
    decreases v, 3
  {
    var stack := base + [Frame(true, path, name, 0)];
    assert Current(stack) == Child(path, PointerToken(name));
    ValueTaken(text, at, v, stack);
  }

  /** A key, its value and the members after it. */
  lemma {:induction false} MembersTaken(text: string, at: nat, members: Members, base: seq<Frame>, path: string,
                                        key: string)
    requires WellFormedMembers(members) && Reads(text, at, PrintMembers(members))
    requires Follows(text, at + |PrintMembers(members)|)
    ensures Takes(text, InObject(at, base, path, key, true), SpansOfMembers(members, at, path),
                  InObject(at + |PrintMembers(members)|, base, path, LastKey(members, key), members.NoMembers?))
    decreases members, 2
  {
    if members.NoMembers? {
      None(text, InObject(at, base, path, key, true));
    } else if members.tail.NoMembers? {
      LastMember(text, at, members, base, path, key);
    } else {
      var after := at + |members.pre| + |Quoted(members.key)| + |members.mid| + 1;
      MembersUnfold(members, at, path, after, Child(path, PointerToken(Unescaped(members.key))));
      assert LastKey(members, key) == LastKey(members.tail, Unescaped(members.key));
      MoreMembers(text, at, members, base, path, key, after);
    }
  }

  lemma {:induction false} LastMember(text: string, at: nat, m: Members, base: seq<Frame>, path: string, key: string)
    requires m.Member? && m.tail.NoMembers? && WellFormedMembers(m) && Reads(text, at, PrintMembers(m))
    requires Follows(text, at + |PrintMembers(m)|)
    ensures Takes(text, InObject(at, base, path, key, true), SpansOfMembers(m, at, path),
                  InObject(at + |PrintMembers(m)|, base, path, LastKey(m, key), false))
    decreases m, 0
  {
    var name, after := Unescaped(m.key), at + |m.pre| + |Quoted(m.key)| + |m.mid| + 1;
    MembersUnfold(m, at, path, after, Child(path, PointerToken(name)));
    assert LastKey(m, key) == LastKey(m.tail, name) == name;
    KeyReads(text, at, m.pre, m.key, m.mid, Print(m.value));
    MemberValue(text, after, m.value, base, path, name);
    MemberTaken(text, at, m.pre, m.key, m.mid, base, path, key,
                SpansOf(m.value, after, Child(path, PointerToken(name))),
                InObject(after + |Print(m.value)|, base, path, name, false));
  }

  lemma {:induction false} MoreMembers(text: string, at: nat, m: Members, base: seq<Frame>, path: string, key: string,
                                       after: nat)
    requires m.Member? && m.tail.Member? && WellFormedMembers(m) && Reads(text, at, PrintMembers(m))
    requires after == at + |m.pre| + |Quoted(m.key)| + |m.mid| + 1
    requires Follows(text, after + |Print(m.value)| + 1 + |PrintMembers(m.tail)|)
    ensures Takes(text, InObject(at, base, path, key, true), KeySpans(at + |m.pre|, m.key, path)
                  + (SpansOf(m.value, after, Child(path, PointerToken(Unescaped(m.key))))
                     + SpansOfMembers(m.tail, after + |Print(m.value)| + 1, path)),
                  InObject(after + |Print(m.value)| + 1 + |PrintMembers(m.tail)|, base, path,
                           LastKey(m.tail, Unescaped(m.key)), false))
    decreases m, 1
  {
    var name := Unescaped(m.key);
    KeyReads(text, at, m.pre, m.key, m.mid, Print(m.value) + ("," + PrintMembers(m.tail)));
    ValueAndTail(text, after, m, base, path, name);
    WholeMember(text, at, m, base, path, key, after,
                SpansOf(m.value, after, Child(path, PointerToken(name))) + SpansOfMembers(m.tail, after + |Print(m.value)| + 1, path),
                InObject(after + |Print(m.value)| + 1 + |PrintMembers(m.tail)|, base, path, LastKey(m.tail, name),
                         false));
  }

  /** The key of a member in front of what its value and the members after it give. */
  lemma WholeMember(text: string, at: nat, m: Members, base: seq<Frame>, path: string, key: string,
                    after: nat, out: seq<Span>, last: Lexer)
    requires m.Member? && Blank(m.pre) && RawOk(m.key) && Blank(m.mid)
    requires Reads(text, at, m.pre) && Reads(text, at + |m.pre|, Quoted(m.key))
    requires Reads(text, at + |m.pre| + |Quoted(m.key)|, m.mid)
             && Reads(text, at + |m.pre| + |Quoted(m.key)| + |m.mid|, ":")
    requires after == at + |m.pre| + |Quoted(m.key)| + |m.mid| + 1
    requires Takes(text, InObject(after, base, path, Unescaped(m.key), false), out, last)
    ensures Takes(text, InObject(at, base, path, key, true), KeySpans(at + |m.pre|, m.key, path) + out, last)
  {
    MemberTaken(text, at, m.pre, m.key, m.mid, base, path, key, out, last);
  }

  lemma {:induction false} ValueAndTail(text: string, at: nat, m: Members, base: seq<Frame>, path: string, name: string)
    requires m.Member? && m.tail.Member? && WellFormedMembers(m)
    requires Reads(text, at, Print(m.value) + ("," + PrintMembers(m.tail)))
    requires Follows(text, at + |Print(m.value)| + 1 + |PrintMembers(m.tail)|)
    ensures Takes(text, InObject(at, base, path, name, false),
                  SpansOf(m.value, at, Child(path, PointerToken(name))) + SpansOfMembers(m.tail, at + |Print(m.value)| + 1, path),
                  InObject(at + |Print(m.value)| + 1 + |PrintMembers(m.tail)|, base, path, LastKey(m.tail, name),
                           false))
    decreases m, 0
  {
    var comma := at + |Print(m.value)|;
    CommaReads(text, at, Print(m.value), PrintMembers(m.tail));
    MemberValue(text, at, m.value, base, path, name);
    MembersTaken(text, comma + 1, m.tail, base, path, name);
    ValueThen(text, at, base, path, name, SpansOf(m.value, at, Child(path, PointerToken(name))), comma,
              SpansOfMembers(m.tail, comma + 1, path),
              InObject(comma + 1 + |PrintMembers(m.tail)|, base, path, LastKey(m.tail, name), false));
  }

  /** A value up to the comma, and the members after it. */
  lemma ValueThen(text: string, at: nat, base: seq<Frame>, path: string, key: string, first: seq<Span>, comma: nat,
                  rest: seq<Span>, last: Lexer)
    requires Takes(text, InObject(at, base, path, key, false), first, InObject(comma, base, path, key, false))
    requires Reads(text, comma, ",") && Takes(text, InObject(comma + 1, base, path, key, true), rest, last)
    ensures Takes(text, InObject(at, base, path, key, false), first + rest, last)
  {
    assert Comma(InObject(comma, base, path, key, false)) == InObject(comma + 1, base, path, key, true);
    CommaTaken(text, InObject(at, base, path, key, false), first, InObject(comma, base, path, key, false), rest, last);
  }

  /** Every key, string and bare value of a document gets a span over exactly its text, with its JSON pointer. */
  lemma DocumentPointers(v: Json)
    requires WellFormed(v)
    ensures SpansFrom(Print(v), START) == SpansOf(v, 0, "")
  {
    var text := Print(v);
    ReadsAll(text);
    ValueTaken(text, 0, v, []);
    LeftIs(text, START);
    LeftIs(text, Lexer(|text|, [], false));
  }

  /** An offset inside a key, string or bare value is located by the pointer of its place. */
  lemma PointerAt(v: Json, offset: nat, i: nat)
    requires WellFormed(v) && i < |SpansOf(v, 0, "")| && Covers(SpansOf(v, 0, "")[i], offset)
    ensures Nearest(SpansFrom(Print(v), START), offset) == SpansOf(v, 0, "")[i].locator
  {
    DocumentPointers(v);
    SpansOrdered(Print(v), START);
    NearestCovers(SpansOf(v, 0, ""), offset, i, |Print(v)|);
  }

  // ----- the tokens of a pointer

  /** RFC 6901, section 4: ~1 is a slash and ~0 a tilde. */
  function Evaluated(token: string): string {
    if token == [] then []
    else if token[0] == '~' && |token| >= 2 && (token[1] == '0' || token[1] == '1') then
      [if token[1] == '0' then '~' else '/'] + Evaluated(token[2..])
    else [token[0]] + Evaluated(token[1..])
  }

  /** A pointer token names its key, and holds no slash that would end it early. */
  lemma {:induction false} TokenNamesKey(key: string)
    ensures Evaluated(PointerToken(key)) == key
    ensures forall i :: 0 <= i < |PointerToken(key)| ==> PointerToken(key)[i] != '/'
  {
    if key != [] {
      TokenNamesKey(key[1..]);
      var head := if key[0] == '~' then "~0" else if key[0] == '/' then "~1" else [key[0]];
      var rest := PointerToken(key[1..]);
      assert PointerToken(key) == head + rest;
      assert (head + rest)[|head|..] == rest;
      assert key == [key[0]] + key[1..];
    }
  }

  // ----- when the key in a pointer is the key the document means

  /** What a one-letter escape stands for (RFC 8259, section 7). */
  function Meant(c: char): char {
    match c
    case 'b' => '\U{08}'
    case 'f' => '\U{0C}'
    case 'n' => '\n'
    case 'r' => '\r'
    case 't' => '\t'
    case _ => c
  }

  predicate IsLetterEscape(c: char) { c == 'b' || c == 'f' || c == 'n' || c == 'r' || c == 't' }

  predicate IsSelfEscape(c: char) { c == '"' || c == '\\' || c == '/' }

  /** Spelled as a JSON string: every escape is one of RFC 8259's. */
  predicate IsJsonString(raw: string) {
    raw == [] ||
    if raw[0] != '\\' then raw[0] != '"' && IsJsonString(raw[1..])
    else
      |raw| >= 2 &&
      if raw[1] == 'u' then |raw| >= 6 && Hexes(raw[2..6]) && IsJsonString(raw[6..])
      else (IsLetterEscape(raw[1]) || IsSelfEscape(raw[1])) && IsJsonString(raw[2..])
  }

  predicate Hexes(s: string) {
    forall i :: 0 <= i < |s| ==> '0' <= s[i] <= '9' || 'a' <= s[i] <= 'f' || 'A' <= s[i] <= 'F'
  }

  /** The string meant, unit giving the bytes that the four digits of an escape stand for. */
  function Decoded(raw: string, unit: string -> string): string
    requires IsJsonString(raw)
  {
    if raw == [] then []
    else if raw[0] != '\\' then [raw[0]] + Decoded(raw[1..], unit)
    else if raw[1] == 'u' then unit(raw[2..6]) + Decoded(raw[6..], unit)
    else [Meant(raw[1])] + Decoded(raw[2..], unit)
  }

  /** The only escapes are of a quote, a backslash and a slash. */
  predicate SelfEscapesOnly(raw: string)
    requires IsJsonString(raw)
  {
    raw == [] ||
    if raw[0] != '\\' then SelfEscapesOnly(raw[1..])
    else raw[1] != 'u' && IsSelfEscape(raw[1]) && SelfEscapesOnly(raw[2..])
  }

  lemma {:induction false} HexesUnescaped(raw: string, k: nat)
    requires k <= |raw| && Hexes(raw[..k]) && RawOk(raw[k..])
    ensures RawOk(raw) && |Unescaped(raw)| == k + |Unescaped(raw[k..])|
    decreases k
  {
    if k > 0 {
      var rest := raw[1..];
      assert raw[0] == raw[..k][0] && raw[0] != '\\' && raw[0] != '"';
      assert rest[..k - 1] == raw[..k][1..] && rest[k - 1..] == raw[k..];
      assert Hexes(rest[..k - 1]) by {
        assert forall i :: 0 < i < k ==> raw[..k][i] == rest[..k - 1][i - 1];
      }
      HexesUnescaped(rest, k - 1);
    } else {
      assert raw[k..] == raw;
    }
  }

  /** A JSON string is read whole, and dropping backslashes never makes it shorter than what it means. */
  lemma {:induction false} DecodedShorter(raw: string, unit: string -> string)
    requires IsJsonString(raw) && forall h :: |unit(h)| <= 4
    ensures RawOk(raw) && |Decoded(raw, unit)| <= |Unescaped(raw)|
    ensures raw != [] && raw[0] == '\\' && raw[1] == 'u' ==> |Decoded(raw, unit)| < |Unescaped(raw)|
    decreases |raw|
  {
    if raw == [] {
    } else if raw[0] != '\\' {
      DecodedShorter(raw[1..], unit);
    } else if raw[1] == 'u' {
      DecodedShorter(raw[6..], unit);
      assert raw[2..][..4] == raw[2..6] && raw[2..][4..] == raw[6..];
      HexesUnescaped(raw[2..], 4);
    } else {
      DecodedShorter(raw[2..], unit);
    }
  }

  /** The key a pointer carries is the key meant exactly when its escapes only spell quotes, backslashes and slashes. */
  lemma {:induction false} KeyMeantIff(raw: string, unit: string -> string)
    requires IsJsonString(raw) && forall h :: |unit(h)| <= 4
    ensures RawOk(raw) && (Unescaped(raw) == Decoded(raw, unit) <==> SelfEscapesOnly(raw))
    decreases |raw|
  {
    DecodedShorter(raw, unit);
    if raw == [] {
    } else if raw[0] != '\\' {
      KeyMeantIff(raw[1..], unit);
      assert Unescaped(raw)[1..] == Unescaped(raw[1..]) && Decoded(raw, unit)[1..] == Decoded(raw[1..], unit);
    } else if raw[1] != 'u' {
      KeyMeantIff(raw[2..], unit);
      assert Unescaped(raw)[1..] == Unescaped(raw[2..]) && Decoded(raw, unit)[1..] == Decoded(raw[2..], unit);
      assert Unescaped(raw)[0] == raw[1] && Decoded(raw, unit)[0] == Meant(raw[1]);
    }
  }

  lemma KeyRead(raw: string)
    requires raw == "a\\nb"
    ensures RawOk(raw) && Unescaped(raw) == "anb" && PointerToken("anb") == "anb"
  {
    assert raw[1..] == "\\nb" && raw[1..][2..] == "b" && "anb"[1..] == "nb" && "nb"[1..] == "b" && "b"[1..] == "";
    assert Unescaped("b") == "b" && Unescaped("\\nb") == "nb";
    assert PointerToken("b") == "b" && PointerToken("nb") == "nb";
  }

  lemma KeyMeans(raw: string, unit: string -> string)
    requires raw == "a\\nb"
    ensures IsJsonString(raw) && Decoded(raw, unit) == "a\nb" && PointerToken("a\nb") == "a\nb"
  {
    assert raw[1..] == "\\nb" && raw[1..][2..] == "b" && "a\nb"[1..] == "\nb" && "\nb"[1..] == "b" && "b"[1..] == "";
    assert Decoded("b", unit) == "b" && Decoded("\\nb", unit) == "\nb";
    assert PointerToken("b") == "b" && PointerToken("\nb") == "\nb";
  }

  function OneValue(): Json { Bare("", "1", "") }

  /** A document of one key and the value 1. */
  function OneKey(raw: string): Json { Object("", "", OneMember(raw), "") }

  function OneMember(raw: string): Members { Member("", raw, "", OneValue(), NoMembers) }

  lemma OneKeyPrinted(raw: string)
    ensures Print(OneKey(raw)) == "{" + Quoted(raw) + ":1}"
  {
    assert Print(OneValue()) == "1";
    assert PrintMembers(OneMember(raw)) == Quoted(raw) + ":1";
    assert Print(OneKey(raw)) == "{" + PrintMembers(OneMember(raw)) + "}";
    assert ":1" + "}" == ":1}";
  }

  lemma LastMemberSpans(m: Members, at: nat, path: string, place: string, after: nat)
    requires m.Member? && m.tail.NoMembers? && WellFormedMembers(m)
             && place == Child(path, PointerToken(Unescaped(m.key)))
    requires after == at + |m.pre| + |Quoted(m.key)| + |m.mid| + 1
    ensures SpansOfMembers(m, at, path)
         == [Span(at + |m.pre|, at + |m.pre| + |Quoted(m.key)|, place)] + SpansOf(m.value, after, place)
  {
    assert SpansOf(m.value, after, place) + [] == SpansOf(m.value, after, place);
  }

  lemma OneValueSpans(at: nat, place: string)
    ensures WellFormed(OneValue()) && SpansOf(OneValue(), at, place) == [Span(at, at + 1, place)]
  {
  }

  lemma OneMemberFormed(raw: string)
    requires RawOk(raw)
    ensures WellFormedMembers(OneMember(raw)) && |Quoted(raw)| == |raw| + 2
  {
    OneValueSpans(0, "");
  }

  lemma OneMemberSpans(raw: string, place: string, m: Members)
    requires m == OneMember(raw) && WellFormedMembers(m) && |Quoted(raw)| == |raw| + 2
    requires place == Child("", PointerToken(Unescaped(raw)))
    ensures SpansOfMembers(m, 1, "") == [Span(1, |raw| + 3, place), Span(|raw| + 4, |raw| + 5, place)]
  {
    LastMemberSpans(m, 1, "", place, |raw| + 4);
    OneValueSpans(|raw| + 4, place);
  }

  lemma OneKeySpans(raw: string)
    requires RawOk(raw) && WellFormedMembers(OneMember(raw))
    ensures WellFormed(OneKey(raw)) && SpansOf(OneKey(raw), 0, "") == SpansOfMembers(OneMember(raw), 1, "")
  {
  }

  lemma Located(doc: Json, spans: seq<Span>)
    requires WellFormed(doc) && SpansOf(doc, 0, "") == spans
    ensures SpansFrom(Print(doc), START) == spans
  {
    DocumentPointers(doc);
  }

  lemma OneKeyLocated(raw: string, place: string)
    requires RawOk(raw) && place == Child("", PointerToken(Unescaped(raw)))
    ensures SpansFrom(Print(OneKey(raw)), START) == [Span(1, |raw| + 3, place), Span(|raw| + 4, |raw| + 5, place)]
  {
    OneMemberFormed(raw);
    OneKeySpans(raw);
    OneMemberSpans(raw, place, OneMember(raw));
    Located(OneKey(raw), [Span(1, |raw| + 3, place), Span(|raw| + 4, |raw| + 5, place)]);
  }

  /** A key with an escape for a newline: the pointer given names another key than the one meant. */
  lemma NewlineKeyMisread(raw: string, unit: string -> string)
    requires raw == "a\\nb"
    ensures SpansFrom("{\"a\\nb\":1}", START) == [Span(1, 7, "/anb"), Span(8, 9, "/anb")]
    ensures IsJsonString(raw) && Decoded(raw, unit) == "a\nb" && Child("", PointerToken("a\nb")) == "/a\nb"
  {
    KeyRead(raw);
    KeyMeans(raw, unit);
    NewlineKeyText(raw);
    OneKeyLocated(raw, Child("", "anb"));
  }

  lemma NewlineKeyText(raw: string)
    requires raw == "a\\nb"
    ensures Print(OneKey(raw)) == "{\"a\\nb\":1}" && Child("", "anb") == "/anb" && Child("", "a\nb") == "/a\nb"
  {
    OneKeyPrinted(raw);
  }
}
