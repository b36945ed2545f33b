/** Evaluating the pointer of a span in the document (RFC 6901) reaches the value the span covers. */
module JsonPointers {
  import opened Spans
  import opened JsonSpans
  import opened JsonDocuments

  // ----- array indices

  predicate AllDigits(s: string) { forall i :: 0 <= i < |s| ==> '0' <= s[i] <= '9' }

  /** Digits without a leading zero (RFC 6901, section 4). */
  predicate IsIndex(token: string) {
    token != [] && AllDigits(token) && (token[0] == '0' ==> |token| == 1)
  }

  /** The number its digits spell, from the left. */
  function Number(s: string): nat
    requires AllDigits(s)
  {
    if s == [] then 0 else 10 * Number(s[..|s| - 1]) + (s[|s| - 1] as nat - '0' as nat)
  }

  lemma DigitIs(n: nat)
    requires n < 10
    ensures '0' <= Digit(n) <= '9' && Digit(n) as nat == '0' as nat + n
  {
    assert n == 0 || n == 1 || n == 2 || n == 3 || n == 4 || n == 5 || n == 6 || n == 7 || n == 8 || n == 9;
  }

  /** A number is printed as its decimal digits. */
  lemma {:induction false} DecimalReads(n: nat)
    ensures IsIndex(Decimal(n)) && Number(Decimal(n)) == n && (Decimal(n)[0] == '0' ==> n == 0)
  {
    DigitIs(n % 10);
    if n < 10 {
      assert Number(Decimal(n)[..0]) == 0;
    } else {
      DecimalReads(n / 10);
      assert Decimal(n)[..|Decimal(n)| - 1] == Decimal(n / 10);
    }
  }

  // ----- evaluating a pointer

  predicate ItemIs(items: Items, k: nat, child: Json) {
    items.Item? && if k == 0 then items.head == child else ItemIs(items.tail, k - 1, child)
  }

  predicate HasMember(members: Members, raw: string, child: Json) {
    members.Member? && ((members.key == raw && members.value == child) || HasMember(members.tail, raw, child))
  }

  /** One token of a pointer: the item of that number, or the value of a member with that key. */
  ghost predicate StepsTo(v: Json, token: string, child: Json) {
    || (v.Array? && IsIndex(token) && ItemIs(v.items, Number(token), child))
    || (v.Object? && exists raw :: RawOk(raw) && Unescaped(raw) == Evaluated(token) && HasMember(v.members, raw, child))
  }

  /** Evaluating the pointer in v gives w. */
  ghost predicate Reaches(v: Json, pointer: string, w: Json)
    decreases |pointer|
  {
    || (pointer == [] && v == w)
    || exists token, rest, child :: pointer == "/" + token + rest && '/' !in token && StepsTo(v, token, child)
                                    && Reaches(child, rest, w)
  }

  /** The pointer leads to an object and on to its key spelled raw. */
  ghost predicate ReachesKey(v: Json, pointer: string, raw: string) {
    exists front, token, holder, child ::
      && pointer == Child(front, token) && '/' !in token && Reaches(v, front, holder) && holder.Object?
      && HasMember(holder.members, raw, child) && RawOk(raw) && Unescaped(raw) == Evaluated(token)
  }

  /** The pointer evaluates to what the piece of text spells: a bare value, a string, or a key. */
  ghost predicate Points(v: Json, pointer: string, piece: string) {
    || (exists w :: Reaches(v, pointer, w)
                    && ((w.Bare? && piece == w.token) || (w.Text? && piece == "\"" + w.raw + "\"")))
    || (exists raw :: ReachesKey(v, pointer, raw) && piece == "\"" + raw + "\"")
  }

  // ----- one step more

  /** Keeps Leads folded until a proof opens it. */
  ghost predicate Opened(t: int, pointer: string) { true }

  /** Reaches, folded. */
  ghost predicate Leads(root: Json, pointer: string, v: Json) {
    forall t {:trigger Opened(t, pointer)} :: Opened(t, pointer) ==> Reaches(root, pointer, v)
  }

  lemma {:induction false} ReachesOn(root: Json, path: string, v: Json, token: string, child: Json)
    requires Reaches(root, path, v) && StepsTo(v, token, child) && '/' !in token
    ensures Reaches(root, Child(path, token), child)
    decreases |path|
  {
    if path == [] && root == v {
      StepFirst(root, token, [], child, child);
    } else {
      var first, rest, next :| path == "/" + first + rest && '/' !in first && StepsTo(root, first, next)
                               && Reaches(next, rest, v);
      ReachesOn(next, rest, v, token, child);
      StepFirst(root, first, Child(rest, token), next, child);
      assert Child(path, token) == "/" + first + Child(rest, token);
    }
  }

  lemma StepFirst(root: Json, token: string, rest: string, next: Json, v: Json)
    requires StepsTo(root, token, next) && '/' !in token && Reaches(next, rest, v)
    ensures Reaches(root, "/" + token + rest, v)
    ensures rest == [] ==> "/" + token + rest == Child("", token)
  {
  }

  lemma LeadsOn(root: Json, path: string, v: Json, token: string, child: Json)
    requires Leads(root, path, v) && StepsTo(v, token, child) && '/' !in token
    ensures Leads(root, Child(path, token), child)
  {
    assert Opened(0, path);
    ReachesOn(root, path, v, token, child);
  }

  // ----- every span of a document

  /** Keeps Located folded until a proof opens it. */
  ghost predicate Listing(t: int, spans: seq<Span>) { true }

  ghost predicate Located(root: Json, text: string, spans: seq<Span>) {
    forall t {:trigger Listing(t, spans)} :: Listing(t, spans) ==>
      forall s :: s in spans ==> s.begin <= s.end <= |text| && Points(root, s.locator, text[s.begin..s.end])
  }

  lemma LocatedJoin(root: Json, text: string, a: seq<Span>, b: seq<Span>)
    requires Located(root, text, a) && Located(root, text, b)
    ensures Located(root, text, a + b)
  {
    assert Listing(0, a) && Listing(0, b);
    assert forall s :: s in a + b ==> s in a || s in b;
  }

  lemma OneLocated(root: Json, text: string, at: nat, piece: string, path: string)
    requires Reads(text, at, piece) && Points(root, path, piece)
    ensures Located(root, text, [Span(at, at + |piece|, path)])
  {
    assert Open(0, at, piece);
  }

  lemma ScalarPoints(root: Json, path: string, v: Json, piece: string)
    requires Leads(root, path, v) && ((v.Bare? && piece == v.token) || (v.Text? && piece == Quoted(v.raw)))
    ensures Points(root, path, piece)
  {
    assert Opened(0, path);
  }

  lemma KeyPoints(root: Json, path: string, v: Json, token: string, raw: string, child: Json)
    requires Leads(root, path, v) && v.Object? && HasMember(v.members, raw, child)
    requires RawOk(raw) && Unescaped(raw) == Evaluated(token) && '/' !in token
    ensures Points(root, Child(path, token), Quoted(raw))
  {
    assert Opened(0, path);
    assert ReachesKey(root, Child(path, token), raw);
  }

  lemma ScalarLocated(root: Json, text: string, v: Json, piece: string, at: nat, path: string)
    requires WellFormed(v) && Leads(root, path, v) && Reads(text, at, v.pre + (piece + v.post))
    requires (v.Bare? && piece == v.token) || (v.Text? && piece == Quoted(v.raw))
    ensures Located(root, text, SpansOf(v, at, path))
  {
    ScalarReads(text, at, v.pre, piece, v.post);
    ScalarPoints(root, path, v, piece);
    OneLocated(root, text, at + |v.pre|, piece, path);
  }

  lemma {:induction false} ValueLocated(root: Json, text: string, v: Json, at: nat, path: string)
    requires WellFormed(v) && Leads(root, path, v) && Reads(text, at, Print(v))
    ensures Located(root, text, SpansOf(v, at, path))
    decreases v, 1
  {
    match v
    case Bare(_, token, _) => ScalarLocated(root, text, v, token, at, path);
    case Text(_, raw, _) => ScalarLocated(root, text, v, Quoted(raw), at, path);
    case Array(_, _, _, _) => ArrayLocated(root, text, v, at, path);
    case Object(_, _, _, _) => ObjectLocated(root, text, v, at, path);
  }

  lemma {:induction false} ArrayLocated(root: Json, text: string, v: Json, at: nat, path: string)
    requires v.Array? && WellFormed(v) && Leads(root, path, v) && Reads(text, at, Print(v))
    ensures Located(root, text, SpansOf(v, at, path))
    decreases v, 0
  {
    NestReads(text, at, v.pre, "[", v.inner, PrintItems(v.items), "]", v.post);
    ItemsLocated(root, text, v, v.items, at + |v.pre| + 1 + |v.inner|, path, 0);
  }

  lemma {:induction false} ObjectLocated(root: Json, text: string, v: Json, at: nat, path: string)
    requires v.Object? && WellFormed(v) && Leads(root, path, v) && Reads(text, at, Print(v))
    ensures Located(root, text, SpansOf(v, at, path))
    decreases v, 0
  {
    NestReads(text, at, v.pre, "{", v.inner, PrintMembers(v.members), "}", v.post);
    MembersLocated(root, text, v, v.members, at + |v.pre| + 1 + |v.inner|, path);
  }

  /** The items from the k-th on. */
  ghost predicate ItemsFrom(v: Json, k: nat, items: Items) {
    v.Array? && forall j: nat, child :: ItemIs(items, j, child) ==> ItemIs(v.items, k + j, child)
  }

  lemma NextItems(v: Json, k: nat, items: Items)
    requires ItemsFrom(v, k, items) && items.Item?
    ensures ItemIs(v.items, k, items.head) && ItemsFrom(v, k + 1, items.tail)
  {
    assert ItemIs(items, 0, items.head);
    assert ItemIs(v.items, k + 0, items.head);
    forall j: nat, child | ItemIs(items.tail, j, child) ensures ItemIs(v.items, k + 1 + j, child) {
      assert ItemIs(items, j + 1, child);
      assert ItemIs(v.items, k + (j + 1), child);
    }
  }

  lemma ItemLeads(root: Json, path: string, v: Json, k: nat, child: Json)
    requires Leads(root, path, v) && v.Array? && ItemIs(v.items, k, child)
    ensures Leads(root, Child(path, Decimal(k)), child)
  {
    DecimalReads(k);
    LeadsOn(root, path, v, Decimal(k), child);
  }

  lemma {:induction false} ItemsLocated(root: Json, text: string, v: Json, items: Items, at: nat, path: string, k: nat)
    requires WellFormedItems(items) && Leads(root, path, v) && Reads(text, at, PrintItems(items))
    requires ItemsFrom(v, k, items)
    ensures Located(root, text, SpansOfItems(items, at, path, k))
    decreases items, 1
  {
    if items.Item? {
      NextItems(v, k, items);
      ItemLeads(root, path, v, k, items.head);
      ItemsUnfold(items, at, path, k);
      ItemAndTail(root, text, v, items, at, path, k, Child(path, Decimal(k)));
    }
  }

  lemma {:induction false} ItemAndTail(root: Json, text: string, v: Json, items: Items, at: nat, path: string, k: nat,
                                       place: string)
    requires items.Item? && WellFormedItems(items) && Leads(root, path, v) && Reads(text, at, PrintItems(items))
    requires ItemsFrom(v, k + 1, items.tail) && Leads(root, place, items.head)
    ensures Located(root, text, SpansOf(items.head, at, place)
                                + SpansOfItems(items.tail, at + |Print(items.head)| + 1, path, k + 1))
    decreases items, 0
  {
    var next := at + |Print(items.head)| + 1;
    if items.tail.Item? {
      CommaReads(text, at, Print(items.head), PrintItems(items.tail));
      ItemsLocated(root, text, v, items.tail, next, path, k + 1);
    }
    ValueLocated(root, text, items.head, at, place);
    LocatedJoin(root, text, SpansOf(items.head, at, place), SpansOfItems(items.tail, next, path, k + 1));
  }

  ghost predicate MembersOf(v: Json, m: Members) {
    v.Object? && forall raw, child :: HasMember(m, raw, child) ==> HasMember(v.members, raw, child)
  }

  lemma NextMembers(v: Json, m: Members)
    requires MembersOf(v, m) && m.Member?
    ensures HasMember(v.members, m.key, m.value) && MembersOf(v, m.tail)
  {
    assert HasMember(m, m.key, m.value);
    forall raw, child | HasMember(m.tail, raw, child) ensures HasMember(v.members, raw, child) {
      assert HasMember(m, raw, child);
    }
  }

  lemma MemberLeads(root: Json, path: string, v: Json, raw: string, child: Json, token: string)
    requires Leads(root, path, v) && v.Object? && HasMember(v.members, raw, child) && RawOk(raw)
    requires token == PointerToken(Unescaped(raw))
    ensures Leads(root, Child(path, token), child) && Points(root, Child(path, token), Quoted(raw))
  {
    TokenNamesKey(Unescaped(raw));
    LeadsOn(root, path, v, token, child);
    KeyPoints(root, path, v, token, raw, child);
  }

  /** What follows the key of a member. */
  function AfterKey(m: Members): string
    requires m.Member?
  {
    if m.tail.Member? then Print(m.value) + ("," + PrintMembers(m.tail)) else Print(m.value)
  }

  lemma MemberReads(text: string, at: nat, m: Members, after: nat)
    requires m.Member? && Reads(text, at, PrintMembers(m)) && after == at + |m.pre| + |Quoted(m.key)| + |m.mid| + 1
    ensures Reads(text, at + |m.pre|, Quoted(m.key)) && Reads(text, after, AfterKey(m))
  {
    KeyReads(text, at, m.pre, m.key, m.mid, AfterKey(m));
  }

  lemma {:induction false} MembersLocated(root: Json, text: string, v: Json, m: Members, at: nat, path: string)
    requires WellFormedMembers(m) && Leads(root, path, v) && Reads(text, at, PrintMembers(m)) && MembersOf(v, m)
    ensures Located(root, text, SpansOfMembers(m, at, path))
    decreases m, 1
  {
    if m.Member? {
      var token, after := PointerToken(Unescaped(m.key)), at + |m.pre| + |Quoted(m.key)| + |m.mid| + 1;
      var place := Child(path, token);
      NextMembers(v, m);
      MemberReads(text, at, m, after);
      MemberLeads(root, path, v, m.key, m.value, token);
      TailLocated(root, text, v, m, after, path, place);
      MemberLocated(root, text, m, at, path, after, token,
                    SpansOf(m.value, after, place) + SpansOfMembers(m.tail, after + |Print(m.value)| + 1, path));
    }
  }

  lemma MemberLocated(root: Json, text: string, m: Members, at: nat, path: string, after: nat, token: string,
                      rest: seq<Span>)
    requires m.Member? && WellFormedMembers(m) && Reads(text, at + |m.pre|, Quoted(m.key))
    requires after == at + |m.pre| + |Quoted(m.key)| + |m.mid| + 1 && token == PointerToken(Unescaped(m.key))
    requires rest == SpansOf(m.value, after, Child(path, token))
               + SpansOfMembers(m.tail, after + |Print(m.value)| + 1, path)
    requires Points(root, Child(path, token), Quoted(m.key)) && Located(root, text, rest)
    ensures Located(root, text, SpansOfMembers(m, at, path))
  {
    MembersUnfold(m, at, path, after, Child(path, token));
    KeyLocated(root, text, at + |m.pre|, m.key, path, token);
    LocatedJoin(root, text, KeySpans(at + |m.pre|, m.key, path), rest);
  }

  lemma KeyLocated(root: Json, text: string, start: nat, raw: string, path: string, token: string)
    requires RawOk(raw) && Reads(text, start, Quoted(raw)) && token == PointerToken(Unescaped(raw))
    requires Points(root, Child(path, token), Quoted(raw))
    ensures Located(root, text, KeySpans(start, raw, path))
  {
    OneLocated(root, text, start, Quoted(raw), Child(path, token));
  }

  lemma {:induction false} TailLocated(root: Json, text: string, v: Json, m: Members, after: nat, path: string,
                                       place: string)
    requires m.Member? && WellFormedMembers(m) && Leads(root, path, v) && MembersOf(v, m.tail)
    requires Leads(root, place, m.value)
    requires Reads(text, after, AfterKey(m))
    ensures Located(root, text, SpansOf(m.value, after, place)
                                + SpansOfMembers(m.tail, after + |Print(m.value)| + 1, path))
    decreases m, 0
  {
    if m.tail.Member? {
      CommaReads(text, after, Print(m.value), PrintMembers(m.tail));
      MembersLocated(root, text, v, m.tail, after + |Print(m.value)| + 1, path);
    }
    ValueLocated(root, text, m.value, after, place);
    LocatedJoin(root, text, SpansOf(m.value, after, place), SpansOfMembers(m.tail, after + |Print(m.value)| + 1, path));
  }

  /** The pointer of every span that the tokenizer finds in a document evaluates to what the span covers. */
  lemma SpansPoint(v: Json, s: Span)
    requires WellFormed(v) && s in SpansFrom(Print(v), START)
    ensures s.begin <= s.end <= |Print(v)| && Points(v, s.locator, Print(v)[s.begin..s.end])
  {
    DocumentPointers(v);
    ReadsAll(Print(v));
    ValueLocated(v, Print(v), v, 0, "");
    assert Listing(0, SpansOf(v, 0, ""));
  }
}
