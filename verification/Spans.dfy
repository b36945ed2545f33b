/** Where the locators of a file hold: spans in the order of the text, searched by offset. */
module Spans {
  datatype Span = Span(begin: nat, end: nat, locator: string)

  /** Strictly increasing begins from lo on, none overlapping the next, none past the end of the text. */
  ghost predicate Ordered(spans: seq<Span>, lo: nat, size: nat) {
    && (forall i :: 0 <= i < |spans| ==> lo <= spans[i].begin <= spans[i].end <= size)
    && (forall i, j :: 0 <= i < j < |spans| ==> spans[i].end <= spans[j].begin && spans[i].begin < spans[j].begin)
  }

  /** Spans that end before the later ones begin go in front of them. */
  lemma OrderedJoin(a: seq<Span>, b: seq<Span>, lo: nat, mid: nat, size: nat)
    requires lo <= mid && Ordered(a, lo, size) && Ordered(b, mid, size)
    requires forall i :: 0 <= i < |a| ==> a[i].end <= mid && a[i].begin < mid
    ensures Ordered(a + b, lo, size)
  {
  }

  predicate Covers(s: Span, offset: nat) { s.begin <= offset < s.end }

  /** Keeps Reads folded until a proof opens it. */
  ghost predicate Open(t: int, at: nat, s: string) { true }

  /** The text has the piece s at a place. */
  ghost predicate Reads(text: string, at: nat, s: string) {
    at + |s| <= |text| && forall t {:trigger Open(t, at, s)} :: Open(t, at, s) ==> text[at..at + |s|] == s
  }

  lemma ReadsAt(text: string, at: nat, s: string, i: nat)
    requires Reads(text, at, s) && i < |s|
    ensures text[at + i] == s[i]
  {
    assert Open(0, at, s);
    assert text[at..at + |s|][i] == s[i];
  }

  lemma ReadsAll(text: string)
    ensures Reads(text, 0, text)
  {
    assert text[0..|text|] == text;
  }

  lemma ReadsSplit(text: string, at: nat, s: string, t: string)
    ensures Reads(text, at, s + t) <==> Reads(text, at, s) && Reads(text, at + |s|, t)
  {
    assert Open(0, at, s) && Open(0, at + |s|, t) && Open(0, at, s + t);
    if at + |s| + |t| <= |text| {
      var w := text[at..at + |s + t|];
      assert w[..|s|] == text[at..at + |s|];
      assert w[|s|..] == text[at + |s|..at + |s| + |t|];
      assert w == w[..|s|] + w[|s|..];
      assert (s + t)[..|s|] == s && (s + t)[|s|..] == t;
    }
  }

  predicate IsSpace(c: char) {
    c == ' ' || c == '\t' || c == '\n' || c == '\U{0B}' || c == '\U{0C}' || c == '\r'
  }

  /** White space is the space and what lies from the tab to the carriage return. */
  lemma IsSpaceIff(c: char)
    ensures IsSpace(c) <==> c as int == 32 || 9 <= c as int <= 13
  {
  }

  /** The first offset from at on that is past every span beginning at or before the offset. */
  method UpperBound(spans: seq<Span>, offset: nat) returns (k: nat)
    requires forall i, j :: 0 <= i < j < |spans| ==> spans[i].begin < spans[j].begin
    ensures k <= |spans|
    ensures forall i :: 0 <= i < k ==> spans[i].begin <= offset
    ensures forall i :: k <= i < |spans| ==> offset < spans[i].begin
  {
    var first: nat, count: nat := 0, |spans|;
    while count > 0
      invariant first + count <= |spans|
      invariant forall i :: 0 <= i < first ==> spans[i].begin <= offset
      invariant forall i :: first + count <= i < |spans| ==> offset < spans[i].begin
    {
      var half := count / 2;
      if offset < spans[first + half].begin {
        count := half;
      } else {
        first, count := first + half + 1, count - half - 1;
      }
    }
    k := first;
  }

  /** The locator a search from the front finds: of the last span beginning at or before the offset. */
  function Nearest(spans: seq<Span>, offset: nat): string {
    if spans == [] then ""
    else if spans[|spans| - 1].begin <= offset then spans[|spans| - 1].locator
    else Nearest(spans[..|spans| - 1], offset)
  }

  lemma {:induction false} NearestIs(spans: seq<Span>, offset: nat, k: nat)
    requires k <= |spans|
    requires k > 0 ==> spans[k - 1].begin <= offset
    requires forall i :: k <= i < |spans| ==> offset < spans[i].begin
    ensures Nearest(spans, offset) == if k == 0 then "" else spans[k - 1].locator
  {
    if k < |spans| {
      NearestIs(spans[..|spans| - 1], offset, k);
    }
  }

  /** A span over the offset is the one found. */
  lemma NearestCovers(spans: seq<Span>, offset: nat, i: nat, size: nat)
    requires Ordered(spans, 0, size) && i < |spans| && Covers(spans[i], offset)
    ensures Nearest(spans, offset) == spans[i].locator
  {
    assert forall j :: i + 1 <= j < |spans| ==> offset < spans[i].end <= spans[j].begin;
    NearestIs(spans, offset, i + 1);
  }

  method At(spans: seq<Span>, offset: nat) returns (locator: string)
    requires forall i, j :: 0 <= i < j < |spans| ==> spans[i].begin < spans[j].begin
    ensures locator == Nearest(spans, offset)
  {
    var after := UpperBound(spans, offset);
    NearestIs(spans, offset, after);
    if after == 0 {
      return "";
    }
    return spans[after - 1].locator;
  }
}
