/** The indexed leak search of one line, proved to report exactly the matches a double loop over entries
    and positions finds, each once. */
module LeakScan {
  import opened RawIdentifiers

  /** offset: in the original line. */
  datatype Hit = Hit(offset: nat, kind: IdKind)

  // ----- the reference: which entry matches where

  datatype Match = Match(entry: RawEntry, at: nat)

  predicate AllTokenChars(s: string) {
    forall i :: 0 <= i < |s| ==> IsTokenChar(s[i])
  }

  /** The needle starts at a non-separator and reads on in the line with case and separators dropped. */
  ghost predicate HexMatch(entries: seq<RawEntry>, line: string, m: Match) {
    && m.entry in entries && m.entry.mode == Hex
    && m.at < |line| && !IsSeparator(line[m.at])
    && m.entry.needle <= NormalisedHex(line[m.at..])
  }

  /** needle occurs at i and neither end splits a token. */
  predicate Anchored(low: string, needle: string, i: nat) {
    var len := |needle|;
    && 0 < len && i + len <= |low| && low[i..i + len] == needle
    && (!IsTokenChar(needle[0]) || i == 0 || !IsTokenChar(low[i - 1]))
    && (!IsTokenChar(needle[len - 1]) || i + len == |low| || !IsTokenChar(low[i + len]))
  }

  ghost predicate TokenMatch(entries: seq<RawEntry>, line: string, m: Match) {
    m.entry in entries && m.entry.mode == Token && Anchored(Lowered(line), m.entry.needle, m.at)
  }

  ghost predicate IsMatch(entries: seq<RawEntry>, line: string, m: Match) {
    HexMatch(entries, line, m) || TokenMatch(entries, line, m)
  }

  /** The hits of a list of matches, in order. */
  function HitsOf(who: seq<Match>): (hits: seq<Hit>)
    ensures |hits| == |who| && forall k :: 0 <= k < |who| ==> hits[k] == Hit(who[k].at, who[k].entry.kind)
  {
    seq(|who|, k requires 0 <= k < |who| => Hit(who[k].at, who[k].entry.kind))
  }

  // ----- the index

  /** The needles of one length. */
  datatype Bucket = Bucket(len: nat, needles: map<string, IdKind>)

  datatype Index = Index(hex: seq<Bucket>, single: map<string, IdKind>, multi: seq<Bucket>)

  /** Ordered by length, each bucket holding needles of its length. */
  ghost predicate ByLength(buckets: seq<Bucket>) {
    && (forall i, j :: 0 <= i < j < |buckets| ==> buckets[i].len < buckets[j].len)
    && (forall i, s :: 0 <= i < |buckets| && s in buckets[i].needles ==> |s| == buckets[i].len)
  }

  ghost predicate Holds(buckets: seq<Bucket>, s: string, kind: IdKind) {
    exists i :: 0 <= i < |buckets| && s in buckets[i].needles && buckets[i].needles[s] == kind
  }

  /** Adds a needle to the bucket of its length, opening one where needed. */
  method InsertNeedle(buckets: seq<Bucket>, needle: string, kind: IdKind) returns (r: seq<Bucket>)
    requires ByLength(buckets) && forall k :: !Holds(buckets, needle, k)
    ensures ByLength(r)
    ensures forall s, k :: Holds(r, s, k) <==> Holds(buckets, s, k) || (s == needle && k == kind)
  {
    var at := 0;
    while at < |buckets| && buckets[at].len < |needle|
      invariant at <= |buckets|
      invariant forall i :: 0 <= i < at ==> buckets[i].len < |needle|
    {
      at := at + 1;
    }
    if at < |buckets| && buckets[at].len == |needle| {
      assert needle !in buckets[at].needles by {
        if needle in buckets[at].needles { assert Holds(buckets, needle, buckets[at].needles[needle]); }
      }
      r := buckets[at := Bucket(|needle|, buckets[at].needles[needle := kind])];
      UpdatedHolds(buckets, r, at, needle, kind);
    } else {
      r := buckets[..at] + [Bucket(|needle|, map[needle := kind])] + buckets[at..];
      OpenedOrdered(buckets, r, at, needle, kind);
      OpenedHolds(buckets, r, at, needle, kind);
    }
  }

  lemma UpdatedHolds(buckets: seq<Bucket>, r: seq<Bucket>, at: nat, needle: string, kind: IdKind)
    requires at < |buckets| && needle !in buckets[at].needles
    requires r == buckets[at := Bucket(|needle|, buckets[at].needles[needle := kind])]
    ensures forall s, k :: Holds(r, s, k) <==> Holds(buckets, s, k) || (s == needle && k == kind)
  {
    forall s, k ensures Holds(r, s, k) <==> Holds(buckets, s, k) || (s == needle && k == kind) {
      if Holds(buckets, s, k) {
        var i :| 0 <= i < |buckets| && s in buckets[i].needles && buckets[i].needles[s] == k;
        assert s in r[i].needles && r[i].needles[s] == k;
      }
      if s == needle && k == kind {
        assert s in r[at].needles;
      }
      if Holds(r, s, k) {
        var i :| 0 <= i < |r| && s in r[i].needles && r[i].needles[s] == k;
        assert i != at ==> r[i] == buckets[i];
      }
    }
  }

  lemma OpenedOrdered(buckets: seq<Bucket>, r: seq<Bucket>, at: nat, needle: string, kind: IdKind)
    requires at <= |buckets|
    requires ByLength(buckets) && forall i :: 0 <= i < at ==> buckets[i].len < |needle|
    requires at < |buckets| ==> |needle| < buckets[at].len
    requires r == buckets[..at] + [Bucket(|needle|, map[needle := kind])] + buckets[at..]
    ensures ByLength(r)
  {
    assert forall i :: 0 <= i < at ==> r[i] == buckets[i];
    assert forall i :: at < i < |r| ==> r[i] == buckets[i - 1];
  }

  lemma OpenedHolds(buckets: seq<Bucket>, r: seq<Bucket>, at: nat, needle: string, kind: IdKind)
    requires at <= |buckets|
    requires r == buckets[..at] + [Bucket(|needle|, map[needle := kind])] + buckets[at..]
    ensures forall s, k :: Holds(r, s, k) <==> Holds(buckets, s, k) || (s == needle && k == kind)
  {
    forall s, k ensures Holds(r, s, k) <==> Holds(buckets, s, k) || (s == needle && k == kind) {
      if Holds(buckets, s, k) {
        var i :| 0 <= i < |buckets| && s in buckets[i].needles && buckets[i].needles[s] == k;
        assert r[if i < at then i else i + 1] == buckets[i];
      }
      if s == needle && k == kind {
        assert s in r[at].needles;
      }
      if Holds(r, s, k) {
        var i :| 0 <= i < |r| && s in r[i].needles && r[i].needles[s] == k;
        assert i < at ==> r[i] == buckets[i];
        assert i > at ==> r[i] == buckets[i - 1];
      }
    }
  }

  /** The index holds the entries, each in the part that searches for it. */
  ghost predicate Indexes(index: Index, entries: seq<RawEntry>) {
    && ByLength(index.hex) && ByLength(index.multi)
    && (forall s, k :: Holds(index.hex, s, k) <==> RawEntry(k, Hex, s) in entries)
    && (forall s, k :: (s in index.single && index.single[s] == k) <==> (RawEntry(k, Token, s) in entries && AllTokenChars(s)))
    && (forall s, k :: Holds(index.multi, s, k) <==> (RawEntry(k, Token, s) in entries && !AllTokenChars(s)))
  }

  method BuildIndex(entries: seq<RawEntry>) returns (index: Index)
    requires UniqueEntries(entries)
    ensures Indexes(index, entries)
  {
    index := Index([], map[], []);
    for i := 0 to |entries|
      invariant Indexes(index, entries[..i])
    {
      var e := entries[i];
      assert entries[..i + 1] == entries[..i] + [e];
      assert forall k :: RawEntry(k, e.mode, e.needle) !in entries[..i];
      if e.mode == Hex {
        var hex := InsertNeedle(index.hex, e.needle, e.kind);
        index := index.(hex := hex);
      } else if AllTokenChars(e.needle) {
        if e.needle !in index.single {
          index := index.(single := index.single[e.needle := e.kind]);
        } else {
          assert RawEntry(index.single[e.needle], Token, e.needle) in entries[..i];
        }
      } else {
        var multi := InsertNeedle(index.multi, e.needle, e.kind);
        index := index.(multi := multi);
      }
    }
    assert entries[..|entries|] == entries;
  }

  // ----- the order of the report

  /** Hex needles are searched first, then single tokens, then needles of several tokens. */
  function Part(e: RawEntry): nat {
    if e.mode == Hex then 0 else if AllTokenChars(e.needle) then 1 else 2
  }

  /** Within a part, shorter needles first. */
  predicate SearchedBefore(e: RawEntry, f: RawEntry) {
    Part(e) < Part(f) || (Part(e) == Part(f) && |e.needle| < |f.needle|)
  }

  predicate Before(m: Match, n: Match) {
    m.at < n.at || (m.at == n.at && SearchedBefore(m.entry, n.entry))
  }

  /** Matches at one offset come in the order of the search; so no match comes twice. */
  ghost predicate InSearchOrder(who: seq<Match>) {
    forall i, j :: 0 <= i < j < |who| ==> who[i].at != who[j].at || SearchedBefore(who[i].entry, who[j].entry)
  }

  /** Strictly sorted by offset, then by the order of the search. */
  ghost predicate InOrder(who: seq<Match>) {
    forall i, j :: 0 <= i < j < |who| ==> Before(who[i], who[j])
  }

  /** The hits are those of exactly the matches of the double loop, each once, in order. */
  ghost predicate Reports(hits: seq<Hit>, entries: seq<RawEntry>, line: string) {
    exists who :: Listed(hits, who) && InOrder(who) && (forall m :: m in who <==> IsMatch(entries, line, m))
  }

  predicate Listed(hits: seq<Hit>, who: seq<Match>) { hits == HitsOf(who) }

  lemma ReportUnique(a: seq<Hit>, b: seq<Hit>, entries: seq<RawEntry>, line: string)
    requires Reports(a, entries, line) && Reports(b, entries, line)
    ensures a == b
  {
    var v :| Listed(a, v) && InOrder(v) && (forall m :: m in v <==> IsMatch(entries, line, m));
    var w :| Listed(b, w) && InOrder(w) && (forall m :: m in w <==> IsMatch(entries, line, m));
    OrderUnique(v, w);
  }

  lemma {:induction false} OrderUnique(v: seq<Match>, w: seq<Match>)
    requires InOrder(v) && InOrder(w) && forall m :: m in v <==> m in w
    ensures v == w
  {
    if w != [] { assert w[0] in w; }
    if v != [] {
      assert v[0] in v;
      assert v[0] in w && w[0] in v;
      assert v[0] == w[0];
      forall m ensures m in v[1..] <==> m in w[1..] {
        if m in v[1..] {
          var i: nat :| i < |v[1..]| && v[1..][i] == m;
          assert v[1 + i] == m && Before(v[0], v[1 + i]);
          assert m in w;
        }
        if m in w[1..] {
          var i: nat :| i < |w[1..]| && w[1..][i] == m;
          assert w[1 + i] == m && Before(w[0], w[1 + i]);
          assert m in v;
        }
      }
      OrderUnique(v[1..], w[1..]);
    }
  }

  // ----- the normalised line and where its characters come from

  lemma {:induction false} NormalisedConcat(s: string, t: string)
    ensures NormalisedHex(s + t) == NormalisedHex(s) + NormalisedHex(t)
  {
    if s == [] {
      assert s + t == t;
    } else {
      assert (s + t)[1..] == s[1..] + t;
      NormalisedConcat(s[1..], t);
    }
  }

  /** Where the characters from j on stand in the normalised line. */
  function NormIndex(line: string, j: nat): nat
    requires j <= |line|
  {
    |NormalisedHex(line[..j])|
  }

  lemma NormalisedTail(line: string, j: nat)
    requires j <= |line|
    ensures NormIndex(line, j) <= |NormalisedHex(line)|
    ensures NormalisedHex(line[j..]) == NormalisedHex(line)[NormIndex(line, j)..]
  {
    NormalisedConcat(line[..j], line[j..]);
    assert line[..j] + line[j..] == line;
  }

  /** origin[p] is the place in the line of the normalised character p, for the first i characters. */
  ghost predicate Originates(line: string, i: nat, norm: string, origin: seq<nat>) {
    && i <= |line| && norm == NormalisedHex(line[..i]) && |origin| == |norm|
    && (forall p :: 0 <= p < |origin| ==>
          origin[p] < i && !IsSeparator(line[origin[p]]) && NormIndex(line, origin[p]) == p)
    && (forall j :: 0 <= j < i && !IsSeparator(line[j]) ==>
          NormIndex(line, j) < |origin| && origin[NormIndex(line, j)] == j)
  }

  method Normalise(line: string) returns (norm: string, origin: seq<nat>)
    ensures Originates(line, |line|, norm, origin)
  {
    norm, origin := [], [];
    for i := 0 to |line|
      invariant Originates(line, i, norm, origin)
    {
      assert line[..i + 1] == line[..i] + [line[i]];
      NormalisedConcat(line[..i], [line[i]]);
      assert NormIndex(line, i) == |norm|;
      if !IsSeparator(line[i]) {
        assert NormalisedHex([line[i]]) == [Lower(line[i])];
        norm := norm + [Lower(line[i])];
        origin := origin + [i];
      } else {
        assert NormalisedHex([line[i]]) == [];
      }
    }
    assert line[..|line|] == line;
  }

  // ----- the hex needles

  /** The window at i of the normalised line is a needle of the bucket. */
  ghost predicate HexAt(b: Bucket, norm: string, origin: seq<nat>, i: nat, m: Match) {
    && i + b.len <= |norm| && i < |origin| && m.at == origin[i] && norm[i..i + b.len] in b.needles
    && m.entry == RawEntry(b.needles[norm[i..i + b.len]], Hex, norm[i..i + b.len])
  }

  ghost predicate InHexBucket(b: Bucket, norm: string, origin: seq<nat>, end: nat, m: Match) {
    exists i: nat :: i < end && HexAt(b, norm, origin, i, m)
  }

  ghost predicate InHexBuckets(buckets: seq<Bucket>, k: nat, norm: string, origin: seq<nat>, m: Match) {
    exists j: nat :: j < k <= |buckets| && InHexBucket(buckets[j], norm, origin, |norm|, m)
  }

  ghost predicate Apart(who: seq<Match>) { forall x, y :: 0 <= x < y < |who| ==> who[x].at != who[y].at }

  method ScanHexBucket(b: Bucket, norm: string, origin: seq<nat>) returns (hits: seq<Hit>, ghost who: seq<Match>)
    requires b.len <= |norm| == |origin|
    requires forall s :: s in b.needles ==> |s| == b.len > 0
    requires forall p, q :: 0 <= p < q < |origin| ==> origin[p] != origin[q]
    ensures Listed(hits, who) && Apart(who)
    ensures forall m :: m in who <==> InHexBucket(b, norm, origin, |norm|, m)
  {
    hits, who := [], [];
    var i := 0;
    while i + b.len <= |norm|
      invariant i + b.len <= |norm| + 1
      invariant Listed(hits, who) && Apart(who)
      invariant forall m :: m in who <==> InHexBucket(b, norm, origin, i, m)
    {
      var window := norm[i..i + b.len];
      if window in b.needles {
        ghost var m := Match(RawEntry(b.needles[window], Hex, window), origin[i]);
        forall x | 0 <= x < |who| ensures who[x].at != m.at {
          assert who[x] in who;
        }
        hits := hits + [Hit(origin[i], b.needles[window])];
        who := who + [m];
        assert HexAt(b, norm, origin, i, m);
      }
      i := i + 1;
    }
  }

  lemma HexHeld(entries: seq<RawEntry>, index: Index, e: RawEntry)
    requires Indexes(index, entries)
    ensures e in entries && e.mode == Hex <==> e.mode == Hex && Holds(index.hex, e.needle, e.kind)
  {
    assert e.mode == Hex ==> e == RawEntry(e.kind, Hex, e.needle);
  }

  /** A needle read in the normalised line is a needle read on from the place it comes from. */
  lemma HexWindow(line: string, norm: string, at: nat, len: nat)
    requires norm == NormalisedHex(line) && at <= |line|
    ensures NormIndex(line, at) + len <= |norm| <==> len <= |NormalisedHex(line[at..])|
    ensures NormIndex(line, at) + len <= |norm| ==>
              norm[NormIndex(line, at)..NormIndex(line, at) + len] == NormalisedHex(line[at..])[..len]
  {
    NormalisedTail(line, at);
  }

  /** The needle reads on from m.at, whatever the entries are. */
  ghost predicate HexReads(line: string, m: Match) {
    m.at < |line| && !IsSeparator(line[m.at]) && m.entry.needle <= NormalisedHex(line[m.at..])
  }

  lemma WindowReads(b: Bucket, line: string, norm: string, origin: seq<nat>, i: nat, m: Match)
    requires Originates(line, |line|, norm, origin) && norm == NormalisedHex(line)
    requires HexAt(b, norm, origin, i, m)
    ensures HexReads(line, m)
  {
    HexWindow(line, norm, m.at, b.len);
  }

  lemma ReadsWindow(b: Bucket, line: string, norm: string, origin: seq<nat>, m: Match)
    requires Originates(line, |line|, norm, origin) && norm == NormalisedHex(line)
    requires HexReads(line, m) && |m.entry.needle| == b.len > 0
    requires m.entry.needle in b.needles && m.entry == RawEntry(b.needles[m.entry.needle], Hex, m.entry.needle)
    ensures HexAt(b, norm, origin, NormIndex(line, m.at), m)
  {
    HexWindow(line, norm, m.at, b.len);
    assert NormalisedHex(line[m.at..])[..b.len] == m.entry.needle;
  }

  lemma HexFoundSound(entries: seq<RawEntry>, index: Index, line: string, norm: string, origin: seq<nat>, m: Match)
    requires Indexes(index, entries) && Originates(line, |line|, norm, origin) && norm == NormalisedHex(line)
    requires InHexBuckets(index.hex, |index.hex|, norm, origin, m)
    ensures HexMatch(entries, line, m)
  {
    var j: nat :| j < |index.hex| && InHexBucket(index.hex[j], norm, origin, |norm|, m);
    var i: nat :| i < |norm| && HexAt(index.hex[j], norm, origin, i, m);
    assert Holds(index.hex, m.entry.needle, m.entry.kind);
    HexHeld(entries, index, m.entry);
    WindowReads(index.hex[j], line, norm, origin, i, m);
  }

  lemma HexFoundComplete(entries: seq<RawEntry>, index: Index, line: string, norm: string, origin: seq<nat>, m: Match)
    requires Indexes(index, entries) && Originates(line, |line|, norm, origin) && norm == NormalisedHex(line)
    requires HexMatch(entries, line, m) && m.entry.needle != []
    ensures InHexBuckets(index.hex, |index.hex|, norm, origin, m)
  {
    HexHeld(entries, index, m.entry);
    var s := m.entry.needle;
    var j: nat :| j < |index.hex| && s in index.hex[j].needles && index.hex[j].needles[s] == m.entry.kind;
    ReadsWindow(index.hex[j], line, norm, origin, m);
    assert InHexBucket(index.hex[j], norm, origin, |norm|, m);
  }

  /** The matches of the buckets before k, bucket by bucket. */
  ghost predicate HexListed(buckets: seq<Bucket>, k: nat, norm: string, origin: seq<nat>, who: seq<Match>) {
    && k <= |buckets| && InSearchOrder(who)
    && (forall m :: m in who <==> InHexBuckets(buckets, k, norm, origin, m))
  }

  lemma HexListedGrows(buckets: seq<Bucket>, k: nat, norm: string, origin: seq<nat>, who: seq<Match>, more: seq<Match>)
    requires ByLength(buckets) && k < |buckets| && HexListed(buckets, k, norm, origin, who) && Apart(more)
    requires forall m :: m in more <==> InHexBucket(buckets[k], norm, origin, |norm|, m)
    ensures HexListed(buckets, k + 1, norm, origin, who + more)
  {
    forall m ensures m in who + more <==> InHexBuckets(buckets, k + 1, norm, origin, m) {
      assert m in who + more <==> m in who || m in more;
    }
    var all := who + more;
    forall x, y | 0 <= x < |who| <= y < |all| ensures SearchedBefore(all[x].entry, all[y].entry) {
      assert all[x] in who && all[y] in more;
      var j: nat :| j < k && InHexBucket(buckets[j], norm, origin, |norm|, all[x]);
      assert buckets[j].len < buckets[k].len;
    }
    forall x, y | 0 <= x < y < |all| ensures all[x].at != all[y].at || SearchedBefore(all[x].entry, all[y].entry) {
    }
  }

  /** A bucket with needles longer than the normalised line, and those after it, hold no match. */
  lemma HexRestEmpty(buckets: seq<Bucket>, k: nat, norm: string, origin: seq<nat>, m: Match)
    requires ByLength(buckets) && k <= |buckets| && (k < |buckets| ==> buckets[k].len > |norm|)
    ensures InHexBuckets(buckets, k, norm, origin, m) <==> InHexBuckets(buckets, |buckets|, norm, origin, m)
  {
    assert forall j :: k < j < |buckets| ==> buckets[k].len < buckets[j].len;
  }

  method ScanHexBuckets(buckets: seq<Bucket>, norm: string, origin: seq<nat>)
    returns (hits: seq<Hit>, ghost who: seq<Match>)
    requires ByLength(buckets) && |norm| == |origin|
    requires forall i, s :: 0 <= i < |buckets| && s in buckets[i].needles ==> s != []
    requires forall p, q :: 0 <= p < q < |origin| ==> origin[p] != origin[q]
    ensures Listed(hits, who) && HexListed(buckets, |buckets|, norm, origin, who)
  {
    hits, who := [], [];
    var k := 0;
    while k < |buckets| && buckets[k].len <= |norm|
      invariant Listed(hits, who) && HexListed(buckets, k, norm, origin, who)
    {
      var more, whoMore := ScanHexBucket(buckets[k], norm, origin);
      HexListedGrows(buckets, k, norm, origin, who, whoMore);
      hits, who := hits + more, who + whoMore;
      k := k + 1;
    }
    forall m ensures InHexBuckets(buckets, k, norm, origin, m) <==> InHexBuckets(buckets, |buckets|, norm, origin, m) {
      HexRestEmpty(buckets, k, norm, origin, m);
    }
  }

  method ScanHex(index: Index, line: string, ghost entries: seq<RawEntry>)
    returns (hits: seq<Hit>, ghost who: seq<Match>)
    requires Indexes(index, entries) && forall e :: e in entries ==> e.needle != []
    ensures Listed(hits, who) && InSearchOrder(who)
    ensures forall m :: m in who <==> HexMatch(entries, line, m)
  {
    var norm, origin := Normalise(line);
    assert line[..|line|] == line;
    forall i, s | 0 <= i < |index.hex| && s in index.hex[i].needles ensures s != [] {
      assert Holds(index.hex, s, index.hex[i].needles[s]);
      assert RawEntry(index.hex[i].needles[s], Hex, s) in entries;
    }
    hits, who := ScanHexBuckets(index.hex, norm, origin);
    forall m ensures m in who <==> HexMatch(entries, line, m) {
      if m in who { HexFoundSound(entries, index, line, norm, origin, m); }
      if HexMatch(entries, line, m) { HexFoundComplete(entries, index, line, norm, origin, m); }
    }
  }

  // ----- the needles of one token

  ghost predicate SingleAt(single: map<string, IdKind>, low: string, m: Match) {
    && Anchored(low, m.entry.needle, m.at) && AllTokenChars(m.entry.needle)
    && m.entry.needle in single && m.entry == RawEntry(single[m.entry.needle], Token, m.entry.needle)
  }

  /** [i, end) is a maximal run of token characters. */
  predicate IsRun(low: string, i: nat, end: nat) {
    && i < end <= |low| && (forall k :: i <= k < end ==> IsTokenChar(low[k]))
    && (i == 0 || !IsTokenChar(low[i - 1])) && (end == |low| || !IsTokenChar(low[end]))
  }

  /** The only all-token needle anchored inside a maximal run is the run itself. */
  lemma RunAnchors(low: string, i: nat, end: nat, needle: string, at: nat)
    requires IsRun(low, i, end) && i <= at < end
    requires needle != [] && AllTokenChars(needle)
    ensures Anchored(low, needle, at) <==> at == i && needle == low[i..end]
  {
    if Anchored(low, needle, at) {
      var stop := at + |needle|;
      forall k | at <= k < stop ensures IsTokenChar(low[k]) {
        assert low[k] == low[at..stop][k - at] == needle[k - at];
      }
    }
  }

  method ScanSingle(single: map<string, IdKind>, low: string) returns (hits: seq<Hit>, ghost who: seq<Match>)
    requires forall s :: s in single ==> s != []
    ensures Listed(hits, who) && Apart(who)
    ensures forall m :: m in who <==> SingleAt(single, low, m)
  {
    hits, who := [], [];
    var i := 0;
    while i < |low|
      invariant i <= |low| && (i == 0 || i == |low| || !IsTokenChar(low[i - 1]) || !IsTokenChar(low[i]))
      invariant Listed(hits, who) && Apart(who)
      invariant forall m :: m in who <==> SingleAt(single, low, m) && m.at < i
    {
      if !IsTokenChar(low[i]) {
        assert forall m :: SingleAt(single, low, m) && m.at == i ==> low[i..i + |m.entry.needle|][0] == low[i];
        i := i + 1;
        continue;
      }
      var end := i;
      while end < |low| && IsTokenChar(low[end])
        invariant i <= end <= |low| && forall k :: i <= k < end ==> IsTokenChar(low[k])
      {
        end := end + 1;
      }
      var run := low[i..end];
      assert IsRun(low, i, end);
      forall m | SingleAt(single, low, m) && i <= m.at < end ensures m.at == i && m.entry.needle == run {
        RunAnchors(low, i, end, m.entry.needle, m.at);
      }
      if run in single {
        ghost var m := Match(RawEntry(single[run], Token, run), i);
        RunAnchors(low, i, end, run, i);
        forall x | 0 <= x < |who| ensures who[x].at != i {
          assert who[x] in who;
        }
        assert SingleAt(single, low, m);
        hits := hits + [Hit(i, single[run])];
        who := who + [m];
      }
      i := end;
    }
    forall m ensures m in who <==> SingleAt(single, low, m) {
      assert SingleAt(single, low, m) ==> m.at < |low|;
    }
  }

  // ----- the needles of several tokens

  ghost predicate MultiAt(b: Bucket, low: string, m: Match) {
    && m.entry.needle in b.needles && m.entry == RawEntry(b.needles[m.entry.needle], Token, m.entry.needle)
    && Anchored(low, m.entry.needle, m.at)
  }

  ghost predicate MultiUpTo(b: Bucket, low: string, i: nat, who: seq<Match>) {
    Apart(who) && forall m :: m in who <==> MultiAt(b, low, m) && m.at < i
  }

  /** A window that is no anchored needle adds no match. */
  lemma MultiSkips(b: Bucket, low: string, i: nat, who: seq<Match>)
    requires MultiUpTo(b, low, i, who) && i + b.len <= |low|
    requires forall s :: s in b.needles ==> |s| == b.len > 0
    requires low[i..i + b.len] in b.needles ==> !Anchored(low, low[i..i + b.len], i)
    ensures MultiUpTo(b, low, i + 1, who)
  {
    assert forall m :: MultiAt(b, low, m) && m.at == i ==> m.entry.needle == low[i..i + b.len];
  }

  lemma MultiAdds(b: Bucket, low: string, i: nat, who: seq<Match>, m: Match)
    requires MultiUpTo(b, low, i, who) && MultiAt(b, low, m) && m.at == i
    requires forall s :: s in b.needles ==> |s| == b.len > 0
    ensures MultiUpTo(b, low, i + 1, who + [m])
  {
    forall x | 0 <= x < |who| ensures who[x].at != i {
      assert who[x] in who;
    }
    assert forall n :: MultiAt(b, low, n) && n.at == i ==> n.entry.needle == low[i..i + b.len];
  }

  method ScanMultiBucket(b: Bucket, low: string) returns (hits: seq<Hit>, ghost who: seq<Match>)
    requires b.len <= |low| && forall s :: s in b.needles ==> |s| == b.len > 0
    ensures Listed(hits, who) && Apart(who)
    ensures forall m :: m in who <==> MultiAt(b, low, m)
  {
    hits, who := [], [];
    var i := 0;
    while i + b.len <= |low|
      invariant i + b.len <= |low| + 1
      invariant Listed(hits, who) && MultiUpTo(b, low, i, who)
    {
      var window := low[i..i + b.len];
      if window in b.needles {
        var openOk := !IsTokenChar(window[0]) || i == 0 || !IsTokenChar(low[i - 1]);
        var closeOk := !IsTokenChar(window[|window| - 1]) || i + b.len == |low| || !IsTokenChar(low[i + b.len]);
        if openOk && closeOk {
          ghost var m := Match(RawEntry(b.needles[window], Token, window), i);
          MultiAdds(b, low, i, who, m);
          hits, who := hits + [Hit(i, b.needles[window])], who + [m];
        } else {
          MultiSkips(b, low, i, who);
        }
      } else {
        MultiSkips(b, low, i, who);
      }
      i := i + 1;
    }
  }

  ghost predicate InMultiBuckets(buckets: seq<Bucket>, k: nat, low: string, m: Match) {
    exists j: nat :: j < k <= |buckets| && MultiAt(buckets[j], low, m)
  }

  ghost predicate MultiListed(buckets: seq<Bucket>, k: nat, low: string, who: seq<Match>) {
    && k <= |buckets| && InSearchOrder(who)
    && (forall m :: m in who <==> InMultiBuckets(buckets, k, low, m))
  }

  lemma MultiListedGrows(buckets: seq<Bucket>, k: nat, low: string, who: seq<Match>, more: seq<Match>)
    requires ByLength(buckets) && k < |buckets| && MultiListed(buckets, k, low, who) && Apart(more)
    requires forall i, s :: 0 <= i < |buckets| && s in buckets[i].needles ==> !AllTokenChars(s)
    requires forall m :: m in more <==> MultiAt(buckets[k], low, m)
    ensures MultiListed(buckets, k + 1, low, who + more)
  {
    forall m ensures m in who + more <==> InMultiBuckets(buckets, k + 1, low, m) {
      assert m in who + more <==> m in who || m in more;
    }
    var all := who + more;
    forall x, y | 0 <= x < |who| <= y < |all| ensures SearchedBefore(all[x].entry, all[y].entry) {
      assert all[x] in who && all[y] in more;
      var j: nat :| j < k && MultiAt(buckets[j], low, all[x]);
      assert buckets[j].len < buckets[k].len;
    }
    forall x, y | 0 <= x < y < |all| ensures all[x].at != all[y].at || SearchedBefore(all[x].entry, all[y].entry) {
    }
  }

  lemma MultiRestEmpty(buckets: seq<Bucket>, k: nat, low: string, m: Match)
    requires ByLength(buckets) && k <= |buckets| && (k < |buckets| ==> buckets[k].len > |low|)
    ensures InMultiBuckets(buckets, k, low, m) <==> InMultiBuckets(buckets, |buckets|, low, m)
  {
    assert forall j :: k < j < |buckets| ==> buckets[k].len < buckets[j].len;
  }

  lemma TokenHeld(entries: seq<RawEntry>, index: Index, low: string, m: Match)
    requires Indexes(index, entries)
    ensures SingleAt(index.single, low, m) || InMultiBuckets(index.multi, |index.multi|, low, m)
            <==> m.entry in entries && m.entry.mode == Token && Anchored(low, m.entry.needle, m.at)
    ensures SingleAt(index.single, low, m) ==> Part(m.entry) == 1
    ensures InMultiBuckets(index.multi, |index.multi|, low, m) ==> Part(m.entry) == 2
  {
    var s, kind := m.entry.needle, m.entry.kind;
    if InMultiBuckets(index.multi, |index.multi|, low, m) {
      var j: nat :| j < |index.multi| && MultiAt(index.multi[j], low, m);
      assert Holds(index.multi, s, kind);
    }
    if Holds(index.multi, s, kind) && m.entry == RawEntry(kind, Token, s) && Anchored(low, s, m.at) {
      var j: nat :| j < |index.multi| && s in index.multi[j].needles && index.multi[j].needles[s] == kind;
      assert MultiAt(index.multi[j], low, m);
    }
  }

  lemma TokenNeedles(entries: seq<RawEntry>, index: Index)
    requires Indexes(index, entries) && forall e :: e in entries ==> e.needle != []
    ensures forall s :: s in index.single ==> s != []
    ensures forall i, s :: 0 <= i < |index.multi| && s in index.multi[i].needles ==>
              |s| == index.multi[i].len > 0 && !AllTokenChars(s)
  {
    forall s | s in index.single ensures s != [] {
      assert RawEntry(index.single[s], Token, s) in entries;
    }
    forall i, s | 0 <= i < |index.multi| && s in index.multi[i].needles
      ensures |s| == index.multi[i].len > 0 && !AllTokenChars(s)
    {
      assert Holds(index.multi, s, index.multi[i].needles[s]);
      assert RawEntry(index.multi[i].needles[s], Token, s) in entries;
    }
  }

  method ScanMulti(multi: seq<Bucket>, low: string) returns (hits: seq<Hit>, ghost who: seq<Match>)
    requires ByLength(multi)
    requires forall i, s :: 0 <= i < |multi| && s in multi[i].needles ==> |s| == multi[i].len > 0 && !AllTokenChars(s)
    ensures Listed(hits, who) && MultiListed(multi, |multi|, low, who)
  {
    hits, who := [], [];
    var k := 0;
    while k < |multi| && multi[k].len <= |low|
      invariant Listed(hits, who) && MultiListed(multi, k, low, who)
    {
      var bucket := multi[k];
      assert forall s :: s in bucket.needles ==> |s| == bucket.len > 0 && !AllTokenChars(s) by {
        assert bucket == multi[k];
      }
      var more, whoMore := ScanMultiBucket(bucket, low);
      MultiListedGrows(multi, k, low, who, whoMore);
      hits, who := hits + more, who + whoMore;
      k := k + 1;
    }
    forall m ensures InMultiBuckets(multi, k, low, m) <==> InMultiBuckets(multi, |multi|, low, m) {
      MultiRestEmpty(multi, k, low, m);
    }
  }

  method ScanTokens(index: Index, line: string, ghost entries: seq<RawEntry>)
    returns (hits: seq<Hit>, ghost who: seq<Match>)
    requires Indexes(index, entries) && forall e :: e in entries ==> e.needle != []
    ensures Listed(hits, who) && InSearchOrder(who)
    ensures forall m :: m in who <==> TokenMatch(entries, line, m)
  {
    TokenNeedles(entries, index);
    var low := Lowered(line);
    hits, who := [], [];
    if index.single != map[] {
      hits, who := ScanSingle(index.single, low);
    } else {
      assert forall m: Match :: m.entry.needle !in index.single;
    }
    var more, multi := ScanMulti(index.multi, low);
    TokensFound(entries, index, line, who, multi);
    hits, who := hits + more, who + multi;
  }

  lemma TokensFound(entries: seq<RawEntry>, index: Index, line: string, single: seq<Match>, multi: seq<Match>)
    requires Indexes(index, entries)
    requires Apart(single) && forall m :: m in single <==> SingleAt(index.single, Lowered(line), m)
    requires MultiListed(index.multi, |index.multi|, Lowered(line), multi)
    ensures InSearchOrder(single + multi)
    ensures forall m :: m in single + multi <==> TokenMatch(entries, line, m)
  {
    forall m ensures m in single + multi <==> TokenMatch(entries, line, m)
             ensures m in single ==> Part(m.entry) == 1
             ensures m in multi ==> Part(m.entry) == 2
    {
      assert m in single + multi <==> m in single || m in multi;
      TokenHeld(entries, index, Lowered(line), m);
    }
    PartsInOrder(single, multi);
  }

  lemma PartsInOrder(a: seq<Match>, b: seq<Match>)
    requires InSearchOrder(a) && InSearchOrder(b)
    requires forall m, n :: m in a && n in b ==> Part(m.entry) < Part(n.entry)
    ensures InSearchOrder(a + b)
  {
    var all := a + b;
    forall x, y | 0 <= x < |a| <= y < |all| ensures SearchedBefore(all[x].entry, all[y].entry) {
      assert all[x] in a && all[y] in b;
    }
    forall x, y | 0 <= x < y < |all| ensures all[x].at != all[y].at || SearchedBefore(all[x].entry, all[y].entry) {
    }
  }

  // ----- the whole line

  /** Stable sort by offset: each hit goes after those already placed that do not come later in the line. */
  method StableSort(hits: seq<Hit>, ghost who: seq<Match>) returns (sorted: seq<Hit>, ghost order: seq<Match>)
    requires Listed(hits, who) && InSearchOrder(who)
    ensures Listed(sorted, order) && InOrder(order)
    ensures forall m :: m in order <==> m in who
  {
    sorted, order := [], [];
    for i := 0 to |hits|
      invariant Listed(sorted, order) && InOrder(order)
      invariant forall m :: m in order <==> m in who[..i]
    {
      var at := |sorted|;
      while at > 0 && sorted[at - 1].offset > hits[i].offset
        invariant 0 <= at <= |sorted| && forall j :: at <= j < |sorted| ==> sorted[j].offset > hits[i].offset
      {
        at := at - 1;
      }
      PlacedInOrder(order, who, i, at);
      sorted := sorted[..at] + [hits[i]] + sorted[at..];
      order := order[..at] + [who[i]] + order[at..];
    }
    assert who[..|who|] == who;
  }

  lemma InsertedInOrder(order: seq<Match>, m: Match, at: nat)
    requires InOrder(order) && at <= |order|
    requires forall x :: 0 <= x < at ==> Before(order[x], m)
    requires forall x :: at <= x < |order| ==> Before(m, order[x])
    ensures InOrder(order[..at] + [m] + order[at..])
  {
    var r := order[..at] + [m] + order[at..];
    assert forall x :: 0 <= x < at ==> r[x] == order[x];
    assert forall x :: at < x < |r| ==> r[x] == order[x - 1];
  }

  lemma EarlierBefore(order: seq<Match>, who: seq<Match>, i: nat, at: nat, x: nat)
    requires InSearchOrder(who) && InOrder(order) && i < |who| && x < at <= |order|
    requires forall m :: m in order <==> m in who[..i]
    requires order[at - 1].at <= who[i].at
    ensures Before(order[x], who[i])
  {
    assert order[x] in order;
    var k: nat :| k < i && who[..i][k] == order[x];
    assert who[k].at != who[i].at || SearchedBefore(who[k].entry, who[i].entry);
    assert x < at - 1 ==> Before(order[x], order[at - 1]);
  }

  lemma PlacedInOrder(order: seq<Match>, who: seq<Match>, i: nat, at: nat)
    requires InSearchOrder(who) && InOrder(order) && i < |who| && at <= |order|
    requires forall m :: m in order <==> m in who[..i]
    requires forall j :: at <= j < |order| ==> order[j].at > who[i].at
    requires at > 0 ==> order[at - 1].at <= who[i].at
    ensures InOrder(order[..at] + [who[i]] + order[at..])
    ensures forall m :: m in order[..at] + [who[i]] + order[at..] <==> m in who[..i + 1]
  {
    forall x | 0 <= x < at ensures Before(order[x], who[i]) {
      EarlierBefore(order, who, i, at, x);
    }
    InsertedInOrder(order, who[i], at);
    assert who[..i + 1] == who[..i] + [who[i]];
    forall m ensures m in order[..at] + [who[i]] + order[at..] <==> m in order || m == who[i] {
      assert order == order[..at] + order[at..];
    }
  }

  /** Keeps Searchable folded until a proof opens it. */
  ghost predicate Opened(t: int, index: Index, entries: seq<RawEntry>) { true }

  /** The index of entries that can all be searched for. */
  ghost predicate Searchable(index: Index, entries: seq<RawEntry>) {
    forall t {:trigger Opened(t, index, entries)} ::
      Opened(t, index, entries) ==> Indexes(index, entries) && forall e :: e in entries ==> e.needle != []
  }

  method Scan(index: Index, line: string, ghost entries: seq<RawEntry>) returns (hits: seq<Hit>)
    requires Searchable(index, entries)
    ensures Reports(hits, entries, line)
  {
    assert Opened(0, index, entries);
    ghost var hex: seq<Match>, tokens: seq<Match>, order: seq<Match>;
    hits, hex := [], [];
    if index.hex != [] {
      hits, hex := ScanHex(index, line, entries);
    } else {
      forall m | HexMatch(entries, line, m) ensures false {
        HexHeld(entries, index, m.entry);
      }
    }
    var more;
    more, tokens := ScanTokens(index, line, entries);
    PartsInOrder(hex, tokens);
    hits, order := StableSort(hits + more, hex + tokens);
    assert forall m :: m in order <==> IsMatch(entries, line, m);
  }
}
