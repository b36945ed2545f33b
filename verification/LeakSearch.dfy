/** The leak search of the files a capture wrote: every match of every line, each reported once by file, line,
    locator and kind, and never with an identifier in the report itself. */
module LeakSearch {
  import opened RawIdentifiers
  import opened LeakScan
  import opened Spans
  import JsonSpans
  import XmlSpans

  const WITHHELD := "(withheld)"

  /** A file by its name; a content of None cannot be read. */
  datatype Content = Unread | Read(text: string)

  datatype File = File(name: string, content: Content)

  datatype Finding = Finding(file: string, line: nat, locator: string, kind: IdKind)

  // ----- the locator of an offset

  function LastDot(name: string): (k: nat)
    ensures k <= |name| && (k < |name| ==> name[k] == '.')
    ensures forall i :: k < i < |name| ==> name[i] != '.'
    ensures k == |name| ==> forall i :: 0 <= i < |name| ==> name[i] != '.'
  {
    if name == [] then 0
    else
      var rest := LastDot(name[1..]);
      if rest < |name| - 1 then rest + 1 else if name[0] == '.' then 0 else |name|
  }

  /** From the last dot on, which does not count at the front. */
  function Extension(name: string): string {
    var k := LastDot(name);
    if name == ".." || k == 0 then "" else name[k..]
  }

  function SpansByExtension(name: string, text: string): seq<Span> {
    if Extension(name) == ".json" then JsonSpans.SpansFrom(text, JsonSpans.START)
    else if Extension(name) == ".xml" then XmlSpans.SpansFrom(text, XmlSpans.START)
    else []
  }

  /** Keeps SpansOfFile folded until a proof opens it. */
  ghost predicate Unfolded(t: int, name: string, text: string) { true }

  ghost predicate AreSpansOf(name: string, text: string, r: seq<Span>) {
    forall t {:trigger Unfolded(t, name, text)} :: Unfolded(t, name, text) ==> r == SpansByExtension(name, text)
  }

  ghost function SpansOfFile(name: string, text: string): seq<Span> {
    assert AreSpansOf(name, text, SpansByExtension(name, text));
    var r: seq<Span> :| AreSpansOf(name, text, r);
    r
  }

  lemma FileSpans(name: string, text: string)
    ensures SpansOfFile(name, text) == SpansByExtension(name, text)
    ensures Ordered(SpansOfFile(name, text), 0, |text|)
  {
    assert Unfolded(0, name, text);
    JsonSpans.SpansOrdered(text, JsonSpans.START);
    XmlSpans.SpansOrdered(text, XmlSpans.START);
  }

  /** The spans are built at the first offset asked for. */
  class Locator {
    const name: string
    const text: string
    var spans: seq<Span>
    var built: bool

    ghost predicate Valid()
      reads this
    {
      spans == if built then SpansOfFile(name, text) else []
    }

    constructor (name: string, text: string)
      ensures Valid() && this.name == name && this.text == text
    {
      this.name, this.text, spans, built := name, text, [], false;
    }

    method At(offset: nat) returns (locator: string)
      requires Valid()
      modifies this
      ensures Valid() && locator == Nearest(SpansOfFile(name, text), offset)
    {
      if !built {
        Build();
      }
      FileSpans(name, text);
      locator := Spans.At(spans, offset);
    }

    method Build()
      requires Valid() && !built
      modifies this
      ensures Valid() && built
    {
      built := true;
      if Extension(name) == ".json" {
        spans := JsonSpans.Scan(text);
      } else if Extension(name) == ".xml" {
        spans := XmlSpans.Scan(text);
      }
      FileSpans(name, text);
    }
  }

  // ----- lines

  /** start: where the line begins in the file. */
  datatype Line = Line(start: nat, text: string)

  function WithoutReturn(s: string): string {
    if s != [] && s[|s| - 1] == '\r' then s[..|s| - 1] else s
  }

  function NewlineFrom(text: string, j: nat): (r: nat)
    requires j <= |text|
    ensures j <= r <= |text|
    decreases |text| - j
  {
    if j == |text| || text[j] == '\n' then j else NewlineFrom(text, j + 1)
  }

  function LinesFrom(text: string, start: nat): seq<Line>
    decreases |text| - start
  {
    if start >= |text| then []
    else
      var newline := NewlineFrom(text, start);
      [Line(start, WithoutReturn(text[start..newline]))] + LinesFrom(text, newline + 1)
  }

  // ----- what should be reported

  ghost predicate Clean(entries: seq<RawEntry>, s: string) {
    forall m :: !IsMatch(entries, s, m)
  }

  ghost function Safe(entries: seq<RawEntry>, s: string): string {
    if Clean(entries, s) then s else WITHHELD
  }

  ghost function FindingOf(entries: seq<RawEntry>, name: string, text: string, n: nat, l: Line, m: Match): Finding {
    Finding(Safe(entries, name), n + 1, Safe(entries, Nearest(SpansOfFile(name, text), l.start + m.at)), m.entry.kind)
  }

  /** f reports a match of the line with index n. */
  ghost predicate InLine(entries: seq<RawEntry>, name: string, text: string, n: nat, l: Line, f: Finding) {
    exists m :: IsMatch(entries, l.text, m) && f == FindingOf(entries, name, text, n, l, m)
  }

  ghost predicate InLines(entries: seq<RawEntry>, name: string, text: string, lines: seq<Line>, end: nat, f: Finding) {
    exists n: nat :: n < end <= |lines| && InLine(entries, name, text, n, lines[n], f)
  }

  ghost predicate Expected(entries: seq<RawEntry>, file: File, f: Finding) {
    match file.content
    case Unread => f == Finding(Safe(entries, file.name), 0, "", Unreadable)
    case Read(text) => InLines(entries, file.name, text, LinesFrom(text, 0), |LinesFrom(text, 0)|, f)
  }

  ghost predicate NoRepeats(s: seq<Finding>) { forall i, j :: 0 <= i < j < |s| ==> s[i] != s[j] }

  // ----- the search

  lemma ReportEmptyIff(hits: seq<Hit>, entries: seq<RawEntry>, line: string)
    requires Reports(hits, entries, line)
    ensures hits == [] <==> Clean(entries, line)
  {
    var who :| Listed(hits, who) && InOrder(who) && (forall m :: m in who <==> IsMatch(entries, line, m));
    if hits != [] {
      assert who[0] in who;
    } else {
      assert forall m :: m !in who;
    }
  }

  method SafeText(index: Index, s: string, ghost entries: seq<RawEntry>) returns (r: string)
    requires Searchable(index, entries)
    ensures r == Safe(entries, s)
  {
    var hits := LeakScan.Scan(index, s, entries);
    ReportEmptyIff(hits, entries, s);
    r := if hits != [] then WITHHELD else s;
  }

  /** What makes findings of one file the same. */
  function Key(f: Finding): (nat, string, IdKind) { (f.line, f.locator, f.kind) }

  /** The keys of the findings, and others of earlier lines. */
  ghost predicate Remembers(seen: set<(nat, string, IdKind)>, out: seq<Finding>) {
    forall k :: k in seen <==> exists f :: f in out && Key(f) == k
  }

  /** The findings of a line's matches, in order and with repeats. */
  ghost function FindingsOf(entries: seq<RawEntry>, name: string, text: string, n: nat, l: Line,
                            who: seq<Match>): (r: seq<Finding>)
    ensures |r| == |who| && forall k :: 0 <= k < |who| ==> r[k] == FindingOf(entries, name, text, n, l, who[k])
  {
    seq(|who|, k requires 0 <= k < |who| => FindingOf(entries, name, text, n, l, who[k]))
  }

  // ----- the report, in order

  /** Keeps LinesReport, FilesReport and AreFindings folded until a proof opens them. */
  ghost predicate Folded(t: int, n: nat, out: seq<Finding>) { true }

  /** Each value once, where it comes first. */
  ghost function FirstOnes(s: seq<Finding>): (r: seq<Finding>)
    ensures forall f :: f in r <==> f in s
  {
    if s == [] then []
    else
      var r, last := FirstOnes(s[..|s| - 1]), s[|s| - 1];
      assert s == s[..|s| - 1] + [last];
      if last in r then r else r + [last]
  }

  /** The matches of a line, in the order of offset and then of the search. */
  ghost predicate MatchesInOrder(entries: seq<RawEntry>, line: string, who: seq<Match>) {
    InOrder(who) && forall m :: m in who <==> IsMatch(entries, line, m)
  }

  /** The findings of the line with index n: of its matches in order, each finding once. */
  ghost predicate LineReport(entries: seq<RawEntry>, name: string, text: string, n: nat, l: Line, part: seq<Finding>) {
    exists who :: MatchesInOrder(entries, l.text, who)
                  && part == FirstOnes(FindingsOf(entries, name, text, n, l, who))
  }

  /** The findings of the first n lines, line after line. */
  ghost predicate LinesReport(entries: seq<RawEntry>, name: string, text: string, lines: seq<Line>, n: nat,
                              out: seq<Finding>)
  {
    n <= |lines| && forall t {:trigger Folded(t, n, out)} :: Folded(t, n, out) ==>
      if n == 0 then out == []
      else
        exists k: nat :: k <= |out| && LinesReport(entries, name, text, lines, n - 1, out[..k])
                         && LineReport(entries, name, text, n - 1, lines[n - 1], out[k..])
  }

  ghost predicate FileReport(entries: seq<RawEntry>, file: File, out: seq<Finding>) {
    match file.content
    case Unread => out == [Finding(Safe(entries, file.name), 0, "", Unreadable)]
    case Read(text) => LinesReport(entries, file.name, text, LinesFrom(text, 0), |LinesFrom(text, 0)|, out)
  }

  /** The findings of the first n files, file after file. */
  ghost predicate FilesReport(entries: seq<RawEntry>, files: seq<File>, n: nat, out: seq<Finding>) {
    n <= |files| && forall t {:trigger Folded(t, n, out)} :: Folded(t, n, out) ==>
      if n == 0 then out == []
      else
        exists k: nat :: k <= |out| && FilesReport(entries, files, n - 1, out[..k])
                         && FileReport(entries, files[n - 1], out[k..])
  }

  lemma LinesReportMore(entries: seq<RawEntry>, name: string, text: string, lines: seq<Line>, n: nat,
                        before: seq<Finding>, part: seq<Finding>)
    requires n < |lines| && LinesReport(entries, name, text, lines, n, before)
    requires LineReport(entries, name, text, n, lines[n], part)
    ensures LinesReport(entries, name, text, lines, n + 1, before + part)
  {
    var out := before + part;
    assert out[..|before|] == before && out[|before|..] == part;
  }

  lemma FilesReportMore(entries: seq<RawEntry>, files: seq<File>, n: nat, before: seq<Finding>, part: seq<Finding>)
    requires n < |files| && FilesReport(entries, files, n, before) && FileReport(entries, files[n], part)
    ensures FilesReport(entries, files, n + 1, before + part)
  {
    var out := before + part;
    assert out[..|before|] == before && out[|before|..] == part;
  }

  lemma LineReportUnique(entries: seq<RawEntry>, name: string, text: string, n: nat, l: Line, a: seq<Finding>,
                         b: seq<Finding>)
    requires LineReport(entries, name, text, n, l, a) && LineReport(entries, name, text, n, l, b)
    ensures a == b
  {
    var v :| MatchesInOrder(entries, l.text, v) && a == FirstOnes(FindingsOf(entries, name, text, n, l, v));
    var w :| MatchesInOrder(entries, l.text, w) && b == FirstOnes(FindingsOf(entries, name, text, n, l, w));
    OrderUnique(v, w);
  }

  /** Where the findings of the last line begin. */
  lemma LastLine(entries: seq<RawEntry>, name: string, text: string, lines: seq<Line>, n: nat, out: seq<Finding>)
    returns (k: nat)
    requires n > 0 && LinesReport(entries, name, text, lines, n, out)
    ensures k <= |out| && LinesReport(entries, name, text, lines, n - 1, out[..k])
    ensures LineReport(entries, name, text, n - 1, lines[n - 1], out[k..])
  {
    assert Folded(0, n, out);
    k :| k <= |out| && LinesReport(entries, name, text, lines, n - 1, out[..k])
         && LineReport(entries, name, text, n - 1, lines[n - 1], out[k..]);
  }

  lemma {:induction false} LinesReportUnique(entries: seq<RawEntry>, name: string, text: string, lines: seq<Line>,
                                             n: nat, a: seq<Finding>, b: seq<Finding>)
    requires LinesReport(entries, name, text, lines, n, a) && LinesReport(entries, name, text, lines, n, b)
    ensures a == b
  {
    if n == 0 {
      assert Folded(0, n, a) && Folded(0, n, b);
    } else {
      var i := LastLine(entries, name, text, lines, n, a);
      var j := LastLine(entries, name, text, lines, n, b);
      LinesReportUnique(entries, name, text, lines, n - 1, a[..i], b[..j]);
      LineReportUnique(entries, name, text, n - 1, lines[n - 1], a[i..], b[j..]);
      assert a == a[..i] + a[i..] && b == b[..j] + b[j..];
    }
  }

  /** The files have only one report. */
  lemma {:induction false} FilesReportUnique(entries: seq<RawEntry>, files: seq<File>, n: nat, a: seq<Finding>,
                                             b: seq<Finding>)
    requires FilesReport(entries, files, n, a) && FilesReport(entries, files, n, b)
    ensures a == b
  {
    assert Folded(0, n, a) && Folded(0, n, b);
    if n > 0 {
      var i: nat :| i <= |a| && FilesReport(entries, files, n - 1, a[..i]) && FileReport(entries, files[n - 1], a[i..]);
      var j: nat :| j <= |b| && FilesReport(entries, files, n - 1, b[..j]) && FileReport(entries, files[n - 1], b[j..]);
      FilesReportUnique(entries, files, n - 1, a[..i], b[..j]);
      FileReportUnique(entries, files[n - 1], a[i..], b[j..]);
      assert a == a[..i] + a[i..] && b == b[..j] + b[j..];
    }
  }

  lemma FileReportUnique(entries: seq<RawEntry>, file: File, a: seq<Finding>, b: seq<Finding>)
    requires FileReport(entries, file, a) && FileReport(entries, file, b)
    ensures a == b
  {
    match file.content
    case Unread =>
    case Read(text) =>
      LinesReportUnique(entries, file.name, text, LinesFrom(text, 0), |LinesFrom(text, 0)|, a, b);
  }

  // ----- the search of one file

  /** The findings of one file before and within the line with index n, none twice. */
  ghost predicate Collected(seen: set<(nat, string, IdKind)>, out: seq<Finding>, file: string, n: nat) {
    && Remembers(seen, out) && NoRepeats(out)
    && (forall f :: f in out ==> f.file == file && f.line <= n)
  }

  /** Adds a finding unless the line already has it. */
  method Collect(seen: set<(nat, string, IdKind)>, out: seq<Finding>, found: Finding, ghost n: nat)
    returns (seen': set<(nat, string, IdKind)>, out': seq<Finding>)
    requires Collected(seen, out, found.file, n) && found.line <= n
    ensures Collected(seen', out', found.file, n)
    ensures out' == if found in out then out else out + [found]
  {
    seen', out' := seen, out;
    if Key(found) !in seen {
      RememberedAnew(seen, out, found);
      seen', out' := seen + {Key(found)}, out + [found];
    } else {
      RememberedOnce(seen, out, found.file, found);
    }
  }

  /** The findings of the line with index n join those of the lines before it. */
  method ReportLine(index: Index, locator: Locator, file: string, n: nat, l: Line, before: seq<Finding>,
                    seen: set<(nat, string, IdKind)>, ghost entries: seq<RawEntry>)
    returns (out: seq<Finding>, seen': set<(nat, string, IdKind)>)
    requires Searchable(index, entries) && locator.Valid() && file == Safe(entries, locator.name)
    requires Collected(seen, before, file, n)
    modifies locator
    ensures locator.Valid() && Collected(seen', out, file, n + 1) && before <= out
    ensures LineReport(entries, locator.name, locator.text, n, l, out[|before|..])
    ensures forall f :: f in out <==> f in before || InLine(entries, locator.name, locator.text, n, l, f)
  {
    var hits := LeakScan.Scan(index, l.text, entries);
    ghost var who := MatchesOf(hits, entries, l.text);
    ghost var all := FindingsOf(entries, locator.name, locator.text, n, l, who);
    out, seen' := before, seen;
    for i := 0 to |hits|
      invariant locator.Valid() && Collected(seen', out, file, n + 1)
      invariant out == before + FirstOnes(all[..i])
    {
      var found := FindHit(index, locator, file, n, l, hits[i], entries);
      assert found == FindingOf(entries, locator.name, locator.text, n, l, who[i]) == all[i];
      FirstOnesNext(before, all, i, n);
      seen', out := Collect(seen', out, found, n + 1);
    }
    assert all[..|hits|] == all && out[|before|..] == FirstOnes(all);
    assert MatchesInOrder(entries, l.text, who);
    MatchesAreLine(entries, locator.name, locator.text, n, l, who);
  }

  /** A finding of a new line is no finding of the lines before it. */
  lemma FirstOnesNext(before: seq<Finding>, all: seq<Finding>, i: nat, n: nat)
    requires i < |all| && all[i].line == n + 1 && forall f :: f in before ==> f.line <= n
    ensures var out := before + FirstOnes(all[..i]);
            before + FirstOnes(all[..i + 1]) == if all[i] in out then out else out + [all[i]]
  {
    assert all[..i + 1][..i] == all[..i];
  }

  method FindHit(index: Index, locator: Locator, file: string, n: nat, l: Line, hit: Hit, ghost entries: seq<RawEntry>)
    returns (found: Finding)
    requires Searchable(index, entries) && locator.Valid()
    modifies locator
    ensures locator.Valid()
    ensures found == Finding(file, n + 1, Safe(entries, Nearest(SpansOfFile(locator.name, locator.text),
                                                                l.start + hit.offset)), hit.kind)
  {
    var place := locator.At(l.start + hit.offset);
    var where := SafeText(index, place, entries);
    found := Finding(file, n + 1, where, hit.kind);
  }

  /** The matches that hits report. */
  ghost function MatchesOf(hits: seq<Hit>, entries: seq<RawEntry>, line: string): (who: seq<Match>)
    requires Reports(hits, entries, line)
    ensures Listed(hits, who) && MatchesInOrder(entries, line, who)
  {
    var who :| Listed(hits, who) && InOrder(who) && (forall m :: m in who <==> IsMatch(entries, line, m));
    who
  }

  lemma MatchesAreLine(entries: seq<RawEntry>, name: string, text: string, n: nat, l: Line, who: seq<Match>)
    requires forall m :: m in who <==> IsMatch(entries, l.text, m)
    ensures forall f :: f in FindingsOf(entries, name, text, n, l, who) <==> InLine(entries, name, text, n, l, f)
  {
    var all := FindingsOf(entries, name, text, n, l, who);
    forall f ensures f in all <==> InLine(entries, name, text, n, l, f) {
      if f in all {
        var k: nat :| k < |who| && f == all[k];
        assert who[k] in who;
      }
      if InLine(entries, name, text, n, l, f) {
        var m :| IsMatch(entries, l.text, m) && f == FindingOf(entries, name, text, n, l, m);
        var k: nat :| k < |who| && who[k] == m;
        assert all[k] == f;
      }
    }
  }

  lemma RememberedAnew(seen: set<(nat, string, IdKind)>, out: seq<Finding>, found: Finding)
    requires Remembers(seen, out) && NoRepeats(out) && Key(found) !in seen
    ensures Remembers(seen + {Key(found)}, out + [found]) && NoRepeats(out + [found])
  {
    assert found !in out;
    forall k ensures k in seen + {Key(found)} <==> exists f :: f in out + [found] && Key(f) == k {
      if k == Key(found) { assert found in out + [found]; }
    }
  }

  lemma RememberedOnce(seen: set<(nat, string, IdKind)>, out: seq<Finding>, file: string, found: Finding)
    requires Remembers(seen, out) && Key(found) in seen
    requires found.file == file && forall f :: f in out ==> f.file == file
    ensures found in out
  {
  }

  /** The findings of the first n lines. */
  ghost predicate AreFindings(entries: seq<RawEntry>, name: string, text: string, lines: seq<Line>, n: nat,
                              out: seq<Finding>) {
    forall t {:trigger Folded(t, n, out)} ::
      Folded(t, n, out) ==> forall f :: f in out <==> InLines(entries, name, text, lines, n, f)
  }

  method SearchFile(index: Index, file: File, ghost entries: seq<RawEntry>) returns (out: seq<Finding>)
    requires Searchable(index, entries)
    ensures NoRepeats(out) && FileReport(entries, file, out)
    ensures forall f :: f in out <==> Expected(entries, file, f)
  {
    var name := SafeText(index, file.name, entries);
    if file.content.Unread? {
      return [Finding(name, 0, "", Unreadable)];
    }
    out := SearchText(index, file.name, name, file.content.text, entries);
  }

  method SearchText(index: Index, name: string, safe: string, text: string,
                    ghost entries: seq<RawEntry>) returns (out: seq<Finding>)
    requires Searchable(index, entries) && safe == Safe(entries, name)
    ensures NoRepeats(out) && LinesReport(entries, name, text, LinesFrom(text, 0), |LinesFrom(text, 0)|, out)
    ensures forall f :: f in out <==> InLines(entries, name, text, LinesFrom(text, 0), |LinesFrom(text, 0)|, f)
  {
    var locator := new Locator(name, text);
    var seen := {};
    var start, n := 0, 0;
    out := [];
    ghost var lines := LinesFrom(text, 0);
    while start < |text|
      invariant AtLine(text, start, lines, n)
      invariant locator.Valid() && fresh(locator) && locator.name == name && locator.text == text
      invariant Collected(seen, out, safe, n)
      invariant AreFindings(entries, name, text, lines, n, out)
      invariant LinesReport(entries, name, text, lines, n, out)
      decreases |text| - start
    {
      var l, next := ReadLine(text, start, lines, n);
      out, seen := SearchLine(index, locator, safe, n, l, out, seen, entries, lines);
      start, n := next, n + 1;
    }
    assert Folded(0, n, out);
  }

  method SearchLine(index: Index, locator: Locator, safe: string, n: nat, l: Line, before: seq<Finding>,
                    seen: set<(nat, string, IdKind)>, ghost entries: seq<RawEntry>, ghost lines: seq<Line>)
    returns (out: seq<Finding>, seen': set<(nat, string, IdKind)>)
    requires Searchable(index, entries) && safe == Safe(entries, locator.name) && locator.Valid()
    requires n < |lines| && l == lines[n] && Collected(seen, before, safe, n)
    requires AreFindings(entries, locator.name, locator.text, lines, n, before)
    requires LinesReport(entries, locator.name, locator.text, lines, n, before)
    modifies locator
    ensures locator.Valid() && Collected(seen', out, safe, n + 1)
    ensures AreFindings(entries, locator.name, locator.text, lines, n + 1, out)
    ensures LinesReport(entries, locator.name, locator.text, lines, n + 1, out)
  {
    out, seen' := ReportLine(index, locator, safe, n, l, before, seen, entries);
    LineReported(entries, locator.name, locator.text, lines, n, before, out);
  }

  /** The line at start, without the carriage return of its end, and where the next one begins. */
  method ReadLine(text: string, start: nat, ghost lines: seq<Line>, ghost n: nat) returns (l: Line, next: nat)
    requires start < |text| && AtLine(text, start, lines, n)
    ensures n < |lines| && l == lines[n] && start < next && AtLine(text, next, lines, n + 1)
  {
    var newline := NewlineFrom(text, start);
    l, next := Line(start, WithoutReturn(text[start..newline])), newline + 1;
    assert lines[n..] == [l] + LinesFrom(text, next);
    assert lines[n..][0] == lines[n] && lines[n..][1..] == lines[n + 1..];
  }

  ghost predicate AtLine(text: string, start: nat, lines: seq<Line>, n: nat) {
    n <= |lines| && LinesFrom(text, start) == lines[n..]
  }

  lemma InLinesGrows(entries: seq<RawEntry>, name: string, text: string, lines: seq<Line>, n: nat, f: Finding)
    requires n < |lines|
    ensures InLines(entries, name, text, lines, n + 1, f) <==>
              InLines(entries, name, text, lines, n, f) || InLine(entries, name, text, n, lines[n], f)
  {
    if InLines(entries, name, text, lines, n + 1, f) {
      var i: nat :| i < n + 1 && InLine(entries, name, text, i, lines[i], f);
    }
  }

  lemma LineReported(entries: seq<RawEntry>, name: string, text: string, lines: seq<Line>, n: nat,
                     before: seq<Finding>, out: seq<Finding>)
    requires n < |lines|
    requires AreFindings(entries, name, text, lines, n, before) && LinesReport(entries, name, text, lines, n, before)
    requires before <= out && LineReport(entries, name, text, n, lines[n], out[|before|..])
    requires forall f :: f in out <==> f in before || InLine(entries, name, text, n, lines[n], f)
    ensures AreFindings(entries, name, text, lines, n + 1, out) && LinesReport(entries, name, text, lines, n + 1, out)
  {
    LinesReportMore(entries, name, text, lines, n, before, out[|before|..]);
    assert out == before + out[|before|..];
    LineFound(entries, name, text, lines, n, before, out);
  }

  lemma LineFound(entries: seq<RawEntry>, name: string, text: string, lines: seq<Line>, n: nat, before: seq<Finding>,
                  out: seq<Finding>)
    requires n < |lines| && AreFindings(entries, name, text, lines, n, before)
    requires forall f :: f in out <==> f in before || InLine(entries, name, text, n, lines[n], f)
    ensures AreFindings(entries, name, text, lines, n + 1, out)
  {
    assert Folded(0, n, before);
    forall f ensures InLines(entries, name, text, lines, n + 1, f) <==>
                       InLines(entries, name, text, lines, n, f) || InLine(entries, name, text, n, lines[n], f) {
      InLinesGrows(entries, name, text, lines, n, f);
    }
  }

  ghost predicate ExpectedIn(entries: seq<RawEntry>, files: seq<File>, end: nat, f: Finding) {
    exists i: nat :: i < end <= |files| && Expected(entries, files[i], f)
  }

  /** The findings of the first n files. */
  ghost predicate AllFound(entries: seq<RawEntry>, files: seq<File>, n: nat, out: seq<Finding>) {
    forall t {:trigger Folded(t, n, out)} ::
      Folded(t, n, out) ==> forall f :: f in out <==> ExpectedIn(entries, files, n, f)
  }

  lemma AllFoundMore(entries: seq<RawEntry>, files: seq<File>, n: nat, out: seq<Finding>, more: seq<Finding>)
    requires n < |files| && AllFound(entries, files, n, out)
    requires forall f :: f in more <==> Expected(entries, files[n], f)
    ensures AllFound(entries, files, n + 1, out + more)
  {
    assert Folded(0, n, out);
    forall f ensures f in out + more <==> ExpectedIn(entries, files, n + 1, f) {
      assert f in out + more <==> f in out || f in more;
      if ExpectedIn(entries, files, n + 1, f) {
        var i: nat :| i < n + 1 && Expected(entries, files[i], f);
        assert i < n ==> ExpectedIn(entries, files, n, f);
      }
    }
  }

  /** All the files, in order. */
  method Search(entries: seq<RawEntry>, files: seq<File>) returns (out: seq<Finding>)
    requires UniqueEntries(entries) && forall e :: e in entries ==> e.needle != []
    ensures FilesReport(entries, files, |files|, out)
    ensures forall f :: f in out <==> ExpectedIn(entries, files, |files|, f)
  {
    var index := BuildIndex(entries);
    assert Searchable(index, entries);
    out := [];
    for i := 0 to |files|
      invariant FilesReport(entries, files, i, out) && AllFound(entries, files, i, out)
    {
      var more := SearchFile(index, files[i], entries);
      FilesReportMore(entries, files, i, out, more);
      AllFoundMore(entries, files, i, out, more);
      out := out + more;
    }
    assert Folded(0, |files|, out);
  }

  // ----- what the report means

  /** Every file was read and no line of any has a match. */
  ghost predicate AllClean(entries: seq<RawEntry>, files: seq<File>) {
    forall i :: 0 <= i < |files| ==> files[i].content.Read? && CleanText(entries, files[i].content.text)
  }

  ghost predicate CleanText(entries: seq<RawEntry>, text: string) {
    forall n :: 0 <= n < |LinesFrom(text, 0)| ==> Clean(entries, LinesFrom(text, 0)[n].text)
  }

  /** No findings exactly when nothing leaked. */
  lemma NoFindingsIff(entries: seq<RawEntry>, files: seq<File>)
    ensures (forall f :: !ExpectedIn(entries, files, |files|, f)) <==> AllClean(entries, files)
  {
    if forall f :: !ExpectedIn(entries, files, |files|, f) {
      forall i | 0 <= i < |files| ensures files[i].content.Read? && CleanText(entries, files[i].content.text) {
        FileFound(entries, files[i]);
        if !(files[i].content.Read? && CleanText(entries, files[i].content.text)) {
          var f :| Expected(entries, files[i], f);
          assert ExpectedIn(entries, files, |files|, f);
        }
      }
    }
  }

  /** An unreadable file or one with a match has a finding. */
  lemma FileFound(entries: seq<RawEntry>, file: File)
    ensures (exists f :: Expected(entries, file, f)) <==> !(file.content.Read? && CleanText(entries, file.content.text))
  {
    match file.content
    case Unread =>
      assert Expected(entries, file, Finding(Safe(entries, file.name), 0, "", Unreadable));
    case Read(text) =>
      if !CleanText(entries, text) {
        var n: nat :| n < |LinesFrom(text, 0)| && !Clean(entries, LinesFrom(text, 0)[n].text);
        var m :| IsMatch(entries, LinesFrom(text, 0)[n].text, m);
        var f := FindingOf(entries, file.name, text, n, LinesFrom(text, 0)[n], m);
        assert InLine(entries, file.name, text, n, LinesFrom(text, 0)[n], f);
        assert Expected(entries, file, f);
      }
  }

  /** A finding never repeats an identifier: its file name and locator are clean or withheld. */
  lemma FindingSafe(entries: seq<RawEntry>, files: seq<File>, f: Finding)
    requires ExpectedIn(entries, files, |files|, f)
    ensures Clean(entries, f.file) || f.file == "(withheld)"
    ensures Clean(entries, f.locator) || f.locator == "(withheld)"
  {
    assert Clean(entries, "");
  }
}
