/** The diagnostics of a run: lines noted one after the other and rendered into one text. */
module Diagnostics {
  import opened RawIdentifiers
  import opened LeakSearch
  import LeakScan
  import JsonSpans

  /** A line is preceded by a line end unless nothing but empty lines came before it. */
  function Rendered(lines: seq<string>): string {
    if lines == [] then []
    else
      var before := Rendered(lines[..|lines| - 1]);
      before + (if before == [] then [] else "\n") + lines[|lines| - 1]
  }

  method Render(lines: seq<string>) returns (out: string)
    ensures out == Rendered(lines)
  {
    out := "";
    for i := 0 to |lines|
      invariant out == Rendered(lines[..i])
    {
      assert lines[..i + 1][..i] == lines[..i];
      if out != [] {
        out := out + "\n";
      }
      out := out + lines[i];
    }
    assert lines[..|lines|] == lines;
  }

  /** The text of diagnostics.txt. */
  function Written(lines: seq<string>): string { Rendered(lines) + "\n" }

  // ----- the lines after the leak search

  function KindName(kind: IdKind): string {
    match kind
    case Mac => "mac"
    case Guid => "guid"
    case Gid => "gid"
    case Ipv4 => "ipv4"
    case Ipv6 => "ipv6"
    case Ipoib => "ipoib"
    case Uuid => "uuid"
    case Serial => "serial"
    case Hostname => "hostname"
    case MachineId => "machine-id"
    case Dmi => "dmi"
    case InstanceId => "instance-id"
    case Extra => "extra"
    case Unreadable => "unreadable"
  }

  function FindingText(f: Finding): string {
    if f.kind == Unreadable then f.file + ":0 unreadable"
    else
      var place := if f.locator == "" then "" else " " + f.locator;
      f.file + ":" + JsonSpans.Decimal(f.line) + place + ": " + KindName(f.kind)
  }

  function SearchNote(files: nat, findings: nat, time: string): string {
    "leak search: " + JsonSpans.Decimal(files) + " file(s), " + JsonSpans.Decimal(findings) + " finding(s) in " + time
  }

  function LeakNotes(findings: seq<Finding>): (r: seq<string>)
    ensures |r| == |findings| && forall i :: 0 <= i < |findings| ==> r[i] == "leak: " + FindingText(findings[i])
  {
    seq(|findings|, i requires 0 <= i < |findings| => "leak: " + FindingText(findings[i]))
  }

  function ReplayNote(time: string): string { "replay: topo1 in " + time }

  function ReplayErrorNote(code: string, file: string): string {
    "replay: " + code + " in " + if file == "" then "(model)" else file
  }

  function ExitNote(code: nat): string { "capture: exit " + JsonSpans.Decimal(code) }

  // ----- a rendered text is clean exactly when every line noted is

  /** Every line of the text from start on is ok. */
  ghost predicate LinesOk(ok: string -> bool, text: string, start: nat)
    decreases |text| - start
  {
    start >= |text| ||
    var end := NewlineFrom(text, start);
    ok(WithoutReturn(text[start..end])) && LinesOk(ok, text, end + 1)
  }

  lemma {:induction false} NewlineFromIs(text: string, j: nat)
    requires j <= |text|
    ensures forall i :: j <= i < NewlineFrom(text, j) ==> text[i] != '\n'
    ensures NewlineFrom(text, j) < |text| ==> text[NewlineFrom(text, j)] == '\n'
    decreases |text| - j
  {
    if j < |text| && text[j] != '\n' {
      NewlineFromIs(text, j + 1);
    }
  }

  lemma {:induction false} NewlineAt(text: string, j: nat, r: nat)
    requires j <= r <= |text| && (r < |text| ==> text[r] == '\n') && forall i :: j <= i < r ==> text[i] != '\n'
    ensures NewlineFrom(text, j) == r
    decreases r - j
  {
    if j < r {
      NewlineAt(text, j + 1, r);
    }
  }

  /** A line that begins inside a ends there too, or where b begins. */
  lemma SameNewline(a: string, b: string, j: nat)
    requires j <= |a| && (NewlineFrom(a, j) < |a| || b == [] || b[0] == '\n')
    ensures NewlineFrom(a + b, j) == NewlineFrom(a, j)
  {
    NewlineFromIs(a, j);
    NewlineAt(a + b, j, NewlineFrom(a, j));
  }

  lemma ShiftedNewline(text: string, b: string, j: nat)
    requires j <= |b| <= |text| && text[|text| - |b|..] == b
    ensures NewlineFrom(text, |text| - |b| + j) == |text| - |b| + NewlineFrom(b, j)
    ensures text[|text| - |b| + j..|text| - |b| + NewlineFrom(b, j)] == b[j..NewlineFrom(b, j)]
  {
    NewlineFromIs(b, j);
    var end, off := NewlineFrom(b, j), |text| - |b|;
    assert forall i :: 0 <= i < |b| ==> text[off + i] == b[i] by {
      assert forall i :: 0 <= i < |b| ==> text[off..][i] == text[off + i];
    }
    NewlineAt(text, off + j, off + end);
    assert text[off + j..off + end] == b[j..end];
  }

  /** The lines at the end of a text. */
  lemma {:induction false} ShiftedOk(ok: string -> bool, text: string, b: string, j: nat)
    requires |b| <= |text| && text[|text| - |b|..] == b
    ensures LinesOk(ok, text, |text| - |b| + j) <==> LinesOk(ok, b, j)
    decreases |b| - j
  {
    if j < |b| {
      ShiftedNewline(text, b, j);
      ShiftedOk(ok, text, b, NewlineFrom(b, j) + 1);
    }
  }

  /** Text in front that ends its last line stands on its own. */
  lemma {:induction false} SplitOk(ok: string -> bool, a: string, b: string, start: nat)
    requires start <= |a| && (a != [] ==> a[|a| - 1] == '\n')
    ensures LinesOk(ok, a + b, start) <==> LinesOk(ok, a, start) && LinesOk(ok, b, 0)
    decreases |a| - start
  {
    if start == |a| {
      ShiftedOk(ok, a + b, b, 0);
    } else {
      var end := NewlineFrom(a, start);
      NewlineFromIs(a, start);
      SameNewline(a, b, start);
      assert (a + b)[start..end] == a[start..end];
      SplitOk(ok, a, b, end + 1);
    }
  }

  /** A line end at the end adds no more than an empty line. */
  lemma {:induction false} EndedOk(ok: string -> bool, a: string, start: nat)
    requires start <= |a| && ok([])
    ensures LinesOk(ok, a + "\n", start) <==> LinesOk(ok, a, start)
    decreases |a| - start
  {
    if start == |a| {
      ShiftedOk(ok, a + "\n", "\n", 0);
    } else {
      var end := NewlineFrom(a, start);
      SameNewline(a, "\n", start);
      assert (a + "\n")[start..end] == a[start..end];
      LinesStep(ok, a, start, end);
      LinesStep(ok, a + "\n", start, end);
      if end < |a| {
        EndedOk(ok, a, end + 1);
      }
    }
  }

  lemma {:induction false} RenderedOk(ok: string -> bool, lines: seq<string>)
    requires ok([])
    ensures LinesOk(ok, Rendered(lines), 0) <==> forall l :: l in lines ==> LinesOk(ok, l, 0)
  {
    if lines != [] {
      var rest, last := lines[..|lines| - 1], lines[|lines| - 1];
      RenderedOk(ok, rest);
      assert lines == rest + [last];
      if Rendered(rest) == [] {
        assert Rendered(lines) == last;
      } else {
        assert Rendered(lines) == Rendered(rest) + "\n" + last;
        EndedOk(ok, Rendered(rest), 0);
        SplitOk(ok, Rendered(rest) + "\n", last, 0);
      }
    }
  }

  ghost predicate AllOk(ok: string -> bool, lines: seq<Line>) {
    forall l :: l in lines ==> ok(l.text)
  }

  lemma OneMoreOk(ok: string -> bool, first: Line, rest: seq<Line>)
    ensures AllOk(ok, [first] + rest) <==> ok(first.text) && AllOk(ok, rest)
  {
    if AllOk(ok, [first] + rest) {
      assert first in [first] + rest;
      assert forall l :: l in rest ==> l in [first] + rest;
    }
  }

  lemma {:induction false} LinesOkIs(ok: string -> bool, text: string, start: nat)
    ensures LinesOk(ok, text, start) <==> AllOk(ok, LinesFrom(text, start))
    decreases |text| - start
  {
    if start < |text| {
      var end := NewlineFrom(text, start);
      LinesOkIs(ok, text, end + 1);
      LinesStep(ok, text, start, end);
      OneMoreOk(ok, Line(start, WithoutReturn(text[start..end])), LinesFrom(text, end + 1));
    }
  }

  /** The line at start and those after it. */
  lemma LinesStep(ok: string -> bool, text: string, start: nat, end: nat)
    requires start < |text| && end == NewlineFrom(text, start)
    ensures LinesOk(ok, text, start) <==> ok(WithoutReturn(text[start..end])) && LinesOk(ok, text, end + 1)
    ensures LinesFrom(text, start) == [Line(start, WithoutReturn(text[start..end]))] + LinesFrom(text, end + 1)
  {
  }

  ghost function CleanIn(entries: seq<RawEntry>): string -> bool { s => Clean(entries, s) }

  lemma CleanTextIs(entries: seq<RawEntry>, text: string)
    ensures CleanText(entries, text) <==> LinesOk(CleanIn(entries), text, 0)
  {
    LinesOkIs(CleanIn(entries), text, 0);
  }

  /** A text of one line. */
  lemma PlainLineClean(entries: seq<RawEntry>, line: string)
    requires Clean(entries, line) && (line != [] ==> line[|line| - 1] != '\r') && '\n' !in line
    ensures CleanText(entries, line)
  {
    CleanTextIs(entries, line);
    NewlineAt(line, 0, |line|);
    assert line[0..|line|] == line;
  }

  /** Every line noted is clean. */
  ghost predicate AllLinesClean(entries: seq<RawEntry>, lines: seq<string>) {
    forall l :: l in lines ==> CleanText(entries, l)
  }

  /** The text written holds an identifier exactly when some line noted does. */
  lemma WrittenClean(entries: seq<RawEntry>, lines: seq<string>)
    ensures CleanText(entries, Written(lines)) <==> AllLinesClean(entries, lines)
  {
    var ok := CleanIn(entries);
    assert Clean(entries, []);
    CleanTextIs(entries, Written(lines));
    EndedOk(ok, Rendered(lines), 0);
    RenderedOk(ok, lines);
    forall l | l in lines ensures CleanText(entries, l) <==> LinesOk(ok, l, 0) {
      CleanTextIs(entries, l);
    }
  }

  /** Lines noted later keep a clean text clean exactly when they are clean. */
  lemma LaterLinesClean(entries: seq<RawEntry>, searched: seq<string>, later: seq<string>)
    requires CleanText(entries, Written(searched))
    ensures CleanText(entries, Written(searched + later)) <==> AllLinesClean(entries, later)
  {
    WrittenClean(entries, searched);
    WrittenClean(entries, searched + later);
  }

  /** The line the replay adds holds the identifier of a host named replay. */
  lemma ReplayNoteLeaks(entries: seq<RawEntry>, time: string)
    requires RawEntry(Hostname, Token, "replay") in entries
    ensures !CleanText(entries, ReplayNote(time))
  {
    var text := ReplayNote(time);
    NewlineFromIs(text, 0);
    assert text[..17] == "replay: topo1 in ";
    assert NewlineFrom(text, 0) >= 17;
    var first := WithoutReturn(text[0..NewlineFrom(text, 0)]);
    assert |first| >= 16 && forall i :: 0 <= i < 7 ==> first[i] == "replay:"[i];
    ReplayFound(entries, first);
    CleanTextIs(entries, text);
  }

  lemma ReplayFound(entries: seq<RawEntry>, line: string)
    requires RawEntry(Hostname, Token, "replay") in entries && |line| >= 7
    requires forall i :: 0 <= i < 7 ==> line[i] == "replay:"[i]
    ensures !Clean(entries, line)
  {
    var e := RawEntry(Hostname, Token, "replay");
    assert Lowered(line)[0..6] == e.needle && Lowered(line)[6] == ':';
    assert LeakScan.IsMatch(entries, line, LeakScan.Match(e, 0));
  }

  /** A line without the letter r is clean for a host of that name. */
  lemma CleanWithoutR(entries: seq<RawEntry>, line: string)
    requires entries == [RawEntry(Hostname, Token, "replay")]
    requires line != [] && 'r' !in line && 'R' !in line && '\n' !in line && line[|line| - 1] != '\r'
    ensures CleanText(entries, line)
  {
    if m :| LeakScan.IsMatch(entries, line, m) {
      assert m.entry == RawEntry(Hostname, Token, "replay");
      StartsWithR(line, m.entry.needle, m.at);
    }
    PlainLineClean(entries, line);
  }

  lemma StartsWithR(line: string, needle: string, i: nat)
    requires LeakScan.Anchored(Lowered(line), needle, i) && needle[0] == 'r'
    ensures 'r' in line || 'R' in line
  {
    assert Lowered(line)[i..i + |needle|][0] == Lowered(line)[i] == Lower(line[i]);
    assert line[i] in line;
  }
}
