/** Where the leak search says a match is: the lines of a text, their numbers, and the files with locators. */
module LeakPlaces {
  import opened RawIdentifiers
  import opened LeakScan
  import opened Spans
  import opened LeakSearch
  import opened LeakMeaning
  import JsonSpans
  import XmlSpans

  // ----- lines

  /** The line ends of a text. */
  function LineEnds(text: string): nat {
    if text == [] then 0 else LineEnds(text[..|text| - 1]) + if text[|text| - 1] == '\n' then 1 else 0
  }

  /** A line stands in the text at its start, from a line end or the front up to a line end or the back, without the
      carriage return in front of it. */
  ghost predicate Stands(text: string, l: Line) {
    var end := l.start + |l.text|;
    && end <= |text| && text[l.start..end] == l.text && '\n' !in l.text
    && (l.start > 0 ==> text[l.start - 1] == '\n')
    && (|| ((end == |text| || text[end] == '\n') && (l.text != [] ==> l.text[|l.text| - 1] != '\r'))
        || (end < |text| && text[end] == '\r' && (end + 1 == |text| || text[end + 1] == '\n')))
  }

  lemma {:induction false} NewlineFromIs(text: string, j: nat)
    requires j <= |text|
    ensures '\n' !in text[j..NewlineFrom(text, j)]
    ensures NewlineFrom(text, j) < |text| ==> text[NewlineFrom(text, j)] == '\n'
    decreases |text| - j
  {
    if j < |text| && text[j] != '\n' {
      NewlineFromIs(text, j + 1);
      assert text[j..NewlineFrom(text, j)] == [text[j]] + text[j + 1..NewlineFrom(text, j)];
    }
  }

  lemma {:induction false} NoLineEnds(text: string, j: nat, end: nat)
    requires j <= end <= |text| && '\n' !in text[j..end]
    ensures LineEnds(text[..end]) == LineEnds(text[..j])
    decreases end
  {
    if j < end {
      assert text[..end][..end - 1] == text[..end - 1];
      assert text[j..end][end - 1 - j] == text[end - 1];
      assert forall i :: 0 <= i < end - 1 - j ==> text[j..end - 1][i] == text[j..end][i];
      NoLineEnds(text, j, end - 1);
    }
  }

  lemma FirstLineStands(text: string, start: nat)
    requires start < |text| && (start > 0 ==> text[start - 1] == '\n')
    ensures Stands(text, LinesFrom(text, start)[0])
  {
    var newline := NewlineFrom(text, start);
    NewlineFromIs(text, start);
    var whole := text[start..newline];
    var l := Line(start, WithoutReturn(whole));
    assert LinesFrom(text, start)[0] == l;
    assert l.text == whole[..|l.text|];
    assert text[start..start + |l.text|] == whole[..|l.text|];
    if whole != [] && whole[|whole| - 1] == '\r' {
      assert text[newline - 1] == '\r';
    }
  }

  lemma NextLineEnds(text: string, start: nat, newline: nat)
    requires start <= newline < |text| && '\n' !in text[start..newline] && text[newline] == '\n'
    ensures LineEnds(text[..newline + 1]) == LineEnds(text[..start]) + 1
  {
    NoLineEnds(text, start, newline);
    assert text[..newline + 1][..newline] == text[..newline];
  }

  /** The line of index n stands in the text and has n line ends in front of it. */
  lemma {:induction false} LineStands(text: string, start: nat, n: nat)
    requires start <= |text| && n < |LinesFrom(text, start)| && (start > 0 ==> text[start - 1] == '\n')
    ensures var l := LinesFrom(text, start)[n];
            Stands(text, l) && LineEnds(text[..l.start]) == LineEnds(text[..start]) + n
    decreases |text| - start
  {
    var newline := NewlineFrom(text, start);
    NewlineFromIs(text, start);
    if n == 0 {
      FirstLineStands(text, start);
    } else {
      assert LinesFrom(text, start)[n] == LinesFrom(text, newline + 1)[n - 1];
      NextLineEnds(text, start, newline);
      LineStands(text, newline + 1, n - 1);
    }
  }

  /** Every character but a line end, and the carriage return in front of one, stands in a line. */
  lemma {:induction false} LineOf(text: string, start: nat, at: nat) returns (n: nat)
    requires start <= at < |text| && text[at] != '\n' && text[at] != '\r'
    ensures n < |LinesFrom(text, start)|
    ensures var l := LinesFrom(text, start)[n]; l.start <= at < l.start + |l.text|
    decreases |text| - start
  {
    var newline := NewlineFrom(text, start);
    NewlineFromIs(text, start);
    if at < newline {
      n := 0;
      assert text[start..newline][at - start] == text[at];
    } else {
      n := LineOf(text, newline + 1, at);
      n := n + 1;
    }
  }

  // ----- findings

  lemma LineEndsBefore(text: string, l: Line, i: nat)
    requires Stands(text, l) && i <= |l.text|
    ensures LineEnds(text[..l.start + i]) == LineEnds(text[..l.start])
  {
    assert text[l.start..l.start + i] == l.text[..i];
    assert '\n' !in l.text[..i];
    NoLineEnds(text, l.start, l.start + i);
  }

  /** A line with a match, the place of the match and what is reported of it. */
  ghost predicate IsPlace(entries: seq<RawEntry>, name: string, text: string, l: Line, m: Match, f: Finding) {
    && Stands(text, l) && m.entry in entries && m.at < |l.text| && Found(m.entry, l.text, m.at)
    && f.line == LineEnds(text[..l.start + m.at]) + 1 && f.kind == m.entry.kind
    && f.file == Safe(entries, name) && f.locator == Safe(entries, Nearest(SpansOfFile(name, text), l.start + m.at))
  }

  lemma LineNumber(text: string, n: nat, l: Line, i: nat)
    requires n < |LinesFrom(text, 0)| && l == LinesFrom(text, 0)[n] && i <= |l.text|
    ensures Stands(text, l) && LineEnds(text[..l.start + i]) == n
  {
    LineStands(text, 0, n);
    assert text[..0] == [];
    LineEndsBefore(text, l, i);
  }

  lemma MatchFound(entries: seq<RawEntry>, line: string, m: Match)
    requires IsMatch(entries, line, m)
    ensures m.entry in entries && m.at < |line| && Found(m.entry, line, m.at)
  {
    MatchIff(entries, line, m);
  }

  lemma MatchPlaced(entries: seq<RawEntry>, name: string, text: string, n: nat, l: Line, m: Match)
    requires n < |LinesFrom(text, 0)| && l == LinesFrom(text, 0)[n] && IsMatch(entries, l.text, m)
    ensures IsPlace(entries, name, text, l, m, FindingOf(entries, name, text, n, l, m))
  {
    MatchFound(entries, l.text, m);
    LineNumber(text, n, l, m.at);
  }

  /** A finding in a file that was read names a place where an identifier stands: the number of its line, counted from
      1, the locator of that very offset, and the kind. */
  lemma FindingStands(entries: seq<RawEntry>, name: string, text: string, f: Finding) returns (l: Line, m: Match)
    requires Expected(entries, File(name, Read(text)), f)
    ensures IsPlace(entries, name, text, l, m, f)
  {
    var n: nat :| n < |LinesFrom(text, 0)| && InLine(entries, name, text, n, LinesFrom(text, 0)[n], f);
    l := LinesFrom(text, 0)[n];
    m :| IsMatch(entries, l.text, m) && f == FindingOf(entries, name, text, n, l, m);
    MatchPlaced(entries, name, text, n, l, m);
  }

  // ----- which files have locators

  lemma LastDotAt(name: string, k: nat)
    requires k < |name| && name[k] == '.' && forall i :: k < i < |name| ==> name[i] != '.'
    ensures LastDot(name) == k
  {
  }

  lemma JsonIff(name: string)
    ensures Extension(name) == ".json" <==> |name| > 5 && name[|name| - 5..] == ".json"
  {
    if |name| > 5 && name[|name| - 5..] == ".json" {
      var tail, k := name[|name| - 5..], |name| - 5;
      assert forall j :: 0 <= j < 5 ==> name[k + j] == tail[j];
      assert tail[0] == '.' && tail[1] != '.' && tail[2] != '.' && tail[3] != '.' && tail[4] != '.';
      assert name[k + 1] != '.' && name[k + 2] != '.' && name[k + 3] != '.' && name[k + 4] != '.';
      LastDotAt(name, k);
    }
  }

  lemma XmlIff(name: string)
    ensures Extension(name) == ".xml" <==> |name| > 4 && name[|name| - 4..] == ".xml"
  {
    if |name| > 4 && name[|name| - 4..] == ".xml" {
      var tail, k := name[|name| - 4..], |name| - 4;
      assert forall j :: 0 <= j < 4 ==> name[k + j] == tail[j];
      assert tail[0] == '.' && tail[1] != '.' && tail[2] != '.' && tail[3] != '.';
      assert name[k + 1] != '.' && name[k + 2] != '.' && name[k + 3] != '.';
      LastDotAt(name, k);
    }
  }

  /** JSON and XML files are told by their names' ends, and only they have locators. */
  lemma LocatorsByName(name: string, text: string)
    ensures SpansOfFile(name, text) ==
            if |name| > 5 && name[|name| - 5..] == ".json" then JsonSpans.SpansFrom(text, JsonSpans.START)
            else if |name| > 4 && name[|name| - 4..] == ".xml" then XmlSpans.SpansFrom(text, XmlSpans.START)
            else []
  {
    JsonIff(name);
    XmlIff(name);
    FileSpans(name, text);
  }
}
