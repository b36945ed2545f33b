/** What a match is, character by character: case and, for hex identifiers, separators never hide one. */
module LeakMeaning {
  import opened RawIdentifiers
  import opened LeakScan
  import opened LeakSearch

  // ----- characters

  /** The same character, or the capital and the small form of one ASCII letter. */
  predicate Alike(c: char, d: char) {
    c == d || (IsCapital(c) && d as int == c as int + 32) || (IsCapital(d) && c as int == d as int + 32)
  }

  predicate IsCapital(c: char) { 'A' <= c <= 'Z' }

  predicate AlikeText(s: string, t: string) {
    |s| == |t| && forall i :: 0 <= i < |s| ==> Alike(s[i], t[i])
  }

  const SEPARATORS: set<char> := {':', '-', '.', '_', ' '}

  const BLANKS: set<char> := {' ', '\t', '\r', '\n', '\0'}

  /** A character of host names, serial numbers and addresses. */
  predicate InToken(c: char) {
    IsCapital(c) || 'a' <= c <= 'z' || '0' <= c <= '9' || c in {'.', '_', '-'}
  }

  lemma LowerIff(c: char, d: char)
    ensures Lower(c) == d <==> Alike(c, d) && !IsCapital(d)
    ensures Lower(c) == Lower(d) <==> Alike(c, d)
  {
  }

  lemma CharactersIff(c: char)
    ensures IsSeparator(c) <==> c in SEPARATORS
    ensures IsTokenChar(c) <==> InToken(c)
    ensures IsTokenChar(Lower(c)) <==> InToken(c)
    ensures IsBlank(c) <==> c in BLANKS
  {
  }

  // ----- needles and matches

  /** The characters of s that separate nothing, in order and in lower case, are the needle. */
  predicate Spells(s: string, needle: string) {
    if s == [] then needle == []
    else if s[0] in SEPARATORS then Spells(s[1..], needle)
    else needle != [] && Alike(s[0], needle[0]) && !IsCapital(needle[0]) && Spells(s[1..], needle[1..])
  }

  lemma {:induction false} SpellsIff(s: string, needle: string)
    ensures Spells(s, needle) <==> needle == NormalisedHex(s)
  {
    if s != [] {
      CharactersIff(s[0]);
      if s[0] in SEPARATORS {
        SpellsIff(s[1..], needle);
      } else {
        var rest := NormalisedHex(s[1..]);
        assert NormalisedHex(s) == [Lower(s[0])] + rest;
        if needle != [] {
          SpellsIff(s[1..], needle[1..]);
          LowerIff(s[0], needle[0]);
          assert needle == [needle[0]] + needle[1..];
        }
      }
    }
  }

  /** A hex needle spelled by a piece of the line that begins at i. */
  ghost predicate HexFound(line: string, i: nat, needle: string) {
    i < |line| && line[i] !in SEPARATORS && exists j: nat :: i <= j <= |line| && Spells(line[i..j], needle)
  }

  /** A token needle in the line at i, whatever its case there, and neither end of it inside a longer token. */
  ghost predicate TokenFound(line: string, i: nat, needle: string) {
    && needle != [] && i + |needle| <= |line|
    && (forall k :: 0 <= k < |needle| ==> Alike(line[i + k], needle[k]) && !IsCapital(needle[k]))
    && !(i > 0 && InToken(line[i - 1]) && InToken(needle[0]))
    && !(i + |needle| < |line| && InToken(needle[|needle| - 1]) && InToken(line[i + |needle|]))
  }

  ghost predicate Found(e: RawEntry, line: string, i: nat) {
    if e.mode == Hex then HexFound(line, i, e.needle) else TokenFound(line, i, e.needle)
  }

  /** What begins a normalised text is the normalised form of a beginning. */
  lemma {:induction false} PrefixSpelled(s: string, needle: string) returns (j: nat)
    requires needle <= NormalisedHex(s)
    ensures j <= |s| && NormalisedHex(s[..j]) == needle
  {
    if needle == [] {
      j := 0;
    } else if IsSeparator(s[0]) {
      j := PrefixSpelled(s[1..], needle);
      assert s[..j + 1][1..] == s[1..][..j];
      j := j + 1;
    } else {
      assert NormalisedHex(s) == [Lower(s[0])] + NormalisedHex(s[1..]);
      assert NormalisedHex(s)[1..] == NormalisedHex(s[1..]);
      j := PrefixSpelled(s[1..], needle[1..]);
      assert s[..j + 1][1..] == s[1..][..j];
      assert needle == [needle[0]] + needle[1..];
      j := j + 1;
    }
  }

  lemma HexFoundIff(line: string, i: nat, needle: string)
    ensures HexFound(line, i, needle) <==> i < |line| && !IsSeparator(line[i]) && needle <= NormalisedHex(line[i..])
  {
    if i < |line| {
      CharactersIff(line[i]);
      if j: nat :| i <= j <= |line| && Spells(line[i..j], needle) {
        SpellsIff(line[i..j], needle);
        NormalisedConcat(line[i..j], line[j..]);
        assert line[i..] == line[i..j] + line[j..];
      }
      if needle <= NormalisedHex(line[i..]) {
        var j := PrefixSpelled(line[i..], needle);
        assert line[i..][..j] == line[i..i + j];
        SpellsIff(line[i..i + j], needle);
      }
    }
  }

  lemma TokenFoundIff(line: string, i: nat, needle: string)
    ensures TokenFound(line, i, needle) <==> Anchored(Lowered(line), needle, i)
  {
    var low := Lowered(line);
    if needle != [] && i + |needle| <= |line| {
      forall k | 0 <= k < |needle|
        ensures low[i + k] == needle[k] <==> Alike(line[i + k], needle[k]) && !IsCapital(needle[k])
      {
        LowerIff(line[i + k], needle[k]);
      }
      if low[i..i + |needle|] == needle {
        forall k | 0 <= k < |needle| ensures low[i + k] == needle[k] {
          assert low[i..i + |needle|][k] == low[i + k];
        }
      }
      CharactersIff(needle[0]);
      CharactersIff(needle[|needle| - 1]);
      if i > 0 {
        CharactersIff(line[i - 1]);
      }
      if i + |needle| < |line| {
        CharactersIff(line[i + |needle|]);
      }
    }
  }

  /** The matches of a line are the places where an identifier stands in it. */
  lemma MatchIff(entries: seq<RawEntry>, line: string, m: Match)
    ensures IsMatch(entries, line, m) <==> m.entry in entries && Found(m.entry, line, m.at)
  {
    HexFoundIff(line, m.at, m.entry.needle);
    TokenFoundIff(line, m.at, m.entry.needle);
  }

  /** A text is clean exactly when no identifier stands anywhere in it. */
  lemma CleanIff(entries: seq<RawEntry>, s: string)
    ensures Clean(entries, s) <==> forall e, i: nat :: e in entries ==> !Found(e, s, i)
  {
    forall m ensures IsMatch(entries, s, m) <==> m.entry in entries && Found(m.entry, s, m.at) {
      MatchIff(entries, s, m);
    }
    if Clean(entries, s) {
      forall e, i: nat | e in entries ensures !Found(e, s, i) {
        assert !IsMatch(entries, s, Match(e, i));
      }
    }
  }

  // ----- what makes no difference

  lemma {:induction false} AlikeNormalised(s: string, t: string)
    requires AlikeText(s, t)
    ensures NormalisedHex(s) == NormalisedHex(t) && Lowered(s) == Lowered(t)
  {
    forall i | 0 <= i < |s| ensures Lower(s[i]) == Lower(t[i]) {
      LowerIff(s[i], t[i]);
    }
    if s != [] {
      AlikeNormalised(s[1..], t[1..]);
    }
  }

  /** Lines that differ in case only have the same matches. */
  lemma CaseForgotten(entries: seq<RawEntry>, s: string, t: string, m: Match)
    requires AlikeText(s, t)
    ensures IsMatch(entries, s, m) <==> IsMatch(entries, t, m)
  {
    AlikeNormalised(s, t);
    if m.at < |s| {
      assert Alike(s[m.at], t[m.at]);
      AlikeNormalised(s[m.at..], t[m.at..]);
    }
  }

  /** Values that differ in case only have the same needle. */
  lemma ValueCaseForgotten(mode: MatchMode, v: string, w: string)
    requires AlikeText(v, w)
    ensures NeedleOf(mode, v) == NeedleOf(mode, w)
  {
    AlikeTrimmed(v, w);
    AlikeNormalised(Trimmed(v), Trimmed(w));
  }

  lemma AlikeTrimmed(v: string, w: string)
    requires AlikeText(v, w)
    ensures AlikeText(Trimmed(v), Trimmed(w))
  {
    AlikeTrimmedFront(v, w);
    AlikeTrimmedBack(TrimmedFront(v), TrimmedFront(w));
  }

  lemma {:induction false} AlikeTrimmedFront(v: string, w: string)
    requires AlikeText(v, w)
    ensures AlikeText(TrimmedFront(v), TrimmedFront(w))
  {
    if v != [] && IsBlank(v[0]) {
      AlikeTrimmedFront(v[1..], w[1..]);
    }
  }

  lemma {:induction false} AlikeTrimmedBack(v: string, w: string)
    requires AlikeText(v, w)
    ensures AlikeText(TrimmedBack(v), TrimmedBack(w))
  {
    if v != [] && IsBlank(v[|v| - 1]) {
      AlikeTrimmedBack(v[..|v| - 1], w[..|w| - 1]);
    }
  }

  predicate HasInk(s: string) { exists i :: 0 <= i < |s| && s[i] !in BLANKS }

  lemma {:induction false} FrontKept(s: string, t: string)
    requires HasInk(s)
    ensures TrimmedFront(s + t) == TrimmedFront(s) + t && HasInk(TrimmedFront(s))
  {
    CharactersIff(s[0]);
    assert (s + t)[0] == s[0] && (s + t)[1..] == s[1..] + t;
    if s[0] in BLANKS {
      var i :| 0 <= i < |s| && s[i] !in BLANKS;
      assert s[1..][i - 1] == s[i];
      FrontKept(s[1..], t);
    }
  }

  lemma {:induction false} BackKept(s: string, t: string)
    requires HasInk(t)
    ensures TrimmedBack(s + t) == s + TrimmedBack(t)
  {
    var n := |t| - 1;
    CharactersIff(t[n]);
    assert (s + t)[|s + t| - 1] == t[n] && (s + t)[..|s + t| - 1] == s + t[..n];
    if t[n] in BLANKS {
      var i :| 0 <= i < |t| && t[i] !in BLANKS;
      assert t[..n][i] == t[i];
      BackKept(s, t[..n]);
    }
  }

  /** A separator inside a hex identifier makes no difference to its needle. */
  lemma SeparatorForgotten(a: string, c: char, b: string)
    requires c in SEPARATORS && HasInk(a) && HasInk(b)
    ensures NeedleOf(Hex, a + [c] + b) == NeedleOf(Hex, a + b)
  {
    FrontKept(a, [c] + b);
    FrontKept(a, b);
    assert a + [c] + b == a + ([c] + b);
    assert TrimmedFront(a) + ([c] + b) == TrimmedFront(a) + [c] + b;
    BackKept(TrimmedFront(a) + [c], b);
    BackKept(TrimmedFront(a), b);
    SeparatorDropped(TrimmedFront(a), c, TrimmedBack(b));
  }

  lemma SeparatorDropped(a: string, c: char, b: string)
    requires c in SEPARATORS
    ensures NormalisedHex(a + [c] + b) == NormalisedHex(a + b)
  {
    CharactersIff(c);
    NormalisedConcat(a + [c], b);
    NormalisedConcat(a, [c]);
    NormalisedConcat(a, b);
    assert NormalisedHex([c]) == [];
  }

  // ----- separators in a line

  ghost predicate HasHexMatch(entries: seq<RawEntry>, line: string) { exists m :: HexMatch(entries, line, m) }

  /** Some needle stands in the normalised line. */
  ghost predicate HoldsNeedle(entries: seq<RawEntry>, norm: string) {
    exists e, k: nat :: e in entries && e.mode == Hex && k <= |norm| && e.needle <= norm[k..]
  }

  /** The k-th character of the normalised line stands in the line. */
  lemma {:induction false} OriginOf(line: string, k: nat) returns (j: nat)
    requires k < |NormalisedHex(line)|
    ensures j < |line| && !IsSeparator(line[j]) && NormalisedHex(line[j..]) == NormalisedHex(line)[k..]
  {
    if IsSeparator(line[0]) {
      j := OriginOf(line[1..], k);
      assert line[1..][j..] == line[j + 1..];
      j := j + 1;
    } else {
      assert NormalisedHex(line) == [Lower(line[0])] + NormalisedHex(line[1..]);
      j := 0;
      if k > 0 {
        j := OriginOf(line[1..], k - 1);
        assert line[1..][j..] == line[j + 1..];
        j := j + 1;
      }
    }
  }

  lemma HasHexMatchIff(entries: seq<RawEntry>, line: string)
    requires forall e :: e in entries ==> e.needle != []
    ensures HasHexMatch(entries, line) <==> HoldsNeedle(entries, NormalisedHex(line))
  {
    var norm := NormalisedHex(line);
    if m :| HexMatch(entries, line, m) {
      NormalisedTail(line, m.at);
    }
    if e, k: nat :| e in entries && e.mode == Hex && k <= |norm| && e.needle <= norm[k..] {
      var j := OriginOf(line, k);
      assert HexMatch(entries, line, Match(e, j));
    }
  }

  /** Nor does a separator anywhere in a line hide a hex identifier or bring one up. */
  lemma LineSeparatorForgotten(entries: seq<RawEntry>, a: string, c: char, b: string)
    requires c in SEPARATORS && forall e :: e in entries ==> e.needle != []
    ensures HasHexMatch(entries, a + [c] + b) <==> HasHexMatch(entries, a + b)
  {
    HasHexMatchIff(entries, a + [c] + b);
    HasHexMatchIff(entries, a + b);
    SeparatorDropped(a, c, b);
  }

  // ----- what is kept of a value

  /** Trimming drops blanks at the ends, and nothing else. */
  lemma TrimmedIs(s: string) returns (front: string, back: string)
    ensures s == front + Trimmed(s) + back && forall c :: c in front || c in back ==> c in BLANKS
    ensures Trimmed(s) != [] ==> Trimmed(s)[0] !in BLANKS && Trimmed(s)[|Trimmed(s)| - 1] !in BLANKS
  {
    front := TrimmedFrontIs(s);
    back := TrimmedBackIs(TrimmedFront(s));
    assert front + (Trimmed(s) + back) == front + Trimmed(s) + back;
  }

  lemma {:induction false} TrimmedFrontIs(s: string) returns (front: string)
    ensures s == front + TrimmedFront(s) && forall c :: c in front ==> c in BLANKS
    ensures TrimmedFront(s) != [] ==> TrimmedFront(s)[0] !in BLANKS
  {
    front := [];
    if s != [] {
      CharactersIff(s[0]);
      if s[0] in BLANKS {
        front := TrimmedFrontIs(s[1..]);
        front := [s[0]] + front;
      }
    }
  }

  lemma {:induction false} TrimmedBackIs(s: string) returns (back: string)
    ensures s == TrimmedBack(s) + back && forall c :: c in back ==> c in BLANKS
    ensures TrimmedBack(s) != [] ==> TrimmedBack(s)[0] == s[0] && TrimmedBack(s)[|TrimmedBack(s)| - 1] !in BLANKS
  {
    back := [];
    if s != [] {
      CharactersIff(s[|s| - 1]);
      if s[|s| - 1] in BLANKS {
        back := TrimmedBackIs(s[..|s| - 1]);
        back := back + [s[|s| - 1]];
      }
    }
  }

  /** A needle is the trimmed value in lower case, a hex one without its separators. */
  lemma NeedleIs(value: string)
    ensures Spells(Trimmed(value), NeedleOf(Hex, value))
    ensures AlikeText(Trimmed(value), NeedleOf(Token, value))
    ensures forall c :: c in NeedleOf(Token, value) ==> !IsCapital(c)
  {
    SpellsIff(Trimmed(value), NeedleOf(Hex, value));
    forall i | 0 <= i < |Trimmed(value)|
      ensures Alike(Trimmed(value)[i], NeedleOf(Token, value)[i]) && !IsCapital(NeedleOf(Token, value)[i])
    {
      LowerIff(Trimmed(value)[i], Lower(Trimmed(value)[i]));
    }
  }
}
