/** The set of identifiers to search for: each in the form its match mode compares, and none twice. */
module RawIdentifiers {
  datatype IdKind =
    | Mac | Guid | Gid | Ipv4 | Ipv6 | Ipoib | Uuid | Serial | Hostname | MachineId | Dmi | InstanceId | Extra
    | Unreadable

  datatype MatchMode = Hex | Token

  datatype RawEntry = RawEntry(kind: IdKind, mode: MatchMode, needle: string)

  const MIN_NEEDLE := 6

  predicate IsSeparator(c: char) { c == ':' || c == '-' || c == '.' || c == '_' || c == ' ' }

  predicate IsTokenChar(c: char) {
    '0' <= c <= '9' || 'a' <= c <= 'z' || 'A' <= c <= 'Z' || c == '.' || c == '_' || c == '-'
  }

  function Lower(c: char): char {
    if 'A' <= c <= 'Z' then c - 'A' + 'a' else c
  }

  function Lowered(s: string): (r: string)
    ensures |r| == |s| && forall i :: 0 <= i < |s| ==> r[i] == Lower(s[i])
  {
    seq(|s|, i requires 0 <= i < |s| => Lower(s[i]))
  }

  /** Lowercase with the separators removed. */
  function NormalisedHex(s: string): string {
    if s == [] then []
    else (if IsSeparator(s[0]) then [] else [Lower(s[0])]) + NormalisedHex(s[1..])
  }

  predicate IsBlank(c: char) { c == ' ' || c == '\t' || c == '\r' || c == '\n' || c == '\0' }

  function TrimmedFront(s: string): string {
    if s != [] && IsBlank(s[0]) then TrimmedFront(s[1..]) else s
  }

  function TrimmedBack(s: string): string {
    if s != [] && IsBlank(s[|s| - 1]) then TrimmedBack(s[..|s| - 1]) else s
  }

  function Trimmed(s: string): string { TrimmedBack(TrimmedFront(s)) }

  predicate AllOf(s: string, c: char) { forall i :: 0 <= i < |s| ==> s[i] == c }

  function DefaultMode(kind: IdKind): MatchMode {
    match kind
    case Mac | Guid | Gid | Ipoib | Uuid | MachineId => Hex
    case _ => Token
  }

  function NeedleOf(mode: MatchMode, value: string): string {
    if mode == Hex then NormalisedHex(Trimmed(value)) else Lowered(Trimmed(value))
  }

  /** Why a value is not stored. */
  predicate Ignored(mode: MatchMode, needle: string) {
    needle == [] || (mode == Hex && (AllOf(needle, '0') || AllOf(needle, 'f')))
  }

  // ----- normalised needles

  /** Normalising the needle again would change nothing. */
  ghost predicate Normalised(mode: MatchMode, needle: string) {
    needle == if mode == Hex then NormalisedHex(needle) else Lowered(needle)
  }

  lemma {:induction false} NormalisedHexFixed(s: string)
    ensures NormalisedHex(NormalisedHex(s)) == NormalisedHex(s)
  {
    if s != [] {
      NormalisedHexFixed(s[1..]);
      var r := NormalisedHex(s);
      if IsSeparator(s[0]) {
        assert r == NormalisedHex(s[1..]);
      } else {
        assert r == [Lower(s[0])] + NormalisedHex(s[1..]);
        assert r[1..] == NormalisedHex(s[1..]);
        assert !IsSeparator(r[0]) && Lower(r[0]) == r[0];
        assert NormalisedHex(r) == [r[0]] + NormalisedHex(r[1..]);
      }
    }
  }

  lemma NeedleNormalised(mode: MatchMode, value: string)
    ensures Normalised(mode, NeedleOf(mode, value))
  {
    NormalisedHexFixed(Trimmed(value));
    assert Lowered(Lowered(Trimmed(value))) == Lowered(Trimmed(value));
  }

  /** An address of zeros or of ones names nothing. */
  ghost predicate OnlyFiller(mode: MatchMode, needle: string) {
    mode == Hex && ((forall c :: c in needle ==> c == '0') || (forall c :: c in needle ==> c == 'f'))
  }

  lemma IgnoredIff(mode: MatchMode, needle: string)
    ensures Ignored(mode, needle) <==> needle == [] || OnlyFiller(mode, needle)
  {
    forall c | AllOf(needle, c) ensures forall d :: d in needle ==> d == c {}
    forall c: char | forall d :: d in needle ==> d == c ensures AllOf(needle, c) {
      assert forall i :: 0 <= i < |needle| ==> needle[i] in needle;
    }
  }

  /** What an entry of the set always satisfies. */
  ghost predicate GoodEntry(e: RawEntry) {
    Normalised(e.mode, e.needle) && |e.needle| >= 6 && !OnlyFiller(e.mode, e.needle)
  }

  ghost predicate UniqueEntries(entries: seq<RawEntry>) {
    forall i, j :: 0 <= i < j < |entries| ==>
          entries[i].mode != entries[j].mode || entries[i].needle != entries[j].needle
  }

  /** The entries and the count of too short values after a value was offered. */
  ghost function Added(entries: seq<RawEntry>, skippedShort: nat, kind: IdKind, value: string, mode: MatchMode,
                       dropped: (IdKind, string) -> bool): (seq<RawEntry>, nat) {
    var needle := NeedleOf(mode, value);
    if dropped(kind, Trimmed(value)) || needle == [] || OnlyFiller(mode, needle) then (entries, skippedShort)
    else if |needle| < 6 then (entries, skippedShort + 1)
    else if exists i :: 0 <= i < |entries| && entries[i].mode == mode && entries[i].needle == needle
      then (entries, skippedShort)
    else (entries + [RawEntry(kind, mode, needle)], skippedShort)
  }

  class RawSet {
    var entries: seq<RawEntry>
    var seen: set<(MatchMode, string)>
    var skippedShort: nat

    ghost predicate Valid()
      reads this
    {
      && (forall i :: 0 <= i < |entries| ==> GoodEntry(entries[i]))
      && UniqueEntries(entries)
      && (forall m, s :: (m, s) in seen <==> exists i :: 0 <= i < |entries| && entries[i].mode == m && entries[i].needle == s)
    }

    constructor ()
      ensures Valid() && entries == [] && skippedShort == 0
    {
      entries, seen, skippedShort := [], {}, 0;
    }

    /** dropped is the address check of the caller: loopback and unspecified addresses. */
    method Add(kind: IdKind, value: string, mode: MatchMode, dropped: (IdKind, string) -> bool)
      requires Valid()
      modifies this
      ensures Valid()
      ensures (entries, skippedShort) == Added(old(entries), old(skippedShort), kind, value, mode, dropped)
    {
      var trimmed := Trimmed(value);
      if dropped(kind, trimmed) {
        return;
      }
      var needle := if mode == Hex then NormalisedHex(trimmed) else Lowered(trimmed);
      IgnoredIff(mode, needle);
      if Ignored(mode, needle) {
        return;
      }
      if |needle| < MIN_NEEDLE {
        skippedShort := skippedShort + 1;
        return;
      }
      NeedleNormalised(mode, value);
      Keep(kind, mode, needle);
    }

    /** Adds an entry unless the set has its mode and needle. */
    method Keep(kind: IdKind, mode: MatchMode, needle: string)
      requires Valid() && GoodEntry(RawEntry(kind, mode, needle))
      modifies this`entries, this`seen
      ensures Valid()
      ensures entries == if exists i :: 0 <= i < |old(entries)| && old(entries)[i].mode == mode
                                        && old(entries)[i].needle == needle
                         then old(entries) else old(entries) + [RawEntry(kind, mode, needle)]
    {
      if (mode, needle) !in seen {
        seen := seen + {(mode, needle)};
        entries := entries + [RawEntry(kind, mode, needle)];
        assert entries[|entries| - 1].needle == needle;
        assert forall i :: 0 <= i < |old(entries)| ==> entries[i] == old(entries)[i];
      }
    }

    /** The mode follows the kind. */
    method AddDefault(kind: IdKind, value: string, dropped: (IdKind, string) -> bool)
      requires Valid()
      modifies this
      ensures Valid()
      ensures var mode := if kind in {Mac, Guid, Gid, Ipoib, Uuid, MachineId} then Hex else Token;
              (entries, skippedShort) == Added(old(entries), old(skippedShort), kind, value, mode, dropped)
    {
      Add(kind, value, DefaultMode(kind), dropped);
    }
  }
}
