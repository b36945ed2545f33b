/** Pairing the NVLinks the GPUs report: one edge for each pair of GPUs, as strong as its weaker reporting side. */
module NvLinks {
  import opened Wrappers
  import opened Orders
  import opened Topology

  datatype Remote = ToSwitch | ToGpu(busId: string) | ToOther

  datatype Link = Link(active: bool, remote: Remote)

  /** links is None for a GPU with no list of links. */
  datatype Gpu = Gpu(busId: string, attrs: map<string, Value>, links: Option<seq<Link>>)

  const SWITCH_GROUP := "switch-group-0"

  // ----- what the GPUs report, whatever their order

  /** The active links of one entry to a remote. */
  function LinksTo(g: Gpu, remote: Remote): nat {
    if g.links.None? then 0 else multiset(g.links.value)[Link(true, remote)]
  }

  function Counted(gpus: seq<Gpu>, self: string, remote: Remote): nat {
    if gpus == [] then 0
    else
      var last := gpus[|gpus| - 1];
      Counted(gpus[..|gpus| - 1], self, remote) + if last.busId == self then LinksTo(last, remote) else 0
  }

  /** A side with no list of links is no evidence. */
  ghost predicate Reports(gpus: seq<Gpu>, self: string) {
    exists g :: g in gpus && g.busId == self && g.links.Some?
  }

  function Min(a: nat, b: nat): nat { if b < a then b else a }

  /** The weaker of the sides that report. */
  ghost function PairLinks(gpus: seq<Gpu>, a: string, b: string): nat {
    if !Reports(gpus, a) then Counted(gpus, b, ToGpu(a))
    else if !Reports(gpus, b) then Counted(gpus, a, ToGpu(b))
    else Min(Counted(gpus, a, ToGpu(b)), Counted(gpus, b, ToGpu(a)))
  }

  ghost predicate IsPairEdge(gpus: seq<Gpu>, e: Edge) {
    && StringLessEq(e.from, e.to) && PairLinks(gpus, e.from, e.to) > 0
    && e == Edge(NvLink, e.from, e.to, map["links" := PairLinks(gpus, e.from, e.to)])
  }

  ghost predicate IsSwitchEdge(gpus: seq<Gpu>, e: Edge) {
    && Counted(gpus, e.from, ToSwitch) > 0
    && e == Edge(NvLink, e.from, "switch-group-0", map["links" := Counted(gpus, e.from, ToSwitch)])
  }

  lemma {:induction false} CountedConcat(a: seq<Gpu>, b: seq<Gpu>, self: string, remote: Remote)
    ensures Counted(a + b, self, remote) == Counted(a, self, remote) + Counted(b, self, remote)
  {
    if b == [] {
      assert a + b == a;
    } else {
      assert (a + b)[..|a + b| - 1] == a + b[..|b| - 1];
      CountedConcat(a, b[..|b| - 1], self, remote);
    }
  }

  lemma {:induction false} CountedReports(gpus: seq<Gpu>, self: string, remote: Remote)
    requires Counted(gpus, self, remote) > 0
    ensures Reports(gpus, self)
  {
    var last := gpus[|gpus| - 1];
    if last.busId != self || LinksTo(last, remote) == 0 {
      CountedReports(gpus[..|gpus| - 1], self, remote);
      var g :| g in gpus[..|gpus| - 1] && g.busId == self && g.links.Some?;
      assert g in gpus;
    } else {
      assert last in gpus;
    }
  }

  // ----- the tally

  type Peers = map<string, nat>

  datatype Tally = Tally(reported: map<string, Peers>, toSwitch: Peers)

  /** A map that holds the counts that are not zero. */
  ghost predicate Counts(m: Peers, count: string -> nat) {
    forall k :: (k in m <==> count(k) > 0) && (k in m ==> m[k] == count(k))
  }

  /** The tally of what some GPUs count and of those that report. */
  ghost predicate Matches(t: Tally, counted: (string, Remote) -> nat, reports: string -> bool) {
    && (forall s :: s in t.reported <==> reports(s))
    && (forall s :: s in t.reported ==> Counts(t.reported[s], r => counted(s, ToGpu(r))))
    && Counts(t.toSwitch, s => counted(s, ToSwitch))
  }

  ghost function CountedBy(gpus: seq<Gpu>): (string, Remote) -> nat { (s: string, r: Remote) => Counted(gpus, s, r) }

  ghost function ReportedBy(gpus: seq<Gpu>): string -> bool { (s: string) => Reports(gpus, s) }

  /** Keeps Tallies folded until a proof opens it. */
  ghost predicate Open(k: int, t: Tally, gpus: seq<Gpu>) { true }

  ghost predicate Tallies(t: Tally, gpus: seq<Gpu>) {
    forall k {:trigger Open(k, t, gpus)} :: Open(k, t, gpus) ==> Matches(t, CountedBy(gpus), ReportedBy(gpus))
  }

  function Bumped(m: Peers, key: string): Peers {
    m[key := (if key in m then m[key] else 0) + 1]
  }

  /** What one more active link adds. */
  function Added(t: Tally, self: string, remote: Remote): Tally
    requires self in t.reported
  {
    match remote
    case ToSwitch => t.(toSwitch := Bumped(t.toSwitch, self))
    case ToGpu(r) => t.(reported := t.reported[self := Bumped(t.reported[self], r)])
    case ToOther => t
  }

  function WithLinks(g: Gpu, links: seq<Link>): Gpu { g.(links := Some(links)) }

  /** The first entries, and of the next one the first links. */
  function Prefix(gpus: seq<Gpu>, i: nat, j: nat): seq<Gpu>
    requires i < |gpus| && gpus[i].links.Some? && j <= |gpus[i].links.value|
  {
    gpus[..i] + [WithLinks(gpus[i], gpus[i].links.value[..j])]
  }

  lemma PrefixCounts(gpus: seq<Gpu>, i: nat, j: nat, self: string, remote: Remote)
    requires i < |gpus| && gpus[i].links.Some? && j < |gpus[i].links.value|
    ensures Counted(Prefix(gpus, i, j + 1), self, remote) == Counted(Prefix(gpus, i, j), self, remote)
              + if self == gpus[i].busId && gpus[i].links.value[j] == Link(true, remote) then 1 else 0
  {
    var links := gpus[i].links.value;
    assert links[..j + 1] == links[..j] + [links[j]];
    CountedConcat(gpus[..i], [WithLinks(gpus[i], links[..j])], self, remote);
    CountedConcat(gpus[..i], [WithLinks(gpus[i], links[..j + 1])], self, remote);
    assert Prefix(gpus, i, j)[..i] == gpus[..i] == Prefix(gpus, i, j + 1)[..i];
  }

  lemma PrefixReports(gpus: seq<Gpu>, i: nat, j: nat, self: string)
    requires i < |gpus| && gpus[i].links.Some? && j <= |gpus[i].links.value|
    ensures Reports(Prefix(gpus, i, j), self) <==> Reports(gpus[..i], self) || self == gpus[i].busId
  {
    var p := Prefix(gpus, i, j);
    assert p[i] in p && p[i].links.Some?;
    if Reports(gpus[..i], self) {
      var g :| g in gpus[..i] && g.busId == self && g.links.Some?;
      assert g in p;
    }
  }

  lemma LinkAdds(t: Tally, c: (string, Remote) -> nat, c': (string, Remote) -> nat, reports: string -> bool,
                 self: string, l: Link)
    requires Matches(t, c, reports) && reports(self)
    requires forall s, r :: c'(s, r) == c(s, r) + if s == self && l == Link(true, r) then 1 else 0
    ensures self in t.reported && Matches(if l.active then Added(t, self, l.remote) else t, c', reports)
  {
    var t' := if l.active then Added(t, self, l.remote) else t;
    forall s | s in t'.reported ensures Counts(t'.reported[s], r => c'(s, ToGpu(r))) {
      assert Counts(t.reported[s], r => c(s, ToGpu(r)));
    }
    assert Counts(t'.toSwitch, s => c'(s, ToSwitch));
  }

  lemma LinkTallied(gpus: seq<Gpu>, i: nat, j: nat, t: Tally)
    requires i < |gpus| && gpus[i].links.Some? && j < |gpus[i].links.value|
    requires Tallies(t, Prefix(gpus, i, j))
    ensures gpus[i].busId in t.reported
    ensures var l := gpus[i].links.value[j];
            Tallies(if l.active then Added(t, gpus[i].busId, l.remote) else t, Prefix(gpus, i, j + 1))
  {
    var a, b := Prefix(gpus, i, j), Prefix(gpus, i, j + 1);
    assert Open(0, t, a);
    forall s, r ensures CountedBy(b)(s, r) == CountedBy(a)(s, r)
                          + if s == gpus[i].busId && gpus[i].links.value[j] == Link(true, r) then 1 else 0 {
      PrefixCounts(gpus, i, j, s, r);
    }
    forall s ensures ReportedBy(b)(s) == ReportedBy(a)(s) {
      PrefixReports(gpus, i, j, s);
      PrefixReports(gpus, i, j + 1, s);
    }
    PrefixReports(gpus, i, j, gpus[i].busId);
    LinkAdds(t, CountedBy(a), CountedBy(b), ReportedBy(a), gpus[i].busId, gpus[i].links.value[j]);
  }

  lemma StartsReporting(t: Tally, c: (string, Remote) -> nat, c': (string, Remote) -> nat, reports: string -> bool,
                        reports': string -> bool, self: string)
    requires Matches(t, c, reports) && forall s, r :: c'(s, r) == c(s, r)
    requires forall s :: reports'(s) <==> reports(s) || s == self
    requires forall r :: !reports(self) ==> c(self, r) == 0
    ensures Matches(Reporting(t, self), c', reports')
  {
    var t' := Reporting(t, self);
    forall s | s in t'.reported ensures Counts(t'.reported[s], r => c'(s, ToGpu(r))) {
      assert s in t.reported ==> Counts(t.reported[s], r => c(s, ToGpu(r)));
    }
    assert Counts(t'.toSwitch, s => c'(s, ToSwitch));
  }

  lemma LastNothing(gpus: seq<Gpu>, last: Gpu, s: string, r: Remote)
    requires last.links == None || last.links == Some([])
    ensures Counted(gpus + [last], s, r) == Counted(gpus, s, r)
  {
    assert (gpus + [last])[..|gpus|] == gpus;
  }

  /** A GPU with a list of links reports, even if the list is empty. */
  lemma GpuStarts(gpus: seq<Gpu>, i: nat, t: Tally)
    requires i < |gpus| && gpus[i].links.Some? && Tallies(t, gpus[..i])
    ensures Tallies(Reporting(t, gpus[i].busId), Prefix(gpus, i, 0))
  {
    var a, b, self := gpus[..i], Prefix(gpus, i, 0), gpus[i].busId;
    assert Open(0, t, a);
    forall s, r ensures CountedBy(b)(s, r) == CountedBy(a)(s, r) {
      LastNothing(a, WithLinks(gpus[i], gpus[i].links.value[..0]), s, r);
    }
    forall s ensures ReportedBy(b)(s) <==> ReportedBy(a)(s) || s == self {
      PrefixReports(gpus, i, 0, s);
    }
    forall r ensures !ReportedBy(a)(self) ==> CountedBy(a)(self, r) == 0 {
      if Counted(a, self, r) > 0 { CountedReports(a, self, r); }
    }
    StartsReporting(t, CountedBy(a), CountedBy(b), ReportedBy(a), ReportedBy(b), self);
  }

  /** One with no list changes nothing. */
  lemma GpuSkipped(gpus: seq<Gpu>, i: nat, t: Tally)
    requires i < |gpus| && gpus[i].links.None? && Tallies(t, gpus[..i])
    ensures Tallies(t, gpus[..i + 1]) && forall p :: Seen(gpus[..i + 1], p) <==> Seen(gpus[..i], p)
  {
    var a, b := gpus[..i], gpus[..i + 1];
    assert b == a + [gpus[i]] && Open(0, t, a);
    forall s, r ensures CountedBy(b)(s, r) == CountedBy(a)(s, r) && Counted(b, s, r) == Counted(a, s, r) {
      LastNothing(a, gpus[i], s, r);
    }
    forall s ensures ReportedBy(b)(s) == ReportedBy(a)(s) {
      if Reports(b, s) {
        var g :| g in b && g.busId == s && g.links.Some?;
        assert g in a;
      }
      if Reports(a, s) {
        var g :| g in a && g.busId == s && g.links.Some?;
        assert g in b;
      }
    }
    SameMatches(t, CountedBy(a), CountedBy(b), ReportedBy(a), ReportedBy(b));
  }

  lemma SameMatches(t: Tally, c: (string, Remote) -> nat, c': (string, Remote) -> nat, reports: string -> bool,
                    reports': string -> bool)
    requires Matches(t, c, reports) && (forall s, r :: c'(s, r) == c(s, r)) && forall s :: reports'(s) == reports(s)
    ensures Matches(t, c', reports')
  {
    forall s | s in t.reported ensures Counts(t.reported[s], r => c'(s, ToGpu(r))) {
      assert Counts(t.reported[s], r => c(s, ToGpu(r)));
    }
    assert Counts(t.toSwitch, s => c'(s, ToSwitch));
  }

  /** What a tally says. */
  lemma TallySays(t: Tally, gpus: seq<Gpu>)
    requires Tallies(t, gpus)
    ensures forall s :: s in t.reported <==> Reports(gpus, s)
    ensures forall s, r :: s in t.reported ==>
              && (r in t.reported[s] <==> Counted(gpus, s, ToGpu(r)) > 0)
              && (r in t.reported[s] ==> t.reported[s][r] == Counted(gpus, s, ToGpu(r)))
    ensures forall s :: (s in t.toSwitch <==> Counted(gpus, s, ToSwitch) > 0)
                        && (s in t.toSwitch ==> t.toSwitch[s] == Counted(gpus, s, ToSwitch))
  {
    assert Open(0, t, gpus);
    assert forall s :: s in t.reported <==> ReportedBy(gpus)(s);
    forall s, r | s in t.reported
      ensures (r in t.reported[s] <==> Counted(gpus, s, ToGpu(r)) > 0)
              && (r in t.reported[s] ==> t.reported[s][r] == Counted(gpus, s, ToGpu(r)))
    {
      assert Counts(t.reported[s], r => CountedBy(gpus)(s, ToGpu(r)));
      assert (r => CountedBy(gpus)(s, ToGpu(r)))(r) == Counted(gpus, s, ToGpu(r));
    }
    forall s ensures (s in t.toSwitch <==> Counted(gpus, s, ToSwitch) > 0)
      && (s in t.toSwitch ==> t.toSwitch[s] == Counted(gpus, s, ToSwitch)) {
      assert Counts(t.toSwitch, s => CountedBy(gpus)(s, ToSwitch));
      assert (s => CountedBy(gpus)(s, ToSwitch))(s) == Counted(gpus, s, ToSwitch);
    }
  }

  function Reporting(t: Tally, self: string): Tally {
    if self in t.reported then t else t.(reported := t.reported[self := map[]])
  }

  function MinMax(a: string, b: string): (string, string) {
    if StringLess(b, a) then (b, a) else (a, b)
  }

  /** Some side reports a link between the two. */
  ghost predicate Seen(gpus: seq<Gpu>, p: (string, string)) {
    exists s, r :: Counted(gpus, s, ToGpu(r)) > 0 && p == MinMax(s, r)
  }

  /** An active link to a GPU that is not known. */
  ghost predicate Dangles(gpus: seq<Gpu>, keys: set<string>, i: nat, j: nat) {
    && i < |gpus| && gpus[i].links.Some? && j < |gpus[i].links.value|
    && var l := gpus[i].links.value[j]; l.active && l.remote.ToGpu? && l.remote.busId !in keys
  }

  /** The links of one GPU; ok is false at a link that dangles. */
  method TallyGpu(gpus: seq<Gpu>, i: nat, keys: set<string>, t0: Tally) returns (ok: bool, t: Tally)
    requires i < |gpus| && gpus[i].links.Some? && Tallies(t0, Prefix(gpus, i, 0))
    ensures ok ==> Tallies(t, gpus[..i + 1]) && forall j :: !Dangles(gpus, keys, i, j)
    ensures !ok ==> exists j :: Dangles(gpus, keys, i, j)
  {
    var self, links := gpus[i].busId, gpus[i].links.value;
    t := t0;
    for j := 0 to |links|
      invariant Tallies(t, Prefix(gpus, i, j))
      invariant forall k :: 0 <= k < j ==> !Dangles(gpus, keys, i, k)
    {
      var l := links[j];
      LinkTallied(gpus, i, j, t);
      if l.active {
        if l.remote.ToGpu? && l.remote.busId !in keys {
          assert Dangles(gpus, keys, i, j);
          return false, t;
        }
        t := Added(t, self, l.remote);
      }
    }
    assert links[..|links|] == links && WithLinks(gpus[i], links) == gpus[i];
    assert Prefix(gpus, i, |links|) == gpus[..i + 1];
    ok := true;
  }

  lemma SeenMore(gpus: seq<Gpu>, i: nat, p: (string, string))
    requires i < |gpus|
    ensures Seen(gpus[..i + 1], p) <==>
              Seen(gpus[..i], p) || exists r :: Counted(gpus[..i + 1], gpus[i].busId,
                                                        ToGpu(r)) > 0 && p == MinMax(gpus[i].busId, r)
  {
    assert gpus[..i + 1][..i] == gpus[..i];
    if Seen(gpus[..i], p) {
      var s, r :| Counted(gpus[..i], s, ToGpu(r)) > 0 && p == MinMax(s, r);
      assert Counted(gpus[..i + 1], s, ToGpu(r)) > 0;
    }
    if Seen(gpus[..i + 1], p) {
      var s, r :| Counted(gpus[..i + 1], s, ToGpu(r)) > 0 && p == MinMax(s, r);
      if s != gpus[i].busId { assert Counted(gpus[..i], s, ToGpu(r)) > 0; }
    }
  }

  /** What all the GPUs report, and the pairs of GPUs with a link. */
  method TallyAll(gpus: seq<Gpu>, keys: set<string>) returns (ok: bool, t: Tally, pairs: set<(string, string)>)
    ensures ok <==> forall i, j :: !Dangles(gpus, keys, i, j)
    ensures ok ==> Tallies(t, gpus) && forall p :: p in pairs <==> Seen(gpus, p)
  {
    t, pairs := Tally(map[], map[]), {};
    for i := 0 to |gpus|
      invariant Tallies(t, gpus[..i]) && forall p :: p in pairs <==> Seen(gpus[..i], p)
      invariant forall k, j :: 0 <= k < i ==> !Dangles(gpus, keys, k, j)
    {
      if gpus[i].links.None? {
        GpuSkipped(gpus, i, t);
        continue;
      }
      GpuStarts(gpus, i, t);
      t := Reporting(t, gpus[i].busId);
      ok, t := TallyGpu(gpus, i, keys, t);
      if !ok {
        return;
      }
      var more := PairsOf(gpus, i, t);
      forall p ensures p in pairs + more <==> Seen(gpus[..i + 1], p) {
        SeenMore(gpus, i, p);
      }
      pairs := pairs + more;
    }
    assert gpus[..|gpus|] == gpus;
    ok := true;
  }

  /** The pairs of one GPU and those it counts links to. */
  method PairsOf(gpus: seq<Gpu>, i: nat, t: Tally) returns (pairs: set<(string, string)>)
    requires i < |gpus| && gpus[i].links.Some? && Tallies(t, gpus[..i + 1])
    ensures forall p :: p in pairs <==> exists r :: Counted(gpus[..i + 1], gpus[i].busId,
                                                            ToGpu(r)) > 0 && p == MinMax(gpus[i].busId, r)
  {
    TallySays(t, gpus[..i + 1]);
    assert gpus[..i + 1][i] in gpus[..i + 1];
    var self := gpus[i].busId;
    pairs := set r | r in t.reported[self] :: MinMax(self, r);
  }

  // ----- the edges

  /** The count of a pair: the weaker of the sides with a list, each looked up in the tally. */
  method WeakerSide(t: Tally, a: string, b: string, ghost gpus: seq<Gpu>) returns (links: int)
    requires Tallies(t, gpus) && (Counted(gpus, a, ToGpu(b)) > 0 || Counted(gpus, b, ToGpu(a)) > 0)
    ensures links == PairLinks(gpus, a, b)
  {
    TallySays(t, gpus);
    CountsReport(gpus, a, b);
    CountsReport(gpus, b, a);
    links := -1;
    var sides := [(a, b), (b, a)];
    for i := 0 to 2
      invariant links == SidesLinks(gpus, a, b, i)
    {
      var (side, other) := sides[i];
      if side in t.reported {
        var n := if other in t.reported[side] then t.reported[side][other] else 0;
        links := if links < 0 then n else if n < links then n else links;
      }
    }
  }

  /** The weaker of the first i sides that report; -1 for none. */
  ghost function SidesLinks(gpus: seq<Gpu>, a: string, b: string, i: nat): int {
    if i == 0 || (i == 1 && !Reports(gpus, a)) then -1
    else if i == 1 then Counted(gpus, a, ToGpu(b))
    else PairLinks(gpus, a, b)
  }

  lemma CountsReport(gpus: seq<Gpu>, a: string, b: string)
    ensures Counted(gpus, a, ToGpu(b)) > 0 ==> Reports(gpus, a)
  {
    if Counted(gpus, a, ToGpu(b)) > 0 {
      CountedReports(gpus, a, ToGpu(b));
    }
  }

  ghost predicate NoRepeats(edges: seq<Edge>) { forall i, j :: 0 <= i < j < |edges| ==> edges[i] != edges[j] }

  lemma MinMaxOrder(a: string, b: string)
    ensures StringLessEq(MinMax(a, b).0, MinMax(a, b).1)
    ensures StringLessEq(a, b) ==> MinMax(a, b) == (a, b) && MinMax(b, a) == (a, b)
  {
    StringOrder();
  }

  /** A pair is seen when its keys are in order and one side counts a link. */
  lemma SeenIff(gpus: seq<Gpu>, a: string, b: string)
    ensures Seen(gpus, (a, b)) <==> StringLessEq(a, b) && (Counted(gpus, a,
                                                                   ToGpu(b)) > 0 || Counted(gpus, b, ToGpu(a)) > 0)
  {
    if Seen(gpus, (a, b)) {
      var s, r :| Counted(gpus, s, ToGpu(r)) > 0 && (a, b) == MinMax(s, r);
      MinMaxOrder(s, r);
    }
    if StringLessEq(a, b) {
      MinMaxOrder(a, b);
    }
  }

  lemma {:induction false} NoRepeatsCount(a: seq<Edge>, e: Edge)
    requires NoRepeats(a)
    ensures multiset(a)[e] == if e in a then 1 else 0
  {
    if a != [] {
      assert a == a[..|a| - 1] + [a[|a| - 1]];
      NoRepeatsCount(a[..|a| - 1], e);
    }
  }

  /** The keys an edge joins. */
  function Ends(e: Edge): (string, string) { (e.from, e.to) }

  ghost predicate Ascending(edges: seq<Edge>) {
    forall i, j :: 0 <= i < j < |edges| ==>
      StringLess(edges[i].from, edges[j].from)
      || (edges[i].from == edges[j].from && StringLess(edges[i].to, edges[j].to))
  }

  ghost predicate AllBelow(edges: seq<Edge>, keys: set<(string, string)>) {
    forall i, q :: 0 <= i < |edges| && q in keys ==> KeysLess(Ends(edges[i]), q)
  }

  lemma AscendingOnce(edges: seq<Edge>)
    requires Ascending(edges)
    ensures NoRepeats(edges)
  {
    StringOrder();
  }

  /** The next edge in order. */
  lemma AscendingMore(edges: seq<Edge>, e: Edge, todo: set<(string, string)>)
    requires Ascending(edges) && AllBelow(edges, todo) && Ends(e) in todo
    requires forall q :: q in todo ==> q == Ends(e) || KeysLess(Ends(e), q)
    ensures Ascending(edges + [e]) && AllBelow(edges + [e], todo - {Ends(e)}) && AllBelow(edges, todo - {Ends(e)})
  {
  }

  ghost predicate EdgesFor(gpus: seq<Gpu>, done: set<(string, string)>, edges: seq<Edge>) {
    && (forall e :: e in edges <==> (e.from, e.to) in done && PairLinks(gpus, e.from, e.to) > 0
                                    && e == Edge(NvLink, e.from, e.to, map["links" := PairLinks(gpus, e.from, e.to)]))
  }

  /** The edges of the pairs seen, in the order of their keys. */
  method PairEdges(t: Tally, pairs: set<(string, string)>, ghost gpus: seq<Gpu>) returns (edges: seq<Edge>)
    requires Tallies(t, gpus) && forall p :: p in pairs <==> Seen(gpus, p)
    ensures Ascending(edges) && NoRepeats(edges) && forall e :: e in edges <==> IsPairEdge(gpus, e)
  {
    KeysOrder();
    edges := [];
    var todo := pairs;
    while todo != {}
      invariant todo <= pairs && EdgesFor(gpus, pairs - todo, edges) && Ascending(edges) && AllBelow(edges, todo)
    {
      var p := Least(KeysLess, todo);
      var (a, b) := p;
      SeenIff(gpus, a, b);
      var links := WeakerSide(t, a, b, gpus);
      ghost var done := pairs - todo;
      AscendingMore(edges, Edge(NvLink, a, b, map["links" := links]), todo);
      todo := todo - {p};
      assert pairs - todo == done + {p};
      if links > 0 {
        edges := edges + [Edge(NvLink, a, b, map["links" := links])];
      }
    }
    AscendingOnce(edges);
    forall e ensures e in edges <==> IsPairEdge(gpus, e) {
      SeenIff(gpus, e.from, e.to);
    }
  }

  method SwitchEdges(t: Tally, ghost gpus: seq<Gpu>) returns (edges: seq<Edge>)
    requires Tallies(t, gpus)
    ensures Ascending(edges) && NoRepeats(edges) && forall e :: e in edges <==> IsSwitchEdge(gpus, e)
    ensures edges == [] <==> t.toSwitch == map[]
  {
    TallySays(t, gpus);
    StringOrder();
    edges := [];
    var todo := t.toSwitch.Keys;
    while todo != {}
      invariant todo <= t.toSwitch.Keys && (edges == [] <==> todo == t.toSwitch.Keys)
      invariant Ascending(edges) && forall e, gpu :: e in edges && gpu in todo ==> StringLess(e.from, gpu)
      invariant forall e :: e in edges <==> e.from in t.toSwitch && e.from !in todo
                                            && e == Edge(NvLink, e.from, SWITCH_GROUP,
                                                         map["links" := t.toSwitch[e.from]])
    {
      var gpu := Least(StringLess, todo);
      todo := todo - {gpu};
      edges := edges + [Edge(NvLink, gpu, SWITCH_GROUP, map["links" := t.toSwitch[gpu]])];
    }
    AscendingOnce(edges);
    assert t.toSwitch.Keys == {} <==> t.toSwitch == map[];
  }

  // ----- the order of the GPUs and of their links does not matter

  /** An entry without the order of its links. */
  datatype Unordered = Unordered(busId: string, attrs: map<string, Value>, links: Option<multiset<Link>>)

  function ViewOf(g: Gpu): Unordered {
    Unordered(g.busId, g.attrs, if g.links.None? then None else Some(multiset(g.links.value)))
  }

  function Views(gpus: seq<Gpu>): (r: seq<Unordered>)
    ensures |r| == |gpus| && forall i :: 0 <= i < |gpus| ==> r[i] == ViewOf(gpus[i])
  {
    seq(|gpus|, i requires 0 <= i < |gpus| => ViewOf(gpus[i]))
  }

  ghost predicate SameButOrder(a: seq<Gpu>, b: seq<Gpu>) { multiset(Views(a)) == multiset(Views(b)) }

  function ViewLinks(v: Unordered, self: string, remote: Remote): nat {
    if v.busId == self && v.links.Some? then v.links.value[Link(true, remote)] else 0
  }

  function CountedIn(views: seq<Unordered>, self: string, remote: Remote): nat {
    if views == [] then 0 else CountedIn(views[..|views| - 1], self,
                                         remote) + ViewLinks(views[|views| - 1], self, remote)
  }

  lemma {:induction false} CountedViews(gpus: seq<Gpu>, self: string, remote: Remote)
    ensures Counted(gpus, self, remote) == CountedIn(Views(gpus), self, remote)
  {
    if gpus != [] {
      CountedViews(gpus[..|gpus| - 1], self, remote);
      assert Views(gpus)[..|gpus| - 1] == Views(gpus[..|gpus| - 1]);
    }
  }

  lemma {:induction false} CountedInConcat(a: seq<Unordered>, b: seq<Unordered>, self: string, remote: Remote)
    ensures CountedIn(a + b, self, remote) == CountedIn(a, self, remote) + CountedIn(b, self, remote)
  {
    if b == [] {
      assert a + b == a;
    } else {
      assert (a + b)[..|a + b| - 1] == a + b[..|b| - 1];
      CountedInConcat(a, b[..|b| - 1], self, remote);
    }
  }

  lemma CountedInAt(s: seq<Unordered>, j: nat, self: string, remote: Remote)
    requires j < |s|
    ensures CountedIn(s, self, remote) == CountedIn(s[..j] + s[j + 1..], self, remote) + ViewLinks(s[j], self, remote)
  {
    assert s == s[..j + 1] + s[j + 1..] && s[..j + 1][..j] == s[..j];
    CountedInConcat(s[..j], s[j + 1..], self, remote);
    CountedInConcat(s[..j + 1], s[j + 1..], self, remote);
  }

  lemma {:induction false} CountedAnyOrder(a: seq<Unordered>, b: seq<Unordered>, self: string, remote: Remote)
    requires multiset(a) == multiset(b)
    ensures CountedIn(a, self, remote) == CountedIn(b, self, remote)
  {
    assert |multiset(a)| == |a| && |multiset(b)| == |b|;
    if a != [] {
      var j := FindLast(a, b);
      CountedAnyOrder(a[..|a| - 1], b[..j] + b[j + 1..], self, remote);
      CountedInAt(b, j, self, remote);
    }
  }

  lemma ReportsAnyOrder(a: seq<Gpu>, b: seq<Gpu>, self: string)
    requires SameButOrder(a, b) && Reports(a, self)
    ensures Reports(b, self)
  {
    var g :| g in a && g.busId == self && g.links.Some?;
    var i: nat :| i < |a| && a[i] == g;
    assert Views(a)[i] in multiset(Views(b));
    var j: nat :| j < |Views(b)| && Views(b)[j] == Views(a)[i];
    assert b[j] in b && b[j].busId == self && b[j].links.Some?;
  }

  /** The NVLink edges depend on what is reported only, not on the order it is reported in. */
  lemma EdgesAnyOrder(a: seq<Gpu>, b: seq<Gpu>, e: Edge)
    requires SameButOrder(a, b)
    ensures IsPairEdge(a, e) <==> IsPairEdge(b, e)
    ensures IsSwitchEdge(a, e) <==> IsSwitchEdge(b, e)
  {
    forall s, r ensures Counted(a, s, r) == Counted(b, s, r) {
      CountedViews(a, s, r);
      CountedViews(b, s, r);
      CountedAnyOrder(Views(a), Views(b), s, r);
    }
    forall s ensures Reports(a, s) <==> Reports(b, s) {
      if Reports(a, s) { ReportsAnyOrder(a, b, s); }
      if Reports(b, s) { ReportsAnyOrder(b, a, s); }
    }
  }

  /** One edge for each pair of GPUs, whichever way round it is named. */
  lemma OneEdgeForPair(gpus: seq<Gpu>, d: Edge, e: Edge)
    requires IsPairEdge(gpus, d) && IsPairEdge(gpus, e)
    requires {d.from, d.to} == {e.from, e.to}
    ensures d == e
  {
    StringOrder();
    assert d.from in {e.from, e.to} && d.to in {e.from, e.to} && e.from in {d.from, d.to} && e.to in {d.from, d.to};
  }
}
