/** Polling the logs of several pods at once: each rank's lines are printed once and in order, whatever the
    interleaving and however often the lines of a second are repeated. */
module RankPoller {
  import opened Wrappers
  import Orders
  import opened LogFollower

  /** A line and the pod it came from. */
  datatype Tagged = Tagged(pod: string, line: LogLine)

  /** Which of the pods found are alive. */
  datatype Status = NoStatus | Pods(alive: seq<bool>)

  datatype Logs = Lines(lines: seq<Tagged>) | LogsLost | LogsRefused

  /** One poll: the pods' states, their lines, where each pod's replay starts, and the clock. */
  datatype Poll = Poll(status: Status, logs: Logs, starts: map<string, nat>, now: int)

  /** A line on the terminal, marked with its rank. */
  datatype RankLine = RankLine(rank: nat, text: string)

  const SECOND := 1000000000

  /** The whole second of a stamp in nanoseconds. */
  function WholeSecond(ts: int): int { ts - ts % SECOND }

  function PartOf(lines: seq<Tagged>, pod: string): seq<LogLine> {
    if lines == [] then []
    else PartOf(lines[..|lines| - 1], pod) + if lines[|lines| - 1].pod == pod then [lines[|lines| - 1].line] else []
  }

  function OfRank(out: seq<RankLine>, rank: nat): seq<string> {
    if out == [] then []
    else OfRank(out[..|out| - 1], rank) + if out[|out| - 1].rank == rank then [out[|out| - 1].text] else []
  }

  function AllTexts(out: seq<RankLine>): (r: seq<string>)
    ensures |r| == |out| && forall i :: 0 <= i < |out| ==> r[i] == out[i].text
  {
    seq(|out|, i requires 0 <= i < |out| => out[i].text)
  }

  lemma PartOfNext(lines: seq<Tagged>, i: nat, pod: string)
    requires i < |lines|
    ensures PartOf(lines[..i + 1], pod) == PartOf(lines[..i], pod) + if lines[i].pod == pod then [lines[i].line] else []
  {
    assert lines[..i + 1][..i] == lines[..i];
  }

  lemma {:induction false} PartOfPrefix(lines: seq<Tagged>, i: nat, pod: string)
    requires i <= |lines|
    ensures PartOf(lines[..i], pod) <= PartOf(lines, pod)
    decreases |lines| - i
  {
    if i == |lines| {
      assert lines[..i] == lines;
    } else {
      PartOfNext(lines, i, pod);
      PartOfPrefix(lines, i + 1, pod);
    }
  }

  lemma OfRankNext(out: seq<RankLine>, l: RankLine, rank: nat)
    ensures OfRank(out + [l], rank) == OfRank(out, rank) + if l.rank == rank then [l.text] else []
  {
    assert (out + [l])[..|out|] == out;
  }

  // ----- the stamp a poll asks from

  function MinStamp(stamps: seq<Option<int>>): int
    requires stamps != [] && None !in stamps
  {
    var s := stamps[|stamps| - 1];
    assert s in stamps;
    if |stamps| == 1 then s.value
    else
      var rest := stamps[..|stamps| - 1];
      var m := MinStamp(rest);
      if s.value < m then s.value else m
  }

  /** From the start while a pod has printed nothing, else from the second of the earliest last stamp. */
  function SinceOf(stamps: seq<Option<int>>): Option<int>
    requires stamps != []
  {
    if None in stamps then None else Some(WholeSecond(MinStamp(stamps)))
  }

  lemma {:induction false} MinStampLeast(stamps: seq<Option<int>>, i: nat)
    requires i < |stamps| && None !in stamps && stamps[i].Some?
    ensures MinStamp(stamps) <= stamps[i].value
  {
    if i < |stamps| - 1 {
      assert stamps[..|stamps| - 1][i] == stamps[i];
      MinStampLeast(stamps[..|stamps| - 1], i);
    }
  }

  lemma {:induction false} MinStampIsOne(stamps: seq<Option<int>>) returns (i: nat)
    requires stamps != [] && None !in stamps
    ensures i < |stamps| && stamps[i] == Some(MinStamp(stamps))
  {
    i := |stamps| - 1;
    assert stamps[i] in stamps;
    if |stamps| > 1 {
      var j := MinStampIsOne(stamps[..|stamps| - 1]);
      if stamps[j].value <= stamps[i].value {
        i := j;
      }
    }
  }

  /** Asks for everything exactly while some pod has printed nothing, and else from the last full second that is not
      past any pod's last stamp. */
  lemma SinceIs(stamps: seq<Option<int>>)
    requires stamps != []
    ensures SinceOf(stamps) == None <==> exists i :: 0 <= i < |stamps| && stamps[i] == None
    ensures SinceOf(stamps).Some? ==>
              var s := SinceOf(stamps).value;
              && s % 1_000_000_000 == 0
              && (forall i :: 0 <= i < |stamps| ==> stamps[i].Some? && s <= stamps[i].value)
              && exists i :: 0 <= i < |stamps| && stamps[i].Some? && stamps[i].value < s + 1_000_000_000
  {
    if None !in stamps {
      forall i | 0 <= i < |stamps| ensures stamps[i].Some? && WholeSecond(MinStamp(stamps)) <= stamps[i].value {
        assert stamps[i] in stamps;
        MinStampLeast(stamps, i);
      }
      var i := MinStampIsOne(stamps);
      assert stamps[i].value < WholeSecond(MinStamp(stamps)) + 1_000_000_000;
    }
  }

  /** The one stamp asked from is early enough for every pod. */
  lemma SinceServesAll(log: seq<LogLine>, k: nat, start: nat, stamps: seq<Option<int>>, i: nat)
    requires i < |stamps| && k <= |log| && stamps[i] == LastStamp(log, k)
    requires Served(log, start, SinceOf(stamps))
    ensures Served(log, start, LastStamp(log, k))
  {
    if None !in stamps {
      assert stamps[i] in stamps;
      MinStampLeast(stamps, i);
    }
  }

  // ----- one pod's share of a poll

  ghost predicate AnyFinishes(log: seq<LogLine>, k: nat) {
    k <= |log| && exists i :: 0 <= i < k && Finishes(log[i])
  }

  /** Keeps PodAt folded until a proof opens it. */
  ghost predicate Open(t: int, pos: nat, c: Cursor) { true }

  /** A pod's replay has come to pos: its new lines are printed once each, in order. */
  ghost predicate PodAt(log: seq<LogLine>, k0: nat, pos: nat, c: Cursor, texts: seq<string>, finished: bool) {
    k0 <= |log| && pos <= |log| && forall t {:trigger Open(t, pos, c)} :: Open(t, pos, c) ==>
      && Replaying(log, k0, 0, pos, c) && texts == Texts(log[..Max(k0, pos)])
      && (finished <==> AnyFinishes(log, Max(k0, pos)))
  }

  lemma PodTakes(log: seq<LogLine>, k0: nat, pos: nat, c: Cursor, texts: seq<string>, finished: bool, l: LogLine)
    requires Stamped(log) && pos < |log| && log[pos] == l && PodAt(log, k0, pos, c, texts, finished)
    ensures var (c', isNew) := Take(c, l.ts);
            PodAt(log, k0, pos + 1, c', if isNew then texts + [l.text] else texts, finished || (isNew && Finishes(l)))
  {
    assert Open(0, pos, c);
    ReplayTakes(log, k0, 0, pos, c);
  }

  /** Between polls: the first k lines of a pod are printed. */
  ghost predicate PodShown(log: seq<LogLine>, k: nat, c: Cursor, texts: seq<string>, finished: bool) {
    k <= |log| && forall t {:trigger Open(t, k, c)} :: Open(t, k, c) ==>
      Remembers(log, k, c) && texts == Texts(log[..k]) && (finished <==> AnyFinishes(log, k))
  }

  lemma PodStarts(log: seq<LogLine>, k: nat, start: nat, c: Cursor, texts: seq<string>, finished: bool)
    requires PodShown(log, k, c, texts, finished) && Served(log, start, LastStamp(log, k))
    ensures PodAt(log, k, start, c.(skip := c.atLast), texts, finished)
  {
    assert Open(0, k, c);
    ServedEarly(log, k, start);
    ReplayStarts(log, k, c, start);
  }

  lemma PodEnds(log: seq<LogLine>, k0: nat, pos: nat, c: Cursor, texts: seq<string>, finished: bool)
    requires PodAt(log, k0, pos, c, texts, finished)
    ensures PodShown(log, Max(k0, pos), c, texts, finished)
  {
    assert Open(0, pos, c);
    assert Unfolded(0, pos, c);
  }

  lemma PodShownIs(log: seq<LogLine>, k: nat, c: Cursor, texts: seq<string>, finished: bool)
    requires PodShown(log, k, c, texts, finished)
    ensures c.last == LastStamp(log, k) && texts == Texts(log[..k]) && (finished <==> AnyFinishes(log, k))
  {
    assert Open(0, k, c);
  }

  // ----- what a poll may answer

  predicate Readable(p: Poll) { p.status.Pods? && p.logs.Lines? }

  function StartOf(p: Poll, pod: string): nat { if pod in p.starts then p.starts[pod] else 0 }

  /** The lines of a pod that the polls before n have reached. */
  function PodReached(polls: seq<Poll>, n: nat, pod: string): nat
    requires n <= |polls|
  {
    if n == 0 then 0
    else if Readable(polls[n - 1]) then
      Max(PodReached(polls, n - 1, pod), StartOf(polls[n - 1], pod) + |PartOf(polls[n - 1].logs.lines, pod)|)
    else PodReached(polls, n - 1, pod)
  }

  type PodLogs = map<string, seq<LogLine>>

  ghost predicate Within(logs: PodLogs, pods: seq<string>, polls: seq<Poll>, n: nat) {
    n <= |polls| && forall p :: p in pods ==> p in logs && PodReached(polls, n, p) <= |logs[p]|
  }

  /** The last stamp printed of each pod, in rank order. */
  ghost function Stamps(logs: PodLogs, pods: seq<string>, polls: seq<Poll>, n: nat): (r: seq<Option<int>>)
    requires Within(logs, pods, polls, n)
    ensures |r| == |pods| && forall i :: 0 <= i < |pods| ==>
              r[i] == LastStamp(logs[pods[i]], PodReached(polls, n, pods[i]))
  {
    seq(|pods|, i requires 0 <= i < |pods| => LastStamp(logs[pods[i]], PodReached(polls, n, pods[i])))
  }

  ghost predicate Replay(log: seq<LogLine>, start: nat, part: seq<LogLine>, since: Option<int>) {
    start + |part| <= |log| && part == log[start..start + |part|] && Served(log, start, since)
  }

  /** Each pod's share of a poll is a part of its log that leaves out no line since the stamp asked from. */
  ghost predicate PollServes(logs: PodLogs, pods: seq<string>, polls: seq<Poll>, n: nat)
    requires n < |polls| && pods != []
  {
    Within(logs, pods, polls, n) && (Readable(polls[n]) ==> forall p :: p in pods ==>
      Replay(logs[p], StartOf(polls[n], p), PartOf(polls[n].logs.lines, p), SinceOf(Stamps(logs, pods, polls, n))))
  }

  /** Stamps never decrease in any pod's log, and every poll serves it. */
  ghost predicate AllServe(logs: PodLogs, pods: seq<string>, polls: seq<Poll>)
    requires pods != []
  {
    && (forall p :: p in pods ==> p in logs && Stamped(logs[p]))
    && (forall n {:trigger PollServes(logs, pods, polls, n)} :: 0 <= n < |polls| ==> PollServes(logs, pods, polls, n))
  }

  ghost predicate Distinct(pods: seq<string>) { forall i, j :: 0 <= i < j < |pods| ==> pods[i] != pods[j] }

  lemma StepNext(out: seq<RankLine>, l: RankLine, stepOf: string -> Option<string>)
    ensures LastStep(AllTexts(out + [l]), stepOf) == StepAfter(LastStep(AllTexts(out), stepOf), l.text, stepOf)
  {
    assert AllTexts(out + [l])[..|out|] == AllTexts(out);
  }

  /** What is remembered and printed of all pods. */
  datatype Told = Told(seen: map<string, Cursor>, out: seq<RankLine>, finished: set<string>)

  /** A line of a pod that is not of the run changes nothing. */
  ghost predicate LineEffect(l: Tagged, rank: map<string, nat>, a: Told, b: Told) {
    if l.pod !in rank || l.pod !in a.seen then b == a
    else
      var (c, isNew) := Take(a.seen[l.pod], l.line.ts);
      && b.seen == a.seen[l.pod := c]
      && b.out == a.out + (if isNew then [RankLine(rank[l.pod], l.line.text)] else [])
      && b.finished == a.finished + (if isNew && Finishes(l.line) then {l.pod} else {})
  }

  lemma FinishedWithin(l: Tagged, rank: map<string, nat>, a: Told, b: Told)
    requires LineEffect(l, rank, a, b) && a.finished <= rank.Keys
    ensures b.finished <= rank.Keys
  {
  }

  function Lasts(pods: seq<string>, seen: map<string, Cursor>): (r: seq<Option<int>>)
    requires forall p :: p in pods ==> p in seen
    ensures |r| == |pods| && forall i :: 0 <= i < |pods| ==> r[i] == seen[pods[i]].last
  {
    seq(|pods|, i requires 0 <= i < |pods| => seen[pods[i]].last)
  }

  function Resumed(seen: map<string, Cursor>): map<string, Cursor> {
    map p | p in seen :: seen[p].(skip := seen[p].atLast)
  }

  ghost predicate OneToOne(rank: map<string, nat>) {
    forall p, q :: p in rank && q in rank && rank[p] == rank[q] ==> p == q
  }

  /** Between polls: the first lines of every pod, as many as ks says, are printed. */
  ghost predicate AllShown(logs: PodLogs, ks: map<string, nat>, rank: map<string, nat>, told: Told) {
    forall t {:trigger Unsealed(t, ks, told)} :: Unsealed(t, ks, told) ==>
      forall p :: p in rank ==> p in told.seen && p in logs && p in ks
                                && PodShown(logs[p], ks[p], told.seen[p], OfRank(told.out, rank[p]), p in told.finished)
  }

  /** Keeps AllShown folded until a proof opens it. */
  ghost predicate Unsealed(t: int, ks: map<string, nat>, told: Told) { true }

  /** Each pod's share of a poll replays its log from early enough. */
  ghost predicate Shares(logs: PodLogs, ks: map<string, nat>, rank: map<string, nat>, poll: Poll)
    requires poll.logs.Lines?
  {
    forall p :: p in rank ==> p in logs && p in ks && Stamped(logs[p]) && ks[p] <= |logs[p]|
                              && Replay(logs[p], StartOf(poll, p), PartOf(poll.logs.lines, p),
                                        LastStamp(logs[p], ks[p]))
  }

  /** One pod's replay has taken its share of the first i lines. */
  ghost predicate Replayed(log: seq<LogLine>, k: nat, p: string, r: nat, poll: Poll, i: nat, told: Told)
    requires poll.logs.Lines? && i <= |poll.logs.lines| && p in told.seen
  {
    PodAt(log, k, StartOf(poll, p) + |PartOf(poll.logs.lines[..i], p)|, told.seen[p], OfRank(told.out, r),
          p in told.finished)
  }

  ghost predicate AllReplayed(logs: PodLogs, ks: map<string, nat>, rank: map<string, nat>, poll: Poll, i: nat,
                              told: Told)
    requires poll.logs.Lines? && i <= |poll.logs.lines|
  {
    && Shares(logs, ks, rank, poll)
    && forall p :: p in rank ==> p in told.seen && Replayed(logs[p], ks[p], p, rank[p], poll, i, told)
  }

  lemma AllStart(logs: PodLogs, ks: map<string, nat>, rank: map<string, nat>, poll: Poll, told: Told)
    requires poll.logs.Lines? && Shares(logs, ks, rank, poll) && AllShown(logs, ks, rank, told)
    ensures AllReplayed(logs, ks, rank, poll, 0, told.(seen := Resumed(told.seen)))
  {
    assert Unsealed(0, ks, told);
    var now := told.(seen := Resumed(told.seen));
    forall p | p in rank ensures Replayed(logs[p], ks[p], p, rank[p], poll, 0, now) {
      PodStarts(logs[p], ks[p], StartOf(poll, p), told.seen[p], OfRank(told.out, rank[p]), p in told.finished);
    }
  }

  /** What a line of any pod does to every pod's replay. */
  lemma AllTake(logs: PodLogs, ks: map<string, nat>, rank: map<string, nat>, poll: Poll, i: nat, a: Told, b: Told)
    requires poll.logs.Lines? && i < |poll.logs.lines| && OneToOne(rank) && a.seen.Keys == rank.Keys
    requires AllReplayed(logs, ks, rank, poll, i, a) && LineEffect(poll.logs.lines[i], rank, a, b)
    ensures AllReplayed(logs, ks, rank, poll, i + 1, b)
  {
    forall p | p in rank ensures p in b.seen && Replayed(logs[p], ks[p], p, rank[p], poll, i + 1, b) {
      if poll.logs.lines[i].pod == p {
        OwnLine(logs[p], ks[p], p, rank, poll, i, a, b);
      } else {
        OtherLine(logs[p], ks[p], p, rank, poll, i, a, b);
      }
    }
  }

  /** The next line of a pod in a poll is the next one of its replay. */
  lemma NextOfPod(log: seq<LogLine>, start: nat, lines: seq<Tagged>, i: nat, p: string, since: Option<int>)
    requires i < |lines| && lines[i].pod == p && Replay(log, start, PartOf(lines, p), since)
    ensures var pos := start + |PartOf(lines[..i], p)|;
            && pos < |log| && log[pos] == lines[i].line
            && start + |PartOf(lines[..i + 1], p)| == pos + 1
  {
    var n := |PartOf(lines[..i], p)|;
    PartOfNext(lines, i, p);
    PartOfPrefix(lines, i + 1, p);
    assert PartOf(lines, p)[n] == log[start..start + |PartOf(lines, p)|][n];
  }

  /** What a line of a pod does to that pod's share of what is remembered. */
  lemma OwnEffect(l: Tagged, rank: map<string, nat>, a: Told, b: Told)
    requires l.pod in rank && l.pod in a.seen && LineEffect(l, rank, a, b)
    ensures var (c, isNew) := Take(a.seen[l.pod], l.line.ts);
            var before := OfRank(a.out, rank[l.pod]);
            && l.pod in b.seen && b.seen[l.pod] == c
            && OfRank(b.out, rank[l.pod]) == (if isNew then before + [l.line.text] else before)
            && (l.pod in b.finished <==> l.pod in a.finished || (isNew && Finishes(l.line)))
  {
    OfRankNext(a.out, RankLine(rank[l.pod], l.line.text), rank[l.pod]);
    assert a.out + [] == a.out;
  }

  lemma OwnLine(log: seq<LogLine>, k: nat, p: string, rank: map<string, nat>, poll: Poll, i: nat, a: Told, b: Told)
    requires poll.logs.Lines? && i < |poll.logs.lines| && p in rank && p in a.seen && poll.logs.lines[i].pod == p
    requires Stamped(log) && k <= |log| && Replay(log, StartOf(poll, p), PartOf(poll.logs.lines, p), LastStamp(log, k))
    requires Replayed(log, k, p, rank[p], poll, i, a) && LineEffect(poll.logs.lines[i], rank, a, b)
    ensures p in b.seen && Replayed(log, k, p, rank[p], poll, i + 1, b)
  {
    NextOfPod(log, StartOf(poll, p), poll.logs.lines, i, p, LastStamp(log, k));
    OwnEffect(poll.logs.lines[i], rank, a, b);
    PodTakes(log, k, StartOf(poll, p) + |PartOf(poll.logs.lines[..i], p)|, a.seen[p], OfRank(a.out, rank[p]),
             p in a.finished, poll.logs.lines[i].line);
  }

  lemma OtherLine(log: seq<LogLine>, k: nat, p: string, rank: map<string, nat>, poll: Poll, i: nat, a: Told, b: Told)
    requires poll.logs.Lines? && i < |poll.logs.lines| && p in rank && p in a.seen && poll.logs.lines[i].pod != p
             && OneToOne(rank)
    requires Replayed(log, k, p, rank[p], poll, i, a) && LineEffect(poll.logs.lines[i], rank, a, b)
    ensures p in b.seen && Replayed(log, k, p, rank[p], poll, i + 1, b)
  {
    var l := poll.logs.lines[i];
    PartOfNext(poll.logs.lines, i, p);
    assert PartOf(poll.logs.lines[..i + 1], p) == PartOf(poll.logs.lines[..i], p);
    if l.pod in rank {
      OfRankNext(a.out, RankLine(rank[l.pod], l.line.text), rank[p]);
    }
    assert a.out + [] == a.out;
    assert OfRank(b.out, rank[p]) == OfRank(a.out, rank[p]);
  }

  /** A pod is over or gone. */
  predicate MissingPod(p: Poll, n: nat) { p.status.Pods? && (false in p.status.alive || |p.status.alive| < n) }

  /** The lines reached, as a map over the pods. */
  function ReachedMap(polls: seq<Poll>, n: nat, rank: map<string, nat>): map<string, nat>
    requires n <= |polls|
  {
    map p | p in rank :: PodReached(polls, n, p)
  }

  /** After the last line of a poll every pod has printed what the poll reached. */
  lemma AllEnd(logs: PodLogs, rank: map<string, nat>, polls: seq<Poll>, n: nat, told: Told)
    requires n < |polls| && Readable(polls[n])
    requires AllReplayed(logs, ReachedMap(polls, n, rank), rank, polls[n], |polls[n].logs.lines|, told)
    ensures AllShown(logs, ReachedMap(polls, n + 1, rank), rank, told)
  {
    var lines := polls[n].logs.lines;
    assert lines[..|lines|] == lines;
    forall p | p in rank
      ensures PodShown(logs[p], PodReached(polls, n + 1, p), told.seen[p], OfRank(told.out, rank[p]),
                       p in told.finished)
    {
      assert Replayed(logs[p], PodReached(polls, n, p), p, rank[p], polls[n], |lines|, told);
      PodEnds(logs[p], PodReached(polls, n, p), StartOf(polls[n], p) + |PartOf(lines, p)|, told.seen[p],
              OfRank(told.out, rank[p]), p in told.finished);
    }
  }

  /** The stamp the memory asks from is the one the polls are to answer, and early enough for every pod. */
  lemma AskedStamp(logs: PodLogs, pods: seq<string>, rank: map<string, nat>, polls: seq<Poll>, n: nat, told: Told)
    requires n < |polls| && pods != [] && (forall p :: p in pods <==> p in rank) && told.seen.Keys == rank.Keys
    requires forall p :: p in pods ==> p in logs && Stamped(logs[p])
    requires PollServes(logs, pods, polls, n) && AllShown(logs, ReachedMap(polls, n, rank), rank, told)
    ensures SinceOf(Lasts(pods, told.seen)) == SinceOf(Stamps(logs, pods, polls, n))
    ensures Readable(polls[n]) ==> Shares(logs, ReachedMap(polls, n, rank), rank, polls[n])
  {
    var stamps := Stamps(logs, pods, polls, n);
    assert Unsealed(0, ReachedMap(polls, n, rank), told);
    forall i | 0 <= i < |pods| ensures told.seen[pods[i]].last == stamps[i] {
      var p := pods[i];
      PodShownIs(logs[p], PodReached(polls, n, p), told.seen[p], OfRank(told.out, rank[p]), p in told.finished);
    }
    assert Lasts(pods, told.seen) == stamps;
    if Readable(polls[n]) {
      forall p | p in rank
        ensures Replay(logs[p], StartOf(polls[n], p), PartOf(polls[n].logs.lines, p),
                       LastStamp(logs[p], PodReached(polls, n, p)))
      {
        var i :| 0 <= i < |pods| && pods[i] == p;
        SinceServesAll(logs[p], PodReached(polls, n, p), StartOf(polls[n], p), stamps, i);
      }
    }
  }

  /** Keeps Story folded until a proof opens it. */
  ghost predicate Telling(t: int, n: nat, told: Told) { true }

  /** After n polls: every pod's lines reached are printed, and the step named last is known. */
  ghost predicate Story(logs: PodLogs, polls: seq<Poll>, n: nat, rank: map<string, nat>, told: Told,
                        step: Option<string>, stepOf: string -> Option<string>)
  {
    n <= |polls| && forall t {:trigger Telling(t, n, told)} :: Telling(t, n, told) ==>
      && AllShown(logs, ReachedMap(polls, n, rank), rank, told)
      && step == LastStep(AllTexts(told.out), stepOf) && told.finished <= rank.Keys
  }

  // ----- the poller

  /** A pod's rank is its place in the list. */
  function RankOf(pods: seq<string>): map<string, nat> {
    if pods == [] then map[] else RankOf(pods[..|pods| - 1])[pods[|pods| - 1] := |pods| - 1]
  }

  lemma {:induction false} RanksAre(pods: seq<string>)
    requires Distinct(pods)
    ensures |RankOf(pods)| == |pods| && (forall p :: p in pods <==> p in RankOf(pods))
    ensures forall i :: 0 <= i < |pods| ==> RankOf(pods)[pods[i]] == i
  {
    if pods != [] {
      var rest := pods[..|pods| - 1];
      RanksAre(rest);
      assert pods == rest + [pods[|pods| - 1]];
      assert pods[|pods| - 1] !in rest;
    }
  }

  class Poller {
    const pods: seq<string>
    const rank: map<string, nat>
    var seen: map<string, Cursor>
    var finished: set<string>
    var out: seq<RankLine>
    var step: Option<string>
    var lost: Option<int>

    ghost predicate Valid()
      reads this
    {
      && pods != [] && seen.Keys == rank.Keys && |rank| == |pods|
      && (forall p :: p in pods <==> p in rank)
      && (forall i :: 0 <= i < |pods| ==> rank[pods[i]] == i)
    }

    constructor (pods: seq<string>)
      requires pods != [] && Distinct(pods)
      ensures Valid() && this.pods == pods && out == [] && finished == {} && step == None && lost == None
      ensures forall p :: p in pods ==> seen[p] == Cursor(None, 0, 0)
    {
      this.pods := pods;
      RanksAre(pods);
      rank := RankOf(pods);
      seen := map p | p in RankOf(pods) :: Cursor(None, 0, 0);
      finished, out, step, lost := {}, [], None, None;
    }

    ghost function Now(): Told
      reads this
    {
      Told(seen, out, finished)
    }

    /** One line of a poll. */
    method TakeTagged(l: Tagged, stepOf: string -> Option<string>)
      requires Valid()
      modifies this`seen, this`finished, this`out, this`step
      ensures Valid()
      ensures LineEffect(l, rank, Told(old(seen), old(out), old(finished)), Told(seen, out, finished))
      ensures old(step) == LastStep(AllTexts(old(out)), stepOf) ==> step == LastStep(AllTexts(out), stepOf)
    {
      if l.pod !in seen {
        return;
      }
      var c, isNew := TakeLine(seen[l.pod], l.line.ts);
      seen := seen[l.pod := c];
      if !isNew {
        return;
      }
      StepNext(out, RankLine(rank[l.pod], l.line.text), stepOf);
      out := out + [RankLine(rank[l.pod], l.line.text)];
      step := StepAfter(step, l.line.text, stepOf);
      if StartsWith(l.line.text, FINISHED) {
        finished := finished + {l.pod};
      }
    }

    /** The stamp to ask from. */
    method Since() returns (since: Option<int>)
      requires Valid()
      ensures since == SinceOf(Lasts(pods, seen))
    {
      var stamps: seq<Option<int>> := [];
      for i := 0 to |pods|
        invariant |stamps| == i && forall j :: 0 <= j < i ==> stamps[j] == seen[pods[j]].last
      {
        stamps := stamps + [seen[pods[i]].last];
      }
      assert stamps == Lasts(pods, seen);
      since := SinceOf(stamps);
    }

    /** Every pod is to skip the lines it printed with its last stamp. */
    method Resume(ghost poll: Poll, ghost logs: PodLogs, ghost ks: map<string, nat>)
      requires Valid() && AllShown(logs, ks, rank, Now())
      requires poll.logs.Lines? && Shares(logs, ks, rank, poll)
      modifies this`seen
      ensures Valid() && AllReplayed(logs, ks, rank, poll, 0, Now())
    {
      ghost var resumed := Now().(seen := Resumed(seen));
      AllStart(logs, ks, rank, poll, Now());
      seen := Resumed(seen);
      assert Now() == resumed;
    }

    /** Reads a poll's lines: every pod skips what it printed before. */
    method ReadLines(poll: Poll, stepOf: string -> Option<string>, ghost logs: PodLogs, ghost ks: map<string, nat>)
      requires Valid() && AllShown(logs, ks, rank, Now())
      requires poll.logs.Lines? && Shares(logs, ks, rank, poll)
      requires step == LastStep(AllTexts(out), stepOf) && finished <= rank.Keys
      modifies this`seen, this`finished, this`out, this`step
      ensures finished <= rank.Keys
      ensures Valid() && AllReplayed(logs, ks, rank, poll, |poll.logs.lines|, Now())
      ensures step == LastStep(AllTexts(out), stepOf)
    {
      Resume(poll, logs, ks);
      for i := 0 to |poll.logs.lines|
        invariant Valid() && AllReplayed(logs, ks, rank, poll, i, Now())
        invariant step == LastStep(AllTexts(out), stepOf) && finished <= rank.Keys
      {
        ghost var told := Now();
        TakeTagged(poll.logs.lines[i], stepOf);
        AllTake(logs, ks, rank, poll, i, told, Now());
        FinishedWithin(poll.logs.lines[i], rank, told, Now());
      }
    }

    /** One poll that answered: whether the run goes on after it. */
    method Check(alive: seq<bool>) returns (outcome: Outcome)
      requires Valid() && finished <= rank.Keys
      ensures outcome == Finished <==> |finished| == |rank|
      ensures outcome == PodOver <==> outcome != Finished && (false in alive || |alive| < |pods|)
      ensures outcome == Finished || outcome == PodOver || outcome == Following
    {
      if |finished| == |rank| {
        return Finished;
      }
      if false in alive || |alive| < |rank| {
        return PodOver;
      }
      outcome := Following;
    }

    /** A lost connection, which ends the run once it has lasted too long. */
    method Wait(now: int) returns (outcome: Outcome)
      modifies this`lost
      ensures lost == Some(if old(lost).Some? then old(lost).value else now)
      ensures outcome == if now - lost.value >= LOST_FOR_GOOD then LostForGood else Following
    {
      lost := if lost.Some? then lost else Some(now);
      outcome := if now - lost.value >= LOST_FOR_GOOD then LostForGood else Following;
    }

    /** Asks for the lines since the earliest last stamp, and prints those that are new. */
    method ReadPoll(polls: seq<Poll>, n: nat, stepOf: string -> Option<string>, ghost logs: PodLogs)
      requires Valid() && n < |polls| && AllServe(logs, pods, polls)
      requires Story(logs, polls, n, rank, Now(), step, stepOf)
      modifies this`seen, this`finished, this`out, this`step
      ensures Valid() && Story(logs, polls, n + 1, rank, Now(), step, stepOf)
      ensures !Readable(polls[n]) ==> Now() == old(Now())
    {
      assert Telling(0, n, Now()) && PollServes(logs, pods, polls, n);
      var since := Since();
      AskedStamp(logs, pods, rank, polls, n, Now());
      assert since == SinceOf(Stamps(logs, pods, polls, n));
      if polls[n].status.Pods? && polls[n].logs.Lines? {
        ReadLines(polls[n], stepOf, logs, ReachedMap(polls, n, rank));
        AllEnd(logs, rank, polls, n, Now());
      } else {
        assert ReachedMap(polls, n + 1, rank) == ReachedMap(polls, n, rank);
      }
    }

    /** The poll with index n: asks for the pods and their lines, and decides whether to go on. */
    method OnePoll(polls: seq<Poll>, n: nat, stepOf: string -> Option<string>,
                   ghost logs: PodLogs) returns (outcome: Outcome)
      requires Valid() && n < |polls| && AllServe(logs, pods, polls) && |finished| != |rank|
      requires Story(logs, polls, n, rank, Now(), step, stepOf)
      requires GoesOn(polls, n, |pods|, lost)
      modifies this
      ensures Valid() && Story(logs, polls, n + 1, rank, Now(), step, stepOf)
      ensures outcome == Finished <==> |finished| == |rank|
      ensures outcome == Finished || outcome == OutcomeOf(polls, n + 1, |pods|)
      ensures outcome == Following ==> GoesOn(polls, n + 1, |pods|, lost)
    {
      ReadPoll(polls, n, stepOf, logs);
      assert finished <= rank.Keys by {
        assert Telling(0, n + 1, Now());
      }
      outcome := Decide(polls, n);
    }

    /** Whether the polling goes on after the poll with index n, its lines having been read. */
    method Decide(polls: seq<Poll>, n: nat) returns (outcome: Outcome)
      requires Valid() && n < |polls| && finished <= rank.Keys
      requires GoesOn(polls, n, |pods|, lost)
      requires |finished| == |rank| ==> Readable(polls[n])
      modifies this`lost
      ensures outcome == Finished <==> |finished| == |rank|
      ensures outcome == Finished || outcome == OutcomeOf(polls, n + 1, |pods|)
      ensures outcome == Following ==> GoesOn(polls, n + 1, |pods|, lost)
    {
      assert Looking(0, n, lost);
      var poll := polls[n];
      if poll.status.NoStatus? {
        outcome := Wait(poll.now);
        return;
      }
      outcome := Check(poll.status.alive);
      if outcome == Following {
        match poll.logs
        case LogsLost =>
          outcome := Wait(poll.now);
        case LogsRefused =>
          outcome := Failed;
        case Lines(_) =>
          lost := None;
      }
    }

    /** A poll after which the polling goes on or ends. */
    method NextPoll(polls: seq<Poll>, n: nat, stepOf: string -> Option<string>,
                    ghost logs: PodLogs) returns (outcome: Outcome)
      requires Valid() && n < |polls| && AllServe(logs, pods, polls) && |finished| != |rank|
      requires Story(logs, polls, n, rank, Now(), step, stepOf)
      requires GoesOn(polls, n, |pods|, lost)
      modifies this
      ensures Valid() && Story(logs, polls, n + 1, rank, Now(), step, stepOf)
      ensures outcome == Finished <==> |finished| == |rank|
      ensures if outcome == Following then GoesOn(polls, n + 1, |pods|, lost) else Ended(polls, n + 1, |pods|, outcome)
    {
      ghost var was := lost;
      outcome := OnePoll(polls, n, stepOf, logs);
      if outcome != Following {
        EndsAt(polls, n + 1, |pods|, outcome, was);
      }
    }

    /** Polls until a poll decides the outcome. */
    method PollAll(polls: seq<Poll>, stepOf: string -> Option<string>, ghost logs: PodLogs)
      returns (used: nat, outcome: Outcome)
      requires Valid() && AllServe(logs, pods, polls) && |finished| != |rank| && lost == None
      requires Story(logs, polls, 0, rank, Now(), step, stepOf)
      modifies this
      ensures Valid() && used <= |polls| && Story(logs, polls, used, rank, Now(), step, stepOf)
      ensures outcome == Finished <==> |finished| == |rank|
      ensures outcome == Following ==> used == |polls| && GoesOn(polls, used, |pods|, lost)
      ensures outcome != Following ==> Ended(polls, used, |pods|, outcome)
    {
      used, outcome := 0, Following;
      while used < |polls| && outcome == Following
        invariant Valid() && used <= |polls| && Story(logs, polls, used, rank, Now(), step, stepOf)
        invariant outcome == Finished <==> |finished| == |rank|
        invariant outcome == Following ==> GoesOn(polls, used, |pods|, lost)
        invariant outcome != Following ==> Ended(polls, used, |pods|, outcome)
      {
        outcome := NextPoll(polls, used, stepOf, logs);
        used := used + 1;
      }
    }
  }

  lemma SameSize(a: set<string>, b: set<string>)
    requires a <= b
    ensures |a| == |b| <==> a == b
  {
    if a != b {
      var x :| x in b && x !in a;
      assert a <= b - {x};
      Orders.SubsetSize(a, b - {x});
    }
  }

  /** A poll whose connection was lost. */
  predicate LostPoll(p: Poll) { p.status.NoStatus? || p.logs.LogsLost? }

  /** The clock when the time lost began, if the last of n polls lost its connection. */
  function WaitingSince(polls: seq<Poll>, n: nat): Option<int>
    requires n <= |polls|
  {
    if n == 0 || !LostPoll(polls[n - 1]) then None
    else if WaitingSince(polls, n - 1).Some? then WaitingSince(polls, n - 1) else Some(polls[n - 1].now)
  }

  /** Every poll from first on lost its connection, and the one before did not. */
  ghost predicate LostSince(polls: seq<Poll>, first: nat, n: nat) {
    && first < n <= |polls| && (first > 0 ==> !LostPoll(polls[first - 1]))
    && forall i :: first <= i < n ==> LostPoll(polls[i])
  }

  lemma LostSinceOnce(polls: seq<Poll>, a: nat, b: nat, n: nat)
    requires LostSince(polls, a, n) && LostSince(polls, b, n)
    ensures a >= b
  {
  }

  lemma {:induction false} WaitingSinceIs(polls: seq<Poll>, n: nat) returns (first: nat)
    requires 0 < n <= |polls| && LostPoll(polls[n - 1])
    ensures LostSince(polls, first, n) && WaitingSince(polls, n) == Some(polls[first].now)
  {
    first := n - 1;
    if n > 1 && LostPoll(polls[n - 2]) {
      first := WaitingSinceIs(polls, n - 1);
    }
  }

  ghost predicate LostTooLong(polls: seq<Poll>, used: nat) {
    exists first: nat :: LostSince(polls, first, used) && polls[used - 1].now - polls[first].now >= 120
  }

  lemma LostTooLongIff(polls: seq<Poll>, n: nat)
    requires 0 < n <= |polls|
    ensures LostTooLong(polls, n) <==>
              var since := WaitingSince(polls, n); since.Some? && polls[n - 1].now - since.value >= 120
  {
    if LostPoll(polls[n - 1]) {
      var first := WaitingSinceIs(polls, n);
      if LostTooLong(polls, n) {
        var b: nat :| LostSince(polls, b, n) && polls[n - 1].now - polls[b].now >= 120;
        LostSinceOnce(polls, first, b, n);
        LostSinceOnce(polls, b, first, n);
      }
    }
  }

  /** What the poll before the n-th leads to, unless every pod has finished. */
  function OutcomeOf(polls: seq<Poll>, n: nat, pods: nat): Outcome
    requires 0 < n <= |polls|
  {
    var p, since := polls[n - 1], WaitingSince(polls, n);
    if MissingPod(p, pods) then PodOver
    else if p.status.Pods? && p.logs.LogsRefused? then Failed
    else if since.Some? && p.now - since.value >= 120 then LostForGood
    else Following
  }

  /** Keeps GoesOn folded until a proof opens it. */
  ghost predicate Looking(t: int, n: nat, lost: Option<int>) { true }

  /** Nothing ended the polling in n polls, and it waits since a lost one. */
  ghost predicate GoesOn(polls: seq<Poll>, n: nat, pods: nat, lost: Option<int>) {
    forall t {:trigger Looking(t, n, lost)} :: Looking(t, n, lost) ==>
      && n <= |polls| && lost == WaitingSince(polls, n)
      && forall i {:trigger OutcomeOf(polls, i, pods)} :: 0 < i <= n ==> OutcomeOf(polls, i, pods) == Following
  }

  /** The outcome after n polls of a number of pods, unless every pod has finished. */
  ghost predicate EndsAs(polls: seq<Poll>, n: nat, pods: nat, outcome: Outcome)
    requires 0 < n <= |polls|
  {
    && outcome != Finished && (outcome == PodOver <==> MissingPod(polls[n - 1], pods))
    && (outcome == Failed <==>
          polls[n - 1].status.Pods? && !MissingPod(polls[n - 1], pods) && polls[n - 1].logs.LogsRefused?)
    && (outcome == LostForGood <==> LostTooLong(polls, n) && !MissingPod(polls[n - 1], pods))
  }

  /** The polling ends after n polls and not before; the outcome is the last poll's, unless every pod has finished. */
  ghost predicate Ends(polls: seq<Poll>, n: nat, pods: nat, outcome: Outcome) {
    && n <= |polls| && (outcome == Following ==> n == |polls|) && (n == 0 ==> outcome == Following)
    && (0 < n && outcome != Finished ==> EndsAs(polls, n, pods, outcome))
    && forall i :: 0 < i < n ==> EndsAs(polls, i, pods, Following)
  }

  /** Keeps Ended folded until a proof opens it. */
  ghost predicate Ending(t: int, n: nat, outcome: Outcome) { true }

  /** Ends, folded. */
  ghost predicate Ended(polls: seq<Poll>, n: nat, pods: nat, outcome: Outcome) {
    forall t {:trigger Ending(t, n, outcome)} :: Ending(t, n, outcome) ==> Ends(polls, n, pods, outcome)
  }

  lemma EndsAsIff(polls: seq<Poll>, n: nat, pods: nat, outcome: Outcome)
    requires 0 < n <= |polls|
    ensures EndsAs(polls, n, pods, outcome) <==> outcome == OutcomeOf(polls, n, pods)
  {
    LostTooLongIff(polls, n);
  }

  lemma WentOn(polls: seq<Poll>, n: nat, pods: nat, lost: Option<int>)
    requires GoesOn(polls, n, pods, lost)
    ensures n <= |polls| && forall i :: 0 < i <= n ==> EndsAs(polls, i, pods, Following)
  {
    assert Looking(0, n, lost);
    forall i | 0 < i <= n ensures EndsAs(polls, i, pods, Following) {
      EndsAsIff(polls, i, pods, Following);
    }
  }

  lemma EndsAt(polls: seq<Poll>, n: nat, pods: nat, outcome: Outcome, lost: Option<int>)
    requires 0 < n <= |polls| && GoesOn(polls, n - 1, pods, lost) && outcome != Following
    requires outcome == Finished || outcome == OutcomeOf(polls, n, pods)
    ensures Ends(polls, n, pods, outcome)
  {
    WentOn(polls, n - 1, pods, lost);
    EndsAsIff(polls, n, pods, outcome);
  }

  lemma EndsNot(polls: seq<Poll>, n: nat, pods: nat, outcome: Outcome, lost: Option<int>)
    requires n == |polls| && GoesOn(polls, n, pods, lost) && outcome == Following
    ensures Ends(polls, n, pods, outcome)
  {
    WentOn(polls, n, pods, lost);
  }

  /** Every rank's lines reached by the polls used are printed once each and in order. */
  ghost predicate RanksOnceInOrder(logs: PodLogs, pods: seq<string>, polls: seq<Poll>, used: nat, out: seq<RankLine>) {
    Within(logs, pods, polls, used) && forall r :: 0 <= r < |pods| ==>
      OfRank(out, r) == Texts(logs[pods[r]][..PodReached(polls, used, pods[r])])
  }

  ghost predicate AllFinish(logs: PodLogs, pods: seq<string>, polls: seq<Poll>, used: nat)
    requires used <= |polls|
  {
    forall p :: p in pods ==> p in logs && AnyFinishes(logs[p], PodReached(polls, used, p))
  }

  lemma StoryStarts(logs: PodLogs, polls: seq<Poll>, rank: map<string, nat>, told: Told,
                    stepOf: string -> Option<string>)
    requires forall p :: p in rank ==> p in logs && p in told.seen && told.seen[p] == Cursor(None, 0, 0)
    requires told.out == [] && told.finished == {}
    ensures Story(logs, polls, 0, rank, told, None, stepOf)
  {
  }

  lemma ShownIsOnceInOrder(logs: PodLogs, pods: seq<string>, polls: seq<Poll>, used: nat, rank: map<string, nat>,
                           told: Told, step: Option<string>, stepOf: string -> Option<string>)
    requires Story(logs, polls, used, rank, told, step, stepOf)
    requires (forall p :: p in pods <==> p in rank) && forall i :: 0 <= i < |pods| ==> rank[pods[i]] == i
    ensures RanksOnceInOrder(logs, pods, polls, used, told.out)
    ensures AllFinish(logs, pods, polls, used) <==> |told.finished| == |rank|
    ensures step == LastStep(AllTexts(told.out), stepOf)
  {
    assert Telling(0, used, told);
    SameSize(told.finished, rank.Keys);
    assert Unsealed(0, ReachedMap(polls, used, rank), told);
    forall p | p in rank
      ensures told.seen[p].last == LastStamp(logs[p], PodReached(polls, used, p))
      ensures OfRank(told.out, rank[p]) == Texts(logs[p][..PodReached(polls, used, p)])
      ensures p in told.finished <==> AnyFinishes(logs[p], PodReached(polls, used, p))
    {
      PodShownIs(logs[p], PodReached(polls, used, p), told.seen[p], OfRank(told.out, rank[p]), p in told.finished);
    }
  }

  method PollRanks(pods: seq<string>, polls: seq<Poll>, stepOf: string -> Option<string>, ghost logs: PodLogs)
    returns (out: seq<RankLine>, step: Option<string>, outcome: Outcome, used: nat)
    requires pods != [] && Distinct(pods) && AllServe(logs, pods, polls)
    ensures used <= |polls| && RanksOnceInOrder(logs, pods, polls, used, out)
    ensures outcome == Finished <==> AllFinish(logs, pods, polls, used)
    ensures Ends(polls, used, |pods|, outcome)
    ensures step == LastStep(AllTexts(out), stepOf)
  {
    var poller := new Poller(pods);
    StoryStarts(logs, polls, poller.rank, poller.Now(), stepOf);
    used, outcome := poller.PollAll(polls, stepOf, logs);
    assert Ending(0, used, outcome);
    if outcome == Following {
      EndsNot(polls, used, |pods|, outcome, poller.lost);
    }
    ShownIsOnceInOrder(logs, pods, polls, used, poller.rank, poller.Now(), poller.step, stepOf);
    out, step := poller.out, poller.step;
  }
}
