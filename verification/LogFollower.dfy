/** Following the log of a run over connections that drop: each line is printed once and in order, however often
    the log is replayed. */
module LogFollower {
  import opened Wrappers

  /** ts: the time stamp a line was written with, which orders lines only by comparison. */
  datatype LogLine = LogLine(ts: int, text: string)

  /** Stamps never decrease. */
  ghost predicate Stamped(log: seq<LogLine>) {
    forall i, j :: 0 <= i < j < |log| ==> log[i].ts <= log[j].ts
  }

  /** The first of the lines before k that share the stamp of the last of them. */
  function FirstOf(log: seq<LogLine>, k: nat): (f: nat)
    requires k <= |log|
    ensures f <= k && (k > 0 ==> f < k)
  {
    if k == 0 then 0
    else if k == 1 || log[k - 2].ts != log[k - 1].ts then k - 1
    else FirstOf(log, k - 1)
  }

  lemma {:induction false} FirstOfIs(log: seq<LogLine>, k: nat)
    requires k <= |log|
    ensures forall i :: FirstOf(log, k) <= i < k ==> log[i].ts == log[k - 1].ts
    ensures 0 < FirstOf(log, k) ==> log[FirstOf(log, k) - 1].ts != log[k - 1].ts
  {
    if k > 1 {
      FirstOfIs(log, k - 1);
    }
  }

  function LastStamp(log: seq<LogLine>, k: nat): Option<int>
    requires k <= |log|
  {
    if k == 0 then None else Some(log[k - 1].ts)
  }

  /** Lines from start on are a replay since a stamp: no line at or after the stamp is left out. */
  ghost predicate Served(log: seq<LogLine>, start: nat, since: Option<int>) {
    start <= |log| &&
    match since
    case None => start == 0
    case Some(stamp) => forall i :: 0 <= i < start ==> log[i].ts < stamp
  }

  // ----- what a follower remembers

  /** last: the stamp printed last; atLast: the lines printed with it; skip: those still to be passed over. */
  datatype Cursor = Cursor(last: Option<int>, atLast: nat, skip: nat)

  /** What a line does to the memory, and whether it is printed. */
  function Take(c: Cursor, ts: int): (Cursor, bool) {
    if c.last.Some? && ts < c.last.value then (c, false)
    else if c.last == Some(ts) && c.skip > 0 then (c.(skip := c.skip - 1), false)
    else if c.last != Some(ts) then (Cursor(Some(ts), 1, c.skip), true)
    else (c.(atLast := c.atLast + 1), true)
  }

  /** The memory after printing the first k lines. */
  ghost predicate Printed(log: seq<LogLine>, k: nat, c: Cursor) {
    k <= |log| && forall t {:trigger Unfolded(t, k, c)} :: Unfolded(t, k, c) ==> Remembers(log, k, c)
  }

  ghost predicate Remembers(log: seq<LogLine>, k: nat, c: Cursor)
    requires k <= |log|
  {
    c.last == LastStamp(log, k) && c.atLast == k - FirstOf(log, k)
  }

  /** Keeps Printed and Replaying folded until a proof opens them. */
  ghost predicate Unfolded(t: int, at: nat, c: Cursor) { true }

  function Max(a: nat, b: nat): nat { if a < b then b else a }

  /** A line with the stamp of the line before it. */
  ghost predicate Repeats(log: seq<LogLine>, i: nat) { 0 < i < |log| && log[i].ts == log[i - 1].ts }

  /** A replay up to stop that shows what follows the first k lines: it starts no later than the first line with the
      last stamp, or at least not after line k and without a repeated stamp from there on. */
  ghost predicate InTime(log: seq<LogLine>, k: nat, start: nat, stop: nat)
    requires k <= |log|
  {
    start <= FirstOf(log, k) || (start <= k && forall i: nat :: k <= i < stop ==> !Repeats(log, i))
  }

  /** The lines with the last stamp that a replay from start leaves out. */
  function Missed(log: seq<LogLine>, k: nat, start: nat): nat
    requires k <= |log|
  {
    Max(start, FirstOf(log, k)) - FirstOf(log, k)
  }

  /** A replay has come to pos, k0 lines having been printed before it and missed left out. */
  ghost predicate Replaying(log: seq<LogLine>, k0: nat, missed: nat, pos: nat, c: Cursor) {
    && k0 <= |log| && pos <= |log|
    && forall t {:trigger Unfolded(t, pos, c)} :: Unfolded(t, pos, c) ==>
         && Remembers(log, Max(k0, pos), c)
         && c.skip == missed + if pos <= k0 then k0 - Max(pos, FirstOf(log, k0)) else 0
  }

  lemma ReplayStarts(log: seq<LogLine>, k: nat, c: Cursor, start: nat)
    requires Printed(log, k, c) && start <= k
    ensures Replaying(log, k, Missed(log, k, start), start, c.(skip := c.atLast))
  {
    assert Unfolded(0, k, c);
  }

  /** What is asked of the cluster is early enough. */
  lemma ServedEarly(log: seq<LogLine>, k: nat, start: nat)
    requires k <= |log| && Served(log, start, LastStamp(log, k))
    ensures start <= FirstOf(log, k)
  {
    FirstOfIs(log, k);
    if k > 0 {
      assert log[FirstOf(log, k)].ts == log[k - 1].ts;
    }
  }

  lemma StampedBefore(log: seq<LogLine>, k: nat, pos: nat)
    requires Stamped(log) && k <= |log| && pos < |log|
    ensures pos < FirstOf(log, k) ==> log[pos].ts < log[k - 1].ts
    ensures FirstOf(log, k) <= pos < k ==> log[pos].ts == log[k - 1].ts
    ensures 0 < k <= pos ==> log[k - 1].ts <= log[pos].ts
  {
    FirstOfIs(log, k);
  }

  /** A line that was printed before is passed over. */
  lemma ReplayPasses(log: seq<LogLine>, k0: nat, missed: nat, pos: nat, c: Cursor)
    requires Stamped(log) && Replaying(log, k0, missed, pos, c) && pos < k0
    ensures !Take(c, log[pos].ts).1 && Replaying(log, k0, missed, pos + 1, Take(c, log[pos].ts).0)
  {
    assert Unfolded(0, pos, c);
    StampedBefore(log, k0, pos);
  }

  /** A line that was not is printed, unless it makes up for a line left out. */
  lemma ReplayPrints(log: seq<LogLine>, k0: nat, missed: nat, pos: nat, c: Cursor)
    requires Stamped(log) && Replaying(log, k0, missed, pos, c) && k0 <= pos < |log|
    ensures Take(c, log[pos].ts).1 <==> missed == 0 || !Repeats(log, pos)
    ensures Take(c, log[pos].ts).1 ==> Replaying(log, k0, missed, pos + 1, Take(c, log[pos].ts).0)
  {
    assert Unfolded(0, pos, c);
    StampedBefore(log, pos, pos);
  }

  /** The next line of a replay prints what it should. */
  ghost predicate ServesAt(log: seq<LogLine>, k0: nat, missed: nat, pos: nat) {
    missed == 0 || pos < k0 || !Repeats(log, pos)
  }

  /** A line is printed exactly when it was not printed before. */
  lemma ReplayTakes(log: seq<LogLine>, k0: nat, missed: nat, pos: nat, c: Cursor)
    requires Stamped(log) && Replaying(log, k0, missed, pos, c) && pos < |log| && ServesAt(log, k0, missed, pos)
    ensures Take(c, log[pos].ts).1 <==> k0 <= pos
    ensures Replaying(log, k0, missed, pos + 1, Take(c, log[pos].ts).0)
  {
    if pos < k0 {
      ReplayPasses(log, k0, missed, pos, c);
    } else {
      ReplayPrints(log, k0, missed, pos, c);
    }
  }

  // ----- one pod, followed

  const FINISHED := "[ostia] finished with exit"

  const LOST_FOR_GOOD := 120

  predicate StartsWith(s: string, prefix: string) { |prefix| <= |s| && s[..|prefix|] == prefix }

  /** The line that says that the run is over. */
  predicate Finishes(l: LogLine) { "[ostia] finished with exit" <= l.text }

  function Texts(log: seq<LogLine>): (r: seq<string>)
    ensures |r| == |log| && forall i :: 0 <= i < |log| ==> r[i] == log[i].text
  {
    seq(|log|, i requires 0 <= i < |log| => log[i].text)
  }

  /** How a connection ends: the log ended with the pod alive or not, the connection was lost while following or
      while asking for the status, or the cluster refused. */
  datatype End = Closed(alive: bool) | StatusLost | Dropped | Refused

  /** A replay of the log from start up to stop, and the clock when it ended. */
  datatype Connection = Connection(start: nat, stop: nat, end: End, now: int)

  datatype Outcome = Finished | PodOver | LostForGood | Failed | Following

  predicate Lost(c: Connection) { c.end.StatusLost? || c.end.Dropped? }

  /** The lines the connections before n have reached. */
  function Reached(conns: seq<Connection>, n: nat): nat
    requires n <= |conns|
  {
    if n == 0 then 0 else Max(Reached(conns, n - 1), conns[n - 1].stop)
  }

  /** Each connection replays a part of the log that starts in time. */
  ghost predicate Replays(log: seq<LogLine>, conns: seq<Connection>) {
    forall n {:trigger ReplaysAt(log, conns, n)} :: 0 <= n < |conns| ==> ReplaysAt(log, conns, n)
  }

  ghost predicate ReplaysAt(log: seq<LogLine>, conns: seq<Connection>, n: nat)
    requires n < |conns|
  {
    && conns[n].start <= conns[n].stop <= |log| && Reached(conns, n) <= |log|
    && InTime(log, Reached(conns, n), conns[n].start, conns[n].stop)
  }

  ghost predicate NoneFinishes(log: seq<LogLine>, k: nat) {
    k <= |log| && forall i :: 0 <= i < k ==> !Finishes(log[i])
  }

  /** The step a run was at: of the last line that names one. */
  function LastStep(lines: seq<string>, stepOf: string -> Option<string>): Option<string> {
    if lines == [] then None
    else
      var step := stepOf(lines[|lines| - 1]);
      if step.Some? then step else LastStep(lines[..|lines| - 1], stepOf)
  }

  /** The first k lines are printed, each once and in order, and none finishes the run. */
  ghost predicate Shown(log: seq<LogLine>, k: nat, printed: seq<string>, step: Option<string>,
                        stepOf: string -> Option<string>) {
    k <= |log| && forall t {:trigger Open(t, k, printed)} ::
      Open(t, k, printed) ==> NoneFinishes(log, k) && printed == Texts(log[..k]) && step == LastStep(printed, stepOf)
  }

  /** Keeps Shown folded until a proof opens it. */
  ghost predicate Open(t: int, k: nat, printed: seq<string>) { true }

  lemma ShownIs(log: seq<LogLine>, k: nat, printed: seq<string>, step: Option<string>, stepOf: string -> Option<string>)
    requires Shown(log, k, printed, step, stepOf)
    ensures NoneFinishes(log, k) && |printed| == k && printed == Texts(log[..k]) && step == LastStep(printed, stepOf)
  {
    assert Open(0, k, printed);
  }

  function StepAfter(step: Option<string>, line: string, stepOf: string -> Option<string>): Option<string> {
    if stepOf(line).Some? then stepOf(line) else step
  }

  lemma ShownMore(log: seq<LogLine>, k: nat, printed: seq<string>, step: Option<string>,
                  stepOf: string -> Option<string>)
    requires k < |log| && Shown(log, k, printed, step, stepOf) && !Finishes(log[k])
    ensures Shown(log, k + 1, printed + [log[k].text], StepAfter(step, log[k].text, stepOf), stepOf)
  {
    ShownIs(log, k, printed, step, stepOf);
    assert (printed + [log[k].text])[..|printed|] == printed;
  }

  /** The lines are printed up to the one that finishes the run. */
  ghost predicate ShownAll(log: seq<LogLine>, printed: seq<string>, step: Option<string>,
                           stepOf: string -> Option<string>) {
    && 0 < |printed| <= |log| && printed == Texts(log[..|printed|]) && step == LastStep(printed, stepOf)
    && Finishes(log[|printed| - 1]) && NoneFinishes(log, |printed| - 1)
  }

  lemma ShownLast(log: seq<LogLine>, k: nat, printed: seq<string>, step: Option<string>,
                  stepOf: string -> Option<string>)
    requires k < |log| && Shown(log, k, printed, step, stepOf) && Finishes(log[k])
    ensures ShownAll(log, printed + [log[k].text], StepAfter(step, log[k].text, stepOf), stepOf)
  {
    ShownIs(log, k, printed, step, stepOf);
    assert (printed + [log[k].text])[..|printed|] == printed;
  }

  /** Passes over a line printed before, and counts one with a new stamp from the start. */
  method TakeLine(c: Cursor, ts: int) returns (c': Cursor, isNew: bool)
    ensures (c', isNew) == Take(c, ts)
  {
    c' := c;
    if c.last.Some? && ts < c.last.value {
      return c', false;
    }
    if c.last == Some(ts) && c.skip > 0 {
      return c.(skip := c.skip - 1), false;
    }
    if c.last != Some(ts) {
      c' := c'.(last := Some(ts), atLast := 0);
    }
    return c'.(atLast := c'.atLast + 1), true;
  }

  /** One connection: reads the lines replayed until it ends or the run finishes. */
  method Follow(log: seq<LogLine>, conn: Connection, c0: Cursor, lost0: Option<int>, printed0: seq<string>,
                step0: Option<string>, stepOf: string -> Option<string>, ghost k: nat)
    returns (c: Cursor, lost: Option<int>, printed: seq<string>, step: Option<string>, finished: bool)
    requires Stamped(log) && conn.start <= conn.stop <= |log|
    requires Printed(log, k, c0) && InTime(log, k, conn.start, conn.stop) && Shown(log, k, printed0, step0, stepOf)
    ensures finished ==> ShownAll(log, printed, step, stepOf)
    ensures !finished ==> Printed(log, Max(k, conn.stop), c) && Shown(log, Max(k, conn.stop), printed, step, stepOf)
    ensures !finished ==> lost == if conn.stop > k then None else lost0
  {
    ReplayStarts(log, k, c0, conn.start);
    c, lost, printed, step, finished := c0.(skip := c0.atLast), lost0, printed0, step0, false;
    var pos := conn.start;
    ghost var shown, missed := k, Missed(log, k, conn.start);
    while pos < conn.stop
      invariant conn.start <= pos <= conn.stop && Replaying(log, k, missed, pos, c)
      invariant shown == Max(k, pos) && Shown(log, shown, printed, step, stepOf)
      invariant lost == if shown > k then None else lost0
    {
      var LogLine(ts, line) := log[pos];
      ReplayTakes(log, k, missed, pos, c);
      pos := pos + 1;
      var isNew;
      c, isNew := TakeLine(c, ts);
      if !isNew {
        continue;
      }
      lost := None;
      ghost var printed1, step1 := printed, step;
      printed := printed + [line];
      step := StepAfter(step, line, stepOf);
      if StartsWith(line, FINISHED) {
        ShownLast(log, shown, printed1, step1, stepOf);
        finished := true;
        return;
      }
      ShownMore(log, shown, printed1, step1, stepOf);
      shown := shown + 1;
    }
    assert Unfolded(0, pos, c);
  }

  /** No line came for two minutes of lost connections. */
  ghost predicate LongLost(conns: seq<Connection>, used: nat) {
    exists first: nat :: LossBegan(conns, first, used) && conns[used - 1].now - conns[first].now >= 120
  }

  /** Of the first n connections, the one with index first was lost; all later ones were lost while following, and
      reached no new line. */
  ghost predicate SinceLost(conns: seq<Connection>, first: nat, n: nat) {
    && first < n <= |conns| && (conns[first].end.StatusLost? || conns[first].end.Dropped?)
    && Reached(conns, n) == Reached(conns, first + 1)
    && forall i :: first < i < n ==> conns[i].end.Dropped?
  }

  /** The time lost counts from the earliest such connection. */
  ghost predicate LossBegan(conns: seq<Connection>, first: nat, n: nat) {
    SinceLost(conns, first, n) && (first == 0 || !SinceLost(conns, first - 1, n))
  }

  lemma {:induction false} ReachedGrows(conns: seq<Connection>, a: nat, b: nat)
    requires a <= b <= |conns|
    ensures Reached(conns, a) <= Reached(conns, b)
  {
    if a < b {
      ReachedGrows(conns, a, b - 1);
    }
  }

  lemma LossBeganOnce(conns: seq<Connection>, a: nat, b: nat, n: nat)
    requires LossBegan(conns, a, n) && LossBegan(conns, b, n)
    ensures a >= b
  {
    if a < b {
      ReachedGrows(conns, a + 1, b);
      ReachedGrows(conns, b, n);
    }
  }

  /** lost: the clock when the time lost began, if the last of n connections was lost. */
  ghost predicate Waiting(conns: seq<Connection>, n: nat, lost: Option<int>) {
    n <= |conns| &&
    if n > 0 && Lost(conns[n - 1]) then
      exists first: nat :: LossBegan(conns, first, n) && lost == Some(conns[first].now)
    else lost == None
  }

  lemma StillWaiting(conns: seq<Connection>, n: nat, lost: Option<int>)
    requires n < |conns| && Waiting(conns, n, lost) && Lost(conns[n])
    ensures var goesOn := lost.Some? && conns[n].end.Dropped? && Reached(conns, n + 1) == Reached(conns, n);
            Waiting(conns, n + 1, Some(if goesOn then lost.value else conns[n].now))
  {
    if lost.Some? && conns[n].end.Dropped? && Reached(conns, n + 1) == Reached(conns, n) {
      var first: nat :| LossBegan(conns, first, n) && conns[first].now == lost.value;
      assert LossBegan(conns, first, n + 1);
    } else {
      assert LossBegan(conns, n, n + 1);
    }
  }

  lemma LongLostIff(conns: seq<Connection>, n: nat, lost: Option<int>)
    requires Waiting(conns, n, lost)
    ensures LongLost(conns, n) <==> n > 0 && lost.Some? && conns[n - 1].now - lost.value >= 120
  {
    if n > 0 && lost.Some? {
      var first: nat :| LossBegan(conns, first, n) && conns[first].now == lost.value;
      forall b: nat | LossBegan(conns, b, n) ensures b == first {
        LossBeganOnce(conns, b, first, n);
        LossBeganOnce(conns, first, b, n);
      }
    }
  }

  lemma {:induction false} ReachedInLog(log: seq<LogLine>, conns: seq<Connection>, n: nat)
    requires Replays(log, conns) && n <= |conns|
    ensures Reached(conns, n) <= |log|
  {
    if n > 0 {
      assert ReplaysAt(log, conns, n - 1);
      ReachedInLog(log, conns, n - 1);
    }
  }

  /** The lines reached are printed once each and in order, up to the one that finishes the run. */
  ghost predicate OnceInOrder(log: seq<LogLine>, conns: seq<Connection>, used: nat, printed: seq<string>,
                              outcome: Outcome) {
    && used <= |conns| && |printed| <= |log| && printed == Texts(log[..|printed|])
    && (outcome == Finished <==> |printed| > 0 && Finishes(log[|printed| - 1]))
    && (outcome == Finished ==> NoneFinishes(log, |printed| - 1))
    && (outcome != Finished ==> |printed| == Reached(conns, used) && NoneFinishes(log, |printed|))
  }

  /** How the follower stands after n connections, unless the run finished. */
  ghost predicate Stands(conns: seq<Connection>, n: nat, outcome: Outcome) {
    if n == 0 then outcome == Following
    else
      && n <= |conns| && outcome != Finished
      && (outcome == PodOver <==> conns[n - 1].end == Closed(false))
      && (outcome == Failed <==> conns[n - 1].end == Refused)
      && (outcome == LostForGood <==> LongLost(conns, n))
  }

  method Stream(log: seq<LogLine>, conns: seq<Connection>, stepOf: string -> Option<string>)
    returns (printed: seq<string>, step: Option<string>, outcome: Outcome, used: nat)
    requires Stamped(log) && Replays(log, conns)
    ensures OnceInOrder(log, conns, used, printed, outcome)
    ensures outcome != Finished ==> Stands(conns, used, outcome)
    ensures outcome == Following ==> used == |conns|
    ensures forall n: nat :: n < used ==> Stands(conns, n, Following)
    ensures step == LastStep(printed, stepOf)
  {
    var c, lost := Cursor(None, 0, 0), None;
    printed, step, used, outcome := [], None, 0, Following;
    ghost var k := 0;
    while used < |conns| && outcome == Following
      invariant used <= |conns| && k == Reached(conns, used) <= |log|
      invariant Printed(log, k, c) && Shown(log, k, printed, step, stepOf)
      invariant outcome == Following ==> Waiting(conns, used, lost)
      invariant Stands(conns, used, outcome) && forall n: nat :: n < used ==> Stands(conns, n, Following)
    {
      var finished;
      assert ReplaysAt(log, conns, used);
      ghost var before := lost;
      c, lost, printed, step, finished := Follow(log, conns[used], c, lost, printed, step, stepOf, k);
      if finished {
        return printed, step, Finished, used + 1;
      }
      k := Max(k, conns[used].stop);
      lost, outcome := AfterConnection(conns, used, lost, before);
      used := used + 1;
    }
    ShownIs(log, k, printed, step, stepOf);
  }

  /** Whether the follower goes on after the connection with index n, which cleared the time lost if it reached a new
      line. */
  method AfterConnection(conns: seq<Connection>, n: nat, lost: Option<int>, ghost before: Option<int>)
    returns (lost': Option<int>, outcome: Outcome)
    requires n < |conns| && Waiting(conns, n, before)
    requires lost == if Reached(conns, n + 1) > Reached(conns, n) then None else before
    ensures outcome == Following ==> Waiting(conns, n + 1, lost')
    ensures Stands(conns, n + 1, outcome)
  {
    var conn := conns[n];
    lost' := lost;
    if conn.end.Refused? {
      LongLostIff(conns, n + 1, None);
      return None, Failed;
    }
    if conn.end.Closed? || conn.end.StatusLost? {
      lost' := None;
    }
    if Lost(conn) {
      StillWaiting(conns, n, before);
      lost' := if lost'.Some? then lost' else Some(conn.now);
      LongLostIff(conns, n + 1, lost');
      if conn.now - lost'.value >= LOST_FOR_GOOD {
        return lost', LostForGood;
      }
    } else {
      LongLostIff(conns, n + 1, None);
      if conn.end == Closed(false) {
        return lost', PodOver;
      }
    }
    outcome := Following;
  }

  // ----- exactly when a replay loses no line

  /** The memory after a replay from start has come to pos. */
  function AfterAll(log: seq<LogLine>, start: nat, pos: nat, c: Cursor): Cursor
    requires pos <= |log|
  {
    if pos <= start then c else Take(AfterAll(log, start, pos - 1, c), log[pos - 1].ts).0
  }

  /** The lines of it that are printed. */
  function Taken(log: seq<LogLine>, start: nat, pos: nat, c: Cursor): seq<LogLine>
    requires pos <= |log|
  {
    if pos <= start then []
    else
      var isNew := Take(AfterAll(log, start, pos - 1, c), log[pos - 1].ts).1;
      Taken(log, start, pos - 1, c) + if isNew then [log[pos - 1]] else []
  }

  lemma {:induction false} TakenGrows(log: seq<LogLine>, start: nat, a: nat, b: nat, c: Cursor)
    requires start <= a <= b <= |log|
    ensures |Taken(log, start, b, c)| <= |Taken(log, start, a, c)| + (b - a)
  {
    if a < b {
      TakenGrows(log, start, a, b - 1, c);
    }
  }

  /** One more line of a replay that starts in time. */
  lemma InTimeNext(log: seq<LogLine>, k: nat, missed: nat, pos: nat, c: Cursor, taken: seq<LogLine>)
    requires Stamped(log) && pos < |log| && k <= |log| && ServesAt(log, k, missed, pos)
    requires Replaying(log, k, missed, pos, c) && taken == log[k..Max(k, pos)]
    ensures Replaying(log, k, missed, pos + 1, Take(c, log[pos].ts).0)
    ensures taken + (if Take(c, log[pos].ts).1 then [log[pos]] else []) == log[k..Max(k, pos + 1)]
  {
    ReplayTakes(log, k, missed, pos, c);
    assert taken + [] == taken;
    if k <= pos {
      assert log[k..pos] + [log[pos]] == log[k..pos + 1];
    }
  }

  lemma {:induction false} AllInTime(log: seq<LogLine>, k: nat, missed: nat, c: Cursor, start: nat, pos: nat)
    requires Stamped(log) && start <= pos <= |log| && start <= k && Replaying(log, k, missed, start, c)
    requires missed == 0 || forall i: nat :: k <= i < pos ==> !Repeats(log, i)
    ensures Taken(log, start, pos, c) == log[k..Max(k, pos)]
    ensures Replaying(log, k, missed, pos, AfterAll(log, start, pos, c))
    decreases pos
  {
    if start < pos {
      AllInTime(log, k, missed, c, start, pos - 1);
      InTimeNext(log, k, missed, pos - 1, AfterAll(log, start, pos - 1, c), Taken(log, start, pos - 1, c));
    }
  }

  /** A replay that starts in time prints exactly what was not printed before. */
  lemma InTimeTakes(log: seq<LogLine>, k: nat, c: Cursor, start: nat, stop: nat)
    requires Stamped(log) && Printed(log, k, c) && start <= stop <= |log| && InTime(log, k, start, stop)
    ensures Taken(log, start, stop, c.(skip := c.atLast)) == log[k..Max(k, stop)]
  {
    ReplayStarts(log, k, c, start);
    AllInTime(log, k, Missed(log, k, start), c.(skip := c.atLast), start, stop);
  }

  /** A late replay loses the first line with a repeated stamp. */
  lemma LateReplayLoses(log: seq<LogLine>, k: nat, c: Cursor, start: nat, stop: nat, i: nat)
    requires Stamped(log) && Printed(log, k, c) && FirstOf(log, k) < start <= k <= i < stop <= |log|
    requires Repeats(log, i) && forall j: nat :: k <= j < i ==> !Repeats(log, j)
    ensures Taken(log, start, i + 1, c.(skip := c.atLast)) == log[k..i]
    ensures |Taken(log, start, stop, c.(skip := c.atLast))| < stop - k
  {
    var c0, missed := c.(skip := c.atLast), Missed(log, k, start);
    ReplayStarts(log, k, c, start);
    AllInTime(log, k, missed, c0, start, i);
    ReplayPrints(log, k, missed, i, AfterAll(log, start, i, c0));
    assert log[k..i] + [] == log[k..i];
    TakenGrows(log, start, i + 1, stop, c0);
  }

  lemma FirstRepeat(log: seq<LogLine>, k: nat, stop: nat) returns (i: nat)
    requires exists j: nat :: k <= j < stop && Repeats(log, j)
    ensures k <= i < stop && Repeats(log, i) && forall j: nat :: k <= j < i ==> !Repeats(log, j)
  {
    i := k;
    while !Repeats(log, i)
      invariant k <= i < stop && forall j: nat :: k <= j < i ==> !Repeats(log, j)
      decreases stop - i
    {
      i := i + 1;
    }
  }

  /** The lines of a replay that are printed are those beyond the first k exactly when it starts in time. */
  lemma TakesRestIff(log: seq<LogLine>, k: nat, c: Cursor, start: nat, stop: nat)
    requires Stamped(log) && Printed(log, k, c) && start <= stop <= |log|
    ensures Taken(log, start, stop, c.(skip := c.atLast)) == log[k..Max(k, stop)] <==> InTime(log, k, start, stop)
  {
    if InTime(log, k, start, stop) {
      InTimeTakes(log, k, c, start, stop);
    } else if start <= k {
      var i := FirstRepeat(log, k, stop);
      LateReplayLoses(log, k, c, start, stop, i);
    } else {
      TakenGrows(log, start, start, stop, c.(skip := c.atLast));
    }
  }

  /** A late replay can lose a line with a newer stamp: what is still to be skipped is not forgotten with the stamp. */
  lemma NewerStampLost()
    ensures var log := [LogLine(1, "A"), LogLine(1, "B"), LogLine(2, "C"), LogLine(2, "D")];
            var c := AfterAll(log, 0, 2, Cursor(None, 0, 0));
            Printed(log, 2, c) && Taken(log, 1, 4, c.(skip := c.atLast)) == [log[2]]
  {
  }

  /** A late replay without a repeated stamp loses nothing. */
  lemma LateReplayMayServe()
    ensures var log := [LogLine(1, "A"), LogLine(1, "B"), LogLine(2, "C"), LogLine(3, "D")];
            var c := AfterAll(log, 0, 2, Cursor(None, 0, 0));
            FirstOf(log, 2) < 1 && Taken(log, 1, 4, c.(skip := c.atLast)) == log[2..]
  {
  }
}
