/** Moving a buffer in chunked puts, a bounded number of them outstanding, over several paths at once. */
module PutStreams {
  /** What the transport answers to a put: an error, done at once, or a request to wait for. */
  datatype Answer = Refused | Immediate | Requested

  datatype Status = InProgress | Completed | Broken

  /** A put of n bytes at an offset, to the same offset of the target. */
  datatype Put = Put(offset: nat, n: nat)

  function Min(a: nat, b: nat): nat { if b < a then b else a }

  /** The puts follow one another from begin to next, none empty. */
  ghost predicate Tile(puts: seq<Put>, begin: nat, next: nat) {
    if puts == [] then next == begin
    else
      var last := puts[|puts| - 1];
      last.n > 0 && next == last.offset + last.n && Tile(puts[..|puts| - 1], begin, last.offset)
  }

  /** Every put has the size of a chunk, unless less than that was left of the range. */
  ghost predicate InChunks(puts: seq<Put>, chunk: nat, end: nat) {
    forall k :: 0 <= k < |puts| ==> puts[k].n == chunk || (puts[k].n < chunk && puts[k].offset + puts[k].n == end)
  }

  lemma TileMore(puts: seq<Put>, begin: nat, next: nat, n: nat)
    requires Tile(puts, begin, next) && n > 0
    ensures Tile(puts + [Put(next, n)], begin, next + n)
  {
    assert (puts + [Put(next, n)])[..|puts|] == puts;
  }

  predicate Holds(p: Put, x: nat) { p.offset <= x < p.offset + p.n }

  lemma {:induction false} TileBounds(puts: seq<Put>, begin: nat, next: nat, i: nat)
    requires Tile(puts, begin, next) && i < |puts|
    ensures begin <= puts[i].offset && puts[i].offset + puts[i].n <= next
    decreases |puts|
  {
    var last := |puts| - 1;
    if i < last {
      TileBounds(puts[..last], begin, puts[last].offset, i);
    } else if i > 0 {
      TileBounds(puts[..last], begin, puts[last].offset, last - 1);
    }
  }

  /** Every byte from begin to next is put exactly once, and no other. */
  lemma {:induction false} TileOnce(puts: seq<Put>, begin: nat, next: nat, x: nat)
    requires Tile(puts, begin, next)
    ensures begin <= x < next <==> exists i :: 0 <= i < |puts| && Holds(puts[i], x)
    ensures forall i, j :: 0 <= i < j < |puts| ==> !(Holds(puts[i], x) && Holds(puts[j], x))
    decreases |puts|
  {
    if puts != [] {
      var last := |puts| - 1;
      var front, mid := puts[..last], puts[last].offset;
      TileOnce(front, begin, mid, x);
      forall i | 0 <= i < last ensures Holds(puts[i], x) ==> x < mid {
        TileBounds(puts, begin, next, i);
        TileBounds(front, begin, mid, i);
      }
      TileBounds(puts, begin, next, last);
      assert forall i :: 0 <= i < last ==> front[i] == puts[i];
      if begin <= x < mid {
        var i :| 0 <= i < last && Holds(front[i], x);
        assert Holds(puts[i], x);
      }
      if i :| 0 <= i < |puts| && Holds(puts[i], x) {
        TileBounds(puts, begin, next, i);
      }
    }
  }

  /** There are no more puts than bytes. */
  lemma {:induction false} TileCount(puts: seq<Put>, begin: nat, next: nat)
    requires Tile(puts, begin, next)
    ensures begin + |puts| <= next
  {
    if puts != [] {
      TileCount(puts[..|puts| - 1], begin, puts[|puts| - 1].offset);
    }
  }

  /** Each of n puts is outstanding, completed or broken, and only one of these. */
  ghost predicate Accounted(pending: seq<nat>, completed: set<nat>, broken: set<nat>, n: nat) {
    && (forall i, j :: 0 <= i < j < |pending| ==> pending[i] != pending[j])
    && (forall i :: 0 <= i < n <==> i in pending || i in completed || i in broken)
    && (forall i :: !(i in pending && i in completed) && !(i in pending && i in broken) && !(i in completed && i in broken))
  }

  lemma OneMore(pending: seq<nat>, completed: set<nat>, broken: set<nat>, n: nat)
    requires Accounted(pending, completed, broken, n)
    ensures Accounted(pending + [n], completed, broken, n + 1)
    ensures Accounted(pending, completed + {n}, broken, n + 1)
  {
    assert n !in pending && n !in completed && n !in broken;
    assert forall j :: 0 <= j < |pending| ==> pending[j] in pending;
  }

  lemma OneOut(pending: seq<nat>, completed: set<nat>, broken: set<nat>, n: nat, i: nat)
    requires Accounted(pending, completed, broken, n) && i < |pending|
    ensures Accounted(pending[..i] + pending[i + 1..], completed + {pending[i]}, broken, n)
    ensures Accounted(pending[..i] + pending[i + 1..], completed, broken + {pending[i]}, n)
  {
    assert pending[i] in pending;
    TakenOut(pending, i);
  }

  /** The requests still in progress when they are checked one after the other from a tick on. */
  function Waiting(pending: seq<nat>, status: (nat, nat) -> Status, tick: nat): seq<nat> {
    if pending == [] then []
    else (if status(pending[0], tick).InProgress? then [pending[0]] else []) + Waiting(pending[1..], status, tick + 1)
  }

  lemma CheckedOne(pending: seq<nat>, i: nat, status: (nat, nat) -> Status, tick: nat)
    requires i < |pending|
    ensures status(pending[i], tick).InProgress? ==>
              pending[..i] + Waiting(pending[i..], status, tick) == pending[..i + 1] + Waiting(pending[i + 1..], status, tick + 1)
    ensures var r := pending[..i] + pending[i + 1..];
            !status(pending[i], tick).InProgress? ==>
              pending[..i] + Waiting(pending[i..], status, tick) == r[..i] + Waiting(r[i..], status, tick + 1)
  {
    assert pending[i..][0] == pending[i] && pending[i..][1..] == pending[i + 1..];
    var r := pending[..i] + pending[i + 1..];
    assert r[..i] == pending[..i] && r[i..] == pending[i + 1..];
    assert pending[..i + 1] == pending[..i] + [pending[i]];
    assert pending[..i] + [pending[i]] + Waiting(pending[i + 1..], status, tick + 1)
        == pending[..i] + ([pending[i]] + Waiting(pending[i + 1..], status, tick + 1));
  }

  // ----- a transport that completes every put

  /** No put is refused or breaks, and as many as puts says are complete whenever checked from tick patience on. */
  ghost predicate Reliable(answer: nat -> Answer, status: (nat, nat) -> Status, puts: int, patience: nat) {
    NoRefusal(answer) && NoBreak(status) && CompleteFrom(status, puts, patience)
  }

  ghost predicate NoRefusal(answer: nat -> Answer) { forall id: nat :: !answer(id).Refused? }

  ghost predicate NoBreak(status: (nat, nat) -> Status) { forall id: nat, tick: nat :: !status(id, tick).Broken? }

  ghost predicate CompleteFrom(status: (nat, nat) -> Status, puts: int, patience: nat) {
    forall id: nat, tick: nat :: id < puts && tick >= patience ==> status(id, tick).Completed?
  }

  /** When each put is complete from some tick on, all of a range are from one tick on. */
  lemma {:induction false} PatienceExists(status: (nat, nat) -> Status, puts: nat) returns (patience: nat)
    requires forall id: nat :: id < puts ==> Completes(status, id)
    ensures CompleteFrom(status, puts, patience)
  {
    patience := 0;
    if puts > 0 {
      var last: nat := puts - 1;
      var before := PatienceExists(status, last);
      assert Completes(status, last);
      var from: nat :| CompletesAt(status, last, from);
      patience := if before < from then from else before;
      forall id: nat, tick: nat | id < puts && tick >= patience ensures status(id, tick).Completed? {
        assert id == last || id < last;
      }
    }
  }

  ghost predicate Completes(status: (nat, nat) -> Status, id: nat) {
    exists from: nat :: CompletesAt(status, id, from)
  }

  ghost predicate CompletesAt(status: (nat, nat) -> Status, id: nat, from: nat) {
    forall tick: nat :: tick >= from ==> status(id, tick).Completed?
  }

  lemma {:induction false} NoneWaiting(pending: seq<nat>, status: (nat, nat) -> Status, tick: nat, puts: int,
                                       patience: nat)
    requires CompleteFrom(status, puts, patience) && tick >= patience && forall id :: id in pending ==> id < puts
    ensures Waiting(pending, status, tick) == []
  {
    if pending != [] {
      assert pending[0] in pending && forall id :: id in pending[1..] ==> id in pending;
      NoneWaiting(pending[1..], status, tick + 1, puts, patience);
    }
  }

  class PutStream {
    const begin: nat
    const end: nat
    const chunk: nat
    const inflight: nat
    const answer: nat -> Answer
    const status: (nat, nat) -> Status
    var next: nat
    var pending: seq<nat>
    var count: nat
    var ticks: nat
    ghost var issued: seq<Put>
    ghost var completed: set<nat>
    ghost var broken: set<nat>

    /** Each put issued is outstanding, completed or broken; the window is never exceeded. */
    ghost predicate Valid()
      reads this
    {
      && begin <= next <= end && (next < end ==> chunk > 0) && Tile(issued, begin, next)
      && |pending| <= inflight && count == |issued| && InChunks(issued, chunk, end)
      && Accounted(pending, completed, broken, |issued|)
    }

    /** A chunk of 0 stands for the whole range. */
    constructor (begin: nat, bytes: nat, chunk: nat, inflight: nat, answer: nat -> Answer, status: (nat, nat) -> Status)
      ensures Valid() && this.begin == begin && end == begin + bytes && this.inflight == inflight
      ensures this.answer == answer && this.status == status && next == begin && pending == [] && ticks == 0
      ensures this.chunk == (if chunk == 0 then bytes else chunk) && issued == [] && broken == {} && fresh(this)
    {
      this.begin, end, this.inflight := begin, begin + bytes, inflight;
      this.chunk := if chunk == 0 then bytes else chunk;
      this.answer, this.status := answer, status;
      next, pending, count, ticks := begin, [], 0, 0;
      issued, completed, broken := [], {}, {};
    }

    predicate Done()
      reads this
    {
      next >= end && pending == []
    }

    /** The next put: the transport refuses it, completes it at once or keeps it outstanding. */
    method IssueOne() returns (ok: bool)
      requires Valid() && next < end && |pending| < inflight
      modifies this`next, this`pending, this`count, this`issued, this`completed
      ensures Valid() && (ok <==> !answer(old(count)).Refused?)
      ensures issued == old(issued) + if ok then [Put(old(next), Min(chunk, end - old(next)))] else []
      ensures next == old(next) + (if ok then Min(chunk, end - old(next)) else 0)
      ensures pending == old(pending) + if answer(old(count)).Requested? then [old(count)] else []
    {
      var n := Min(chunk, end - next);
      var a := answer(count);
      if a.Refused? {
        return false;
      }
      TileMore(issued, begin, next, n);
      OneMore(pending, completed, broken, count);
      if a.Requested? {
        pending := pending + [count];
      } else {
        completed := completed + {count};
      }
      issued := issued + [Put(next, n)];
      count, next := count + 1, next + n;
      ok := true;
    }

    /** Fills the window, or issues all that is left of the range. */
    method Issue() returns (ok: bool)
      requires Valid()
      modifies this`next, this`pending, this`count, this`issued, this`completed
      ensures Valid() && old(issued) <= issued && next >= old(next)
      ensures ok ==> next == end || |pending| == inflight
      ensures NoRefusal(answer) ==> ok
      ensures old(pending) <= pending && (ok && old(next) < end && |old(pending)| < inflight ==> next > old(next))
    {
      while next < end && |pending| < inflight
        invariant Valid() && old(issued) <= issued && next >= old(next) && old(pending) <= pending
        invariant old(next) < end && |old(pending)| < inflight && next == old(next) ==> pending == old(pending)
        decreases end - next
      {
        ok := IssueOne();
        if !ok {
          return;
        }
      }
      ok := true;
    }

    /** Takes the requests that are no longer in progress out of the window. */
    method Reap() returns (ok: bool)
      requires Valid()
      modifies this`pending, this`ticks, this`completed, this`broken
      ensures Valid() && |pending| <= |old(pending)|
      ensures ok ==> broken == old(broken) && pending == Waiting(old(pending), status, old(ticks))
      ensures ok ==> ticks == old(ticks) + |old(pending)|
      ensures NoBreak(status) ==> ok
    {
      var i := 0;
      while i < |pending|
        invariant i <= |pending| <= |old(pending)| && Valid() && broken == old(broken)
        invariant ticks == old(ticks) + |old(pending)| - (|pending| - i)
        invariant pending[..i] + Waiting(pending[i..], status, ticks) == Waiting(old(pending), status, old(ticks))
        decreases |pending| - i
      {
        CheckedOne(pending, i, status, ticks);
        var st := status(pending[i], ticks);
        ticks := ticks + 1;
        if st.InProgress? {
          i := i + 1;
          continue;
        }
        ok := TakeOut(i, st);
        if !ok {
          return;
        }
      }
      ok := true;
    }

    /** A request that is over leaves the window. */
    method TakeOut(i: nat, st: Status) returns (ok: bool)
      requires Valid() && i < |pending| && !st.InProgress?
      modifies this`pending, this`completed, this`broken
      ensures Valid() && pending == old(pending[..i] + pending[i + 1..]) && (ok <==> st.Completed?)
      ensures completed == old(completed) + (if ok then {old(pending[i])} else {})
      ensures broken == old(broken) + (if ok then {} else {old(pending[i])})
    {
      OneOut(pending, completed, broken, |issued|, i);
      var id := pending[i];
      pending := pending[..i] + pending[i + 1..];
      if st.Broken? {
        broken := broken + {id};
        return false;
      }
      completed := completed + {id};
      ok := true;
    }

    /** What a stream may still wait for: checks in vain, bytes to be put, and puts outstanding. */
    ghost function Left(patience: nat): nat
      requires Valid()
      reads this
    {
      (if ticks < patience then patience - ticks else 0) + (end - next) + (if pending == [] then 0 else 1)
    }

    /** The stream is done, or has no more than limit to wait for. */
    ghost predicate Waits(patience: nat, limit: int)
      reads this
    {
      Valid() && (Done() || Left(patience) <= limit)
    }

    /** Nothing broke, and over a reliable transport the wait is bounded. */
    ghost predicate Good(reliable: bool, patience: nat, limit: int)
      reads this
    {
      Valid() && broken == {} && (reliable ==> Waits(patience, limit))
    }

    /** Issues what the window allows, then lets the transport progress once. */
    method Step(ghost patience: nat) returns (ok: bool)
      requires Valid()
      modifies this`next, this`pending, this`count, this`ticks, this`issued, this`completed, this`broken
      ensures Valid() && old(issued) <= issued
      ensures ok ==> broken == old(broken)
      ensures Reliable(answer, status, end - begin, patience) ==> ok
      ensures Reliable(answer, status, end - begin, patience) && inflight > 0 && !old(Done()) ==>
                Left(patience) < old(Left(patience))
    {
      ok := Issue();
      if ok {
        ghost var waiting := pending;
        PendingIssued();
        ok := Reap();
        if Reliable(answer, status, end - begin, patience) && old(ticks) >= patience {
          NoneWaiting(waiting, status, old(ticks), end - begin, patience);
        }
      }
    }

    /** A step, unless the stream is done. */
    method Turn(ghost reliable: bool, ghost patience: nat, ghost limit: int) returns (ok: bool, done: bool)
      requires Good(reliable, patience, limit)
      requires reliable ==> inflight > 0 && Reliable(answer, status, end - begin, patience)
      modifies this
      ensures Valid() && (ok ==> Good(reliable, patience, limit - 1) && done == Done())
      ensures reliable ==> ok
    {
      ok := true;
      if !Done() {
        ok := Step(patience);
      }
      done := Done();
    }

    lemma PendingIssued()
      requires Valid()
      ensures forall id :: id in pending ==> id < end - begin
    {
      TileCount(issued, begin, next);
    }

    /** When a stream is done and nothing broke, each byte of the range was put once, by a put that completed. */
    lemma DoneMovesAll(x: nat)
      requires Valid() && Done() && broken == {}
      ensures begin <= x < end <==> exists i :: i in completed && 0 <= i < |issued| && Holds(issued[i], x)
      ensures forall i, j :: 0 <= i < j < |issued| ==> !(Holds(issued[i], x) && Holds(issued[j], x))
    {
      TileOnce(issued, begin, next, x);
    }
  }

  lemma TakenOut(s: seq<nat>, i: nat)
    requires i < |s| && forall j, k :: 0 <= j < k < |s| ==> s[j] != s[k]
    ensures var r := s[..i] + s[i + 1..];
            && (forall x :: x in r <==> x in s && x != s[i])
            && (forall j, k :: 0 <= j < k < |r| ==> r[j] != r[k])
  {
    var r := s[..i] + s[i + 1..];
    assert forall j :: 0 <= j < |r| ==> r[j] == s[if j < i then j else j + 1];
    forall x | x in s && x != s[i] ensures x in r {
      var j: nat :| j < |s| && s[j] == x;
      assert r[if j < i then j else j - 1] == x;
    }
  }

  // ----- several paths at once

  /** How a transfer ends; Unfinished when the rounds given were not enough. */
  datatype Outcome = Finished | Failed | Unfinished

  /** What the transport answers on each path. */
  datatype Transport = Transport(answer: nat -> Answer, status: (nat, nat) -> Status, flushed: bool)

  ghost predicate AllValid(streams: seq<PutStream>)
    reads streams
  {
    && (forall i :: 0 <= i < |streams| ==> streams[i].Valid() && streams[i].broken == {})
    && (forall i, j :: 0 <= i < j < |streams| ==> streams[i] != streams[j])
  }

  /** No window is exceeded and every put is in its place, whatever failed. */
  ghost predicate InShape(streams: seq<PutStream>)
    reads streams
  {
    forall i :: 0 <= i < |streams| ==> streams[i].Valid()
  }

  /** The transport of every stream completes every put. */
  ghost predicate AllReliable(streams: seq<PutStream>, patience: nat) {
    forall s :: s in streams ==> s.inflight > 0 && Reliable(s.answer, s.status, s.end - s.begin, patience)
  }

  /** Every stream is done or has no more than limit to wait for. */
  ghost predicate LeftAtMost(streams: seq<PutStream>, patience: nat, limit: int)
    reads streams
  {
    forall i :: 0 <= i < |streams| ==> streams[i].Waits(patience, limit)
  }

  /** One turn of every stream that is not done. */
  method Round(streams: seq<PutStream>, ghost reliable: bool, ghost patience: nat, ghost limit: int)
    returns (ok: bool, allDone: bool)
    requires AllValid(streams)
    requires reliable ==> AllReliable(streams, patience) && LeftAtMost(streams, patience, limit)
    modifies streams
    ensures InShape(streams)
    ensures ok ==> AllValid(streams) && (allDone <==> forall i :: 0 <= i < |streams| ==> streams[i].Done())
    ensures reliable ==> ok && LeftAtMost(streams, patience, limit - 1)
  {
    allDone := true;
    for k := 0 to |streams|
      invariant allDone <==> forall i :: 0 <= i < k ==> streams[i].Done()
      invariant forall i :: 0 <= i < k ==> streams[i].Good(reliable, patience, limit - 1)
      invariant forall i :: k <= i < |streams| ==> streams[i].Good(reliable, patience, limit)
    {
      var done;
      assert forall i :: 0 <= i < |streams| && i != k ==> streams[i] != streams[k];
      ok, done := streams[k].Turn(reliable, patience, limit);
      if !ok {
        return;
      }
      allDone := allDone && done;
    }
    ok := true;
  }

  /** The range of a path: bytes from path * bytes on. */
  ghost predicate Covers(s: PutStream, path: nat, bytes: nat) {
    s.begin == path * bytes && s.end == s.begin + bytes
  }

  ghost predicate Opened(s: PutStream, path: nat, bytes: nat, chunk: nat, inflight: nat, t: Transport)
    reads s
  {
    && Covers(s, path, bytes) && Sized(s, bytes, chunk, inflight) && s.answer == t.answer && s.status == t.status
    && s.next == s.begin && s.pending == [] && s.ticks == 0
  }

  /** The chunk and the window asked for; a chunk of 0 stands for the whole range. */
  ghost predicate Sized(s: PutStream, bytes: nat, chunk: nat, inflight: nat) {
    s.inflight == inflight && s.chunk == if chunk == 0 then bytes else chunk
  }

  ghost predicate AllSized(streams: seq<PutStream>, bytes: nat, chunk: nat, inflight: nat) {
    forall s :: s in streams ==> Sized(s, bytes, chunk, inflight)
  }

  /** A stream for each path. */
  method OpenAll(paths: seq<nat>, bytes: nat, chunk: nat, inflight: nat, transport: nat -> Transport)
    returns (streams: seq<PutStream>)
    ensures AllValid(streams) && fresh(streams) && |streams| == |paths|
    ensures forall i :: 0 <= i < |paths| ==> Opened(streams[i], paths[i], bytes, chunk, inflight, transport(paths[i]))
  {
    streams := [];
    for i := 0 to |paths|
      invariant |streams| == i && AllValid(streams) && fresh(streams)
      invariant forall k :: 0 <= k < i ==> Opened(streams[k], paths[k], bytes, chunk, inflight, transport(paths[k]))
    {
      var t := transport(paths[i]);
      var s := new PutStream(paths[i] * bytes, bytes, chunk, inflight, t.answer, t.status);
      assert s !in streams;
      streams := streams + [s];
    }
  }

  /** The streams put each path's range. */
  ghost predicate CoverAll(streams: seq<PutStream>, paths: seq<nat>, bytes: nat) {
    |streams| == |paths| && forall i :: 0 <= i < |paths| ==> Covers(streams[i], paths[i], bytes)
  }

  ghost predicate AllDone(streams: seq<PutStream>)
    reads streams
  {
    AllValid(streams) && forall i :: 0 <= i < |streams| ==> streams[i].Done()
  }

  /** The put with index k of the stream with index i has completed and holds the byte at x. */
  ghost predicate PutsByte(streams: seq<PutStream>, i: nat, k: nat, x: nat)
    reads streams
  {
    i < |streams| && k in streams[i].completed && k < |streams[i].issued| && Holds(streams[i].issued[k], x)
  }

  predicate InPath(path: nat, bytes: nat, x: nat) { path * bytes <= x < path * bytes + bytes }

  ghost predicate DistinctPaths(paths: seq<nat>) { forall i, j :: 0 <= i < j < |paths| ==> paths[i] != paths[j] }

  /** Each path's stream put the bytes of its path and no others, by puts that completed; over distinct paths no two
      puts hold one byte. */
  ghost predicate MovedOnce(streams: seq<PutStream>, paths: seq<nat>, bytes: nat)
    reads streams
  {
    && |streams| == |paths|
    && (forall i: nat, x: nat {:trigger InPath(paths[i], bytes, x)} ::
          i < |paths| ==> (InPath(paths[i], bytes, x) <==> exists k: nat :: PutsByte(streams, i, k, x)))
    && (DistinctPaths(paths) ==> forall i: nat, k: nat, j: nat, l: nat, x: nat ::
          PutsByte(streams, i, k, x) && PutsByte(streams, j, l, x) ==> i == j && k == l)
  }

  lemma DoneMovesOnce(streams: seq<PutStream>, paths: seq<nat>, bytes: nat)
    requires AllDone(streams) && CoverAll(streams, paths, bytes)
    ensures MovedOnce(streams, paths, bytes)
  {
    forall i: nat, x: nat | i < |paths|
      ensures InPath(paths[i], bytes, x) <==> exists k: nat :: PutsByte(streams, i, k, x)
    {
      PathMoved(streams, paths, bytes, i, x);
    }
    if DistinctPaths(paths) {
      forall i: nat, k: nat, j: nat, l: nat, x: nat | PutsByte(streams, i, k, x) && PutsByte(streams, j, l, x)
        ensures i == j && k == l
      {
        ByteOnce(streams, paths, bytes, i, k, j, l, x);
      }
    }
  }

  lemma PathMoved(streams: seq<PutStream>, paths: seq<nat>, bytes: nat, i: nat, x: nat)
    requires AllDone(streams) && CoverAll(streams, paths, bytes) && i < |paths|
    ensures InPath(paths[i], bytes, x) <==> exists k: nat :: PutsByte(streams, i, k, x)
  {
    var s := streams[i];
    s.DoneMovesAll(x);
    assert Covers(s, paths[i], bytes);
    if InPath(paths[i], bytes, x) {
      var k :| k in s.completed && 0 <= k < |s.issued| && Holds(s.issued[k], x);
      assert PutsByte(streams, i, k, x);
    }
  }

  lemma ByteOnce(streams: seq<PutStream>, paths: seq<nat>, bytes: nat, i: nat, k: nat, j: nat, l: nat, x: nat)
    requires AllDone(streams) && CoverAll(streams, paths, bytes) && DistinctPaths(paths)
    requires PutsByte(streams, i, k, x) && PutsByte(streams, j, l, x)
    ensures i == j && k == l
  {
    PathMoved(streams, paths, bytes, i, x);
    PathMoved(streams, paths, bytes, j, x);
    if i != j {
      assert paths[i] != paths[j];
      PathsDisjoint(streams[i], streams[j], paths[i], paths[j], bytes);
    } else {
      streams[i].DoneMovesAll(x);
    }
  }

  /** Every path can be flushed, and its transport completes every put. */
  ghost predicate PathsReliable(paths: seq<nat>, bytes: nat, transport: nat -> Transport, patience: nat) {
    forall p :: p in paths ==>
      transport(p).flushed && Reliable(transport(p).answer, transport(p).status, bytes, patience)
  }

  /** A path whose puts are never refused, never break and complete at last. */
  ghost predicate PathCompletes(bytes: nat, t: Transport) {
    t.flushed && NoRefusal(t.answer) && NoBreak(t.status) && forall id: nat :: id < bytes ==> Completes(t.status, id)
  }

  /** When every path completes its puts, some number of rounds is enough. */
  lemma {:induction false} PathsPatience(paths: seq<nat>, bytes: nat, transport: nat -> Transport)
    returns (patience: nat)
    requires forall p :: p in paths ==> PathCompletes(bytes, transport(p))
    ensures PathsReliable(paths, bytes, transport, patience)
  {
    patience := 0;
    if paths != [] {
      var p, rest := paths[0], paths[1..];
      assert paths == [p] + rest;
      var before := PathsPatience(rest, bytes, transport);
      var own := PatienceExists(transport(p).status, bytes);
      patience := if before < own then own else before;
    }
  }

  method Transfer(paths: seq<nat>, bytes: nat, chunk: nat, inflight: nat, transport: nat -> Transport, rounds: nat,
                  moved: nat, ghost patience: nat)
    returns (outcome: Outcome, moved': nat, streams: seq<PutStream>)
    requires inflight > 0
    ensures CoverAll(streams, paths, bytes)
    ensures InShape(streams) && AllSized(streams, bytes, chunk, inflight)
    ensures outcome == Finished ==> AllDone(streams) && MovedOnce(streams, paths, bytes)
    ensures outcome == Finished ==> forall i :: 0 <= i < |paths| ==> transport(paths[i]).flushed
    ensures moved' == if outcome == Finished then moved + bytes * |paths| else moved
    ensures PathsReliable(paths, bytes, transport, patience) && rounds > patience + bytes ==> outcome == Finished
  {
    streams := OpenAll(paths, bytes, chunk, inflight, transport);
    OpenedReliable(streams, paths, bytes, chunk, inflight, transport, patience);
    ghost var reliable := PathsReliable(paths, bytes, transport, patience);
    outcome := RunAll(streams, rounds, reliable, patience, patience + bytes);
    if outcome == Finished {
      DoneMovesOnce(streams, paths, bytes);
    }
    outcome, moved' := Conclude(outcome, paths, bytes, transport, moved);
  }

  /** Flushes every path once the streams are done; only then do the bytes count as moved. */
  method Conclude(run: Outcome, paths: seq<nat>, bytes: nat, transport: nat -> Transport, moved: nat)
    returns (outcome: Outcome, moved': nat)
    ensures outcome == Finished ==> run == Finished && forall i :: 0 <= i < |paths| ==> transport(paths[i]).flushed
    ensures run == Finished && (forall p :: p in paths ==> transport(p).flushed) ==> outcome == Finished
    ensures moved' == if outcome == Finished then moved + bytes * |paths| else moved
  {
    outcome, moved' := run, moved;
    if run == Finished {
      var flushed := FlushAll(paths, transport);
      if flushed {
        moved' := moved + bytes * |paths|;
      } else {
        outcome := Failed;
      }
    }
  }

  lemma OpenedReliable(streams: seq<PutStream>, paths: seq<nat>, bytes: nat, chunk: nat, inflight: nat,
                       transport: nat -> Transport, patience: nat)
    requires inflight > 0 && AllValid(streams) && |streams| == |paths|
    requires forall i :: 0 <= i < |paths| ==> Opened(streams[i], paths[i], bytes, chunk, inflight, transport(paths[i]))
    ensures AllSized(streams, bytes, chunk, inflight)
    ensures CoverAll(streams, paths, bytes) && LeftAtMost(streams, patience, patience + bytes)
    ensures PathsReliable(paths, bytes, transport, patience) ==> AllReliable(streams, patience)
  {
    forall s | s in streams
      ensures Sized(s, bytes, chunk, inflight)
      ensures s.Left(patience) <= patience + bytes
      ensures PathsReliable(paths, bytes, transport, patience) ==>
                s.inflight > 0 && Reliable(s.answer, s.status, s.end - s.begin, patience)
    {
      var i: nat :| i < |streams| && streams[i] == s;
      assert Opened(s, paths[i], bytes, chunk, inflight, transport(paths[i]));
      assert paths[i] in paths;
    }
  }

  /** Turns of all the streams, until every one is done. */
  method RunAll(streams: seq<PutStream>, rounds: nat, ghost reliable: bool, ghost patience: nat, ghost limit: nat)
    returns (outcome: Outcome)
    requires AllValid(streams)
    requires reliable ==> AllReliable(streams, patience) && LeftAtMost(streams, patience, limit)
    modifies streams
    ensures InShape(streams) && (outcome == Finished ==> AllDone(streams))
    ensures reliable && rounds > limit ==> outcome == Finished
  {
    var allDone, turn := false, 0;
    while !allDone && turn < rounds
      invariant AllValid(streams) && turn <= rounds
      invariant turn > 0 ==> (allDone <==> forall i :: 0 <= i < |streams| ==> streams[i].Done())
      invariant allDone ==> turn > 0
      invariant reliable ==> LeftAtMost(streams, patience, limit - turn)
      decreases rounds - turn
    {
      var ok;
      ok, allDone := Round(streams, reliable, patience, limit - turn);
      if !ok {
        return Failed;
      }
      turn := turn + 1;
    }
    outcome := if allDone then Finished else Unfinished;
  }

  method FlushAll(paths: seq<nat>, transport: nat -> Transport) returns (ok: bool)
    ensures ok <==> forall i :: 0 <= i < |paths| ==> transport(paths[i]).flushed
  {
    for i := 0 to |paths|
      invariant forall k :: 0 <= k < i ==> transport(paths[k]).flushed
    {
      if !transport(paths[i]).flushed {
        return false;
      }
    }
    ok := true;
  }

  /** Distinct paths move disjoint ranges. */
  lemma PathsDisjoint(a: PutStream, b: PutStream, p: nat, q: nat, bytes: nat)
    requires Covers(a, p, bytes) && Covers(b, q, bytes) && p != q
    ensures a.end <= b.begin || b.end <= a.begin
  {
    if p < q {
      assert (p + 1) * bytes <= q * bytes;
    } else {
      assert (q + 1) * bytes <= p * bytes;
    }
  }
}
