/** The sliding-window rate limiter (crates/lulan-api/src/rate_limit.rs): one sorted set per caller
and bucket, whose scores are the times of the requests let through.

Two clocks are involved. Scores and pruning use the reading the API process took; the key's expiry
runs on the Redis server's own clock. Each call carries both. */
module RateLimit {

  const WINDOW_MS := 60_000

  /** One request: the process's reading and the server's time when the script runs. */
  datatype Call = Call(reading: nat, server: int)

  /** Scores in the order they were added, and when the server drops the key. */
  datatype Bucket = Bucket(scores: seq<nat>, deadline: int)

  const NO_REQUESTS := Bucket([], 0)

  function Visible(b: Bucket, server: int): seq<nat> {
    if b.deadline > server then b.scores else []
  }

  /** What ZREMRANGEBYSCORE 0 .. reading - window leaves. */
  function Recent(scores: seq<nat>, reading: int): (recent: seq<nat>)
    ensures forall x :: x in recent <==> x in scores && x > reading - WINDOW_MS
  {
    if scores == [] then []
    else
      var last := scores[|scores| - 1];
      assert scores == scores[..|scores| - 1] + [last];
      Recent(scores[..|scores| - 1], reading) + (if last > reading - WINDOW_MS then [last] else [])
  }

  /** The script: prune, count, and only then record and extend the key's life. */
  function Decide(b: Bucket, call: Call, limit: nat): (Bucket, bool) {
    var kept := Recent(Visible(b, call.server), call.reading);
    if |kept| >= limit then (Bucket(kept, b.deadline), false)
    else (Bucket(kept + [call.reading], call.server + WINDOW_MS), true)
  }

  /** One caller's bucket, updated in place. */
  class SlidingWindow {
    var scores: seq<nat>
    var deadline: int

    ghost function View(): Bucket
      reads this
    {
      Bucket(scores, deadline)
    }

    constructor ()
      ensures View() == NO_REQUESTS
    {
      scores, deadline := [], 0;
    }

    method Check(call: Call, limit: nat) returns (allowed: bool)
      modifies this
      ensures (View(), allowed) == Decide(old(View()), call, limit)
    {
      var found := if deadline > call.server then scores else [];
      var kept := [];
      for i := 0 to |found|
        invariant kept == Recent(found[..i], call.reading)
        invariant View() == old(View())
      {
        assert found[..i + 1][..i] == found[..i];
        if found[i] > call.reading - WINDOW_MS {
          kept := kept + [found[i]];
        }
      }
      assert found[..|found|] == found;
      scores := kept;
      if |kept| >= limit {
        return false;
      }
      scores := kept + [call.reading];
      deadline := call.server + WINDOW_MS;
      allowed := true;
    }
  }

  // ---- runs ------------------------------------------------------------------------------------------

  datatype Trace = Trace(bucket: Bucket, admitted: seq<nat>)

  function Then(before: Trace, call: Call, limit: nat): Trace {
    var (bucket, allowed) := Decide(before.bucket, call, limit);
    Trace(bucket, if allowed then before.admitted + [call.reading] else before.admitted)
  }

  /** The bucket after each call in turn, with every admission ever made. */
  function After(calls: seq<Call>, limit: nat): Trace {
    if calls == [] then Trace(NO_REQUESTS, [])
    else Then(After(calls[..|calls| - 1], limit), calls[|calls| - 1], limit)
  }

  /** How many of `times` lie in the half-open window (after, until]. */
  function CountIn(times: seq<nat>, after: int, until: int): nat {
    if times == [] then 0
    else
      var last := times[|times| - 1];
      CountIn(times[..|times| - 1], after, until) + (if after < last <= until then 1 else 0)
  }

  /** How many of `times` lie in the sixty seconds up to and including `end`. */
  function InWindow(times: seq<nat>, end: int): nat {
    CountIn(times, end - WINDOW_MS, end)
  }

  /** No sixty-second window anywhere holds more than `limit` admissions. */
  ghost predicate Bounded(calls: seq<Call>, limit: nat) {
    forall end: int :: InWindow(After(calls, limit).admitted, end) <= limit
  }

  /** From `a` to `b` the server's clock does not go back and the reading gains at least as much. */
  ghost predicate Follows(a: Call, b: Call) {
    a.server <= b.server && b.reading - a.reading >= b.server - a.server
  }

  ghost predicate Steady(calls: seq<Call>) {
    forall i, j :: 0 <= i < j < |calls| ==> Follows(calls[i], calls[j])
  }

  ghost predicate AllUpTo(times: seq<nat>, reading: int) {
    forall i :: 0 <= i < |times| ==> times[i] <= reading
  }

  lemma {:induction false} RecentCounts(times: seq<nat>, reading: int)
    requires AllUpTo(times, reading)
    ensures |Recent(times, reading)| == InWindow(times, reading)
    decreases |times|
  {
    if times != [] {
      RecentCounts(times[..|times| - 1], reading);
    }
  }

  lemma RecentAppend(times: seq<nat>, last: nat, reading: int)
    ensures Recent(times + [last], reading) == Recent(times, reading) + (if last > reading - WINDOW_MS then [last] else [])
  {
    assert (times + [last])[..|times|] == times;
  }

  lemma {:induction false} RecentTwice(times: seq<nat>, reading: int, later: int)
    requires reading <= later
    ensures Recent(Recent(times, reading), later) == Recent(times, later)
    decreases |times|
  {
    if times != [] {
      var init, last := times[..|times| - 1], times[|times| - 1];
      RecentTwice(init, reading, later);
      if last > reading - WINDOW_MS {
        RecentAppend(Recent(init, reading), last, later);
      } else {
        assert Recent(times, reading) == Recent(init, reading);
      }
    }
  }

  lemma {:induction false} NoneRecent(times: seq<nat>, reading: int, later: int)
    requires AllUpTo(times, reading) && later >= reading + WINDOW_MS
    ensures Recent(times, later) == []
    decreases |times|
  {
    if times != [] {
      NoneRecent(times[..|times| - 1], reading, later);
    }
  }

  /** To any call that follows `last`, the bucket shows exactly the admissions still in its window. */
  ghost predicate Tracks(b: Bucket, admitted: seq<nat>, last: Call) {
    && AllUpTo(admitted, last.reading)
    && forall next: Call :: Follows(last, next) ==> Shows(b, admitted, next)
  }

  ghost predicate Shows(b: Bucket, admitted: seq<nat>, next: Call) {
    Recent(Visible(b, next.server), next.reading) == Recent(admitted, next.reading)
  }

  lemma RefusalTracks(b: Bucket, admitted: seq<nat>, call: Call, limit: nat)
    requires Tracks(b, admitted, call) && !Decide(b, call, limit).1
    ensures Tracks(Decide(b, call, limit).0, admitted, call)
  {
    var t := Decide(b, call, limit).0;
    assert Shows(b, admitted, call);
    forall next: Call | Follows(call, next)
      ensures Shows(t, admitted, next)
    {
      RecentTwice(admitted, call.reading, next.reading);
      assert Shows(b, admitted, next);
    }
  }

  lemma AdmissionTracks(b: Bucket, admitted: seq<nat>, call: Call, limit: nat)
    requires Tracks(b, admitted, call) && Decide(b, call, limit).1
    ensures Tracks(Decide(b, call, limit).0, admitted + [call.reading], call)
  {
    var t := Decide(b, call, limit).0;
    assert Shows(b, admitted, call);
    forall next: Call | Follows(call, next)
      ensures Shows(t, admitted + [call.reading], next)
    {
      RecentTwice(admitted, call.reading, next.reading);
      RecentAppend(admitted, call.reading, next.reading);
      RecentAppend(Recent(admitted, call.reading), call.reading, next.reading);
      if next.server >= call.server + WINDOW_MS {
        NoneRecent(admitted + [call.reading], call.reading, next.reading);
      }
    }
  }

  lemma LaterTracks(b: Bucket, admitted: seq<nat>, last: Call, call: Call)
    requires Tracks(b, admitted, last) && Follows(last, call)
    ensures Tracks(b, admitted, call)
  {
    forall next: Call | Follows(call, next)
      ensures Shows(b, admitted, next)
    {
      assert Follows(last, next);
    }
  }

  /** Every admission closed a window that was not over the limit. */
  ghost predicate Paced(admitted: seq<nat>, limit: nat) {
    admitted == []
    || (var init, last := admitted[..|admitted| - 1], admitted[|admitted| - 1];
        Paced(init, limit) && AllUpTo(admitted, last) && InWindow(admitted, last) <= limit)
  }

  lemma DecisionCounts(b: Bucket, admitted: seq<nat>, call: Call, limit: nat)
    requires Tracks(b, admitted, call)
    ensures Decide(b, call, limit).1 <==> InWindow(admitted, call.reading) < limit
  {
    assert Follows(call, call);
    assert Shows(b, admitted, call);
    RecentCounts(admitted, call.reading);
  }

  lemma NextInWindow(times: seq<nat>, last: nat, end: int)
    ensures InWindow(times + [last], end) == InWindow(times, end) + (if end - WINDOW_MS < last <= end then 1 else 0)
  {
    assert (times + [last])[..|times|] == times;
  }

  lemma AdmissionPaces(admitted: seq<nat>, reading: nat, limit: nat)
    requires Paced(admitted, limit) && AllUpTo(admitted, reading) && InWindow(admitted, reading) < limit
    ensures Paced(admitted + [reading], limit)
  {
    NextInWindow(admitted, reading, reading);
    assert (admitted + [reading])[..|admitted|] == admitted;
  }

  lemma StepTracks(before: Trace, call: Call, limit: nat)
    requires Tracks(before.bucket, before.admitted, call) && Paced(before.admitted, limit)
    ensures var t := Then(before, call, limit);
            Tracks(t.bucket, t.admitted, call) && Paced(t.admitted, limit)
  {
    DecisionCounts(before.bucket, before.admitted, call, limit);
    if Decide(before.bucket, call, limit).1 {
      AdmissionPaces(before.admitted, call.reading, limit);
      AdmissionTracks(before.bucket, before.admitted, call, limit);
    } else {
      RefusalTracks(before.bucket, before.admitted, call, limit);
    }
  }

  lemma SteadyPrefix(calls: seq<Call>, next: Call)
    requires calls != [] && Steady(calls + [next])
    ensures Steady(calls[..|calls| - 1] + [calls[|calls| - 1]])
    ensures Follows(calls[|calls| - 1], next)
  {
    var all, init := calls + [next], calls[..|calls| - 1] + [calls[|calls| - 1]];
    assert forall i :: 0 <= i < |init| ==> init[i] == all[i];
    assert all[|calls| - 1] == calls[|calls| - 1] && all[|calls|] == next;
  }

  lemma {:induction false} RunTracks(calls: seq<Call>, limit: nat, next: Call)
    requires Steady(calls + [next])
    ensures var t := After(calls, limit);
            Tracks(t.bucket, t.admitted, next) && Paced(t.admitted, limit)
    decreases |calls|
  {
    if calls != [] {
      var init, last := calls[..|calls| - 1], calls[|calls| - 1];
      SteadyPrefix(calls, next);
      RunTracks(init, limit, last);
      StepTracks(After(init, limit), last, limit);
      LaterTracks(After(calls, limit).bucket, After(calls, limit).admitted, last, next);
    }
  }

  /** When calls are steady, a request is let through exactly when fewer than `limit` were in the last
      minute: neither pruning nor key expiry forgets one that still counts. */
  lemma AllowedIff(calls: seq<Call>, next: Call, limit: nat)
    requires Steady(calls + [next])
    ensures Decide(After(calls, limit).bucket, next, limit).1 <==>
            InWindow(After(calls, limit).admitted, next.reading) < limit
  {
    RunTracks(calls, limit, next);
    DecisionCounts(After(calls, limit).bucket, After(calls, limit).admitted, next, limit);
  }

  lemma {:induction false} CountShrinks(times: seq<nat>, after: int, later: int, until: int, beyond: int)
    requires after <= later && AllUpTo(times, until)
    ensures CountIn(times, later, beyond) <= CountIn(times, after, until)
    decreases |times|
  {
    if times != [] {
      CountShrinks(times[..|times| - 1], after, later, until, beyond);
    }
  }

  lemma {:induction false} PacedWindows(admitted: seq<nat>, limit: nat, end: int)
    requires Paced(admitted, limit)
    ensures InWindow(admitted, end) <= limit
    decreases |admitted|
  {
    if admitted != [] {
      var init, last := admitted[..|admitted| - 1], admitted[|admitted| - 1];
      if last <= end {
        CountShrinks(admitted, last - WINDOW_MS, end - WINDOW_MS, last, end);
      } else {
        PacedWindows(init, limit, end);
      }
    }
  }

  /** In every steady run, no sixty-second window anywhere holds more than `limit` admissions. */
  lemma EveryWindowIsBounded(calls: seq<Call>, limit: nat)
    requires Steady(calls)
    ensures Bounded(calls, limit)
  {
    if calls != [] {
      var last := calls[|calls| - 1];
      assert Follows(last, last);
      assert Steady(calls + [last]);
      RunTracks(calls, limit, last);
      forall end: int
        ensures InWindow(After(calls, limit).admitted, end) <= limit
      {
        PacedWindows(After(calls, limit).admitted, limit, end);
      }
    }
  }

  // ---- how much the clocks may differ ----------------------------------------------------------------------

  /** How far the process is ahead of the server; behind it, when negative. */
  function Lead(call: Call): int {
    call.reading - call.server
  }

  /** The server's clock never goes back. */
  ghost predicate Forward(calls: seq<Call>) {
    forall i, j :: 0 <= i < j < |calls| ==> calls[i].server <= calls[j].server
  }

  /** Any two calls' leads differ by at most `spread`. */
  ghost predicate Spread(calls: seq<Call>, spread: nat) {
    Forward(calls)
    && forall i, j :: 0 <= i < |calls| && 0 <= j < |calls| ==> Lead(calls[i]) - Lead(calls[j]) <= spread
  }

  ghost predicate LeadsBetween(calls: seq<Call>, least: int, most: int) {
    Forward(calls) && forall i :: 0 <= i < |calls| ==> least <= Lead(calls[i]) <= most
  }

  /** The same call `n` times. */
  function Burst(call: Call, n: nat): (calls: seq<Call>)
    ensures |calls| == n && forall i :: 0 <= i < n ==> calls[i] == call
  {
    seq(n, _ => call)
  }

  /** The same reading `n` times. */
  function Times(t: nat, n: nat): (times: seq<nat>)
    ensures |times| == n && forall i :: 0 <= i < n ==> times[i] == t
  {
    seq(n, _ => t)
  }

  lemma {:induction false} RecentOfTimes(t: nat, n: nat, reading: int)
    ensures Recent(Times(t, n), reading) == if t > reading - WINDOW_MS then Times(t, n) else []
    decreases n
  {
    if n > 0 {
      assert Times(t, n)[..n - 1] == Times(t, n - 1);
      RecentOfTimes(t, n - 1, reading);
      assert Times(t, n) == Times(t, n - 1) + [t];
    }
  }

  lemma {:induction false} CountOfTimes(t: nat, n: nat, end: int)
    ensures InWindow(Times(t, n), end) == if end - WINDOW_MS < t <= end then n else 0
    decreases n
  {
    if n > 0 {
      assert Times(t, n) == Times(t, n - 1) + [t];
      CountOfTimes(t, n - 1, end);
      NextInWindow(Times(t, n - 1), t, end);
    }
  }

  lemma NextCall(calls: seq<Call>, call: Call, limit: nat)
    ensures After(calls + [call], limit) == Then(After(calls, limit), call, limit)
  {
    assert (calls + [call])[..|calls|] == calls;
  }

  /** A burst within the limit is let through whole. */
  lemma {:induction false} AfterBurst(call: Call, n: nat, limit: nat)
    requires 0 < n <= limit
    ensures After(Burst(call, n), limit)
         == Trace(Bucket(Times(call.reading, n), call.server + WINDOW_MS), Times(call.reading, n))
    decreases n
  {
    assert Burst(call, n)[..n - 1] == Burst(call, n - 1);
    assert Times(call.reading, n) == Times(call.reading, n - 1) + [call.reading];
    if n == 1 {
      assert Times(call.reading, 0) == [];
      assert After(Burst(call, 0), limit) == Trace(NO_REQUESTS, []);
    } else {
      AfterBurst(call, n - 1, limit);
      RecentOfTimes(call.reading, n - 1, call.reading);
    }
  }

  /** The window is filled, and the next call comes when the key is gone. */
  function ExpiryRun(start: Call, last: Call, limit: nat): seq<Call> {
    Burst(start, limit) + [last]
  }

  lemma ExpiredKeyAdmits(calls: seq<Call>, before: Trace, call: Call, limit: nat)
    requires After(calls, limit) == before && before.bucket.deadline <= call.server && limit >= 1
    ensures After(calls + [call], limit).admitted == before.admitted + [call.reading]
  {
    NextCall(calls, call, limit);
  }

  lemma OneMoreInWindow(t: nat, n: nat, end: nat)
    requires end - WINDOW_MS < t <= end
    ensures InWindow(Times(t, n) + [end], end) == n + 1
  {
    CountOfTimes(t, n, end);
    NextInWindow(Times(t, n), end, end);
  }

  /** A minute of the server's time drops the key, though to a reading that has gained less than a minute
      the requests are still in the window: ahead of the server or behind it, only the fall in the lead counts. */
  lemma ExpiryOverfills(start: Call, last: Call, limit: nat)
    requires limit >= 1 && start.server + WINDOW_MS <= last.server
    requires start.reading <= last.reading < start.reading + WINDOW_MS
    ensures LeadsBetween(ExpiryRun(start, last, limit), Lead(last), Lead(start))
    ensures InWindow(After(ExpiryRun(start, last, limit), limit).admitted, last.reading) == limit + 1
  {
    AfterBurst(start, limit, limit);
    ExpiredKeyAdmits(Burst(start, limit), After(Burst(start, limit), limit), last, limit);
    OneMoreInWindow(start.reading, limit, last.reading);
  }

  /** Latency alone is enough: nobody is ahead of the server and no reading goes back, but the last one
      was taken some time before its script ran. */
  lemma LatencyOverfills(start: Call, last: Call, limit: nat)
    requires limit >= 1 && Lead(start) == 0 && last.server == start.server + WINDOW_MS
    requires start.reading <= last.reading < last.server
    ensures var calls := ExpiryRun(start, last, limit);
            && (forall i :: 0 <= i < |calls| ==> Lead(calls[i]) <= 0)
            && (forall i, j :: 0 <= i < j < |calls| ==> calls[i].reading <= calls[j].reading && calls[i].server <= calls[j].server)
            && InWindow(After(calls, limit).admitted, last.reading) == limit + 1
  {
    ExpiryOverfills(start, last, limit);
  }

  /** The window is filled; while the key lives, one call prunes it all and another looks back. */
  function PruningRun(start: Call, pruner: Call, back: Call, limit: nat): seq<Call> {
    Burst(start, limit) + [pruner] + [back]
  }

  lemma PrunerForgets(calls: seq<Call>, before: Trace, pruner: Call, limit: nat)
    requires After(calls, limit) == before && before.bucket.deadline > pruner.server && limit >= 1
    requires Recent(before.bucket.scores, pruner.reading) == []
    ensures After(calls + [pruner], limit)
         == Trace(Bucket([pruner.reading], pruner.server + WINDOW_MS), before.admitted + [pruner.reading])
  {
    NextCall(calls, pruner, limit);
    assert [] + [pruner.reading] == [pruner.reading];
  }

  lemma BackAdmits(calls: seq<Call>, before: Trace, pruner: nat, back: Call, limit: nat)
    requires After(calls, limit) == before && before.bucket.scores == [pruner] && limit >= 2
    ensures After(calls + [back], limit).admitted == before.admitted + [back.reading]
  {
    NextCall(calls, back, limit);
    RecentOfOne(pruner, back.reading);
  }

  lemma BothAdmitted(calls: seq<Call>, before: Trace, pruner: Call, back: Call, limit: nat)
    requires After(calls, limit) == before && before.bucket.deadline > pruner.server && limit >= 2
    requires Recent(before.bucket.scores, pruner.reading) == []
    ensures After(calls + [pruner] + [back], limit).admitted == before.admitted + [pruner.reading] + [back.reading]
  {
    PrunerForgets(calls, before, pruner, limit);
    BackAdmits(calls + [pruner], After(calls + [pruner], limit), pruner.reading, back, limit);
  }

  lemma AfterPruning(start: Call, pruner: Call, back: Call, limit: nat)
    requires limit >= 2 && pruner.server < start.server + WINDOW_MS && start.reading + WINDOW_MS <= pruner.reading
    ensures After(PruningRun(start, pruner, back, limit), limit).admitted
         == Times(start.reading, limit) + [pruner.reading] + [back.reading]
  {
    AfterBurst(start, limit, limit);
    RecentOfTimes(start.reading, limit, pruner.reading);
    BothAdmitted(Burst(start, limit), After(Burst(start, limit), limit), pruner, back, limit);
  }

  lemma OneMoreAround(t: nat, n: nat, beyond: nat, end: nat)
    requires end - WINDOW_MS < t <= end < beyond
    ensures InWindow(Times(t, n) + [beyond] + [end], end) == n + 1
  {
    CountOfTimes(t, n, end);
    NextInWindow(Times(t, n), beyond, end);
    NextInWindow(Times(t, n) + [beyond], end, end);
  }

  lemma PruningRunIsForward(start: Call, pruner: Call, back: Call, limit: nat)
    requires start.server <= pruner.server <= back.server
    ensures Forward(PruningRun(start, pruner, back, limit))
    ensures forall call <- PruningRun(start, pruner, back, limit) :: call in {start, pruner, back}
  {}

  /** A process ahead of another by any amount prunes admissions that are still in the other's window. */
  lemma PruningOverfills(start: Call, pruner: Call, back: Call, limit: nat)
    requires limit >= 2 && start.server <= pruner.server < start.server + WINDOW_MS && pruner.server <= back.server
    requires start.reading <= back.reading < start.reading + WINDOW_MS <= pruner.reading
    ensures Forward(PruningRun(start, pruner, back, limit))
    ensures forall call <- PruningRun(start, pruner, back, limit) :: call in {start, pruner, back}
    ensures InWindow(After(PruningRun(start, pruner, back, limit), limit).admitted, back.reading) == limit + 1
  {
    PruningRunIsForward(start, pruner, back, limit);
    AfterPruning(start, pruner, back, limit);
    OneMoreAround(start.reading, limit, pruner.reading, back.reading);
  }

  lemma {:induction false} NothingAdmitted(calls: seq<Call>)
    ensures After(calls, 0).admitted == []
    decreases |calls|
  {
    if calls != [] {
      NothingAdmitted(calls[..|calls| - 1]);
    }
  }

  /** Losing one millisecond on the server breaks the bound. */
  lemma FallingLeadBreaks(start: Call, last: Call, limit: nat)
    requires limit >= 1 && last.server == start.server + WINDOW_MS && Lead(last) == Lead(start) - 1
    ensures LeadsBetween(ExpiryRun(start, last, limit), Lead(last), Lead(start))
    ensures !Bounded(ExpiryRun(start, last, limit), limit)
  {
    ExpiryOverfills(start, last, limit);
  }

  lemma EqualLeadsAreSafe(calls: seq<Call>, limit: nat)
    requires limit == 0 || Spread(calls, 0)
    ensures Bounded(calls, limit)
  {
    if limit == 0 {
      NothingAdmitted(calls);
    } else {
      forall i, j | 0 <= i < j < |calls|
        ensures Follows(calls[i], calls[j])
      {
        assert Lead(calls[i]) - Lead(calls[j]) <= 0;
      }
      EveryWindowIsBounded(calls, limit);
    }
  }

  /** The limit holds on every run exactly when nothing is ever admitted or every reading is as far from
      the server's clock as every other: any spread, however small, breaks it. */
  lemma SpreadIsSafeIff(spread: nat, limit: nat)
    ensures (forall calls: seq<Call> :: Spread(calls, spread) ==> Bounded(calls, limit)) <==> limit == 0 || spread == 0
  {
    if limit == 0 || spread == 0 {
      forall calls: seq<Call> | Spread(calls, spread)
        ensures Bounded(calls, limit)
      {
        EqualLeadsAreSafe(calls, limit);
      }
    } else {
      var start, last := Call(0, 0), Call(WINDOW_MS - 1, WINDOW_MS);
      FallingLeadBreaks(start, last, limit);
      assert Spread(ExpiryRun(start, last, limit), spread);
    }
  }

  /** Which side of the server's clock the readings are on does not matter, only that they can differ. */
  lemma LeadsAreSafeIff(least: int, most: int, limit: nat)
    ensures (forall calls: seq<Call> :: LeadsBetween(calls, least, most) ==> Bounded(calls, limit))
            <==> limit == 0 || most <= least
  {
    if limit == 0 || most <= least {
      forall calls: seq<Call> | LeadsBetween(calls, least, most)
        ensures Bounded(calls, limit)
      {
        EqualLeadsAreSafe(calls, limit);
      }
    } else {
      var start := if most >= 0 then Call(most, 0) else Call(0, -most);
      var last := Call(start.reading + WINDOW_MS - 1, start.server + WINDOW_MS);
      FallingLeadBreaks(start, last, limit);
      assert LeadsBetween(ExpiryRun(start, last, limit), least, most);
    }
  }

  // ---- a limit of one --------------------------------------------------------------------------------------

  /** Each admission is at least a window after the one before. */
  ghost predicate Spaced(times: seq<nat>) {
    |times| <= 1
    || (var n := |times|; Spaced(times[..n - 1]) && times[n - 2] + WINDOW_MS <= times[n - 1])
  }

  /** The bucket holds the latest admission, if there is one. */
  ghost predicate HoldsLatest(t: Trace) {
    Spaced(t.admitted) && t.bucket.scores == (if t.admitted == [] then [] else [t.admitted[|t.admitted| - 1]])
  }

  /** Once something is admitted, the call comes before the key's deadline. */
  ghost predicate KeyLives(t: Trace, call: Call) {
    t.admitted != [] ==> t.bucket.deadline > call.server
  }

  lemma RecentOfOne(t: nat, reading: int)
    ensures Recent([t], reading) == if t > reading - WINDOW_MS then [t] else []
  {
    assert [t][..0] == [];
  }

  lemma SpacedAppend(times: seq<nat>, last: nat)
    requires Spaced(times) && (times != [] ==> times[|times| - 1] + WINDOW_MS <= last)
    ensures Spaced(times + [last])
  {
    assert (times + [last])[..|times|] == times;
  }

  lemma EmptyAdmits(b: Bucket, call: Call)
    requires b.scores == []
    ensures Decide(b, call, 1) == (Bucket([call.reading], call.server + WINDOW_MS), true)
  {
    assert [] + [call.reading] == [call.reading];
  }

  lemma OneDecides(latest: nat, b: Bucket, call: Call)
    requires b.scores == [latest] && b.deadline > call.server
    ensures Decide(b, call, 1) == if latest > call.reading - WINDOW_MS then (b, false)
                                  else (Bucket([call.reading], call.server + WINDOW_MS), true)
  {
    RecentOfOne(latest, call.reading);
    assert [] + [call.reading] == [call.reading];
  }

  lemma StepHoldsLatest(t: Trace, call: Call)
    requires HoldsLatest(t) && KeyLives(t, call)
    ensures HoldsLatest(Then(t, call, 1))
  {
    if t.admitted == [] {
      EmptyAdmits(t.bucket, call);
    } else {
      OneDecides(t.admitted[|t.admitted| - 1], t.bucket, call);
    }
    if Decide(t.bucket, call, 1).1 {
      SpacedAppend(t.admitted, call.reading);
    }
  }

  ghost predicate KeyNeverExpires(calls: seq<Call>) {
    forall i :: 0 <= i < |calls| ==> KeyLives(After(calls[..i], 1), calls[i])
  }

  lemma {:induction false} LiveKeySpaces(calls: seq<Call>)
    requires KeyNeverExpires(calls)
    ensures HoldsLatest(After(calls, 1))
    decreases |calls|
  {
    if calls != [] {
      var init := calls[..|calls| - 1];
      assert forall i :: 0 <= i < |init| ==> init[..i] == calls[..i];
      LiveKeySpaces(init);
      StepHoldsLatest(After(init, 1), calls[|calls| - 1]);
    }
  }

  lemma {:induction false} SpacedWindows(times: seq<nat>, end: int)
    requires Spaced(times)
    ensures InWindow(times, end) <= 1
    ensures times != [] && times[|times| - 1] <= end - WINDOW_MS ==> InWindow(times, end) == 0
    decreases |times|
  {
    if times != [] {
      var init, last := times[..|times| - 1], times[|times| - 1];
      assert times == init + [last];
      NextInWindow(init, last, end);
      SpacedWindows(init, end);
    }
  }

  /** At a limit of one, pruning alone never overfills: as long as no call comes after the key's deadline,
      readings in any order at all are admitted at least a minute apart. */
  lemma LimitOneNeedsNoOrder(calls: seq<Call>)
    requires KeyNeverExpires(calls)
    ensures Bounded(calls, 1)
  {
    LiveKeySpaces(calls);
    forall end: int
      ensures InWindow(After(calls, 1).admitted, end) <= 1
    {
      SpacedWindows(After(calls, 1).admitted, end);
    }
  }
}
