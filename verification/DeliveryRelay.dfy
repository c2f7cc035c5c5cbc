/** One relay pass undisturbed (crates/lulan-engine/src/events/mod.rs, relay_once, with the webhook sink of
webhooks/mod.rs): which rows it takes, which it hands over, which it marks, and whom an event reaches. */
module DeliveryRelay {
  import opened Delivery

  // ---- whom an event reaches ---------------------------------------------------------------------------

  lemma QueuedAppend(jobs: seq<Job>, job: Job, endpoint: nat, event: nat)
    ensures Queued(jobs + [job], endpoint, event) <==>
            Queued(jobs, endpoint, event) || (job.endpoint == endpoint && job.event == event)
  {
    if Queued(jobs, endpoint, event) {
      var i :| 0 <= i < |jobs| && jobs[i].endpoint == endpoint && jobs[i].event == event;
      assert (jobs + [job])[i] == jobs[i];
    }
    assert (jobs + [job])[|jobs|] == job;
  }

  /** Exactly the active endpoints that ask for its kind, or for every kind, have the event queued in addition
      to those that had it already; what was queued stays as it was, and what is new is pending and due at once. */
  lemma {:induction false} FanOutIff(
    jobs: seq<Job>, endpoints: seq<Endpoint>, n: nat, event: nat, kind: nat, now: int, e: nat, other: nat)
    requires n <= |endpoints|
    ensures var after := FanOut(jobs, endpoints, n, event, kind, now);
            && jobs <= after
            && (forall i :: |jobs| <= i < |after| ==>
                  after[i].event == event && after[i].status.Pending? && after[i].attempts == 0 && after[i].nextAt == now
                  && after[i].born == now)
            && (Queued(after, e, event) <==>
                  Queued(jobs, e, event)
                  || (e < n && endpoints[e].active && (endpoints[e].kinds == {} || kind in endpoints[e].kinds)))
            && (other != event ==> (Queued(after, e, other) <==> Queued(jobs, e, other)))
    decreases n
  {
    if n > 0 {
      var before := FanOut(jobs, endpoints, n - 1, event, kind, now);
      FanOutIff(jobs, endpoints, n - 1, event, kind, now, e, other);
      if Wants(endpoints[n - 1], kind) && !Queued(before, n - 1, event) {
        QueuedAppend(before, Job(n - 1, event, Pending, 0, now, now), e, event);
        QueuedAppend(before, Job(n - 1, event, Pending, 0, now, now), e, other);
      }
    }
  }

  // ---- which rows are taken ----------------------------------------------------------------------------

  /** The row waits and no other relay has it. */
  ghost predicate Free(rows: seq<OutRow>, locked: set<nat>, id: nat) {
    id < |rows| && !rows[id].delivered && id !in locked
  }

  ghost predicate TakesFirst(rows: seq<OutRow>, locked: set<nat>, from: nat, limit: nat, batch: seq<nat>) {
    && |batch| <= limit
    && (forall k :: 0 <= k < |batch| ==> from <= batch[k] && Free(rows, locked, batch[k]))
    && (forall j, k :: 0 <= j < k < |batch| ==> batch[j] < batch[k])
    && forall id: nat :: from <= id && Free(rows, locked, id) && id !in batch ==>
         |batch| == limit && forall k :: 0 <= k < |batch| ==> batch[k] < id
  }

  lemma TakesWithHead(rows: seq<OutRow>, locked: set<nat>, from: nat, limit: nat, rest: seq<nat>)
    requires limit > 0 && Free(rows, locked, from) && TakesFirst(rows, locked, from + 1, limit - 1, rest)
    ensures TakesFirst(rows, locked, from, limit, [from] + rest)
  {
    var batch := [from] + rest;
    forall id: nat | from <= id && Free(rows, locked, id) && id !in batch
      ensures |batch| == limit && forall k :: 0 <= k < |batch| ==> batch[k] < id
    {
      assert id != from && id !in rest;
    }
  }

  lemma TakesSkipping(rows: seq<OutRow>, locked: set<nat>, from: nat, limit: nat, rest: seq<nat>)
    requires !Free(rows, locked, from) && TakesFirst(rows, locked, from + 1, limit, rest)
    ensures TakesFirst(rows, locked, from, limit, rest)
  {
    forall id: nat | from <= id && Free(rows, locked, id) && id !in rest
      ensures |rest| == limit && forall k :: 0 <= k < |rest| ==> rest[k] < id
    {
      assert id != from;
    }
  }

  /** The batch is the first `limit` free rows, in id order. */
  lemma {:induction false} PickIff(rows: seq<OutRow>, locked: set<nat>, from: nat, limit: nat)
    requires from <= |rows|
    ensures TakesFirst(rows, locked, from, limit, Pick(rows, locked, from, limit))
    decreases |rows| - from
  {
    if from < |rows| && limit > 0 {
      if Free(rows, locked, from) {
        PickIff(rows, locked, from + 1, limit - 1);
        TakesWithHead(rows, locked, from, limit, Pick(rows, locked, from + 1, limit - 1));
      } else {
        PickIff(rows, locked, from + 1, limit);
        TakesSkipping(rows, locked, from, limit, Pick(rows, locked, from + 1, limit));
      }
    }
  }

  // ---- which are handed over and marked ------------------------------------------------------------------

  /** The sink took rows `from .. n` of the batch, and failed on row `n` unless that was all. */
  ghost predicate StopsAt(answers: seq<SinkAnswer>, from: nat, size: nat, n: nat) {
    && from <= n <= size <= |answers|
    && (forall k :: from <= k < n ==> answers[k].ok)
    && (n < size ==> !answers[n].ok)
  }

  /** The rows the sink wrote for: those it took, and the one it failed on if it had written by then. */
  ghost function Handed(answers: seq<SinkAnswer>, size: nat, n: nat): nat
    requires n <= size <= |answers|
  {
    if n < size && answers[n].wrote then n + 1 else n
  }

  ghost predicate InRange(rows: seq<OutRow>, batch: seq<nat>) {
    forall k :: 0 <= k < |batch| ==> batch[k] < |rows|
  }

  /** `after` is `before` and a call for each row of `batch[from .. to]` in turn. */
  ghost predicate CalledFor(
    rows: seq<OutRow>, endpoints: seq<Endpoint>, before: seq<Call>, after: seq<Call>, batch: seq<nat>, from: nat, to: nat)
    requires from <= to <= |batch| && InRange(rows, batch)
  {
    && |after| == |before| + (to - from) && after[..|before|] == before
    && forall k :: from <= k < to ==>
         after[|before| + k - from] == Call(rows[batch[k]].event, rows[batch[k]].kind, endpoints)
  }

  lemma OneCalledFor(rows: seq<OutRow>, endpoints: seq<Endpoint>, a: seq<Call>, b: seq<Call>, c: seq<Call>,
                     batch: seq<nat>, from: nat, to: nat)
    requires from < to <= |batch| && InRange(rows, batch)
    requires CalledFor(rows, endpoints, a, b, batch, from, from + 1) && CalledFor(rows, endpoints, b, c, batch, from + 1, to)
    ensures CalledFor(rows, endpoints, a, c, batch, from, to)
  {
    assert c[..|a|] == b[..|a|];
    assert c[|a|] == b[|a|];
  }

  lemma {:induction false} OverDoesNothing(w: Outlet, r: nat, answers: seq<SinkAnswer>, now: int)
    requires r < |w.relays| && w.relays[r].Busy? && (w.relays[r].halted || w.relays[r].done >= |w.relays[r].batch|)
    ensures SinkEach(w, r, answers, now) == w
    decreases |answers|
  {
    if answers != [] {
      OverDoesNothing(w, r, answers[1..], now);
    }
  }

  lemma OneRow(w: Outlet, r: nat, batch: seq<nat>, from: nat, answer: SinkAnswer, now: int)
    requires r < |w.relays| && from < |batch| && w.relays[r] == Busy(batch, from, false) && InRange(w.rows, batch)
    ensures var t := Sink(w, r, answer.wrote, answer.ok, now);
            && t.rows == w.rows && t.endpoints == w.endpoints
            && t.relays == w.relays[r := if answer.ok then Busy(batch, from + 1, false) else Busy(batch, from, true)]
            && CalledFor(w.rows, w.endpoints, w.calls, t.calls, batch, from,
                         if answer.ok || answer.wrote then from + 1 else from)
  {}

  /** The loop from row `from` of its batch on, when it will stop at `n`. */
  lemma {:induction false} LoopDecides(
    w: Outlet, r: nat, batch: seq<nat>, from: nat, answers: seq<SinkAnswer>, n: nat, now: int)
    requires r < |w.relays| && w.relays[r] == Busy(batch, from, false) && StopsAt(answers, from, |batch|, n)
    requires InRange(w.rows, batch)
    ensures var t := SinkEach(w, r, answers[from..], now);
            && t.rows == w.rows && t.endpoints == w.endpoints
            && t.relays == w.relays[r := Busy(batch, n, n < |batch|)]
            && CalledFor(w.rows, w.endpoints, w.calls, t.calls, batch, from, Handed(answers, |batch|, n))
    decreases n - from
  {
    if from < |batch| {
      var t := Sink(w, r, answers[from].wrote, answers[from].ok, now);
      OneRow(w, r, batch, from, answers[from], now);
      assert answers[from..][0] == answers[from] && answers[from..][1..] == answers[from + 1..];
      if from < n {
        LoopDecides(t, r, batch, from + 1, answers, n, now);
        var calls := SinkEach(t, r, answers[from + 1..], now).calls;
        OneCalledFor(w.rows, w.endpoints, w.calls, t.calls, calls, batch, from, Handed(answers, |batch|, n));
      } else {
        OverDoesNothing(t, r, answers[from + 1..], now);
      }
    } else {
      OverDoesNothing(w, r, answers[from..], now);
    }
  }

  lemma BatchInRange(w: Outlet, batch: seq<nat>)
    requires batch == Pick(w.rows, Locked(w.relays), 0, 100)
    ensures InRange(w.rows, batch)
  {
    PickIff(w.rows, Locked(w.relays), 0, 100);
    forall k | 0 <= k < |batch|
      ensures batch[k] < |w.rows|
    {
      assert Free(w.rows, Locked(w.relays), batch[k]);
    }
  }

  lemma PassLoop(w: Outlet, r: nat, batch: seq<nat>, answers: seq<SinkAnswer>, n: nat, now: int)
    requires r < |w.relays| && w.relays[r].Idle? && batch == Pick(w.rows, Locked(w.relays), 0, 100)
    requires StopsAt(answers, 0, |batch|, n)
    ensures InRange(w.rows, batch)
    ensures var t := SinkEach(Begin(w, r), r, answers, now);
            && t.rows == w.rows && t.endpoints == w.endpoints
            && t.relays == w.relays[r := Busy(batch, n, n < |batch|)]
            && CalledFor(w.rows, w.endpoints, w.calls, t.calls, batch, 0, Handed(answers, |batch|, n))
  {
    BatchInRange(w, batch);
    LoopDecides(Begin(w, r), r, batch, 0, answers, n, now);
    assert answers[0..] == answers;
  }

  lemma Concluded(w: Outlet, r: nat, batch: seq<nat>, n: nat)
    requires r < |w.relays| && n <= |batch| && w.relays[r] == Busy(batch, n, n < |batch|)
    ensures var t := Commit(w, r);
            && |t.rows| == |w.rows|
            && (forall id: nat :: id < |w.rows| ==>
                  t.rows[id] == if id in batch[..n] then w.rows[id].(delivered := true) else w.rows[id])
            && t.relays == w.relays[r := Idle] && t.endpoints == w.endpoints && t.calls == w.calls && t.jobs == w.jobs
  {}

  /** An idle relay's whole pass: with `n` the first row the sink refuses, or all of them, exactly the first `n`
      rows of its batch are marked, the sink has been called for those and for row `n` if it had written before
      failing, and the relay is idle again. */
  lemma RelayOnceDecides(w: Outlet, r: nat, answers: seq<SinkAnswer>, n: nat, now: int)
    requires r < |w.relays| && w.relays[r].Idle?
    requires StopsAt(answers, 0, |Pick(w.rows, Locked(w.relays), 0, 100)|, n)
    ensures var batch := Pick(w.rows, Locked(w.relays), 0, 100);
            var t := RelayOnce(w, r, answers, now);
            && |t.rows| == |w.rows|
            && (forall id: nat :: id < |w.rows| ==>
                  t.rows[id] == if id in batch[..n] then w.rows[id].(delivered := true) else w.rows[id])
            && t.relays == w.relays && t.endpoints == w.endpoints
            && InRange(w.rows, batch)
            && CalledFor(w.rows, w.endpoints, w.calls, t.calls, batch, 0, Handed(answers, |batch|, n))
  {
    var batch := Pick(w.rows, Locked(w.relays), 0, 100);
    PassLoop(w, r, batch, answers, n, now);
    Concluded(SinkEach(Begin(w, r), r, answers, now), r, batch, n);
    assert w.relays[r := Busy(batch, n, n < |batch|)][r := Idle] == w.relays;
  }

  /** A relay keeps its batch until its loop is over: it begins no other, an idle one hands nothing over, and
      nothing commits before the last row or a refusal. */
  lemma RelayKeepsItsTurn(w: Outlet, r: nat, wrote: bool, ok: bool, now: int)
    requires r < |w.relays|
    ensures w.relays[r].Busy? ==> Next(w, StepBegin(r)) == w
    ensures w.relays[r].Idle? ==> Next(w, StepSink(r, wrote, ok, now)) == w && Next(w, StepCommit(r)) == w
    ensures w.relays[r].Busy? && !w.relays[r].halted && w.relays[r].done < |w.relays[r].batch| ==>
              Next(w, StepCommit(r)) == w
    ensures w.relays[r].Busy? && (w.relays[r].halted || w.relays[r].done >= |w.relays[r].batch|) ==>
              Next(w, StepSink(r, wrote, ok, now)) == w
  {}

  /** A backoff stops doubling at the eighth attempt. */
  lemma BackoffStopsDoubling(attempt: nat)
    requires attempt >= 8
    ensures Backoff(attempt) == 512_000
  {
    assert Shl(BASE_BACKOFF_MS, 5) == 64_000;
    assert Shl(BASE_BACKOFF_MS, 8) == 512_000;
  }

  // ---- the pass as steps of a run ------------------------------------------------------------------------

  function SinkSteps(r: nat, answers: seq<SinkAnswer>, now: int): seq<Step>
    decreases |answers|
  {
    if answers == [] then [] else [StepSink(r, answers[0].wrote, answers[0].ok, now)] + SinkSteps(r, answers[1..], now)
  }

  lemma {:induction false} RunConcat(w: Outlet, a: seq<Step>, b: seq<Step>)
    ensures Run(w, a + b) == Run(Run(w, a), b)
    decreases |a|
  {
    if a == [] {
      assert a + b == b;
    } else {
      assert (a + b)[1..] == a[1..] + b;
      RunConcat(Next(w, a[0]), a[1..], b);
    }
  }

  lemma OneStep(w: Outlet, step: Step)
    ensures Run(w, [step]) == Next(w, step)
  {
    assert [step][1..] == [];
  }

  lemma {:induction false} SinksAreSteps(w: Outlet, r: nat, answers: seq<SinkAnswer>, now: int)
    requires r < |w.relays|
    ensures Run(w, SinkSteps(r, answers, now)) == SinkEach(w, r, answers, now)
    decreases |answers|
  {
    if answers != [] {
      var first := StepSink(r, answers[0].wrote, answers[0].ok, now);
      RunConcat(w, [first], SinkSteps(r, answers[1..], now));
      OneStep(w, first);
      SinksAreSteps(Next(w, first), r, answers[1..], now);
    }
  }

  /** An undisturbed pass is the run of its own steps, so what holds of every run holds of it. */
  lemma RelayOnceIsRun(w: Outlet, r: nat, answers: seq<SinkAnswer>, now: int)
    requires r < |w.relays|
    ensures Run(w, [StepBegin(r)] + SinkSteps(r, answers, now) + [StepCommit(r)]) == RelayOnce(w, r, answers, now)
  {
    RunConcat(w, [StepBegin(r)] + SinkSteps(r, answers, now), [StepCommit(r)]);
    RunConcat(w, [StepBegin(r)], SinkSteps(r, answers, now));
    OneStep(w, StepBegin(r));
    SinksAreSteps(Begin(w, r), r, answers, now);
    OneStep(SinkEach(Begin(w, r), r, answers, now), StepCommit(r));
  }

  /** What happens around relays and workers: an event is published undelivered, an endpoint registers active,
      one is deactivated and nothing else of it changes, and a crash forgets a relay's batch but no call. */
  lemma SurroundingsDecide(w: Outlet, event: nat, kind: nat, kinds: set<nat>, e: nat, r: nat)
    ensures Next(w, StepPublish(event, kind)) == w.(rows := w.rows + [OutRow(event, kind, false)])
    ensures Next(w, StepRegister(kinds)) == w.(endpoints := w.endpoints + [Endpoint(true, kinds)])
    ensures e < |w.endpoints| ==>
              Next(w, StepDeactivate(e)) == w.(endpoints := w.endpoints[e := Endpoint(false, w.endpoints[e].kinds)])
    ensures r < |w.relays| ==> Next(w, StepAbort(r)) == w.(relays := w.relays[r := Idle])
  {}
}
