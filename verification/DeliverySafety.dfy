/** What relays, workers and crashes in any order keep. */
module DeliverySafety {
  import opened Delivery

  // ---- the queue: at most one job per endpoint and event, at most eight attempts each ------------------

  ghost predicate Distinct(jobs: seq<Job>) {
    forall i, j :: 0 <= i < j < |jobs| ==> jobs[i].endpoint != jobs[j].endpoint || jobs[i].event != jobs[j].event
  }

  /** The shortest time the first `attempts` failures can take. */
  function Waited(attempts: nat): int {
    if attempts == 0 then 0 else Waited(attempts - 1) + Backoff(attempts)
  }

  ghost predicate JobOk(job: Job) {
    match job.status
    case Pending => job.attempts < MAX_ATTEMPTS && job.nextAt >= job.born + Waited(job.attempts)
    case Delivered => 1 <= job.attempts <= MAX_ATTEMPTS
    case Failed => job.attempts == MAX_ATTEMPTS
  }

  ghost predicate JobsOk(jobs: seq<Job>) {
    Distinct(jobs) && forall i :: 0 <= i < |jobs| ==> JobOk(jobs[i])
  }

  lemma {:induction false} FanOutKeeps(jobs: seq<Job>, endpoints: seq<Endpoint>, n: nat, event: nat, kind: nat, now: int)
    requires JobsOk(jobs) && n <= |endpoints|
    ensures var after := FanOut(jobs, endpoints, n, event, kind, now);
            JobsOk(after) && jobs <= after
    decreases n
  {
    if n > 0 {
      FanOutKeeps(jobs, endpoints, n - 1, event, kind, now);
    }
  }

  lemma QueuedStays(jobs: seq<Job>, more: seq<Job>, endpoint: nat, event: nat)
    requires jobs <= more && Queued(jobs, endpoint, event)
    ensures Queued(more, endpoint, event)
  {
    var i :| 0 <= i < |jobs| && jobs[i].endpoint == endpoint && jobs[i].event == event;
    assert more[i] == jobs[i];
  }

  lemma {:induction false} FanOutQueues(
    jobs: seq<Job>, endpoints: seq<Endpoint>, n: nat, event: nat, kind: nat, now: int, e: nat)
    requires n <= |endpoints| && e < n && Wants(endpoints[e], kind)
    ensures Queued(FanOut(jobs, endpoints, n, event, kind, now), e, event)
    decreases n
  {
    var before := FanOut(jobs, endpoints, n - 1, event, kind, now);
    var after := FanOut(jobs, endpoints, n, event, kind, now);
    if e < n - 1 {
      FanOutQueues(jobs, endpoints, n - 1, event, kind, now, e);
      QueuedStays(before, after, e, event);
    } else if !Queued(before, e, event) {
      assert after[|before|] == Job(e, event, Pending, 0, now, now);
    }
  }

  /** Only the endpoint's identity, the event and the birth of a job never change, and a settled job
      changes no more. */
  ghost predicate JobEvolves(a: Job, b: Job) {
    && a.endpoint == b.endpoint && a.event == b.event && a.born == b.born
    && a.attempts <= b.attempts
    && (!a.status.Pending? ==> a == b)
  }

  ghost predicate JobsEvolve(a: seq<Job>, b: seq<Job>) {
    |a| <= |b| && forall i :: 0 <= i < |a| ==> JobEvolves(a[i], b[i])
  }

  lemma RecordedOk(job: Job, success: bool, now: int)
    requires JobOk(job) && job.status.Pending? && job.nextAt <= now
    ensures JobOk(Recorded(job, success, now)) && JobEvolves(job, Recorded(job, success, now))
    ensures Recorded(job, success, now).attempts == job.attempts + 1
  {}

  lemma {:induction false} PostAllKeeps(jobs: seq<Job>, ids: seq<nat>, successes: seq<bool>, now: int)
    requires JobsOk(jobs) && |successes| == |ids|
    requires forall i :: 0 <= i < |ids| ==> ids[i] < |jobs| && jobs[ids[i]].status.Pending? && jobs[ids[i]].nextAt <= now
    requires forall i, j :: 0 <= i < j < |ids| ==> ids[i] != ids[j]
    ensures var after := PostAll(jobs, ids, successes, now);
            && JobsOk(after) && |after| == |jobs| && JobsEvolve(jobs, after)
            && forall k :: 0 <= k < |jobs| ==> after[k].attempts == jobs[k].attempts + (if k in ids then 1 else 0)
    decreases |ids|
  {
    if ids != [] {
      var updated := jobs[ids[0] := Recorded(jobs[ids[0]], successes[0], now)];
      RecordedOk(jobs[ids[0]], successes[0], now);
      assert ids[0] !in ids[1..];
      PostAllKeeps(updated, ids[1..], successes[1..], now);
      assert forall k: int :: k in ids <==> k == ids[0] || k in ids[1..];
    }
  }

  /** A worker's pass records one attempt on each of its rows and touches no other. */
  lemma DeliverKeeps(w: Outlet, ids: seq<nat>, successes: seq<bool>, now: int)
    requires JobsOk(w.jobs)
    ensures var t := DeliverDue(w, ids, successes, now);
            && JobsOk(t.jobs) && |t.jobs| == |w.jobs| && JobsEvolve(w.jobs, t.jobs)
            && forall k :: 0 <= k < |w.jobs| ==>
                 t.jobs[k].attempts == w.jobs[k].attempts
                   + (if DueBatch(w, ids, now) && |successes| == |ids| && k in ids then 1 else 0)
  {
    if DueBatch(w, ids, now) && |successes| == |ids| {
      PostAllKeeps(w.jobs, ids, successes, now);
    }
  }

  lemma StepKeepsJobs(w: Outlet, step: Step)
    requires JobsOk(w.jobs)
    ensures JobsOk(Next(w, step).jobs) && JobsEvolve(w.jobs, Next(w, step).jobs)
  {
    match step
    case StepSink(r, wrote, ok, now) =>
      if r < |w.relays| && More(w, r) {
        var row := w.rows[w.relays[r].batch[w.relays[r].done]];
        FanOutKeeps(w.jobs, w.endpoints, |w.endpoints|, row.event, row.kind, now);
      }
    case StepDeliver(ids, successes, now) => DeliverKeeps(w, ids, successes, now);
    case _ =>
  }

  lemma {:induction false} RunKeepsJobs(w: Outlet, steps: seq<Step>)
    requires JobsOk(w.jobs)
    ensures JobsOk(Run(w, steps).jobs) && JobsEvolve(w.jobs, Run(w, steps).jobs)
    decreases |steps|
  {
    if steps != [] {
      var next := Next(w, steps[0]);
      StepKeepsJobs(w, steps[0]);
      RunKeepsJobs(next, steps[1..]);
      var last := Run(w, steps).jobs;
      forall i | 0 <= i < |w.jobs|
        ensures JobEvolves(w.jobs[i], last[i])
      {
        assert JobEvolves(w.jobs[i], next.jobs[i]) && JobEvolves(next.jobs[i], last[i]);
      }
    }
  }

  /** Relays may repeat any event any number of times: an endpoint gets at most one job for it. */
  lemma AtMostOneJob(relays: nat, steps: seq<Step>, i: nat, j: nat)
    requires i < j < |Run(Fresh(relays), steps).jobs|
    ensures var jobs := Run(Fresh(relays), steps).jobs;
            jobs[i].endpoint != jobs[j].endpoint || jobs[i].event != jobs[j].event
  {
    RunKeepsJobs(Fresh(relays), steps);
  }

  /** How many committed passes of the run posted job `id`. */
  function Posts(w: Outlet, steps: seq<Step>, id: nat): nat
    decreases |steps|
  {
    if steps == [] then 0
    else
      var step := steps[0];
      (if step.StepDeliver? && DueBatch(w, step.ids, step.now) && |step.successes| == |step.ids| && id in step.ids
       then 1 else 0)
      + Posts(Next(w, step), steps[1..], id)
  }

  lemma StepPosts(w: Outlet, step: Step, id: nat)
    requires JobsOk(w.jobs) && id < |w.jobs|
    ensures id < |Next(w, step).jobs|
    ensures Next(w, step).jobs[id].attempts == w.jobs[id].attempts + Posts(w, [step], id)
  {
    assert [step][1..] == [];
    match step
    case StepSink(r, wrote, ok, now) =>
      if r < |w.relays| && More(w, r) {
        var row := w.rows[w.relays[r].batch[w.relays[r].done]];
        FanOutKeeps(w.jobs, w.endpoints, |w.endpoints|, row.event, row.kind, now);
      }
    case StepDeliver(ids, successes, now) => DeliverKeeps(w, ids, successes, now);
    case _ =>
  }

  lemma {:induction false} AttemptsArePosts(w: Outlet, steps: seq<Step>, id: nat)
    requires JobsOk(w.jobs) && id < |w.jobs|
    ensures id < |Run(w, steps).jobs|
    ensures Run(w, steps).jobs[id].attempts == w.jobs[id].attempts + Posts(w, steps, id)
    decreases |steps|
  {
    if steps != [] {
      var next := Next(w, steps[0]);
      StepKeepsJobs(w, steps[0]);
      StepPosts(w, steps[0], id);
      assert [steps[0]][1..] == [];
      AttemptsArePosts(next, steps[1..], id);
    }
  }

  /** A job is posted at most eight times in all, has settled by the eighth, and its waits at least
      double: while pending it is not tried again before its backoffs have passed. */
  lemma EightAttemptsAtMost(relays: nat, before: seq<Step>, after: seq<Step>, id: nat)
    requires id < |Run(Fresh(relays), before).jobs|
    ensures id < |Run(Run(Fresh(relays), before), after).jobs|
    ensures var w := Run(Fresh(relays), before);
            var job := Run(w, after).jobs[id];
            && w.jobs[id].attempts + Posts(w, after, id) == job.attempts <= MAX_ATTEMPTS
            && (job.attempts == MAX_ATTEMPTS ==> !job.status.Pending?)
            && (job.status.Failed? ==> job.attempts == MAX_ATTEMPTS)
            && (job.status.Pending? ==> job.nextAt >= job.born + Waited(job.attempts))
  {
    RunKeepsJobs(Fresh(relays), before);
    var w := Run(Fresh(relays), before);
    RunKeepsJobs(w, after);
    AttemptsArePosts(w, after, id);
    assert JobOk(Run(w, after).jobs[id]);
  }

  /** The waits add up to a closed form: 4 s, then 12 s, 28 s, … */
  lemma {:induction false} WaitedIs(attempts: nat)
    requires attempts < MAX_ATTEMPTS
    ensures Waited(attempts) == Shl(BASE_BACKOFF_MS, attempts + 1) - 2 * BASE_BACKOFF_MS
    decreases attempts
  {
    if attempts > 0 {
      WaitedIs(attempts - 1);
    }
  }

  // ---- the outbox: nothing is marked that the sink has not fanned out ------------------------------------

  /** Some sink call for this event queued it for every endpoint that was active and matching then. */
  ghost predicate Fanned(w: Outlet, event: nat, kind: nat) {
    exists k :: 0 <= k < |w.calls| && FannedBy(w, w.calls[k], event, kind)
  }

  ghost predicate FannedBy(w: Outlet, call: Call, event: nat, kind: nat) {
    && call.event == event && call.kind == kind
    && forall e: nat :: e < |call.endpoints| && Wants(call.endpoints[e], kind) ==> Queued(w.jobs, e, event)
  }

  /** A relay's first `done` rows have been through the sink. */
  ghost predicate RelayOk(w: Outlet, relay: Relay) {
    relay.Busy? ==>
      && relay.done <= |relay.batch|
      && (forall j :: 0 <= j < |relay.batch| ==> relay.batch[j] < |w.rows|)
      && forall j :: 0 <= j < relay.done ==> RowFanned(w, relay.batch[j])
  }

  ghost predicate RowFanned(w: Outlet, id: nat) {
    id < |w.rows| && Fanned(w, w.rows[id].event, w.rows[id].kind)
  }

  ghost predicate OutboxOk(w: Outlet) {
    && JobsOk(w.jobs)
    && (forall id :: 0 <= id < |w.rows| && w.rows[id].delivered ==> RowFanned(w, id))
    && forall r :: 0 <= r < |w.relays| ==> RelayOk(w, w.relays[r])
  }

  /** Rows keep their event, jobs and calls only grow. */
  ghost predicate Grows(w: Outlet, t: Outlet) {
    && JobsEvolve(w.jobs, t.jobs)
    && w.calls <= t.calls
    && |w.rows| <= |t.rows|
    && forall id :: 0 <= id < |w.rows| ==> t.rows[id].event == w.rows[id].event && t.rows[id].kind == w.rows[id].kind
  }

  lemma EvolvedStaysQueued(jobs: seq<Job>, more: seq<Job>, endpoint: nat, event: nat)
    requires JobsEvolve(jobs, more) && Queued(jobs, endpoint, event)
    ensures Queued(more, endpoint, event)
  {
    var i :| 0 <= i < |jobs| && jobs[i].endpoint == endpoint && jobs[i].event == event;
    assert JobEvolves(jobs[i], more[i]);
  }

  lemma StaysFanned(w: Outlet, t: Outlet, id: nat)
    requires Grows(w, t) && RowFanned(w, id)
    ensures RowFanned(t, id)
  {
    var event, kind := w.rows[id].event, w.rows[id].kind;
    var k :| 0 <= k < |w.calls| && FannedBy(w, w.calls[k], event, kind);
    var call := w.calls[k];
    assert t.calls[k] == call;
    forall e: nat | e < |call.endpoints| && Wants(call.endpoints[e], kind)
      ensures Queued(t.jobs, e, event)
    {
      EvolvedStaysQueued(w.jobs, t.jobs, e, event);
    }
    assert FannedBy(t, t.calls[k], event, kind);
  }

  lemma StepGrows(w: Outlet, step: Step)
    requires JobsOk(w.jobs)
    ensures Grows(w, Next(w, step))
  {
    StepKeepsJobs(w, step);
  }

  lemma StaysRelayOk(w: Outlet, t: Outlet, relay: Relay)
    requires Grows(w, t) && RelayOk(w, relay)
    ensures RelayOk(t, relay)
  {
    if relay.Busy? {
      forall j | 0 <= j < relay.done
        ensures RowFanned(t, relay.batch[j])
      {
        StaysFanned(w, t, relay.batch[j]);
      }
    }
  }

  /** After a sink call that wrote, the row is fanned out by that very call. */
  lemma WroteFans(w: Outlet, id: nat, now: int)
    requires id < |w.rows|
    ensures RowFanned(Wrote(w, w.rows[id], now), id)
  {
    var row := w.rows[id];
    var t := Wrote(w, row, now);
    var call := t.calls[|w.calls|];
    forall e: nat | e < |call.endpoints| && Wants(call.endpoints[e], row.kind)
      ensures Queued(t.jobs, e, row.event)
    {
      FanOutQueues(w.jobs, w.endpoints, |w.endpoints|, row.event, row.kind, now, e);
    }
    assert FannedBy(t, call, row.event, row.kind);
  }

  lemma SameFans(w: Outlet, t: Outlet, id: nat)
    requires RowFanned(w, id) && t.jobs == w.jobs && t.calls == w.calls && t.rows == w.rows
    ensures RowFanned(t, id)
  {
    var k :| 0 <= k < |w.calls| && FannedBy(w, w.calls[k], w.rows[id].event, w.rows[id].kind);
    assert FannedBy(t, t.calls[k], t.rows[id].event, t.rows[id].kind);
  }

  lemma SinkRelayOk(w: Outlet, r: nat, wrote: bool, ok: bool, now: int)
    requires OutboxOk(w) && r < |w.relays| && More(w, r)
    requires Grows(w, Sink(w, r, wrote, ok, now))
    ensures RelayOk(Sink(w, r, wrote, ok, now), Sink(w, r, wrote, ok, now).relays[r])
  {
    var relay := w.relays[r];
    var t := Sink(w, r, wrote, ok, now);
    assert RelayOk(w, relay);
    StaysRelayOk(w, t, relay);
    if ok {
      var id := relay.batch[relay.done];
      WroteFans(w, id, now);
      SameFans(Wrote(w, w.rows[id], now), t, id);
    }
  }

  lemma {:induction false} PickedInRange(rows: seq<OutRow>, locked: set<nat>, id: nat, limit: nat)
    requires id <= |rows|
    ensures var picked := Pick(rows, locked, id, limit);
            && |picked| <= limit
            && (forall i :: 0 <= i < |picked| ==> id <= picked[i] < |rows| && picked[i] !in locked && !rows[picked[i]].delivered)
            && forall i, j :: 0 <= i < j < |picked| ==> picked[i] < picked[j]
    decreases |rows| - id
  {
    if id < |rows| && limit > 0 {
      if rows[id].delivered || id in locked {
        PickedInRange(rows, locked, id + 1, limit);
      } else {
        PickedInRange(rows, locked, id + 1, limit - 1);
      }
    }
  }

  lemma StepRelaysOk(w: Outlet, step: Step, r: nat)
    requires OutboxOk(w) && Grows(w, Next(w, step)) && r < |w.relays|
    ensures |Next(w, step).relays| == |w.relays| && RelayOk(Next(w, step), Next(w, step).relays[r])
  {
    var t := Next(w, step);
    assert RelayOk(w, w.relays[r]);
    if t.relays[r] == w.relays[r] {
      StaysRelayOk(w, t, w.relays[r]);
    } else {
      match step
      case StepBegin(q) => PickedInRange(w.rows, Locked(w.relays), 0, RELAY_LIMIT);
      case StepSink(q, wrote, ok, now) => SinkRelayOk(w, r, wrote, ok, now);
      case _ =>
    }
  }

  lemma CommitMarksFanned(w: Outlet, r: nat, id: nat)
    requires OutboxOk(w) && r < |w.relays| && id < |w.rows| && Commit(w, r).rows[id].delivered
    ensures RowFanned(w, id)
  {
    var relay := w.relays[r];
    assert RelayOk(w, relay);
    if Over(relay) && id in relay.batch[..relay.done] {
      var j :| 0 <= j < relay.done && relay.batch[j] == id;
      assert RowFanned(w, relay.batch[j]);
    }
  }

  lemma StepKeepsOutbox(w: Outlet, step: Step)
    requires OutboxOk(w)
    ensures OutboxOk(Next(w, step))
  {
    var t := Next(w, step);
    StepGrows(w, step);
    StepKeepsJobs(w, step);
    forall id | 0 <= id < |t.rows| && t.rows[id].delivered
      ensures RowFanned(t, id)
    {
      if step.StepCommit? && step.relay < |w.relays| {
        CommitMarksFanned(w, step.relay, id);
      }
      StaysFanned(w, t, id);
    }
    forall r | 0 <= r < |t.relays|
      ensures RelayOk(t, t.relays[r])
    {
      StepRelaysOk(w, step, r);
    }
  }

  lemma {:induction false} RunKeepsOutbox(w: Outlet, steps: seq<Step>)
    requires OutboxOk(w)
    ensures OutboxOk(Run(w, steps))
    decreases |steps|
  {
    if steps != [] {
      StepKeepsOutbox(w, steps[0]);
      RunKeepsOutbox(Next(w, steps[0]), steps[1..]);
    }
  }

  /** No event is lost: a row marked delivered was handed to a sink call that queued it for every
      endpoint active and matching at that call, and those jobs are still there. */
  lemma DeliveredIsFanned(relays: nat, steps: seq<Step>, id: nat)
    requires id < |Run(Fresh(relays), steps).rows| && Run(Fresh(relays), steps).rows[id].delivered
    ensures var w := Run(Fresh(relays), steps);
            Fanned(w, w.rows[id].event, w.rows[id].kind)
  {
    RunKeepsOutbox(Fresh(relays), steps);
    assert RowFanned(Run(Fresh(relays), steps), id);
  }

  // ---- a subscriber misses nothing --------------------------------------------------------------------------

  ghost predicate Published(rows: seq<OutRow>, event: nat) {
    exists j :: 0 <= j < |rows| && rows[j].event == event
  }

  /** The sink is only ever called for published events. */
  ghost predicate CallsPublished(w: Outlet) {
    forall k :: 0 <= k < |w.calls| ==> Published(w.rows, w.calls[k].event)
  }

  lemma StaysPublished(w: Outlet, t: Outlet, event: nat)
    requires Grows(w, t) && Published(w.rows, event)
    ensures Published(t.rows, event)
  {
    var j :| 0 <= j < |w.rows| && w.rows[j].event == event;
    assert t.rows[j].event == event;
  }

  lemma StepCallsPublished(w: Outlet, step: Step)
    requires JobsOk(w.jobs) && CallsPublished(w)
    ensures CallsPublished(Next(w, step))
  {
    var t := Next(w, step);
    StepGrows(w, step);
    forall k | 0 <= k < |t.calls|
      ensures Published(t.rows, t.calls[k].event)
    {
      if k < |w.calls| {
        assert t.calls[k] == w.calls[k];
        StaysPublished(w, t, w.calls[k].event);
      }
    }
  }

  lemma {:induction false} RunCallsPublished(w: Outlet, steps: seq<Step>)
    requires JobsOk(w.jobs) && CallsPublished(w)
    ensures CallsPublished(Run(w, steps))
    decreases |steps|
  {
    if steps != [] {
      StepKeepsJobs(w, steps[0]);
      StepCallsPublished(w, steps[0]);
      RunCallsPublished(Next(w, steps[0]), steps[1..]);
    }
  }

  /** Endpoint `e` is unchanged, and every call past the first `n` saw it so. */
  ghost predicate Subscribed(w: Outlet, e: nat, endpoint: Endpoint, n: nat) {
    && e < |w.endpoints| && w.endpoints[e] == endpoint && n <= |w.calls|
    && forall k :: n <= k < |w.calls| ==> e < |w.calls[k].endpoints| && w.calls[k].endpoints[e] == endpoint
  }

  lemma {:induction false} RunSubscribed(w: Outlet, steps: seq<Step>, e: nat, endpoint: Endpoint, n: nat)
    requires Subscribed(w, e, endpoint, n) && StepDeactivate(e) !in steps
    ensures Subscribed(Run(w, steps), e, endpoint, n)
    decreases |steps|
  {
    if steps != [] {
      assert steps[0] in steps;
      StepSubscribed(w, steps[0], e, endpoint, n);
      RunSubscribed(Next(w, steps[0]), steps[1..], e, endpoint, n);
    }
  }

  lemma StepSubscribed(w: Outlet, step: Step, e: nat, endpoint: Endpoint, n: nat)
    requires Subscribed(w, e, endpoint, n) && step != StepDeactivate(e)
    ensures Subscribed(Next(w, step), e, endpoint, n)
  {}

  lemma {:induction false} RunKeepsCalls(w: Outlet, steps: seq<Step>)
    ensures w.calls <= Run(w, steps).calls
    decreases |steps|
  {
    if steps != [] {
      RunKeepsCalls(Next(w, steps[0]), steps[1..]);
    }
  }

  /** While an endpoint stays active, every event published and delivered meanwhile that it asked for
      ends up in its queue, whatever crashes and retries it took. */
  lemma SubscriberMissesNothing(relays: nat, before: seq<Step>, after: seq<Step>, e: nat, id: nat)
    requires var w := Run(Fresh(relays), before);
             var t := Run(w, after);
             && e < |w.endpoints| && w.endpoints[e].active && StepDeactivate(e) !in after
             && id < |t.rows| && t.rows[id].delivered
             && !Published(w.rows, t.rows[id].event)
             && Wants(w.endpoints[e], t.rows[id].kind)
    ensures var t := Run(Run(Fresh(relays), before), after);
            Queued(t.jobs, e, t.rows[id].event)
  {
    var w := Run(Fresh(relays), before);
    var t := Run(w, after);
    RunKeepsOutbox(Fresh(relays), before);
    RunCallsPublished(Fresh(relays), before);
    RunKeepsOutbox(w, after);
    RunKeepsCalls(w, after);
    RunSubscribed(w, after, e, w.endpoints[e], |w.calls|);
    assert RowFanned(t, id);
    var k :| 0 <= k < |t.calls| && FannedBy(t, t.calls[k], t.rows[id].event, t.rows[id].kind);
  }

  // ---- order and locks ------------------------------------------------------------------------------------

  ghost predicate DeliveredUpTo(rows: seq<OutRow>, p: nat) {
    p <= |rows| && forall i :: 0 <= i < |rows| ==> (rows[i].delivered <==> i < p)
  }

  ghost predicate Consecutive(batch: seq<nat>, p: nat, n: nat) {
    p + |batch| <= n && forall j :: 0 <= j < |batch| ==> batch[j] == p + j
  }

  ghost predicate InOrderAt(w: Outlet, p: nat) {
    && |w.relays| == 1
    && DeliveredUpTo(w.rows, p)
    && (w.relays[0].Busy? ==> Consecutive(w.relays[0].batch, p, |w.rows|) && w.relays[0].done <= |w.relays[0].batch|)
  }

  ghost predicate InOrder(w: Outlet) {
    exists p: nat :: InOrderAt(w, p)
  }

  lemma {:induction false} PickIsConsecutive(rows: seq<OutRow>, p: nat, id: nat, limit: nat)
    requires DeliveredUpTo(rows, p) && id <= |rows|
    ensures Consecutive(Pick(rows, {}, id, limit), if id < p then p else id, |rows|)
    decreases |rows| - id
  {
    if id < |rows| && limit > 0 {
      PickIsConsecutive(rows, p, id + 1, if id < p then limit else limit - 1);
    }
  }

  lemma CommitInOrder(w: Outlet, p: nat)
    requires InOrderAt(w, p)
    ensures InOrder(Commit(w, 0))
  {
    var relay := w.relays[0];
    if Over(relay) {
      var marked := relay.batch[..relay.done];
      forall i: nat | i < |w.rows|
        ensures i in marked <==> p <= i < p + relay.done
      {
        if p <= i < p + relay.done {
          assert marked[i - p] == i;
        }
      }
      assert InOrderAt(Commit(w, 0), p + relay.done);
    } else {
      assert InOrderAt(Commit(w, 0), p);
    }
  }

  lemma StepInOrder(w: Outlet, step: Step)
    requires InOrder(w)
    ensures InOrder(Next(w, step))
  {
    var p: nat :| InOrderAt(w, p);
    var t := Next(w, step);
    match step
    case StepBegin(r) =>
      if r < |w.relays| && w.relays[r].Idle? {
        assert w.relays[..0] == [];
        assert Locked(w.relays) == {};
        PickIsConsecutive(w.rows, p, 0, RELAY_LIMIT);
      }
      assert InOrderAt(t, p);
    case StepCommit(r) => if r < |w.relays| { CommitInOrder(w, p); } else { assert InOrderAt(t, p); }
    case _ => assert InOrderAt(t, p);
  }

  lemma {:induction false} RunInOrder(w: Outlet, steps: seq<Step>)
    requires InOrder(w)
    ensures InOrder(Run(w, steps))
    decreases |steps|
  {
    if steps != [] {
      StepInOrder(w, steps[0]);
      RunInOrder(Next(w, steps[0]), steps[1..]);
    }
  }

  /** A single relay delivers in outbox order: no row is marked before an earlier one, whatever the
      failures and crashes. */
  lemma SingleRelayInOrder(steps: seq<Step>, i: nat, j: nat)
    requires i < j < |Run(Fresh(1), steps).rows| && Run(Fresh(1), steps).rows[j].delivered
    ensures Run(Fresh(1), steps).rows[i].delivered
  {
    assert InOrderAt(Fresh(1), 0);
    RunInOrder(Fresh(1), steps);
  }

  ghost predicate Apart(a: Relay, b: Relay) {
    a.Busy? && b.Busy? ==> forall id <- a.batch :: id !in b.batch
  }

  ghost predicate LocksApart(relays: seq<Relay>) {
    forall q, r :: 0 <= q < |relays| && 0 <= r < |relays| && q != r ==> Apart(relays[q], relays[r])
  }

  lemma {:induction false} LockedHas(relays: seq<Relay>, r: nat, id: nat)
    requires r < |relays| && relays[r].Busy? && id in relays[r].batch
    ensures id in Locked(relays)
    decreases |relays|
  {
    if r < |relays| - 1 {
      LockedHas(relays[..|relays| - 1], r, id);
    }
  }

  lemma BeginApart(w: Outlet, r: nat)
    requires LocksApart(w.relays) && r < |w.relays|
    ensures LocksApart(Begin(w, r).relays)
  {
    if w.relays[r].Idle? {
      var t := Begin(w, r);
      var batch := t.relays[r].batch;
      PickedInRange(w.rows, Locked(w.relays), 0, RELAY_LIMIT);
      forall q | 0 <= q < |w.relays| && q != r && w.relays[q].Busy?
        ensures Apart(w.relays[q], t.relays[r]) && Apart(t.relays[r], w.relays[q])
      {
        forall id | id in w.relays[q].batch
          ensures id !in batch
        {
          LockedHas(w.relays, q, id);
        }
      }
    }
  }

  lemma StepApart(w: Outlet, step: Step)
    requires LocksApart(w.relays)
    ensures LocksApart(Next(w, step).relays)
  {
    match step
    case StepBegin(r) => if r < |w.relays| { BeginApart(w, r); }
    case StepSink(r, _, _, _) =>
      if r < |w.relays| {
        assert Next(w, step).relays[r].Busy? ==> w.relays[r].Busy? && Next(w, step).relays[r].batch == w.relays[r].batch;
      }
    case _ =>
  }

  lemma {:induction false} RunApart(w: Outlet, steps: seq<Step>)
    requires LocksApart(w.relays)
    ensures LocksApart(Run(w, steps).relays)
    decreases |steps|
  {
    if steps != [] {
      StepApart(w, steps[0]);
      RunApart(Next(w, steps[0]), steps[1..]);
    }
  }

  /** Relays side by side never work on the same row. */
  lemma RelaysNeverShareARow(relays: nat, steps: seq<Step>, q: nat, r: nat)
    requires q < |Run(Fresh(relays), steps).relays| && r < |Run(Fresh(relays), steps).relays| && q != r
    ensures Apart(Run(Fresh(relays), steps).relays[q], Run(Fresh(relays), steps).relays[r])
  {
    RunApart(Fresh(relays), steps);
  }
}
