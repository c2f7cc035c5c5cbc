/** The outbox relay and the webhook queue (crates/lulan-engine/src/events/mod.rs, relay_once;
crates/lulan-engine/src/webhooks/mod.rs).

A relay reads a batch under row locks, hands each row to the sink and marks it only when its
transaction commits, while the sink writes in a transaction of its own. So a crash may come after
any sink call, and what the sink wrote stays. */
module Delivery {

  const RELAY_LIMIT := 100
  const DELIVERY_LIMIT := 20
  const MAX_ATTEMPTS := 8
  const BASE_BACKOFF_MS := 2_000

  /** An outbox row, at the index of its id, with the event it points at. */
  datatype OutRow = OutRow(event: nat, kind: nat, delivered: bool)

  /** Deactivation is the only change an endpoint sees. No kinds at all means every kind. */
  datatype Endpoint = Endpoint(active: bool, kinds: set<nat>)

  datatype Status = Pending | Delivered | Failed

  /** One queue row; `born` is when it was inserted. */
  datatype Job = Job(endpoint: nat, event: nat, status: Status, attempts: nat, nextAt: int, born: int)

  /** One relay's open transaction: its locked rows and how many the sink took. */
  datatype Relay = Idle | Busy(batch: seq<nat>, done: nat, halted: bool)

  /** A sink call that wrote, with the endpoints as its statement saw them. */
  datatype Call = Call(event: nat, kind: nat, endpoints: seq<Endpoint>)

  datatype Outlet = Outlet(
    rows: seq<OutRow>,
    endpoints: seq<Endpoint>,
    jobs: seq<Job>,
    relays: seq<Relay>,
    calls: seq<Call>)

  // ---- the sink --------------------------------------------------------------------------------------

  predicate Wants(endpoint: Endpoint, kind: nat) {
    endpoint.active && (endpoint.kinds == {} || kind in endpoint.kinds)
  }

  predicate Queued(jobs: seq<Job>, endpoint: nat, event: nat) {
    exists i :: 0 <= i < |jobs| && jobs[i].endpoint == endpoint && jobs[i].event == event
  }

  /** `WebhookSink::deliver` over the first `n` endpoints: ON CONFLICT DO NOTHING. */
  function FanOut(jobs: seq<Job>, endpoints: seq<Endpoint>, n: nat, event: nat, kind: nat, now: int): seq<Job>
    requires n <= |endpoints|
    decreases n
  {
    if n == 0 then jobs
    else
      var before := FanOut(jobs, endpoints, n - 1, event, kind, now);
      if Wants(endpoints[n - 1], kind) && !Queued(before, n - 1, event)
      then before + [Job(n - 1, event, Pending, 0, now, now)]
      else before
  }

  // ---- the relay ---------------------------------------------------------------------------------------

  function LockedBy(relay: Relay): set<nat> {
    if relay.Busy? then set id | id in relay.batch else {}
  }

  function Locked(relays: seq<Relay>): set<nat> {
    if relays == [] then {} else Locked(relays[..|relays| - 1]) + LockedBy(relays[|relays| - 1])
  }

  /** Undelivered rows from `id` on, in id order, skipping locked ones. */
  function Pick(rows: seq<OutRow>, locked: set<nat>, id: nat, limit: nat): seq<nat>
    requires id <= |rows|
    decreases |rows| - id
  {
    if id == |rows| || limit == 0 then []
    else if rows[id].delivered || id in locked then Pick(rows, locked, id + 1, limit)
    else [id] + Pick(rows, locked, id + 1, limit - 1)
  }

  function SetRelay(w: Outlet, r: nat, relay: Relay): Outlet
    requires r < |w.relays|
  {
    w.(relays := w.relays[r := relay])
  }

  function Begin(w: Outlet, r: nat): Outlet
    requires r < |w.relays|
  {
    if w.relays[r].Busy? then w
    else SetRelay(w, r, Busy(Pick(w.rows, Locked(w.relays), 0, RELAY_LIMIT), 0, false))
  }

  function Wrote(w: Outlet, row: OutRow, now: int): Outlet {
    w.(jobs := FanOut(w.jobs, w.endpoints, |w.endpoints|, row.event, row.kind, now),
       calls := w.calls + [Call(row.event, row.kind, w.endpoints)])
  }

  predicate More(w: Outlet, r: nat)
    requires r < |w.relays|
  {
    var relay := w.relays[r];
    relay.Busy? && !relay.halted && relay.done < |relay.batch| && relay.batch[relay.done] < |w.rows|
  }

  /** One sink call of the loop. An error stops the batch, even when the insert had gone through. */
  function Sink(w: Outlet, r: nat, wrote: bool, ok: bool, now: int): Outlet
    requires r < |w.relays|
  {
    if !More(w, r) then w
    else
      var relay := w.relays[r];
      var next := if wrote || ok then Wrote(w, w.rows[relay.batch[relay.done]], now) else w;
      SetRelay(next, r, if ok then relay.(done := relay.done + 1) else relay.(halted := true))
  }

  function Mark(rows: seq<OutRow>, ids: seq<nat>): (marked: seq<OutRow>)
    ensures |marked| == |rows|
    ensures forall i :: 0 <= i < |rows| ==>
              marked[i] == if i in ids then rows[i].(delivered := true) else rows[i]
  {
    seq(|rows|, i requires 0 <= i < |rows| => if i in ids then rows[i].(delivered := true) else rows[i])
  }

  /** The loop has ended, by the last row or by an error. */
  predicate Over(relay: Relay) {
    relay.Busy? && relay.done <= |relay.batch| && (relay.halted || relay.done == |relay.batch|)
  }

  function Commit(w: Outlet, r: nat): Outlet
    requires r < |w.relays|
  {
    var relay := w.relays[r];
    if !Over(relay) then w
    else SetRelay(w.(rows := Mark(w.rows, relay.batch[..relay.done])), r, Idle)
  }

  /** A crash rolls the marks back; what the sink wrote stays. */
  function Abort(w: Outlet, r: nat): Outlet
    requires r < |w.relays|
  {
    SetRelay(w, r, Idle)
  }

  datatype SinkAnswer = SinkAnswer(wrote: bool, ok: bool)

  function SinkEach(w: Outlet, r: nat, answers: seq<SinkAnswer>, now: int): (next: Outlet)
    requires r < |w.relays|
    ensures |next.relays| == |w.relays|
    decreases |answers|
  {
    if answers == [] then w
    else SinkEach(Sink(w, r, answers[0].wrote, answers[0].ok, now), r, answers[1..], now)
  }

  /** `relay_once` with nothing in between: begin, the sink's answers in turn, commit. */
  function RelayOnce(w: Outlet, r: nat, answers: seq<SinkAnswer>, now: int): Outlet
    requires r < |w.relays|
  {
    Commit(SinkEach(Begin(w, r), r, answers, now), r)
  }

  // ---- the delivery worker -----------------------------------------------------------------------------

  function Shl(base: int, n: nat): int {
    if n == 0 then base else 2 * Shl(base, n - 1)
  }

  function Backoff(attempt: nat): int {
    Shl(BASE_BACKOFF_MS, if attempt < 8 then attempt else 8)
  }

  /** What one POST does to its row. */
  function Recorded(job: Job, success: bool, now: int): Job {
    var attempt := job.attempts + 1;
    if success then job.(status := Delivered, attempts := attempt)
    else if attempt >= MAX_ATTEMPTS then job.(status := Failed, attempts := attempt)
    else job.(attempts := attempt, nextAt := now + Backoff(attempt))
  }

  predicate Due(w: Outlet, id: nat, now: int)
    requires id < |w.jobs|
  {
    var job := w.jobs[id];
    job.status.Pending? && job.nextAt <= now && job.endpoint < |w.endpoints| && w.endpoints[job.endpoint].active
  }

  /** A batch the worker may have locked: distinct due rows, at most the limit. */
  predicate DueBatch(w: Outlet, ids: seq<nat>, now: int) {
    && |ids| <= DELIVERY_LIMIT
    && (forall i :: 0 <= i < |ids| ==> ids[i] < |w.jobs| && Due(w, ids[i], now))
    && forall i, j :: 0 <= i < j < |ids| ==> ids[i] != ids[j]
  }

  /** The worker's loop over its batch, with the answer each POST got. */
  function PostAll(jobs: seq<Job>, ids: seq<nat>, successes: seq<bool>, now: int): seq<Job>
    requires |successes| == |ids| && forall i :: 0 <= i < |ids| ==> ids[i] < |jobs|
    decreases |ids|
  {
    if ids == [] then jobs
    else
      PostAll(jobs[ids[0] := Recorded(jobs[ids[0]], successes[0], now)], ids[1..], successes[1..], now)
  }

  /** `deliver_due`, committed. A crash before that records nothing. */
  function DeliverDue(w: Outlet, ids: seq<nat>, successes: seq<bool>, now: int): Outlet {
    if DueBatch(w, ids, now) && |successes| == |ids| then w.(jobs := PostAll(w.jobs, ids, successes, now)) else w
  }

  // ---- runs --------------------------------------------------------------------------------------------

  datatype Step =
    | StepPublish(event: nat, kind: nat)
    | StepRegister(kinds: set<nat>)
    | StepDeactivate(endpoint: nat)
    | StepBegin(relay: nat)
    | StepSink(relay: nat, wrote: bool, ok: bool, now: int)
    | StepCommit(relay: nat)
    | StepAbort(relay: nat)
    | StepDeliver(ids: seq<nat>, successes: seq<bool>, now: int)

  function Next(w: Outlet, step: Step): Outlet {
    match step
    case StepPublish(event, kind) => w.(rows := w.rows + [OutRow(event, kind, false)])
    case StepRegister(kinds) => w.(endpoints := w.endpoints + [Endpoint(true, kinds)])
    case StepDeactivate(e) =>
      if e < |w.endpoints| then w.(endpoints := w.endpoints[e := w.endpoints[e].(active := false)]) else w
    case StepBegin(r) => if r < |w.relays| then Begin(w, r) else w
    case StepSink(r, wrote, ok, now) => if r < |w.relays| then Sink(w, r, wrote, ok, now) else w
    case StepCommit(r) => if r < |w.relays| then Commit(w, r) else w
    case StepAbort(r) => if r < |w.relays| then Abort(w, r) else w
    case StepDeliver(ids, successes, now) => DeliverDue(w, ids, successes, now)
  }

  function Run(w: Outlet, steps: seq<Step>): Outlet
    decreases |steps|
  {
    if steps == [] then w else Run(Next(w, steps[0]), steps[1..])
  }

  /** Nothing published, `n` relays idle. */
  function Fresh(n: nat): Outlet {
    Outlet([], [], [], seq(n, _ => Idle), [])
  }
}
