/** The relay's and the worker's loops (crates/lulan-engine/src/events/mod.rs, webhooks/mod.rs),
updating the outbox and the queue in place. */
module DeliveryWorker {
  import opened Outcomes
  import opened Delivery
  import opened DeliverySafety
  import opened DeliveryAnswers

  datatype Stats = Stats(delivered: nat, retried: nat, exhausted: nat)

  function Counted(stats: Stats, job: Job, success: bool): Stats {
    if success then stats.(delivered := stats.delivered + 1)
    else if job.attempts + 1 >= MAX_ATTEMPTS then stats.(exhausted := stats.exhausted + 1)
    else stats.(retried := stats.retried + 1)
  }

  /** What a pass reports: rows delivered, put back for a retry, and out of attempts. */
  function Tally(stats: Stats, jobs: seq<Job>, ids: seq<nat>, successes: seq<bool>): Stats
    requires |successes| == |ids| && forall i :: 0 <= i < |ids| ==> ids[i] < |jobs|
    decreases |ids|
  {
    if ids == [] then stats
    else Tally(Counted(stats, jobs[ids[0]], successes[0]), jobs, ids[1..], successes[1..])
  }

  /** How many of the rows `ids` stand at `status`. */
  ghost function Standing(jobs: seq<Job>, ids: seq<nat>, status: Status): nat
    requires forall i :: 0 <= i < |ids| ==> ids[i] < |jobs|
    decreases |ids|
  {
    if ids == [] then 0
    else (if jobs[ids[0]].status == status then 1 else 0) + Standing(jobs, ids[1..], status)
  }

  lemma {:induction false} TallyReadsItsRows(stats: Stats, a: seq<Job>, b: seq<Job>, ids: seq<nat>, successes: seq<bool>)
    requires |successes| == |ids| && |a| == |b|
    requires forall i :: 0 <= i < |ids| ==> ids[i] < |a| && a[ids[i]] == b[ids[i]]
    ensures Tally(stats, a, ids, successes) == Tally(stats, b, ids, successes)
    decreases |ids|
  {
    if ids != [] {
      TallyReadsItsRows(Counted(stats, a[ids[0]], successes[0]), a, b, ids[1..], successes[1..]);
    }
  }

  /** What a pass reports is what became of its rows: delivered, waiting again, and given up. */
  lemma {:induction false} TallyIsWhatBecame(stats: Stats, jobs: seq<Job>, ids: seq<nat>, successes: seq<bool>, now: int)
    requires |successes| == |ids|
    requires forall i :: 0 <= i < |ids| ==> ids[i] < |jobs| && jobs[ids[i]].status.Pending? && jobs[ids[i]].attempts < 8
    requires forall i, j :: 0 <= i < j < |ids| ==> ids[i] != ids[j]
    ensures var after := PostAll(jobs, ids, successes, now);
            && |after| == |jobs|
            && Tally(stats, jobs, ids, successes) ==
               Stats(stats.delivered + Standing(after, ids, Delivered), stats.retried + Standing(after, ids, Pending),
                     stats.exhausted + Standing(after, ids, Failed))
    decreases |ids|
  {
    if ids == [] {
    } else {
      var next := jobs[ids[0] := Recorded(jobs[ids[0]], successes[0], now)];
      var counted := Counted(stats, jobs[ids[0]], successes[0]);
      AnswerDecides(jobs[ids[0]], successes[0], now);
      PostAllAt(jobs, ids, successes, now, ids[0]);
      TallyReadsItsRows(counted, jobs, next, ids[1..], successes[1..]);
      TallyIsWhatBecame(counted, next, ids[1..], successes[1..], now);
    }
  }

  /** The rows a pass marked. */
  ghost function NewlyDelivered(before: seq<OutRow>, after: seq<OutRow>): set<nat>
    requires |after| == |before|
  {
    set id: nat | id < |before| && !before[id].delivered && after[id].delivered
  }

  lemma {:induction false} MarkedCount(rows: seq<OutRow>, ids: seq<nat>)
    requires forall i :: 0 <= i < |ids| ==> ids[i] < |rows| && !rows[ids[i]].delivered
    requires forall i, j :: 0 <= i < j < |ids| ==> ids[i] != ids[j]
    ensures |NewlyDelivered(rows, Mark(rows, ids))| == |ids|
    decreases |ids|
  {
    if ids == [] {
      assert NewlyDelivered(rows, Mark(rows, ids)) == {};
    } else {
      var init, last := ids[..|ids| - 1], ids[|ids| - 1];
      MarkedCount(rows, init);
      assert ids == init + [last];
      assert NewlyDelivered(rows, Mark(rows, ids)) == NewlyDelivered(rows, Mark(rows, init)) + {last};
      assert last !in init;
    }
  }

  class Queue {
    var rows: seq<OutRow>
    var endpoints: seq<Endpoint>
    var jobs: seq<Job>
    ghost var relays: seq<Relay>
    ghost var calls: seq<Call>

    ghost function View(): Outlet
      reads this
    {
      Outlet(rows, endpoints, jobs, relays, calls)
    }

    constructor (ghost n: nat)
      ensures View() == Fresh(n)
    {
      rows, endpoints, jobs := [], [], [];
      relays, calls := Fresh(n).relays, [];
    }

    /** `WebhookSink::deliver`. */
    method Deliver(row: OutRow, now: int)
      modifies this`jobs, this`calls
      ensures View() == Wrote(old(View()), row, now)
    {
      for e := 0 to |endpoints|
        invariant jobs == FanOut(old(jobs), endpoints, e, row.event, row.kind, now)
        invariant calls == old(calls)
      {
        if Wants(endpoints[e], row.kind) {
          if !Queued(jobs, e, row.event) {
            jobs := jobs + [Job(e, row.event, Pending, 0, now, now)];
          }
        }
      }
      calls := calls + [Call(row.event, row.kind, endpoints)];
    }

    /** The SELECT … LIMIT 100 FOR UPDATE SKIP LOCKED. */
    method SelectBatch(locked: set<nat>) returns (batch: seq<nat>)
      ensures batch == Pick(rows, locked, 0, RELAY_LIMIT)
    {
      batch := [];
      for id := 0 to |rows|
        invariant |batch| <= RELAY_LIMIT
        invariant batch + Pick(rows, locked, id, RELAY_LIMIT - |batch|) == Pick(rows, locked, 0, RELAY_LIMIT)
      {
        if |batch| == RELAY_LIMIT {
          return;
        }
        if !rows[id].delivered && id !in locked {
          assert batch + ([id] + Pick(rows, locked, id + 1, RELAY_LIMIT - |batch| - 1))
              == batch + [id] + Pick(rows, locked, id + 1, RELAY_LIMIT - |batch| - 1);
          batch := batch + [id];
        }
      }
    }

    /** The relay's transaction as others would see it: its marks are not committed yet. */
    ghost function Open(r: nat, start: seq<OutRow>, batch: seq<nat>, done: nat, halted: bool): Outlet
      requires r < |relays|
      reads this
    {
      Outlet(start, endpoints, jobs, relays[r := Busy(batch, done, halted)], calls)
    }

    /** One round of the relay loop. */
    method HandOver(ghost r: nat, ghost start: seq<OutRow>, batch: seq<nat>, k: nat, answer: SinkAnswer, now: int)
      requires r < |relays| && k < |batch| && batch[k] < |start| && rows == Mark(start, batch[..k])
      modifies this`rows, this`jobs, this`calls
      ensures rows == Mark(start, batch[..if answer.ok then k + 1 else k])
      ensures Open(r, start, batch, if answer.ok then k + 1 else k, !answer.ok)
           == Sink(old(Open(r, start, batch, k, false)), r, answer.wrote, answer.ok, now)
    {
      if answer.wrote || answer.ok {
        Deliver(rows[batch[k]], now);
      }
      if answer.ok {
        rows := Mark(rows, [batch[k]]);
        MarkNext(start, batch, k);
      }
    }

    method RelayLoop(ghost r: nat, batch: seq<nat>, answers: seq<SinkAnswer>, now: int)
      returns (delivered: nat, halted: bool)
      requires r < |relays| && |answers| >= |batch|
      requires forall i :: 0 <= i < |batch| ==> batch[i] < |rows|
      modifies this`rows, this`jobs, this`calls
      ensures delivered <= |batch| && (halted || delivered == |batch|)
      ensures rows == Mark(old(rows), batch[..delivered])
      ensures Open(r, old(rows), batch, delivered, halted) == SinkEach(old(Open(r, rows, batch, 0, false)), r, answers, now)
    {
      delivered, halted := 0, false;
      ghost var start := rows;
      ghost var begun := Open(r, start, batch, 0, false);
      ghost var left := answers;
      while delivered < |batch| && !halted
        invariant delivered <= |batch| && rows == Mark(start, batch[..delivered])
        invariant !halted ==> left == answers[delivered..]
        invariant SinkEach(Open(r, start, batch, delivered, halted), r, left, now) == SinkEach(begun, r, answers, now)
        decreases |batch| - delivered, !halted
      {
        var answer := answers[delivered];
        HandOver(r, start, batch, delivered, answer, now);
        left := left[1..];
        if answer.ok {
          delivered := delivered + 1;
        } else {
          halted := true;
        }
      }
      NoMore(Open(r, start, batch, delivered, halted), r, left, now);
    }

    /** `relay_once`, given what the sink will answer to each row of the batch. */
    method RelayOnce(ghost r: nat, locked: set<nat>, answers: seq<SinkAnswer>, now: int) returns (delivered: nat)
      requires r < |relays| && relays[r].Idle? && locked == Locked(relays)
      requires |answers| >= |Pick(rows, locked, 0, RELAY_LIMIT)|
      modifies this`rows, this`jobs, this`calls
      ensures View() == Delivery.RelayOnce(old(View()), r, answers, now)
      ensures |rows| == |old(rows)| && delivered == |NewlyDelivered(old(rows), rows)|
    {
      var batch := SelectBatch(locked);
      PickedInRange(rows, locked, 0, RELAY_LIMIT);
      assert Begin(View(), r) == Open(r, rows, batch, 0, false);
      var halted;
      delivered, halted := RelayLoop(r, batch, answers, now);
      assert Commit(Open(r, old(rows), batch, delivered, halted), r) == View();
      MarkedCount(old(rows), batch[..delivered]);
    }

    /** The updates after one POST. */
    method Record(id: nat, success: bool, now: int, before: Stats) returns (stats: Stats)
      requires id < |jobs|
      modifies this`jobs
      ensures jobs == old(jobs)[id := Recorded(old(jobs)[id], success, now)]
      ensures stats == Counted(before, old(jobs)[id], success)
    {
      var job := jobs[id];
      var attempt := job.attempts + 1;
      if success {
        jobs := jobs[id := job.(status := Delivered, attempts := attempt)];
        stats := before.(delivered := before.delivered + 1);
      } else if attempt >= MAX_ATTEMPTS {
        jobs := jobs[id := job.(status := Failed, attempts := attempt)];
        stats := before.(exhausted := before.exhausted + 1);
      } else {
        jobs := jobs[id := job.(attempts := attempt, nextAt := now + Backoff(attempt))];
        stats := before.(retried := before.retried + 1);
      }
    }

    predicate IsDue(id: nat, now: int)
      requires id < |jobs|
      reads this
      ensures IsDue(id, now) <==> Due(View(), id, now)
    {
      var job := jobs[id];
      job.status.Pending? && job.nextAt <= now && job.endpoint < |endpoints| && endpoints[job.endpoint].active
    }

    /** A due, unlocked row not yet chosen. */
    ghost predicate Waiting(id: nat, ids: seq<nat>, locked: set<nat>, now: int)
      reads this
    {
      id < |jobs| && Due(View(), id, now) && id !in locked && id !in ids
    }

    /** The next row by `next_attempt_at`, if any is left. */
    method NextDue(ids: seq<nat>, locked: set<nat>, now: int) returns (next: Option<nat>)
      ensures next.None? ==> forall id: nat :: !Waiting(id, ids, locked, now)
      ensures next.Some? ==> Waiting(next.value, ids, locked, now)
      ensures next.Some? ==> forall id: nat :: Waiting(id, ids, locked, now) ==> jobs[next.value].nextAt <= jobs[id].nextAt
    {
      next := None;
      for i := 0 to |jobs|
        invariant next.None? ==> forall id: nat :: id < i ==> !Waiting(id, ids, locked, now)
        invariant next.Some? ==> Waiting(next.value, ids, locked, now)
        invariant next.Some? ==> forall id: nat :: id < i && Waiting(id, ids, locked, now) ==>
                    jobs[next.value].nextAt <= jobs[id].nextAt
      {
        if IsDue(i, now) && i !in locked && i !in ids && (next.None? || jobs[i].nextAt < jobs[next.value].nextAt) {
          next := Some(i);
        }
      }
    }

    /** The rows chosen so far: due and free, oldest first, and nothing still waiting is older. */
    ghost predicate OldestFirst(ids: seq<nat>, locked: set<nat>, now: int)
      reads this
    {
      && DueBatch(View(), ids, now)
      && (forall k :: 0 <= k < |ids| ==> ids[k] !in locked)
      && (forall j, k :: 0 <= j < k < |ids| ==> jobs[ids[j]].nextAt <= jobs[ids[k]].nextAt)
      && forall id: nat :: Waiting(id, ids, locked, now) ==>
           forall k :: 0 <= k < |ids| ==> jobs[ids[k]].nextAt <= jobs[id].nextAt
    }

    lemma TakeOldest(ids: seq<nat>, locked: set<nat>, now: int, next: nat)
      requires OldestFirst(ids, locked, now) && |ids| < DELIVERY_LIMIT && Waiting(next, ids, locked, now)
      requires forall id: nat :: Waiting(id, ids, locked, now) ==> jobs[next].nextAt <= jobs[id].nextAt
      ensures OldestFirst(ids + [next], locked, now)
    {
      forall id: nat | Waiting(id, ids + [next], locked, now)
        ensures forall k :: 0 <= k < |ids + [next]| ==> jobs[(ids + [next])[k]].nextAt <= jobs[id].nextAt
      {
        assert Waiting(id, ids, locked, now);
      }
    }

    /** The SELECT … ORDER BY next_attempt_at LIMIT 20 FOR UPDATE SKIP LOCKED: due rows nobody else
        holds, oldest first; a row is passed over only when twenty at least as old were taken. */
    method SelectDue(locked: set<nat>, now: int) returns (ids: seq<nat>)
      ensures DueBatch(View(), ids, now)
      ensures forall k :: 0 <= k < |ids| ==> ids[k] !in locked
      ensures forall j, k :: 0 <= j < k < |ids| ==> jobs[ids[j]].nextAt <= jobs[ids[k]].nextAt
      ensures forall id: nat :: Waiting(id, ids, locked, now) ==>
                |ids| == DELIVERY_LIMIT && forall k :: 0 <= k < |ids| ==> jobs[ids[k]].nextAt <= jobs[id].nextAt
    {
      ids := [];
      while |ids| < DELIVERY_LIMIT
        invariant |ids| <= DELIVERY_LIMIT && OldestFirst(ids, locked, now)
      {
        var next := NextDue(ids, locked, now);
        if next.None? {
          return;
        }
        TakeOldest(ids, locked, now, next.value);
        ids := ids + [next.value];
      }
    }

    /** `deliver_due`: the answers are those of the rows selected, in order. */
    method DeliverDue(locked: set<nat>, answers: seq<bool>, now: int) returns (ids: seq<nat>, stats: Stats)
      requires |answers| == DELIVERY_LIMIT
      modifies this`jobs
      ensures DueBatch(old(View()), ids, now) && forall k :: 0 <= k < |ids| ==> ids[k] !in locked
      ensures View() == Delivery.DeliverDue(old(View()), ids, answers[..|ids|], now)
      ensures stats == Tally(Stats(0, 0, 0), old(jobs), ids, answers[..|ids|])
    {
      ids := SelectDue(locked, now);
      stats := PostBatch(ids, answers[..|ids|], now);
    }

    /** The loop over the locked rows, with the answer to each POST. */
    method PostBatch(ids: seq<nat>, successes: seq<bool>, now: int) returns (stats: Stats)
      requires DueBatch(View(), ids, now) && |successes| == |ids|
      modifies this`jobs
      ensures View() == Delivery.DeliverDue(old(View()), ids, successes, now)
      ensures stats == Tally(Stats(0, 0, 0), old(jobs), ids, successes)
    {
      stats := Stats(0, 0, 0);
      ghost var start := jobs;
      for i := 0 to |ids|
        invariant |jobs| == |start| && forall j :: i <= j < |ids| ==> jobs[ids[j]] == start[ids[j]]
        invariant PostAll(jobs, ids[i..], successes[i..], now) == PostAll(start, ids, successes, now)
        invariant Tally(stats, start, ids[i..], successes[i..]) == Tally(Stats(0, 0, 0), start, ids, successes)
      {
        assert ids[i..][0] == ids[i] && ids[i..][1..] == ids[i + 1..];
        assert successes[i..][0] == successes[i] && successes[i..][1..] == successes[i + 1..];
        stats := Record(ids[i], successes[i], now, stats);
      }
    }
  }

  lemma {:induction false} NoMore(w: Outlet, r: nat, answers: seq<SinkAnswer>, now: int)
    requires r < |w.relays| && !More(w, r)
    ensures SinkEach(w, r, answers, now) == w
    decreases |answers|
  {
    if answers != [] {
      NoMore(w, r, answers[1..], now);
    }
  }

  lemma MarkNext(rows: seq<OutRow>, batch: seq<nat>, k: nat)
    requires k < |batch|
    ensures Mark(Mark(rows, batch[..k]), [batch[k]]) == Mark(rows, batch[..k + 1])
  {
    assert batch[..k + 1] == batch[..k] + [batch[k]];
  }
}
