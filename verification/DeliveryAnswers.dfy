/** How a delivery job ends (crates/lulan-engine/src/webhooks/mod.rs, deliver_due): by the answers its POSTs
got, and nothing else. */
module DeliveryAnswers {
  import opened Delivery

  /** What one recorded answer makes of a pending job: delivered, given up at the eighth failure, or tried
      again after a wait that doubles from four seconds. */
  lemma AnswerDecides(job: Job, success: bool, now: int)
    requires job.attempts < 8
    ensures var next := Recorded(job, success, now);
            && next.attempts == job.attempts + 1
            && next.endpoint == job.endpoint && next.event == job.event && next.born == job.born
            && (success ==> next.status.Delivered?)
            && (!success && job.attempts == 7 ==> next.status.Failed?)
            && (!success && job.attempts < 7 ==>
                  && next.status == job.status
                  && next.nextAt - now == [4_000, 8_000, 16_000, 32_000, 64_000, 128_000, 256_000][job.attempts])
  {
    assert Shl(BASE_BACKOFF_MS, 1) == 4_000;
    assert Shl(BASE_BACKOFF_MS, 2) == 8_000;
    assert Shl(BASE_BACKOFF_MS, 3) == 16_000;
    assert Shl(BASE_BACKOFF_MS, 4) == 32_000;
    assert Shl(BASE_BACKOFF_MS, 5) == 64_000;
    assert Shl(BASE_BACKOFF_MS, 6) == 128_000;
    assert Shl(BASE_BACKOFF_MS, 7) == 256_000;
  }

  /** The committed answers to job `id` in a run, in order. */
  ghost function Answers(w: Outlet, steps: seq<Step>, id: nat): seq<bool>
    decreases |steps|
  {
    if steps == [] then [] else AnswersOf(w, steps[0], id) + Answers(Next(w, steps[0]), steps[1..], id)
  }

  /** The answer one step records for it, if any. */
  ghost function AnswersOf(w: Outlet, step: Step, id: nat): (answers: seq<bool>)
    ensures answers != [] ==> |answers| == 1
  {
    if step.StepDeliver? && DueBatch(w, step.ids, step.now) && |step.successes| == |step.ids| && id in step.ids then
      var k :| 0 <= k < |step.ids| && step.ids[k] == id;
      [step.successes[k]]
    else []
  }

  /** Delivered by its last answer alone, failed by eight refusals, pending after fewer. */
  ghost predicate Told(job: Job, answers: seq<bool>) {
    && job.attempts == |answers| <= 8
    && match job.status
       case Delivered => answers != [] && answers[|answers| - 1] && forall i :: 0 <= i < |answers| - 1 ==> !answers[i]
       case Failed => |answers| == 8 && forall i :: 0 <= i < |answers| ==> !answers[i]
       case Pending => |answers| < 8 && forall i :: 0 <= i < |answers| ==> !answers[i]
  }

  ghost predicate ToldSoFar(w: Outlet, id: nat, answers: seq<bool>) {
    if id < |w.jobs| then Told(w.jobs[id], answers) else answers == []
  }

  lemma {:induction false} PostAllAt(jobs: seq<Job>, ids: seq<nat>, successes: seq<bool>, now: int, id: nat)
    requires |successes| == |ids| && id < |jobs| && forall i :: 0 <= i < |ids| ==> ids[i] < |jobs|
    requires forall i, j :: 0 <= i < j < |ids| ==> ids[i] != ids[j]
    ensures |PostAll(jobs, ids, successes, now)| == |jobs|
    ensures id !in ids ==> PostAll(jobs, ids, successes, now)[id] == jobs[id]
    ensures forall k :: 0 <= k < |ids| && ids[k] == id ==>
              PostAll(jobs, ids, successes, now)[id] == Recorded(jobs[id], successes[k], now)
    decreases |ids|
  {
    if ids != [] {
      PostAllAt(jobs[ids[0] := Recorded(jobs[ids[0]], successes[0], now)], ids[1..], successes[1..], now, id);
      assert forall k :: 0 < k < |ids| ==> ids[k] == ids[1..][k - 1] && successes[k] == successes[1..][k - 1];
    }
  }

  /** The worker may have this row: pending, due, and for an endpoint still active. */
  ghost predicate Postable(w: Outlet, id: nat, now: int) {
    && id < |w.jobs| && w.jobs[id].status.Pending? && w.jobs[id].nextAt <= now
    && w.jobs[id].endpoint < |w.endpoints| && w.endpoints[w.jobs[id].endpoint].active
  }

  /** A pass over at most twenty distinct such rows records each one's own answer and touches no other row;
      any other list is not a pass and records nothing. */
  lemma DeliverDecides(w: Outlet, ids: seq<nat>, successes: seq<bool>, now: int, id: nat)
    requires |successes| == |ids| && id < |w.jobs|
    ensures var t := DeliverDue(w, ids, successes, now);
            var pass := |ids| <= 20 && (forall k :: 0 <= k < |ids| ==> Postable(w, ids[k], now))
                        && forall j, k :: 0 <= j < k < |ids| ==> ids[j] != ids[k];
            && t == w.(jobs := t.jobs)
            && (!pass ==> t == w)
            && (pass ==>
                  && |t.jobs| == |w.jobs|
                  && (id !in ids ==> t.jobs[id] == w.jobs[id])
                  && forall k :: 0 <= k < |ids| && ids[k] == id ==> t.jobs[id] == Recorded(w.jobs[id], successes[k], now))
  {
    if DueBatch(w, ids, now) {
      assert forall k :: 0 <= k < |ids| ==> Due(w, ids[k], now) && Postable(w, ids[k], now);
      PostAllAt(w.jobs, ids, successes, now, id);
    } else if forall k :: 0 <= k < |ids| ==> Postable(w, ids[k], now) {
      assert forall k :: 0 <= k < |ids| ==> Due(w, ids[k], now);
    }
  }

  lemma {:induction false} FanOutAt(jobs: seq<Job>, endpoints: seq<Endpoint>, n: nat, event: nat, kind: nat, now: int, id: nat)
    requires n <= |endpoints|
    ensures var after := FanOut(jobs, endpoints, n, event, kind, now);
            && |jobs| <= |after|
            && (id < |jobs| ==> after[id] == jobs[id])
            && (|jobs| <= id < |after| ==> after[id].status.Pending? && after[id].attempts == 0)
    decreases n
  {
    if n > 0 {
      FanOutAt(jobs, endpoints, n - 1, event, kind, now, id);
    }
  }

  lemma DeliverTells(w: Outlet, step: Step, id: nat, answers: seq<bool>)
    requires ToldSoFar(w, id, answers) && step.StepDeliver?
    ensures ToldSoFar(Next(w, step), id, answers + AnswersOf(w, step, id))
  {
    if DueBatch(w, step.ids, step.now) && |step.successes| == |step.ids| && id < |w.jobs| {
      PostAllAt(w.jobs, step.ids, step.successes, step.now, id);
      if id in step.ids {
        var k :| 0 <= k < |step.ids| && step.ids[k] == id;
        assert Due(w, id, step.now);
        assert AnswersOf(w, step, id) == [step.successes[k]];
        AnswerDecides(w.jobs[id], step.successes[k], step.now);
      } else {
        assert answers + [] == answers;
      }
    } else {
      assert answers + [] == answers;
      if DueBatch(w, step.ids, step.now) && |step.successes| == |step.ids| {
        PostAllSize(w.jobs, step.ids, step.successes, step.now);
      }
    }
  }

  lemma {:induction false} PostAllSize(jobs: seq<Job>, ids: seq<nat>, successes: seq<bool>, now: int)
    requires |successes| == |ids| && forall i :: 0 <= i < |ids| ==> ids[i] < |jobs|
    ensures |PostAll(jobs, ids, successes, now)| == |jobs|
    decreases |ids|
  {
    if ids != [] {
      PostAllSize(jobs[ids[0] := Recorded(jobs[ids[0]], successes[0], now)], ids[1..], successes[1..], now);
    }
  }

  lemma StepTells(w: Outlet, step: Step, id: nat, answers: seq<bool>)
    requires ToldSoFar(w, id, answers)
    ensures ToldSoFar(Next(w, step), id, answers + AnswersOf(w, step, id))
  {
    if step.StepDeliver? {
      DeliverTells(w, step, id, answers);
    } else {
      assert answers + [] == answers;
      if step.StepSink? && step.relay < |w.relays| && More(w, step.relay) {
        var row := w.rows[w.relays[step.relay].batch[w.relays[step.relay].done]];
        FanOutAt(w.jobs, w.endpoints, |w.endpoints|, row.event, row.kind, step.now, id);
      }
    }
  }

  lemma {:induction false} RunTells(w: Outlet, steps: seq<Step>, id: nat, answers: seq<bool>)
    requires ToldSoFar(w, id, answers)
    ensures ToldSoFar(Run(w, steps), id, answers + Answers(w, steps, id))
    decreases |steps|
  {
    if steps == [] {
      assert answers + [] == answers;
    } else {
      var now := AnswersOf(w, steps[0], id);
      StepTells(w, steps[0], id, answers);
      RunTells(Next(w, steps[0]), steps[1..], id, answers + now);
      assert answers + now + Answers(Next(w, steps[0]), steps[1..], id) == answers + Answers(w, steps, id);
    }
  }

  /** After any run a job has had as many attempts as committed answers; it is Delivered exactly when the last
      of them accepted, Failed exactly when eight refused, and accepted or given up it is never posted again. */
  lemma JobsAreWhatTheyWereTold(relays: nat, steps: seq<Step>, id: nat)
    requires id < |Run(Fresh(relays), steps).jobs|
    ensures Told(Run(Fresh(relays), steps).jobs[id], Answers(Fresh(relays), steps, id))
  {
    RunTells(Fresh(relays), steps, id, []);
    assert [] + Answers(Fresh(relays), steps, id) == Answers(Fresh(relays), steps, id);
  }
}
