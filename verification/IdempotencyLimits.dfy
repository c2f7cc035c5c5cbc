/** The exact condition under which a booking retry never books twice. `Allowed` forbids three steps: a
sweep under a live holder, a read that finds its row gone, and an error for an order that was created.
After any reachable world a step is safe, whatever follows, if and only if it is allowed. */
module IdempotencyLimits {
  import opened Outcomes
  import opened Idempotency
  import opened IdempotencySafety

  // ---- what must not happen ----------------------------------------------------------------------------

  /** Two orders under one slot in one lifetime. */
  ghost predicate BooksTwice(w: World) {
    exists k, l :: 0 <= k < l < |w.orders|
      && w.orders[k].slot == w.orders[l].slot && w.orders[k].lifetime == w.orders[l].lifetime
  }

  ghost predicate Disagree(a: Caller, b: Caller) {
    && Served?(a) && Served?(b) && a.slot == b.slot && a.phase.answer.lifetime == b.phase.answer.lifetime
    && (a.hash != b.hash || a.phase.answer.response != b.phase.answer.response)
  }

  /** Two different answers under one slot in one lifetime. */
  ghost predicate AnswersTwice(w: World) {
    exists i, j :: 0 <= i < j < |w.callers| && Disagree(w.callers[i], w.callers[j])
  }

  ghost predicate Broken(w: World) {
    BooksTwice(w) || AnswersTwice(w)
  }

  lemma SoundIsNotBroken(w: World)
    requires WorldOk(w)
    ensures !Broken(w)
  {
    forall i, j | 0 <= i < j < |w.callers|
      ensures !Disagree(w.callers[i], w.callers[j])
    {
      assert Compatible(w.callers[i], w.callers[j]);
    }
  }

  // ---- continuations that are always allowed ---------------------------------------------------------------

  /** Steps nothing forbids. */
  predicate Plain(step: Step) {
    !step.StepSweep? && !step.StepRead? && (step.StepCreate? ==> !step.creation.Unheard?)
  }

  predicate AllPlain(steps: seq<Step>) {
    forall i :: 0 <= i < |steps| ==> Plain(steps[i])
  }

  lemma {:induction false} PlainIsAllowed(w: World, steps: seq<Step>)
    requires AllPlain(steps)
    ensures AllAllowed(w, steps)
    decreases |steps|
  {
    if steps != [] {
      assert Plain(steps[0]);
      assert forall i :: 0 <= i < |steps[1..]| ==> steps[1..][i] == steps[i + 1];
      PlainIsAllowed(Next(w, steps[0]), steps[1..]);
    }
  }

  lemma {:induction false} RunConcat(w: World, a: seq<Step>, b: seq<Step>)
    ensures Run(w, a + b) == Run(Run(w, a), b)
    decreases |a|
  {
    if a == [] {
      assert a + b == b;
    } else {
      assert (a + b)[1..] == a[1..] + b;
      RunConcat(Next(w, a[0]), a[1..], b);
    }
  }

  lemma RunOne(w: World, step: Step)
    ensures Run(w, [step]) == Next(w, step)
  {
    assert [step][1..] == [];
  }

  /** `w` can still be brought to break the promise, by steps nothing forbids. */
  ghost predicate Doomed(w: World) {
    exists more :: AllPlain(more) && Broken(Run(w, more))
  }

  lemma DoomedBy(w: World, more: seq<Step>)
    requires AllPlain(more) && Broken(Run(w, more))
    ensures Doomed(w)
  {}

  /** What can be doomed after a plain step was doomed before it. */
  lemma DoomedBefore(w: World, step: Step)
    requires Plain(step) && Doomed(Next(w, step))
    ensures Doomed(w)
  {
    var more :| AllPlain(more) && Broken(Run(Next(w, step), more));
    RunConcat(w, [step], more);
    RunOne(w, step);
    DoomedBy(w, [step] + more);
  }

  // ---- a newcomer -----------------------------------------------------------------------------------------

  function Joined(w: World, slot: Slot, hash: nat): World {
    w.(table := w.table[slot := Row(hash, None)], callers := w.callers + [Caller(slot, hash, Holding)])
  }

  /** Where the slot has no row, a newcomer's arrival, look and insert make it a holder. */
  lemma NewcomerHolds(w: World, slot: Slot, hash: nat)
    requires slot !in w.table && Doomed(Joined(w, slot, hash))
    ensures Doomed(w)
  {
    var i := |w.callers|;
    var a := Next(w, StepArrive(slot, hash));
    var b := Next(a, StepLook(i));
    var c := Next(b, StepInsert(i));
    assert Slot(slot.scope, slot.key) == slot;
    assert b.callers == w.callers + [Caller(slot, hash, Looked)];
    assert c.callers == w.callers + [Caller(slot, hash, Holding)];
    assert c == Joined(w, slot, hash);
    DoomedBefore(b, StepInsert(i));
    DoomedBefore(a, StepLook(i));
    DoomedBefore(w, StepArrive(slot, hash));
  }

  /** The slot already has an order of this lifetime. */
  ghost predicate HasBooking(w: World, slot: Slot, k: nat) {
    k < |w.orders| && w.orders[k].slot == slot && w.orders[k].lifetime == Lifetime(w, slot)
  }

  /** A holder of a slot that already has an order books the second. */
  lemma HolderBooksAgain(w: World, i: nat, k: nat)
    requires i < |w.callers| && w.callers[i].phase.Holding? && HasBooking(w, w.callers[i].slot, k)
    ensures Doomed(w)
  {
    var t := Next(w, StepCreate(i, Committed));
    assert t.orders[k] == w.orders[k] && t.orders[|w.orders|].slot == w.callers[i].slot;
    assert BooksTwice(t);
    DoomedBy(t, []);
    DoomedBefore(w, StepCreate(i, Committed));
  }

  /** Two holders of one slot book one order each. */
  lemma TwoHoldersBook(w: World, i: nat, j: nat)
    requires i < |w.callers| && j < |w.callers| && i != j && w.callers[i].slot == w.callers[j].slot
    requires w.callers[i].phase.Holding? && w.callers[j].phase.Holding?
    ensures Doomed(w)
  {
    var t := Next(w, StepCreate(i, Committed));
    assert HasBooking(t, w.callers[j].slot, |w.orders|);
    HolderBooksAgain(t, j, |w.orders|);
    DoomedBefore(w, StepCreate(i, Committed));
  }

  // ---- a sweep under a live holder ------------------------------------------------------------------------

  /** Before booking: the holder and a newcomer both book. */
  lemma SweptWhileHolding(w: World, i: nat)
    requires i < |w.callers| && w.callers[i].phase.Holding?
    ensures Doomed(Sweep(w, w.callers[i].slot))
  {
    var slot := w.callers[i].slot;
    var t := Sweep(w, slot);
    var joined := Joined(t, slot, 0);
    assert joined.callers[i] == w.callers[i];
    TwoHoldersBook(joined, i, |w.callers|);
    NewcomerHolds(t, slot, 0);
  }

  /** After a failed booking: the old holder gives back the newcomer's row, a third caller joins, and the
      newcomer and the third both book. */
  lemma SweptWhileUnbooked(w: World, i: nat)
    requires i < |w.callers| && w.callers[i].phase.Unbooked?
    ensures Doomed(Sweep(w, w.callers[i].slot))
  {
    var slot, n := w.callers[i].slot, |w.callers|;
    var t := Sweep(w, slot);
    var joined := Joined(t, slot, 0);
    var given := Next(joined, StepRelease(i));
    assert joined.callers[i] == w.callers[i];
    assert slot !in given.table;
    var third := Joined(given, slot, 0);
    assert third.callers[n] == joined.callers[n] && third.callers[n + 1].phase.Holding?;
    TwoHoldersBook(third, n, n + 1);
    NewcomerHolds(given, slot, 0);
    DoomedBefore(joined, StepRelease(i));
    NewcomerHolds(t, slot, 0);
  }

  /** After booking: the old holder stores its response on the newcomer's row, the newcomer books and
      stores its own, and one lifetime has served two different responses. */
  lemma SweptWhileBooked(w: World, i: nat)
    requires WorldOk(w) && i < |w.callers| && w.callers[i].phase.Booked?
    ensures Doomed(Sweep(w, w.callers[i].slot))
  {
    var slot, n := w.callers[i].slot, |w.callers|;
    assert CallerOk(w, w.callers[i]);
    var t := Sweep(w, slot);
    var a := Joined(t, slot, 0);
    assert a.callers[i] == w.callers[i];
    var b := Next(a, StepComplete(i, 0));
    var c := Next(b, StepCreate(n, Committed));
    var d := Next(c, StepComplete(n, 0));
    assert b.callers[n] == a.callers[n];
    assert c.callers[n].phase == Booked(|w.orders|) && c.callers[i] == b.callers[i];
    assert d.callers[i] == b.callers[i];
    assert Disagree(d.callers[i], d.callers[n]);
    DoomedBy(d, []);
    DoomedBefore(c, StepComplete(n, 0));
    DoomedBefore(b, StepCreate(n, Committed));
    DoomedBefore(a, StepComplete(i, 0));
    NewcomerHolds(t, slot, 0);
  }

  lemma SweptHolderIsDoomed(w: World, slot: Slot)
    requires WorldOk(w) && !Allowed(w, StepSweep(slot))
    ensures Doomed(Sweep(w, slot))
  {
    var c :| c in w.callers && Holds(c, slot);
    var i :| 0 <= i < |w.callers| && w.callers[i] == c;
    if c.phase.Holding? {
      SweptWhileHolding(w, i);
    } else if c.phase.Unbooked? {
      SweptWhileUnbooked(w, i);
    } else {
      SweptWhileBooked(w, i);
    }
  }

  // ---- a read that finds its row gone, and an order reported as an error --------------------------------------

  /** Held without a row: a newcomer's insert wins as well, and both book. */
  lemma ReadOfGoneRowIsDoomed(w: World, i: nat)
    requires !Allowed(w, StepRead(i))
    ensures Doomed(Next(w, StepRead(i)))
  {
    var slot := w.callers[i].slot;
    var t := Next(w, StepRead(i));
    var joined := Joined(t, slot, 0);
    assert joined.callers[i] == t.callers[i] && t.callers[i].phase.Holding?;
    TwoHoldersBook(joined, i, |w.callers|);
    NewcomerHolds(t, slot, 0);
  }

  /** The caller gives the key back although its order exists, and a retry books again. */
  lemma UnheardOrderIsDoomed(w: World, i: nat)
    requires WorldOk(w) && !Allowed(w, StepCreate(i, Unheard))
    ensures Doomed(Next(w, StepCreate(i, Unheard)))
  {
    var slot := w.callers[i].slot;
    assert CallerOk(w, w.callers[i]);
    var t := Next(w, StepCreate(i, Unheard));
    var given := Next(t, StepRelease(i));
    var joined := Joined(given, slot, 0);
    assert t.callers[i].phase.Unbooked? && slot !in given.table;
    assert HasBooking(joined, slot, |w.orders|);
    HolderBooksAgain(joined, |w.callers|, |w.orders|);
    NewcomerHolds(given, slot, 0);
    DoomedBefore(t, StepRelease(i));
  }

  lemma ForbiddenIsDoomed(w: World, step: Step)
    requires WorldOk(w) && !Allowed(w, step)
    ensures Doomed(Next(w, step))
  {
    match step
    case StepSweep(slot) => SweptHolderIsDoomed(w, slot);
    case StepRead(i) => ReadOfGoneRowIsDoomed(w, i);
    case StepCreate(i, creation) => UnheardOrderIsDoomed(w, i);
  }

  // ---- the exact condition ----------------------------------------------------------------------------------

  /** Whatever allowed steps follow, nobody books twice or gets two answers. */
  ghost predicate Safe(w: World) {
    forall more :: AllAllowed(w, more) ==> !Broken(Run(w, more))
  }

  /** After every allowed run, one more step is safe if and only if it is allowed: the row swept has no
      live holder, the row read is still there, the error reported hides no order. */
  lemma SafeIffAllowed(steps: seq<Step>, step: Step)
    requires AllAllowed(QUIET, steps)
    ensures Safe(Next(Run(QUIET, steps), step)) <==> Allowed(Run(QUIET, steps), step)
  {
    var w := Run(QUIET, steps);
    QuietOk();
    RunKeeps(QUIET, steps);
    var t := Next(w, step);
    if Allowed(w, step) {
      StepKeeps(w, step);
      forall more | AllAllowed(t, more)
        ensures !Broken(Run(t, more))
      {
        RunKeeps(t, more);
        SoundIsNotBroken(Run(t, more));
      }
    } else {
      ForbiddenIsDoomed(w, step);
      var more :| AllPlain(more) && Broken(Run(t, more));
      PlainIsAllowed(t, more);
    }
  }

  // ---- the second path needs no sweep --------------------------------------------------------------------------

  /** The forbidden read does occur without any sweep: the first caller's insert wins and its booking
      fails, the second's insert loses, the first gives the row back, and the second reads. */
  function RowGoneRun(slot: Slot, hash: nat): seq<Step> {
    [StepArrive(slot, hash), StepLook(0), StepInsert(0), StepCreate(0, Failed)]
    + [StepArrive(slot, hash), StepLook(1), StepInsert(1), StepRelease(0)]
  }

  lemma {:induction false} RunSteps(w: World, steps: seq<Step>, step: Step)
    ensures Run(w, steps + [step]) == Next(Run(w, steps), step)
  {
    RunConcat(w, steps, [step]);
    RunOne(Run(w, steps), step);
  }

  lemma FirstFails(slot: Slot, hash: nat)
    ensures Run(QUIET, [StepArrive(slot, hash), StepLook(0), StepInsert(0), StepCreate(0, Failed)])
         == World(map[slot := Row(hash, None)], [Caller(slot, hash, Unbooked)], [], map[])
  {
    var a := [StepArrive(slot, hash)];
    assert Slot(slot.scope, slot.key) == slot;
    RunSteps(QUIET, [], StepArrive(slot, hash));
    assert [] + a == a;
    RunSteps(QUIET, a, StepLook(0));
    RunSteps(QUIET, a + [StepLook(0)], StepInsert(0));
    RunSteps(QUIET, a + [StepLook(0)] + [StepInsert(0)], StepCreate(0, Failed));
    assert a + [StepLook(0)] + [StepInsert(0)] + [StepCreate(0, Failed)]
        == [StepArrive(slot, hash), StepLook(0), StepInsert(0), StepCreate(0, Failed)];
    assert Run(QUIET, a + [StepLook(0)] + [StepInsert(0)]).table == map[slot := Row(hash, None)];
  }

  lemma RowGoneIsReachable(slot: Slot, hash: nat)
    ensures AllAllowed(QUIET, RowGoneRun(slot, hash))
    ensures !Allowed(Run(QUIET, RowGoneRun(slot, hash)), StepRead(1))
  {
    PlainIsAllowed(QUIET, RowGoneRun(slot, hash));
    var first := [StepArrive(slot, hash), StepLook(0), StepInsert(0), StepCreate(0, Failed)];
    var b := [StepArrive(slot, hash)];
    FirstFails(slot, hash);
    var w := Run(QUIET, first);
    RunConcat(QUIET, first, [StepArrive(slot, hash), StepLook(1), StepInsert(1), StepRelease(0)]);
    assert Slot(slot.scope, slot.key) == slot;
    RunSteps(w, [], StepArrive(slot, hash));
    assert [] + b == b;
    RunSteps(w, b, StepLook(1));
    RunSteps(w, b + [StepLook(1)], StepInsert(1));
    RunSteps(w, b + [StepLook(1)] + [StepInsert(1)], StepRelease(0));
    assert b + [StepLook(1)] + [StepInsert(1)] + [StepRelease(0)]
        == [StepArrive(slot, hash), StepLook(1), StepInsert(1), StepRelease(0)];
  }
}
