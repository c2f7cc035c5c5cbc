/** A booking retry never books twice: the key protocol over every interleaving of callers, crashes and
allowed sweeps. What a run is allowed is stated exactly by `IdempotencyLimits`. */
module IdempotencySafety {
  import opened Outcomes
  import opened Idempotency

  // ---- the invariant ---------------------------------------------------------------------------------

  /** An order was created under `slot` since its last sweep. */
  ghost predicate HasOrder(w: World, slot: Slot) {
    exists k :: 0 <= k < |w.orders| && w.orders[k].slot == slot && w.orders[k].lifetime == Lifetime(w, slot)
  }

  ghost predicate IsOrder(w: World, k: nat, slot: Slot, hash: nat, lifetime: nat) {
    k < |w.orders| && w.orders[k] == Booking(slot, hash, lifetime)
  }

  ghost predicate Owns(w: World, c: Caller) {
    c.slot in w.table && w.table[c.slot] == Row(c.hash, None)
  }

  ghost predicate CallerOk(w: World, c: Caller) {
    match c.phase
    case Holding => Owns(w, c) && !HasOrder(w, c.slot)
    case Unbooked => Owns(w, c) && !HasOrder(w, c.slot)
    case Booked(k) => Owns(w, c) && IsOrder(w, k, c.slot, c.hash, Lifetime(w, c.slot))
    case Answered(Served(response, lifetime)) =>
      && lifetime <= Lifetime(w, c.slot)
      && IsOrder(w, response.order, c.slot, c.hash, lifetime)
      && (lifetime == Lifetime(w, c.slot) ==>
            c.slot in w.table && w.table[c.slot] == Row(c.hash, Some(response)))
    case _ => true
  }

  ghost predicate CallersOk(w: World) {
    forall i :: 0 <= i < |w.callers| ==> CallerOk(w, w.callers[i])
  }

  /** Two callers never hold one row, and never get two answers in one lifetime of a slot. */
  ghost predicate Compatible(a: Caller, b: Caller) {
    && !(Holds(a, a.slot) && Holds(b, a.slot))
    && (Served?(a) && Served?(b) && a.slot == b.slot && a.phase.answer.lifetime == b.phase.answer.lifetime ==>
          a.hash == b.hash && a.phase.answer.response == b.phase.answer.response)
  }

  predicate Served?(c: Caller) {
    c.phase.Answered? && c.phase.answer.Served?
  }

  ghost predicate PairsOk(callers: seq<Caller>) {
    forall i, j :: 0 <= i < j < |callers| ==> Compatible(callers[i], callers[j])
  }

  ghost predicate OrdersOk(w: World) {
    && (forall k, l :: 0 <= k < l < |w.orders| ==>
          w.orders[k].slot != w.orders[l].slot || w.orders[k].lifetime != w.orders[l].lifetime)
    && forall k :: 0 <= k < |w.orders| ==> OrderOk(w, w.orders[k])
  }

  ghost predicate OrderOk(w: World, order: Booking) {
    && order.lifetime <= Lifetime(w, order.slot)
    && (order.lifetime == Lifetime(w, order.slot) ==> order.slot in w.table)
  }

  /** A stored response names the order of the slot's current lifetime. */
  ghost predicate RowsOk(w: World) {
    forall slot <- w.table :: w.table[slot].stored.Some? ==>
      IsOrder(w, w.table[slot].stored.value.order, slot, w.table[slot].hash, Lifetime(w, slot))
  }

  ghost predicate WorldOk(w: World) {
    CallersOk(w) && PairsOk(w.callers) && OrdersOk(w) && RowsOk(w)
  }

  // ---- one lemma per step ------------------------------------------------------------------------------

  /** Replacing one caller keeps the pairs compatible when the newcomer is compatible with the rest. */
  lemma ReplaceCaller(callers: seq<Caller>, i: nat, c: Caller)
    requires PairsOk(callers) && i < |callers|
    requires forall j :: 0 <= j < |callers| && j != i ==> Compatible(callers[j], c)
    ensures PairsOk(callers[i := c])
  {
    var updated := callers[i := c];
    forall a, b | 0 <= a < b < |updated|
      ensures Compatible(updated[a], updated[b])
    {
      if a != i && b != i {
        assert Compatible(callers[a], callers[b]);
      } else if b == i {
        assert Compatible(callers[a], c);
      } else {
        assert Compatible(callers[b], c);
      }
    }
  }

  /** A caller that neither holds nor was served constrains nobody. */
  lemma PassiveCaller(w: World, i: nat, phase: Phase)
    requires WorldOk(w) && i < |w.callers|
    requires phase.Arrived? || phase.Looked? || phase.Contended? || phase.Crashed? || (phase.Answered? && !phase.answer.Served?)
    ensures WorldOk(SetPhase(w, i, phase))
  {
    var t := SetPhase(w, i, phase);
    ReplaceCaller(w.callers, i, t.callers[i]);
    forall j | 0 <= j < |t.callers|
      ensures CallerOk(t, t.callers[j])
    {
      assert j != i ==> CallerOk(w, w.callers[j]);
    }
  }

  /** A replayed answer is the one every earlier caller of this lifetime got. */
  lemma Replayed(w: World, i: nat)
    requires WorldOk(w) && i < |w.callers|
    requires var c := w.callers[i];
             c.slot in w.table && w.table[c.slot].hash == c.hash && w.table[c.slot].stored.Some?
    ensures var c := w.callers[i];
            WorldOk(SetPhase(w, i, Answered(Served(w.table[c.slot].stored.value, Lifetime(w, c.slot)))))
  {
    var c := w.callers[i];
    var answered := c.(phase := Answered(Served(w.table[c.slot].stored.value, Lifetime(w, c.slot))));
    forall j | 0 <= j < |w.callers| && j != i
      ensures Compatible(w.callers[j], answered)
    {
      assert CallerOk(w, w.callers[j]);
    }
    ReplaceCaller(w.callers, i, answered);
    var t := SetPhase(w, i, answered.phase);
    forall j | 0 <= j < |t.callers|
      ensures CallerOk(t, t.callers[j])
    {
      assert j != i ==> CallerOk(w, w.callers[j]);
    }
  }

  lemma LookKeeps(w: World, i: nat)
    requires WorldOk(w) && i < |w.callers|
    ensures WorldOk(Look(w, i))
  {
    var c := w.callers[i];
    if c.phase.Arrived? {
      assert Slot(c.slot.scope, c.slot.key) == c.slot;
      match ReplayIfCompleted(w.table, Some(c.slot.key), c.slot.scope, c.hash)
      case Ok(Some(_)) => Replayed(w, i);
      case Ok(None) => PassiveCaller(w, i, Looked);
      case Err(why) => PassiveCaller(w, i, Answered(Refused(why)));
    }
  }

  /** Reserving inserts a row only where there was none, so nobody held it and no order of this
      lifetime exists. */
  lemma ReserveKeeps(w: World, i: nat)
    requires WorldOk(w) && i < |w.callers| && w.callers[i].slot !in w.table
    ensures var c := w.callers[i];
            WorldOk(SetPhase(w.(table := w.table[c.slot := Row(c.hash, None)]), i, Holding))
  {
    var c := w.callers[i];
    var holder := c.(phase := Holding);
    var t := SetPhase(w.(table := w.table[c.slot := Row(c.hash, None)]), i, Holding);
    forall j | 0 <= j < |w.callers| && j != i
      ensures Compatible(w.callers[j], holder)
    {
      assert CallerOk(w, w.callers[j]);
    }
    ReplaceCaller(w.callers, i, holder);
    forall k | 0 <= k < |t.orders|
      ensures t.orders[k].slot != c.slot || t.orders[k].lifetime != Lifetime(t, c.slot)
    {
      assert OrderOk(w, w.orders[k]);
    }
    assert !HasOrder(t, c.slot);
    forall j | 0 <= j < |t.callers|
      ensures CallerOk(t, t.callers[j])
    {
      if j != i {
        assert CallerOk(w, w.callers[j]);
        assert HasOrder(t, w.callers[j].slot) == HasOrder(w, w.callers[j].slot);
      }
    }
    forall k | 0 <= k < |t.orders|
      ensures OrderOk(t, t.orders[k])
    {
      assert OrderOk(w, w.orders[k]);
    }
  }

  lemma InsertKeeps(w: World, i: nat)
    requires WorldOk(w) && i < |w.callers|
    ensures WorldOk(TryInsert(w, i))
  {
    var c := w.callers[i];
    if c.phase.Looked? {
      if c.slot in w.table {
        PassiveCaller(w, i, Contended);
      } else {
        ReserveKeeps(w, i);
      }
    }
  }

  lemma ReadKeeps(w: World, i: nat)
    requires WorldOk(w) && i < |w.callers| && Allowed(w, StepRead(i))
    ensures WorldOk(ReadRow(w, i))
  {
    var c := w.callers[i];
    if c.phase.Contended? {
      if w.table[c.slot].hash != c.hash {
        PassiveCaller(w, i, Answered(Refused(DifferentRequest)));
      } else if w.table[c.slot].stored.Some? {
        Replayed(w, i);
      } else {
        PassiveCaller(w, i, Answered(Refused(InFlight)));
      }
    }
  }

  lemma SoleHolder(w: World, i: nat, j: nat)
    requires PairsOk(w.callers) && i < |w.callers| && j < |w.callers| && i != j && Holds(w.callers[i], w.callers[i].slot)
    ensures !Holds(w.callers[j], w.callers[i].slot)
  {
    if i < j {
      assert Compatible(w.callers[i], w.callers[j]);
    } else {
      assert Compatible(w.callers[j], w.callers[i]);
    }
  }

  lemma BookedKeeps(w: World, i: nat)
    requires WorldOk(w) && i < |w.callers| && w.callers[i].phase.Holding?
    ensures WorldOk(Book(w, i, Committed))
  {
    var c := w.callers[i];
    var t := Book(w, i, Committed);
    assert CallerOk(w, c);
    forall j | 0 <= j < |w.callers| && j != i
      ensures Compatible(w.callers[j], t.callers[i])
    {
      SoleHolder(w, i, j);
    }
    ReplaceCaller(w.callers, i, t.callers[i]);
    forall j | 0 <= j < |t.callers|
      ensures CallerOk(t, t.callers[j])
    {
      if j != i {
        assert CallerOk(w, w.callers[j]);
        SoleHolder(w, i, j);
        if w.callers[j].slot != c.slot {
          OtherOrders(w, t, w.callers[j].slot);
        }
      }
    }
    forall k | 0 <= k < |w.orders|
      ensures OrderOk(t, w.orders[k]) && (w.orders[k].slot != c.slot || w.orders[k].lifetime != Lifetime(w, c.slot))
    {
      assert OrderOk(w, w.orders[k]);
    }
  }

  lemma OtherOrders(w: World, t: World, slot: Slot)
    requires |t.orders| == |w.orders| + 1 && t.orders[..|w.orders|] == w.orders
    requires t.orders[|w.orders|].slot != slot && t.sweeps == w.sweeps
    ensures HasOrder(t, slot) <==> HasOrder(w, slot)
  {
    assert forall k :: 0 <= k < |w.orders| ==> t.orders[k] == w.orders[k];
  }

  lemma UnbookedKeeps(w: World, i: nat)
    requires WorldOk(w) && i < |w.callers| && w.callers[i].phase.Holding?
    ensures WorldOk(Book(w, i, Failed))
  {
    var t := Book(w, i, Failed);
    assert CallerOk(w, w.callers[i]);
    forall j | 0 <= j < |w.callers| && j != i
      ensures Compatible(w.callers[j], t.callers[i])
    {
      SoleHolder(w, i, j);
    }
    ReplaceCaller(w.callers, i, t.callers[i]);
    forall j | 0 <= j < |t.callers|
      ensures CallerOk(t, t.callers[j])
    {
      assert CallerOk(w, w.callers[j]);
    }
  }

  /** Storing the response answers the first caller of this lifetime. */
  lemma FinishKeeps(w: World, i: nat, body: nat)
    requires WorldOk(w) && i < |w.callers| && w.callers[i].phase.Booked?
    ensures WorldOk(Finish(w, i, body))
  {
    var c := w.callers[i];
    var t := Finish(w, i, body);
    assert CallerOk(w, c);
    forall j | 0 <= j < |w.callers| && j != i
      ensures Compatible(w.callers[j], t.callers[i])
    {
      assert CallerOk(w, w.callers[j]);
    }
    ReplaceCaller(w.callers, i, t.callers[i]);
    forall j | 0 <= j < |t.callers|
      ensures CallerOk(t, t.callers[j])
    {
      if j != i {
        assert CallerOk(w, w.callers[j]);
        SoleHolder(w, i, j);
      }
    }
    forall k | 0 <= k < |t.orders|
      ensures OrderOk(t, t.orders[k])
    {
      assert OrderOk(w, w.orders[k]);
    }
  }

  /** Only a holder whose booking failed gives the row back, so no order of this lifetime loses it. */
  lemma GiveBackKeeps(w: World, i: nat)
    requires WorldOk(w) && i < |w.callers| && w.callers[i].phase.Unbooked?
    ensures WorldOk(GiveBack(w, i))
  {
    var c := w.callers[i];
    var t := GiveBack(w, i);
    assert CallerOk(w, c);
    forall j | 0 <= j < |w.callers| && j != i
      ensures Compatible(w.callers[j], t.callers[i])
    {
    }
    ReplaceCaller(w.callers, i, t.callers[i]);
    forall j | 0 <= j < |t.callers|
      ensures CallerOk(t, t.callers[j])
    {
      if j != i {
        assert CallerOk(w, w.callers[j]);
        SoleHolder(w, i, j);
      }
    }
    forall k | 0 <= k < |t.orders|
      ensures OrderOk(t, t.orders[k])
    {
      assert OrderOk(w, w.orders[k]);
    }
  }

  lemma SweepKeeps(w: World, slot: Slot)
    requires WorldOk(w) && Allowed(w, StepSweep(slot))
    ensures WorldOk(Sweep(w, slot))
  {
    var t := Sweep(w, slot);
    forall j | 0 <= j < |t.callers|
      ensures CallerOk(t, t.callers[j])
    {
      assert CallerOk(w, w.callers[j]) && w.callers[j] in w.callers;
    }
    forall k | 0 <= k < |t.orders|
      ensures OrderOk(t, t.orders[k])
    {
      assert OrderOk(w, w.orders[k]);
    }
  }

  lemma ArriveKeeps(w: World, slot: Slot, hash: nat)
    requires WorldOk(w)
    ensures WorldOk(Next(w, StepArrive(slot, hash)))
  {
    var t := Next(w, StepArrive(slot, hash));
    forall j | 0 <= j < |t.callers|
      ensures CallerOk(t, t.callers[j])
    {
      assert j < |w.callers| ==> CallerOk(w, w.callers[j]);
    }
  }

  lemma CreateKeeps(w: World, i: nat, creation: Creation)
    requires WorldOk(w) && Allowed(w, StepCreate(i, creation))
    ensures WorldOk(Next(w, StepCreate(i, creation)))
  {
    if i < |w.callers| && w.callers[i].phase.Holding? {
      match creation
      case Committed => BookedKeeps(w, i);
      case Failed => UnbookedKeeps(w, i);
    }
  }

  lemma StepKeeps(w: World, step: Step)
    requires WorldOk(w) && Allowed(w, step)
    ensures WorldOk(Next(w, step))
  {
    match step
    case StepArrive(slot, hash) => ArriveKeeps(w, slot, hash);
    case StepLook(i) => if i < |w.callers| { LookKeeps(w, i); }
    case StepInsert(i) => if i < |w.callers| { InsertKeeps(w, i); }
    case StepRead(i) => if i < |w.callers| { ReadKeeps(w, i); }
    case StepCreate(i, creation) => CreateKeeps(w, i, creation);
    case StepComplete(i, body) =>
      if i < |w.callers| && w.callers[i].phase.Booked? {
        FinishKeeps(w, i, body);
      }
    case StepRelease(i) =>
      if i < |w.callers| && w.callers[i].phase.Unbooked? {
        GiveBackKeeps(w, i);
      }
    case StepCrash(i) =>
      if i < |w.callers| && !w.callers[i].phase.Answered? {
        PassiveCaller(w, i, Crashed);
      }
    case StepSweep(slot) => SweepKeeps(w, slot);
  }

  lemma {:induction false} RunKeeps(w: World, steps: seq<Step>)
    requires WorldOk(w) && AllAllowed(w, steps)
    ensures WorldOk(Run(w, steps))
    decreases |steps|
  {
    if steps != [] {
      StepKeeps(w, steps[0]);
      RunKeeps(Next(w, steps[0]), steps[1..]);
    }
  }

  lemma QuietOk()
    ensures WorldOk(QUIET)
  {}

  // ---- what callers are promised -------------------------------------------------------------------------

  /** Whatever the interleaving, at most one order is created per scope and key between two sweeps. */
  lemma AtMostOneOrder(steps: seq<Step>, k: nat, l: nat)
    requires AllAllowed(QUIET, steps) && k < l < |Run(QUIET, steps).orders|
    ensures var orders := Run(QUIET, steps).orders;
            orders[k].slot != orders[l].slot || orders[k].lifetime != orders[l].lifetime
  {
    QuietOk();
    RunKeeps(QUIET, steps);
  }

  lemma StepLifetime(w: World, step: Step, slot: Slot)
    requires step != StepSweep(slot)
    ensures Lifetime(Next(w, step), slot) == Lifetime(w, slot)
  {
    if !step.StepSweep? {
      assert Next(w, step).sweeps == w.sweeps;
    }
  }

  lemma {:induction false} UnsweptLifetime(w: World, steps: seq<Step>, slot: Slot)
    requires StepSweep(slot) !in steps
    ensures Lifetime(Run(w, steps), slot) == Lifetime(w, slot)
    decreases |steps|
  {
    if steps != [] {
      assert steps[0] in steps;
      StepLifetime(w, steps[0], slot);
      UnsweptLifetime(Next(w, steps[0]), steps[1..], slot);
    }
  }

  /** In particular a key that is never swept books at most once, however often it was given back. */
  lemma NeverBooksTwice(steps: seq<Step>, k: nat, l: nat)
    requires AllAllowed(QUIET, steps) && k < l < |Run(QUIET, steps).orders|
    requires Run(QUIET, steps).orders[k].slot == Run(QUIET, steps).orders[l].slot
    ensures StepSweep(Run(QUIET, steps).orders[k].slot) in steps
  {
    var w := Run(QUIET, steps);
    AtMostOneOrder(steps, k, l);
    QuietOk();
    RunKeeps(QUIET, steps);
    assert OrderOk(w, w.orders[k]) && OrderOk(w, w.orders[l]);
    if StepSweep(w.orders[k].slot) !in steps {
      UnsweptLifetime(QUIET, steps, w.orders[k].slot);
    }
  }

  /** Every caller served in one lifetime of a slot sent the same request, got the same response,
      and that response names the order booked for exactly this request. */
  lemma SameAnswer(steps: seq<Step>, i: nat, j: nat)
    requires AllAllowed(QUIET, steps) && i < |Run(QUIET, steps).callers| && j < |Run(QUIET, steps).callers|
    requires var a, b := Run(QUIET, steps).callers[i], Run(QUIET, steps).callers[j];
             && Served?(a) && Served?(b) && a.slot == b.slot
             && a.phase.answer.lifetime == b.phase.answer.lifetime
    ensures var w := Run(QUIET, steps);
            var a, b := w.callers[i], w.callers[j];
            && a.hash == b.hash && a.phase.answer == b.phase.answer
            && IsOrder(w, a.phase.answer.response.order, a.slot, a.hash, a.phase.answer.lifetime)
  {
    QuietOk();
    RunKeeps(QUIET, steps);
    var w := Run(QUIET, steps);
    assert CallerOk(w, w.callers[i]);
    if i < j {
      assert Compatible(w.callers[i], w.callers[j]);
    } else if j < i {
      assert Compatible(w.callers[j], w.callers[i]);
    }
  }

  lemma CompletedStep(w: World, step: Step, slot: Slot)
    requires WorldOk(w) && slot in w.table && w.table[slot].stored.Some? && step != StepSweep(slot)
    ensures slot in Next(w, step).table && Next(w, step).table[slot] == w.table[slot]
  {
    match step
    case StepComplete(i, _) => if i < |w.callers| { assert CallerOk(w, w.callers[i]); }
    case StepRelease(i) => if i < |w.callers| { assert CallerOk(w, w.callers[i]); }
    case _ =>
  }

  lemma {:induction false} CompletedStays(w: World, steps: seq<Step>, slot: Slot)
    requires WorldOk(w) && AllAllowed(w, steps)
    requires slot in w.table && w.table[slot].stored.Some?
    requires StepSweep(slot) !in steps
    ensures slot in Run(w, steps).table && Run(w, steps).table[slot] == w.table[slot]
    decreases |steps|
  {
    if steps != [] {
      assert steps[0] in steps;
      StepKeeps(w, steps[0]);
      CompletedStep(w, steps[0], slot);
      CompletedStays(Next(w, steps[0]), steps[1..], slot);
    }
  }

  /** Once completed and until swept, a key replays its stored response to the same request, on the
      fast path and at the point of the write, and refuses every other request. */
  lemma CompletedReplays(before: seq<Step>, after: seq<Step>, scope: nat, key: nat, hash: nat)
    requires AllAllowed(QUIET, before) && AllAllowed(Run(QUIET, before), after)
    requires var w := Run(QUIET, before);
             Slot(scope, key) in w.table && w.table[Slot(scope, key)].stored.Some?
    requires StepSweep(Slot(scope, key)) !in after
    ensures var row := Run(QUIET, before).table[Slot(scope, key)];
            var later := Run(Run(QUIET, before), after).table;
            && Reserve(later, Some(key), scope, hash).0 == later
            && Reserve(later, Some(key), scope, hash).1
               == (if hash == row.hash then Ok(Replay(row.stored.value)) else Err(DifferentRequest))
            && ReplayIfCompleted(later, Some(key), scope, hash)
               == (if hash == row.hash then Ok(row.stored) else Err(DifferentRequest))
  {
    QuietOk();
    RunKeeps(QUIET, before);
    CompletedStays(Run(QUIET, before), after, Slot(scope, key));
  }

  // ---- how a caller moves --------------------------------------------------------------------------------

  /** Nothing but caller `i`'s phase differs. */
  ghost predicate MovesTo(w: World, t: World, i: nat, phase: Phase) {
    i < |w.callers| && t == w.(callers := w.callers[i := Caller(w.callers[i].slot, w.callers[i].hash, phase)])
  }

  /** A step moves its caller only from the phase it belongs to: look, then insert, then read if the insert lost,
      then create, then answer or give back; a crash ends any caller not yet answered. */
  lemma PhasesInOrder(w: World, i: nat, creation: Creation, body: nat)
    ensures i >= |w.callers| || !w.callers[i].phase.Arrived? ==> Next(w, StepLook(i)) == w
    ensures i >= |w.callers| || !w.callers[i].phase.Looked? ==> Next(w, StepInsert(i)) == w
    ensures i >= |w.callers| || !w.callers[i].phase.Contended? ==> Next(w, StepRead(i)) == w
    ensures i >= |w.callers| || !w.callers[i].phase.Holding? ==> Next(w, StepCreate(i, creation)) == w
    ensures i >= |w.callers| || !w.callers[i].phase.Booked? ==> Next(w, StepComplete(i, body)) == w
    ensures i >= |w.callers| || !w.callers[i].phase.Unbooked? ==> Next(w, StepRelease(i)) == w
    ensures i >= |w.callers| || w.callers[i].phase.Answered? ==> Next(w, StepCrash(i)) == w
    ensures i < |w.callers| && !w.callers[i].phase.Answered? ==> MovesTo(w, Next(w, StepCrash(i)), i, Crashed)
  {}

  /** The insert wins exactly on a free slot, and a creation leaves an order exactly when it committed. */
  lemma PhasesDecide(w: World, i: nat, creation: Creation)
    requires i < |w.callers|
    ensures var c, t := w.callers[i], Next(w, StepInsert(i));
            c.phase.Looked? ==>
              if c.slot in w.table then MovesTo(w, t, i, Contended)
              else MovesTo(w.(table := w.table[c.slot := Row(c.hash, None)]), t, i, Holding)
    ensures var c, t := w.callers[i], Next(w, StepCreate(i, creation));
            c.phase.Holding? ==>
              && t.callers[i].phase == (if creation.Committed? then Booked(|w.orders|) else Unbooked)
              && |t.orders| == |w.orders| + (if creation.Failed? then 0 else 1) && t.orders[..|w.orders|] == w.orders
              && t.table == w.table
    ensures var c, t := w.callers[i], Next(w, StepRelease(i));
            c.phase.Unbooked? ==>
              && t.callers[i].phase == Answered(NothingBooked) && t.orders == w.orders
              && t.table == if c.slot in w.table && w.table[c.slot].stored.None? then w.table - {c.slot} else w.table
  {}

  /** A caller arrives with nothing done; a sweep takes the row and begins the slot's next lifetime, and changes
      nothing else. */
  lemma ArrivalsAndSweeps(w: World, slot: Slot, hash: nat)
    ensures Next(w, StepArrive(slot, hash)) == w.(callers := w.callers + [Caller(slot, hash, Arrived)])
    ensures var t := Next(w, StepSweep(slot));
            && t.table == w.table - {slot} && t.callers == w.callers && t.orders == w.orders
            && Lifetime(t, slot) == Lifetime(w, slot) + 1
            && forall other :: other != slot ==> Lifetime(t, other) == Lifetime(w, other)
  {}
}
