/** Idempotency keys for booking retries (crates/lulan-api/src/idempotency.rs).

One row per (scope, key), bound to the hash of the request that reserved it. A row is pending while
its holder books and completed once the response is stored. */
module Idempotency {
  import opened Outcomes

  datatype Slot = Slot(scope: nat, key: nat)

  /** `CREATED` and the serialised order. */
  datatype Response = Response(order: nat, body: nat)

  /** Pending exactly while no response is stored. */
  datatype Row = Row(hash: nat, stored: Option<Response>)

  type Table = map<Slot, Row>

  datatype Refusal = DifferentRequest | InFlight

  datatype Reserved = Disabled | Held(slot: Slot) | Replay(response: Response)

  /** `replay_if_completed`: pending and absent rows are left for `reserve`. */
  function ReplayIfCompleted(t: Table, key: Option<nat>, scope: nat, hash: nat): Result<Option<Response>, Refusal> {
    match key
    case None => Ok(None)
    case Some(k) =>
      var slot := Slot(scope, k);
      if slot !in t || t[slot].stored.None? then Ok(None)
      else if t[slot].hash != hash then Err(DifferentRequest)
      else Ok(t[slot].stored)
  }

  /** The first statement of `reserve`, INSERT … ON CONFLICT DO NOTHING. */
  function Insert(t: Table, slot: Slot, hash: nat): (Table, bool) {
    if slot in t then (t, false) else (t[slot := Row(hash, None)], true)
  }

  /** Its second statement, when the insert lost. A row that has gone since is taken for a fresh key. */
  function Read(t: Table, slot: Slot, hash: nat): Result<Reserved, Refusal> {
    if slot !in t then Ok(Held(slot))
    else if t[slot].hash != hash then Err(DifferentRequest)
    else match t[slot].stored
         case Some(response) => Ok(Replay(response))
         case None => Err(InFlight)
  }

  /** `reserve` with nothing between its statements. */
  function Reserve(t: Table, key: Option<nat>, scope: nat, hash: nat): (Table, Result<Reserved, Refusal>) {
    match key
    case None => (t, Ok(Disabled))
    case Some(k) =>
      var (table, inserted) := Insert(t, Slot(scope, k), hash);
      (table, if inserted then Ok(Held(Slot(scope, k))) else Read(table, Slot(scope, k), hash))
  }

  /** `complete`: an update with no guard on the status. */
  function Complete(t: Table, slot: Slot, response: Response): Table {
    if slot in t then t[slot := t[slot].(stored := Some(response))] else t
  }

  /** `release`: deletes the row only while it is pending. */
  function Release(t: Table, slot: Slot): Table {
    if slot in t && t[slot].stored.None? then t - {slot} else t
  }

  // ---- runs of callers -------------------------------------------------------------------------------

  /** Where one booking request stands. A holder owns its slot's row from `reserve` until it answers;
      `Contended` is between the two statements of a reservation whose insert lost. */
  datatype Phase =
    | Arrived
    | Looked
    | Contended
    | Holding
    | Booked(order: nat)
    | Unbooked
    | Answered(answer: Answer)
    | Crashed

  /** `lifetime` counts the sweeps of the slot before the answer was stored. */
  datatype Answer =
    | Served(response: Response, lifetime: nat)
    | Refused(why: Refusal)
    | NothingBooked

  datatype Caller = Caller(slot: Slot, hash: nat, phase: Phase)

  /** An order created under a key, and how often the slot had been swept by then. */
  datatype Booking = Booking(slot: Slot, hash: nat, lifetime: nat)

  datatype World = World(table: Table, callers: seq<Caller>, orders: seq<Booking>, sweeps: map<Slot, nat>)

  /** How creating the order ended, as the caller sees it. An error may hide a commit whose answer was
      lost, and the caller gives the key back on any error. */
  datatype Creation = Committed | Failed | Unheard

  datatype Step =
    | StepArrive(slot: Slot, hash: nat)
    | StepLook(caller: nat)
    | StepInsert(caller: nat)
    | StepRead(caller: nat)
    | StepCreate(caller: nat, creation: Creation)
    | StepComplete(caller: nat, body: nat)
    | StepRelease(caller: nat)
    | StepCrash(caller: nat)
    | StepSweep(slot: Slot)

  function Lifetime(w: World, slot: Slot): nat {
    if slot in w.sweeps then w.sweeps[slot] else 0
  }

  predicate Holds(c: Caller, slot: Slot) {
    c.slot == slot && (c.phase.Holding? || c.phase.Booked? || c.phase.Unbooked?)
  }

  function SetPhase(w: World, i: nat, phase: Phase): World
    requires i < |w.callers|
  {
    w.(callers := w.callers[i := w.callers[i].(phase := phase)])
  }

  function Look(w: World, i: nat): World
    requires i < |w.callers|
  {
    var c := w.callers[i];
    if !c.phase.Arrived? then w
    else match ReplayIfCompleted(w.table, Some(c.slot.key), c.slot.scope, c.hash)
         case Err(why) => SetPhase(w, i, Answered(Refused(why)))
         case Ok(Some(response)) => SetPhase(w, i, Answered(Served(response, Lifetime(w, c.slot))))
         case Ok(None) => SetPhase(w, i, Looked)
  }

  function TryInsert(w: World, i: nat): World
    requires i < |w.callers|
  {
    var c := w.callers[i];
    if !c.phase.Looked? then w
    else
      var (table, inserted) := Insert(w.table, c.slot, c.hash);
      SetPhase(w.(table := table), i, if inserted then Holding else Contended)
  }

  function ReadRow(w: World, i: nat): World
    requires i < |w.callers|
  {
    var c := w.callers[i];
    if !c.phase.Contended? then w
    else match Read(w.table, c.slot, c.hash)
         case Err(why) => SetPhase(w, i, Answered(Refused(why)))
         case Ok(Replay(response)) => SetPhase(w, i, Answered(Served(response, Lifetime(w, c.slot))))
         case Ok(_) => SetPhase(w, i, Holding)
  }

  function WithOrder(w: World, c: Caller): World {
    w.(orders := w.orders + [Booking(c.slot, c.hash, Lifetime(w, c.slot))])
  }

  function Book(w: World, i: nat, creation: Creation): World
    requires i < |w.callers|
  {
    var c := w.callers[i];
    if !c.phase.Holding? then w
    else match creation
         case Committed => SetPhase(WithOrder(w, c), i, Booked(|w.orders|))
         case Failed => SetPhase(w, i, Unbooked)
         case Unheard => SetPhase(WithOrder(w, c), i, Unbooked)
  }

  function Finish(w: World, i: nat, body: nat): World
    requires i < |w.callers|
  {
    var c := w.callers[i];
    if !c.phase.Booked? then w
    else
      var response := Response(c.phase.order, body);
      SetPhase(w.(table := Complete(w.table, c.slot, response)), i, Answered(Served(response, Lifetime(w, c.slot))))
  }

  function GiveBack(w: World, i: nat): World
    requires i < |w.callers|
  {
    var c := w.callers[i];
    if !c.phase.Unbooked? then w
    else SetPhase(w.(table := Release(w.table, c.slot)), i, Answered(NothingBooked))
  }

  function Crash(w: World, i: nat): World
    requires i < |w.callers|
  {
    if w.callers[i].phase.Answered? then w else SetPhase(w, i, Crashed)
  }

  /** `sweep_idempotency_keys` on one row. */
  function Sweep(w: World, slot: Slot): World {
    w.(table := w.table - {slot}, sweeps := w.sweeps[slot := Lifetime(w, slot) + 1])
  }

  /** What the protocol counts on, each a fact its step could check: a swept row has no live holder, a
      row that beat an insert is still there when read, and an error reports an order never created. */
  ghost predicate Allowed(w: World, step: Step) {
    match step
    case StepSweep(slot) => forall c <- w.callers :: !Holds(c, slot)
    case StepRead(i) => i < |w.callers| && w.callers[i].phase.Contended? ==> w.callers[i].slot in w.table
    case StepCreate(i, Unheard) => !(i < |w.callers| && w.callers[i].phase.Holding?)
    case _ => true
  }

  function Next(w: World, step: Step): World {
    match step
    case StepArrive(slot, hash) => w.(callers := w.callers + [Caller(slot, hash, Arrived)])
    case StepLook(i) => if i < |w.callers| then Look(w, i) else w
    case StepInsert(i) => if i < |w.callers| then TryInsert(w, i) else w
    case StepRead(i) => if i < |w.callers| then ReadRow(w, i) else w
    case StepCreate(i, creation) => if i < |w.callers| then Book(w, i, creation) else w
    case StepComplete(i, body) => if i < |w.callers| then Finish(w, i, body) else w
    case StepRelease(i) => if i < |w.callers| then GiveBack(w, i) else w
    case StepCrash(i) => if i < |w.callers| then Crash(w, i) else w
    case StepSweep(slot) => Sweep(w, slot)
  }

  function Run(w: World, steps: seq<Step>): World
    decreases |steps|
  {
    if steps == [] then w else Run(Next(w, steps[0]), steps[1..])
  }

  ghost predicate AllAllowed(w: World, steps: seq<Step>)
    decreases |steps|
  {
    steps == [] || (Allowed(w, steps[0]) && AllAllowed(Next(w, steps[0]), steps[1..]))
  }

  const QUIET := World(map[], [], [], map[])
}
