/** Event streams over whole runs: replaying any order's stored stream reproduces its status,
streams are numbered 1..n, every event has exactly one outbox row, and a captured payment is
final until a refund. */
module StreamSafety {
  import opened Outcomes
  import opened OrderLifecycle
  import opened Ledger
  import opened Booking

  ghost predicate Numbered(events: seq<StoredEvent>) {
    forall k :: 0 <= k < |events| ==> events[k].streamSeq == k + 1
  }

  ghost predicate Replays(log: seq<StoredEvent>, id: nat, status: OrderStatus) {
    && Numbered(StreamOf(log, id))
    && Fold(None, Kinds(StreamOf(log, id))) == Ok(Some(status))
  }

  ghost predicate OneOutboxRowEach(s: State) {
    |s.outbox| == |s.log| && forall i :: 0 <= i < |s.log| ==> s.outbox[i] == i
  }

  ghost predicate KnownStreams(log: seq<StoredEvent>, orders: nat) {
    forall e <- log :: e.stream < orders
  }

  ghost predicate StreamsOk(s: State) {
    && KnownStreams(s.log, |s.orders|)
    && OneOutboxRowEach(s)
    && forall id: nat :: id < |s.orders| ==> Replays(s.log, id, s.orders[id].status)
  }

  lemma AppendedStream(log: seq<StoredEvent>, event: StoredEvent, id: nat)
    ensures StreamOf(log + [event], id) == StreamOf(log, id) + if event.stream == id then [event] else []
  {
    assert (log + [event])[..|log|] == log;
  }

  /** `max(stream_seq)` of a well-numbered stream is its length. */
  lemma {:induction false} LastSeqIsLength(log: seq<StoredEvent>, id: nat)
    requires Numbered(StreamOf(log, id))
    ensures LastSeq(log, id) == |StreamOf(log, id)|
    decreases |log|
  {
    if log != [] {
      var prefix := log[..|log| - 1];
      var before := StreamOf(prefix, id);
      assert forall k :: 0 <= k < |before| ==> StreamOf(log, id)[k] == before[k];
      LastSeqIsLength(prefix, id);
      if log[|log| - 1].stream == id {
        assert StreamOf(log, id)[|before|] == log[|log| - 1];
      }
    }
  }

  lemma {:induction false} UnknownStreamIsEmpty(log: seq<StoredEvent>, orders: nat, id: nat)
    requires KnownStreams(log, orders) && id >= orders
    ensures StreamOf(log, id) == []
    decreases |log|
  {
    if log != [] {
      var prefix := log[..|log| - 1];
      assert log[|log| - 1] in log;
      forall e | e in prefix
        ensures e.stream < orders
      {
        assert e in log;
      }
      UnknownStreamIsEmpty(prefix, orders, id);
    }
  }

  lemma AppendNumbers(s: State, id: nat, kind: EventType)
    requires Numbered(StreamOf(s.log, id))
    ensures Numbered(StreamOf(Append(s, id, kind).log, id))
  {
    var event := StoredEvent(id, LastSeq(s.log, id) + 1, kind);
    LastSeqIsLength(s.log, id);
    AppendedStream(s.log, event, id);
  }

  lemma KindsOfLast(events: seq<StoredEvent>, event: StoredEvent)
    ensures Kinds(events + [event]) == Kinds(events) + [event.kind]
  {}

  lemma AppendExtends(s: State, id: nat, kind: EventType)
    ensures Kinds(StreamOf(Append(s, id, kind).log, id)) == Kinds(StreamOf(s.log, id)) + [kind]
  {
    var event := StoredEvent(id, LastSeq(s.log, id) + 1, kind);
    AppendedStream(s.log, event, id);
    KindsOfLast(StreamOf(s.log, id), event);
  }

  lemma AppendSpares(s: State, id: nat, kind: EventType, other: nat)
    requires other != id
    ensures StreamOf(Append(s, id, kind).log, other) == StreamOf(s.log, other)
  {
    AppendedStream(s.log, StoredEvent(id, LastSeq(s.log, id) + 1, kind), other);
  }

  /** Appending `kind` to stream `id` extends that stream by one well-numbered event and leaves
      every other stream alone. */
  lemma AppendEffect(s: State, id: nat, kind: EventType, other: nat)
    requires Numbered(StreamOf(s.log, id))
    ensures Numbered(StreamOf(Append(s, id, kind).log, id))
    ensures Kinds(StreamOf(Append(s, id, kind).log, id)) == Kinds(StreamOf(s.log, id)) + [kind]
    ensures other != id ==> StreamOf(Append(s, id, kind).log, other) == StreamOf(s.log, other)
  {
    AppendNumbers(s, id, kind);
    AppendExtends(s, id, kind);
    if other != id {
      AppendSpares(s, id, kind, other);
    }
  }

  lemma AppendKeepsOutbox(s: State, id: nat, kind: EventType)
    requires OneOutboxRowEach(s)
    ensures OneOutboxRowEach(Append(s, id, kind))
  {}

  /** The general step: `t` moves order `id` along `kind`, and appends exactly that event. */
  lemma MoveKeepsStreams(s: State, t: State, id: nat, kind: EventType)
    requires StreamsOk(s) && id < |s.orders| == |t.orders|
    requires t.log == Append(s, id, kind).log && t.outbox == Append(s, id, kind).outbox
    requires Apply(Some(s.orders[id].status), kind) == Ok(t.orders[id].status)
    requires forall i :: 0 <= i < |s.orders| && i != id ==> t.orders[i].status == s.orders[i].status
    ensures StreamsOk(t)
  {
    AppendKeepsOutbox(s, id, kind);
    forall i: nat | i < |t.orders|
      ensures Replays(t.log, i, t.orders[i].status)
    {
      assert Replays(s.log, i, s.orders[i].status);
      assert Replays(s.log, id, s.orders[id].status);
      AppendEffect(s, id, kind, i);
      FoldAppend(None, Kinds(StreamOf(s.log, id)), kind);
    }
  }

  lemma EventKeepsStreams(s: State, id: nat, event: EventType)
    requires StreamsOk(s)
    ensures StreamsOk(ApplyEvent(s, id, event).0)
  {
    if id < |s.orders| && Apply(Some(s.orders[id].status), event).Ok? {
      MoveKeepsStreams(s, ApplyEvent(s, id, event).0, id, event);
    }
  }

  ghost predicate SameStreams(s: State, t: State) {
    && t.log == s.log && t.outbox == s.outbox && |t.orders| == |s.orders|
    && forall i :: 0 <= i < |s.orders| ==> t.orders[i].status == s.orders[i].status
  }

  lemma SameStreamsKeep(s: State, t: State)
    requires StreamsOk(s) && SameStreams(s, t)
    ensures StreamsOk(t)
  {
    forall i: nat | i < |t.orders|
      ensures Replays(t.log, i, t.orders[i].status)
    {
      assert Replays(s.log, i, s.orders[i].status);
    }
  }

  lemma NewStreamReplays(s: State)
    requires StreamsOk(s)
    ensures var id := |s.orders|;
            Replays(Append(Append(s, id, OrderCreated), id, InventoryLocked).log, id, Locked)
  {
    var id := |s.orders|;
    var first := Append(s, id, OrderCreated);
    UnknownStreamIsEmpty(s.log, id, id);
    AppendEffect(s, id, OrderCreated, id);
    AppendEffect(first, id, InventoryLocked, id);
    FoldTwo(None, [], OrderCreated, InventoryLocked);
    assert Kinds(StreamOf(first.log, id)) == [] + [OrderCreated];
    assert Kinds(StreamOf(Append(first, id, InventoryLocked).log, id)) == [] + [OrderCreated, InventoryLocked];
  }

  lemma PlacedLog(s: State, row: Order, occ: Occupancy)
    ensures Place(s, row, occ).log == Append(Append(s, |s.orders|, OrderCreated), |s.orders|, InventoryLocked).log
    ensures Place(s, row, occ).outbox == Append(Append(s, |s.orders|, OrderCreated), |s.orders|, InventoryLocked).outbox
    ensures Place(s, row, occ).orders == s.orders + [row]
  {}

  lemma OldStreamReplays(s: State, i: nat)
    requires StreamsOk(s) && i < |s.orders|
    ensures var id := |s.orders|;
            Replays(Append(Append(s, id, OrderCreated), id, InventoryLocked).log, i, s.orders[i].status)
  {
    var id := |s.orders|;
    assert Replays(s.log, i, s.orders[i].status);
    AppendSpares(s, id, OrderCreated, i);
    AppendSpares(Append(s, id, OrderCreated), id, InventoryLocked, i);
  }

  lemma PlaceKeepsStreams(s: State, row: Order, occ: Occupancy)
    requires StreamsOk(s) && row.status == Locked
    ensures StreamsOk(Place(s, row, occ))
  {
    var id := |s.orders|;
    var t := Place(s, row, occ);
    PlacedLog(s, row, occ);
    NewStreamReplays(s);
    AppendKeepsOutbox(s, id, OrderCreated);
    AppendKeepsOutbox(Append(s, id, OrderCreated), id, InventoryLocked);
    forall i: nat | i < |t.orders|
      ensures Replays(t.log, i, t.orders[i].status)
    {
      if i < id {
        OldStreamReplays(s, i);
      }
    }
  }

  lemma CreateKeepsStreams(s: State, order: NewOrder)
    requires StreamsOk(s)
    ensures StreamsOk(Create(s, order).0)
  {
    if Create(s, order).1.Created? {
      PlaceKeepsStreams(s, Placed(order), ClaimAll(s.occ, AllWanted(order.items)).value);
    }
  }

  lemma LeaveKeepsStreams(s: State, id: nat, event: EventType)
    requires StreamsOk(s)
    ensures StreamsOk(Leave(s, id, event).0)
  {
    EventKeepsStreams(s, id, event);
    SameStreamsKeep(ApplyEvent(s, id, event).0, Leave(s, id, event).0);
  }

  lemma PaymentKeepsStreams(s: State, id: nat, intent: nat, succeeded: bool)
    requires StreamsOk(s)
    ensures StreamsOk(RequestPayment(s, id, intent).0)
    ensures StreamsOk(SettlePayment(s, id, succeeded).0)
  {
    EventKeepsStreams(s, id, PaymentRequested);
    SameStreamsKeep(ApplyEvent(s, id, PaymentRequested).0, RequestPayment(s, id, intent).0);
    EventKeepsStreams(s, id, PaymentEvent(succeeded));
    SameStreamsKeep(ApplyEvent(s, id, PaymentEvent(succeeded)).0, SettlePayment(s, id, succeeded).0);
  }

  lemma IssueKeepsStreams(s: State, id: nat)
    requires StreamsOk(s)
    ensures StreamsOk(Issue(s, id).0)
  {
    if Issue(s, id).1.IssuedNow? {
      MoveKeepsStreams(s, Issue(s, id).0, id, TicketIssued);
    }
  }

  lemma ScanKeepsStreams(s: State, scan: ScanKey)
    requires StreamsOk(s)
    ensures StreamsOk(RecordScan(s, scan).0)
  {
    if scan.ticket < |s.tickets| {
      var ticket := s.tickets[scan.ticket];
      var boarded := s.(scans := s.scans + {scan},
                        tickets := s.tickets[scan.ticket := ticket.(status := TicketStatus.Boarded)]);
      SameStreamsKeep(s, boarded);
      EventKeepsStreams(boarded, ticket.order, PassengerBoarded);
      SameStreamsKeep(s, s.(scans := s.scans + {scan}));
    }
  }

  lemma StepKeepsStreams(s: State, step: Step)
    requires StreamsOk(s)
    ensures StreamsOk(Next(s, step))
  {
    match step
    case StepCreate(order) => CreateKeepsStreams(s, order);
    case StepDirectClaim(c) => SameStreamsKeep(s, Next(s, step));
    case StepRequestPayment(id, intent) => PaymentKeepsStreams(s, id, intent, true);
    case StepPayment(id, succeeded) => PaymentKeepsStreams(s, id, 0, succeeded);
    case StepCancel(id) => LeaveKeepsStreams(s, id, OrderCancelled);
    case StepExpire(id) => LeaveKeepsStreams(s, id, OrderExpired);
    case StepRefund(id) =>
      LeaveKeepsStreams(s, id, OrderRefunded);
      SameStreamsKeep(Leave(s, id, OrderRefunded).0, Next(s, step));
    case StepIssue(id) => IssueKeepsStreams(s, id);
    case StepScan(scan) => ScanKeepsStreams(s, scan);
    case StepCancelTrip(trip) => SameStreamsKeep(s, Next(s, step));
  }

  lemma {:induction false} RunKeepsStreams(s: State, steps: seq<Step>)
    requires StreamsOk(s)
    ensures StreamsOk(Run(s, steps))
    decreases |steps|
  {
    if steps != [] {
      StepKeepsStreams(s, steps[0]);
      RunKeepsStreams(Next(s, steps[0]), steps[1..]);
    }
  }

  /** After every run, folding any order's stream never errs and gives its read-model status, the
      stream is numbered 1..n, the outbox holds each event exactly once, and the stream carries one
      capture exactly when the status is one only a capture reaches. */
  lemma EveryRunReplays(s: State, steps: seq<Step>, id: nat)
    requires Initial(s)
    ensures var t := Run(s, steps);
            && OneOutboxRowEach(t)
            && (id < |t.orders| ==>
                  && Replays(t.log, id, t.orders[id].status)
                  && Captures(Kinds(StreamOf(t.log, id))) == if WasCaptured(t.orders[id].status) then 1 else 0)
  {
    var t := Run(s, steps);
    RunKeepsStreams(s, steps);
    if id < |t.orders| {
      assert Replays(t.log, id, t.orders[id].status);
      CapturedAtMostOnce(None, Kinds(StreamOf(t.log, id)));
    }
  }

  // ---- what never changes ----------------------------------------------------------------------------

  /** An order keeps its items and its total for ever; once captured it stays captured, so it is
      never cancelled or expired, keeps its payment intent, and holds its claims until a refund. */
  ghost predicate Evolves(before: Order, after: Order) {
    && after.items == before.items
    && after.total == before.total
    && (WasCaptured(before.status) ==>
          && WasCaptured(after.status)
          && after.intent == before.intent
          && (HoldsClaims(after.status) || after.status.Refunded?))
    && (before.status.Refunded? ==> after.status.Refunded?)
  }

  ghost predicate AllEvolve(s: State, t: State) {
    |s.orders| <= |t.orders| && forall i :: 0 <= i < |s.orders| ==> Evolves(s.orders[i], t.orders[i])
  }

  lemma EventEvolves(s: State, id: nat, event: EventType)
    ensures AllEvolve(s, ApplyEvent(s, id, event).0)
  {}

  lemma PaymentEvolves(s: State, id: nat, intent: nat, succeeded: bool)
    ensures AllEvolve(s, RequestPayment(s, id, intent).0)
    ensures AllEvolve(s, SettlePayment(s, id, succeeded).0)
  {
    EventEvolves(s, id, PaymentRequested);
    EventEvolves(s, id, PaymentEvent(succeeded));
  }

  lemma LeaveEvolves(s: State, id: nat, event: EventType)
    ensures AllEvolve(s, Leave(s, id, event).0)
  {
    EventEvolves(s, id, event);
  }

  lemma StepEvolves(s: State, step: Step)
    ensures AllEvolve(s, Next(s, step))
  {
    match step
    case StepRequestPayment(id, intent) => PaymentEvolves(s, id, intent, true);
    case StepPayment(id, succeeded) => PaymentEvolves(s, id, 0, succeeded);
    case StepCancel(id) => LeaveEvolves(s, id, OrderCancelled);
    case StepExpire(id) => LeaveEvolves(s, id, OrderExpired);
    case StepRefund(id) => LeaveEvolves(s, id, OrderRefunded);
    case StepScan(scan) => ScanEvolves(s, scan);
    case StepCreate(order) => CreateEvolves(s, order);
    case StepIssue(id) => IssueEvolves(s, id);
    case StepDirectClaim(_) =>
    case StepCancelTrip(_) =>
  }

  lemma CreateEvolves(s: State, order: NewOrder)
    ensures AllEvolve(s, Create(s, order).0)
  {
    if Create(s, order).1.Created? {
      PlacedLog(s, Placed(order), ClaimAll(s.occ, AllWanted(order.items)).value);
    }
  }

  lemma IssueEvolves(s: State, id: nat)
    ensures AllEvolve(s, Issue(s, id).0)
  {}

  lemma ScanEvolves(s: State, scan: ScanKey)
    ensures AllEvolve(s, RecordScan(s, scan).0)
  {
    if scan.ticket < |s.tickets| {
      var ticket := s.tickets[scan.ticket];
      var boarded := s.(scans := s.scans + {scan},
                        tickets := s.tickets[scan.ticket := ticket.(status := TicketStatus.Boarded)]);
      EventEvolves(boarded, ticket.order, PassengerBoarded);
    }
  }

  /** Under any steps, stale or duplicated callbacks and expiries included. */
  lemma {:induction false} RunEvolves(s: State, steps: seq<Step>)
    ensures AllEvolve(s, Run(s, steps))
    decreases |steps|
  {
    if steps != [] {
      StepEvolves(s, steps[0]);
      RunEvolves(Next(s, steps[0]), steps[1..]);
    }
  }

  /** A duplicated, late or contradictory callback, cancel or expiry on a captured order changes
      nothing at all. */
  lemma CapturedIgnores(s: State, id: nat, succeeded: bool)
    requires id < |s.orders| && WasCaptured(s.orders[id].status)
    ensures SettlePayment(s, id, succeeded) == (s, NoOp(s.orders[id].status))
    ensures Cancel(s, id) == (s, NoOp(s.orders[id].status))
    ensures Expire(s, id) == (s, NoOp(s.orders[id].status))
  {}
}
