/** The order state machine (crates/lulan-engine/src/domain/order.rs).

`Apply` is the only way a status advances, for live transitions and for replay alike. The lemmas
say what that one function promises about whole event streams. */
module OrderLifecycle {
  import opened Outcomes

  datatype OrderStatus =
    | Draft | Locked | PendingPayment | Paid | Ticketed | Boarded | Completed
    | Cancelled | Expired | Refunded

  datatype EventType =
    | OrderCreated | InventoryLocked | PaymentRequested | PaymentCaptured | PaymentFailed
    | OrderCancelled | OrderExpired | TicketIssued | PassengerBoarded | TripCompleted
    | OrderRefunded

  datatype TransitionError =
    | Illegal(state: OrderStatus, event: EventType)
    | NotInitial(event: EventType)
    | AlreadyCreated(state: OrderStatus)

  function Apply(state: Option<OrderStatus>, event: EventType): Result<OrderStatus, TransitionError> {
    match state
    case None => if event.OrderCreated? then Ok(Draft) else Err(NotInitial(event))
    case Some(s) =>
      match (s, event)
      case (_, OrderCreated) => Err(AlreadyCreated(s))
      case (Draft, InventoryLocked) => Ok(Locked)
      case (Locked, PaymentRequested) => Ok(PendingPayment)
      case (PendingPayment, PaymentCaptured) => Ok(Paid)
      case (PendingPayment, PaymentFailed) => Ok(Locked)
      case (Locked, OrderCancelled) => Ok(Cancelled)
      case (PendingPayment, OrderCancelled) => Ok(Cancelled)
      case (Locked, OrderExpired) => Ok(Expired)
      case (PendingPayment, OrderExpired) => Ok(Expired)
      case (Paid, TicketIssued) => Ok(Ticketed)
      case (Ticketed, PassengerBoarded) => Ok(Boarded)
      case (Boarded, TripCompleted) => Ok(Completed)
      case (Paid, OrderRefunded) => Ok(Refunded)
      case (Ticketed, OrderRefunded) => Ok(Refunded)
      case _ => Err(Illegal(s, event))
  }

  /** Every legal move, event by event: where it may start and where it leads. */
  lemma MovesAre(s: OrderStatus)
    ensures Apply(Some(s), InventoryLocked) == Ok(Locked) <==> s.Draft?
    ensures Apply(Some(s), PaymentRequested) == Ok(PendingPayment) <==> s.Locked?
    ensures Apply(Some(s), PaymentCaptured) == Ok(Paid) <==> s.PendingPayment?
    ensures Apply(Some(s), PaymentFailed) == Ok(Locked) <==> s.PendingPayment?
    ensures Apply(Some(s), OrderCancelled) == Ok(Cancelled) <==> s.Locked? || s.PendingPayment?
    ensures Apply(Some(s), OrderExpired) == Ok(Expired) <==> s.Locked? || s.PendingPayment?
    ensures Apply(Some(s), TicketIssued) == Ok(Ticketed) <==> s.Paid?
    ensures Apply(Some(s), PassengerBoarded) == Ok(Boarded) <==> s.Ticketed?
    ensures Apply(Some(s), TripCompleted) == Ok(Completed) <==> s.Boarded?
    ensures Apply(Some(s), OrderRefunded) == Ok(Refunded) <==> s.Paid? || s.Ticketed?
  {}

  /** Nothing moves an order that is completed, cancelled, expired or refunded, nothing creates one twice, and
      each event leads to one status wherever it starts; a refusal names what was wrong. */
  lemma RefusalsAre(s: OrderStatus, e: EventType, other: OrderStatus)
    ensures s.Completed? || s.Cancelled? || s.Expired? || s.Refunded? ==> Apply(Some(s), e).Err?
    ensures Apply(Some(s), e).Err? ==>
              Apply(Some(s), e).error == if e.OrderCreated? then AlreadyCreated(s) else Illegal(s, e)
    ensures Apply(Some(s), e).Ok? && Apply(Some(other), e).Ok? ==> Apply(Some(s), e) == Apply(Some(other), e)
    ensures Apply(None, e) == if e.OrderCreated? then Ok(Draft) else Err(NotInitial(e))
  {}

  // ---- stored names --------------------------------------------------------------------------

  function StatusName(s: OrderStatus): string {
    match s
    case Draft => "draft"
    case Locked => "locked"
    case PendingPayment => "pending_payment"
    case Paid => "paid"
    case Ticketed => "ticketed"
    case Boarded => "boarded"
    case Completed => "completed"
    case Cancelled => "cancelled"
    case Expired => "expired"
    case Refunded => "refunded"
  }

  function ParseStatus(name: string): Option<OrderStatus> {
    match name
    case "draft" => Some(Draft)
    case "locked" => Some(Locked)
    case "pending_payment" => Some(PendingPayment)
    case "paid" => Some(Paid)
    case "ticketed" => Some(Ticketed)
    case "boarded" => Some(Boarded)
    case "completed" => Some(Completed)
    case "cancelled" => Some(Cancelled)
    case "expired" => Some(Expired)
    case "refunded" => Some(Refunded)
    case _ => None
  }

  function EventName(e: EventType): string {
    match e
    case OrderCreated => "order_created"
    case InventoryLocked => "inventory_locked"
    case PaymentRequested => "payment_requested"
    case PaymentCaptured => "payment_captured"
    case PaymentFailed => "payment_failed"
    case OrderCancelled => "order_cancelled"
    case OrderExpired => "order_expired"
    case TicketIssued => "ticket_issued"
    case PassengerBoarded => "passenger_boarded"
    case TripCompleted => "trip_completed"
    case OrderRefunded => "order_refunded"
  }

  function ParseEvent(name: string): Option<EventType> {
    match name
    case "order_created" => Some(OrderCreated)
    case "inventory_locked" => Some(InventoryLocked)
    case "payment_requested" => Some(PaymentRequested)
    case "payment_captured" => Some(PaymentCaptured)
    case "payment_failed" => Some(PaymentFailed)
    case "order_cancelled" => Some(OrderCancelled)
    case "order_expired" => Some(OrderExpired)
    case "ticket_issued" => Some(TicketIssued)
    case "passenger_boarded" => Some(PassengerBoarded)
    case "trip_completed" => Some(TripCompleted)
    case "order_refunded" => Some(OrderRefunded)
    case _ => None
  }

  /** Parsing is the exact inverse of naming: no other string parses. */
  lemma StatusNamesRoundTrip(s: OrderStatus, name: string)
    ensures ParseStatus(name) == Some(s) <==> name == StatusName(s)
  {}

  lemma EventNamesRoundTrip(e: EventType, name: string)
    ensures ParseEvent(name) == Some(e) <==> name == EventName(e)
  {}

  // ---- streams -------------------------------------------------------------------------------

  /** Replay: fold a stream through `Apply`, stopping at the first illegal event. */
  function Fold(state: Option<OrderStatus>, events: seq<EventType>): Result<Option<OrderStatus>, TransitionError>
    decreases |events|
  {
    if events == [] then Ok(state)
    else match Apply(state, events[0])
         case Ok(next) => Fold(Some(next), events[1..])
         case Err(e) => Err(e)
  }

  lemma {:induction false} FoldAppend(state: Option<OrderStatus>, events: seq<EventType>, event: EventType)
    ensures Fold(state, events).Err? ==> Fold(state, events + [event]).Err?
    ensures Fold(state, events).Ok? ==>
              Fold(state, events + [event]) ==
              match Apply(Fold(state, events).value, event)
              case Ok(next) => Ok(Some(next))
              case Err(e) => Err(e)
    decreases |events|
  {
    var longer := events + [event];
    if events == [] {
      assert longer[1..] == [];
    } else {
      assert longer[1..] == events[1..] + [event];
      var step := Apply(state, events[0]);
      if step.Ok? {
        FoldAppend(Some(step.value), events[1..], event);
      }
    }
  }

  /** Statuses in which an order's inventory claims are in the ledger. */
  predicate HoldsClaims(s: OrderStatus) {
    s.Locked? || s.PendingPayment? || s.Paid? || s.Ticketed? || s.Boarded? || s.Completed?
  }

  /** Statuses only a captured payment can reach. */
  predicate WasCaptured(s: OrderStatus) {
    s.Paid? || s.Ticketed? || s.Boarded? || s.Completed? || s.Refunded?
  }

  predicate Leaves(e: EventType) {
    e.OrderCancelled? || e.OrderExpired? || e.OrderRefunded?
  }

  /** Past creation, the events that give claims back are exactly the three that leave. */
  lemma LeavingReleases(s: OrderStatus, e: EventType)
    requires !s.Draft? && Apply(Some(s), e).Ok?
    ensures HoldsClaims(s)
    ensures HoldsClaims(Apply(Some(s), e).value) <==> !Leaves(e)
  {}

  predicate PastCapture(state: Option<OrderStatus>) {
    state.Some? && WasCaptured(state.value)
  }

  function Captures(events: seq<EventType>): nat {
    if events == [] then 0
    else (if events[0].PaymentCaptured? then 1 else 0) + Captures(events[1..])
  }

  /** From a captured order on: no second capture, and never cancelled or expired. */
  lemma {:induction false} CapturedStaysCaptured(s: OrderStatus, events: seq<EventType>)
    requires WasCaptured(s) && Fold(Some(s), events).Ok?
    ensures PastCapture(Fold(Some(s), events).value)
    ensures Captures(events) == 0
    ensures OrderCancelled !in events && OrderExpired !in events
    decreases |events|
  {
    if events != [] {
      CapturedStaysCaptured(Apply(Some(s), events[0]).value, events[1..]);
    }
  }

  /** A legal stream carries at most one capture, and carries one exactly when its final status
      is one that only a capture can reach. */
  lemma {:induction false} CapturedAtMostOnce(state: Option<OrderStatus>, events: seq<EventType>)
    requires !PastCapture(state) && Fold(state, events).Ok?
    ensures Captures(events) == if PastCapture(Fold(state, events).value) then 1 else 0
    decreases |events|
  {
    if events != [] {
      var next := Apply(state, events[0]).value;
      if WasCaptured(next) {
        CapturedStaysCaptured(next, events[1..]);
      } else {
        CapturedAtMostOnce(Some(next), events[1..]);
      }
    }
  }

  // ---- the shape of a paid stream --------------------------------------------------------------

  /** A created order after `n` declined payment attempts. */
  function Attempts(n: nat): seq<EventType> {
    if n == 0 then [OrderCreated, InventoryLocked]
    else Attempts(n - 1) + [PaymentRequested, PaymentFailed]
  }

  lemma FoldTwo(state: Option<OrderStatus>, events: seq<EventType>, a: EventType, b: EventType)
    requires Fold(state, events).Ok?
    requires Apply(Fold(state, events).value, a).Ok?
    requires Apply(Some(Apply(Fold(state, events).value, a).value), b).Ok?
    ensures Fold(state, events + [a, b]) == Ok(Some(Apply(Some(Apply(Fold(state, events).value, a).value), b).value))
  {
    FoldAppend(state, events, a);
    FoldAppend(state, events + [a], b);
    assert events + [a, b] == events + [a] + [b];
  }

  lemma {:induction false} AttemptsAreLocked(n: nat)
    ensures Fold(None, Attempts(n)) == Ok(Some(Locked))
  {
    if n == 0 {
      FoldTwo(None, [], OrderCreated, InventoryLocked);
      assert [] + [OrderCreated, InventoryLocked] == Attempts(0);
    } else {
      AttemptsAreLocked(n - 1);
      FoldTwo(None, Attempts(n - 1), PaymentRequested, PaymentFailed);
    }
  }

  lemma {:induction false} AttemptCount(events: seq<EventType>) returns (n: nat)
    requires Fold(None, events).Ok?
    ensures Fold(None, events).value == Some(Locked) ==> events == Attempts(n)
    ensures Fold(None, events).value == Some(PendingPayment) ==> events == Attempts(n) + [PaymentRequested]
    ensures Fold(None, events).value == Some(Draft) ==> events == [OrderCreated]
    ensures Fold(None, events).value == None ==> events == []
    decreases |events|
  {
    n := 0;
    if events != [] {
      var last := events[|events| - 1];
      var prefix := events[..|events| - 1];
      assert events == prefix + [last];
      FoldAppend(None, prefix, last);
      n := AttemptCount(prefix);
      if last.InventoryLocked? {
        n := 0;
      } else if last.PaymentFailed? {
        assert events == Attempts(n) + [PaymentRequested, PaymentFailed];
        n := n + 1;
      }
    }
  }

  /** A stream replays to Paid exactly when it is creation, some declined attempts, one more
      request and its capture. */
  lemma PaidStreams(events: seq<EventType>)
    ensures Fold(None, events) == Ok(Some(Paid)) <==>
            exists n: nat :: events == Attempts(n) + [PaymentRequested, PaymentCaptured]
  {
    if Fold(None, events) == Ok(Some(Paid)) {
      var last := events[|events| - 1];
      var prefix := events[..|events| - 1];
      assert events == prefix + [last];
      FoldAppend(None, prefix, last);
      var n := AttemptCount(prefix);
      assert events == Attempts(n) + [PaymentRequested, PaymentCaptured];
    }
    forall n: nat | events == Attempts(n) + [PaymentRequested, PaymentCaptured]
      ensures Fold(None, events) == Ok(Some(Paid))
    {
      AttemptsAreLocked(n);
      FoldTwo(None, Attempts(n), PaymentRequested, PaymentCaptured);
    }
  }
}
