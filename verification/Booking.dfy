/** The order engine on values: every transaction of orders/mod.rs, ticket/mod.rs and the direct
claims of store.rs, as a function from one committed state to the next.

Tables are sequences, so an order or ticket id is its position; nothing depends on ids beyond
their being fresh. One function is one database transaction. */
module Booking {
  import opened Outcomes
  import opened Segments
  import opened OrderLifecycle
  import opened Ledger

  const ORDER_TTL_MS: int := 15 * 60 * 1000

  /** One row of order_items; `admission` is the pool's flag, `claim.qty` the stored quantity. */
  datatype Item = Item(claim: Claim, price: int, admission: bool, passenger: Option<nat>)

  datatype Order = Order(
    status: OrderStatus,
    items: seq<Item>,
    total: int,
    intent: Option<nat>,
    expiresAt: Option<int>)

  datatype StoredEvent = StoredEvent(stream: nat, streamSeq: nat, kind: EventType)

  datatype TicketStatus = Issued | Boarded | Void

  datatype Ticket = Ticket(order: nat, item: nat, status: TicketStatus)

  datatype ScanKey = ScanKey(ticket: nat, device: nat, scannedAt: int)

  /** `outbox` lists positions in `log`; `direct` records the claims made outside any order. */
  datatype State = State(
    occ: Occupancy,
    orders: seq<Order>,
    log: seq<StoredEvent>,
    outbox: seq<nat>,
    tickets: seq<Ticket>,
    scans: set<ScanKey>,
    cancelledTrips: set<nat>,
    direct: seq<Claim>)

  // ---- events (events/mod.rs) ----------------------------------------------------------------

  /** `coalesce(max(stream_seq), 0)`. */
  function LastSeq(log: seq<StoredEvent>, id: nat): nat {
    if log == [] then 0
    else
      var last := log[|log| - 1];
      var before := LastSeq(log[..|log| - 1], id);
      if last.stream == id && last.streamSeq > before then last.streamSeq else before
  }

  function Append(s: State, id: nat, kind: EventType): State {
    s.(log := s.log + [StoredEvent(id, LastSeq(s.log, id) + 1, kind)],
       outbox := s.outbox + [|s.log|])
  }

  /** The events of one stream, in log order. */
  function StreamOf(log: seq<StoredEvent>, id: nat): seq<StoredEvent> {
    if log == [] then []
    else
      var last := log[|log| - 1];
      StreamOf(log[..|log| - 1], id) + (if last.stream == id then [last] else [])
  }

  function Kinds(events: seq<StoredEvent>): (kinds: seq<EventType>)
    ensures |kinds| == |events|
  {
    seq(|events|, i requires 0 <= i < |events| => events[i].kind)
  }

  // ---- transitions (orders/mod.rs) -----------------------------------------------------------

  datatype TransitionOutcome = Applied(status: OrderStatus) | NoOp(current: OrderStatus) | NotFound

  /** `apply_event_locked`. */
  function ApplyEvent(s: State, id: nat, event: EventType): (State, TransitionOutcome) {
    if id >= |s.orders| then (s, NotFound)
    else
      var order := s.orders[id];
      match Apply(Some(order.status), event)
      case Err(_) => (s, NoOp(order.status))
      case Ok(next) =>
        (Append(s.(orders := s.orders[id := order.(status := next)]), id, event), Applied(next))
  }

  function RequestPayment(s: State, id: nat, intent: nat): (State, TransitionOutcome) {
    var (t, outcome) := ApplyEvent(s, id, PaymentRequested);
    if outcome.Applied? then
      (t.(orders := t.orders[id := t.orders[id].(intent := Some(intent))]), outcome)
    else (t, outcome)
  }

  function PaymentEvent(succeeded: bool): EventType {
    if succeeded then PaymentCaptured else PaymentFailed
  }

  /** The transaction of `apply_payment_result`, once the order has been looked up. */
  function SettlePayment(s: State, id: nat, succeeded: bool): (State, TransitionOutcome) {
    var (t, outcome) := ApplyEvent(s, id, PaymentEvent(succeeded));
    if outcome == Applied(Paid) then
      (t.(orders := t.orders[id := t.orders[id].(expiresAt := None)]), outcome)
    else (t, outcome)
  }

  /** `SELECT id FROM orders WHERE payment_intent_id = $1`. */
  function FindByIntent(orders: seq<Order>, intent: nat): Option<nat> {
    if orders == [] then None
    else match FindByIntent(orders[..|orders| - 1], intent)
         case Some(id) => Some(id)
         case None =>
           if orders[|orders| - 1].intent == Some(intent) then Some(|orders| - 1) else None
  }

  function PaymentResult(s: State, intent: nat, succeeded: bool): (State, TransitionOutcome) {
    match FindByIntent(s.orders, intent)
    case None => (s, NotFound)
    case Some(id) => SettlePayment(s, id, succeeded)
  }

  function ClaimsOf(items: seq<Item>): (claims: seq<Claim>)
    ensures |claims| == |items|
  {
    seq(|items|, i requires 0 <= i < |items| => items[i].claim)
  }

  /** `release_order_items`, together with the failures it would only log. */
  function ReleaseItems(s: State, id: nat): Released
    requires id < |s.orders|
  {
    ReleaseAll(s.occ, ClaimsOf(s.orders[id].items))
  }

  /** Cancel and expire: move the status, then give every claim back. */
  function Leave(s: State, id: nat, event: EventType): (State, TransitionOutcome) {
    var (t, outcome) := ApplyEvent(s, id, event);
    if outcome.Applied? then (t.(occ := ReleaseItems(t, id).occ), outcome) else (t, outcome)
  }

  function Cancel(s: State, id: nat): (State, TransitionOutcome) {
    Leave(s, id, OrderCancelled)
  }

  /** One iteration of `expire_due`: the id comes from a list read earlier. */
  function Expire(s: State, id: nat): (State, TransitionOutcome) {
    Leave(s, id, OrderExpired)
  }

  function VoidTickets(tickets: seq<Ticket>, id: nat): (voided: seq<Ticket>)
    ensures |voided| == |tickets|
    ensures forall i :: 0 <= i < |tickets| ==>
              voided[i] == if tickets[i].order == id then tickets[i].(status := Void) else tickets[i]
  {
    seq(|tickets|, i requires 0 <= i < |tickets| =>
      if tickets[i].order == id then tickets[i].(status := Void) else tickets[i])
  }

  function Refund(s: State, id: nat): (State, TransitionOutcome) {
    var (t, outcome) := Leave(s, id, OrderRefunded);
    if outcome.Applied? then (t.(tickets := VoidTickets(t.tickets, id)), outcome) else (t, outcome)
  }

  // ---- creation --------------------------------------------------------------------------------

  /** What `resolve_target` answered for one requested item, before the transaction opens. */
  datatype Resolution =
    | Target(row: Row, span: Span, admission: bool)
    | Missing
    | Unsellable

  datatype NewItem = NewItem(target: Resolution, quantity: int, price: int, passenger: Option<nat>)

  datatype NewAncillary = NewAncillary(passenger: Option<nat>, total: int)

  datatype NewOrder = NewOrder(passengers: nat, items: seq<NewItem>, ancillaries: seq<NewAncillary>, now: int)

  datatype Rejection =
    | NoPassengers
    | NoItems
    | UnknownTarget(item: nat)
    | TargetRefused(item: nat)
    | SeatNeedsPassenger(item: nat)
    | PassengerOutOfRange(index: nat)
    | PoolWithPassenger(item: nat)

  datatype CreateOutcome = Created(id: nat) | Conflict(item: nat) | Rejected(why: Rejection)

  function CheckTargets(items: seq<NewItem>, k: nat): Option<Rejection>
    requires k <= |items|
    decreases |items| - k
  {
    if k == |items| then None
    else match items[k].target
         case Missing => Some(UnknownTarget(k))
         case Unsellable => Some(TargetRefused(k))
         case Target(_, _, _) => CheckTargets(items, k + 1)
  }

  /** The passenger a resolved item belongs to: seats to exactly one, pools to none. */
  function Slot(item: NewItem, k: nat, passengers: nat): Result<Option<nat>, Rejection>
    requires item.target.Target?
  {
    if item.target.row.kind.Seat? then
      match item.passenger
      case Some(index) => if index >= passengers then Err(PassengerOutOfRange(index)) else Ok(Some(index))
      case None => if passengers == 1 then Ok(Some(0)) else Err(SeatNeedsPassenger(k))
    else if item.passenger.Some? then Err(PoolWithPassenger(k))
    else Ok(None)
  }

  function CheckWiring(items: seq<NewItem>, passengers: nat, k: nat): Option<Rejection>
    requires k <= |items|
    requires forall item <- items :: item.target.Target?
    decreases |items| - k
  {
    if k == |items| then None
    else match Slot(items[k], k, passengers)
         case Err(why) => Some(why)
         case Ok(_) => CheckWiring(items, passengers, k + 1)
  }

  function CheckAncillaries(lines: seq<NewAncillary>, passengers: nat, k: nat): Option<Rejection>
    requires k <= |lines|
    decreases |lines| - k
  {
    if k == |lines| then None
    else if lines[k].passenger.Some? && lines[k].passenger.value >= passengers then
      Some(PassengerOutOfRange(lines[k].passenger.value))
    else CheckAncillaries(lines, passengers, k + 1)
  }

  lemma {:induction false} TargetsKnown(items: seq<NewItem>, k: nat)
    requires k <= |items| && CheckTargets(items, k).None?
    ensures forall i :: k <= i < |items| ==> items[i].target.Target?
    decreases |items| - k
  {
    if k < |items| {
      TargetsKnown(items, k + 1);
    }
  }

  /** Everything checked before the write transaction opens, in the source's order. */
  function Check(order: NewOrder): (why: Option<Rejection>)
    ensures why.None? ==> order.items != [] && forall item <- order.items :: item.target.Target?
  {
    if order.passengers == 0 then Some(NoPassengers)
    else if order.items == [] then Some(NoItems)
    else match CheckTargets(order.items, 0)
         case Some(why) => Some(why)
         case None =>
           TargetsKnown(order.items, 0);
           match CheckWiring(order.items, order.passengers, 0)
           case Some(why) => Some(why)
           case None => CheckAncillaries(order.ancillaries, order.passengers, 0)
  }

  /** Seats belong to exactly one passenger of the order, the only one by default; pools to none. */
  predicate Wired(item: NewItem, passengers: nat) {
    && item.target.Target?
    && (if item.target.row.kind.Seat? then
          if item.passenger.Some? then item.passenger.value < passengers else passengers == 1
        else item.passenger.None?)
  }

  lemma {:induction false} WiringIff(items: seq<NewItem>, passengers: nat, k: nat)
    requires k <= |items| && forall item <- items :: item.target.Target?
    ensures CheckWiring(items, passengers, k).None? <==> forall i :: k <= i < |items| ==> Wired(items[i], passengers)
    decreases |items| - k
  {
    if k < |items| {
      WiringIff(items, passengers, k + 1);
    }
  }

  lemma {:induction false} TargetsIff(items: seq<NewItem>, k: nat)
    requires k <= |items|
    ensures CheckTargets(items, k).None? <==> forall i :: k <= i < |items| ==> items[i].target.Target?
    decreases |items| - k
  {
    if k < |items| {
      TargetsIff(items, k + 1);
    }
  }

  predicate LineOk(line: NewAncillary, passengers: nat) {
    line.passenger.Some? ==> line.passenger.value < passengers
  }

  lemma {:induction false} AncillariesIff(lines: seq<NewAncillary>, passengers: nat, k: nat)
    requires k <= |lines|
    ensures CheckAncillaries(lines, passengers, k).None? <==> forall i :: k <= i < |lines| ==> LineOk(lines[i], passengers)
    decreases |lines| - k
  {
    if k < |lines| {
      AncillariesIff(lines, passengers, k + 1);
    }
  }

  /** An order passes the checks exactly when it has passengers and items, every item resolves and is
      wired to its passenger, and every ancillary names a passenger of the order or none. */
  lemma CheckIff(order: NewOrder)
    ensures Check(order).None? <==>
            && order.passengers > 0 && order.items != []
            && (forall i :: 0 <= i < |order.items| ==> Wired(order.items[i], order.passengers))
            && (forall i :: 0 <= i < |order.ancillaries| ==> LineOk(order.ancillaries[i], order.passengers))
  {
    TargetsIff(order.items, 0);
    AncillariesIff(order.ancillaries, order.passengers, 0);
    if CheckTargets(order.items, 0).None? {
      WiringIff(order.items, order.passengers, 0);
    }
  }

  function AtLeastOne(quantity: int): int {
    if quantity < 1 then 1 else quantity
  }

  /** What the claim loop takes for one item. A seat claim carries no quantity, so the stored
      `quantity.max(1)` is used; a pool claim is refused unless its quantity is positive. */
  function Wanted(item: NewItem): Claim
    requires item.target.Target?
  {
    var row := item.target.row;
    Claim(row, item.target.span, if row.kind.Seat? then AtLeastOne(item.quantity) else item.quantity)
  }

  function AllWanted(items: seq<NewItem>): (claims: seq<Claim>)
    requires forall item <- items :: item.target.Target?
    ensures |claims| == |items|
    ensures forall i :: 0 <= i < |items| ==> claims[i] == Wanted(items[i])
  {
    seq(|items|, i requires 0 <= i < |items| => Wanted(items[i]))
  }

  /** The row stored for an item whose claim won. */
  function Recorded(item: NewItem, k: nat, passengers: nat): Item
    requires item.target.Target?
  {
    var slot := Slot(item, k, passengers);
    Item(Wanted(item).(qty := AtLeastOne(item.quantity)), item.price, item.target.admission,
         if slot.Ok? then slot.value else None)
  }

  function AllRecorded(items: seq<NewItem>, passengers: nat): (recorded: seq<Item>)
    requires forall item <- items :: item.target.Target?
    ensures |recorded| == |items|
    ensures forall i :: 0 <= i < |items| ==> recorded[i] == Recorded(items[i], i, passengers)
  {
    seq(|items|, i requires 0 <= i < |items| => Recorded(items[i], i, passengers))
  }

  function PriceOf(items: seq<NewItem>): int {
    if items == [] then 0 else PriceOf(items[..|items| - 1]) + items[|items| - 1].price
  }

  function AncillaryTotal(lines: seq<NewAncillary>): int {
    if lines == [] then 0 else AncillaryTotal(lines[..|lines| - 1]) + lines[|lines| - 1].total
  }

  /** The order row as first written. */
  function Placed(order: NewOrder): Order
    requires Check(order).None?
  {
    Order(
      Locked,
      AllRecorded(order.items, order.passengers),
      PriceOf(order.items) + AncillaryTotal(order.ancillaries),
      None,
      Some(order.now + ORDER_TTL_MS))
  }

  /** In a created order every seat has a passenger of that order, and no pool has one. */
  lemma PlacedIsWired(order: NewOrder, i: nat)
    requires Check(order).None? && i < |order.items|
    ensures var item := Placed(order).items[i];
            if item.claim.row.kind.Seat? then item.passenger.Some? && item.passenger.value < order.passengers
            else item.passenger.None?
  {
    CheckIff(order);
    assert Wired(order.items[i], order.passengers);
  }

  /** The order row and its first two events, with its claims already in `occ`. */
  function Place(s: State, row: Order, occ: Occupancy): State {
    var id := |s.orders|;
    Append(Append(s.(occ := occ, orders := s.orders + [row]), id, OrderCreated), id, InventoryLocked)
  }

  function Create(s: State, order: NewOrder): (State, CreateOutcome) {
    match Check(order)
    case Some(why) => (s, Rejected(why))
    case None =>
      match ClaimAll(s.occ, AllWanted(order.items))
      case Err(index) => (s, Conflict(index))
      case Ok(occ) => (Place(s, Placed(order), occ), Created(|s.orders|))
  }

  // ---- direct claims -----------------------------------------------------------------------------

  datatype ClaimOutcome = Claimed | Contended | NoSuchRow

  /** `claim_seat` and `claim_pool`: a claim no order owns and nothing gives back. */
  function DirectClaim(s: State, c: Claim): (State, ClaimOutcome) {
    if c.row.kind.Pool? && c.qty <= 0 then (s, Contended)
    else match TryClaim(s.occ, c)
         case Some(occ) => (s.(occ := occ, direct := s.direct + [c]), Claimed)
         case None => (s, if c.row in s.occ.seats || c.row in s.occ.pools then Contended else NoSuchRow)
  }

  // ---- tickets (ticket/mod.rs) ---------------------------------------------------------------------

  /** `n` tickets for item `item` of order `id`. */
  function Copies(id: nat, item: nat, n: nat): (tickets: seq<Ticket>)
    ensures |tickets| == n
    ensures forall t <- tickets :: t == Ticket(id, item, Issued)
  {
    seq(n, i => Ticket(id, item, Issued))
  }

  function SeatTickets(id: nat, items: seq<Item>): seq<Ticket> {
    if items == [] then []
    else
      var k := |items| - 1;
      SeatTickets(id, items[..k]) + (if items[k].claim.row.kind.Seat? then [Ticket(id, k, Issued)] else [])
  }

  function Admissions(item: Item): nat {
    if item.claim.row.kind.Pool? && item.admission && item.claim.qty > 0 then item.claim.qty else 0
  }

  function PoolTickets(id: nat, items: seq<Item>): seq<Ticket> {
    if items == [] then []
    else
      var k := |items| - 1;
      PoolTickets(id, items[..k]) + Copies(id, k, Admissions(items[k]))
  }

  function TicketsFor(id: nat, items: seq<Item>): seq<Ticket> {
    SeatTickets(id, items) + PoolTickets(id, items)
  }

  datatype IssueOutcome = IssuedNow(count: nat) | AlreadyIssued | NotPaid(status: OrderStatus) | NoSuchOrder

  function Issue(s: State, id: nat): (State, IssueOutcome) {
    if id >= |s.orders| then (s, NoSuchOrder)
    else
      var order := s.orders[id];
      if order.status == Ticketed || order.status == OrderStatus.Boarded then (s, AlreadyIssued)
      else if order.status != Paid then (s, NotPaid(order.status))
      else
        var issued := TicketsFor(id, order.items);
        var ticketed := s.(tickets := s.tickets + issued, orders := s.orders[id := order.(status := Ticketed)]);
        (Append(ticketed, id, TicketIssued), IssuedNow(|issued|))
  }

  function CountStatus(tickets: seq<Ticket>, id: nat, status: TicketStatus): nat {
    if tickets == [] then 0
    else
      var last := tickets[|tickets| - 1];
      CountStatus(tickets[..|tickets| - 1], id, status)
      + (if last.order == id && last.status == status then 1 else 0)
  }

  datatype ScanOutcome = UnknownTicket | DuplicateScan | NotBoardable(status: TicketStatus) | BoardedNow(orderBoarded: bool)

  function RecordScan(s: State, scan: ScanKey): (State, ScanOutcome) {
    if scan.ticket >= |s.tickets| then (s, UnknownTicket)
    else if scan in s.scans then (s, DuplicateScan)
    else
      var ticket := s.tickets[scan.ticket];
      var journalled := s.(scans := s.scans + {scan});
      if !ticket.status.Issued? then (journalled, NotBoardable(ticket.status))
      else
        var boarded := journalled.(tickets := s.tickets[scan.ticket := ticket.(status := TicketStatus.Boarded)]);
        if CountStatus(boarded.tickets, ticket.order, Issued) == 0 then
          var (t, outcome) := ApplyEvent(boarded, ticket.order, PassengerBoarded);
          (t, BoardedNow(outcome.Applied?))
        else (boarded, BoardedNow(false))
  }

  // ---- runs ------------------------------------------------------------------------------------------

  /** One committed transaction. Payment results and expiries name the order their earlier read
      found, so a run may contain any stale or duplicated one. */
  datatype Step =
    | StepCreate(order: NewOrder)
    | StepDirectClaim(claim: Claim)
    | StepRequestPayment(id: nat, intent: nat)
    | StepPayment(id: nat, succeeded: bool)
    | StepCancel(id: nat)
    | StepExpire(id: nat)
    | StepRefund(id: nat)
    | StepIssue(id: nat)
    | StepScan(scan: ScanKey)
    | StepCancelTrip(trip: nat)

  function Next(s: State, step: Step): State {
    match step
    case StepCreate(order) => Create(s, order).0
    case StepDirectClaim(c) => DirectClaim(s, c).0
    case StepRequestPayment(id, intent) => RequestPayment(s, id, intent).0
    case StepPayment(id, succeeded) => SettlePayment(s, id, succeeded).0
    case StepCancel(id) => Cancel(s, id).0
    case StepExpire(id) => Expire(s, id).0
    case StepRefund(id) => Refund(s, id).0
    case StepIssue(id) => Issue(s, id).0
    case StepScan(scan) => RecordScan(s, scan).0
    case StepCancelTrip(trip) => s.(cancelledTrips := s.cancelledTrips + {trip})
  }

  function Run(s: State, steps: seq<Step>): State
    decreases |steps|
  {
    if steps == [] then s else Run(Next(s, steps[0]), steps[1..])
  }

  /** Inventory seeded, nothing sold. */
  ghost predicate Initial(s: State) {
    && Tabled(s.occ)
    && (forall row <- s.occ.seats :: s.occ.seats[row] == ZERO)
    && (forall row <- s.occ.pools ::
          s.occ.pools[row].capacity >= 0
          && forall r <- s.occ.pools[row].remaining :: r == s.occ.pools[row].capacity)
    && s.orders == [] && s.log == [] && s.outbox == [] && s.tickets == [] && s.direct == []
  }
}
