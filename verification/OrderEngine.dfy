/** The order engine in its own form: tables updated in place, loops over items, rollback on a lost
claim. Each method is proved equal to the transaction of the same name in `Booking`, whose
properties over whole runs are proved in LedgerSafety, StreamSafety, TicketSafety and Settlement. */
module OrderEngine {
  import opened Outcomes
  import opened Segments
  import opened OrderLifecycle
  import opened Ledger
  import opened Booking
  import opened Settlement
  import opened Expiry

  /** The claim loop from item `i` on, reporting conflicts by their place in the whole list. */
  function ClaimFrom(occ: Occupancy, claims: seq<Claim>, i: nat): Result<Occupancy, nat>
    requires i <= |claims|
  {
    match ClaimAll(occ, claims[i..])
    case Ok(done) => Ok(done)
    case Err(index) => Err(index + i)
  }

  lemma ClaimFromStep(occ: Occupancy, claims: seq<Claim>, i: nat)
    requires i < |claims|
    ensures ClaimFrom(occ, claims, i) ==
            match TryClaim(occ, claims[i])
            case None => Err(i)
            case Some(next) => ClaimFrom(next, claims, i + 1)
  {
    assert claims[i..][1..] == claims[i + 1..];
  }

  class Engine {
    var seats: map<Row, Word>
    var pools: map<Row, PoolRow>
    var orders: seq<Order>
    var log: seq<StoredEvent>
    var outbox: seq<nat>
    var tickets: seq<Ticket>
    var scans: set<ScanKey>
    var cancelledTrips: set<nat>
    ghost var direct: seq<Claim>

    ghost function Inventory(): Occupancy
      reads this
    {
      Occupancy(seats, pools)
    }

    ghost function View(): State
      reads this
    {
      State(Inventory(), orders, log, outbox, tickets, scans, cancelledTrips, direct)
    }

    // ---- inventory/store.rs ------------------------------------------------------------------

    method ClaimSeatExec(row: Row, span: Span) returns (rows: nat)
      modifies this`seats
      ensures var next := ClaimSeat(old(Inventory()), row, span);
              if next.Some? then rows == 1 && Inventory() == next.value
              else rows == 0 && seats == old(seats)
    {
      if row in seats && IsAvailable(span, seats[row]) {
        seats := seats[row := Or(seats[row], Mask(span))];
        rows := 1;
      } else {
        rows := 0;
      }
    }

    method ReleaseSeatExec(row: Row, span: Span) returns (rows: nat)
      modifies this`seats
      ensures var next := ReleaseSeat(old(Inventory()), row, span);
              if next.Some? then rows == 1 && Inventory() == next.value
              else rows == 0 && seats == old(seats)
    {
      if row in seats && And(seats[row], Mask(span)) == Mask(span) {
        seats := seats[row := AndNot(seats[row], Mask(span))];
        rows := 1;
      } else {
        rows := 0;
      }
    }

    /** `array_agg(CASE WHEN idx BETWEEN ... )`, element by element. */
    method Shifted(remaining: seq<int>, span: Span, delta: int) returns (shifted: seq<int>)
      ensures shifted == Shift(remaining, span, delta)
    {
      shifted := [];
      for i := 0 to |remaining|
        invariant |shifted| == i
        invariant forall j :: 0 <= j < i ==>
                    shifted[j] == if Covers(span, j) then remaining[j] + delta else remaining[j]
      {
        shifted := shifted + [if Covers(span, i) then remaining[i] + delta else remaining[i]];
      }
    }

    method ClaimPoolExec(row: Row, span: Span, qty: int) returns (rows: nat)
      modifies this`pools
      ensures var next := ClaimPool(old(Inventory()), row, span, qty);
              if next.Some? then rows == 1 && Inventory() == next.value
              else rows == 0 && pools == old(pools)
    {
      rows := 0;
      if row in pools {
        var slice := Slice(pools[row].remaining, span);
        if slice != [] && Min(slice) >= qty {
          var remaining := Shifted(pools[row].remaining, span, -qty);
          pools := pools[row := pools[row].(remaining := remaining)];
          rows := 1;
        }
      }
    }

    method ReleasePoolExec(row: Row, span: Span, qty: int) returns (rows: nat)
      modifies this`pools
      ensures var next := ReleasePool(old(Inventory()), row, span, qty);
              if next.Some? then rows == 1 && Inventory() == next.value
              else rows == 0 && pools == old(pools)
    {
      rows := 0;
      if row in pools {
        var slice := Slice(pools[row].remaining, span);
        if slice != [] && Max(slice) + qty <= pools[row].capacity {
          var remaining := Shifted(pools[row].remaining, span, qty);
          pools := pools[row := pools[row].(remaining := remaining)];
          rows := 1;
        }
      }
    }

    /** One item of the claim loop. */
    method ClaimOne(c: Claim) returns (rows: nat)
      modifies this`seats, this`pools
      ensures var next := TryClaim(old(Inventory()), c);
              if next.Some? then rows == 1 && Inventory() == next.value
              else rows == 0 && seats == old(seats) && pools == old(pools)
    {
      if c.row.kind.Seat? {
        rows := ClaimSeatExec(c.row, c.span);
      } else if c.qty <= 0 {
        rows := 0;
      } else {
        rows := ClaimPoolExec(c.row, c.span, c.qty);
      }
    }

    /** `claim_seat` and `claim_pool`, outside any order. */
    method Claim(c: Claim) returns (outcome: ClaimOutcome)
      modifies this
      ensures (View(), outcome) == DirectClaim(old(View()), c)
    {
      if c.row.kind.Pool? && c.qty <= 0 {
        return Contended;
      }
      var rows := ClaimOne(c);
      if rows == 1 {
        direct := direct + [c];
        outcome := Claimed;
      } else {
        outcome := if c.row in seats || c.row in pools then Contended else NoSuchRow;
      }
    }

    // ---- events/mod.rs -------------------------------------------------------------------------

    method AppendEvent(id: nat, kind: EventType)
      modifies this`log, this`outbox
      ensures View() == Append(old(View()), id, kind)
    {
      var sequence := |log|;
      log := log + [StoredEvent(id, LastSeq(log, id) + 1, kind)];
      outbox := outbox + [sequence];
    }

    // ---- orders/mod.rs -------------------------------------------------------------------------

    /** The claim loop of `create`: stops at the first item whose guarded update changes no row. */
    method ClaimItems(claims: seq<Claim>) returns (conflict: Option<nat>)
      modifies this`seats, this`pools
      ensures match ClaimAll(old(Inventory()), claims)
              case Ok(occ) => conflict == None && Inventory() == occ
              case Err(index) => conflict == Some(index)
    {
      ghost var start := Inventory();
      assert claims[0..] == claims;
      var i := 0;
      while i < |claims|
        invariant 0 <= i <= |claims|
        invariant ClaimFrom(start, claims, 0) == ClaimFrom(Inventory(), claims, i)
      {
        ClaimFromStep(Inventory(), claims, i);
        var rows := ClaimOne(claims[i]);
        if rows != 1 {
          return Some(i);
        }
        i := i + 1;
      }
      conflict := None;
    }

    /** The checks made before the write transaction opens: targets, passenger wiring, ancillaries. */
    method Validate(order: NewOrder) returns (why: Option<Rejection>)
      ensures why == Check(order)
    {
      if order.passengers == 0 {
        return Some(NoPassengers);
      }
      if order.items == [] {
        return Some(NoItems);
      }
      for k := 0 to |order.items|
        invariant CheckTargets(order.items, 0) == CheckTargets(order.items, k)
      {
        match order.items[k].target {
          case Missing => return Some(UnknownTarget(k));
          case Unsellable => return Some(TargetRefused(k));
          case Target(_, _, _) =>
        }
      }
      TargetsKnown(order.items, 0);
      for k := 0 to |order.items|
        invariant CheckWiring(order.items, order.passengers, 0) == CheckWiring(order.items, order.passengers, k)
      {
        var slot := Slot(order.items[k], k, order.passengers);
        if slot.Err? {
          return Some(slot.error);
        }
      }
      for k := 0 to |order.ancillaries|
        invariant CheckAncillaries(order.ancillaries, order.passengers, 0)
               == CheckAncillaries(order.ancillaries, order.passengers, k)
      {
        var passenger := order.ancillaries[k].passenger;
        if passenger.Some? && passenger.value >= order.passengers {
          return Some(PassengerOutOfRange(passenger.value));
        }
      }
      why := None;
    }

    method Create(order: NewOrder) returns (outcome: CreateOutcome)
      modifies this
      ensures (View(), outcome) == Booking.Create(old(View()), order)
    {
      var why := Validate(order);
      if why.Some? {
        return Rejected(why.value);
      }
      var seatsBefore, poolsBefore := seats, pools;
      var conflict := ClaimItems(AllWanted(order.items));
      if conflict.Some? {
        seats, pools := seatsBefore, poolsBefore;
        return Conflict(conflict.value);
      }
      var id := |orders|;
      orders := orders + [Placed(order)];
      AppendEvent(id, OrderCreated);
      AppendEvent(id, InventoryLocked);
      outcome := Created(id);
    }

    method ApplyEventLocked(id: nat, event: EventType) returns (outcome: TransitionOutcome)
      modifies this`orders, this`log, this`outbox
      ensures (View(), outcome) == ApplyEvent(old(View()), id, event)
    {
      if id >= |orders| {
        return NotFound;
      }
      var current := orders[id].status;
      var next := Apply(Some(current), event);
      if next.Err? {
        return NoOp(current);
      }
      orders := orders[id := orders[id].(status := next.value)];
      AppendEvent(id, event);
      outcome := Applied(next.value);
    }

    method RequestPayment(id: nat, intent: nat) returns (outcome: TransitionOutcome)
      modifies this
      ensures (View(), outcome) == Booking.RequestPayment(old(View()), id, intent)
    {
      outcome := ApplyEventLocked(id, PaymentRequested);
      if outcome.Applied? {
        orders := orders[id := orders[id].(intent := Some(intent))];
      }
    }

    method ApplyPaymentResult(intent: nat, succeeded: bool) returns (outcome: TransitionOutcome)
      modifies this
      ensures (View(), outcome) == PaymentResult(old(View()), intent, succeeded)
    {
      var found := FindByIntent(orders, intent);
      if found.None? {
        return NotFound;
      }
      var id := found.value;
      outcome := ApplyEventLocked(id, PaymentEvent(succeeded));
      if outcome == Applied(Paid) {
        orders := orders[id := orders[id].(expiresAt := None)];
      }
    }

    /** `release_order_items`; `failures` counts the releases it would only log. */
    method ReleaseOrderItems(items: seq<Item>) returns (failures: nat)
      modifies this`seats, this`pools
      ensures Released(Inventory(), failures) == ReleaseAll(old(Inventory()), ClaimsOf(items))
    {
      ghost var start := Inventory();
      ghost var claims := ClaimsOf(items);
      failures := 0;
      var i := 0;
      while i < |items|
        invariant 0 <= i <= |items|
        invariant ReleaseAll(start, claims)
               == (var rest := ReleaseAll(Inventory(), claims[i..]);
                   Released(rest.occ, rest.failures + failures))
      {
        assert claims[i..][0] == claims[i] && claims[i..][1..] == claims[i + 1..];
        var c := items[i].claim;
        var released: nat;
        if c.row.kind.Seat? {
          released := ReleaseSeatExec(c.row, c.span);
        } else {
          released := ReleasePoolExec(c.row, c.span, c.qty);
        }
        if released != 1 {
          failures := failures + 1;
        }
        i := i + 1;
      }
    }

    method LeaveWith(id: nat, event: EventType) returns (outcome: TransitionOutcome)
      modifies this
      ensures (View(), outcome) == Leave(old(View()), id, event)
    {
      outcome := ApplyEventLocked(id, event);
      if outcome.Applied? {
        var failures := ReleaseOrderItems(orders[id].items);
      }
    }

    method Cancel(id: nat) returns (outcome: TransitionOutcome)
      modifies this
      ensures (View(), outcome) == Booking.Cancel(old(View()), id)
    {
      outcome := LeaveWith(id, OrderCancelled);
    }

    method ExpireDue(now: int) returns (expired: nat)
      modifies this
      ensures (View(), expired) == ExpireAll(old(View()), DueFrom(old(orders), now, 0), 0)
    {
      var due := DueFrom(orders, now, 0);
      ghost var start := View();
      expired := 0;
      var i := 0;
      while i < |due|
        invariant 0 <= i <= |due|
        invariant ExpireAll(start, due, 0) == ExpireAll(View(), due[i..], expired)
      {
        assert due[i..][0] == due[i] && due[i..][1..] == due[i + 1..];
        var outcome := LeaveWith(due[i], OrderExpired);
        if outcome.Applied? {
          expired := expired + 1;
        }
        i := i + 1;
      }
    }

    method Refund(id: nat) returns (outcome: TransitionOutcome)
      modifies this
      ensures (View(), outcome) == Booking.Refund(old(View()), id)
    {
      outcome := LeaveWith(id, OrderRefunded);
      if outcome.Applied? {
        var voided := [];
        for i := 0 to |tickets|
          invariant |voided| == i
          invariant forall j :: 0 <= j < i ==>
                      voided[j] == if tickets[j].order == id then tickets[j].(status := Void) else tickets[j]
        {
          voided := voided + [if tickets[i].order == id then tickets[i].(status := Void) else tickets[i]];
        }
        assert voided == VoidTickets(tickets, id);
        tickets := voided;
      }
    }

    /** One row of the settlement loop; a transaction that rolls back changes nothing. */
    method SettleListed(row: Selected, answer: Answer, before: Stats) returns (stats: Stats)
      modifies this
      ensures (View(), stats) == SettleOne(old(View()), row, answer, before)
    {
      if Blocked(row, answer.accepts) || answer.ending.RolledBack? {
        return Failed(before);
      }
      var outcome: TransitionOutcome;
      if Unpaid(row) {
        outcome := Cancel(row.id);
      } else {
        outcome := Refund(row.id);
      }
      stats := if answer.ending.Done? then Tally(before, outcome) else Failed(before);
    }

    /** `answers[k]` is what the k-th row meets. */
    method SettleCancelledTrips(limit: nat, answers: seq<Answer>) returns (stats: Stats, remaining: nat)
      requires |answers| == |Select(View(), limit)|
      modifies this
      ensures (View(), stats) == SettleRows(old(View()), Select(old(View()), limit), answers, Stats(0, 0, 0))
      ensures remaining == |OutstandingSet(View())|
    {
      ghost var start := View();
      var rows := SelectRows(limit);
      stats := Stats(0, 0, 0);
      var i := 0;
      while i < |rows|
        invariant 0 <= i <= |rows|
        invariant SettleRows(start, rows, answers, Stats(0, 0, 0))
               == SettleRows(View(), rows[i..], answers[i..], stats)
      {
        assert rows[i..][0] == rows[i] && rows[i..][1..] == rows[i + 1..];
        assert answers[i..][0] == answers[i] && answers[i..][1..] == answers[i + 1..];
        stats := SettleListed(rows[i], answers[i], stats);
        i := i + 1;
      }
      remaining := CountOutstanding();
    }

    predicate IsOutstanding(id: nat)
      reads this
      ensures IsOutstanding(id) <==> Outstanding(View(), id)
    {
      id < |orders| && Unsettled(orders[id].status) && Touches(orders[id], cancelledTrips)
    }

    method SelectRows(limit: nat) returns (rows: seq<Selected>)
      ensures rows == Select(View(), limit)
    {
      rows := [];
      var i := 0;
      while i < |orders| && |rows| < limit
        invariant 0 <= i <= |orders| && |rows| <= limit
        invariant Select(View(), limit) == rows + SelectFrom(View(), i, limit - |rows|)
      {
        if IsOutstanding(i) {
          var order := orders[i];
          rows := rows + [Selected(i, order.status, order.intent, order.total)];
        }
        i := i + 1;
      }
    }

    method CountOutstanding() returns (count: nat)
      ensures count == |OutstandingSet(View())|
    {
      count := 0;
      var i := |orders|;
      while i > 0
        invariant 0 <= i <= |orders|
        invariant count == |OutstandingFrom(View(), i)|
      {
        i := i - 1;
        OutstandingFromHas(View(), i + 1, i);
        if IsOutstanding(i) {
          count := count + 1;
        }
      }
      OutstandingFromStart(View());
    }

    /** `replay_status`: fold the stored stream; an event that does not apply is an error. */
    method ReplayStatus(id: nat) returns (status: Result<Option<OrderStatus>, TransitionError>)
      ensures status == Fold(None, Kinds(StreamOf(log, id)))
    {
      var stream := StreamOf(log, id);
      var state: Option<OrderStatus> := None;
      ghost var kinds := Kinds(stream);
      var i := 0;
      while i < |stream|
        invariant 0 <= i <= |stream|
        invariant Fold(None, kinds) == Fold(state, kinds[i..])
      {
        assert kinds[i..][0] == kinds[i] && kinds[i..][1..] == kinds[i + 1..];
        var next := Apply(state, stream[i].kind);
        if next.Err? {
          return Err(next.error);
        }
        state := Some(next.value);
        i := i + 1;
      }
      status := Ok(state);
    }

    // ---- ticket/mod.rs ---------------------------------------------------------------------------

    method InsertSeatTickets(id: nat, items: seq<Item>) returns (inserted: nat)
      modifies this`tickets
      ensures tickets == old(tickets) + SeatTickets(id, items)
      ensures inserted == |SeatTickets(id, items)|
    {
      inserted := 0;
      var i := 0;
      while i < |items|
        invariant 0 <= i <= |items|
        invariant tickets == old(tickets) + SeatTickets(id, items[..i])
        invariant inserted == |SeatTickets(id, items[..i])|
      {
        assert items[..i + 1][..i] == items[..i];
        if items[i].claim.row.kind.Seat? {
          tickets := tickets + [Ticket(id, i, Issued)];
          inserted := inserted + 1;
        }
        i := i + 1;
      }
      assert items[..i] == items;
    }

    method InsertAdmissions(id: nat, items: seq<Item>) returns (inserted: nat)
      modifies this`tickets
      ensures tickets == old(tickets) + PoolTickets(id, items)
      ensures inserted == |PoolTickets(id, items)|
    {
      inserted := 0;
      var i := 0;
      while i < |items|
        invariant 0 <= i <= |items|
        invariant tickets == old(tickets) + PoolTickets(id, items[..i])
        invariant inserted == |PoolTickets(id, items[..i])|
      {
        assert items[..i + 1][..i] == items[..i];
        ghost var before := tickets;
        var n := Admissions(items[i]);
        for k := 0 to n
          invariant tickets == before + Copies(id, i, k)
          invariant inserted == |PoolTickets(id, items[..i])| + k
        {
          assert Copies(id, i, k) + [Ticket(id, i, Issued)] == Copies(id, i, k + 1);
          tickets := tickets + [Ticket(id, i, Issued)];
          inserted := inserted + 1;
        }
        i := i + 1;
      }
      assert items[..i] == items;
    }

    method InsertTickets(id: nat, items: seq<Item>) returns (inserted: nat)
      modifies this`tickets
      ensures tickets == old(tickets) + TicketsFor(id, items)
      ensures inserted == |TicketsFor(id, items)|
    {
      var seatTickets := InsertSeatTickets(id, items);
      var admissions := InsertAdmissions(id, items);
      inserted := seatTickets + admissions;
    }

    method IssueForOrder(id: nat) returns (outcome: IssueOutcome)
      modifies this
      ensures (View(), outcome) == Issue(old(View()), id)
    {
      if id >= |orders| {
        return NoSuchOrder;
      }
      var order := orders[id];
      if order.status == Ticketed || order.status == OrderStatus.Boarded {
        return AlreadyIssued;
      }
      if order.status != Paid {
        return NotPaid(order.status);
      }
      var count := InsertTickets(id, order.items);
      orders := orders[id := order.(status := Ticketed)];
      AppendEvent(id, TicketIssued);
      outcome := IssuedNow(count);
    }

    /** `SELECT count(*) ... WHERE order_id = $1 AND status = 'issued'`. */
    method CountUnboarded(id: nat) returns (count: nat)
      ensures count == CountStatus(tickets, id, Issued)
    {
      count := 0;
      var i := 0;
      while i < |tickets|
        invariant 0 <= i <= |tickets|
        invariant count == CountStatus(tickets[..i], id, Issued)
      {
        assert tickets[..i + 1][..i] == tickets[..i];
        if tickets[i].order == id && tickets[i].status.Issued? {
          count := count + 1;
        }
        i := i + 1;
      }
      assert tickets[..i] == tickets;
    }

    method RecordScan(scan: ScanKey) returns (outcome: ScanOutcome)
      modifies this
      ensures (View(), outcome) == Booking.RecordScan(old(View()), scan)
    {
      if scan.ticket >= |tickets| {
        return UnknownTicket;
      }
      if scan in scans {
        return DuplicateScan;
      }
      var ticket := tickets[scan.ticket];
      scans := scans + {scan};
      if !ticket.status.Issued? {
        return NotBoardable(ticket.status);
      }
      tickets := tickets[scan.ticket := ticket.(status := TicketStatus.Boarded)];
      var unboarded := CountUnboarded(ticket.order);
      outcome := BoardedNow(false);
      if unboarded == 0 {
        var moved := ApplyEventLocked(ticket.order, PassengerBoarded);
        outcome := BoardedNow(moved.Applied?);
      }
    }
  }
}
