/** A run in which money goes back and the order keeps its seat (orders/mod.rs, settle_cancelled_trips
with ticket/mod.rs, record_scan): the last passenger boards between the provider's refund and the
order's transaction. It shows that the condition of `Settlement.CommitRefundsIff` does occur. */
module RefundGap {
  import opened Outcomes
  import opened Segments
  import opened OrderLifecycle
  import opened Ledger
  import opened Booking
  import opened LedgerSafety
  import opened Settlement

  function OneSeat(row: Row): State {
    State(Occupancy(map[row := ZERO], map[]), [], [], [], [], {}, {}, [])
  }

  function OneSeatOrder(row: Row, span: Span, price: int, now: int): NewOrder {
    NewOrder(1, [NewItem(Target(row, span, false), 1, price, Some(0))], [], now)
  }

  function SeatItem(row: Row, span: Span, price: int): Item {
    Item(Claim(row, span, 1), price, false, Some(0))
  }

  /** The engine holds this one order for one seat. */
  ghost predicate Stands(s: State, item: Item, status: OrderStatus, intent: Option<nat>, tickets: seq<Ticket>) {
    && |s.orders| == 1 && s.direct == [] && s.scans == {} && s.tickets == tickets
    && s.orders[0].status == status && s.orders[0].items == [item] && s.orders[0].total == item.price
    && s.orders[0].intent == intent
  }

  lemma SeatIsFree(span: Span)
    ensures IsAvailable(span, ZERO)
  {
    AvailableSpan(span, ZERO);
    forall i: nat | i < 64 && Covers(span, i)
      ensures !Bit(ZERO, i)
    {
      ZeroAt(i);
    }
  }

  lemma OrderPasses(row: Row, span: Span, price: int, now: int)
    requires row.kind.Seat?
    ensures Check(OneSeatOrder(row, span, price, now)).None?
    ensures AllWanted(OneSeatOrder(row, span, price, now).items) == [Claim(row, span, 1)]
    ensures Placed(OneSeatOrder(row, span, price, now)).items == [SeatItem(row, span, price)]
    ensures Placed(OneSeatOrder(row, span, price, now)).total == price
  {
    var order := OneSeatOrder(row, span, price, now);
    CheckIff(order);
    assert Wired(order.items[0], 1);
    assert order.items[..0] == [];
    assert PriceOf(order.items) == PriceOf(order.items[..0]) + price;
    assert Slot(order.items[0], 0, 1) == Ok(Some(0));
    assert AllRecorded(order.items, 1)[0] == SeatItem(row, span, price);
  }

  lemma Ordered(row: Row, span: Span, price: int, now: int)
    requires row.kind.Seat?
    ensures Stands(Next(OneSeat(row), StepCreate(OneSeatOrder(row, span, price, now))),
                   SeatItem(row, span, price), Locked, None, [])
  {
    var order := OneSeatOrder(row, span, price, now);
    var s := OneSeat(row);
    var c := Claim(row, span, 1);
    OrderPasses(row, span, price, now);
    SeatIsFree(span);
    assert TryClaim(s.occ, c).Some?;
    assert [c][1..] == [];
    assert ClaimAll(s.occ, [c]).Ok?;
  }

  lemma Requested(s: State, item: Item, intent: nat)
    requires Stands(s, item, Locked, None, [])
    ensures Stands(Next(s, StepRequestPayment(0, intent)), item, PendingPayment, Some(intent), [])
  {}

  lemma Captured(s: State, item: Item, intent: nat)
    requires Stands(s, item, PendingPayment, Some(intent), [])
    ensures Stands(Next(s, StepPayment(0, true)), item, Paid, Some(intent), [])
  {}

  lemma OneTicket(item: Item)
    requires item.claim.row.kind.Seat?
    ensures TicketsFor(0, [item]) == [Ticket(0, 0, Issued)]
  {
    assert [item][..0] == [];
    assert SeatTickets(0, [item]) == [Ticket(0, 0, Issued)];
    assert PoolTickets(0, [item]) == PoolTickets(0, []) + Copies(0, 0, 0);
  }

  lemma TicketsIssued(s: State, item: Item, intent: nat)
    requires Stands(s, item, Paid, Some(intent), []) && item.claim.row.kind.Seat?
    ensures Stands(Next(s, StepIssue(0)), item, Ticketed, Some(intent), [Ticket(0, 0, Issued)])
  {
    OneTicket(item);
  }

  lemma TripCancelled(s: State, item: Item, intent: nat, tickets: seq<Ticket>, trip: nat)
    requires Stands(s, item, Ticketed, Some(intent), tickets)
    ensures Stands(Next(s, StepCancelTrip(trip)), item, Ticketed, Some(intent), tickets)
    ensures trip in Next(s, StepCancelTrip(trip)).cancelledTrips
  {}

  lemma Listed(s: State, item: Item, intent: nat, tickets: seq<Ticket>, limit: nat)
    requires Stands(s, item, Ticketed, Some(intent), tickets) && item.claim.row.trip in s.cancelledTrips && limit > 0
    ensures Select(s, limit) == [Selected(0, Ticketed, Some(intent), item.price)]
  {
    assert item in s.orders[0].items;
    assert Touches(s.orders[0], s.cancelledTrips);
    assert SelectFrom(s, 1, limit - 1) == [];
  }

  lemma LastPassengerBoards(s: State, item: Item, intent: nat, device: nat, at: int)
    requires Stands(s, item, Ticketed, Some(intent), [Ticket(0, 0, Issued)])
    ensures var t := Next(s, StepScan(ScanKey(0, device, at)));
            && |t.orders| == 1 && t.orders[0].status == OrderStatus.Boarded && t.orders[0].items == [item]
            && t.direct == []
  {
    var boarded := [Ticket(0, 0, TicketStatus.Boarded)];
    assert s.tickets[0 := s.tickets[0].(status := TicketStatus.Boarded)] == boarded;
    assert boarded[..0] == [];
    assert CountStatus(boarded, 0, Issued) == 0;
  }

  lemma SoleClaim(s: State, item: Item)
    requires |s.orders| == 1 && s.orders[0].status == OrderStatus.Boarded && s.orders[0].items == [item] && s.direct == []
    ensures ActiveClaims(s) == [item.claim]
  {
    assert ClaimsOf([item]) == [item.claim];
    assert Part(s.orders[0]) == [item.claim];
    assert s.orders[..0] == [] && OrderClaims([]) == [];
    assert OrderClaims(s.orders) == OrderClaims(s.orders[..0]) + Part(s.orders[0]);
  }

  lemma BoardedIsNotRefunded(s: State, row: Selected)
    requires row.id < |s.orders| && s.orders[row.id].status == OrderStatus.Boarded && !Unpaid(row)
    ensures SettleRow(s, row).0 == s
  {}

  /** Everything up to the list being read: one ticketed order on a trip that was then cancelled. */
  function UpToList(row: Row, span: Span, price: int, intent: nat, limit: nat, now: int): seq<Move> {
    [] + [Move.Engine(StepCreate(OneSeatOrder(row, span, price, now)))]
       + [Move.Engine(StepRequestPayment(0, intent))]
       + [Move.Engine(StepPayment(0, true))]
       + [Move.Engine(StepIssue(0))]
       + [Move.Engine(StepCancelTrip(row.trip))]
       + [Begin(limit)]
  }

  /** The provider returns the money, the passenger boards, the transaction runs. */
  function Crossing(device: nat, at: int): seq<Move> {
    [] + [AskProvider(0, true)] + [Move.Engine(StepScan(ScanKey(0, device, at)))] + [Commit(0)]
  }

  function Start(row: Row): World {
    World(OneSeat(row), [], {})
  }

  lemma ListRead(row: Row, span: Span, price: int, intent: nat, limit: nat, now: int)
    requires row.kind.Seat? && limit > 0
    ensures var w := Play(Start(row), UpToList(row, span, price, intent, limit, now));
            && Stands(w.engine, SeatItem(row, span, price), Ticketed, Some(intent), [Ticket(0, 0, Issued)])
            && w.passes == [Running([Selected(0, Ticketed, Some(intent), price)], false)]
  {
    var item := SeatItem(row, span, price);
    var m0: seq<Move> := [];
    var m1 := m0 + [Move.Engine(StepCreate(OneSeatOrder(row, span, price, now)))];
    var m2 := m1 + [Move.Engine(StepRequestPayment(0, intent))];
    var m3 := m2 + [Move.Engine(StepPayment(0, true))];
    var m4 := m3 + [Move.Engine(StepIssue(0))];
    var m5 := m4 + [Move.Engine(StepCancelTrip(row.trip))];
    OneMove(Start(row), m0, Move.Engine(StepCreate(OneSeatOrder(row, span, price, now))));
    Ordered(row, span, price, now);
    OneMove(Start(row), m1, Move.Engine(StepRequestPayment(0, intent)));
    Requested(Play(Start(row), m1).engine, item, intent);
    OneMove(Start(row), m2, Move.Engine(StepPayment(0, true)));
    Captured(Play(Start(row), m2).engine, item, intent);
    OneMove(Start(row), m3, Move.Engine(StepIssue(0)));
    TicketsIssued(Play(Start(row), m3).engine, item, intent);
    OneMove(Start(row), m4, Move.Engine(StepCancelTrip(row.trip)));
    TripCancelled(Play(Start(row), m4).engine, item, intent, [Ticket(0, 0, Issued)], row.trip);
    OneMove(Start(row), m5, Begin(limit));
    Listed(Play(Start(row), m5).engine, item, intent, [Ticket(0, 0, Issued)], limit);
  }

  /** For every seat, span, fare and settlement limit: this run returns the order's money, and leaves the
      order Boarded with its claim in the ledger. */
  lemma BoardedAfterItsRefund(
    row: Row, span: Span, price: int, intent: nat, limit: nat, now: int, device: nat, at: int)
    requires row.kind.Seat? && limit > 0
    ensures Initial(Start(row).engine)
    ensures var w := Play(Start(row), UpToList(row, span, price, intent, limit, now) + Crossing(device, at));
            && |w.engine.orders| == 1 && w.engine.orders[0].status == OrderStatus.Boarded
            && ActiveClaims(w.engine) == [Claim(row, span, 1)]
            && Returned(intent, price) in w.money
  {
    var item := SeatItem(row, span, price);
    var listed := UpToList(row, span, price, intent, limit, now);
    var w := Play(Start(row), listed);
    ListRead(row, span, price, intent, limit, now);
    PlayConcat(Start(row), listed, Crossing(device, at));
    var scan := Move.Engine(StepScan(ScanKey(0, device, at)));
    OneMove(w, [], AskProvider(0, true));
    OneMove(w, [] + [AskProvider(0, true)], scan);
    OneMove(w, [] + [AskProvider(0, true)] + [scan], Commit(0));
    var asked := Advance(w, AskProvider(0, true));
    LastPassengerBoards(asked.engine, item, intent, device, at);
    var boarded := Advance(asked, scan);
    BoardedIsNotRefunded(boarded.engine, boarded.passes[0].rows[0]);
    SoleClaim(boarded.engine, item);
  }
}
