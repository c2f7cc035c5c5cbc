/** Tickets and orders over whole runs (ticket/mod.rs): the two statuses always agree, and an
order's tickets are exactly one per seat item plus the quantity of each admission item. */
module TicketSafety {
  import opened OrderLifecycle
  import opened Ledger
  import opened Booking

  /** The items an order's tickets were issued for, in issue order. */
  function Issues(tickets: seq<Ticket>, id: nat): seq<nat> {
    if tickets == [] then []
    else
      var last := tickets[|tickets| - 1];
      Issues(tickets[..|tickets| - 1], id) + (if last.order == id then [last.item] else [])
  }

  /** What issuing an order with these items creates. */
  function Due(id: nat, items: seq<Item>): seq<nat> {
    Issues(TicketsFor(id, items), id)
  }

  /** How one order's tickets match its status. */
  ghost predicate Agrees(tickets: seq<Ticket>, id: nat, order: Order) {
    var issues := Issues(tickets, id);
    match order.status
    case Ticketed =>
      && issues == Due(id, order.items)
      && CountStatus(tickets, id, Void) == 0
      && (issues != [] ==> CountStatus(tickets, id, Issued) > 0)
    case Boarded =>
      issues == Due(id, order.items) && issues != [] && CountStatus(tickets, id, TicketStatus.Boarded) == |issues|
    case Completed =>
      issues == Due(id, order.items) && issues != [] && CountStatus(tickets, id, TicketStatus.Boarded) == |issues|
    case Refunded =>
      (issues == [] || issues == Due(id, order.items)) && CountStatus(tickets, id, Void) == |issues|
    case _ => issues == []
  }

  ghost predicate TicketsOk(s: State) {
    && (forall k :: 0 <= k < |s.tickets| ==> s.tickets[k].order < |s.orders|)
    && (forall id: nat :: id < |s.orders| ==> Agrees(s.tickets, id, s.orders[id]))
  }

  // ---- counting --------------------------------------------------------------------------------

  lemma {:induction false} CountsAddUp(tickets: seq<Ticket>, id: nat)
    ensures CountStatus(tickets, id, Issued) + CountStatus(tickets, id, TicketStatus.Boarded)
            + CountStatus(tickets, id, Void) == |Issues(tickets, id)|
    decreases |tickets|
  {
    if tickets != [] {
      CountsAddUp(tickets[..|tickets| - 1], id);
    }
  }

  lemma {:induction false} ConcatIssues(a: seq<Ticket>, b: seq<Ticket>, id: nat)
    ensures Issues(a + b, id) == Issues(a, id) + Issues(b, id)
    decreases |b|
  {
    if b == [] {
      assert a + b == a;
    } else {
      assert (a + b)[..|a + b| - 1] == a + b[..|b| - 1];
      ConcatIssues(a, b[..|b| - 1], id);
    }
  }

  lemma {:induction false} ConcatCounts(a: seq<Ticket>, b: seq<Ticket>, id: nat, status: TicketStatus)
    ensures CountStatus(a + b, id, status) == CountStatus(a, id, status) + CountStatus(b, id, status)
    decreases |b|
  {
    if b == [] {
      assert a + b == a;
    } else {
      assert (a + b)[..|a + b| - 1] == a + b[..|b| - 1];
      ConcatCounts(a, b[..|b| - 1], id, status);
    }
  }

  ghost predicate AllOf(tickets: seq<Ticket>, id: nat, status: TicketStatus) {
    forall k :: 0 <= k < |tickets| ==> tickets[k].order == id && tickets[k].status == status
  }

  lemma {:induction false} UniformCounts(tickets: seq<Ticket>, id: nat, status: TicketStatus, other: nat)
    requires AllOf(tickets, id, status)
    ensures |Issues(tickets, id)| == |tickets|
    ensures CountStatus(tickets, id, status) == |tickets|
    ensures other != id ==> Issues(tickets, other) == []
    decreases |tickets|
  {
    if tickets != [] {
      UniformCounts(tickets[..|tickets| - 1], id, status, other);
    }
  }

  lemma {:induction false} NothingIssuedNothingCounted(tickets: seq<Ticket>, id: nat, status: TicketStatus)
    requires Issues(tickets, id) == []
    ensures CountStatus(tickets, id, status) == 0
    decreases |tickets|
  {
    if tickets != [] {
      NothingIssuedNothingCounted(tickets[..|tickets| - 1], id, status);
    }
  }

  lemma {:induction false} SeatTicketsUniform(id: nat, items: seq<Item>)
    ensures AllOf(SeatTickets(id, items), id, Issued)
    decreases |items|
  {
    if items != [] {
      SeatTicketsUniform(id, items[..|items| - 1]);
    }
  }

  lemma {:induction false} PoolTicketsUniform(id: nat, items: seq<Item>)
    ensures AllOf(PoolTickets(id, items), id, Issued)
    decreases |items|
  {
    if items != [] {
      var k := |items| - 1;
      PoolTicketsUniform(id, items[..k]);
      var copies := Copies(id, k, Admissions(items[k]));
      assert forall j :: 0 <= j < |copies| ==> copies[j] in copies;
    }
  }

  lemma TicketsForUniform(id: nat, items: seq<Item>)
    ensures AllOf(TicketsFor(id, items), id, Issued)
  {
    SeatTicketsUniform(id, items);
    PoolTicketsUniform(id, items);
  }

  /** Boarding ticket `k` moves one ticket of its order from issued to boarded. */
  lemma {:induction false} BoardOne(tickets: seq<Ticket>, k: nat, id: nat)
    requires k < |tickets| && tickets[k].status.Issued?
    ensures var after := tickets[k := tickets[k].(status := TicketStatus.Boarded)];
            var one := if tickets[k].order == id then 1 else 0;
            && Issues(after, id) == Issues(tickets, id)
            && CountStatus(after, id, Issued) == CountStatus(tickets, id, Issued) - one
            && CountStatus(after, id, TicketStatus.Boarded) == CountStatus(tickets, id, TicketStatus.Boarded) + one
            && CountStatus(after, id, Void) == CountStatus(tickets, id, Void)
    decreases |tickets|
  {
    var n := |tickets| - 1;
    var after := tickets[k := tickets[k].(status := TicketStatus.Boarded)];
    if k == n {
      assert after[..n] == tickets[..n];
    } else {
      assert after[..n] == tickets[..n][k := tickets[k].(status := TicketStatus.Boarded)];
      BoardOne(tickets[..n], k, id);
    }
  }

  /** Voiding an order's tickets changes no other order's. */
  lemma {:induction false} VoidEffect(tickets: seq<Ticket>, id: nat, other: nat)
    ensures Issues(VoidTickets(tickets, id), other) == Issues(tickets, other)
    ensures CountStatus(VoidTickets(tickets, id), id, Void) == |Issues(tickets, id)|
    ensures other != id ==> forall status ::
              CountStatus(VoidTickets(tickets, id), other, status) == CountStatus(tickets, other, status)
    decreases |tickets|
  {
    if tickets != [] {
      var n := |tickets| - 1;
      assert VoidTickets(tickets, id)[..n] == VoidTickets(tickets[..n], id);
      VoidEffect(tickets[..n], id, other);
    }
  }

  // ---- one lemma per kind of step ----------------------------------------------------------------

  /** Orders whose agreement does not depend on tickets beyond having none. */
  predicate BeforeTicketing(s: OrderStatus) {
    !s.Ticketed? && !s.Boarded? && !s.Completed? && !s.Refunded?
  }

  ghost predicate SameAgreement(s: State, t: State) {
    && t.tickets == s.tickets
    && |s.orders| <= |t.orders|
    && (forall i :: 0 <= i < |s.orders| ==>
          && t.orders[i].items == s.orders[i].items
          && (t.orders[i].status == s.orders[i].status
              || (BeforeTicketing(s.orders[i].status) && BeforeTicketing(t.orders[i].status))))
    && (forall i :: |s.orders| <= i < |t.orders| ==> BeforeTicketing(t.orders[i].status))
  }

  lemma {:induction false} UnknownOrderHasNoTickets(tickets: seq<Ticket>, orders: nat, id: nat)
    requires forall k :: 0 <= k < |tickets| ==> tickets[k].order < orders
    requires id >= orders
    ensures Issues(tickets, id) == []
    decreases |tickets|
  {
    if tickets != [] {
      UnknownOrderHasNoTickets(tickets[..|tickets| - 1], orders, id);
    }
  }

  lemma SameAgreementKeeps(s: State, t: State)
    requires TicketsOk(s) && SameAgreement(s, t)
    ensures TicketsOk(t)
  {
    forall id: nat | id < |t.orders|
      ensures Agrees(t.tickets, id, t.orders[id])
    {
      if id < |s.orders| {
        assert Agrees(s.tickets, id, s.orders[id]);
      } else {
        UnknownOrderHasNoTickets(s.tickets, |s.orders|, id);
      }
    }
  }

  lemma UnpaidEventKeeps(s: State, id: nat, event: EventType)
    requires TicketsOk(s)
    requires event.PaymentRequested? || event.PaymentCaptured? || event.PaymentFailed?
             || event.OrderCancelled? || event.OrderExpired?
    ensures SameAgreement(s, ApplyEvent(s, id, event).0)
  {}

  lemma PaymentKeepsTickets(s: State, id: nat, intent: nat, succeeded: bool)
    requires TicketsOk(s)
    ensures TicketsOk(RequestPayment(s, id, intent).0)
    ensures TicketsOk(SettlePayment(s, id, succeeded).0)
  {
    UnpaidEventKeeps(s, id, PaymentRequested);
    SameAgreementKeeps(s, RequestPayment(s, id, intent).0);
    UnpaidEventKeeps(s, id, PaymentEvent(succeeded));
    SameAgreementKeeps(s, SettlePayment(s, id, succeeded).0);
  }

  lemma LeaveKeepsTickets(s: State, id: nat, event: EventType)
    requires TicketsOk(s) && (event.OrderCancelled? || event.OrderExpired?)
    ensures TicketsOk(Leave(s, id, event).0)
  {
    UnpaidEventKeeps(s, id, event);
    SameAgreementKeeps(s, Leave(s, id, event).0);
  }

  lemma CreateKeepsTickets(s: State, order: NewOrder)
    requires TicketsOk(s)
    ensures TicketsOk(Create(s, order).0)
  {
    if Create(s, order).1.Created? {
      var t := Place(s, Placed(order), ClaimAll(s.occ, AllWanted(order.items)).value);
      assert t.orders == s.orders + [Placed(order)];
      SameAgreementKeeps(s, t);
    }
  }

  /** Refund: the order's tickets, if it had any, are all void; no other order is touched. */
  lemma RefundKeepsTickets(s: State, id: nat)
    requires TicketsOk(s)
    ensures TicketsOk(Refund(s, id).0)
  {
    var (t, outcome) := Refund(s, id);
    if outcome.Applied? {
      forall other: nat | other < |t.orders|
        ensures Agrees(t.tickets, other, t.orders[other])
      {
        assert Agrees(s.tickets, other, s.orders[other]);
        VoidEffect(s.tickets, id, other);
      }
    }
  }

  lemma IssueKeepsTickets(s: State, id: nat)
    requires TicketsOk(s)
    ensures TicketsOk(Issue(s, id).0)
  {
    var (t, outcome) := Issue(s, id);
    if outcome.IssuedNow? {
      var issued := TicketsFor(id, s.orders[id].items);
      TicketsForUniform(id, s.orders[id].items);
      forall other: nat | other < |t.orders|
        ensures Agrees(t.tickets, other, t.orders[other])
      {
        assert Agrees(s.tickets, other, s.orders[other]);
        UniformCounts(issued, id, Issued, other);
        ConcatIssues(s.tickets, issued, other);
        IssuedCounts(s.tickets, issued, id, other);
      }
    }
  }

  lemma IssuedCounts(tickets: seq<Ticket>, issued: seq<Ticket>, id: nat, other: nat)
    requires AllOf(issued, id, Issued)
    ensures other == id && Issues(tickets, id) == [] ==>
              CountStatus(tickets + issued, id, Void) == 0
              && CountStatus(tickets + issued, id, Issued) == |issued|
    ensures other != id ==> forall status ::
              CountStatus(tickets + issued, other, status) == CountStatus(tickets, other, status)
  {
    UniformCounts(issued, id, Issued, other);
    CountsAddUp(issued, id);
    forall status
      ensures CountStatus(tickets + issued, other, status) == CountStatus(tickets, other, status) + CountStatus(issued, other, status)
      ensures other != id ==> CountStatus(issued, other, status) == 0
      ensures Issues(tickets, id) == [] ==> CountStatus(tickets, id, status) == 0
    {
      ConcatCounts(tickets, issued, other, status);
      if other != id {
        NothingIssuedNothingCounted(issued, other, status);
      }
      if Issues(tickets, id) == [] {
        NothingIssuedNothingCounted(tickets, id, status);
      }
    }
  }

  /** Only a Ticketed order has a ticket left to board. */
  lemma IssuedMeansTicketed(s: State, k: nat)
    requires TicketsOk(s) && k < |s.tickets| && s.tickets[k].status.Issued?
    ensures s.orders[s.tickets[k].order].status == Ticketed
    ensures Issues(s.tickets, s.tickets[k].order) != []
  {
    var id := s.tickets[k].order;
    assert Agrees(s.tickets, id, s.orders[id]);
    CountsAddUp(s.tickets, id);
    BoardOne(s.tickets, k, id);
  }

  /** A scan that boards: the order stays Ticketed while a ticket is left, and boards with the
      last one. */
  lemma BoardingKeepsTickets(s: State, scan: ScanKey)
    requires TicketsOk(s) && scan.ticket < |s.tickets| && scan !in s.scans && s.tickets[scan.ticket].status.Issued?
    ensures var (t, outcome) := RecordScan(s, scan);
            var id := s.tickets[scan.ticket].order;
            && outcome.BoardedNow?
            && t.tickets == s.tickets[scan.ticket := s.tickets[scan.ticket].(status := TicketStatus.Boarded)]
            && |t.orders| == |s.orders|
            && (outcome.orderBoarded <==> CountStatus(t.tickets, id, Issued) == 0)
            && t.orders[id] == s.orders[id].(status := if outcome.orderBoarded then OrderStatus.Boarded else Ticketed)
            && forall i :: 0 <= i < |s.orders| && i != id ==> t.orders[i] == s.orders[i]
  {
    IssuedMeansTicketed(s, scan.ticket);
  }

  lemma ScanKeepsTickets(s: State, scan: ScanKey)
    requires TicketsOk(s)
    ensures TicketsOk(RecordScan(s, scan).0)
  {
    if scan.ticket < |s.tickets| && scan !in s.scans && s.tickets[scan.ticket].status.Issued? {
      var t := RecordScan(s, scan).0;
      BoardingKeepsTickets(s, scan);
      IssuedMeansTicketed(s, scan.ticket);
      forall other: nat | other < |t.orders|
        ensures Agrees(t.tickets, other, t.orders[other])
      {
        assert Agrees(s.tickets, other, s.orders[other]);
        BoardOne(s.tickets, scan.ticket, other);
        CountsAddUp(t.tickets, other);
      }
    } else {
      SameAgreementKeeps(s, RecordScan(s, scan).0);
    }
  }

  lemma StepKeepsTickets(s: State, step: Step)
    requires TicketsOk(s)
    ensures TicketsOk(Next(s, step))
  {
    match step
    case StepCreate(order) => CreateKeepsTickets(s, order);
    case StepDirectClaim(c) => SameAgreementKeeps(s, Next(s, step));
    case StepRequestPayment(id, intent) => PaymentKeepsTickets(s, id, intent, true);
    case StepPayment(id, succeeded) => PaymentKeepsTickets(s, id, 0, succeeded);
    case StepCancel(id) => LeaveKeepsTickets(s, id, OrderCancelled);
    case StepExpire(id) => LeaveKeepsTickets(s, id, OrderExpired);
    case StepRefund(id) => RefundKeepsTickets(s, id);
    case StepIssue(id) => IssueKeepsTickets(s, id);
    case StepScan(scan) => ScanKeepsTickets(s, scan);
    case StepCancelTrip(trip) => SameAgreementKeeps(s, Next(s, step));
  }

  lemma {:induction false} RunKeepsTickets(s: State, steps: seq<Step>)
    requires TicketsOk(s)
    ensures TicketsOk(Run(s, steps))
    decreases |steps|
  {
    if steps != [] {
      StepKeepsTickets(s, steps[0]);
      RunKeepsTickets(Next(s, steps[0]), steps[1..]);
    }
  }

  // ---- what it says ticket by ticket ---------------------------------------------------------------

  lemma {:induction false} CountedAt(tickets: seq<Ticket>, k: nat)
    requires k < |tickets|
    ensures CountStatus(tickets, tickets[k].order, tickets[k].status) > 0
    ensures Issues(tickets, tickets[k].order) != []
    decreases |tickets|
  {
    var n := |tickets| - 1;
    if k < n {
      CountedAt(tickets[..n], k);
    }
  }

  lemma {:induction false} FindCounted(tickets: seq<Ticket>, id: nat, status: TicketStatus) returns (k: nat)
    requires CountStatus(tickets, id, status) > 0
    ensures k < |tickets| && tickets[k].order == id && tickets[k].status == status
    decreases |tickets|
  {
    var n := |tickets| - 1;
    if tickets[n].order == id && tickets[n].status == status {
      k := n;
    } else {
      k := FindCounted(tickets[..n], id, status);
    }
  }

  /** A boarded or completed order has only boarded tickets, a refunded one only void tickets, a
      ticketed one no void ticket and at least one still to board; no other order has any. */
  ghost predicate TicketMatches(s: State, k: nat)
    requires k < |s.tickets| && s.tickets[k].order < |s.orders|
  {
    var ticket := s.tickets[k];
    match s.orders[ticket.order].status
    case Ticketed => !ticket.status.Void? && StillToBoard(s.tickets, ticket.order)
    case Boarded => ticket.status.Boarded?
    case Completed => ticket.status.Boarded?
    case Refunded => ticket.status.Void?
    case _ => false
  }

  ghost predicate StillToBoard(tickets: seq<Ticket>, id: nat) {
    exists j :: 0 <= j < |tickets| && tickets[j].order == id && tickets[j].status.Issued?
  }

  lemma AgreementByTicket(s: State, k: nat)
    requires TicketsOk(s) && k < |s.tickets|
    ensures TicketMatches(s, k)
  {
    var id := s.tickets[k].order;
    assert Agrees(s.tickets, id, s.orders[id]);
    CountedAt(s.tickets, k);
    CountsAddUp(s.tickets, id);
    if s.orders[id].status.Ticketed? {
      var j := FindCounted(s.tickets, id, Issued);
      assert StillToBoard(s.tickets, id);
    }
  }

  /** After every run, the status of every ticket matches the status of its order. */
  lemma EveryRunAgrees(s: State, steps: seq<Step>)
    requires Initial(s)
    ensures var t := Run(s, steps);
            forall k: nat :: k < |t.tickets| ==> t.tickets[k].order < |t.orders| && TicketMatches(t, k)
  {
    var t := Run(s, steps);
    RunKeepsTickets(s, steps);
    forall k: nat | k < |t.tickets|
      ensures t.tickets[k].order < |t.orders| && TicketMatches(t, k)
    {
      AgreementByTicket(t, k);
    }
  }

  // ---- how many tickets --------------------------------------------------------------------------

  /** What one item entitles its order to. */
  function Entitled(item: Item): nat {
    if item.claim.row.kind.Seat? then 1
    else if item.admission && item.claim.qty > 0 then item.claim.qty
    else 0
  }

  function CountItem(issues: seq<nat>, item: nat): nat {
    multiset(issues)[item]
  }

  lemma CountConcat(a: seq<nat>, b: seq<nat>, j: nat)
    ensures CountItem(a + b, j) == CountItem(a, j) + CountItem(b, j)
  {}

  /** The ticket of one seat item, if it is one. */
  function SeatTicket(id: nat, k: nat, item: Item): seq<Ticket> {
    if item.claim.row.kind.Seat? then [Ticket(id, k, Issued)] else []
  }

  lemma AddedTickets(before: seq<Ticket>, own: seq<Ticket>, id: nat, k: nat, j: nat)
    requires forall t <- own :: t == Ticket(id, k, Issued)
    ensures CountItem(Issues(before + own, id), j)
         == CountItem(Issues(before, id), j) + (if j == k then |own| else 0)
  {
    ConcatIssues(before, own, id);
    CountConcat(Issues(before, id), Issues(own, id), j);
    CountCopies(own, id, k, j);
  }

  lemma {:induction false} CountSeatIssues(id: nat, items: seq<Item>, j: nat)
    ensures CountItem(Issues(SeatTickets(id, items), id), j)
         == if j < |items| && items[j].claim.row.kind.Seat? then 1 else 0
    decreases |items|
  {
    if items != [] {
      var k := |items| - 1;
      var own := SeatTicket(id, k, items[k]);
      assert SeatTickets(id, items) == SeatTickets(id, items[..k]) + own;
      CountSeatIssues(id, items[..k], j);
      AddedTickets(SeatTickets(id, items[..k]), own, id, k, j);
    }
  }

  lemma {:induction false} CountCopies(tickets: seq<Ticket>, id: nat, k: nat, j: nat)
    requires forall t <- tickets :: t == Ticket(id, k, Issued)
    ensures CountItem(Issues(tickets, id), j) == if j == k then |tickets| else 0
    decreases |tickets|
  {
    if tickets != [] {
      var n := |tickets| - 1;
      assert forall t <- tickets[..n] :: t in tickets;
      assert tickets[n] in tickets;
      CountCopies(tickets[..n], id, k, j);
    }
  }

  lemma {:induction false} CountPoolIssues(id: nat, items: seq<Item>, j: nat)
    ensures CountItem(Issues(PoolTickets(id, items), id), j) == if j < |items| then Admissions(items[j]) else 0
    decreases |items|
  {
    if items != [] {
      var k := |items| - 1;
      var copies := Copies(id, k, Admissions(items[k]));
      assert PoolTickets(id, items) == PoolTickets(id, items[..k]) + copies;
      CountPoolIssues(id, items[..k], j);
      AddedTickets(PoolTickets(id, items[..k]), copies, id, k, j);
    }
  }

  /** Issuing creates exactly one ticket per seat item, the quantity of each admission item, and
      none for any other pool; issuing again creates none. */
  lemma IssuesWhatIsDue(s: State, id: nat, j: nat)
    requires TicketsOk(s) && id < |s.orders| && s.orders[id].status == Paid
    ensures var (t, outcome) := Issue(s, id);
            && outcome.IssuedNow?
            && t.orders[id].status == Ticketed
            && CountItem(Issues(t.tickets, id), j)
               == (if j < |s.orders[id].items| then Entitled(s.orders[id].items[j]) else 0)
            && Issue(t, id) == (t, AlreadyIssued)
  {
    var items := s.orders[id].items;
    assert Agrees(s.tickets, id, s.orders[id]);
    ConcatIssues(s.tickets, TicketsFor(id, items), id);
    ConcatIssues(SeatTickets(id, items), PoolTickets(id, items), id);
    CountSeatIssues(id, items, j);
    CountPoolIssues(id, items, j);
  }
}
