/** What each transaction of the order engine does, on its inputs and the rows it leaves: what an order
is charged, why one is refused, what a payment callback, a scan or a direct claim decides. Invariants
over whole runs are in LedgerSafety, StreamSafety and TicketSafety. */
module Transactions {
  import opened Outcomes
  import opened OrderLifecycle
  import opened Ledger
  import opened Booking
  import opened LedgerSafety
  import opened TicketSafety

  // ---- what a created order holds --------------------------------------------------------------------

  /** The row made for one requested item. */
  ghost predicate Stored(asked: NewItem, item: Item) {
    && asked.target.Target?
    && item.claim.row == asked.target.row && item.claim.span == asked.target.span
    && item.claim.qty == (if asked.quantity < 1 then 1 else asked.quantity)
    && item.price == asked.price && item.admission == asked.target.admission
    && item.passenger == if asked.target.row.kind.Pool? then None
                         else if asked.passenger.Some? then asked.passenger else Some(0)
  }

  ghost predicate SameElsewhere(s: State, t: State) {
    t.tickets == s.tickets && t.scans == s.scans && t.cancelledTrips == s.cancelledTrips && t.direct == s.direct
  }

  /** What one requested item takes from the ledger: a seat whatever its quantity, a pool just that. */
  ghost predicate Takes(asked: NewItem, c: Claim) {
    && asked.target.Target? && c.row == asked.target.row && c.span == asked.target.span
    && c.qty == if c.row.kind.Pool? || asked.quantity >= 1 then asked.quantity else 1
  }

  lemma WantedTakes(items: seq<NewItem>, k: nat)
    requires k < |items| && forall item <- items :: item.target.Target?
    ensures |AllWanted(items)| == |items| && Takes(items[k], AllWanted(items)[k])
  {}

  lemma PlaceLeaves(s: State, row: Order, occ: Occupancy)
    ensures var t := Place(s, row, occ);
            && t.orders == s.orders + [row] && t.occ == occ && SameElsewhere(s, t)
            && |t.log| == |s.log| + 2 && t.log[..|s.log|] == s.log
            && t.log[|s.log|].stream == t.log[|s.log| + 1].stream == |s.orders|
            && t.log[|s.log|].kind.OrderCreated? && t.log[|s.log| + 1].kind.InventoryLocked?
  {}

  lemma PlacedIs(order: NewOrder)
    requires Check(order).None?
    ensures var made := Placed(order);
            made.status.Locked? && made.intent.None? && made.expiresAt == Some(order.now + 900_000)
            && |made.items| == |order.items|
  {}

  /** A created order is Locked for fifteen minutes, has the items asked for and no payment yet, and its
      stream is its creation and the lock; nothing else but the ledger changes, by exactly its items' claims.
      No pool item of it has a quantity that is not positive. */
  lemma CreatedOrder(s: State, order: NewOrder)
    requires Create(s, order).1.Created?
    ensures var (t, outcome) := Create(s, order);
            && outcome.id == |s.orders| && |t.orders| == |s.orders| + 1
            && t.orders[..|s.orders|] == s.orders && SameElsewhere(s, t)
            && var made := t.orders[outcome.id];
               && made.status.Locked? && made.intent.None? && made.expiresAt == Some(order.now + 900_000)
               && |made.items| == |order.items|
               && forall k :: 0 <= k < |order.items| ==> Stored(order.items[k], made.items[k])
    ensures var (t, outcome) := Create(s, order);
            && |t.log| == |s.log| + 2 && t.log[..|s.log|] == s.log
            && t.log[|s.log|].stream == t.log[|s.log| + 1].stream == outcome.id
            && t.log[|s.log|].kind.OrderCreated? && t.log[|s.log| + 1].kind.InventoryLocked?
    ensures MovedAll(s.occ, Create(s, order).0.occ, ClaimsOf(Create(s, order).0.orders[|s.orders|].items), 1)
    ensures forall item <- order.items :: item.target.Target? && (item.target.row.kind.Pool? ==> item.quantity > 0)
  {
    var occ := ClaimAll(s.occ, AllWanted(order.items)).value;
    PlaceLeaves(s, Placed(order), occ);
    assert Create(s, order) == (Place(s, Placed(order), occ), Created(|s.orders|));
    PlacedIs(order);
    ItemsStored(order);
    CreatedClaims(s, order);
  }

  lemma ItemsStored(order: NewOrder)
    requires Check(order).None?
    ensures forall k :: 0 <= k < |order.items| ==> Stored(order.items[k], Placed(order).items[k])
  {
    CheckIff(order);
    forall k | 0 <= k < |order.items|
      ensures Stored(order.items[k], Placed(order).items[k])
    {
      assert Wired(order.items[k], order.passengers);
    }
  }

  lemma CreatedClaims(s: State, order: NewOrder)
    requires Check(order).None? && ClaimAll(s.occ, AllWanted(order.items)).Ok?
    ensures MovedAll(s.occ, ClaimAll(s.occ, AllWanted(order.items)).value, ClaimsOf(Placed(order).items), 1)
    ensures forall item <- order.items :: item.target.row.kind.Pool? ==> item.quantity > 0
  {
    var claims := AllWanted(order.items);
    ClaimAllWinsIff(s.occ, claims);
    RecordedAsClaimed(s, order);
    forall item | item in order.items && item.target.row.kind.Pool?
      ensures item.quantity > 0
    {
      var k :| 0 <= k < |order.items| && order.items[k] == item;
      WantedTakes(order.items, k);
      assert Claimable(s.occ, claims[k]);
    }
  }

  // ---- what it costs ---------------------------------------------------------------------------------

  function Plus(xs: seq<int>): int {
    if xs == [] then 0 else xs[0] + Plus(xs[1..])
  }

  lemma {:induction false} PlusAppend(xs: seq<int>, x: int)
    ensures Plus(xs + [x]) == Plus(xs) + x
    decreases |xs|
  {
    if xs == [] {
      assert [x][1..] == [];
    } else {
      assert (xs + [x])[1..] == xs[1..] + [x];
      PlusAppend(xs[1..], x);
    }
  }

  function Prices(items: seq<NewItem>): (prices: seq<int>)
    ensures |prices| == |items| && forall i :: 0 <= i < |items| ==> prices[i] == items[i].price
  {
    seq(|items|, i requires 0 <= i < |items| => items[i].price)
  }

  function LineTotals(lines: seq<NewAncillary>): (totals: seq<int>)
    ensures |totals| == |lines| && forall i :: 0 <= i < |lines| ==> totals[i] == lines[i].total
  {
    seq(|lines|, i requires 0 <= i < |lines| => lines[i].total)
  }

  lemma {:induction false} PriceIsSum(items: seq<NewItem>)
    ensures PriceOf(items) == Plus(Prices(items))
    decreases |items|
  {
    if items != [] {
      var init := items[..|items| - 1];
      PriceIsSum(init);
      PlusAppend(Prices(init), items[|items| - 1].price);
      assert Prices(items) == Prices(init) + [items[|items| - 1].price];
    }
  }

  lemma {:induction false} AncillariesAreSum(lines: seq<NewAncillary>)
    ensures AncillaryTotal(lines) == Plus(LineTotals(lines))
    decreases |lines|
  {
    if lines != [] {
      var init := lines[..|lines| - 1];
      AncillariesAreSum(init);
      PlusAppend(LineTotals(init), lines[|lines| - 1].total);
      assert LineTotals(lines) == LineTotals(init) + [lines[|lines| - 1].total];
    }
  }

  /** What the created order is to be charged. */
  function Charged(s: State, order: NewOrder): int
    requires Create(s, order).1.Created?
  {
    Create(s, order).0.orders[|s.orders|].total
  }

  /** Every created order is charged the sum of its items' prices and its ancillary lines' totals. */
  lemma ChargedIsSum(s: State, order: NewOrder)
    requires Create(s, order).1.Created?
    ensures Charged(s, order) == Plus(Prices(order.items)) + Plus(LineTotals(order.ancillaries))
  {
    PriceIsSum(order.items);
    AncillariesAreSum(order.ancillaries);
  }

  /** A single item with nothing beside it costs its price. */
  lemma OneItemCosts(s: State, order: NewOrder)
    requires Create(s, order).1.Created? && |order.items| == 1 && order.ancillaries == []
    ensures Charged(s, order) == order.items[0].price
  {
    ChargedIsSum(s, order);
    assert Prices(order.items)[1..] == [];
  }

  /** One more item costs its price more, one more line its total, whatever the inventory then was. */
  lemma OneMoreCosts(s: State, t: State, order: NewOrder, item: NewItem, line: NewAncillary)
    requires Create(s, order).1.Created?
    ensures var more := order.(items := order.items + [item]);
            Create(t, more).1.Created? ==> Charged(t, more) == Charged(s, order) + item.price
    ensures var more := order.(ancillaries := order.ancillaries + [line]);
            Create(t, more).1.Created? ==> Charged(t, more) == Charged(s, order) + line.total
  {
    ChargedIsSum(s, order);
    var items, lines := order.items + [item], order.ancillaries + [line];
    PlusAppend(Prices(order.items), item.price);
    PlusAppend(LineTotals(order.ancillaries), line.total);
    assert Prices(items) == Prices(order.items) + [item.price];
    assert LineTotals(lines) == LineTotals(order.ancillaries) + [line.total];
    if Create(t, order.(items := items)).1.Created? {
      ChargedIsSum(t, order.(items := items));
    }
    if Create(t, order.(ancillaries := lines)).1.Created? {
      ChargedIsSum(t, order.(ancillaries := lines));
    }
  }

  // ---- why an order is refused -------------------------------------------------------------------------

  ghost predicate ResolvedUpTo(order: NewOrder, k: nat) {
    k <= |order.items| && forall i :: 0 <= i < k ==> order.items[i].target.Target?
  }

  ghost predicate WiredUpTo(order: NewOrder, k: nat) {
    ResolvedUpTo(order, |order.items|) && k <= |order.items|
    && forall i :: 0 <= i < k ==> Wired(order.items[i], order.passengers)
  }

  ghost predicate LinesOkUpTo(order: NewOrder, k: nat) {
    WiredUpTo(order, |order.items|) && k <= |order.ancillaries|
    && forall i :: 0 <= i < k ==> LineOk(order.ancillaries[i], order.passengers)
  }

  ghost predicate SeatOutOfRange(order: NewOrder, k: nat, index: nat) {
    && WiredUpTo(order, k) && k < |order.items| && order.items[k].target.row.kind.Seat?
    && order.items[k].passenger == Some(index) && index >= order.passengers
  }

  ghost predicate LineOutOfRange(order: NewOrder, k: nat, index: nat) {
    && LinesOkUpTo(order, k) && k < |order.ancillaries|
    && order.ancillaries[k].passenger == Some(index) && index >= order.passengers
  }

  ghost predicate Filled(order: NewOrder) {
    order.passengers > 0 && order.items != []
  }

  /** The reason applies, and everything checked before it passes. */
  ghost predicate Applies(order: NewOrder, why: Rejection) {
    match why
    case NoPassengers => order.passengers == 0
    case NoItems => order.passengers > 0 && order.items == []
    case UnknownTarget(k) =>
      Filled(order) && ResolvedUpTo(order, k) && k < |order.items| && order.items[k].target.Missing?
    case TargetRefused(k) =>
      Filled(order) && ResolvedUpTo(order, k) && k < |order.items| && order.items[k].target.Unsellable?
    case SeatNeedsPassenger(k) =>
      && Filled(order) && WiredUpTo(order, k) && k < |order.items| && order.items[k].target.row.kind.Seat?
      && order.items[k].passenger.None? && order.passengers != 1
    case PoolWithPassenger(k) =>
      && Filled(order) && WiredUpTo(order, k) && k < |order.items| && order.items[k].target.row.kind.Pool?
      && order.items[k].passenger.Some?
    case PassengerOutOfRange(index) =>
      && Filled(order)
      && ((exists k: nat :: SeatOutOfRange(order, k, index)) || (exists k: nat :: LineOutOfRange(order, k, index)))
  }

  lemma {:induction false} TargetRefusal(order: NewOrder, k: nat)
    requires ResolvedUpTo(order, k) && Filled(order)
    ensures CheckTargets(order.items, k).Some? ==> Applies(order, CheckTargets(order.items, k).value)
    ensures CheckTargets(order.items, k).None? ==> ResolvedUpTo(order, |order.items|)
    decreases |order.items| - k
  {
    if k < |order.items| && order.items[k].target.Target? {
      TargetRefusal(order, k + 1);
    }
  }

  lemma {:induction false} WiringRefusal(order: NewOrder, k: nat)
    requires WiredUpTo(order, k) && Filled(order)
    requires forall item <- order.items :: item.target.Target?
    ensures CheckWiring(order.items, order.passengers, k).Some? ==>
              Applies(order, CheckWiring(order.items, order.passengers, k).value)
    ensures CheckWiring(order.items, order.passengers, k).None? ==> WiredUpTo(order, |order.items|)
    decreases |order.items| - k
  {
    if k < |order.items| {
      var slot := Slot(order.items[k], k, order.passengers);
      if slot.Ok? {
        WiringRefusal(order, k + 1);
      } else if slot.error.PassengerOutOfRange? {
        assert SeatOutOfRange(order, k, slot.error.index);
      }
    }
  }

  lemma {:induction false} LineRefusal(order: NewOrder, k: nat)
    requires LinesOkUpTo(order, k) && Filled(order)
    ensures CheckAncillaries(order.ancillaries, order.passengers, k).Some? ==>
              Applies(order, CheckAncillaries(order.ancillaries, order.passengers, k).value)
    decreases |order.ancillaries| - k
  {
    if k < |order.ancillaries| {
      var passenger := order.ancillaries[k].passenger;
      if passenger.Some? && passenger.value >= order.passengers {
        assert LineOutOfRange(order, k, passenger.value);
      } else {
        LineRefusal(order, k + 1);
      }
    }
  }

  lemma RefusalApplies(order: NewOrder)
    requires Check(order).Some?
    ensures Applies(order, Check(order).value)
  {
    if order.passengers > 0 && order.items != [] {
      TargetRefusal(order, 0);
      if CheckTargets(order.items, 0).None? {
        TargetsKnown(order.items, 0);
        WiringRefusal(order, 0);
        if CheckWiring(order.items, order.passengers, 0).None? {
          LineRefusal(order, 0);
        }
      }
    }
  }

  /** At most one reason applies: the first thing that is wrong. */
  lemma OneReason(order: NewOrder, a: Rejection, b: Rejection)
    requires Applies(order, a) && Applies(order, b)
    ensures a == b
  {}

  lemma ReasonMeansRefusal(order: NewOrder, why: Rejection)
    requires Applies(order, why)
    ensures Check(order).Some?
  {
    CheckIff(order);
  }

  /** An order is refused for a reason exactly when that is the first thing wrong with it; the state stays
      as it was. */
  lemma RejectedIff(s: State, order: NewOrder, why: Rejection)
    ensures Create(s, order).1 == Rejected(why) <==> Applies(order, why)
    ensures Create(s, order).1.Rejected? ==> Create(s, order).0 == s
  {
    if Check(order).Some? {
      RefusalApplies(order);
    }
    if Applies(order, why) {
      ReasonMeansRefusal(order, why);
      OneReason(order, why, Check(order).value);
    }
  }

  // ---- which item conflicts --------------------------------------------------------------------------

  lemma PrefixGoesOn(occ: Occupancy, claims: seq<Claim>, k: nat)
    requires 0 < k <= |claims| && TryClaim(occ, claims[0]).Some?
    ensures ClaimAll(occ, claims[..k]).Ok? <==> ClaimAll(TryClaim(occ, claims[0]).value, claims[1..][..k - 1]).Ok?
  {
    assert claims[..k][1..] == claims[1..][..k - 1];
  }

  lemma {:induction false} ErrIsFirst(occ: Occupancy, claims: seq<Claim>, k: nat)
    requires k < |claims|
    ensures ClaimAll(occ, claims) == Err(k) <==> ClaimAll(occ, claims[..k]).Ok? && ClaimAll(occ, claims[..k + 1]).Err?
    decreases |claims|
  {
    var next := TryClaim(occ, claims[0]);
    if next.Some? {
      PrefixGoesOn(occ, claims, k + 1);
      if k > 0 {
        PrefixGoesOn(occ, claims, k);
        ErrIsFirst(next.value, claims[1..], k - 1);
      }
    }
  }

  lemma {:induction false} ErrIsIndex(occ: Occupancy, claims: seq<Claim>)
    ensures ClaimAll(occ, claims).Err? ==> ClaimAll(occ, claims).error < |claims|
    decreases |claims|
  {
    if claims != [] && TryClaim(occ, claims[0]).Some? {
      ErrIsIndex(TryClaim(occ, claims[0]).value, claims[1..]);
    }
  }

  /** A conflict names the first item whose claim does not fit beside those before it. */
  lemma ConflictIsFirst(s: State, order: NewOrder, k: nat)
    requires Check(order).None?
    ensures Create(s, order).1 == Conflict(k) <==>
            var claims := AllWanted(order.items);
            k < |claims| && JointlyFits(s.occ, claims[..k]) && !JointlyFits(s.occ, claims[..k + 1])
  {
    var claims := AllWanted(order.items);
    ErrIsIndex(s.occ, claims);
    if k < |claims| {
      ErrIsFirst(s.occ, claims, k);
      ClaimAllWinsIff(s.occ, claims[..k]);
      ClaimAllWinsIff(s.occ, claims[..k + 1]);
    }
  }

  // ---- runs ----------------------------------------------------------------------------------------------

  /** A run is its steps, one after the other. */
  lemma {:induction false} RunTakesEveryStep(s: State, steps: seq<Step>, step: Step)
    ensures Run(s, steps + [step]) == Next(Run(s, steps), step)
    decreases |steps|
  {
    if steps == [] {
      assert [step][1..] == [];
    } else {
      assert (steps + [step])[1..] == steps[1..] + [step];
      RunTakesEveryStep(Next(s, steps[0]), steps[1..], step);
    }
  }

  // ---- payment callbacks -------------------------------------------------------------------------------

  /** Order `id` became `order` and its stream gained one event of this kind; nothing else changed. */
  ghost predicate Moved(s: State, t: State, id: nat, order: Order, kind: EventType) {
    && id < |s.orders| && t.orders == s.orders[id := order]
    && |t.log| == |s.log| + 1 && t.log[..|s.log|] == s.log
    && t.log[|s.log|].stream == id && t.log[|s.log|].kind == kind
    && t.occ == s.occ && SameElsewhere(s, t)
  }

  /** The lowest id with that intent: the one the callback is for. */
  ghost predicate IsFor(orders: seq<Order>, id: nat, intent: nat) {
    && id < |orders| && orders[id].intent == Some(intent)
    && forall i :: 0 <= i < id ==> orders[i].intent != Some(intent)
  }

  lemma {:induction false} FindByIntentIff(orders: seq<Order>, intent: nat, id: nat)
    ensures FindByIntent(orders, intent) == Some(id) <==> IsFor(orders, id, intent)
    ensures FindByIntent(orders, intent) == None <==> forall i :: 0 <= i < |orders| ==> orders[i].intent != Some(intent)
    decreases |orders|
  {
    if orders != [] {
      FindByIntentIff(orders[..|orders| - 1], intent, id);
      var found := FindByIntent(orders[..|orders| - 1], intent);
      if found.Some? {
        FindByIntentIff(orders[..|orders| - 1], intent, found.value);
      }
    }
  }

  /** A successful callback on an order awaiting payment makes it Paid and stops its expiry; a failed one
      takes it back to Locked with its expiry running. Whatever else the order's status is, nothing changes. */
  lemma CallbackDecides(s: State, intent: nat, succeeded: bool, id: nat)
    requires IsFor(s.orders, id, intent)
    ensures var (t, outcome) := PaymentResult(s, intent, succeeded);
            var order := s.orders[id];
            if !order.status.PendingPayment? then t == s && outcome == NoOp(order.status)
            else if succeeded then
              outcome == Applied(Paid) && Moved(s, t, id, order.(status := Paid, expiresAt := None), PaymentCaptured)
            else
              outcome == Applied(Locked) && Moved(s, t, id, order.(status := Locked), PaymentFailed)
  {
    FindByIntentIff(s.orders, intent, id);
  }

  lemma UnknownIntentIsNotFound(s: State, intent: nat, succeeded: bool)
    requires forall i :: 0 <= i < |s.orders| ==> s.orders[i].intent != Some(intent)
    ensures PaymentResult(s, intent, succeeded) == (s, NotFound)
  {
    FindByIntentIff(s.orders, intent, 0);
  }

  /** Asking for payment records the intent on a Locked order and changes no other. */
  lemma RequestDecides(s: State, id: nat, intent: nat)
    ensures var (t, outcome) := RequestPayment(s, id, intent);
            if id >= |s.orders| then t == s && outcome == NotFound
            else if s.orders[id].status.Locked? then
              && outcome == Applied(PendingPayment)
              && Moved(s, t, id, s.orders[id].(status := PendingPayment, intent := Some(intent)), PaymentRequested)
            else t == s && outcome == NoOp(s.orders[id].status)
  {}

  ghost predicate IsCaptured(s: State, id: nat) {
    id < |s.orders| && WasCaptured(s.orders[id].status)
  }

  lemma EventCaptures(s: State, id: nat, event: EventType, other: nat)
    requires !IsCaptured(s, other) && IsCaptured(ApplyEvent(s, id, event).0, other)
    ensures other == id && event.PaymentCaptured? && s.orders[id].status.PendingPayment?
  {}

  lemma CreationCapturesNothing(s: State, order: NewOrder, id: nat)
    requires !IsCaptured(s, id)
    ensures !IsCaptured(Create(s, order).0, id)
  {
    var t := Create(s, order).0;
    if Create(s, order).1.Created? {
      CreatedOrder(s, order);
      assert id < |s.orders| ==> t.orders[id] == t.orders[..|s.orders|][id];
    }
  }

  lemma ScanCapturesNothing(s: State, scan: ScanKey, id: nat)
    requires !IsCaptured(s, id)
    ensures !IsCaptured(RecordScan(s, scan).0, id)
  {
    if scan.ticket < |s.tickets| {
      var ticket := s.tickets[scan.ticket];
      var boarded := s.(scans := s.scans + {scan},
                        tickets := s.tickets[scan.ticket := ticket.(status := TicketStatus.Boarded)]);
      if IsCaptured(ApplyEvent(boarded, ticket.order, PassengerBoarded).0, id) {
        EventCaptures(boarded, ticket.order, PassengerBoarded, id);
      }
    }
  }

  lemma LeavingCapturesNothing(s: State, step: Step, id: nat)
    requires !IsCaptured(s, id) && (step.StepCancel? || step.StepExpire? || step.StepRefund?)
    ensures !IsCaptured(Next(s, step), id)
  {
    LeavingDecides(s, step.id);
  }

  lemma CallbackCaptures(s: State, id: nat, succeeded: bool, other: nat)
    requires !IsCaptured(s, other) && IsCaptured(SettlePayment(s, id, succeeded).0, other)
    ensures other == id && succeeded && s.orders[id].status.PendingPayment?
  {
    var event := if succeeded then PaymentCaptured else PaymentFailed;
    if IsCaptured(ApplyEvent(s, id, event).0, other) {
      EventCaptures(s, id, event, other);
    }
  }

  /** Only a successful callback, on an order awaiting payment, captures. */
  lemma OnlySuccessCaptures(s: State, step: Step, id: nat)
    requires !IsCaptured(s, id)
    ensures IsCaptured(Next(s, step), id) ==>
              step == StepPayment(id, true) && id < |s.orders| && s.orders[id].status.PendingPayment?
  {
    match step
    case StepCreate(order) => CreationCapturesNothing(s, order, id);
    case StepRequestPayment(other, intent) => RequestDecides(s, other, intent);
    case StepPayment(other, succeeded) =>
      if IsCaptured(SettlePayment(s, other, succeeded).0, id) {
        CallbackCaptures(s, other, succeeded, id);
      }
    case StepScan(scan) => ScanCapturesNothing(s, scan, id);
    case StepIssue(other) => IssueDecides(s, other);
    case StepCancel(_) => LeavingCapturesNothing(s, step, id);
    case StepExpire(_) => LeavingCapturesNothing(s, step, id);
    case StepRefund(_) => LeavingCapturesNothing(s, step, id);
    case StepDirectClaim(_) =>
    case StepCancelTrip(_) =>
  }

  /** Over whole runs, with any stale and duplicated callbacks: an order is captured only if a successful
      result for it came at a moment when it was awaiting payment. */
  lemma {:induction false} CapturedMeansPaid(s: State, steps: seq<Step>, id: nat) returns (k: nat)
    requires IsCaptured(Run(s, steps), id) && !IsCaptured(s, id)
    ensures k < |steps| && steps[k] == StepPayment(id, true)
    ensures var before := Run(s, steps[..k]);
            id < |before.orders| && before.orders[id].status.PendingPayment?
    decreases |steps|
  {
    var next := Next(s, steps[0]);
    if IsCaptured(next, id) {
      OnlySuccessCaptures(s, steps[0], id);
      k := 0;
    } else {
      var rest := CapturedMeansPaid(next, steps[1..], id);
      k := rest + 1;
      assert steps[..k][1..] == steps[1..][..rest];
    }
  }

  // ---- leaving -------------------------------------------------------------------------------------------

  /** Only an unpaid order can be cancelled or expire, and only a paid one that has not boarded be refunded,
      which voids its tickets and no other; anything else changes nothing. */
  lemma LeavingDecides(s: State, id: nat)
    ensures var (t, outcome) := Cancel(s, id);
            if id < |s.orders| && (s.orders[id].status.Locked? || s.orders[id].status.PendingPayment?) then
              outcome == Applied(Cancelled) && t.orders == s.orders[id := s.orders[id].(status := Cancelled)]
              && t.tickets == s.tickets
            else t == s && !outcome.Applied?
    ensures var (t, outcome) := Expire(s, id);
            if id < |s.orders| && (s.orders[id].status.Locked? || s.orders[id].status.PendingPayment?) then
              outcome == Applied(Expired) && t.orders == s.orders[id := s.orders[id].(status := Expired)]
              && t.tickets == s.tickets
            else t == s && !outcome.Applied?
    ensures var (t, outcome) := Refund(s, id);
            if id < |s.orders| && (s.orders[id].status.Paid? || s.orders[id].status.Ticketed?) then
              outcome == Applied(Refunded) && t.orders == s.orders[id := s.orders[id].(status := Refunded)]
              && |t.tickets| == |s.tickets|
              && forall k :: 0 <= k < |s.tickets| ==>
                   t.tickets[k] == if s.tickets[k].order == id then s.tickets[k].(status := Void) else s.tickets[k]
            else t == s && !outcome.Applied?
  {}

  // ---- tickets and scans -----------------------------------------------------------------------------------

  /** Issuing reports how many tickets it added: issued ones, of this order, from a paid order only. */
  lemma IssueDecides(s: State, id: nat)
    ensures var (t, outcome) := Issue(s, id);
            if id < |s.orders| && s.orders[id].status.Paid? then
              && outcome.IssuedNow? && |t.tickets| == |s.tickets| + outcome.count
              && t.tickets[..|s.tickets|] == s.tickets
              && (forall k :: |s.tickets| <= k < |t.tickets| ==> t.tickets[k].order == id && t.tickets[k].status.Issued?)
              && t.orders == s.orders[id := s.orders[id].(status := Ticketed)]
            else t == s && !outcome.IssuedNow?
    ensures var outcome := Issue(s, id).1;
            && (outcome.NoSuchOrder? <==> id >= |s.orders|)
            && (outcome.AlreadyIssued? <==>
                  id < |s.orders| && (s.orders[id].status.Ticketed? || s.orders[id].status == OrderStatus.Boarded))
            && (outcome.NotPaid? ==> outcome.status == s.orders[id].status)
  {
    if id < |s.orders| {
      TicketsForUniform(id, s.orders[id].items);
    }
  }

  /** What a scan answers, and that it is journalled unless the ticket is unknown. */
  lemma ScanDecides(s: State, scan: ScanKey)
    ensures var (t, outcome) := RecordScan(s, scan);
            && (outcome.UnknownTicket? <==> scan.ticket >= |s.tickets|)
            && (outcome.DuplicateScan? <==> scan.ticket < |s.tickets| && scan in s.scans)
            && (outcome.NotBoardable? <==>
                  scan.ticket < |s.tickets| && scan !in s.scans && !s.tickets[scan.ticket].status.Issued?)
            && (outcome.NotBoardable? ==> outcome.status == s.tickets[scan.ticket].status && t == s.(scans := t.scans))
            && (outcome.UnknownTicket? || outcome.DuplicateScan? ==> t == s)
            && (scan.ticket < |s.tickets| ==> t.scans == s.scans + {scan})
  {}

  lemma StepKeepsScans(s: State, step: Step)
    ensures s.scans <= Next(s, step).scans && |s.tickets| <= |Next(s, step).tickets|
  {
    match step
    case StepCreate(order) => if Create(s, order).1.Created? { CreatedOrder(s, order); }
    case StepIssue(id) => IssueDecides(s, id);
    case StepScan(scan) => ScanDecides(s, scan);
    case _ =>
  }

  lemma {:induction false} ScansStay(s: State, steps: seq<Step>)
    ensures s.scans <= Run(s, steps).scans && |s.tickets| <= |Run(s, steps).tickets|
    decreases |steps|
  {
    if steps != [] {
      StepKeepsScans(s, steps[0]);
      ScansStay(Next(s, steps[0]), steps[1..]);
    }
  }

  /** A scan sent again, whatever ran in between, is recognised and changes nothing. */
  lemma RepeatedScanChangesNothing(s: State, scan: ScanKey, between: seq<Step>)
    requires scan.ticket < |s.tickets|
    ensures var t := Run(RecordScan(s, scan).0, between);
            RecordScan(t, scan) == (t, DuplicateScan)
  {
    ScanDecides(s, scan);
    ScansStay(RecordScan(s, scan).0, between);
  }

  // ---- direct claims ---------------------------------------------------------------------------------------

  /** A direct claim wins exactly when it fits; otherwise it is contended, unless the row does not exist and
      the quantity was not refused before the row was looked at. */
  lemma DirectClaimDecides(s: State, c: Claim)
    ensures var (t, outcome) := DirectClaim(s, c);
            && (outcome.Claimed? <==> Claimable(s.occ, c) && Fits(s.occ, c))
            && (outcome.NoSuchRow? <==>
                  c.row !in s.occ.seats && c.row !in s.occ.pools && !(c.row.kind.Pool? && c.qty <= 0))
            && (outcome.Claimed? ==> Ledger.Moved(s.occ, t.occ, c, 1) && t == s.(occ := t.occ, direct := s.direct + [c]))
            && (!outcome.Claimed? ==> t == s)
  {
    ClaimWinsIff(s.occ, c);
  }
}
