/** The ledger over whole runs: on every segment of every row, what is taken is the sum of the
active claims, no more and no less, and every release loop succeeds item by item. */
module LedgerSafety {
  import opened Outcomes
  import opened Segments
  import opened OrderLifecycle
  import opened Ledger
  import opened Booking
  import opened StreamSafety

  /** The claims one order has in the ledger. */
  function Part(order: Order): seq<Claim> {
    if HoldsClaims(order.status) then ClaimsOf(order.items) else []
  }

  function OrderClaims(orders: seq<Order>): seq<Claim> {
    if orders == [] then [] else OrderClaims(orders[..|orders| - 1]) + Part(orders[|orders| - 1])
  }

  /** Every claim anyone still owns: the direct ones and those of orders that hold claims. */
  function ActiveClaims(s: State): seq<Claim> {
    s.direct + OrderClaims(s.orders)
  }

  ghost predicate NoDrafts(orders: seq<Order>) {
    forall o <- orders :: !o.status.Draft?
  }

  ghost predicate LedgerOk(s: State) {
    Tabled(s.occ) && NoDrafts(s.orders) && Conserved(s.occ, ActiveClaims(s))
  }

  // ---- sums over orders --------------------------------------------------------------------------

  lemma {:induction false} SameParts(a: seq<Order>, b: seq<Order>)
    requires |a| == |b| && forall i :: 0 <= i < |a| ==> Part(a[i]) == Part(b[i])
    ensures OrderClaims(a) == OrderClaims(b)
    decreases |a|
  {
    if a != [] {
      var n := |a| - 1;
      forall i | 0 <= i < n
        ensures Part(a[..n][i]) == Part(b[..n][i])
      {
        assert Part(a[i]) == Part(b[i]);
      }
      SameParts(a[..n], b[..n]);
    }
  }

  function OrdersLoad(orders: seq<Order>, row: Row, i: nat): int {
    if orders == [] then 0
    else OrdersLoad(orders[..|orders| - 1], row, i) + Load(Part(orders[|orders| - 1]), row, i)
  }

  lemma {:induction false} OrdersLoadIsSum(orders: seq<Order>, row: Row, i: nat)
    ensures Load(OrderClaims(orders), row, i) == OrdersLoad(orders, row, i)
    decreases |orders|
  {
    if orders != [] {
      var n := |orders| - 1;
      OrdersLoadIsSum(orders[..n], row, i);
      LoadConcat(OrderClaims(orders[..n]), Part(orders[n]), row, i);
    }
  }

  lemma {:induction false} ReplaceInSum(orders: seq<Order>, k: nat, order: Order, row: Row, i: nat)
    requires k < |orders|
    ensures OrdersLoad(orders[k := order], row, i)
         == OrdersLoad(orders, row, i) - Load(Part(orders[k]), row, i) + Load(Part(order), row, i)
    decreases |orders|
  {
    var n := |orders| - 1;
    var replaced := orders[k := order];
    if k == n {
      assert replaced[..n] == orders[..n] && replaced[n] == order;
    } else {
      assert replaced[..n] == orders[..n][k := order] && replaced[n] == orders[n];
      ReplaceInSum(orders[..n], k, order, row, i);
      assert OrdersLoad(replaced, row, i) == OrdersLoad(replaced[..n], row, i) + Load(Part(orders[n]), row, i);
    }
  }

  /** Replacing one order replaces exactly its part of the sum. */
  lemma LoadOfReplaced(orders: seq<Order>, k: nat, order: Order, row: Row, i: nat)
    requires k < |orders|
    ensures Load(OrderClaims(orders[k := order]), row, i)
         == Load(OrderClaims(orders), row, i) - Load(Part(orders[k]), row, i) + Load(Part(order), row, i)
  {
    OrdersLoadIsSum(orders, row, i);
    OrdersLoadIsSum(orders[k := order], row, i);
    ReplaceInSum(orders, k, order, row, i);
  }

  lemma {:induction false} PartIsActive(orders: seq<Order>, k: nat, c: Claim)
    requires k < |orders| && c in Part(orders[k])
    ensures c in OrderClaims(orders)
    decreases |orders|
  {
    var n := |orders| - 1;
    if k < n {
      PartIsActive(orders[..n], k, c);
    }
  }

  lemma {:induction false} ActiveIsPart(orders: seq<Order>, c: Claim)
    requires c in OrderClaims(orders)
    ensures exists k :: 0 <= k < |orders| && c in Part(orders[k])
    decreases |orders|
  {
    var n := |orders| - 1;
    if c !in Part(orders[n]) {
      ActiveIsPart(orders[..n], c);
      var k :| 0 <= k < n && c in Part(orders[..n][k]);
      assert c in Part(orders[k]);
    }
  }

  lemma ActiveLoad(s: State, row: Row, i: nat)
    ensures Load(ActiveClaims(s), row, i) == Load(s.direct, row, i) + Load(OrderClaims(s.orders), row, i)
  {
    LoadConcat(s.direct, OrderClaims(s.orders), row, i);
  }

  // ---- the release loop of one order ---------------------------------------------------------------

  /** An order's own claims never exceed what the ledger carries. */
  lemma OwnClaimsHeld(s: State, id: nat)
    requires LedgerOk(s) && id < |s.orders| && HoldsClaims(s.orders[id].status)
    ensures AllClaimable(s.occ, ClaimsOf(s.orders[id].items))
    ensures HeldAll(s.occ, ClaimsOf(s.orders[id].items))
  {
    var own := ClaimsOf(s.orders[id].items);
    var gone := s.orders[id].(status := Cancelled);
    forall c | c in own
      ensures Claimable(s.occ, c)
    {
      PartIsActive(s.orders, id, c);
      assert c in ActiveClaims(s);
    }
    forall row, i: nat | i < Width(s.occ, row)
      ensures Used(s.occ, row, i) >= Load(own, row, i)
    {
      var others := OrderClaims(s.orders[id := gone]);
      ActiveLoad(s, row, i);
      LoadOfReplaced(s.orders, id, gone, row, i);
      OthersPositive(s, id);
      LoadNonNegative(s.direct, row, i);
      LoadNonNegative(others, row, i);
    }
  }

  lemma OthersPositive(s: State, id: nat)
    requires LedgerOk(s) && id < |s.orders|
    ensures Positive(s.direct)
    ensures Positive(OrderClaims(s.orders[id := s.orders[id].(status := Cancelled)]))
  {
    forall c | c in s.direct
      ensures Weight(c) > 0
    {
      assert c in ActiveClaims(s);
    }
    var orders := s.orders[id := s.orders[id].(status := Cancelled)];
    forall c | c in OrderClaims(orders)
      ensures Weight(c) > 0
    {
      ActiveIsPart(orders, c);
      var k :| 0 <= k < |orders| && c in Part(orders[k]);
      PartIsActive(s.orders, k, c);
      assert c in ActiveClaims(s);
    }
  }

  /** In every conserved state, releasing an order that holds claims never takes the failing
      branch, and gives back exactly that order's claims on every segment. */
  lemma ReleaseLoopWins(s: State, id: nat)
    requires LedgerOk(s) && id < |s.orders| && HoldsClaims(s.orders[id].status)
    ensures ReleaseItems(s, id).failures == 0
    ensures MovedAll(s.occ, ReleaseItems(s, id).occ, ClaimsOf(s.orders[id].items), -1)
  {
    OwnClaimsHeld(s, id);
    ReleaseAllWins(s.occ, ClaimsOf(s.orders[id].items));
  }

  /** The order the rows come back in makes no difference to what the ledger holds. */
  lemma PermutedHeld(occ: Occupancy, claims: seq<Claim>, order: seq<Claim>)
    requires multiset(order) == multiset(claims)
    requires AllClaimable(occ, claims) && HeldAll(occ, claims)
    ensures AllClaimable(occ, order) && HeldAll(occ, order)
  {
    forall c | c in order
      ensures Claimable(occ, c)
    {
      assert c in multiset(order);
      assert c in claims;
    }
    forall row, i: nat | i < Width(occ, row)
      ensures Used(occ, row, i) >= Load(order, row, i)
    {
      LoadOfPermutation(order, claims, row, i);
    }
  }

  /** What the release loop does to an order's claims, in whatever order the rows come: all of them
      go back, also part-way through, and nothing else moves. */
  ghost predicate ReleasesAll(occ: Occupancy, order: seq<Claim>) {
    && ReleaseAll(occ, order).failures == 0
    && MovedAll(occ, ReleaseAll(occ, order).occ, order, -1)
    && forall k: nat :: k < |order| ==> TryRelease(ReleaseAll(occ, order[..k]).occ, order[k]).Some?
  }

  lemma AnyOrderReleases(s: State, id: nat, order: seq<Claim>)
    requires LedgerOk(s) && id < |s.orders| && HoldsClaims(s.orders[id].status)
    requires multiset(order) == multiset(ClaimsOf(s.orders[id].items))
    ensures ReleasesAll(s.occ, order)
  {
    OwnClaimsHeld(s, id);
    PermutedHeld(s.occ, ClaimsOf(s.orders[id].items), order);
    ReleaseAllWins(s.occ, order);
    forall k: nat | k < |order|
      ensures TryRelease(ReleaseAll(s.occ, order[..k]).occ, order[k]).Some?
    {
      PrefixThenOne(s.occ, order, k);
    }
  }

  /** Releasing in any order leaves the same ledger. */
  lemma ReleaseOrderIrrelevant(s: State, id: nat, order: seq<Claim>)
    requires LedgerOk(s) && id < |s.orders| && HoldsClaims(s.orders[id].status)
    requires multiset(order) == multiset(ClaimsOf(s.orders[id].items))
    ensures ReleaseAll(s.occ, order) == ReleaseItems(s, id)
  {
    var claims := ClaimsOf(s.orders[id].items);
    AnyOrderReleases(s, id, order);
    AnyOrderReleases(s, id, claims);
    var x, y := ReleaseAll(s.occ, order).occ, ReleaseAll(s.occ, claims).occ;
    forall row, i: nat | i < Width(x, row)
      ensures i < Width(y, row) && Used(y, row, i) == Used(x, row, i) + 1 * Load([], row, i)
    {
      LoadOfPermutation(order, claims, row, i);
      SameShapeAgrees(s.occ, x, row);
      SameShapeAgrees(s.occ, y, row);
    }
    UsedDetermines(x, y);
  }

  lemma {:induction false} PrefixThenOne(occ: Occupancy, claims: seq<Claim>, k: nat)
    requires k < |claims| && AllClaimable(occ, claims) && HeldAll(occ, claims)
    ensures TryRelease(ReleaseAll(occ, claims[..k]).occ, claims[k]).Some?
    decreases k
  {
    ReleaseAllWins(occ, claims);
    FirstReleaseWins(occ, claims);
    if k > 0 {
      var next := TryRelease(occ, claims[0]).value;
      assert claims[..k][1..] == claims[1..][..k - 1];
      PrefixThenOne(next, claims[1..], k - 1);
    }
  }

  lemma FirstReleaseWins(occ: Occupancy, claims: seq<Claim>)
    requires claims != [] && AllClaimable(occ, claims) && HeldAll(occ, claims)
    ensures TryRelease(occ, claims[0]).Some?
    ensures AllClaimable(TryRelease(occ, claims[0]).value, claims[1..])
    ensures HeldAll(TryRelease(occ, claims[0]).value, claims[1..])
  {
    var c := claims[0];
    TailClaimable(occ, claims);
    forall i: nat | i < Width(occ, c.row) && Covers(c.span, i)
      ensures Used(occ, c.row, i) >= Weight(c)
    {
      LoadNonNegative(claims[1..], c.row, i);
    }
    ReleaseWinsIff(occ, c);
    var next := TryRelease(occ, c).value;
    forall row
      ensures Width(next, row) == Width(occ, row)
    {
      SameShapeAgrees(occ, next, row);
    }
  }

  // ---- one lemma per kind of step --------------------------------------------------------------------

  /** `t` has the ledger of `s`, and its orders hold the same claims. */
  ghost predicate SameClaims(s: State, t: State) {
    && t.occ == s.occ && t.direct == s.direct
    && |t.orders| == |s.orders|
    && (forall i :: 0 <= i < |s.orders| ==>
          Part(t.orders[i]) == Part(s.orders[i]) && (t.orders[i].status.Draft? ==> s.orders[i].status.Draft?))
  }

  lemma SameClaimsKeep(s: State, t: State)
    requires LedgerOk(s) && SameClaims(s, t)
    ensures LedgerOk(t)
  {
    SameParts(s.orders, t.orders);
    forall o | o in t.orders
      ensures !o.status.Draft?
    {
      var i :| 0 <= i < |t.orders| && t.orders[i] == o;
      assert s.orders[i] in s.orders;
    }
  }

  lemma EventKeepsClaims(s: State, id: nat, event: EventType)
    requires LedgerOk(s) && !Leaves(event)
    ensures SameClaims(s, ApplyEvent(s, id, event).0)
  {
    if id < |s.orders| && Apply(Some(s.orders[id].status), event).Ok? {
      assert s.orders[id] in s.orders;
      LeavingReleases(s.orders[id].status, event);
    }
  }

  /** `next` differs from `s` by taking out the claims of order `id`, which `order` no longer
      holds. */
  lemma LeaveConserves(s: State, id: nat, order: Order, occ: Occupancy)
    requires LedgerOk(s) && id < |s.orders| && HoldsClaims(s.orders[id].status)
    requires Part(order) == [] && !order.status.Draft?
    requires occ == ReleaseItems(s, id).occ
    ensures LedgerOk(s.(occ := occ, orders := s.orders[id := order]))
  {
    var own := ClaimsOf(s.orders[id].items);
    var t := s.(occ := occ, orders := s.orders[id := order]);
    ReleaseLoopWins(s, id);
    OthersPositive(s, id);
    forall row
      ensures Width(occ, row) == Width(s.occ, row) && Limit(occ, row) == Limit(s.occ, row)
    {
      SameShapeAgrees(s.occ, occ, row);
    }
    SameParts(t.orders, s.orders[id := s.orders[id].(status := Cancelled)]);
    forall c | c in ActiveClaims(t)
      ensures Claimable(occ, c)
    {
      if c in OrderClaims(t.orders) {
        ActiveIsPart(t.orders, c);
        var k :| 0 <= k < |t.orders| && c in Part(t.orders[k]);
        PartIsActive(s.orders, k, c);
      }
      assert c in ActiveClaims(s);
    }
    forall row, i: nat | i < Width(occ, row)
      ensures 0 <= Used(occ, row, i) == Load(ActiveClaims(t), row, i) <= Limit(occ, row)
    {
      ActiveLoad(s, row, i);
      ActiveLoad(t, row, i);
      LoadOfReplaced(s.orders, id, order, row, i);
      LoadNonNegative(s.direct, row, i);
      LoadNonNegative(OrderClaims(t.orders), row, i);
      LoadNonNegative(own, row, i) by { OwnClaimsHeld(s, id); }
    }
  }

  lemma LeaveKeeps(s: State, id: nat, event: EventType)
    requires LedgerOk(s) && Leaves(event)
    ensures LedgerOk(Leave(s, id, event).0)
  {
    if id < |s.orders| && Apply(Some(s.orders[id].status), event).Ok? {
      var order := s.orders[id];
      assert order in s.orders;
      LeavingReleases(order.status, event);
      var left := order.(status := Apply(Some(order.status), event).value);
      LeaveConserves(s, id, left, ReleaseItems(s, id).occ);
    }
  }

  /** Claims that won join the active ones. */
  lemma ClaimConserves(s: State, t: State, claims: seq<Claim>)
    requires LedgerOk(s) && ClaimAll(s.occ, claims) == Ok(t.occ)
    requires NoDrafts(t.orders)
    requires multiset(ActiveClaims(t)) == multiset(ActiveClaims(s) + claims)
    ensures LedgerOk(t)
  {
    ClaimAllWinsIff(s.occ, claims);
    forall row
      ensures Width(t.occ, row) == Width(s.occ, row) && Limit(t.occ, row) == Limit(s.occ, row)
    {
      SameShapeAgrees(s.occ, t.occ, row);
    }
    forall c | c in ActiveClaims(t)
      ensures Claimable(t.occ, c)
    {
      assert c in multiset(ActiveClaims(s) + claims);
      assert c in ActiveClaims(s) || c in claims;
    }
    forall row, i: nat | i < Width(t.occ, row)
      ensures 0 <= Used(t.occ, row, i) == Load(ActiveClaims(t), row, i) <= Limit(t.occ, row)
    {
      LoadOfPermutation(ActiveClaims(t), ActiveClaims(s) + claims, row, i);
      LoadConcat(ActiveClaims(s), claims, row, i);
      assert Positive(claims);
      LoadNonNegative(claims, row, i);
    }
  }

  lemma RecordedAsClaimed(s: State, order: NewOrder)
    requires Check(order).None? && ClaimAll(s.occ, AllWanted(order.items)).Ok?
    ensures ClaimsOf(AllRecorded(order.items, order.passengers)) == AllWanted(order.items)
  {
    var claims := AllWanted(order.items);
    ClaimAllWinsIff(s.occ, claims);
    forall i | 0 <= i < |claims|
      ensures ClaimsOf(AllRecorded(order.items, order.passengers))[i] == claims[i]
    {
      assert Claimable(s.occ, claims[i]);
    }
  }

  lemma PlacedClaims(s: State, row: Order, occ: Occupancy)
    requires row.status == Locked
    ensures ActiveClaims(Place(s, row, occ)) == ActiveClaims(s) + ClaimsOf(row.items)
  {
    var t := Place(s, row, occ);
    assert t.orders == s.orders + [row] && t.direct == s.direct;
    assert t.orders[..|s.orders|] == s.orders;
    assert OrderClaims(t.orders) == OrderClaims(s.orders) + ClaimsOf(row.items);
  }

  lemma NoNewDrafts(orders: seq<Order>, row: Order)
    requires NoDrafts(orders) && !row.status.Draft?
    ensures NoDrafts(orders + [row])
  {}

  lemma PlaceKeeps(s: State, row: Order, occ: Occupancy)
    requires LedgerOk(s) && row.status == Locked
    requires ClaimAll(s.occ, ClaimsOf(row.items)) == Ok(occ)
    ensures LedgerOk(Place(s, row, occ))
  {
    var t := Place(s, row, occ);
    PlacedClaims(s, row, occ);
    NoNewDrafts(s.orders, row);
    ClaimConserves(s, t, ClaimsOf(row.items));
  }

  lemma CreateKeeps(s: State, order: NewOrder)
    requires LedgerOk(s)
    ensures LedgerOk(Create(s, order).0)
  {
    if Create(s, order).1.Created? {
      RecordedAsClaimed(s, order);
      PlaceKeeps(s, Placed(order), ClaimAll(s.occ, AllWanted(order.items)).value);
    }
  }

  lemma DirectClaimKeeps(s: State, c: Claim)
    requires LedgerOk(s)
    ensures LedgerOk(DirectClaim(s, c).0)
  {
    var t := DirectClaim(s, c).0;
    if t != s {
      assert ClaimAll(s.occ, [c]) == Ok(t.occ);
      assert ActiveClaims(t) == s.direct + ([c] + OrderClaims(s.orders));
      assert multiset(ActiveClaims(t)) == multiset(ActiveClaims(s) + [c]);
      ClaimConserves(s, t, [c]);
    }
  }

  lemma ScanKeepsClaims(s: State, scan: ScanKey)
    requires LedgerOk(s)
    ensures LedgerOk(RecordScan(s, scan).0)
  {
    if scan.ticket < |s.tickets| {
      var ticket := s.tickets[scan.ticket];
      var boarded := s.(scans := s.scans + {scan},
                        tickets := s.tickets[scan.ticket := ticket.(status := TicketStatus.Boarded)]);
      var t := RecordScan(s, scan).0;
      SameClaimsKeep(s, boarded);
      EventKeepsClaims(boarded, ticket.order, PassengerBoarded);
      if t.orders == s.orders {
        assert SameClaims(s, t);
      } else {
        assert t == ApplyEvent(boarded, ticket.order, PassengerBoarded).0;
      }
      SameClaimsKeep(s, t);
    }
  }

  lemma RequestKeepsClaims(s: State, id: nat, intent: nat)
    requires LedgerOk(s)
    ensures LedgerOk(RequestPayment(s, id, intent).0)
  {
    EventKeepsClaims(s, id, PaymentRequested);
    SameClaimsKeep(s, RequestPayment(s, id, intent).0);
  }

  lemma PaymentKeepsClaims(s: State, id: nat, succeeded: bool)
    requires LedgerOk(s)
    ensures LedgerOk(SettlePayment(s, id, succeeded).0)
  {
    EventKeepsClaims(s, id, PaymentEvent(succeeded));
    SameClaimsKeep(s, SettlePayment(s, id, succeeded).0);
  }

  lemma RefundKeeps(s: State, id: nat)
    requires LedgerOk(s)
    ensures LedgerOk(Refund(s, id).0)
  {
    LeaveKeeps(s, id, OrderRefunded);
    SameClaimsKeep(Leave(s, id, OrderRefunded).0, Refund(s, id).0);
  }

  lemma IssueKeepsClaims(s: State, id: nat)
    requires LedgerOk(s)
    ensures LedgerOk(Issue(s, id).0)
  {
    SameClaimsKeep(s, Issue(s, id).0);
  }

  /** Every transaction of the engine keeps the ledger equal to the sum of the active claims. */
  lemma StepKeepsLedger(s: State, step: Step)
    requires LedgerOk(s)
    ensures LedgerOk(Next(s, step))
  {
    match step
    case StepCreate(order) => CreateKeeps(s, order);
    case StepDirectClaim(c) => DirectClaimKeeps(s, c);
    case StepRequestPayment(id, intent) => RequestKeepsClaims(s, id, intent);
    case StepPayment(id, succeeded) => PaymentKeepsClaims(s, id, succeeded);
    case StepCancel(id) => LeaveKeeps(s, id, OrderCancelled);
    case StepExpire(id) => LeaveKeeps(s, id, OrderExpired);
    case StepRefund(id) => RefundKeeps(s, id);
    case StepIssue(id) => IssueKeepsClaims(s, id);
    case StepScan(scan) => ScanKeepsClaims(s, scan);
    case StepCancelTrip(trip) => SameClaimsKeep(s, Next(s, step));
  }

  lemma InitialLedger(s: State)
    requires Initial(s)
    ensures LedgerOk(s)
  {
    assert ActiveClaims(s) == [];
    forall row, i: nat | i < Width(s.occ, row)
      ensures Used(s.occ, row, i) == 0 <= Limit(s.occ, row)
    {
      if row.kind.Seat? {
        ZeroAt(i);
      } else {
        assert s.occ.pools[row].remaining[i] in s.occ.pools[row].remaining;
      }
    }
  }

  lemma {:induction false} RunKeepsLedger(s: State, steps: seq<Step>)
    requires LedgerOk(s)
    ensures LedgerOk(Run(s, steps))
    decreases |steps|
  {
    if steps != [] {
      StepKeepsLedger(s, steps[0]);
      RunKeepsLedger(Next(s, steps[0]), steps[1..]);
    }
  }

  // ---- what conservation says about one row --------------------------------------------------------

  lemma {:induction false} LoadedMeansCovered(claims: seq<Claim>, row: Row, i: nat)
    requires Positive(claims)
    ensures Load(claims, row, i) > 0 <==> exists c <- claims :: c.row == row && Covers(c.span, i)
  {
    if claims != [] {
      assert Positive(claims[1..]) by {
        assert forall c <- claims[1..] :: c in claims;
      }
      LoadedMeansCovered(claims[1..], row, i);
      LoadNonNegative(claims[1..], row, i);
      assert claims == [claims[0]] + claims[1..];
    }
  }

  /** In every reachable state a seat's mask is the union of the spans of its active claims, those
      spans are pairwise disjoint, and every pool counter is its capacity minus the active quantity
      on that segment and stays between 0 and the capacity. */
  lemma EveryRunConserves(s: State, steps: seq<Step>)
    requires Initial(s)
    ensures var t := Run(s, steps);
            var active := ActiveClaims(t);
            && (forall row, i: nat :: row in t.occ.seats && i < 64 ==>
                  (Bit(t.occ.seats[row], i) <==> exists c <- active :: c.row == row && Covers(c.span, i)))
            && (forall j: nat, k: nat ::
                  j < k < |active| && active[j].row == active[k].row && active[j].row in t.occ.seats ==>
                    !IntervalsOverlap(active[j].span, active[k].span))
            && (forall row, i: nat :: row in t.occ.pools && i < |t.occ.pools[row].remaining| ==>
                  var pool := t.occ.pools[row];
                  0 <= pool.remaining[i] == pool.capacity - Load(active, row, i) <= pool.capacity)
  {
    var t := Run(s, steps);
    var active := ActiveClaims(t);
    InitialLedger(s);
    RunKeepsLedger(s, steps);
    assert Positive(active);
    forall row, i: nat | row in t.occ.seats && i < 64
      ensures Bit(t.occ.seats[row], i) <==> exists c <- active :: c.row == row && Covers(c.span, i)
    {
      LoadedMeansCovered(active, row, i);
      assert Used(t.occ, row, i) == Load(active, row, i);
    }
    forall j: nat, k: nat | j < k < |active| && active[j].row == active[k].row && active[j].row in t.occ.seats
      ensures !IntervalsOverlap(active[j].span, active[k].span)
    {
      forall i: nat | i < 64
        ensures Load(active, active[j].row, i) <= 1
      {
        assert Used(t.occ, active[j].row, i) == Load(active, active[j].row, i);
      }
      SeatLoadIsDisjointness(active, j, k);
    }
    forall row, i: nat | row in t.occ.pools && i < |t.occ.pools[row].remaining|
      ensures var pool := t.occ.pools[row];
              0 <= pool.remaining[i] == pool.capacity - Load(active, row, i) <= pool.capacity
    {
      assert Used(t.occ, row, i) == Load(active, row, i);
    }
  }

  /** In every reachable state cancel, expire and refund release every item they come to, whatever
      order the rows come back in and also part-way through, and the ledger left is the same. */
  lemma EveryRunReleases(s: State, steps: seq<Step>, id: nat, order: seq<Claim>)
    requires Initial(s)
    requires id < |Run(s, steps).orders| && HoldsClaims(Run(s, steps).orders[id].status)
    requires multiset(order) == multiset(ClaimsOf(Run(s, steps).orders[id].items))
    ensures ReleasesAll(Run(s, steps).occ, order)
    ensures ReleaseAll(Run(s, steps).occ, order) == ReleaseItems(Run(s, steps), id)
  {
    var t := Run(s, steps);
    InitialLedger(s);
    RunKeepsLedger(s, steps);
    AnyOrderReleases(t, id, order);
    ReleaseOrderIrrelevant(t, id, order);
  }

  // ---- creation: all or nothing ----------------------------------------------------------------------

  /** A checked order is created exactly when its claims are jointly feasible; any conflict, on any
      leg, leaves the whole state as it was. */
  lemma CreateIffFeasible(s: State, order: NewOrder)
    requires Check(order).None?
    ensures Create(s, order).1.Created? <==> JointlyFits(s.occ, AllWanted(order.items))
    ensures !Create(s, order).1.Created? ==> Create(s, order).1.Conflict? && Create(s, order).0 == s
    ensures Create(s, order).1.Created? ==>
              MovedAll(s.occ, Create(s, order).0.occ, AllWanted(order.items), 1)
  {
    ClaimAllWinsIff(s.occ, AllWanted(order.items));
  }

  lemma LeavingPlaced(s: State, row: Order, occ: Occupancy, event: EventType)
    requires row.status == Locked && (event.OrderCancelled? || event.OrderExpired?)
    ensures Leave(Place(s, row, occ), |s.orders|, event).0.occ == ReleaseAll(occ, ClaimsOf(row.items)).occ
  {
    var t := Place(s, row, occ);
    assert t.orders[|s.orders|] == row && t.occ == occ;
  }

  /** Creating and then leaving, with nothing in between, restores the ledger bit for bit. */
  lemma LeavingUndoesCreate(s: State, order: NewOrder, event: EventType)
    requires LedgerOk(s) && Create(s, order).1.Created? && (event.OrderCancelled? || event.OrderExpired?)
    ensures var (created, outcome) := Create(s, order);
            Leave(created, outcome.id, event).0.occ == s.occ
  {
    var claims := AllWanted(order.items);
    RecordedAsClaimed(s, order);
    LeavingPlaced(s, Placed(order), ClaimAll(s.occ, claims).value, event);
    ReleaseUndoesClaim(s.occ, claims, claims);
  }

  // ---- a captured order keeps its claims -----------------------------------------------------------------

  ghost predicate KeepsItsPart(before: Order, after: Order) {
    && !after.status.Cancelled? && !after.status.Expired?
    && (after.status.Refunded? || Part(after) == ClaimsOf(before.items))
  }

  /** Once its payment is captured an order is never cancelled or expired, whatever callbacks and stale
      expiries follow, and until a refund its own part of the conserved ledger is exactly its claims. */
  lemma CapturedKeepsItsClaims(s: State, before: seq<Step>, after: seq<Step>, id: nat)
    requires Initial(s)
    requires id < |Run(s, before).orders| && WasCaptured(Run(s, before).orders[id].status)
    ensures id < |Run(Run(s, before), after).orders|
    ensures KeepsItsPart(Run(s, before).orders[id], Run(Run(s, before), after).orders[id])
    ensures LedgerOk(Run(Run(s, before), after))
  {
    var u := Run(s, before);
    InitialLedger(s);
    RunKeepsLedger(s, before);
    RunKeepsLedger(u, after);
    RunEvolves(u, after);
    assert Evolves(u.orders[id], Run(u, after).orders[id]);
  }
}
