# Lulan: the reservation ledger and the order lifecycle, verified

This project models the reservation core of Lulan and proves its safety over whole runs: seats as
64-bit occupancy masks, pools as per-segment counters, orders that claim several items across
several trips all-or-nothing, one event-sourced lifecycle, soft holds with expiry, the outbox and
webhook queue, idempotency keys, the request limiter and fare arithmetic.

`dafny verify dfyconfig.toml` checks everything.

## How the model is laid out

Code that computes is a function; code that changes state is a class whose methods are proved equal,
loops included, to a function from the old state to the new one. What the system promises is then
proved about runs of those functions.

- **Segments**, **Pools**: spans, masks and their bits; the in-memory pool. Masks are real 64-bit
  words, and the shifts, or, and-not and 32-bit halves are the source's own.
- **Ledger**: the four guarded updates, the claim loop and the release loop. Seats and pools are read
  the same way, as an amount taken per segment under a limit, so every law is one statement about sums.
- **OrderLifecycle**: the transition function and whole event streams.
- **Booking**: every transaction of orders, tickets and direct claims as a function on committed states,
  and runs of them. **OrderEngine** is the same in place: mutable tables, loops, rollback.
- **Transactions**: what each of those transactions decides, charges, refuses and leaves, on its inputs.
- **Expiry**: the sweep of overdue orders.
- **LedgerSafety**, **StreamSafety**, **TicketSafety**, **Settlement**: invariants over every run of every
  transaction in any order. One transaction is one step. A payment result or an expiry names the order
  an earlier read found, so runs contain every stale and duplicated one; in `Settlement` reading the
  list, asking the provider and each order's transaction are separate moves of any number of passes.
- **SettlementPass**: the settlement loop as written is such a run, and what each row of a fresh list comes to.
- **RefundGap**: a run that shows where returning money first falls short.
- **Holds**, **HoldStores**, **HoldSafety**, **HoldItineraries**, **HoldReleases**, **HoldIndex**: the lock
  table, its class, mutual exclusion, all-or-nothing itineraries, giving holds back, and the index against a
  full scan. Each call carries the reading its process took and the time on the Redis server's own clock,
  which runs the key deadlines.
- **Delivery**, **DeliveryWorker**, **DeliverySafety**, **DeliveryRelay**, **DeliveryAnswers**: relays, sink,
  workers and crashes; one relay pass, and how a job ends. A relay's marks wait for its commit; what the sink
  wrote stays when the relay crashes.
- **Idempotency**, **IdempotencyTable**, **IdempotencySafety**, **IdempotencyLimits**: the key table, all
  interleavings of its callers with the two statements of a reservation apart, and the exact condition
  under which a retry never books twice.
- **RateLimit**, **Fares**, **FareQuotes**, **FareLaws**, **Stops**: the sliding window on two clocks, fare
  evaluation with demand pricing, what a quote comes to and its laws, and resolving stops to a span.

## What the proofs found

- `bp` is documented as floor division, but Rust's `/` truncates. The model follows the code;
  `FareLaws.TruncationIsFloorIff` says exactly when the two agree.
- The per-trip hold index is documented as never missing a hold. It does miss one when a hold can
  outlive another on the trip more than fourfold: the shorter one sets the index to expire first
  (`HoldIndex.ShortHoldHidesLongOne`). Within a factor of four it never does.
- The index also needs all processes to read the same time: one that is ahead prunes holds that are live
  to the others (`HoldIndex.AheadReaderDropsLiveHold`). These two conditions are exact
  (`HoldIndex.IndexIsScanIff`). A seat's key, likewise, can go early by as much as
  some process is ahead of the server, and exclusion ends with it; `HoldSafety.HoldExcludes` and
  `HoldSafety.AheadReadingEndsHold` give the bound and its tightness.
- Settlement returns the money before it checks the order again. `RefundGap.BoardedAfterItsRefund` is a run
  in which the last passenger boards in between and keeps the seat although the money went back;
  `Settlement.CommitRefundsIff` says that this happens exactly to orders boarded or completed by then.
- A reservation whose insert lost and whose read finds no row books as if it held the key. No sweep is
  needed: the holder's own release may come between the two statements
  (`IdempotencyLimits.RowGoneIsReachable`). Likewise a creation that commits but reports an error gives the
  key back, and a sweep may take a live holder's row. `IdempotencyLimits.SafeIffAllowed` proves that these
  three, and no other step, let a key book twice or answer twice.
- The limiter's bound needs every reading to be as far from the server's clock as every other, and any spread
  breaks it, on either side of that clock (`RateLimit.SpreadIsSafeIff`, `RateLimit.LeadsAreSafeIff`). Nobody
  need be ahead: a reading taken some time before its script runs is enough, since the key goes on the server's
  clock while the requests still count on the process's (`RateLimit.LatencyOverfills`).
- `PoolOccupancy` truncates its segment count to 8 bits; it agrees with the SQL form below 256 segments.
- A pool span that starts past the end of the counters reads as fully sold (`Fares.LeastRemaining`), and
  can never be claimed.

## Model

| member | source | states |
|---|---|---|
| Segments.NewSpan | crates/lulan-engine/src/domain/segment.rs:31-39 | A span is accepted exactly when it is non-empty and ends within 64 segments; the two refusals are told apart. |
| Segments.MaskBit | crates/lulan-engine/src/domain/segment.rs:56-63 | For every span, the full-width one included, bit i of the 64-bit mask is set exactly when the span covers segment i. |
| Segments.AvailableSpan | crates/lulan-engine/src/domain/segment.rs:66-68 | A span is available on a mask exactly when none of its segments is occupied. |
| Segments.OverlapIsIntervalOverlap | crates/lulan-engine/src/domain/segment.rs:71-73 | Two masks share a bit exactly when the two intervals overlap. |
| Segments.BitsDetermineMask | crates/lulan-engine/src/domain/segment.rs:56-63 | Two 64-bit masks with the same 64 bits are the same word. |
| Segments.AnyClaimSequence | crates/lulan-engine/src/domain/segment.rs:66-73 | Claiming any sequence of spans on one empty mask accepts exactly what a list of disjoint intervals would accept. |
| Segments.MaskDecodes | crates/lulan-engine/src/inventory/store.rs:542-547 | Trailing and leading zeros of a span's mask give back its two ends. |
| Segments.JoinOfSplit | crates/lulan-engine/src/inventory/holds.rs:152-154 | Splitting a mask into two 32-bit halves and joining them is the identity. |
| Segments.HalvesKeepOverlap | crates/lulan-engine/src/inventory/holds.rs:61-63 | The script's test on 32-bit halves agrees with the overlap of the 64-bit masks. |
| Segments.SplitOverlapIsIntervalOverlap | crates/lulan-engine/src/inventory/holds.rs:61-63 | Two held spans clash in the script exactly when the intervals overlap. |
| Pools.PoolOccupancy.RemainingFor | crates/lulan-engine/src/domain/pool.rs:71-78 | The tightest segment of the span, or the range error, with the length truncated to 8 bits as the code does. |
| Pools.PoolOccupancy.Reserve | crates/lulan-engine/src/domain/pool.rs:88-103 | The in-place loop takes the quantity from exactly the covered segments, or changes nothing and reports which check failed. |
| Pools.PoolOccupancy.Release | crates/lulan-engine/src/domain/pool.rs:107-126 | The in-place loop returns the quantity to exactly the covered segments, or changes nothing when one would exceed the capacity. |
| Pools.ReserveWinsIff | crates/lulan-engine/src/domain/pool.rs:88-103 | Reserving succeeds exactly when the quantity is positive, the span fits and every covered segment has that much left. |
| Pools.ReserveRefusals | crates/lulan-engine/src/domain/pool.rs:88-103 | A refused reservation says why: a quantity that is not positive, a span past the end, or what is left on the tightest segment. |
| Pools.ReturnWinsIff | crates/lulan-engine/src/domain/pool.rs:107-126 | A release succeeds exactly when its quantity is positive, its span fits and no covered segment would exceed the capacity; the refusals are told apart. |
| Pools.ReserveThenRelease | crates/lulan-engine/src/domain/pool.rs:107-126 | On a pool within its capacity, releasing what was just reserved always succeeds and restores it. |
| Pools.ClaimRefinesReserve | crates/lulan-engine/src/inventory/store.rs:809-838 | On any span within the pool the guarded SQL update and the in-memory reserve give the same verdict and the same counters. |
| Pools.ReleaseRefinesReturn | crates/lulan-engine/src/inventory/store.rs:842-871 | Likewise for release and its capacity guard. |
| Ledger.ClaimWinsIff | crates/lulan-engine/src/inventory/store.rs:767-838 | A guarded claim changes a row exactly when its weight fits under the row's limit on every segment it covers, and then adds exactly itself, for seats and pools alike. |
| Ledger.ReleaseWinsIff | crates/lulan-engine/src/inventory/store.rs:788-871 | A guarded release changes a row exactly when its weight is taken on every covered segment, and then removes exactly itself. |
| Ledger.ClaimAllWinsIff | crates/lulan-engine/src/orders/mod.rs:337-363 | The claim loop succeeds exactly when the claims are jointly feasible (per-segment sums within the limits), and then the ledger has gained exactly their sum. |
| Ledger.ClaimOrderIrrelevant | crates/lulan-engine/src/orders/mod.rs:337-363 | Neither the verdict nor the resulting ledger depends on the order of the items. |
| Ledger.SeatLoadIsDisjointness | crates/lulan-engine/src/domain/segment.rs:71-73 | On a seat, a sum of at most one per segment means the claims' spans are pairwise disjoint. |
| Ledger.ReleaseAllWins | crates/lulan-engine/src/orders/mod.rs:905-938 | When the ledger carries the sum of the claims, every release of the loop wins and exactly the sum is given back. |
| Ledger.ReleaseAllThenOne | crates/lulan-engine/src/orders/mod.rs:905-938 | One more release counts as failed exactly when its guard refuses, and then leaves the ledger as it was. |
| Ledger.ReleaseUndoesClaim | crates/lulan-engine/src/orders/mod.rs:905-938 | Releasing, in any order, what was just claimed restores every mask and counter bit for bit. |
| OrderEngine.Engine.ClaimSeatExec | crates/lulan-engine/src/inventory/store.rs:767-786 | One row and the span's bits or-ed in when the guard holds; otherwise no row and no change. |
| OrderEngine.Engine.ReleaseSeatExec | crates/lulan-engine/src/inventory/store.rs:788-807 | One row and the span's bits cleared when all of them are set; otherwise no row and no change. |
| OrderEngine.Engine.ClaimPoolExec | crates/lulan-engine/src/inventory/store.rs:809-838 | The covered counters lowered when their minimum allows it, NULL minimum refused; otherwise no change. |
| OrderEngine.Engine.ReleasePoolExec | crates/lulan-engine/src/inventory/store.rs:842-871 | The covered counters raised when their maximum stays within the capacity; otherwise no change. |
| OrderEngine.Engine.Claim | crates/lulan-engine/src/inventory/store.rs:311-384 | A direct claim: claimed, contended or no such row, with the new state for each. |
| OrderEngine.Engine.AppendEvent | crates/lulan-engine/src/events/mod.rs:28-58 | One event numbered max + 1 of its stream and one outbox row for it. |
| OrderEngine.Engine.ClaimItems | crates/lulan-engine/src/orders/mod.rs:337-363 | The loop stops at the first conflicting item and reports it; on success the ledger is that of all claims. |
| OrderEngine.Engine.Validate | crates/lulan-engine/src/orders/mod.rs:213-289 | The checks made before the transaction, in the source's order, with the first failure reported. |
| Booking.CheckIff | crates/lulan-engine/src/orders/mod.rs:213-289 | An order passes the checks exactly when it has passengers and items, every item resolves and is wired to a passenger as its kind demands, and every ancillary names a passenger of the order or none. |
| Booking.PlacedIsWired | crates/lulan-engine/src/orders/mod.rs:365-391 | In a created order every seat item has a passenger of that order and no pool item has one. |
| OrderEngine.Engine.Create | crates/lulan-engine/src/orders/mod.rs:204-493 | The in-place claim loop with rollback gives the transaction of the specification: created with its two events, or the first conflict and no change, or a refusal and no change. |
| OrderEngine.Engine.ApplyEventLocked | crates/lulan-engine/src/orders/mod.rs:738-766 | The status moves by the one transition function and appends that event, or nothing changes. |
| OrderEngine.Engine.RequestPayment | crates/lulan-engine/src/orders/mod.rs:496-521 | The transition, and the intent recorded exactly when it applied. |
| OrderEngine.Engine.ApplyPaymentResult | crates/lulan-engine/src/orders/mod.rs:538-576 | The order found by its intent moves by the callback's event; a capture clears the expiry. |
| OrderEngine.Engine.ReleaseOrderItems | crates/lulan-engine/src/orders/mod.rs:905-938 | The release loop over items equals the specification, failures counted. |
| OrderEngine.Engine.Cancel | crates/lulan-engine/src/orders/mod.rs:579-589 | Cancelling moves the status and gives the claims back, or changes nothing. |
| OrderEngine.Engine.ExpireDue | crates/lulan-engine/src/orders/mod.rs:594-615 | The due list is read once and each order expired in turn; the count is of those that moved. |
| Expiry.SweepExpiresOverdue | crates/lulan-engine/src/orders/mod.rs:594-615 | With nothing in between, a sweep turns exactly the unpaid orders past their deadline Expired, counts them, touches no other order and leaves none due. |
| Expiry.CountsWhatExpired | crates/lulan-engine/src/orders/mod.rs:604-615 | Whatever has happened to the listed orders since, the sweep counts exactly those it expired. |
| OrderEngine.Engine.Refund | crates/lulan-engine/src/orders/mod.rs:722-736 | Refunding gives the claims back and voids exactly the order's tickets, or changes nothing. |
| OrderEngine.Engine.SettleCancelledTrips | crates/lulan-engine/src/orders/mod.rs:651-714 | The settlement loop with its counters, for any provider answers and any ending of each order's transaction (committed, rolled back, or committed with its answer lost), and the number still outstanding afterwards. |
| OrderEngine.Engine.ReplayStatus | crates/lulan-engine/src/orders/mod.rs:866-889 | Folding the stored stream with a mutable state equals the fold, errors included. |
| OrderEngine.Engine.IssueForOrder | crates/lulan-engine/src/ticket/mod.rs:369-580 | One ticket per seat item, then the quantity of each admission item, the status and the event; or the refusal and no change. |
| OrderEngine.Engine.RecordScan | crates/lulan-engine/src/ticket/mod.rs:658-772 | Duplicate scans, non-boardable tickets, a boarded ticket, and the order's move when the last one boards. |
| OrderLifecycle.StatusNamesRoundTrip | crates/lulan-engine/src/domain/order.rs:24-54 | A stored status name parses to a status exactly when it is that status's name. |
| OrderLifecycle.EventNamesRoundTrip | crates/lulan-engine/src/domain/order.rs:79-111 | Likewise for event names. |
| OrderLifecycle.MovesAre | crates/lulan-engine/src/domain/order.rs:132-160 | Event by event, the statuses it may start from and the one it leads to. |
| OrderLifecycle.RefusalsAre | crates/lulan-engine/src/domain/order.rs:132-160 | Four statuses are final, nothing is created twice, an event leads to one status wherever it starts, and a refusal names what was wrong. |
| OrderLifecycle.LeavingReleases | crates/lulan-engine/src/domain/order.rs:132-160 | Past creation, the events that give claims back are exactly cancel, expire and refund. |
| OrderLifecycle.CapturedStaysCaptured | crates/lulan-engine/src/domain/order.rs:146-159 | No legal continuation of a captured order captures again, cancels or expires. |
| OrderLifecycle.CapturedAtMostOnce | crates/lulan-engine/src/domain/order.rs:132-160 | Every legal stream has at most one capture, and one exactly when its final status is one only a capture reaches. |
| OrderLifecycle.PaidStreams | crates/lulan-engine/src/domain/order.rs:132-160 | A stream replays to Paid exactly when it is creation, any number of declined attempts, one more request and its capture. |
| Transactions.CreatedOrder | crates/lulan-engine/src/orders/mod.rs:291-470 | A created order is Locked until fifteen minutes from now, holds the items asked for with their passengers, has no payment, and its stream is its creation and the lock; the ledger moves by exactly its items' claims, none of a pool with a quantity that is not positive, and nothing else changes. |
| Transactions.WantedTakes | crates/lulan-engine/src/orders/mod.rs:337-363 | What an item takes from the ledger: a seat whatever its quantity, a pool just its quantity. |
| Transactions.ChargedIsSum | crates/lulan-engine/src/orders/mod.rs:293-294 | Every created order is charged the sum of its items' prices and its ancillary lines' totals. |
| Transactions.OneMoreCosts | crates/lulan-engine/src/orders/mod.rs:293-294 | One more item is charged its price, one more ancillary line its total, whatever the inventory then is. |
| Transactions.OneItemCosts | crates/lulan-engine/src/orders/mod.rs:293-294 | A single item with no ancillary costs its price. |
| Transactions.RejectedIff | crates/lulan-engine/src/orders/mod.rs:213-289 | An order is refused for a reason exactly when that is the first thing wrong with it, and the state stays as it was. |
| Transactions.ConflictIsFirst | crates/lulan-engine/src/orders/mod.rs:337-363 | A conflict names the first item whose claim does not fit beside those before it. |
| Transactions.FindByIntentIff | crates/lulan-engine/src/orders/mod.rs:543-550 | A callback is for the order with its intent, or for none when no order has it. |
| Transactions.CallbackDecides | crates/lulan-engine/src/orders/mod.rs:552-576 | On an order awaiting payment a successful callback makes it Paid, records the capture and stops its expiry; a failed one records the failure and takes it back to Locked with its expiry running; on any other nothing changes. |
| Transactions.UnknownIntentIsNotFound | crates/lulan-engine/src/orders/mod.rs:543-550 | A callback for an intent no order has changes nothing. |
| Transactions.RequestDecides | crates/lulan-engine/src/orders/mod.rs:496-521 | Asking for payment moves a Locked order and records the intent; on any other nothing changes. |
| Transactions.CapturedMeansPaid | crates/lulan-engine/src/orders/mod.rs:538-576 | In every run an order is captured only if a successful result for it came when it was awaiting payment. |
| Transactions.RunTakesEveryStep | crates/lulan-engine/src/orders/mod.rs:204-736 | A run is its steps, one after the other. |
| Transactions.LeavingDecides | crates/lulan-engine/src/orders/mod.rs:579-736 | Only an unpaid order is cancelled or expires, only a paid one not yet boarded is refunded, which voids its tickets and no other; anything else changes nothing. |
| Transactions.IssueDecides | crates/lulan-engine/src/ticket/mod.rs:369-580 | Issuing adds as many issued tickets as it reports, all of this order, from a paid order only; every other status is answered as the code answers it. |
| Transactions.ScanDecides | crates/lulan-engine/src/ticket/mod.rs:658-772 | Which of unknown, duplicate and not boardable a scan is answered, and that it is journalled unless the ticket is unknown. |
| Transactions.RepeatedScanChangesNothing | crates/lulan-engine/src/ticket/mod.rs:658-772 | A scan sent again, whatever ran in between, is a duplicate and changes nothing. |
| Transactions.DirectClaimDecides | crates/lulan-engine/src/inventory/store.rs:311-384 | A direct claim wins exactly when it fits; otherwise the row does not exist or it is contended, a non-positive pool quantity being refused before the row is looked at. |
| LedgerSafety.StepKeepsLedger | crates/lulan-engine/src/orders/mod.rs:204-736 | Every transaction keeps the ledger equal to the sum of the active claims. |
| LedgerSafety.EveryRunConserves | crates/lulan-engine/src/orders/mod.rs:337-391 | In every run each mask is the union of the pairwise disjoint spans of active claims, and each pool counter is the capacity minus the active quantity, within 0 and the capacity. |
| LedgerSafety.EveryRunReleases | crates/lulan-engine/src/orders/mod.rs:905-938 | In every reachable state, in whatever order the rows come back and after any part of the loop, every release of an order's items wins, so the logged-failure branch is never taken, and the ledger left is the same. |
| LedgerSafety.CreateIffFeasible | crates/lulan-engine/src/orders/mod.rs:296-391 | A valid order is created exactly when its claims are jointly feasible; any conflict leaves the whole state as it was. |
| LedgerSafety.LeavingUndoesCreate | crates/lulan-engine/src/orders/mod.rs:579-615 | Creating and then cancelling or expiring restores the ledger bit for bit. |
| LedgerSafety.CapturedKeepsItsClaims | crates/lulan-engine/src/orders/mod.rs:538-615 | Whatever callbacks and stale expiries follow, a captured order is never cancelled or expired, and until a refund its own part of the conserved ledger is exactly its claims. |
| StreamSafety.EveryRunReplays | crates/lulan-engine/src/orders/mod.rs:866-889 | After every run each stream is numbered 1..n, folds without error to the read-model status, has one outbox row per event, and carries at most one capture. |
| StreamSafety.RunEvolves | crates/lulan-engine/src/orders/mod.rs:538-615 | Over any steps an order keeps its items and total; once captured it keeps its intent and stays captured. |
| StreamSafety.CapturedIgnores | crates/lulan-engine/src/orders/mod.rs:538-615 | A duplicated or late callback, cancel or expiry on a captured order changes nothing at all. |
| TicketSafety.StepKeepsTickets | crates/lulan-engine/src/ticket/mod.rs:369-772 | Every transaction keeps ticket and order statuses in agreement. |
| TicketSafety.EveryRunAgrees | crates/lulan-engine/src/ticket/mod.rs:658-772 | After every run: no tickets before Ticketed, a ticketed order with tickets has one still to board, a boarded order only boarded tickets, a refunded one only void tickets. |
| TicketSafety.BoardingKeepsTickets | crates/lulan-engine/src/ticket/mod.rs:724-764 | A first scan boards exactly that ticket and moves the order exactly when no sibling is left to board. |
| TicketSafety.IssuesWhatIsDue | crates/lulan-engine/src/ticket/mod.rs:369-580 | Issuing a paid order creates exactly one ticket per seat item, the stored quantity of each admission item, none for any other pool, and repeating it adds none. |
| Settlement.PassSettles | crates/lulan-engine/src/orders/mod.rs:651-714 | With an accepting provider and nothing in between, a pass settles exactly the smaller of the limit and what is outstanding. |
| Settlement.PassesDrain | crates/lulan-engine/src/orders/mod.rs:651-714 | Finitely many such passes leave no locked, pending, paid or ticketed order touching a cancelled trip. |
| Settlement.MoneyFirst | crates/lulan-engine/src/orders/mod.rs:656-693 | Under any interleaving of passes, provider answers and other transactions, a settlement that turns an order Refunded is preceded by the provider's refund of that order's total on its intent. |
| Settlement.CommitRefundsIff | crates/lulan-engine/src/orders/mod.rs:676-700 | In every play, once the money of a listed order has gone back, its transaction leaves it Refunded exactly when it had not boarded or completed by then; one that had is left as it was. |
| SettlementPass.PassIsPlay | crates/lulan-engine/src/orders/mod.rs:655-711 | Whatever its rows meet, the loop over a fresh list is a run of asking, committing and rolling back, so what holds of every run holds of the method. |
| SettlementPass.AskedOnce | crates/lulan-engine/src/orders/mod.rs:676-690 | Once a row is cleared the provider is not asked for it again. |
| SettlementPass.RowDecides | crates/lulan-engine/src/orders/mod.rs:668-711 | One fresh row: cancelled if unpaid; refunded if its money went back; left alone, the whole state, if the provider refused or the transaction rolled back; and counted so. |
| SettlementPass.FreshPassDecides | crates/lulan-engine/src/orders/mod.rs:668-711 | The whole list: every order is as its own row's answer says, no other changes, and each of the three counts is the number of rows that came to it. |
| SettlementPass.PassRefundsOnlyAccepted | crates/lulan-engine/src/orders/mod.rs:676-690 | A pass turns an order Refunded only if the provider accepted for its row. |
| SettlementPass.StaleRowCountsForNothing | crates/lulan-engine/src/orders/mod.rs:701-705 | A row whose order was settled or boarded meanwhile changes and counts nothing. |
| SettlementPass.SelectIff | crates/lulan-engine/src/orders/mod.rs:655-667 | A pass lists, in id order and with their status, intent and total, the first unsettled orders with an item on a cancelled trip. |
| SettlementPass.RemainingAre | crates/lulan-engine/src/orders/mod.rs:713-722 | What is reported as remaining counts exactly those orders. |
| RefundGap.BoardedAfterItsRefund | crates/lulan-engine/src/orders/mod.rs:676-700 | For every seat, span, fare and limit there is a run from the start that returns the order's money and leaves it Boarded with its claim in the ledger. |
| HoldStores.HoldStore.Acquire | crates/lulan-engine/src/inventory/holds.rs:35-187 | The script's scan, prune and admission, and the registry entry, in place. |
| HoldStores.HoldStore.Release | crates/lulan-engine/src/inventory/holds.rs:202-225 | The registry lookup, the field's removal and the index entry's when the hash is empty. |
| HoldStores.HoldStore.AcquireItinerary | crates/lulan-engine/src/inventory/holds.rs:232-278 | The acquire loop with its rollback in acquisition order. |
| HoldStores.HoldStore.ReleaseItinerary | crates/lulan-engine/src/inventory/holds.rs:320-330 | Every member released, then the group entry. |
| HoldStores.HoldStore.LiveHeldUnits | crates/lulan-engine/src/inventory/holds.rs:341-379 | The union per indexed unit and the pruned index. |
| HoldStores.HoldStore.HeldUnits | crates/lulan-engine/src/inventory/holds.rs:384-397 | The units whose union meets the span. |
| HoldStores.HoldStore.HeldUnitCount | crates/lulan-engine/src/inventory/holds.rs:406-417 | The index size below the threshold, the exact count at or above it. |
| HoldSafety.AdmittedIff | crates/lulan-engine/src/inventory/holds.rs:46-63 | A hold is admitted exactly when no live entry of the unit clashes with it. |
| HoldSafety.EveryRunIsExclusive | crates/lulan-engine/src/inventory/holds.rs:46-66 | For any readings and any server times, the entries listed on a seat are pairwise disjoint in every run. |
| HoldSafety.EveryKeyOutlives | crates/lulan-engine/src/inventory/holds.rs:57-66 | With no reading more than a given amount ahead of the server, a seat's key outlives, on the server's clock, each of its entries less that amount. |
| HoldSafety.HoldExcludes | crates/lulan-engine/src/inventory/holds.rs:35-73 | A hold makes every overlapping acquire on its seat fail, whatever runs in between, until its release or until the server comes within the greatest lead of any reading of its expiry; for readings in step, until the expiry itself. |
| HoldSafety.AheadReadingEndsHold | crates/lulan-engine/src/inventory/holds.rs:57-66 | That bound is tight for every lead: at the expiry less the lead the key can be gone, and an overlapping hold is admitted. |
| HoldItineraries.ItineraryGrantedIff | crates/lulan-engine/src/inventory/holds.rs:232-278 | An itinerary is granted exactly when every seat's span is free of live holds and its own spans do not overlap on any seat. |
| HoldItineraries.RefusedItineraryChangesNothing | crates/lulan-engine/src/inventory/holds.rs:232-253 | A refused itinerary leaves every seat's live holds exactly as they were, for any clocks. |
| HoldReleases.ReleaseFrees | crates/lulan-engine/src/inventory/holds.rs:202-224 | A release answers whether the hold was known; a known one leaves its seat and the registry, and no other hold goes with it. |
| HoldReleases.ItineraryReleaseFrees | crates/lulan-engine/src/inventory/holds.rs:320-335 | Releasing a group answers whether it was known, forgets it, frees every member still known, and no other hold. |
| HoldReleases.GrantIsRecorded | crates/lulan-engine/src/inventory/holds.rs:226-318 | A granted itinerary answers a new id and its expiry, and is kept with its seats' holds in order, each registered for its seat, until its ttl is over on the server's clock. |
| HoldReleases.ItineraryReleaseUndoesGrant | crates/lulan-engine/src/inventory/holds.rs:226-335 | Released right after it was granted, an itinerary leaves every seat's live holds as they were before. |
| HoldIndex.MaskShowsLive | crates/lulan-engine/src/inventory/holds.rs:358-368 | A unit's 64-bit union is non-zero exactly when it has a live hold. |
| HoldIndex.ReaderAgreesWithScript | crates/lulan-engine/src/inventory/holds.rs:358-368 | The reader's 64-bit union is the join of the script's two 32-bit unions. |
| HoldIndex.EveryReadIsScan | crates/lulan-engine/src/inventory/holds.rs:341-397 | When ttls lie within a factor of four and every reading is as far from the server as the others, in every run forward in time both reads agree with a scan of all hashes, before and after pruning. |
| HoldIndex.CountIsSafe | crates/lulan-engine/src/inventory/holds.rs:406-417 | The count is the index size below the threshold and the exact number from it on; it never falls short of the live units. |
| HoldIndex.ShortHoldHidesLongOne | crates/lulan-engine/src/inventory/holds.rs:67-77 | Past the factor of four the property fails: a short hold lets the index expire under a live long one. |
| HoldIndex.AheadReaderDropsLiveHold | crates/lulan-engine/src/inventory/holds.rs:358-377 | With any reader ahead of the others it fails too: its pruning drops a hold still live to them. |
| HoldIndex.IndexIsScanIff | crates/lulan-engine/src/inventory/holds.rs:67-77 | For ttls between two bounds and offsets from the server within a spread, every read of every run agrees with a scan exactly when the bounds are within a factor of four and the spread is zero. |
| DeliveryWorker.Queue.Deliver | crates/lulan-engine/src/webhooks/mod.rs:82-102 | The insert over endpoints: one job for each active, matching endpoint that has none. |
| DeliveryWorker.Queue.RelayOnce | crates/lulan-engine/src/events/mod.rs:117-162 | The relay loop, stopping at the first failure, marks exactly the rows the sink took, and returns how many it marked. |
| DeliveryRelay.PickIff | crates/lulan-engine/src/events/mod.rs:119-131 | A batch is the first rows, up to the limit, that are undelivered and not held by another relay, in id order. |
| DeliveryRelay.RelayOnceDecides | crates/lulan-engine/src/events/mod.rs:132-162 | A whole pass: the rows before the first refusal are marked and no other; the sink was called for those, and for the refused one if it had written; the relay is idle again. |
| DeliveryRelay.RelayOnceIsRun | crates/lulan-engine/src/events/mod.rs:117-162 | An undisturbed pass is the run of its own steps. |
| DeliveryRelay.RelayKeepsItsTurn | crates/lulan-engine/src/events/mod.rs:117-162 | A relay begins no second batch while it has one, an idle one hands nothing over, and nothing commits before its loop is over. |
| DeliveryRelay.SurroundingsDecide | crates/lulan-engine/src/events/mod.rs:28-58 | What publishing, registering, deactivating and a crash do, and that they do nothing else. |
| DeliveryRelay.FanOutIff | crates/lulan-engine/src/webhooks/mod.rs:82-102 | An event is queued for exactly the active endpoints that ask for its kind, or for every kind, besides those that had it; new rows are pending and due at once. |
| DeliveryWorker.Queue.SelectDue | crates/lulan-engine/src/webhooks/mod.rs:117-131 | Due rows nobody else holds, oldest first, at most twenty; a due row is passed over only when twenty at least as old were taken. |
| DeliveryWorker.Queue.DeliverDue | crates/lulan-engine/src/webhooks/mod.rs:112-219 | The worker's loop records one attempt per row, with its status, backoff and the pass's counts. |
| DeliverySafety.AtMostOneJob | crates/lulan-engine/src/webhooks/mod.rs:91-97 | However often relays repeat an event, each endpoint has at most one job for it. |
| DeliverySafety.DeliveredIsFanned | crates/lulan-engine/src/events/mod.rs:117-162 | With crashes anywhere between sink call and commit, a row marked delivered was handed to a sink call that queued it for every endpoint then active and matching. |
| DeliverySafety.SubscriberMissesNothing | crates/lulan-engine/src/events/mod.rs:113-116 | While an endpoint stays active, every event it asked for that is published and delivered meanwhile is in its queue. |
| DeliverySafety.SingleRelayInOrder | crates/lulan-engine/src/events/mod.rs:117-162 | A single relay's delivered rows are a prefix of the outbox. |
| DeliverySafety.RelaysNeverShareARow | crates/lulan-engine/src/events/mod.rs:119-131 | Relays side by side never hold the same row. |
| DeliverySafety.EightAttemptsAtMost | crates/lulan-engine/src/webhooks/mod.rs:166-214 | Recorded attempts equal the committed posts and never pass eight, a failed job has had all eight, and no job is retried before its backoffs have passed. |
| DeliverySafety.WaitedIs | crates/lulan-engine/src/webhooks/mod.rs:28-30 | The backoffs before attempt n + 1 add up to 2 s shifted by n + 1, less 4 s. |
| DeliveryAnswers.AnswerDecides | crates/lulan-engine/src/webhooks/mod.rs:172-215 | One answer: delivered on success; on failure tried again after a wait doubling from four seconds, and given up at the eighth. |
| DeliveryAnswers.DeliverDecides | crates/lulan-engine/src/webhooks/mod.rs:112-160 | A pass over at most twenty distinct pending due rows of active endpoints records each one's own answer and touches no other row; any other list records nothing. |
| DeliveryRelay.BackoffStopsDoubling | crates/lulan-engine/src/webhooks/mod.rs:198 | The backoff stops doubling at the eighth attempt. |
| DeliveryAnswers.JobsAreWhatTheyWereTold | crates/lulan-engine/src/webhooks/mod.rs:112-215 | After any run a job has as many attempts as committed answers, is Delivered exactly when the last accepted, and Failed exactly when eight refused. |
| DeliveryWorker.TallyIsWhatBecame | crates/lulan-engine/src/webhooks/mod.rs:172-215 | The three counts a pass reports are the numbers of its rows delivered, waiting again and given up. |
| IdempotencyTable.Keys.TryInsert | crates/lulan-api/src/idempotency.rs:133-146 | An insert wins exactly when the slot has no row, and then the row is the caller's. |
| IdempotencyTable.Keys.ReadRow | crates/lulan-api/src/idempotency.rs:148-180 | After a lost insert: replay, refusal by hash, in flight, or, when the row has gone, held. |
| IdempotencyTable.Keys.Reserve | crates/lulan-api/src/idempotency.rs:123-181 | With nothing between its statements, a keyed caller may book exactly when its slot had no row, and every other row and answer leaves the table as it was. |
| IdempotencyTable.Keys.ReplayIfCompleted | crates/lulan-api/src/idempotency.rs:91-118 | A completed row replays to the same hash, refuses another, and anything else is left to the reservation. |
| IdempotencyTable.Keys.Complete | crates/lulan-api/src/idempotency.rs:184-205 | The response stored on the slot's row whatever its status, every other row untouched. |
| IdempotencyTable.Keys.Release | crates/lulan-api/src/idempotency.rs:209-221 | A pending slot is free again, a stored response is never lost, every other row is untouched. |
| IdempotencySafety.AtMostOneOrder | crates/lulan-api/src/idempotency.rs:91-221 | Under any interleaving of callers, the two statements of their reservations, crashes and allowed steps, at most one order is created per scope and key between two sweeps of the row. |
| IdempotencySafety.NeverBooksTwice | crates/lulan-api/src/orders.rs:406-481 | Two orders under one scope and key mean the key was swept in between. |
| IdempotencySafety.SameAnswer | crates/lulan-api/src/idempotency.rs:91-181 | All callers served in one lifetime of a key sent the same request and got the same response, which names the order booked for it. |
| IdempotencySafety.CompletedReplays | crates/lulan-api/src/idempotency.rs:91-181 | A completed key replays its stored response to the same request until swept, on both paths, and refuses every other request. |
| IdempotencySafety.PhasesInOrder | crates/lulan-api/src/orders.rs:406-481 | A caller looks, inserts, reads if the insert lost, creates, then answers or gives back, each only from the phase before. |
| IdempotencySafety.PhasesDecide | crates/lulan-api/src/orders.rs:406-481 | The insert wins exactly on a free slot, a creation leaves an order exactly when it committed, and giving back frees only a pending row. |
| IdempotencySafety.ArrivalsAndSweeps | crates/lulan-engine/src/orders/mod.rs:628-640 | A caller arrives with nothing done; a sweep takes one row and nothing else. |
| IdempotencyLimits.SafeIffAllowed | crates/lulan-api/src/idempotency.rs:123-221 | After every allowed run, one more step is safe, whatever allowed steps follow, exactly when the row it sweeps has no live holder, the row it reads after a lost insert is still there, and the error it reports hides no order. |
| IdempotencyLimits.SweptHolderIsDoomed | crates/lulan-engine/src/orders/mod.rs:628-640 | Sweeping the row of any live holder, before or after it booked or failed to, lets a second order or a second answer through in one lifetime. |
| IdempotencyLimits.ReadOfGoneRowIsDoomed | crates/lulan-api/src/idempotency.rs:158-161 | A reservation held without a row lets a newcomer book as well. |
| IdempotencyLimits.RowGoneIsReachable | crates/lulan-api/src/idempotency.rs:158-161 | That read does occur without any sweep: the row's holder gives it back between the two statements. |
| IdempotencyLimits.UnheardOrderIsDoomed | crates/lulan-api/src/orders.rs:430-438 | Giving the key back after an error that hid a commit lets a retry book again. |
| RateLimit.SlidingWindow.Check | crates/lulan-api/src/rate_limit.rs:36-45 | The script's prune, count and record, in place. |
| RateLimit.AllowedIff | crates/lulan-api/src/rate_limit.rs:36-45 | When readings gain at least what the server's clock does, a request is let through exactly when fewer than the limit were in the last minute, so neither pruning nor expiry forgets one that still counts. |
| RateLimit.EveryWindowIsBounded | crates/lulan-api/src/rate_limit.rs:36-45 | No sixty-second window of any such run holds more than the limit. |
| RateLimit.SpreadIsSafeIff | crates/lulan-api/src/rate_limit.rs:36-45 | Where any two readings' distances from the server's clock may differ by up to a given spread, no run ever overfills a window exactly when the spread is zero or the limit is. |
| RateLimit.LeadsAreSafeIff | crates/lulan-api/src/rate_limit.rs:36-45 | The same for leads over the server between any two bounds, ahead of it or behind: exactly when the bounds leave no room or the limit is zero. |
| RateLimit.ExpiryOverfills | crates/lulan-api/src/rate_limit.rs:36-45 | For every limit of at least one: after a full burst, a call a minute later on the server's clock but less than that by its own reading is admitted into a full window, because the key is gone. |
| RateLimit.LatencyOverfills | crates/lulan-api/src/rate_limit.rs:36-45 | That happens with nobody ahead of the server and neither clock going back, for any delay between the last reading and its script. |
| RateLimit.PruningOverfills | crates/lulan-api/src/rate_limit.rs:36-45 | For every limit of at least two, while the key lives: a reading a minute past the burst prunes it, and any call whose window still holds the burst is admitted into it. |
| RateLimit.LimitOneNeedsNoOrder | crates/lulan-api/src/rate_limit.rs:36-45 | At a limit of one pruning alone never does: as long as no call comes after the current key's deadline, no window holds two admissions, for readings in any order. |
| FareLaws.TruncationIsFloorIff | crates/lulan-pricing/src/rules.rs:136-140 | The code's truncating division is the documented floor exactly when the product is not negative or divides evenly; otherwise it is one more. |
| FareLaws.NegativeRateReachesIt | crates/lulan-pricing/src/rules.rs:136-140 | A rule set with a negative rate reaches such a product and prices 1 where the floor gives 0. |
| FareQuotes.QuoteInFull | crates/lulan-pricing/src/rules.rs:144-228 | The quote in full: the base is fare times segments times quantity; peak and demand are added, advance purchase, passenger type, round trip and promo taken off, each listed exactly under its own condition; the total is their sum, never below zero. |
| FareQuotes.RefusedIff | crates/lulan-pricing/src/rules.rs:144-154 | The three refusals, in the order they are looked at, and that nothing else is refused. |
| FareQuotes.AdvanceTierIff | crates/lulan-pricing/src/rules.rs:181-187 | The advance tier in force is reached, has the highest threshold reached, and is the last listed with it. |
| FareQuotes.OccupancyTierIff | crates/lulan-pricing/src/rules.rs:166-173 | Likewise for occupancy tiers. |
| FareQuotes.PromoNeverRaises | crates/lulan-pricing/src/rules.rs:213-220 | With non-negative fares a known promo with a non-negative rate never raises the total. |
| FareQuotes.PassengerTypeNeverRaises | crates/lulan-pricing/src/rules.rs:193-201 | Likewise a passenger type's discount. |
| FareQuotes.RoundTripNeverRaises | crates/lulan-pricing/src/rules.rs:203-208 | Likewise the round-trip discount. |
| FareQuotes.AdvanceNeverRaises | crates/lulan-pricing/src/rules.rs:181-191 | Likewise an advance-purchase discount. |
| FareQuotes.PeakNeverLowers | crates/lulan-pricing/src/rules.rs:157-162 | A peak weekday with a non-negative rate never lowers the total. |
| FareQuotes.DemandNeverLowers | crates/lulan-pricing/src/rules.rs:166-179 | Likewise a demand tier. |
| FareQuotes.SeatOccupancyIs | crates/lulan-engine/src/inventory/store.rs:227-280 | A seat's occupancy is the share of its class on the trip taken anywhere on the span, in basis points rounded down, and zero without such seats. |
| FareQuotes.PoolOccupancyIs | crates/lulan-engine/src/inventory/store.rs:227-280 | A pool's occupancy is what is sold of its capacity on its tightest covered segment, all of it past the counters, and zero for an unknown pool or one without capacity. |
| FareLaws.TierIsHighestReached | crates/lulan-pricing/src/rules.rs:166-173 | The chosen tier is reached and none reached has a higher threshold; there is none exactly when none is reached. |
| FareLaws.TierSettles | crates/lulan-pricing/src/rules.rs:166-173 | A tier already reached at a lower occupancy is chosen there too, equal thresholds included. |
| FareLaws.FullerIsNeverCheaper | crates/lulan-pricing/src/rules.rs:144-228 | With non-negative fares and surcharges in force that rise with occupancy, the total never falls as a trip fills up, through tier choice, truncation and the clamp. |
| FareLaws.FallingTierIsCheaper | crates/lulan-pricing/src/rules.rs:166-179 | Where a higher threshold of any list of tiers puts a lower surcharge in force, the property fails between the two thresholds. |
| FareLaws.NeverCheaperIff | crates/lulan-pricing/src/rules.rs:144-228 | For every list of tiers, equal thresholds included: no rule set with them and non-negative fares is ever cheaper when fuller exactly when the surcharges in force at the thresholds rise and none is negative. |
| FareLaws.RisingTiersRise | crates/lulan-pricing/src/rules.rs:166-179 | With one tier per threshold that condition is the tiers themselves rising, none negative. |
| FareLaws.ClaimsRaiseOccupancy | crates/lulan-engine/src/inventory/store.rs:227-280 | Claims that go through never lower any unit's occupancy on any span. |
| FareLaws.RequoteNeverCheaper | crates/lulan-engine/src/inventory/store.rs:227-280 | A line re-quoted after any order's claims went through is never cheaper. |
| FareLaws.SplittingALine | crates/lulan-pricing/src/rules.rs:138-140 | The quote for a quantity and the two quotes for its parts have the same base in sum and, before the clamp, differ by at most one minor unit per adjustment, of which there are at most six. |
| FareLaws.QuoteIsClamped | crates/lulan-pricing/src/rules.rs:220 | A quote's total is its own base and adjustments, clamped at zero. |
| FareLaws.NoIntermediateOverflows | crates/lulan-pricing/src/rules.rs:156-220 | With fares up to 2^20 and rates up to 10 000 basis points in magnitude, no 64-bit intermediate overflows. |
| Stops.SearchRefusesIff | crates/lulan-engine/src/inventory/store.rs:738-752 | Each refusal of the search names its cause; there is none exactly when the destination is called at after some call at the origin. |
| Stops.PickSpanIff | crates/lulan-engine/src/inventory/store.rs:728-758 | For any stop indexes, a journey is found exactly when the two ends, cut to eight bits, still run forward within 64 segments. |
| Stops.PickSpanOnRoute | crates/lulan-engine/src/inventory/store.rs:728-758 | On a route of at most 64 segments that is exactly when the destination is called at after some call at the origin. |
| Stops.PickSpanIsEarliest | crates/lulan-engine/src/inventory/store.rs:728-758 | For any stop indexes, the answer is the span from the earliest call at the origin to the earliest call at the destination after it, cut to eight bits, or the reason that is none. |

## Left out

- The HTTP POST of a delivery is a given answer, and in runs a worker's pass may take any at most 20 distinct due rows, of which `SelectDue` is one choice.
- HeldUnitCount: as a refusal guarantee for the hold ceiling, because below its threshold it may over-count.
- RecordScan: one atomic step; two scans of sibling tickets that each miss the other's update are outside the model.
- Check: price, currency and sellability rules behind `resolve_target` are its answer for each item.
- Ids are positions in their tables and counters; only their freshness is used. Gaps in database sequences and commit order against sequence order are not modelled.
- The primary key of order_items and the uniqueness of payment intents are not modelled, so runs include more states than the database allows; a duplicated intent resolves to the lowest order id.
- Inventory rows are fixed during a run: seeding, schedule changes and the GTFS importer.
- Counters and totals outside fare evaluation are unbounded integers.
- Passenger records, ancillary catalogue, event payloads, currency, ticket tokens and validity dates: carried data with no effect on the properties.
- Redis and network failures inside one hold call: each call completes, at one reading and one server time.
- Malformed hold fields and index members that are not ids, which the scripts drop: the store writes none.
- Idempotency without a key, beyond the `Disabled` answer: nothing is stored.
- The limiter failing open when Redis is missing, and how a caller is identified.
- HTTP handlers, authentication, audit, metrics, configuration, SDKs, the WASM boundary and native/WASM agreement.
- Signatures, sealing, CBOR, base64 and JWT; the payment client behind the provider's answer.
- The single-order refund endpoint's own read of the intent.
