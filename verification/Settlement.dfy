/** Settling cancelled trips (orders/mod.rs, `settle_cancelled_trips`): money first, inventory
second, under any interleaving; and finitely many undisturbed passes leave nothing unsettled. */
module Settlement {
  import opened Outcomes
  import opened OrderLifecycle
  import opened Booking
  import opened StreamSafety

  // ---- one pass, as written ------------------------------------------------------------------------

  /** Statuses the cascade still has to settle. */
  predicate Unsettled(s: OrderStatus) {
    s.Locked? || s.PendingPayment? || s.Paid? || s.Ticketed?
  }

  predicate Touches(order: Order, trips: set<nat>) {
    exists item <- order.items :: item.claim.row.trip in trips
  }

  predicate Outstanding(s: State, id: nat) {
    id < |s.orders| && Unsettled(s.orders[id].status) && Touches(s.orders[id], s.cancelledTrips)
  }

  /** One row of the list a pass starts from. */
  datatype Selected = Selected(id: nat, status: OrderStatus, intent: Option<nat>, total: int)

  function RowOf(s: State, id: nat): Selected
    requires id < |s.orders|
  {
    Selected(id, s.orders[id].status, s.orders[id].intent, s.orders[id].total)
  }

  /** At most `limit` outstanding orders with ids from `from` on, in id order. */
  function SelectFrom(s: State, from: nat, limit: nat): seq<Selected>
    requires from <= |s.orders|
    decreases |s.orders| - from
  {
    if from == |s.orders| || limit == 0 then []
    else if Outstanding(s, from) then [RowOf(s, from)] + SelectFrom(s, from + 1, limit - 1)
    else SelectFrom(s, from + 1, limit)
  }

  function Select(s: State, limit: nat): seq<Selected> {
    SelectFrom(s, 0, limit)
  }

  datatype Stats = Stats(cancelled: nat, refunded: nat, failed: nat)

  predicate Unpaid(row: Selected) {
    row.status.Locked? || row.status.PendingPayment?
  }

  /** How a row's transaction ended. An error may also hide a commit whose answer was lost. */
  datatype Ending = Done | RolledBack | Unheard

  /** The provider's answer to one row, should it be asked, and its transaction's ending. */
  datatype Answer = Answer(accepts: bool, ending: Ending)

  /** The provider is asked only when there is an intent; a refusal leaves the order alone. */
  predicate Blocked(row: Selected, accepts: bool) {
    !Unpaid(row) && row.intent.Some? && !accepts
  }

  function Failed(stats: Stats): Stats {
    stats.(failed := stats.failed + 1)
  }

  /** What one row's transaction does. */
  function SettleRow(s: State, row: Selected): (State, TransitionOutcome) {
    if Unpaid(row) then Cancel(s, row.id) else Refund(s, row.id)
  }

  function Tally(stats: Stats, outcome: TransitionOutcome): Stats {
    match outcome
    case Applied(status) =>
      if status.Cancelled? then stats.(cancelled := stats.cancelled + 1)
      else stats.(refunded := stats.refunded + 1)
    case _ => stats
  }

  /** One row: a refusal or an error is counted as failed and gone past. */
  function SettleOne(s: State, row: Selected, answer: Answer, stats: Stats): (State, Stats) {
    if Blocked(row, answer.accepts) then (s, Failed(stats))
    else
      var (t, outcome) := SettleRow(s, row);
      match answer.ending
      case Done => (t, Tally(stats, outcome))
      case RolledBack => (s, Failed(stats))
      case Unheard => (t, Failed(stats))
  }

  /** The loop over the list, with the answers each row met. */
  function SettleRows(s: State, rows: seq<Selected>, answers: seq<Answer>, stats: Stats): (State, Stats)
    requires |answers| == |rows|
    decreases |rows|
  {
    if rows == [] then (s, stats)
    else
      var (t, after) := SettleOne(s, rows[0], answers[0], stats);
      SettleRows(t, rows[1..], answers[1..], after)
  }

  // ---- draining --------------------------------------------------------------------------------------

  function OutstandingSet(s: State): set<nat> {
    set id | 0 <= id < |s.orders| && Outstanding(s, id)
  }

  function AllAccept(n: nat): (answers: seq<Answer>)
    ensures |answers| == n && forall k :: 0 <= k < n ==> answers[k] == Answer(true, Done)
  {
    seq(n, k => Answer(true, Done))
  }

  /** A list read from `s` that is still up to date: distinct outstanding orders, seen as they are. */
  ghost predicate Current(s: State, rows: seq<Selected>) {
    && (forall k :: 0 <= k < |rows| ==> Outstanding(s, rows[k].id) && rows[k] == RowOf(s, rows[k].id))
    && (forall j, k :: 0 <= j < k < |rows| ==> rows[j].id != rows[k].id)
  }

  function Min2(a: nat, b: nat): nat {
    if a < b then a else b
  }

  function OutstandingFrom(s: State, from: nat): set<nat>
    requires from <= |s.orders|
    decreases |s.orders| - from
  {
    if from == |s.orders| then {}
    else (if Outstanding(s, from) then {from} else {}) + OutstandingFrom(s, from + 1)
  }

  lemma {:induction false} OutstandingFromHas(s: State, from: nat, id: nat)
    requires from <= |s.orders|
    ensures id in OutstandingFrom(s, from) <==> from <= id && Outstanding(s, id)
    decreases |s.orders| - from
  {
    if from < |s.orders| {
      OutstandingFromHas(s, from + 1, id);
    }
  }

  lemma OutstandingFromStart(s: State)
    ensures OutstandingFrom(s, 0) == OutstandingSet(s)
  {
    forall id: nat
      ensures id in OutstandingFrom(s, 0) <==> id in OutstandingSet(s)
    {
      OutstandingFromHas(s, 0, id);
    }
  }

  lemma {:induction false} SelectedCount(s: State, from: nat, limit: nat)
    requires from <= |s.orders|
    ensures |SelectFrom(s, from, limit)| == Min2(limit, |OutstandingFrom(s, from)|)
    decreases |s.orders| - from
  {
    if from < |s.orders| && limit > 0 {
      OutstandingFromHas(s, from + 1, from);
      SelectedCount(s, from + 1, if Outstanding(s, from) then limit - 1 else limit);
    }
  }

  ghost predicate From(rows: seq<Selected>, from: nat) {
    forall k :: 0 <= k < |rows| ==> rows[k].id >= from
  }

  lemma CurrentWithHead(s: State, id: nat, rows: seq<Selected>)
    requires Outstanding(s, id) && Current(s, rows) && From(rows, id + 1)
    ensures Current(s, [RowOf(s, id)] + rows) && From([RowOf(s, id)] + rows, id)
  {}

  lemma {:induction false} SelectedAreCurrent(s: State, from: nat, limit: nat)
    requires from <= |s.orders|
    ensures Current(s, SelectFrom(s, from, limit)) && From(SelectFrom(s, from, limit), from)
    decreases |s.orders| - from
  {
    if from < |s.orders| && limit > 0 {
      if Outstanding(s, from) {
        SelectedAreCurrent(s, from + 1, limit - 1);
        CurrentWithHead(s, from, SelectFrom(s, from + 1, limit - 1));
      } else {
        SelectedAreCurrent(s, from + 1, limit);
      }
    }
  }

  /** An up-to-date row always settles: unpaid orders cancel, paid ones are refunded, and no other
      order changes. */
  lemma RowSettles(s: State, row: Selected)
    requires Outstanding(s, row.id) && row == RowOf(s, row.id)
    ensures var (t, outcome) := SettleRow(s, row);
            && outcome == Applied(if Unpaid(row) then Cancelled else Refunded)
            && |t.orders| == |s.orders| && t.cancelledTrips == s.cancelledTrips
            && !Unsettled(t.orders[row.id].status)
            && forall i :: 0 <= i < |s.orders| && i != row.id ==> t.orders[i] == s.orders[i]
  {}

  lemma CurrentAfterOne(s: State, t: State, rows: seq<Selected>)
    requires rows != [] && Current(s, rows)
    requires |t.orders| == |s.orders| && t.cancelledTrips == s.cancelledTrips
    requires !Unsettled(t.orders[rows[0].id].status)
    requires forall i :: 0 <= i < |s.orders| && i != rows[0].id ==> t.orders[i] == s.orders[i]
    ensures Current(t, rows[1..])
    ensures OutstandingSet(t) == OutstandingSet(s) - {rows[0].id}
  {
    forall k | 0 <= k < |rows[1..]|
      ensures Outstanding(t, rows[1..][k].id) && rows[1..][k] == RowOf(t, rows[1..][k].id)
    {
      assert rows[1..][k] == rows[k + 1];
    }
    forall id: nat | id < |s.orders|
      ensures Outstanding(t, id) <==> Outstanding(s, id) && id != rows[0].id
    {}
  }

  lemma {:induction false} RowsAllSettle(s: State, rows: seq<Selected>, stats: Stats)
    requires Current(s, rows)
    ensures var (t, after) := SettleRows(s, rows, AllAccept(|rows|), stats);
            && after.failed == stats.failed
            && after.cancelled + after.refunded == stats.cancelled + stats.refunded + |rows|
            && OutstandingSet(t) <= OutstandingSet(s)
            && |OutstandingSet(t)| == |OutstandingSet(s)| - |rows|
    decreases |rows|
  {
    if rows != [] {
      var (t, outcome) := SettleRow(s, rows[0]);
      RowSettles(s, rows[0]);
      CurrentAfterOne(s, t, rows);
      assert rows[0].id in OutstandingSet(s);
      assert AllAccept(|rows|)[1..] == AllAccept(|rows[1..]|);
      RowsAllSettle(t, rows[1..], Tally(stats, outcome));
    }
  }

  function Pass(s: State, limit: nat): (State, Stats) {
    SettleRows(s, Select(s, limit), AllAccept(|Select(s, limit)|), Stats(0, 0, 0))
  }

  /** With an accepting provider and nothing in between, a pass settles exactly the smaller of
      `limit` and what is outstanding, fails none, and reports what is left. */
  lemma PassSettles(s: State, limit: nat)
    ensures var (t, stats) := Pass(s, limit);
            var settled := Min2(limit, |OutstandingSet(s)|);
            && stats.failed == 0
            && stats.cancelled + stats.refunded == settled
            && |OutstandingSet(t)| == |OutstandingSet(s)| - settled
  {
    SelectedAreCurrent(s, 0, limit);
    SelectedCount(s, 0, limit);
    OutstandingFromStart(s);
    RowsAllSettle(s, Select(s, limit), Stats(0, 0, 0));
  }

  function Passes(s: State, limit: nat, n: nat): State
    decreases n
  {
    if n == 0 then s else Passes(Pass(s, limit).0, limit, n - 1)
  }

  /** Enough passes leave no unsettled order on any cancelled trip. */
  lemma {:induction false} PassesDrain(s: State, limit: nat, n: nat)
    requires n * limit >= |OutstandingSet(s)|
    ensures OutstandingSet(Passes(s, limit, n)) == {}
    decreases n
  {
    PassSettles(s, limit);
    if n > 0 {
      assert (n - 1) * limit == n * limit - limit;
      PassesDrain(Pass(s, limit).0, limit, n - 1);
    }
  }

  // ---- money first, under any interleaving ---------------------------------------------------------

  /** An order that payment has been requested for, or captured, has an intent. */
  ghost predicate IntentsOk(s: State) {
    forall i :: 0 <= i < |s.orders| ==>
      s.orders[i].status.PendingPayment? || WasCaptured(s.orders[i].status) ==> s.orders[i].intent.Some?
  }

  lemma EventKeepsIntents(s: State, id: nat, event: EventType)
    requires IntentsOk(s) && !event.PaymentRequested?
    ensures IntentsOk(ApplyEvent(s, id, event).0)
  {}

  lemma RequestKeepsIntents(s: State, id: nat, intent: nat)
    requires IntentsOk(s)
    ensures IntentsOk(RequestPayment(s, id, intent).0)
  {}

  lemma LeaveKeepsIntents(s: State, id: nat, event: EventType)
    requires IntentsOk(s) && !event.PaymentRequested?
    ensures IntentsOk(Leave(s, id, event).0)
  {
    EventKeepsIntents(s, id, event);
  }

  lemma ScanKeepsIntents(s: State, scan: ScanKey)
    requires IntentsOk(s)
    ensures IntentsOk(RecordScan(s, scan).0)
  {
    if scan.ticket < |s.tickets| {
      var ticket := s.tickets[scan.ticket];
      var boarded := s.(scans := s.scans + {scan},
                        tickets := s.tickets[scan.ticket := ticket.(status := TicketStatus.Boarded)]);
      EventKeepsIntents(boarded, ticket.order, PassengerBoarded);
    }
  }

  lemma StepKeepsIntents(s: State, step: Step)
    requires IntentsOk(s)
    ensures IntentsOk(Next(s, step))
  {
    match step
    case StepRequestPayment(id, intent) => RequestKeepsIntents(s, id, intent);
    case StepPayment(id, succeeded) => EventKeepsIntents(s, id, PaymentEvent(succeeded));
    case StepCancel(id) => LeaveKeepsIntents(s, id, OrderCancelled);
    case StepExpire(id) => LeaveKeepsIntents(s, id, OrderExpired);
    case StepRefund(id) => LeaveKeepsIntents(s, id, OrderRefunded);
    case StepScan(scan) => ScanKeepsIntents(s, scan);
    case _ =>
  }

  /** A running pass: the rows still to do, and whether the provider has been dealt with for the
      first of them. */
  datatype Running = Running(rows: seq<Selected>, cleared: bool)

  /** Money the provider confirmed returning. */
  datatype Returned = Returned(intent: nat, total: int)

  datatype World = World(engine: State, passes: seq<Running>, money: set<Returned>)

  datatype Move =
    | Engine(step: Step)
    | Begin(limit: nat)
    | AskProvider(pass: nat, accepts: bool)
    | Commit(pass: nat)
    | Lose(pass: nat)

  function WithPass(w: World, p: nat, pass: Running): World
    requires p < |w.passes|
  {
    w.(passes := w.passes[p := pass])
  }

  /** One move. Each provider call and each transaction is a move of its own, so anything, other
      passes included, may happen between reading the list, returning the money and the refund; a
      transaction may also roll back, and the pass goes on to its next row. */
  function Advance(w: World, move: Move): World {
    match move
    case Engine(step) => w.(engine := Next(w.engine, step))
    case Begin(limit) => w.(passes := w.passes + [Running(Select(w.engine, limit), false)])
    case AskProvider(p, accepts) =>
      if p >= |w.passes| || w.passes[p].rows == [] || w.passes[p].cleared then w
      else
        var pass := w.passes[p];
        var row := pass.rows[0];
        if Unpaid(row) || row.intent.None? then WithPass(w, p, pass.(cleared := true))
        else if accepts then
          WithPass(w, p, pass.(cleared := true)).(money := w.money + {Returned(row.intent.value, row.total)})
        else WithPass(w, p, Running(pass.rows[1..], false))
    case Commit(p) =>
      if p >= |w.passes| || w.passes[p].rows == [] || !w.passes[p].cleared then w
      else
        var pass := w.passes[p];
        WithPass(w, p, Running(pass.rows[1..], false)).(engine := SettleRow(w.engine, pass.rows[0]).0)
    case Lose(p) =>
      if p >= |w.passes| || w.passes[p].rows == [] || !w.passes[p].cleared then w
      else WithPass(w, p, Running(w.passes[p].rows[1..], false))
  }

  function Play(w: World, moves: seq<Move>): World
    decreases |moves|
  {
    if moves == [] then w else Play(Advance(w, moves[0]), moves[1..])
  }

  lemma {:induction false} PlayConcat(w: World, a: seq<Move>, b: seq<Move>)
    ensures Play(w, a + b) == Play(Play(w, a), b)
    decreases |a|
  {
    if a == [] {
      assert a + b == b;
    } else {
      assert (a + b)[1..] == a[1..] + b;
      PlayConcat(Advance(w, a[0]), a[1..], b);
    }
  }

  lemma OneMove(w: World, moves: seq<Move>, move: Move)
    ensures Play(w, moves + [move]) == Advance(Play(w, moves), move)
  {
    PlayConcat(w, moves, [move]);
    assert [move][1..] == [];
  }

  /** A listed paid order is still captured, with the intent and total it was listed with. */
  ghost predicate Faithful(s: State, row: Selected) {
    && row.id < |s.orders|
    && (!Unpaid(row) ==>
          && WasCaptured(s.orders[row.id].status)
          && row.intent.Some?
          && s.orders[row.id].intent == row.intent
          && s.orders[row.id].total == row.total)
  }

  ghost predicate PassOk(w: World, pass: Running) {
    && (forall k :: 0 <= k < |pass.rows| ==> Faithful(w.engine, pass.rows[k]))
    && (pass.cleared && pass.rows != [] && !Unpaid(pass.rows[0]) ==>
          Returned(pass.rows[0].intent.value, pass.rows[0].total) in w.money)
  }

  ghost predicate WorldOk(w: World) {
    && IntentsOk(w.engine)
    && forall p :: 0 <= p < |w.passes| ==> PassOk(w, w.passes[p])
  }

  lemma EvolutionKeepsPass(w: World, t: World, pass: Running)
    requires PassOk(w, pass) && AllEvolve(w.engine, t.engine) && w.money <= t.money
    ensures PassOk(t, pass)
  {}

  lemma TailOk(w: World, pass: Running)
    requires PassOk(w, pass) && pass.rows != []
    ensures PassOk(w, Running(pass.rows[1..], false))
  {}

  lemma SettleRowEvolves(s: State, row: Selected)
    requires IntentsOk(s)
    ensures AllEvolve(s, SettleRow(s, row).0) && IntentsOk(SettleRow(s, row).0)
  {
    var step := if Unpaid(row) then StepCancel(row.id) else StepRefund(row.id);
    StepEvolves(s, step);
    StepKeepsIntents(s, step);
  }

  lemma BeginKeeps(w: World, limit: nat)
    requires WorldOk(w)
    ensures WorldOk(Advance(w, Begin(limit)))
  {
    SelectedAreCurrent(w.engine, 0, limit);
  }

  lemma AskKeeps(w: World, p: nat, accepts: bool)
    requires WorldOk(w)
    ensures WorldOk(Advance(w, AskProvider(p, accepts)))
  {
    var t := Advance(w, AskProvider(p, accepts));
    if t != w {
      TailOk(w, w.passes[p]);
      forall q | 0 <= q < |t.passes|
        ensures PassOk(t, t.passes[q])
      {
        EvolutionKeepsPass(w, t, w.passes[q]);
        EvolutionKeepsPass(w, t, Running(w.passes[p].rows[1..], false));
      }
    }
  }

  lemma CommitKeeps(w: World, p: nat)
    requires WorldOk(w)
    ensures WorldOk(Advance(w, Commit(p)))
  {
    var t := Advance(w, Commit(p));
    if p < |w.passes| && w.passes[p].rows != [] && w.passes[p].cleared {
      SettleRowEvolves(w.engine, w.passes[p].rows[0]);
      TailOk(w, w.passes[p]);
      forall q | 0 <= q < |t.passes|
        ensures PassOk(t, t.passes[q])
      {
        EvolutionKeepsPass(w, t, w.passes[q]);
        EvolutionKeepsPass(w, t, Running(w.passes[p].rows[1..], false));
      }
    }
  }

  lemma LoseKeeps(w: World, p: nat)
    requires WorldOk(w)
    ensures WorldOk(Advance(w, Lose(p)))
  {
    var t := Advance(w, Lose(p));
    if t != w {
      TailOk(w, w.passes[p]);
      forall q | 0 <= q < |t.passes|
        ensures PassOk(t, t.passes[q])
      {
        EvolutionKeepsPass(w, t, w.passes[q]);
        EvolutionKeepsPass(w, t, Running(w.passes[p].rows[1..], false));
      }
    }
  }

  lemma EngineKeeps(w: World, step: Step)
    requires WorldOk(w)
    ensures WorldOk(Advance(w, Engine(step)))
  {
    var t := Advance(w, Engine(step));
    StepEvolves(w.engine, step);
    StepKeepsIntents(w.engine, step);
    forall q | 0 <= q < |t.passes|
      ensures PassOk(t, t.passes[q])
    {
      EvolutionKeepsPass(w, t, w.passes[q]);
    }
  }

  lemma AdvanceKeeps(w: World, move: Move)
    requires WorldOk(w)
    ensures WorldOk(Advance(w, move))
  {
    match move
    case Engine(step) => EngineKeeps(w, step);
    case Begin(limit) => BeginKeeps(w, limit);
    case AskProvider(p, accepts) => AskKeeps(w, p, accepts);
    case Commit(p) => CommitKeeps(w, p);
    case Lose(p) => LoseKeeps(w, p);
  }

  lemma {:induction false} PlayKeeps(w: World, moves: seq<Move>)
    requires WorldOk(w)
    ensures WorldOk(Play(w, moves))
    decreases |moves|
  {
    if moves != [] {
      AdvanceKeeps(w, moves[0]);
      PlayKeeps(Advance(w, moves[0]), moves[1..]);
    }
  }

  lemma SettlesOnlyItsRow(s: State, row: Selected)
    ensures var t := SettleRow(s, row).0;
            && |t.orders| == |s.orders|
            && (forall i :: 0 <= i < |s.orders| && i != row.id ==> t.orders[i] == s.orders[i])
            && (Unpaid(row) ==> forall i :: 0 <= i < |s.orders| && t.orders[i].status.Refunded? ==> s.orders[i].status.Refunded?)
  {}

  /** Whatever ran before and in between: when a settlement transaction turns an order Refunded, the
      provider had already confirmed returning that order's total on that order's intent. */
  lemma MoneyFirst(w: World, moves: seq<Move>, p: nat, id: nat)
    requires Initial(w.engine) && w.passes == []
    ensures var before := Play(w, moves);
            var after := Advance(before, Commit(p));
            id < |before.engine.orders| == |after.engine.orders|
            && !before.engine.orders[id].status.Refunded? && after.engine.orders[id].status.Refunded? ==>
              var order := before.engine.orders[id];
              order.intent.Some? && Returned(order.intent.value, order.total) in before.money
  {
    var before := Play(w, moves);
    PlayKeeps(w, moves);
    if p < |before.passes| && before.passes[p].rows != [] && before.passes[p].cleared {
      var row := before.passes[p].rows[0];
      assert PassOk(before, before.passes[p]);
      assert Faithful(before.engine, row);
      SettlesOnlyItsRow(before.engine, row);
    }
  }

  lemma RefundedIff(s: State, row: Selected)
    requires row.id < |s.orders| && WasCaptured(s.orders[row.id].status) && !Unpaid(row)
    ensures var after := SettleRow(s, row).0.orders;
            && row.id < |after|
            && (after[row.id].status.Refunded? <==>
                  !s.orders[row.id].status.Boarded? && !s.orders[row.id].status.Completed?)
            && (s.orders[row.id].status.Boarded? || s.orders[row.id].status.Completed? ==> SettleRow(s, row).0 == s)
  {}

  /** Pass `p` is about to run the transaction of a row listed as paid, its money already returned. */
  ghost predicate AboutToRefund(w: World, p: nat) {
    p < |w.passes| && w.passes[p].rows != [] && w.passes[p].cleared && !Unpaid(w.passes[p].rows[0])
  }

  /** The converse fails, and exactly when: in every play, once the money of a listed order has gone
      back, its transaction leaves it Refunded if and only if it had not boarded or completed by then.
      An order that had is left as it was, claims and all. */
  lemma CommitRefundsIff(w: World, moves: seq<Move>, p: nat)
    requires Initial(w.engine) && w.passes == []
    ensures var before := Play(w, moves);
            var after := Advance(before, Commit(p));
            AboutToRefund(before, p) ==>
              var row := before.passes[p].rows[0];
              && row.id < |before.engine.orders| && row.id < |after.engine.orders|
              && row.intent.Some? && Returned(row.intent.value, row.total) in before.money
              && (after.engine.orders[row.id].status.Refunded? <==>
                    !before.engine.orders[row.id].status.Boarded? && !before.engine.orders[row.id].status.Completed?)
              && (!after.engine.orders[row.id].status.Refunded? ==> after.engine == before.engine)
  {
    var before := Play(w, moves);
    PlayKeeps(w, moves);
    if AboutToRefund(before, p) {
      var row := before.passes[p].rows[0];
      assert PassOk(before, before.passes[p]);
      assert Faithful(before.engine, row);
      RefundedIff(before.engine, row);
    }
  }
}
