/** One settlement pass as written, with whatever answers its rows meet (orders/mod.rs,
settle_cancelled_trips): it is a run of the moves `Settlement` reasons about, and a fresh list settles
row by row exactly as the provider and the transactions answer. */
module SettlementPass {
  import opened OrderLifecycle
  import opened Booking
  import opened Settlement

  // ---- the loop is a play ----------------------------------------------------------------------------

  /** Ask for the row at the head of pass `p`, then run its transaction or see it roll back. After a
      refusal the second move finds nothing cleared and does nothing. */
  function RowMoves(p: nat, answer: Answer): seq<Move> {
    [AskProvider(p, answer.accepts)] + [if answer.ending.RolledBack? then Lose(p) else Commit(p)]
  }

  function PassMoves(p: nat, answers: seq<Answer>): seq<Move>
    decreases |answers|
  {
    if answers == [] then [] else RowMoves(p, answers[0]) + PassMoves(p, answers[1..])
  }

  /** What the provider returned for one row. */
  ghost function MoneyFor(row: Selected, answer: Answer): set<Returned> {
    if (row.status.Locked? || row.status.PendingPayment?) || row.intent.None? || !answer.accepts then {}
    else {Returned(row.intent.value, row.total)}
  }

  lemma TwoMoves(w: World, p: nat, answer: Answer)
    ensures Play(w, RowMoves(p, answer))
         == Advance(Advance(w, AskProvider(p, answer.accepts)), if answer.ending.RolledBack? then Lose(p) else Commit(p))
  {
    var ask := AskProvider(p, answer.accepts);
    OneMove(w, [], ask);
    OneMove(w, [ask], if answer.ending.RolledBack? then Lose(p) else Commit(p));
    assert [] + [ask] == [ask];
  }

  lemma Asked(w: World, p: nat, answer: Answer)
    requires p < |w.passes| && w.passes[p].rows != [] && !w.passes[p].cleared
    ensures var rows := w.passes[p].rows;
            var t := Advance(w, AskProvider(p, answer.accepts));
            && t.engine == w.engine && t.money == w.money + MoneyFor(rows[0], answer)
            && t.passes == w.passes[p := if Blocked(rows[0], answer.accepts) then Running(rows[1..], false)
                                         else Running(rows, true)]
  {}

  lemma Concluded(w: World, p: nat, answer: Answer, stats: Stats)
    requires p < |w.passes| && w.passes[p].rows != [] && w.passes[p].cleared
    requires !Blocked(w.passes[p].rows[0], answer.accepts)
    ensures var rows := w.passes[p].rows;
            var t := Advance(w, if answer.ending.RolledBack? then Lose(p) else Commit(p));
            && t.engine == SettleOne(w.engine, rows[0], answer, stats).0 && t.money == w.money
            && t.passes == w.passes[p := Running(rows[1..], false)]
  {}

  lemma NothingCleared(w: World, p: nat)
    requires p < |w.passes| && !w.passes[p].cleared
    ensures Advance(w, Commit(p)) == w && Advance(w, Lose(p)) == w
  {}

  /** Once a row is cleared the provider is not asked for it again. */
  lemma AskedOnce(w: World, p: nat, accepts: bool)
    requires p < |w.passes| && w.passes[p].cleared
    ensures Advance(w, AskProvider(p, accepts)) == w
  {}

  lemma RowIsPlayed(w: World, p: nat, answer: Answer, stats: Stats)
    requires p < |w.passes| && w.passes[p].rows != [] && !w.passes[p].cleared
    ensures var rows := w.passes[p].rows;
            var t := Play(w, RowMoves(p, answer));
            && t.engine == SettleOne(w.engine, rows[0], answer, stats).0
            && t.passes == w.passes[p := Running(rows[1..], false)]
            && t.money == w.money + MoneyFor(rows[0], answer)
  {
    var asked := Advance(w, AskProvider(p, answer.accepts));
    TwoMoves(w, p, answer);
    Asked(w, p, answer);
    if Blocked(w.passes[p].rows[0], answer.accepts) {
      NothingCleared(asked, p);
    } else {
      Concluded(asked, p, answer, stats);
    }
  }

  lemma {:induction false} PassIsPlayed(w: World, p: nat, answers: seq<Answer>, stats: Stats)
    requires p < |w.passes| && |answers| == |w.passes[p].rows| && !w.passes[p].cleared
    ensures Play(w, PassMoves(p, answers)).engine == SettleRows(w.engine, w.passes[p].rows, answers, stats).0
    decreases |answers|
  {
    if answers != [] {
      var t := Play(w, RowMoves(p, answers[0]));
      RowIsPlayed(w, p, answers[0], stats);
      PlayConcat(w, RowMoves(p, answers[0]), PassMoves(p, answers[1..]));
      PassIsPlayed(t, p, answers[1..], SettleOne(w.engine, w.passes[p].rows[0], answers[0], stats).1);
    }
  }

  /** Whatever its rows meet, a pass leaves the engine as the moves of `Settlement` would, so what holds of
      every play holds of it; `MoneyFirst` above all. */
  lemma PassIsPlay(w: World, limit: nat, answers: seq<Answer>)
    requires |answers| == |Select(w.engine, limit)|
    ensures SettleRows(w.engine, Select(w.engine, limit), answers, Stats(0, 0, 0)).0
         == Play(w, [Begin(limit)] + PassMoves(|w.passes|, answers)).engine
  {
    PlayConcat(w, [Begin(limit)], PassMoves(|w.passes|, answers));
    OneMove(w, [], Begin(limit));
    assert [] + [Begin(limit)] == [Begin(limit)];
    PassIsPlayed(Advance(w, Begin(limit)), |w.passes|, answers, Stats(0, 0, 0));
  }

  // ---- what each row of a fresh list comes to ------------------------------------------------------------

  datatype Verdict = Cancels | Refunds | Fails

  /** How a row is counted. */
  ghost function VerdictOf(row: Selected, answer: Answer): Verdict {
    if !answer.ending.Done? then Fails
    else if row.status.Locked? || row.status.PendingPayment? then Cancels
    else if row.intent.Some? && !answer.accepts then Fails
    else Refunds
  }

  /** The order is left alone: its transaction rolled back, or the provider refused to return its money. */
  ghost predicate LeftAlone(row: Selected, answer: Answer) {
    answer.ending.RolledBack?
    || (!row.status.Locked? && !row.status.PendingPayment? && row.intent.Some? && !answer.accepts)
  }

  /** The order after its row. */
  ghost function Settled(order: Order, row: Selected, answer: Answer): Order {
    if LeftAlone(row, answer) then order
    else order.(status := if row.status.Locked? || row.status.PendingPayment? then Cancelled else Refunded)
  }

  ghost function Counted(stats: Stats, verdict: Verdict): Stats {
    match verdict
    case Cancels => Stats(stats.cancelled + 1, stats.refunded, stats.failed)
    case Refunds => Stats(stats.cancelled, stats.refunded + 1, stats.failed)
    case Fails => Stats(stats.cancelled, stats.refunded, stats.failed + 1)
  }

  lemma RowDecides(s: State, row: Selected, answer: Answer, stats: Stats)
    requires Outstanding(s, row.id) && row == RowOf(s, row.id)
    ensures var (t, after) := SettleOne(s, row, answer, stats);
            && t.orders == s.orders[row.id := Settled(s.orders[row.id], row, answer)]
            && t.cancelledTrips == s.cancelledTrips
            && (LeftAlone(row, answer) ==> t == s)
            && after == Counted(stats, VerdictOf(row, answer))
  {}

  /** A row whose order was settled, or boarded, since the list was read counts for nothing. */
  lemma StaleRowCountsForNothing(s: State, row: Selected, stats: Stats)
    requires row.id < |s.orders| && !Unsettled(s.orders[row.id].status)
    ensures SettleOne(s, row, Answer(true, Done), stats) == (s, stats)
  {}

  ghost function CountOf(rows: seq<Selected>, answers: seq<Answer>, verdict: Verdict): nat
    requires |answers| == |rows|
    decreases |rows|
  {
    if rows == [] then 0
    else (if VerdictOf(rows[0], answers[0]) == verdict then 1 else 0) + CountOf(rows[1..], answers[1..], verdict)
  }

  ghost predicate AllSettled(s: State, t: State, rows: seq<Selected>, answers: seq<Answer>)
    requires |answers| == |rows|
  {
    && |t.orders| == |s.orders|
    && (forall k :: 0 <= k < |rows| ==>
          rows[k].id < |s.orders| && t.orders[rows[k].id] == Settled(s.orders[rows[k].id], rows[k], answers[k]))
    && forall id: nat :: id < |s.orders| && (forall k :: 0 <= k < |rows| ==> rows[k].id != id) ==>
         t.orders[id] == s.orders[id]
  }

  lemma RestStaysCurrent(s: State, t: State, rows: seq<Selected>, order: Order)
    requires rows != [] && Current(s, rows) && rows[0].id < |s.orders|
    requires t.orders == s.orders[rows[0].id := order] && t.cancelledTrips == s.cancelledTrips
    ensures Current(t, rows[1..])
  {
    forall k | 0 <= k < |rows[1..]|
      ensures Outstanding(t, rows[1..][k].id) && rows[1..][k] == RowOf(t, rows[1..][k].id)
    {
      assert rows[1..][k] == rows[k + 1];
    }
  }

  lemma SettledThen(s: State, t: State, u: State, rows: seq<Selected>, answers: seq<Answer>)
    requires rows != [] && |answers| == |rows| && Current(s, rows)
    requires t.orders == s.orders[rows[0].id := Settled(s.orders[rows[0].id], rows[0], answers[0])]
    requires AllSettled(t, u, rows[1..], answers[1..])
    ensures AllSettled(s, u, rows, answers)
  {
    forall k | 0 <= k < |rows|
      ensures u.orders[rows[k].id] == Settled(s.orders[rows[k].id], rows[k], answers[k])
    {
      if k > 0 {
        assert rows[1..][k - 1] == rows[k] && answers[1..][k - 1] == answers[k];
      } else {
        assert forall j :: 0 <= j < |rows[1..]| ==> rows[1..][j].id != rows[0].id;
      }
    }
    forall id: nat | id < |s.orders| && forall k :: 0 <= k < |rows| ==> rows[k].id != id
      ensures u.orders[id] == s.orders[id]
    {
      assert forall j :: 0 <= j < |rows[1..]| ==> rows[1..][j] == rows[j + 1];
      assert rows[0].id != id;
    }
  }

  /** On a list just read, whatever is answered: an unpaid order is cancelled, a paid one refunded only if the
      provider returned its money, one refused or rolled back is left as it was, no other order changes, and
      each row is counted where it belongs. */
  lemma {:induction false} FreshPassDecides(s: State, rows: seq<Selected>, answers: seq<Answer>, stats: Stats)
    requires |answers| == |rows| && Current(s, rows)
    ensures var (t, after) := SettleRows(s, rows, answers, stats);
            && AllSettled(s, t, rows, answers)
            && after.cancelled == stats.cancelled + CountOf(rows, answers, Cancels)
            && after.refunded == stats.refunded + CountOf(rows, answers, Refunds)
            && after.failed == stats.failed + CountOf(rows, answers, Fails)
    decreases |rows|
  {
    if rows != [] {
      var (t, after) := SettleOne(s, rows[0], answers[0], stats);
      assert Outstanding(s, rows[0].id) && rows[0] == RowOf(s, rows[0].id);
      RowDecides(s, rows[0], answers[0], stats);
      RestStaysCurrent(s, t, rows, Settled(s.orders[rows[0].id], rows[0], answers[0]));
      FreshPassDecides(t, rows[1..], answers[1..], after);
      SettledThen(s, t, SettleRows(s, rows, answers, stats).0, rows, answers);
    }
  }

  /** A pass over its own fresh list: an order turns Refunded only if the provider accepted for its row. */
  lemma PassRefundsOnlyAccepted(s: State, limit: nat, answers: seq<Answer>, id: nat)
    requires IntentsOk(s) && |answers| == |Select(s, limit)|
    ensures var t := SettleRows(s, Select(s, limit), answers, Stats(0, 0, 0)).0;
            id < |s.orders| == |t.orders| && !s.orders[id].status.Refunded? && t.orders[id].status.Refunded? ==>
              exists k :: 0 <= k < |answers| && Select(s, limit)[k].id == id && answers[k].accepts
  {
    var rows := Select(s, limit);
    var t := SettleRows(s, rows, answers, Stats(0, 0, 0)).0;
    SelectedAreCurrent(s, 0, limit);
    FreshPassDecides(s, rows, answers, Stats(0, 0, 0));
    if id < |s.orders| && !s.orders[id].status.Refunded? && t.orders[id].status.Refunded? {
      var k :| 0 <= k < |rows| && rows[k].id == id;
      assert Outstanding(s, id) && rows[k] == RowOf(s, id);
      assert t.orders[id] == Settled(s.orders[id], rows[k], answers[k]);
    }
  }

  // ---- the list a pass reads -----------------------------------------------------------------------------

  /** The order is unsettled and one of its items is on a cancelled trip. */
  ghost predicate ToSettle(s: State, id: nat) {
    && id < |s.orders|
    && (var status := s.orders[id].status;
        status.Locked? || status.PendingPayment? || status.Paid? || status.Ticketed?)
    && exists k :: 0 <= k < |s.orders[id].items| && s.orders[id].items[k].claim.row.trip in s.cancelledTrips
  }

  lemma OutstandingIff(s: State, id: nat)
    ensures Outstanding(s, id) <==> ToSettle(s, id)
  {
    if Outstanding(s, id) {
      var item :| item in s.orders[id].items && item.claim.row.trip in s.cancelledTrips;
      var k :| 0 <= k < |s.orders[id].items| && s.orders[id].items[k] == item;
      assert s.orders[id].items[k].claim.row.trip in s.cancelledTrips;
    }
    if ToSettle(s, id) {
      var k :| 0 <= k < |s.orders[id].items| && s.orders[id].items[k].claim.row.trip in s.cancelledTrips;
      assert s.orders[id].items[k] in s.orders[id].items;
    }
  }

  ghost predicate Ascending(rows: seq<Selected>) {
    forall j, k :: 0 <= j < k < |rows| ==> rows[j].id < rows[k].id
  }

  ghost predicate Names(rows: seq<Selected>, id: nat) {
    exists k :: 0 <= k < |rows| && rows[k].id == id
  }

  /** Whatever is not listed comes after a full list. */
  ghost predicate ListsAll(s: State, rows: seq<Selected>, from: nat, limit: nat) {
    forall id: nat :: from <= id && ToSettle(s, id) && !Names(rows, id) ==>
      |rows| == limit && forall k :: 0 <= k < |rows| ==> rows[k].id < id
  }

  ghost predicate ListsOnly(s: State, rows: seq<Selected>, from: nat) {
    forall k :: 0 <= k < |rows| ==> from <= rows[k].id && ToSettle(s, rows[k].id)
  }

  lemma NamesWithHead(row: Selected, rest: seq<Selected>, id: nat)
    ensures Names([row] + rest, id) <==> row.id == id || Names(rest, id)
  {
    if Names(rest, id) {
      var k :| 0 <= k < |rest| && rest[k].id == id;
      assert ([row] + rest)[k + 1].id == id;
    }
    if row.id == id {
      assert ([row] + rest)[0].id == id;
    }
  }

  lemma ListsWithHead(s: State, row: Selected, rest: seq<Selected>, limit: nat)
    requires limit > 0 && |rest| <= limit - 1 && Ascending(rest) && ToSettle(s, row.id)
    requires ListsOnly(s, rest, row.id + 1) && ListsAll(s, rest, row.id + 1, limit - 1)
    ensures Ascending([row] + rest) && ListsOnly(s, [row] + rest, row.id) && ListsAll(s, [row] + rest, row.id, limit)
  {
    forall id: nat | row.id <= id && ToSettle(s, id) && !Names([row] + rest, id)
      ensures |[row] + rest| == limit && forall k :: 0 <= k < |[row] + rest| ==> ([row] + rest)[k].id < id
    {
      NamesWithHead(row, rest, id);
    }
  }

  lemma {:induction false} SelectFromIff(s: State, from: nat, limit: nat)
    requires from <= |s.orders|
    ensures var rows := SelectFrom(s, from, limit);
            |rows| <= limit && Ascending(rows) && ListsOnly(s, rows, from) && ListsAll(s, rows, from, limit)
    decreases |s.orders| - from
  {
    if from < |s.orders| && limit > 0 {
      OutstandingIff(s, from);
      if Outstanding(s, from) {
        SelectFromIff(s, from + 1, limit - 1);
        ListsWithHead(s, RowOf(s, from), SelectFrom(s, from + 1, limit - 1), limit);
      } else {
        SelectFromIff(s, from + 1, limit);
      }
    }
  }

  /** A pass lists, in id order and with their own status, intent and total, the first `limit` unsettled orders
      that have an item on a cancelled trip. */
  lemma SelectIff(s: State, limit: nat)
    ensures var rows := Select(s, limit);
            && |rows| <= limit && Ascending(rows)
            && (forall k :: 0 <= k < |rows| ==>
                  && ToSettle(s, rows[k].id)
                  && var order := s.orders[rows[k].id];
                     rows[k].status == order.status && rows[k].intent == order.intent && rows[k].total == order.total)
            && forall id: nat :: ToSettle(s, id) && !Names(rows, id) ==>
                 |rows| == limit && forall k :: 0 <= k < |rows| ==> rows[k].id < id
  {
    SelectFromIff(s, 0, limit);
    SelectedAreCurrent(s, 0, limit);
  }

  /** What a pass reports as remaining counts exactly these orders. */
  lemma RemainingAre(s: State, id: nat)
    ensures id in OutstandingSet(s) <==> ToSettle(s, id)
  {
    OutstandingIff(s, id);
  }
}
