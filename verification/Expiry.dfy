/** The expiry sweep (crates/lulan-engine/src/orders/mod.rs, expire_due): one list, then one
transaction per order. */
module Expiry {
  import opened Outcomes
  import opened OrderLifecycle
  import opened Booking

  /** The iterations of `expire_due` after its list was read. */
  function ExpireAll(s: State, due: seq<nat>, expired: nat): (State, nat)
    decreases |due|
  {
    if due == [] then (s, expired)
    else
      var (t, outcome) := Expire(s, due[0]);
      ExpireAll(t, due[1..], if outcome.Applied? then expired + 1 else expired)
  }

  predicate Overdue(order: Order, now: int) {
    (order.status.Locked? || order.status.PendingPayment?)
    && order.expiresAt.Some? && order.expiresAt.value < now
  }

  /** Ids in `from..` of the orders a sweep at `now` will try to expire. */
  function DueFrom(orders: seq<Order>, now: int, from: nat): seq<nat>
    requires from <= |orders|
    decreases |orders| - from
  {
    if from == |orders| then []
    else (if Overdue(orders[from], now) then [from] else []) + DueFrom(orders, now, from + 1)
  }

  // ---- an undisturbed sweep expires exactly the overdue orders -------------------------------------------

  ghost predicate StillDue(orders: seq<Order>, due: seq<nat>, now: int) {
    && (forall k :: 0 <= k < |due| ==> due[k] < |orders| && Overdue(orders[due[k]], now))
    && forall j, k :: 0 <= j < k < |due| ==> due[j] < due[k]
  }

  lemma {:induction false} DueHas(orders: seq<Order>, now: int, from: nat, id: nat)
    requires from <= |orders|
    ensures id in DueFrom(orders, now, from) <==> from <= id < |orders| && Overdue(orders[id], now)
    decreases |orders| - from
  {
    if from < |orders| {
      DueHas(orders, now, from + 1, id);
    }
  }

  lemma DueWithHead(orders: seq<Order>, now: int, id: nat, rest: seq<nat>)
    requires id < |orders| && Overdue(orders[id], now) && StillDue(orders, rest, now)
    requires forall k :: 0 <= k < |rest| ==> rest[k] > id
    ensures StillDue(orders, [id] + rest, now)
  {}

  lemma {:induction false} DueIsOverdue(orders: seq<Order>, now: int, from: nat)
    requires from <= |orders|
    ensures StillDue(orders, DueFrom(orders, now, from), now)
    decreases |orders| - from
  {
    if from < |orders| {
      DueIsOverdue(orders, now, from + 1);
      var rest := DueFrom(orders, now, from + 1);
      forall k | 0 <= k < |rest|
        ensures rest[k] > from
      {
        DueHas(orders, now, from + 1, rest[k]);
      }
      if Overdue(orders[from], now) {
        DueWithHead(orders, now, from, rest);
      } else {
        assert DueFrom(orders, now, from) == rest;
      }
    }
  }

  /** An overdue order always expires, and no other order changes. */
  lemma OverdueExpires(s: State, id: nat, now: int)
    requires id < |s.orders| && Overdue(s.orders[id], now)
    ensures Expire(s, id).1 == Applied(Expired)
    ensures Expire(s, id).0.orders == s.orders[id := s.orders[id].(status := Expired)]
  {}

  ghost predicate ExpiredOnly(before: seq<Order>, after: seq<Order>, due: seq<nat>) {
    |after| == |before| && forall i :: 0 <= i < |before| ==>
      after[i] == if i in due then before[i].(status := Expired) else before[i]
  }

  lemma ExpiredThen(before: seq<Order>, next: seq<Order>, after: seq<Order>, due: seq<nat>)
    requires due != [] && due[0] < |before| && due[0] !in due[1..]
    requires next == before[due[0] := before[due[0]].(status := Expired)]
    requires ExpiredOnly(next, after, due[1..])
    ensures ExpiredOnly(before, after, due)
  {
    forall i | 0 <= i < |before|
      ensures after[i] == if i in due then before[i].(status := Expired) else before[i]
    {
      assert i in due <==> i == due[0] || i in due[1..];
    }
  }

  lemma StillDueAfter(orders: seq<Order>, due: seq<nat>, now: int)
    requires due != [] && StillDue(orders, due, now)
    ensures due[0] !in due[1..]
    ensures StillDue(orders[due[0] := orders[due[0]].(status := Expired)], due[1..], now)
  {}

  lemma {:induction false} DueAllExpire(s: State, due: seq<nat>, now: int, expired: nat)
    requires StillDue(s.orders, due, now)
    ensures ExpiredOnly(s.orders, ExpireAll(s, due, expired).0.orders, due)
    ensures ExpireAll(s, due, expired).1 == expired + |due|
    decreases |due|
  {
    if due != [] {
      var t := Expire(s, due[0]).0;
      OverdueExpires(s, due[0], now);
      StillDueAfter(s.orders, due, now);
      DueAllExpire(t, due[1..], now, expired + 1);
      ExpiredThen(s.orders, t.orders, ExpireAll(t, due[1..], expired + 1).0.orders, due);
    }
  }

  lemma {:induction false} NothingDue(orders: seq<Order>, now: int, from: nat)
    requires from <= |orders| && forall i :: 0 <= i < |orders| ==> !Overdue(orders[i], now)
    ensures DueFrom(orders, now, from) == []
    decreases |orders| - from
  {
    if from < |orders| {
      NothingDue(orders, now, from + 1);
    }
  }

  /** Unpaid, and its deadline is over. */
  ghost predicate PastDeadline(order: Order, now: int) {
    (order.status == Locked || order.status == PendingPayment)
    && exists deadline: int :: order.expiresAt == Some(deadline) && deadline < now
  }

  lemma OverdueIsPastDeadline(order: Order, now: int)
    ensures Overdue(order, now) <==> PastDeadline(order, now)
  {}

  /** Whatever has happened to the listed orders since, the sweep counts exactly those it expired: one stored
      event each. */
  lemma {:induction false} CountsWhatExpired(s: State, due: seq<nat>, expired: nat)
    ensures var (t, count) := ExpireAll(s, due, expired);
            && |s.log| <= |t.log| && t.log[..|s.log|] == s.log
            && count - expired == |t.log| - |s.log|
            && forall k :: |s.log| <= k < |t.log| ==> t.log[k].kind.OrderExpired? && t.log[k].stream in due
    decreases |due|
  {
    if due != [] {
      var (t, outcome) := Expire(s, due[0]);
      var next := if outcome.Applied? then expired + 1 else expired;
      ExpireLogs(s, due[0]);
      CountsWhatExpired(t, due[1..], next);
      var u := ExpireAll(t, due[1..], next).0;
      assert u.log[..|s.log|] == u.log[..|t.log|][..|s.log|];
      forall k | |s.log| <= k < |u.log|
        ensures u.log[k].kind.OrderExpired? && u.log[k].stream in due
      {
        assert k < |t.log| ==> u.log[k] == u.log[..|t.log|][k];
      }
    }
  }

  lemma ExpireLogs(s: State, id: nat)
    ensures var (t, outcome) := Expire(s, id);
            && |t.log| == |s.log| + (if outcome.Applied? then 1 else 0) && t.log[..|s.log|] == s.log
            && (outcome.Applied? ==> t.log[|s.log|].kind.OrderExpired? && t.log[|s.log|].stream == id)
  {}

  /** With nothing in between, a sweep turns exactly the unpaid orders past their deadline Expired,
      counts them, and leaves none for the next sweep at the same time. */
  lemma SweepExpiresOverdue(s: State, now: int)
    ensures var (t, expired) := ExpireAll(s, DueFrom(s.orders, now, 0), 0);
            && expired == |DueFrom(s.orders, now, 0)|
            && |t.orders| == |s.orders|
            && (forall i :: 0 <= i < |s.orders| ==>
                  t.orders[i] == if PastDeadline(s.orders[i], now) then s.orders[i].(status := Expired) else s.orders[i])
            && DueFrom(t.orders, now, 0) == []
  {
    var due := DueFrom(s.orders, now, 0);
    DueIsOverdue(s.orders, now, 0);
    forall i | 0 <= i < |s.orders|
      ensures i in due <==> PastDeadline(s.orders[i], now)
    {
      DueHas(s.orders, now, 0, i);
      OverdueIsPastDeadline(s.orders[i], now);
    }
    DueAllExpire(s, due, now, 0);
    var t := ExpireAll(s, due, 0).0;
    NothingDue(t.orders, now, 0);
  }
}
