/** The inventory ledger (crates/lulan-engine/src/inventory/store.rs, the claim primitives).

One row per (trip, seat) holds an occupancy mask; one row per (trip, pool) holds a counter per
segment. The four guarded updates below are the only way either changes. `Used` reads both kinds
of row the same way, so a claim is feasible exactly when it fits under the row's limit on every
segment it covers, and every law here is one statement about sums. */
module Ledger {
  import opened Outcomes
  import opened Segments

  datatype Kind = Seat | Pool

  datatype Row = Row(kind: Kind, trip: nat, unit: nat)

  datatype PoolRow = PoolRow(capacity: int, remaining: seq<int>)

  datatype Occupancy = Occupancy(seats: map<Row, Word>, pools: map<Row, PoolRow>)

  /** What one order item or one direct claim takes. Seats ignore `qty`. */
  datatype Claim = Claim(row: Row, span: Span, qty: int)

  // ---- the guarded updates ---------------------------------------------------------------------

  /** `claim_seat_exec`: None is "0 rows affected". */
  function ClaimSeat(occ: Occupancy, row: Row, span: Span): Option<Occupancy> {
    if row in occ.seats && IsAvailable(span, occ.seats[row]) then
      Some(occ.(seats := occ.seats[row := Or(occ.seats[row], Mask(span))]))
    else None
  }

  /** `release_seat_exec`: guarded on owning every bit. */
  function ReleaseSeat(occ: Occupancy, row: Row, span: Span): Option<Occupancy> {
    if row in occ.seats && And(occ.seats[row], Mask(span)) == Mask(span) then
      Some(occ.(seats := occ.seats[row := AndNot(occ.seats[row], Mask(span))]))
    else None
  }

  /** `remaining[from + 1 : to]`: a slice clips at the end of the array. */
  function Slice(remaining: seq<int>, span: Span): seq<int> {
    if span.from >= |remaining| then []
    else remaining[span.from..if span.to < |remaining| then span.to else |remaining|]
  }

  function Min(s: seq<int>): (m: int)
    requires s != []
    ensures m in s && forall x <- s :: m <= x
  {
    if |s| == 1 then s[0]
    else
      var rest := Min(s[1..]);
      assert s == [s[0]] + s[1..];
      if s[0] < rest then s[0] else rest
  }

  function Max(s: seq<int>): (m: int)
    requires s != []
    ensures m in s && forall x <- s :: x <= m
  {
    if |s| == 1 then s[0]
    else
      var rest := Max(s[1..]);
      assert s == [s[0]] + s[1..];
      if s[0] > rest then s[0] else rest
  }

  function Shift(remaining: seq<int>, span: Span, delta: int): (shifted: seq<int>)
    ensures |shifted| == |remaining|
    ensures forall i :: 0 <= i < |remaining| ==>
              shifted[i] == if Covers(span, i) then remaining[i] + delta else remaining[i]
  {
    seq(|remaining|, i requires 0 <= i < |remaining| =>
      if Covers(span, i) then remaining[i] + delta else remaining[i])
  }

  function ShiftPool(occ: Occupancy, row: Row, span: Span, delta: int): Occupancy
    requires row in occ.pools
  {
    var pool := occ.pools[row];
    occ.(pools := occ.pools[row := pool.(remaining := Shift(pool.remaining, span, delta))])
  }

  /** `claim_pool_exec`: the minimum of an empty slice is NULL, which passes no guard. */
  function ClaimPool(occ: Occupancy, row: Row, span: Span, qty: int): Option<Occupancy> {
    if row in occ.pools
       && Slice(occ.pools[row].remaining, span) != []
       && Min(Slice(occ.pools[row].remaining, span)) >= qty
    then Some(ShiftPool(occ, row, span, -qty))
    else None
  }

  /** `release_pool_exec`: guarded on not exceeding the unit's capacity. */
  function ReleasePool(occ: Occupancy, row: Row, span: Span, qty: int): Option<Occupancy> {
    if row in occ.pools
       && Slice(occ.pools[row].remaining, span) != []
       && Max(Slice(occ.pools[row].remaining, span)) + qty <= occ.pools[row].capacity
    then Some(ShiftPool(occ, row, span, qty))
    else None
  }

  /** One item of the claim loop; both callers refuse a non-positive pool quantity up front. */
  function TryClaim(occ: Occupancy, c: Claim): Option<Occupancy> {
    if c.row.kind.Seat? then ClaimSeat(occ, c.row, c.span)
    else if c.qty <= 0 then None
    else ClaimPool(occ, c.row, c.span, c.qty)
  }

  function TryRelease(occ: Occupancy, c: Claim): Option<Occupancy> {
    if c.row.kind.Seat? then ReleaseSeat(occ, c.row, c.span)
    else ReleasePool(occ, c.row, c.span, c.qty)
  }

  /** The claim loop: stops at the first conflict, whose index it reports. */
  function ClaimAll(occ: Occupancy, claims: seq<Claim>): Result<Occupancy, nat>
    decreases |claims|
  {
    if claims == [] then Ok(occ)
    else match TryClaim(occ, claims[0])
         case None => Err(0)
         case Some(next) =>
           match ClaimAll(next, claims[1..])
           case Ok(done) => Ok(done)
           case Err(index) => Err(index + 1)
  }

  /** What the release loop leaves, and how many of its guarded updates changed no row. */
  datatype Released = Released(occ: Occupancy, failures: nat)

  function ReleaseAll(occ: Occupancy, claims: seq<Claim>): Released
    decreases |claims|
  {
    if claims == [] then Released(occ, 0)
    else match TryRelease(occ, claims[0])
         case Some(next) => ReleaseAll(next, claims[1..])
         case None =>
           var rest := ReleaseAll(occ, claims[1..]);
           rest.(failures := rest.failures + 1)
  }

  // ---- one reading of both kinds of row --------------------------------------------------------

  /** How many segments the row has; 0 when there is no such row. */
  function Width(occ: Occupancy, row: Row): nat {
    if row.kind.Seat? then if row in occ.seats then 64 else 0
    else if row in occ.pools then |occ.pools[row].remaining| else 0
  }

  function Limit(occ: Occupancy, row: Row): int {
    if row.kind.Seat? then 1
    else if row in occ.pools then occ.pools[row].capacity else 0
  }

  /** How much of segment `i` is taken. */
  function Used(occ: Occupancy, row: Row, i: nat): int
    requires i < Width(occ, row)
  {
    if row.kind.Seat? then if Bit(occ.seats[row], i) then 1 else 0
    else occ.pools[row].capacity - occ.pools[row].remaining[i]
  }

  function Weight(c: Claim): int {
    if c.row.kind.Seat? then 1 else c.qty
  }

  /** What claim `c` takes of segment `i` of `row`. */
  function Share(c: Claim, row: Row, i: nat): int {
    if c.row == row && Covers(c.span, i) then Weight(c) else 0
  }

  function Load(claims: seq<Claim>, row: Row, i: nat): int {
    if claims == [] then 0 else Share(claims[0], row, i) + Load(claims[1..], row, i)
  }

  /** The row exists, the span starts on it and the quantity is positive. */
  predicate Claimable(occ: Occupancy, c: Claim) {
    c.span.from < Width(occ, c.row) && Weight(c) > 0
  }

  ghost predicate AllClaimable(occ: Occupancy, claims: seq<Claim>) {
    forall c <- claims :: Claimable(occ, c)
  }

  ghost predicate Fits(occ: Occupancy, c: Claim) {
    && Claimable(occ, c)
    && forall i: nat :: i < Width(occ, c.row) && Covers(c.span, i) ==>
         Used(occ, c.row, i) + Weight(c) <= Limit(occ, c.row)
  }

  ghost predicate Held(occ: Occupancy, c: Claim) {
    forall i: nat :: i < Width(occ, c.row) && Covers(c.span, i) ==> Used(occ, c.row, i) >= Weight(c)
  }

  /** Same rows, capacities and segment counts. */
  ghost predicate SameShape(a: Occupancy, b: Occupancy) {
    && a.seats.Keys == b.seats.Keys
    && a.pools.Keys == b.pools.Keys
    && forall row <- a.pools ::
         a.pools[row].capacity == b.pools[row].capacity
         && |a.pools[row].remaining| == |b.pools[row].remaining|
  }

  /** `b` is `a` with `sign` times claim `c` added. */
  ghost predicate Moved(a: Occupancy, b: Occupancy, c: Claim, sign: int) {
    && SameShape(a, b)
    && forall row, i: nat :: i < Width(a, row) ==>
         Used(b, row, i) == Used(a, row, i) + sign * Share(c, row, i)
  }

  // ---- single claims -----------------------------------------------------------------------------

  lemma SeatClaim(occ: Occupancy, c: Claim)
    requires c.row.kind.Seat?
    ensures TryClaim(occ, c).Some? <==> Fits(occ, c)
    ensures TryClaim(occ, c).Some? ==> Moved(occ, TryClaim(occ, c).value, c, 1)
  {
    if c.row in occ.seats {
      var m := occ.seats[c.row];
      AvailableSpan(c.span, m);
      if TryClaim(occ, c).Some? {
        var next := TryClaim(occ, c).value;
        forall row, i: nat | i < Width(occ, row)
          ensures Used(next, row, i) == Used(occ, row, i) + Share(c, row, i)
        {
          if row == c.row {
            ClaimedAt(c.span, m, i);
          }
        }
      } else {
        var i: nat :| i < 64 && Covers(c.span, i) && Bit(m, i);
        assert Used(occ, c.row, i) == 1;
      }
    }
  }

  lemma SeatRelease(occ: Occupancy, c: Claim)
    requires c.row.kind.Seat?
    ensures TryRelease(occ, c).Some? <==> Claimable(occ, c) && Held(occ, c)
    ensures TryRelease(occ, c).Some? ==> Moved(occ, TryRelease(occ, c).value, c, -1)
  {
    if c.row in occ.seats {
      var m := occ.seats[c.row];
      OccupiedSpan(c.span, m);
      if TryRelease(occ, c).Some? {
        var next := TryRelease(occ, c).value;
        forall row, i: nat | i < Width(occ, row)
          ensures Used(next, row, i) == Used(occ, row, i) - Share(c, row, i)
        {
          if row == c.row {
            ClaimedAt(c.span, m, i);
          }
        }
      } else {
        var i: nat :| i < 64 && Covers(c.span, i) && !Bit(m, i);
        assert Used(occ, c.row, i) == 0;
      }
    }
  }

  lemma SliceAt(remaining: seq<int>, span: Span)
    ensures Slice(remaining, span) != [] <==> span.from < |remaining|
    ensures forall i: nat :: i < |remaining| && Covers(span, i) ==> remaining[i] in Slice(remaining, span)
    ensures forall x <- Slice(remaining, span) ::
              exists i: nat :: i < |remaining| && Covers(span, i) && remaining[i] == x
  {
    var s := Slice(remaining, span);
    forall i: nat | i < |remaining| && Covers(span, i)
      ensures remaining[i] in s
    {
      assert s[i - span.from] == remaining[i];
    }
    forall x | x in s
      ensures exists i: nat :: i < |remaining| && Covers(span, i) && remaining[i] == x
    {
      var k :| 0 <= k < |s| && s[k] == x;
      assert Covers(span, span.from + k) && remaining[span.from + k] == x;
    }
  }

  ghost predicate RoomFor(pool: PoolRow, span: Span, qty: int) {
    forall i: nat :: i < |pool.remaining| && Covers(span, i) ==> pool.remaining[i] >= qty
  }

  ghost predicate RoomBack(pool: PoolRow, span: Span, qty: int) {
    forall i: nat :: i < |pool.remaining| && Covers(span, i) ==> pool.remaining[i] + qty <= pool.capacity
  }

  /** What the guard on a slice's minimum says segment by segment. */
  lemma MinGuard(pool: PoolRow, span: Span, qty: int)
    requires Slice(pool.remaining, span) != []
    ensures Min(Slice(pool.remaining, span)) >= qty <==> RoomFor(pool, span, qty)
  {
    SliceAt(pool.remaining, span);
  }

  lemma MaxGuard(pool: PoolRow, span: Span, qty: int)
    requires Slice(pool.remaining, span) != []
    ensures Max(Slice(pool.remaining, span)) + qty <= pool.capacity <==> RoomBack(pool, span, qty)
  {
    SliceAt(pool.remaining, span);
  }

  lemma FitsIsRoom(occ: Occupancy, c: Claim)
    requires c.row.kind.Pool? && c.row in occ.pools && c.qty > 0
    ensures Fits(occ, c) <==> c.span.from < |occ.pools[c.row].remaining| && RoomFor(occ.pools[c.row], c.span, c.qty)
  {
    var pool := occ.pools[c.row];
    forall i: nat | i < |pool.remaining|
      ensures Used(occ, c.row, i) + c.qty <= pool.capacity <==> pool.remaining[i] >= c.qty
    {}
  }

  lemma HeldIsRoomBack(occ: Occupancy, c: Claim)
    requires c.row.kind.Pool? && c.row in occ.pools && c.qty > 0
    ensures Held(occ, c) <==> RoomBack(occ.pools[c.row], c.span, c.qty)
  {
    var pool := occ.pools[c.row];
    forall i: nat | i < |pool.remaining|
      ensures Used(occ, c.row, i) >= c.qty <==> pool.remaining[i] + c.qty <= pool.capacity
    {}
  }

  lemma PoolShifted(occ: Occupancy, c: Claim, sign: int)
    requires c.row.kind.Pool? && c.row in occ.pools && (sign == 1 || sign == -1)
    ensures Moved(occ, ShiftPool(occ, c.row, c.span, -sign * c.qty), c, sign)
  {}

  lemma PoolFitsIff(occ: Occupancy, c: Claim)
    requires c.row.kind.Pool? && c.row in occ.pools && c.qty > 0
    ensures TryClaim(occ, c).Some? <==> Fits(occ, c)
  {
    var pool := occ.pools[c.row];
    FitsIsRoom(occ, c);
    if Slice(pool.remaining, c.span) != [] {
      MinGuard(pool, c.span, c.qty);
    }
  }

  lemma PoolHeldIff(occ: Occupancy, c: Claim)
    requires c.row.kind.Pool? && c.row in occ.pools && c.qty > 0
    ensures TryRelease(occ, c).Some? <==> Claimable(occ, c) && Held(occ, c)
  {
    var pool := occ.pools[c.row];
    HeldIsRoomBack(occ, c);
    if Slice(pool.remaining, c.span) != [] {
      MaxGuard(pool, c.span, c.qty);
    }
  }

  lemma PoolMisses(occ: Occupancy, c: Claim)
    requires c.row.kind.Pool? && (c.row !in occ.pools || c.qty <= 0)
    ensures TryClaim(occ, c).None? && !Fits(occ, c)
  {}

  lemma PoolClaim(occ: Occupancy, c: Claim)
    requires c.row.kind.Pool?
    ensures TryClaim(occ, c).Some? <==> Fits(occ, c)
    ensures TryClaim(occ, c).Some? ==> Moved(occ, TryClaim(occ, c).value, c, 1)
  {
    if c.row in occ.pools && c.qty > 0 {
      PoolFitsIff(occ, c);
      PoolShifted(occ, c, 1);
    } else {
      PoolMisses(occ, c);
    }
  }

  /** A claim wins exactly when it fits on every segment it covers, and then adds exactly itself. */
  lemma ClaimWinsIff(occ: Occupancy, c: Claim)
    ensures TryClaim(occ, c).Some? <==> Fits(occ, c)
    ensures TryClaim(occ, c).Some? ==> Moved(occ, TryClaim(occ, c).value, c, 1)
  {
    if c.row.kind.Seat? {
      SeatClaim(occ, c);
    } else {
      PoolClaim(occ, c);
    }
  }

  /** A release wins exactly when its weight is taken on every segment it covers. */
  lemma ReleaseWinsIff(occ: Occupancy, c: Claim)
    requires Weight(c) > 0
    ensures TryRelease(occ, c).Some? <==> Claimable(occ, c) && Held(occ, c)
    ensures TryRelease(occ, c).Some? ==> Moved(occ, TryRelease(occ, c).value, c, -1)
  {
    if c.row.kind.Seat? {
      SeatRelease(occ, c);
    } else if c.row in occ.pools {
      PoolHeldIff(occ, c);
      PoolShifted(occ, c, -1);
    }
  }

  // ---- sums of claims ----------------------------------------------------------------------------

  lemma {:induction false} LoadConcat(a: seq<Claim>, b: seq<Claim>, row: Row, i: nat)
    ensures Load(a + b, row, i) == Load(a, row, i) + Load(b, row, i)
  {
    if a == [] {
      assert a + b == b;
    } else {
      assert (a + b)[1..] == a[1..] + b;
      LoadConcat(a[1..], b, row, i);
    }
  }

  lemma {:induction false} LoadWithout(claims: seq<Claim>, k: nat, row: Row, i: nat)
    requires k < |claims|
    ensures Load(claims, row, i) == Share(claims[k], row, i) + Load(claims[..k] + claims[k + 1..], row, i)
  {
    assert claims == claims[..k] + ([claims[k]] + claims[k + 1..]);
    LoadConcat(claims[..k], [claims[k]] + claims[k + 1..], row, i);
    LoadConcat(claims[..k], claims[k + 1..], row, i);
    assert ([claims[k]] + claims[k + 1..])[1..] == claims[k + 1..];
  }

  lemma RemoveOne(s: seq<Claim>, k: nat)
    requires k < |s|
    ensures multiset(s[..k] + s[k + 1..]) == multiset(s) - multiset{s[k]}
  {
    assert s == s[..k] + [s[k]] + s[k + 1..];
  }

  lemma Find(claims: seq<Claim>, c: Claim) returns (k: nat)
    requires c in multiset(claims)
    ensures k < |claims| && claims[k] == c
  {
    assert c in claims;
    k :| 0 <= k < |claims| && claims[k] == c;
  }

  lemma WithoutFirst(s: seq<Claim>)
    requires s != []
    ensures multiset(s[1..]) == multiset(s) - multiset{s[0]} && s[0] in multiset(s)
  {
    RemoveOne(s, 0);
    assert s[..0] + s[1..] == s[1..];
  }

  /** Taking the first claim out of both of two permutations leaves permutations. */
  lemma MatchFirst(a: seq<Claim>, b: seq<Claim>) returns (k: nat)
    requires a != [] && multiset(a) == multiset(b)
    ensures k < |b| && b[k] == a[0]
    ensures multiset(a[1..]) == multiset(b[..k] + b[k + 1..])
  {
    WithoutFirst(a);
    k := Find(b, a[0]);
    RemoveOne(b, k);
  }

  lemma {:induction false} LoadOfPermutation(a: seq<Claim>, b: seq<Claim>, row: Row, i: nat)
    requires multiset(a) == multiset(b)
    ensures Load(a, row, i) == Load(b, row, i)
    decreases |a|
  {
    if a == [] {
      assert |multiset(b)| == 0;
    } else {
      var k := MatchFirst(a, b);
      LoadWithout(b, k, row, i);
      LoadOfPermutation(a[1..], b[..k] + b[k + 1..], row, i);
    }
  }

  ghost predicate Positive(claims: seq<Claim>) {
    forall c <- claims :: Weight(c) > 0
  }

  lemma TailClaimable(occ: Occupancy, claims: seq<Claim>)
    requires claims != [] && AllClaimable(occ, claims)
    ensures Claimable(occ, claims[0]) && AllClaimable(occ, claims[1..])
    ensures Positive(claims) && Positive(claims[1..])
  {
    forall c | c in claims[1..]
      ensures c in claims
    {}
  }

  lemma {:induction false} LoadNonNegative(claims: seq<Claim>, row: Row, i: nat)
    requires Positive(claims)
    ensures Load(claims, row, i) >= 0
  {
    if claims != [] {
      LoadNonNegative(claims[1..], row, i);
    }
  }

  /** On a seat, a load of at most one on every segment means no two claims share a segment. */
  lemma SeatLoadIsDisjointness(claims: seq<Claim>, j: nat, k: nat)
    requires j < k < |claims|
    requires claims[j].row == claims[k].row && claims[j].row.kind.Seat?
    requires Positive(claims)
    requires forall i: nat :: i < 64 ==> Load(claims, claims[j].row, i) <= 1
    ensures !IntervalsOverlap(claims[j].span, claims[k].span)
  {
    var a, b := claims[j].span, claims[k].span;
    if IntervalsOverlap(a, b) {
      var i: nat := if a.from < b.from then b.from else a.from;
      var row := claims[j].row;
      var others := claims[..k] + claims[k + 1..];
      LoadWithout(claims, k, row, i);
      LoadWithout(others, j, row, i);
      assert others[j] == claims[j];
      LoadNonNegative(others[..j] + others[j + 1..], row, i);
    }
  }

  // ---- the claim and release loops -----------------------------------------------------------------

  /** `b` is `a` with `sign` times all of `claims` added. */
  ghost predicate MovedAll(a: Occupancy, b: Occupancy, claims: seq<Claim>, sign: int) {
    && SameShape(a, b)
    && forall row, i: nat :: i < Width(a, row) ==>
         Used(b, row, i) == Used(a, row, i) + sign * Load(claims, row, i)
  }

  /** Every claim stands on an existing row and, wherever the claims together take anything, what
      they take fits under the limit. No order is involved. */
  ghost predicate JointlyFits(occ: Occupancy, claims: seq<Claim>) {
    && AllClaimable(occ, claims)
    && forall row, i: nat :: i < Width(occ, row) && Load(claims, row, i) > 0 ==>
         Used(occ, row, i) + Load(claims, row, i) <= Limit(occ, row)
  }

  lemma SameShapeAgrees(a: Occupancy, b: Occupancy, row: Row)
    requires SameShape(a, b)
    ensures Width(a, row) == Width(b, row) && Limit(a, row) == Limit(b, row)
  {
    if row.kind.Pool? {
      assert row in a.pools <==> row in b.pools;
    } else {
      assert row in a.seats <==> row in b.seats;
    }
  }

  lemma FirstFits(occ: Occupancy, claims: seq<Claim>)
    requires claims != [] && JointlyFits(occ, claims)
    ensures Fits(occ, claims[0])
  {
    var c := claims[0];
    TailClaimable(occ, claims);
    forall i: nat | i < Width(occ, c.row) && Covers(c.span, i)
      ensures Used(occ, c.row, i) + Weight(c) <= Limit(occ, c.row)
    {
      LoadNonNegative(claims[1..], c.row, i);
    }
  }

  lemma RestFitsIff(occ: Occupancy, next: Occupancy, claims: seq<Claim>)
    requires claims != [] && Fits(occ, claims[0]) && Moved(occ, next, claims[0], 1)
    ensures JointlyFits(next, claims[1..]) <==> JointlyFits(occ, claims)
  {
    forall row
      ensures Width(next, row) == Width(occ, row) && Limit(next, row) == Limit(occ, row)
    {
      SameShapeAgrees(occ, next, row);
    }
    if JointlyFits(next, claims[1..]) {
      assert forall c <- claims :: c == claims[0] || c in claims[1..];
      TailClaimable(occ, claims);
      forall row, i: nat | i < Width(occ, row) && Load(claims, row, i) > 0
        ensures Used(occ, row, i) + Load(claims, row, i) <= Limit(occ, row)
      {
        LoadNonNegative(claims[1..], row, i);
      }
    }
    if JointlyFits(occ, claims) {
      TailClaimable(occ, claims);
      forall row, i: nat | i < Width(next, row) && Load(claims[1..], row, i) > 0
        ensures Used(next, row, i) + Load(claims[1..], row, i) <= Limit(next, row)
      {}
    }
  }

  /** The claim loop succeeds exactly when the claims are jointly feasible, and then the ledger has
      gained exactly their sum. */
  lemma {:induction false} ClaimAllWinsIff(occ: Occupancy, claims: seq<Claim>)
    ensures ClaimAll(occ, claims).Ok? <==> JointlyFits(occ, claims)
    ensures ClaimAll(occ, claims).Ok? ==> MovedAll(occ, ClaimAll(occ, claims).value, claims, 1)
    decreases |claims|
  {
    if claims != [] {
      ClaimWinsIff(occ, claims[0]);
      if Fits(occ, claims[0]) {
        var next := TryClaim(occ, claims[0]).value;
        ClaimAllWinsIff(next, claims[1..]);
        RestFitsIff(occ, next, claims);
        if ClaimAll(occ, claims).Ok? {
          MovedThenAll(occ, next, ClaimAll(occ, claims).value, claims, 1);
        }
      } else if JointlyFits(occ, claims) {
        FirstFits(occ, claims);
      }
    }
  }

  lemma MovedThenAll(a: Occupancy, b: Occupancy, c: Occupancy, claims: seq<Claim>, sign: int)
    requires claims != [] && Moved(a, b, claims[0], sign) && MovedAll(b, c, claims[1..], sign)
    requires sign == 1 || sign == -1
    ensures MovedAll(a, c, claims, sign)
  {
    forall row, i: nat | i < Width(a, row)
      ensures i < Width(c, row) && Used(c, row, i) == Used(a, row, i) + sign * Load(claims, row, i)
    {
      SameShapeAgrees(a, b, row);
      SameShapeAgrees(b, c, row);
      assert sign * Share(claims[0], row, i) + sign * Load(claims[1..], row, i) == sign * Load(claims, row, i);
    }
  }

  /** What is taken on every segment determines the ledger. */
  lemma UsedDetermines(a: Occupancy, b: Occupancy)
    requires MovedAll(a, b, [], 1)
    requires forall row <- a.seats :: row.kind.Seat?
    requires forall row <- a.pools :: row.kind.Pool?
    ensures a == b
  {
    forall row | row in a.seats
      ensures a.seats[row] == b.seats[row]
    {
      forall i: nat | i < 64
        ensures Bit(a.seats[row], i) <==> Bit(b.seats[row], i)
      {
        assert Used(b, row, i) == Used(a, row, i) + Load([], row, i);
      }
      BitsDetermineMask(a.seats[row], b.seats[row]);
    }
    forall row | row in a.pools
      ensures a.pools[row] == b.pools[row]
    {
      forall i: nat | i < |a.pools[row].remaining|
        ensures a.pools[row].remaining[i] == b.pools[row].remaining[i]
      {
        assert Used(b, row, i) == Used(a, row, i) + Load([], row, i);
      }
      assert a.pools[row].remaining == b.pools[row].remaining;
    }
  }

  /** Seats and pools live in their own tables. */
  ghost predicate Tabled(occ: Occupancy) {
    && (forall row <- occ.seats :: row.kind.Seat?)
    && (forall row <- occ.pools :: row.kind.Pool?)
  }

  lemma PermutedFits(occ: Occupancy, a: seq<Claim>, b: seq<Claim>)
    requires multiset(a) == multiset(b) && JointlyFits(occ, a)
    ensures JointlyFits(occ, b)
  {
    forall c | c in b
      ensures Claimable(occ, c)
    {
      assert c in multiset(b);
      assert c in a;
    }
    forall row, i: nat | i < Width(occ, row) && Load(b, row, i) > 0
      ensures Used(occ, row, i) + Load(b, row, i) <= Limit(occ, row)
    {
      LoadOfPermutation(a, b, row, i);
    }
  }

  /** Neither the verdict nor the resulting ledger depends on the order of the items. */
  lemma ClaimOrderIrrelevant(occ: Occupancy, a: seq<Claim>, b: seq<Claim>)
    requires multiset(a) == multiset(b) && Tabled(occ)
    ensures ClaimAll(occ, a).Ok? <==> ClaimAll(occ, b).Ok?
    ensures ClaimAll(occ, a).Ok? ==> ClaimAll(occ, a).value == ClaimAll(occ, b).value
  {
    ClaimAllWinsIff(occ, a);
    ClaimAllWinsIff(occ, b);
    if JointlyFits(occ, a) { PermutedFits(occ, a, b); }
    if JointlyFits(occ, b) { PermutedFits(occ, b, a); }
    if ClaimAll(occ, a).Ok? {
      var x, y := ClaimAll(occ, a).value, ClaimAll(occ, b).value;
      forall row, i: nat | i < Width(x, row)
        ensures i < Width(y, row) && Used(y, row, i) == Used(x, row, i) + 1 * Load([], row, i)
      {
        LoadOfPermutation(a, b, row, i);
        SameShapeAgrees(occ, x, row);
        SameShapeAgrees(occ, y, row);
      }
      UsedDetermines(x, y);
    }
  }

  ghost predicate HeldAll(occ: Occupancy, claims: seq<Claim>) {
    forall row, i: nat :: i < Width(occ, row) ==> Used(occ, row, i) >= Load(claims, row, i)
  }

  /** As long as the ledger carries the sum of the claims, every single release wins, whatever
      else is claimed on the same rows, and exactly the sum is given back. */
  lemma {:induction false} ReleaseAllWins(occ: Occupancy, claims: seq<Claim>)
    requires AllClaimable(occ, claims) && HeldAll(occ, claims)
    ensures ReleaseAll(occ, claims).failures == 0
    ensures MovedAll(occ, ReleaseAll(occ, claims).occ, claims, -1)
    decreases |claims|
  {
    if claims != [] {
      var c := claims[0];
      TailClaimable(occ, claims);
      forall i: nat | i < Width(occ, c.row) && Covers(c.span, i)
        ensures Used(occ, c.row, i) >= Weight(c)
      {
        LoadNonNegative(claims[1..], c.row, i);
      }
      ReleaseWinsIff(occ, c);
      var next := TryRelease(occ, c).value;
      forall row
        ensures Width(next, row) == Width(occ, row)
      {
        SameShapeAgrees(occ, next, row);
      }
      ReleaseAllWins(next, claims[1..]);
      MovedThenAll(occ, next, ReleaseAll(occ, claims).occ, claims, -1);
    }
  }

  /** One more release at the end of the loop: it counts as failed exactly when its guard refuses, and then
      leaves the ledger as it was. */
  lemma {:induction false} ReleaseAllThenOne(occ: Occupancy, claims: seq<Claim>, c: Claim)
    ensures var before, after := ReleaseAll(occ, claims), ReleaseAll(occ, claims + [c]);
            var last := TryRelease(before.occ, c);
            after == if last.Some? then Released(last.value, before.failures) else Released(before.occ, before.failures + 1)
    decreases |claims|
  {
    if claims == [] {
      assert [] + [c] == [c] && [c][1..] == [];
    } else {
      assert (claims + [c])[1..] == claims[1..] + [c];
      var first := TryRelease(occ, claims[0]);
      ReleaseAllThenOne(if first.Some? then first.value else occ, claims[1..], c);
    }
  }

  /** Used is what the listed claims take, on every segment, and never more than the limit. */
  ghost predicate Conserved(occ: Occupancy, claims: seq<Claim>) {
    && AllClaimable(occ, claims)
    && forall row, i: nat :: i < Width(occ, row) ==>
         0 <= Used(occ, row, i) == Load(claims, row, i) <= Limit(occ, row)
  }

  /** Releasing, in any order, what was just claimed restores the ledger bit for bit. */
  lemma ReleaseUndoesClaim(occ: Occupancy, claims: seq<Claim>, order: seq<Claim>)
    requires Tabled(occ) && ClaimAll(occ, claims).Ok? && multiset(order) == multiset(claims)
    requires forall row, i: nat :: i < Width(occ, row) ==> Used(occ, row, i) >= 0
    ensures ReleaseAll(ClaimAll(occ, claims).value, order) == Released(occ, 0)
  {
    ClaimAllWinsIff(occ, claims);
    var taken := ClaimAll(occ, claims).value;
    forall row
      ensures Width(taken, row) == Width(occ, row)
    {
      SameShapeAgrees(occ, taken, row);
    }
    forall row, i: nat
      ensures Load(order, row, i) == Load(claims, row, i)
    {
      LoadOfPermutation(order, claims, row, i);
    }
    forall c | c in order
      ensures Claimable(taken, c)
    {
      assert c in multiset(order);
      assert c in claims;
    }
    ReleaseAllWins(taken, order);
    var after := ReleaseAll(taken, order).occ;
    forall row, i: nat | i < Width(occ, row)
      ensures i < Width(after, row) && Used(after, row, i) == Used(occ, row, i) + 1 * Load([], row, i)
    {
      SameShapeAgrees(taken, after, row);
    }
    UsedDetermines(occ, after);
  }
}
