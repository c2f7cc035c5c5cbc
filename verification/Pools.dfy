/** Count-based pool occupancy (crates/lulan-engine/src/domain/pool.rs): the in-memory form that the
SQL updates of the ledger must agree with. */
module Pools {
  import opened Outcomes
  import opened Segments
  import opened Ledger

  datatype PoolError =
    | SpanOutOfRange(spanTo: u8, segments: u8)
    | Insufficient(requested: int, available: int)
    | ReleaseExceedsCapacity(requested: int, limit: int)
    | NonPositiveQuantity(qty: int)

  /** `remaining.len() as u8`. */
  function SegmentCount(pool: PoolRow): u8 {
    |pool.remaining| % 256
  }

  function Available(pool: PoolRow, span: Span): Result<int, PoolError> {
    if span.to > SegmentCount(pool) then Err(SpanOutOfRange(span.to, SegmentCount(pool)))
    else Ok(Min(pool.remaining[span.from..span.to]))
  }

  function Reserved(pool: PoolRow, span: Span, qty: int): Result<PoolRow, PoolError> {
    if qty <= 0 then Err(NonPositiveQuantity(qty))
    else match Available(pool, span)
         case Err(e) => Err(e)
         case Ok(available) =>
           if available < qty then Err(Insufficient(qty, available))
           else Ok(pool.(remaining := Shift(pool.remaining, span, -qty)))
  }

  function Returned(pool: PoolRow, span: Span, qty: int): Result<PoolRow, PoolError> {
    if qty <= 0 then Err(NonPositiveQuantity(qty))
    else if span.to > SegmentCount(pool) then Err(SpanOutOfRange(span.to, SegmentCount(pool)))
    else if exists r <- pool.remaining[span.from..span.to] :: r + qty > pool.capacity then
      Err(ReleaseExceedsCapacity(qty, pool.capacity))
    else Ok(pool.(remaining := Shift(pool.remaining, span, qty)))
  }

  /** `PoolOccupancy`, updated in place. */
  class PoolOccupancy {
    const capacity: int
    const remaining: array<int>

    ghost function View(): PoolRow
      reads remaining
    {
      PoolRow(capacity, remaining[..])
    }

    constructor (capacity: int, segments: u8)
      ensures fresh(remaining)
      ensures View() == PoolRow(if capacity > 0 then capacity else 0,
                                seq(segments, i => if capacity > 0 then capacity else 0))
    {
      var full := if capacity > 0 then capacity else 0;
      this.capacity := full;
      this.remaining := new int[segments](i => full);
    }

    method RemainingFor(span: Span) returns (available: Result<int, PoolError>)
      ensures available == Available(View(), span)
    {
      if span.to > remaining.Length % 256 {
        return Err(SpanOutOfRange(span.to, remaining.Length % 256));
      }
      available := Ok(Min(remaining[span.from..span.to]));
    }

    method Reserve(span: Span, qty: int) returns (error: Option<PoolError>)
      modifies remaining
      ensures match Reserved(old(View()), span, qty)
              case Ok(pool) => error == None && View() == pool
              case Err(e) => error == Some(e) && View() == old(View())
    {
      if qty <= 0 {
        return Some(NonPositiveQuantity(qty));
      }
      var available := RemainingFor(span);
      if available.Err? {
        return Some(available.error);
      }
      if available.value < qty {
        return Some(Insufficient(qty, available.value));
      }
      AddAcross(span, -qty);
      error := None;
    }

    method Release(span: Span, qty: int) returns (error: Option<PoolError>)
      modifies remaining
      ensures match Returned(old(View()), span, qty)
              case Ok(pool) => error == None && View() == pool
              case Err(e) => error == Some(e) && View() == old(View())
    {
      if qty <= 0 {
        return Some(NonPositiveQuantity(qty));
      }
      if span.to > remaining.Length % 256 {
        return Some(SpanOutOfRange(span.to, remaining.Length % 256));
      }
      ghost var slice := remaining[span.from..span.to];
      for i := span.from to span.to
        invariant forall j :: span.from <= j < i ==> remaining[j] + qty <= capacity
      {
        assert remaining[i] == slice[i - span.from] && remaining[i] in slice;
        if remaining[i] + qty > capacity {
          return Some(ReleaseExceedsCapacity(qty, capacity));
        }
      }
      assert forall k :: 0 <= k < |slice| ==> slice[k] == remaining[span.from + k];
      AddAcross(span, qty);
      error := None;
    }

    /** The update loop of both. */
    method AddAcross(span: Span, delta: int)
      requires span.to <= remaining.Length
      modifies remaining
      ensures remaining[..] == Shift(old(remaining[..]), span, delta)
    {
      for i := span.from to span.to
        invariant forall j :: 0 <= j < remaining.Length ==>
                    remaining[j] == old(remaining[j]) + (if span.from <= j < i then delta else 0)
      {
        remaining[i] := remaining[i] + delta;
      }
    }
  }

  // ---- what reserving and releasing mean -----------------------------------------------------------

  lemma InSlice(pool: PoolRow, span: Span)
    requires span.to <= |pool.remaining|
    ensures forall i: nat :: Covers(span, i) ==> pool.remaining[i] in pool.remaining[span.from..span.to]
    ensures forall r <- pool.remaining[span.from..span.to] ::
              exists i: nat :: Covers(span, i) && pool.remaining[i] == r
  {
    assert Slice(pool.remaining, span) == pool.remaining[span.from..span.to];
    SliceAt(pool.remaining, span);
  }

  /** Reserving succeeds exactly when every covered segment has room, and takes from those only. */
  lemma ReserveWinsIff(pool: PoolRow, span: Span, qty: int)
    ensures Reserved(pool, span, qty).Ok? <==>
            && qty > 0 && span.to <= SegmentCount(pool)
            && forall i: nat :: Covers(span, i) ==> pool.remaining[i] >= qty
    ensures Reserved(pool, span, qty).Ok? ==>
              Reserved(pool, span, qty).value == pool.(remaining := Shift(pool.remaining, span, -qty))
  {
    if qty > 0 && span.to <= SegmentCount(pool) {
      InSlice(pool, span);
    }
  }

  /** The refusals of a reservation: a quantity that is not positive, a span past the end, and too little left,
      with what is left on the tightest segment. */
  lemma ReserveRefusals(pool: PoolRow, span: Span, qty: int)
    ensures Reserved(pool, span, qty) == Err(NonPositiveQuantity(qty)) <==> qty <= 0
    ensures Reserved(pool, span, qty) == Err(SpanOutOfRange(span.to, SegmentCount(pool))) <==>
            qty > 0 && span.to > SegmentCount(pool)
    ensures forall left :: Reserved(pool, span, qty) == Err(Insufficient(qty, left)) <==>
              && qty > 0 && span.to <= SegmentCount(pool) && left < qty
              && (exists i: nat :: Covers(span, i) && i < |pool.remaining| && pool.remaining[i] == left)
              && forall i: nat :: Covers(span, i) && i < |pool.remaining| ==> left <= pool.remaining[i]
  {
    if qty > 0 && span.to <= SegmentCount(pool) {
      InSlice(pool, span);
      var least := Min(pool.remaining[span.from..span.to]);
      var k: nat :| Covers(span, k) && pool.remaining[k] == least;
    }
  }

  /** Releasing succeeds exactly when the quantity is positive, the span fits and no covered segment would
      exceed the capacity; the refusals are told apart in that order. */
  lemma ReturnWinsIff(pool: PoolRow, span: Span, qty: int)
    ensures Returned(pool, span, qty).Ok? <==> qty > 0 && span.to <= SegmentCount(pool) && HasRoomBack(pool, span, qty)
    ensures Returned(pool, span, qty).Ok? ==>
              Returned(pool, span, qty).value == pool.(remaining := Shift(pool.remaining, span, qty))
    ensures Returned(pool, span, qty) == Err(NonPositiveQuantity(qty)) <==> qty <= 0
    ensures Returned(pool, span, qty) == Err(SpanOutOfRange(span.to, SegmentCount(pool))) <==>
            qty > 0 && span.to > SegmentCount(pool)
    ensures Returned(pool, span, qty) == Err(ReleaseExceedsCapacity(qty, pool.capacity)) <==>
            qty > 0 && span.to <= SegmentCount(pool) && !HasRoomBack(pool, span, qty)
  {
    if qty > 0 && span.to <= SegmentCount(pool) {
      InSlice(pool, span);
    }
  }

  lemma ReleaseFits(pool: PoolRow, span: Span, qty: int)
    requires qty > 0 && span.to <= SegmentCount(pool)
    requires HasRoomBack(pool, span, qty)
    ensures Returned(pool, span, qty) == Ok(pool.(remaining := Shift(pool.remaining, span, qty)))
  {
    InSlice(pool, span);
  }

  lemma ShiftUndone(remaining: seq<int>, span: Span, qty: int)
    ensures Shift(Shift(remaining, span, -qty), span, qty) == remaining
  {}

  ghost predicate WithinCapacity(pool: PoolRow) {
    forall i: nat :: i < |pool.remaining| ==> pool.remaining[i] <= pool.capacity
  }

  ghost predicate HasRoomBack(pool: PoolRow, span: Span, qty: int) {
    forall i: nat :: i < |pool.remaining| && Covers(span, i) ==> pool.remaining[i] + qty <= pool.capacity
  }

  lemma RoomAfterReserve(pool: PoolRow, span: Span, qty: int)
    requires WithinCapacity(pool)
    ensures HasRoomBack(pool.(remaining := Shift(pool.remaining, span, -qty)), span, qty)
  {}

  /** Releasing what was just reserved restores the pool. */
  lemma ReserveThenRelease(pool: PoolRow, span: Span, qty: int)
    requires WithinCapacity(pool)
    requires Reserved(pool, span, qty).Ok?
    ensures Returned(Reserved(pool, span, qty).value, span, qty) == Ok(pool)
  {
    var taken := Reserved(pool, span, qty).value;
    assert taken == pool.(remaining := Shift(pool.remaining, span, -qty)) && qty > 0
           && span.to <= SegmentCount(taken) by {
      ReserveWinsIff(pool, span, qty);
    }
    RoomAfterReserve(pool, span, qty);
    ReleaseFits(taken, span, qty);
    ShiftUndone(pool.remaining, span, qty);
  }

  /** On any span that ends within the pool, the guarded SQL update and the in-memory form give the
      same verdict and the same counters. */
  lemma ClaimRefinesReserve(occ: Occupancy, row: Row, span: Span, qty: int)
    requires row in occ.pools && row.kind.Pool?
    requires |occ.pools[row].remaining| < 256 && span.to <= |occ.pools[row].remaining|
    ensures TryClaim(occ, Claim(row, span, qty)) ==
            match Reserved(occ.pools[row], span, qty)
            case Ok(pool) => Some(occ.(pools := occ.pools[row := pool]))
            case Err(_) => None
  {
    assert Slice(occ.pools[row].remaining, span) == occ.pools[row].remaining[span.from..span.to];
  }

  lemma MaxExceeds(slice: seq<int>, qty: int, capacity: int)
    requires slice != []
    ensures Max(slice) + qty > capacity <==> exists r <- slice :: r + qty > capacity
  {}

  lemma ReleaseRefinesReturn(occ: Occupancy, row: Row, span: Span, qty: int)
    requires row in occ.pools && row.kind.Pool? && qty > 0
    requires |occ.pools[row].remaining| < 256 && span.to <= |occ.pools[row].remaining|
    ensures TryRelease(occ, Claim(row, span, qty)) ==
            match Returned(occ.pools[row], span, qty)
            case Ok(pool) => Some(occ.(pools := occ.pools[row := pool]))
            case Err(_) => None
  {
    var slice := occ.pools[row].remaining[span.from..span.to];
    assert Slice(occ.pools[row].remaining, span) == slice;
    MaxExceeds(slice, qty, occ.pools[row].capacity);
  }
}
