/** The per-trip index of held units against a scan of every unit's hash.

The index lives four times as long as the hold that last refreshed it. It never misses a live hold
when no hold of the run can outlive the shortest one fourfold and all readings are as far from the
server's clock; either condition dropped, it can. All of this is below. */
module HoldIndex {
  import opened Outcomes
  import opened Segments
  import opened Holds
  import opened HoldSafety

  // ---- what the 64-bit union says --------------------------------------------------------------------

  ghost predicate Touched(fields: seq<Field>, now: int, m: Word) {
    exists f <- fields :: f.exp > now && And(Join(f.mask), m) != ZERO
  }

  lemma {:induction false} LiveUnionTouches(fields: seq<Field>, now: int, m: Word)
    ensures And(LiveUnion(fields, now), m) != ZERO <==> Touched(fields, now, m)
    decreases |fields|
  {
    if fields == [] {
      ZeroMeetsNothing(m);
    } else {
      var init, last := fields[..|fields| - 1], fields[|fields| - 1];
      assert fields == init + [last];
      LiveUnionTouches(init, now, m);
      if last.exp > now {
        UnionTouches(LiveUnion(init, now), Join(last.mask), m);
      }
    }
  }

  lemma NothingJoined()
    ensures Join(NO_HALVES) == ZERO
  {}

  /** The reader's 64-bit union is the admission script's union of 32-bit halves. */
  lemma {:induction false} ReaderAgreesWithScript(fields: seq<Field>, now: int)
    ensures LiveUnion(fields, now) == Join(UnionOf(Live(fields, now)))
    decreases |fields|
  {
    if fields == [] {
      NothingJoined();
    } else {
      var init, last := fields[..|fields| - 1], fields[|fields| - 1];
      ReaderAgreesWithScript(init, now);
      if last.exp > now {
        assert (Live(init, now) + [last])[..|Live(init, now)|] == Live(init, now);
        HalvesKeepUnion(UnionOf(Live(init, now)), last.mask);
      } else {
        assert Live(fields, now) == Live(init, now);
      }
    }
  }

  lemma SpanMaskIsSet(mask: Halves)
    requires IsSpanMask(mask)
    ensures Join(mask) != ZERO
  {
    var span: Span :| mask == Split(Mask(span));
    JoinOfSplit(Mask(span));
    MaskBit(span, span.from);
    ZeroAt(span.from);
  }

  lemma LiveFieldShows(fields: seq<Field>, now: int, f: Field)
    requires f in fields && f.exp > now && IsSpanMask(f.mask)
    ensures LiveUnion(fields, now) != ZERO
  {
    SpanMaskIsSet(f.mask);
    ZeroMeetsNothing(Join(f.mask));
    LiveUnionTouches(fields, now, Join(f.mask));
  }

  lemma {:induction false} NothingLive(fields: seq<Field>, now: int)
    requires forall f <- fields :: f.exp <= now
    ensures LiveUnion(fields, now) == ZERO
    decreases |fields|
  {
    if fields != [] {
      assert fields[|fields| - 1] in fields;
      NothingLive(fields[..|fields| - 1], now);
    }
  }

  ghost predicate HasLive(s: Store, key: Key, at: Clock) {
    exists f <- Visible(s, key, at.server) :: f.exp > at.now
  }

  /** A unit's union is set exactly when some hold on it is live. */
  lemma MaskShowsLive(s: Store, trip: nat, unit: nat, at: Clock)
    requires StoreOk(s)
    ensures HeldMask(s, trip, unit, at) != ZERO <==> HasLive(s, Key(trip, unit), at)
  {
    var key := Key(trip, unit);
    var fields := Visible(s, key, at.server);
    if HasLive(s, key, at) {
      var f :| f in fields && f.exp > at.now;
      assert HashOk(s.hashes[key], s.nextId);
      LiveFieldShows(fields, at.now, f);
    } else {
      NothingLive(fields, at.now);
    }
  }

  // ---- the index covers every live hold --------------------------------------------------------------

  /** How far the reading is ahead of the server. */
  function Offset(at: Clock): int {
    at.now - at.server
  }

  ghost predicate Covered(s: Store, key: Key, f: Field, offset: int) {
    && key.trip in s.indexes
    && s.indexes[key.trip].deadline + offset >= f.exp
    && key.unit in s.indexes[key.trip].units
  }

  ghost predicate FieldIndexed(s: Store, key: Key, f: Field, at: Clock, longest: int) {
    f.exp <= at.now + longest && (f.exp > at.now ==> Covered(s, key, f, Offset(at)))
  }

  ghost predicate AllIndexed(s: Store, at: Clock, longest: int) {
    forall key, f :: Holding(s, key, f) ==> FieldIndexed(s, key, f, at, longest)
  }

  /** Every live field's unit is in an index that outlives it, and every key outlives its fields. */
  ghost predicate Indexed(s: Store, at: Clock, longest: int) {
    StoreOk(s) && Outlives(s, Offset(at)) && AllIndexed(s, at, longest)
  }

  ghost predicate TtlOk(ttl: int, shortest: int, longest: int) {
    0 < shortest <= ttl <= longest <= shortest * INDEX_TTL_MULTIPLIER
  }

  lemma StillIndexed(s: Store, earlier: Clock, at: Clock, longest: int)
    requires Indexed(s, earlier, longest) && earlier.now <= at.now && Offset(earlier) == Offset(at)
    ensures Indexed(s, at, longest)
  {
    forall key, f | Holding(s, key, f)
      ensures FieldIndexed(s, key, f, at, longest)
    {
      assert FieldIndexed(s, key, f, earlier, longest);
    }
  }

  lemma AdmitIndexesAt(
    s: Store, key: Key, span: Span, ttl: Ttl, at: Clock, shortest: int, longest: int, other: Key, f: Field)
    requires AllIndexed(s, at, longest) && TtlOk(ttl, shortest, longest)
    requires Acquire(s, key, span, ttl, at).1.Some?
    requires Holding(Acquire(s, key, span, ttl, at).0, other, f)
    ensures FieldIndexed(Acquire(s, key, span, ttl, at).0, other, f, at, longest)
  {
    if other != key || f != AdmittedField(s, span, ttl, at) {
      assert Holding(s, other, f);
      assert FieldIndexed(s, other, f, at, longest);
    }
  }

  lemma AcquireIndexes(s: Store, key: Key, span: Span, ttl: Ttl, at: Clock, shortest: int, longest: int)
    requires Indexed(s, at, longest) && TtlOk(ttl, shortest, longest)
    ensures Indexed(Acquire(s, key, span, ttl, at).0, at, longest)
  {
    var t := Acquire(s, key, span, ttl, at).0;
    AcquireKeeps(s, key, span, ttl, at);
    AcquireOutlives(s, key, span, ttl, at, Offset(at));
    forall other, f | Holding(t, other, f)
      ensures FieldIndexed(t, other, f, at, longest)
    {
      if Acquire(s, key, span, ttl, at).1.Some? {
        AdmitIndexesAt(s, key, span, ttl, at, shortest, longest, other, f);
      } else {
        assert Holding(s, other, f);
        assert FieldIndexed(s, other, f, at, longest);
      }
    }
  }

  lemma DropIndexes(s: Store, id: nat, key: Key, server: int)
    ensures var rest := Without(Visible(s, key, server), id);
            Drop(s, id, key, server).indexes == if rest == [] then Unindex(s, key.trip, {key.unit}).indexes else s.indexes
    ensures Drop(s, id, key, server).hashes == SetFields(s, key, Without(Visible(s, key, server), id)).hashes
  {}

  /** A unit leaves the index only when its last visible hold was the one released. */
  lemma ReleaseIndexesAt(s: Store, id: nat, key: Key, at: Clock, longest: int, other: Key, f: Field)
    requires Indexed(s, at, longest) && Holding(Drop(s, id, key, at.server), other, f)
    ensures FieldIndexed(Drop(s, id, key, at.server), other, f, at, longest)
  {
    DropIndexes(s, id, key, at.server);
    assert Holding(s, other, f);
    assert FieldIndexed(s, other, f, at, longest);
    assert Without(Visible(s, key, at.server), id) == [] ==> other != key;
  }

  lemma ReleaseIndexes(s: Store, id: nat, at: Clock, longest: int)
    requires Indexed(s, at, longest)
    ensures Indexed(Release(s, id, at.server).0, at, longest)
  {
    var t := Release(s, id, at.server).0;
    ReleaseKeeps(s, id, at);
    ReleaseOutlives(s, id, at.server, Offset(at));
    if Release(s, id, at.server).1 {
      forall other, f | Holding(t, other, f)
        ensures FieldIndexed(t, other, f, at, longest)
      {
        ReleaseIndexesAt(s, id, s.registry[id].key, at, longest, other, f);
      }
    }
  }

  lemma {:induction false} ReleaseEachIndexes(s: Store, ids: seq<nat>, at: Clock, longest: int)
    requires Indexed(s, at, longest)
    ensures Indexed(ReleaseEach(s, ids, at.server), at, longest)
    decreases |ids|
  {
    if ids != [] {
      ReleaseIndexes(s, ids[0], at, longest);
      ReleaseEachIndexes(Release(s, ids[0], at.server).0, ids[1..], at, longest);
    }
  }

  lemma {:induction false} AcquireEachIndexes(
    s: Store, seats: seq<Seat>, ttl: Ttl, at: Clock, acquired: seq<nat>, shortest: int, longest: int)
    requires Indexed(s, at, longest) && TtlOk(ttl, shortest, longest)
    ensures Indexed(AcquireEach(s, seats, ttl, at, acquired).0, at, longest)
    decreases |seats|
  {
    if seats != [] {
      var (next, hold) := Acquire(s, seats[0].key, seats[0].span, ttl, at);
      AcquireIndexes(s, seats[0].key, seats[0].span, ttl, at, shortest, longest);
      if hold.Some? {
        AcquireEachIndexes(next, seats[1..], ttl, at, acquired + [hold.value.id], shortest, longest);
      } else {
        ReleaseEachIndexes(next, acquired, at, longest);
      }
    }
  }

  /** Pruning drops no unit that has a live hold. */
  lemma ReadIndexesAt(s: Store, trip: nat, at: Clock, longest: int, other: Key, f: Field)
    requires Indexed(s, at, longest) && Holding(s, other, f)
    ensures FieldIndexed(LiveHeldUnits(s, trip, at).0, other, f, at, longest)
  {
    assert FieldIndexed(s, other, f, at, longest);
    if other.trip == trip && f.exp > at.now {
      HoldingIsVisible(s, other, f, at, Offset(at));
      MaskShowsLive(s, trip, other.unit, at);
      assert other == Key(trip, other.unit);
    }
  }

  lemma ReadIndexes(s: Store, trip: nat, at: Clock, longest: int)
    requires Indexed(s, at, longest)
    ensures Indexed(LiveHeldUnits(s, trip, at).0, at, longest)
  {
    var t := LiveHeldUnits(s, trip, at).0;
    SameHashes(s, t);
    forall other, f | Holding(t, other, f)
      ensures FieldIndexed(t, other, f, at, longest)
    {
      assert Holding(s, other, f);
      ReadIndexesAt(s, trip, at, longest, other, f);
    }
  }

  lemma SameIndexes(s: Store, t: Store, at: Clock, longest: int)
    requires Indexed(s, at, longest)
    requires t.hashes == s.hashes && t.indexes == s.indexes && t.registry == s.registry && t.nextId >= s.nextId
    ensures Indexed(t, at, longest)
  {
    SameHashes(s, t);
    forall other, f | Holding(t, other, f)
      ensures FieldIndexed(t, other, f, at, longest)
    {
      assert Holding(s, other, f);
      assert FieldIndexed(s, other, f, at, longest);
    }
  }

  ghost predicate StepTtlOk(step: Step, shortest: int, longest: int) {
    (step.StepAcquire? || step.StepAcquireItinerary?) ==> TtlOk(step.ttl, shortest, longest)
  }

  lemma StepIndexes(s: Store, step: Step, shortest: int, longest: int)
    requires Indexed(s, step.at, longest) && StepTtlOk(step, shortest, longest)
    ensures Indexed(Next(s, step), step.at, longest)
  {
    match step
    case StepAcquire(key, span, ttl, at) => AcquireIndexes(s, key, span, ttl, at, shortest, longest);
    case StepRelease(id, at) => ReleaseIndexes(s, id, at, longest);
    case StepAcquireItinerary(seats, ttl, at) =>
      AcquireEachIndexes(s, seats, ttl, at, [], shortest, longest);
      SameIndexes(AcquireEach(s, seats, ttl, at, []).0, Next(s, step), at, longest);
    case StepReleaseItinerary(id, at) =>
      if MembersOf(s, id, at.server).Some? {
        ReleaseEachIndexes(s, MembersOf(s, id, at.server).value, at, longest);
        SameIndexes(ReleaseEach(s, MembersOf(s, id, at.server).value, at.server), Next(s, step), at, longest);
      }
    case StepRead(trip, at) => ReadIndexes(s, trip, at, longest);
  }

  /** Later in time, and as far from the server. */
  ghost predicate InStep(from: Clock, until: Clock) {
    from.now <= until.now && Offset(from) == Offset(until)
  }

  /** Time never goes back, from `from` to at most `until`, every reading is as far from the server as
      the others, and every ttl is within the bounds. */
  ghost predicate Orderly(steps: seq<Step>, from: Clock, until: Clock, shortest: int, longest: int)
    decreases |steps|
  {
    if steps == [] then InStep(from, until)
    else
      InStep(from, steps[0].at) && StepTtlOk(steps[0], shortest, longest)
      && Orderly(steps[1..], steps[0].at, until, shortest, longest)
  }

  lemma {:induction false} RunIndexes(s: Store, steps: seq<Step>, from: Clock, until: Clock, shortest: int, longest: int)
    requires Indexed(s, from, longest) && Orderly(steps, from, until, shortest, longest)
    ensures Indexed(Run(s, steps), until, longest)
    decreases |steps|
  {
    if steps == [] {
      StillIndexed(s, from, until, longest);
    } else {
      StillIndexed(s, from, steps[0].at, longest);
      StepIndexes(s, steps[0], shortest, longest);
      RunIndexes(Next(s, steps[0]), steps[1..], steps[0].at, until, shortest, longest);
    }
  }

  // ---- the reads against a full scan -----------------------------------------------------------------

  /** The index answers exactly what scanning every unit of the trip would. */
  ghost predicate ReadIsScan(s: Store, trip: nat, unit: nat, at: Clock) {
    var live := LiveHeldUnits(s, trip, at).1;
    && (unit in live <==> HasLive(s, Key(trip, unit), at))
    && (unit in live ==> live[unit] == HeldMask(s, trip, unit, at))
  }

  lemma IndexedReadIsScan(s: Store, trip: nat, unit: nat, at: Clock, longest: int)
    requires Indexed(s, at, longest)
    ensures ReadIsScan(s, trip, unit, at)
  {
    var key := Key(trip, unit);
    MaskShowsLive(s, trip, unit, at);
    if HasLive(s, key, at) {
      var f :| f in Visible(s, key, at.server) && f.exp > at.now;
      assert Holding(s, key, f);
      assert FieldIndexed(s, key, f, at, longest);
    }
  }

  lemma PrunedReadsAlike(s: Store, trip: nat, at: Clock)
    ensures LiveHeldUnits(LiveHeldUnits(s, trip, at).0, trip, at).1 == LiveHeldUnits(s, trip, at).1
  {
    var (pruned, live) := LiveHeldUnits(s, trip, at);
    assert pruned.hashes == s.hashes;
    assert VisibleIndex(pruned, trip, at.server) == live.Keys;
    forall unit
      ensures HeldMask(pruned, trip, unit, at) == HeldMask(s, trip, unit, at)
    {}
  }

  /** In every orderly run whose holds last at most four times the shortest: the seat map's reads agree
      with a scan of all hashes, before and after pruning, and no live hold's key is gone. */
  lemma EveryReadIsScan(
    steps: seq<Step>, from: Clock, at: Clock, shortest: int, longest: int, trip: nat, unit: nat, span: Span)
    requires Orderly(steps, from, at, shortest, longest)
    ensures ReadIsScan(Run(EMPTY, steps), trip, unit, at)
    ensures var s := Run(EMPTY, steps);
            LiveHeldUnits(LiveHeldUnits(s, trip, at).0, trip, at).1 == LiveHeldUnits(s, trip, at).1
    ensures var s := Run(EMPTY, steps);
            unit in HeldUnits(s, trip, span, at).1 <==>
            Touched(Visible(s, Key(trip, unit), at.server), at.now, Mask(span))
    ensures forall f :: Holding(Run(EMPTY, steps), Key(trip, unit), f) && f.exp > at.now ==>
              HasLive(Run(EMPTY, steps), Key(trip, unit), at)
  {
    var s := Run(EMPTY, steps);
    RunIndexes(EMPTY, steps, from, at, shortest, longest);
    IndexedReadIsScan(s, trip, unit, at, longest);
    LiveUnionTouches(Visible(s, Key(trip, unit), at.server), at.now, Mask(span));
    HeldUnitTouched(s, trip, unit, span, at);
    PrunedReadsAlike(s, trip, at);
    forall f | Holding(s, Key(trip, unit), f) && f.exp > at.now
      ensures HasLive(s, Key(trip, unit), at)
    {
      HoldingIsVisible(s, Key(trip, unit), f, at, Offset(at));
    }
  }

  lemma HeldUnitTouched(s: Store, trip: nat, unit: nat, span: Span, at: Clock)
    requires ReadIsScan(s, trip, unit, at)
    ensures unit in HeldUnits(s, trip, span, at).1 <==>
            Touched(Visible(s, Key(trip, unit), at.server), at.now, Mask(span))
  {
    LiveUnionTouches(Visible(s, Key(trip, unit), at.server), at.now, Mask(span));
  }

  /** The count never falls short of the live units, and one that reaches the threshold is exact. */
  lemma CountIsSafe(s: Store, trip: nat, accurateAbove: nat, at: Clock)
    ensures var count := HeldUnitCount(s, trip, accurateAbove, at).1;
            var exact := |LiveHeldUnits(s, trip, at).1|;
            exact <= count && (count >= accurateAbove ==> count == exact)
    ensures var listed := |VisibleIndex(s, trip, at.server)|;
            HeldUnitCount(s, trip, accurateAbove, at) ==
            if listed < accurateAbove then (s, listed)
            else (LiveHeldUnits(s, trip, at).0, |LiveHeldUnits(s, trip, at).1|)
  {
    var live := LiveHeldUnits(s, trip, at).1;
    SubsetSize(live.Keys, VisibleIndex(s, trip, at.server));
    assert |live| == |live.Keys|;
  }

  // ---- the bound of four is tight ----------------------------------------------------------------------

  lemma UnindexedReadsEmpty(s: Store, trip: nat, at: Clock)
    requires VisibleIndex(s, trip, at.server) == {}
    ensures LiveHeldUnits(s, trip, at).1 == map[]
  {}

  /** Just past the factor, a short hold lets the index die under a long one: at `4 * short` the
      first seat is still held, yet the index shows nothing. */
  lemma ShortHoldHidesLongOne(span: Span, short: Ttl, long: Ttl, trip: nat, unit: nat, other: nat)
    requires long > short * INDEX_TTL_MULTIPLIER && unit != other
    ensures var s := Run(EMPTY, [StepAcquire(Key(trip, unit), span, long, Clock(0, 0)),
                                 StepAcquire(Key(trip, other), span, short, Clock(0, 0))]);
            var at := Clock(short * INDEX_TTL_MULTIPLIER, short * INDEX_TTL_MULTIPLIER);
            HasLive(s, Key(trip, unit), at) && LiveHeldUnits(s, trip, at).1 == map[]
  {
    var first, second := Key(trip, unit), Key(trip, other);
    var at := Clock(short * INDEX_TTL_MULTIPLIER, short * INDEX_TTL_MULTIPLIER);
    var a := Next(EMPTY, StepAcquire(first, span, long, Clock(0, 0)));
    var b := Next(a, StepAcquire(second, span, short, Clock(0, 0)));
    FirstHold(first, span, long);
    GoneKeyAdmits(a, second, span, short, Clock(0, 0));
    RunOfTwo(EMPTY, StepAcquire(first, span, long, Clock(0, 0)), StepAcquire(second, span, short, Clock(0, 0)));
    assert b.hashes[first] == a.hashes[first];
    assert Field(0, long, Split(Mask(span))) in Visible(b, first, at.server);
    UnindexedReadsEmpty(b, trip, at);
  }

  // ---- readings out of step ------------------------------------------------------------------------------

  /** However little a reader may be ahead, it drops from the index a hold that is live to a process in
      step with the server, which then misses it. */
  lemma AheadReaderDropsLiveHold(span: Span, ttl: Ttl, trip: nat, unit: nat, ahead: int)
    requires 1 <= ahead <= ttl
    ensures var s := Run(EMPTY, [StepAcquire(Key(trip, unit), span, ttl, Clock(0, 0)),
                                 StepRead(trip, Clock(ttl, ttl - ahead))]);
            var at := Clock(ttl - ahead, ttl - ahead);
            HasLive(s, Key(trip, unit), at) && LiveHeldUnits(s, trip, at).1 == map[]
  {
    var key := Key(trip, unit);
    var read, at := Clock(ttl, ttl - ahead), Clock(ttl - ahead, ttl - ahead);
    var f := Field(0, ttl, Split(Mask(span)));
    var a := Next(EMPTY, StepAcquire(key, span, ttl, Clock(0, 0)));
    FirstHold(key, span, ttl);
    RunOfTwo(EMPTY, StepAcquire(key, span, ttl, Clock(0, 0)), StepRead(trip, read));
    var b := LiveHeldUnits(a, trip, read).0;
    assert Visible(a, key, read.server) == [f];
    NothingLive([f], ttl);
    FirstIndex(key, span, ttl);
    assert VisibleIndex(a, trip, read.server) == {unit};
    assert LiveHeldUnits(a, trip, read).1 == map[];
    assert f in Visible(b, key, at.server);
    UnindexedReadsEmpty(b, trip, at);
  }

  lemma FirstIndex(key: Key, span: Span, ttl: Ttl)
    ensures var s := Acquire(EMPTY, key, span, ttl, Clock(0, 0)).0;
            key.trip in s.indexes && s.indexes[key.trip] == Index({key.unit}, ttl * INDEX_TTL_MULTIPLIER)
  {
    FirstHold(key, span, ttl);
    assert {} + {key.unit} == {key.unit};
  }

  // ---- the exact condition -------------------------------------------------------------------------------

  /** The clocks of a run and of the read that follows it. */
  function Clocks(steps: seq<Step>, at: Clock): (clocks: seq<Clock>)
    ensures |clocks| == |steps| + 1
  {
    if steps == [] then [at] else [steps[0].at] + Clocks(steps[1..], at)
  }

  /** The server's clock never goes back, any two readings' offsets from it differ by at most `spread`,
      and every ttl is between the two bounds. */
  ghost predicate Bounded(steps: seq<Step>, at: Clock, shortest: int, longest: int, spread: nat) {
    var clocks := Clocks(steps, at);
    && (forall i, j :: 0 <= i < j < |clocks| ==> clocks[i].server <= clocks[j].server)
    && (forall i, j :: 0 <= i < |clocks| && 0 <= j < |clocks| ==> Offset(clocks[i]) - Offset(clocks[j]) <= spread)
    && forall step <- steps :: (step.StepAcquire? || step.StepAcquireItinerary?) ==> shortest <= step.ttl <= longest
  }

  lemma {:induction false} BoundedIsOrderly(from: Clock, steps: seq<Step>, at: Clock, shortest: int, longest: int)
    requires 0 < shortest <= longest <= shortest * INDEX_TTL_MULTIPLIER && Bounded(steps, at, shortest, longest, 0)
    requires InStep(from, Clocks(steps, at)[0])
    ensures Orderly(steps, from, at, shortest, longest)
    decreases |steps|
  {
    if steps != [] {
      var clocks, rest := Clocks(steps, at), Clocks(steps[1..], at);
      assert forall i :: 0 <= i < |rest| ==> rest[i] == clocks[i + 1];
      assert clocks[0] == steps[0].at;
      assert steps[0] in steps;
      assert Offset(clocks[0]) - Offset(clocks[1]) <= 0 && Offset(clocks[1]) - Offset(clocks[0]) <= 0;
      BoundedIsOrderly(steps[0].at, steps[1..], at, shortest, longest);
    }
  }

  ghost predicate AlwaysScans(shortest: int, longest: int, spread: nat) {
    forall steps, at, trip, unit ::
      Bounded(steps, at, shortest, longest, spread) ==> ReadIsScan(Run(EMPTY, steps), trip, unit, at)
  }

  lemma TwoStepsBounded(steps: seq<Step>, at: Clock, shortest: int, longest: int, spread: nat)
    requires |steps| == 2 && steps[0].at.server <= steps[1].at.server <= at.server
    requires Offset(steps[0].at) == Offset(at) == 0 <= Offset(steps[1].at) <= spread
    requires forall step <- steps :: (step.StepAcquire? || step.StepAcquireItinerary?) ==> shortest <= step.ttl <= longest
    ensures Bounded(steps, at, shortest, longest, spread)
  {
    assert steps[1..][1..] == [];
    assert Clocks(steps[1..], at) == [steps[1].at] + Clocks([], at);
    assert Clocks(steps, at) == [steps[0].at, steps[1].at, at];
  }

  lemma ShortHoldBreaks(shortest: Ttl, longest: Ttl, spread: nat, span: Span)
    requires longest > shortest * INDEX_TTL_MULTIPLIER
    ensures !AlwaysScans(shortest, longest, spread)
  {
    var steps := [StepAcquire(Key(0, 0), span, longest, Clock(0, 0)), StepAcquire(Key(0, 1), span, shortest, Clock(0, 0))];
    var at := Clock(shortest * INDEX_TTL_MULTIPLIER, shortest * INDEX_TTL_MULTIPLIER);
    ShortHoldHidesLongOne(span, shortest, longest, 0, 0, 1);
    TwoStepsBounded(steps, at, shortest, longest, spread);
    assert !ReadIsScan(Run(EMPTY, steps), 0, 0, at);
  }

  lemma AheadReaderBreaks(shortest: Ttl, longest: Ttl, spread: nat, span: Span)
    requires shortest <= longest && spread >= 1
    ensures !AlwaysScans(shortest, longest, spread)
  {
    var steps := [StepAcquire(Key(0, 0), span, shortest, Clock(0, 0)), StepRead(0, Clock(shortest, shortest - 1))];
    var at := Clock(shortest - 1, shortest - 1);
    AheadReaderDropsLiveHold(span, shortest, 0, 0, 1);
    TwoStepsBounded(steps, at, shortest, longest, spread);
    assert !ReadIsScan(Run(EMPTY, steps), 0, 0, at);
  }

  /** Every read of every such run is what a scan would show exactly when no hold can outlive another
      more than fourfold and all readings are as far from the server's clock. */
  lemma IndexIsScanIff(shortest: Ttl, longest: Ttl, spread: nat)
    requires shortest <= longest
    ensures AlwaysScans(shortest, longest, spread) <==> longest <= shortest * INDEX_TTL_MULTIPLIER && spread == 0
  {
    var span := NewSpan(0, 1).value;
    if longest > shortest * INDEX_TTL_MULTIPLIER {
      ShortHoldBreaks(shortest, longest, spread, span);
    } else if spread >= 1 {
      AheadReaderBreaks(shortest, longest, spread, span);
    } else {
      forall steps, at, trip, unit | Bounded(steps, at, shortest, longest, spread)
        ensures ReadIsScan(Run(EMPTY, steps), trip, unit, at)
      {
        var from := Clocks(steps, at)[0];
        BoundedIsOrderly(from, steps, at, shortest, longest);
        EveryReadIsScan(steps, from, at, shortest, longest, trip, unit, span);
      }
    }
  }
}
