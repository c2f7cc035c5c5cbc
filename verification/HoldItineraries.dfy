/** Itinerary holds (crates/lulan-engine/src/inventory/holds.rs, acquire_itinerary): when one is granted,
and that a refused one leaves no trace among the live holds. */
module HoldItineraries {
  import opened Outcomes
  import opened Segments
  import opened Holds
  import opened HoldSafety

  /** Right after a hold is admitted, its seat shows the live fields and the new one. */
  lemma AdmittedShows(s: Store, key: Key, span: Span, ttl: Ttl, at: Clock)
    requires Acquire(s, key, span, ttl, at).1.Some?
    ensures Visible(Acquire(s, key, span, ttl, at).0, key, at.server)
         == Live(Visible(s, key, at.server), at.now) + [AdmittedField(s, span, ttl, at)]
  {}

  lemma AdmitSpares(s: Store, key: Key, span: Span, ttl: Ttl, at: Clock, other: Key)
    requires Acquire(s, key, span, ttl, at).1.Some? && other != key
    ensures Visible(Acquire(s, key, span, ttl, at).0, other, at.server) == Visible(s, other, at.server)
  {}

  // ---- a refused itinerary leaves the live holds as they were ---------------------------------------------

  /** The live fields whose ids are not among `ids`. */
  function Others(fields: seq<Field>, ids: seq<nat>, now: int): seq<Field> {
    if fields == [] then []
    else
      var last := fields[|fields| - 1];
      Others(fields[..|fields| - 1], ids, now) + (if last.exp > now && last.id !in ids then [last] else [])
  }

  lemma {:induction false} OthersOfNone(fields: seq<Field>, now: int)
    ensures Others(fields, [], now) == Live(fields, now)
    decreases |fields|
  {
    if fields != [] {
      OthersOfNone(fields[..|fields| - 1], now);
    }
  }

  lemma OthersAppend(fields: seq<Field>, last: Field, ids: seq<nat>, now: int)
    ensures Others(fields + [last], ids, now)
            == Others(fields, ids, now) + (if last.exp > now && last.id !in ids then [last] else [])
  {
    assert (fields + [last])[..|fields|] == fields;
  }

  lemma {:induction false} OthersOfLive(fields: seq<Field>, ids: seq<nat>, now: int)
    ensures Others(Live(fields, now), ids, now) == Others(fields, ids, now)
    decreases |fields|
  {
    if fields != [] {
      var init, last := fields[..|fields| - 1], fields[|fields| - 1];
      OthersOfLive(init, ids, now);
      if last.exp > now {
        OthersAppend(Live(init, now), last, ids, now);
        assert Live(fields, now) == Live(init, now) + [last];
      } else {
        assert Live(fields, now) == Live(init, now);
      }
    }
  }

  /** Dropping one more id from the list is dropping it from the fields. */
  lemma {:induction false} OthersOfWithout(fields: seq<Field>, ids: seq<nat>, now: int)
    requires ids != []
    ensures Others(Without(fields, ids[0]), ids[1..], now) == Others(fields, ids, now)
    decreases |fields|
  {
    if fields != [] {
      var init, last := fields[..|fields| - 1], fields[|fields| - 1];
      OthersOfWithout(init, ids, now);
      assert last.id in ids <==> last.id == ids[0] || last.id in ids[1..];
      if last.id != ids[0] {
        OthersAppend(Without(init, ids[0]), last, ids[1..], now);
        assert Without(fields, ids[0]) == Without(init, ids[0]) + [last];
      } else {
        assert Without(fields, ids[0]) == Without(init, ids[0]);
      }
    }
  }

  lemma {:induction false} OthersIgnore(fields: seq<Field>, ids: seq<nat>, more: seq<nat>, now: int)
    requires forall f <- fields :: f.id in ids <==> f.id in more
    ensures Others(fields, ids, now) == Others(fields, more, now)
    decreases |fields|
  {
    if fields != [] {
      var init, last := fields[..|fields| - 1], fields[|fields| - 1];
      assert fields == init + [last];
      OthersIgnore(init, ids, more, now);
    }
  }

  ghost predicate Registered(s: Store, ids: seq<nat>, at: Clock) {
    && (forall id <- ids :: id in s.registry && s.registry[id].deadline > at.server)
    && forall i, j :: 0 <= i < j < |ids| ==> ids[i] != ids[j]
  }

  /** Leaving out the holds `ids`, the seat's live fields are those of `start`, in the same order. */
  ghost predicate SameElsewhere(start: Store, s: Store, key: Key, ids: seq<nat>, at: Clock) {
    Others(Visible(s, key, at.server), ids, at.now) == Live(Visible(start, key, at.server), at.now)
  }

  /** `s` is `start` plus the holds `ids`, which the registry still knows. */
  ghost predicate AheadBy(start: Store, s: Store, ids: seq<nat>, at: Clock) {
    && Registered(s, ids, at)
    && forall key :: SameElsewhere(start, s, key, ids, at)
  }

  lemma AheadOfItself(s: Store, at: Clock)
    ensures AheadBy(s, s, [], at)
  {
    forall key
      ensures SameElsewhere(s, s, key, [], at)
    {
      OthersOfNone(Visible(s, key, at.server), at.now);
    }
  }

  lemma IdsAreOld(s: Store, key: Key, at: Clock)
    requires StoreOk(s)
    ensures forall f <- Visible(s, key, at.server) :: f.id < s.nextId
  {
    if key in s.hashes {
      assert HashOk(s.hashes[key], s.nextId);
    }
  }

  lemma AdmitAheadHere(s: Store, key: Key, span: Span, ttl: Ttl, at: Clock, ids: seq<nat>)
    requires StoreOk(s) && Acquire(s, key, span, ttl, at).1.Some?
    requires Others(Visible(s, key, at.server), ids + [s.nextId], at.now) == Others(Visible(s, key, at.server), ids, at.now)
    ensures Others(Visible(Acquire(s, key, span, ttl, at).0, key, at.server), ids + [s.nextId], at.now)
         == Others(Visible(s, key, at.server), ids, at.now)
  {
    var visible, more := Visible(s, key, at.server), ids + [s.nextId];
    AdmittedShows(s, key, span, ttl, at);
    OthersAppend(Live(visible, at.now), AdmittedField(s, span, ttl, at), more, at.now);
    OthersOfLive(visible, more, at.now);
  }

  lemma AdmitAheadAt(s: Store, key: Key, span: Span, ttl: Ttl, at: Clock, ids: seq<nat>, other: Key)
    requires StoreOk(s) && Acquire(s, key, span, ttl, at).1.Some?
    ensures Others(Visible(Acquire(s, key, span, ttl, at).0, other, at.server), ids + [s.nextId], at.now)
         == Others(Visible(s, other, at.server), ids, at.now)
  {
    IdsAreOld(s, other, at);
    OthersIgnore(Visible(s, other, at.server), ids, ids + [s.nextId], at.now);
    if other == key {
      AdmitAheadHere(s, key, span, ttl, at, ids);
    } else {
      AdmitSpares(s, key, span, ttl, at, other);
    }
  }

  lemma AdmitRegisters(s: Store, key: Key, span: Span, ttl: Ttl, at: Clock, ids: seq<nat>)
    requires Linked(s) && Registered(s, ids, at) && Acquire(s, key, span, ttl, at).1.Some?
    ensures Registered(Acquire(s, key, span, ttl, at).0, ids + [s.nextId], at)
  {
    var registry := Acquire(s, key, span, ttl, at).0.registry;
    assert registry == s.registry[s.nextId := Registration(key, at.server + ttl)];
    var more := ids + [s.nextId];
    forall k | 0 <= k < |more|
      ensures more[k] in registry && registry[more[k]].deadline > at.server
      ensures k < |ids| ==> more[k] < s.nextId
    {
      if k < |ids| {
        assert ids[k] in ids;
      }
    }
  }

  lemma AdmitAhead(start: Store, s: Store, key: Key, span: Span, ttl: Ttl, at: Clock, ids: seq<nat>, t: Store)
    requires StoreOk(s) && AheadBy(start, s, ids, at)
    requires Acquire(s, key, span, ttl, at).1.Some? && Acquire(s, key, span, ttl, at).0 == t
    ensures AheadBy(start, t, ids + [s.nextId], at)
  {
    AdmitRegisters(s, key, span, ttl, at, ids);
    forall other
      ensures SameElsewhere(start, t, other, ids + [s.nextId], at)
    {
      AdmitAheadAt(s, key, span, ttl, at, ids, other);
      assert SameElsewhere(start, s, other, ids, at);
    }
  }

  lemma RefuseAheadAt(s: Store, key: Key, span: Span, ttl: Ttl, at: Clock, ids: seq<nat>, other: Key)
    requires Acquire(s, key, span, ttl, at).1.None?
    ensures Others(Visible(Acquire(s, key, span, ttl, at).0, other, at.server), ids, at.now)
         == Others(Visible(s, other, at.server), ids, at.now)
  {
    var visible := Visible(s, other, at.server);
    var t := SetFields(s, key, Live(Visible(s, key, at.server), at.now));
    assert Acquire(s, key, span, ttl, at).0 == t;
    if other == key {
      OthersOfLive(visible, ids, at.now);
      assert Visible(t, other, at.server) == Live(visible, at.now);
    } else {
      assert Visible(t, other, at.server) == visible;
    }
  }

  lemma RefuseAhead(start: Store, s: Store, key: Key, span: Span, ttl: Ttl, at: Clock, ids: seq<nat>)
    requires AheadBy(start, s, ids, at) && Acquire(s, key, span, ttl, at).1.None?
    ensures AheadBy(start, Acquire(s, key, span, ttl, at).0, ids, at)
  {
    var t := Acquire(s, key, span, ttl, at).0;
    forall other
      ensures SameElsewhere(start, t, other, ids, at)
    {
      RefuseAheadAt(s, key, span, ttl, at, ids, other);
      assert SameElsewhere(start, s, other, ids, at);
    }
  }

  lemma ReleaseAheadAt(s: Store, ids: seq<nat>, at: Clock, other: Key)
    requires StoreOk(s) && ids != [] && ids[0] in s.registry && s.registry[ids[0]].deadline > at.server
    ensures Others(Visible(Release(s, ids[0], at.server).0, other, at.server), ids[1..], at.now)
         == Others(Visible(s, other, at.server), ids, at.now)
  {
    var visible := Visible(s, other, at.server);
    var t := Release(s, ids[0], at.server).0;
    if other == s.registry[ids[0]].key {
      assert Visible(t, other, at.server) == Without(visible, ids[0]);
      OthersOfWithout(visible, ids, at.now);
    } else {
      assert Visible(t, other, at.server) == visible;
      OthersIgnore(visible, ids, ids[1..], at.now);
    }
  }

  lemma ReleaseAhead(start: Store, s: Store, ids: seq<nat>, at: Clock)
    requires StoreOk(s) && ids != [] && AheadBy(start, s, ids, at)
    ensures AheadBy(start, Release(s, ids[0], at.server).0, ids[1..], at)
  {
    var t := Release(s, ids[0], at.server).0;
    forall other
      ensures SameElsewhere(start, t, other, ids[1..], at)
    {
      ReleaseAheadAt(s, ids, at, other);
      assert SameElsewhere(start, s, other, ids, at);
    }
  }

  lemma {:induction false} RollbackReturns(start: Store, s: Store, ids: seq<nat>, at: Clock)
    requires StoreOk(s) && AheadBy(start, s, ids, at)
    ensures AheadBy(start, ReleaseEach(s, ids, at.server), [], at)
    decreases |ids|
  {
    if ids != [] {
      ReleaseKeeps(s, ids[0], at);
      ReleaseAhead(start, s, ids, at);
      RollbackReturns(start, Release(s, ids[0], at.server).0, ids[1..], at);
    }
  }

  lemma {:induction false} RefusalReturns(start: Store, s: Store, seats: seq<Seat>, ttl: Ttl, at: Clock, ids: seq<nat>)
    requires StoreOk(s) && AheadBy(start, s, ids, at)
    ensures AcquireEach(s, seats, ttl, at, ids).1.None? ==>
              AheadBy(start, AcquireEach(s, seats, ttl, at, ids).0, [], at)
    decreases |seats|
  {
    if seats != [] {
      var key, span := seats[0].key, seats[0].span;
      var (next, hold) := Acquire(s, key, span, ttl, at);
      AcquireKeeps(s, key, span, ttl, at);
      if hold.Some? {
        AdmitAhead(start, s, key, span, ttl, at, ids, next);
        RefusalReturns(start, next, seats[1..], ttl, at, ids + [hold.value.id]);
      } else {
        RefuseAhead(start, s, key, span, ttl, at, ids);
        RollbackReturns(start, next, ids, at);
      }
    }
  }

  /** All or nothing: a refused itinerary leaves every seat's live holds exactly as they were. */
  lemma RefusedItineraryChangesNothing(steps: seq<Step>, seats: seq<Seat>, ttl: Ttl, at: Clock, key: Key)
    requires AcquireItinerary(Run(EMPTY, steps), seats, ttl, at).1.None?
    ensures var s := Run(EMPTY, steps);
            Live(Visible(AcquireItinerary(s, seats, ttl, at).0, key, at.server), at.now) == Live(Visible(s, key, at.server), at.now)
  {
    var s := Run(EMPTY, steps);
    RunKeepsStore(EMPTY, steps);
    AheadOfItself(s, at);
    RefusalReturns(s, s, seats, ttl, at, []);
    var t := AcquireEach(s, seats, ttl, at, []).0;
    assert SameElsewhere(s, t, key, [], at);
    OthersOfNone(Visible(t, key, at.server), at.now);
  }

  // ---- when an itinerary is granted -------------------------------------------------------------------------

  /** No live hold on the seat overlaps the span. */
  ghost predicate Free(s: Store, seat: Seat, at: Clock) {
    forall f <- Visible(s, seat.key, at.server) :: f.exp > at.now ==> !HalvesOverlap(f.mask, Split(Mask(seat.span)))
  }

  predicate SeatsClash(a: Seat, b: Seat) {
    a.key == b.key && IntervalsOverlap(a.span, b.span)
  }

  /** Every seat is free, and no two of the request want one segment of one seat. */
  ghost predicate Grantable(s: Store, seats: seq<Seat>, at: Clock) {
    && (forall i :: 0 <= i < |seats| ==> Free(s, seats[i], at))
    && forall i, j :: 0 <= i < j < |seats| ==> !SeatsClash(seats[i], seats[j])
  }

  lemma FreeAfterAdmit(s: Store, first: Seat, ttl: Ttl, at: Clock, seat: Seat)
    requires Acquire(s, first.key, first.span, ttl, at).1.Some?
    ensures Free(Acquire(s, first.key, first.span, ttl, at).0, seat, at) <==>
            Free(s, seat, at) && !SeatsClash(first, seat)
  {
    var t := Acquire(s, first.key, first.span, ttl, at).0;
    SplitOverlapIsIntervalOverlap(first.span, seat.span);
    if seat.key == first.key {
      var f := AdmittedField(s, first.span, ttl, at);
      AdmittedShows(s, first.key, first.span, ttl, at);
      assert f in Visible(t, seat.key, at.server);
      assert forall g :: g in Visible(t, seat.key, at.server) <==> g == f || g in Live(Visible(s, seat.key, at.server), at.now);
    } else {
      AdmitSpares(s, first.key, first.span, ttl, at, seat.key);
    }
  }

  lemma RestGrantable(s: Store, seats: seq<Seat>, ttl: Ttl, at: Clock)
    requires seats != [] && Acquire(s, seats[0].key, seats[0].span, ttl, at).1.Some? && Free(s, seats[0], at)
    ensures Grantable(Acquire(s, seats[0].key, seats[0].span, ttl, at).0, seats[1..], at) <==> Grantable(s, seats, at)
  {
    var t := Acquire(s, seats[0].key, seats[0].span, ttl, at).0;
    var rest := seats[1..];
    forall i | 0 <= i < |rest|
      ensures Free(t, rest[i], at) <==> Free(s, seats[i + 1], at) && !SeatsClash(seats[0], seats[i + 1])
    {
      FreeAfterAdmit(s, seats[0], ttl, at, rest[i]);
    }
    if Grantable(t, rest, at) {
      forall i | 0 <= i < |seats|
        ensures Free(s, seats[i], at) && (i > 0 ==> !SeatsClash(seats[0], seats[i]))
      {
        assert i > 0 ==> rest[i - 1] == seats[i] && Free(t, rest[i - 1], at);
      }
      forall i, j | 0 <= i < j < |seats|
        ensures !SeatsClash(seats[i], seats[j])
      {
        assert i > 0 ==> rest[i - 1] == seats[i] && rest[j - 1] == seats[j];
      }
    }
    if Grantable(s, seats, at) {
      forall i, j | 0 <= i < j < |rest|
        ensures !SeatsClash(rest[i], rest[j])
      {
        assert rest[i] == seats[i + 1] && rest[j] == seats[j + 1];
      }
      forall i | 0 <= i < |rest|
        ensures Free(t, rest[i], at)
      {
        assert Free(s, seats[i + 1], at) && !SeatsClash(seats[0], seats[i + 1]);
      }
    }
  }

  lemma {:induction false} EachGrantedIff(s: Store, seats: seq<Seat>, ttl: Ttl, at: Clock, acquired: seq<nat>)
    ensures AcquireEach(s, seats, ttl, at, acquired).1.Some? <==> Grantable(s, seats, at)
    decreases |seats|
  {
    if seats != [] {
      var (next, hold) := Acquire(s, seats[0].key, seats[0].span, ttl, at);
      AdmittedIff(s, seats[0].key, seats[0].span, ttl, at);
      if hold.Some? {
        EachGrantedIff(next, seats[1..], ttl, at, acquired + [hold.value.id]);
        RestGrantable(s, seats, ttl, at);
      }
    }
  }

  /** An itinerary is granted exactly when every seat's span is free of live holds and its own spans
      do not overlap on any seat. */
  lemma ItineraryGrantedIff(s: Store, seats: seq<Seat>, ttl: Ttl, at: Clock)
    ensures AcquireItinerary(s, seats, ttl, at).1.Some? <==> Grantable(s, seats, at)
  {
    EachGrantedIff(s, seats, ttl, at, []);
  }
}
