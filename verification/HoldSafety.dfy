/** Mutual exclusion and index completeness of the hold store, over every run. */
module HoldSafety {
  import opened Outcomes
  import opened Segments
  import opened Holds

  // ---- unions ----------------------------------------------------------------------------------------

  lemma {:induction false} UnionClashes(fields: seq<Field>, mask: Halves)
    ensures HalvesOverlap(UnionOf(fields), mask) <==> exists f <- fields :: HalvesOverlap(f.mask, mask)
    decreases |fields|
  {
    if fields == [] {
      NoHalvesOverlapNothing(mask);
    } else {
      var init, last := fields[..|fields| - 1], fields[|fields| - 1];
      assert fields == init + [last];
      UnionClashes(init, mask);
      OverlapOfUnion(UnionOf(init), last.mask, mask);
    }
  }

  /** A hold is admitted exactly when no live field of the unit's hash clashes with it. */
  lemma AdmittedIff(s: Store, key: Key, span: Span, ttl: Ttl, at: Clock)
    ensures Acquire(s, key, span, ttl, at).1.Some? <==>
            forall f <- Visible(s, key, at.server) :: f.exp > at.now ==> !HalvesOverlap(f.mask, Split(Mask(span)))
  {
    UnionClashes(Live(Visible(s, key, at.server), at.now), Split(Mask(span)));
  }

  // ---- what every call keeps, whatever the clock says --------------------------------------------------

  /** No two fields share a segment or an id. */
  ghost predicate Exclusive(fields: seq<Field>) {
    fields == []
    || (var init, last := fields[..|fields| - 1], fields[|fields| - 1];
        Exclusive(init) && Apart(init, last))
  }

  ghost predicate Apart(fields: seq<Field>, other: Field) {
    forall f <- fields :: !HalvesOverlap(f.mask, other.mask) && f.id != other.id
  }

  lemma ApartSubset(fields: seq<Field>, some: seq<Field>, other: Field)
    requires Apart(fields, other) && forall f <- some :: f in fields
    ensures Apart(some, other)
  {}

  lemma ExclusiveAppend(fields: seq<Field>, other: Field)
    requires Exclusive(fields) && Apart(fields, other)
    ensures Exclusive(fields + [other])
  {
    assert (fields + [other])[..|fields|] == fields;
  }

  ghost predicate IsSpanMask(mask: Halves) {
    exists span: Span :: mask == Split(Mask(span))
  }

  ghost predicate FieldOk(f: Field, nextId: nat) {
    f.id < nextId && IsSpanMask(f.mask)
  }

  ghost predicate HashOk(h: Hash, nextId: nat) {
    Exclusive(h.fields) && forall f <- h.fields :: FieldOk(f, nextId)
  }

  ghost predicate Linked(s: Store) {
    && (forall id <- s.registry :: id < s.nextId)
    && forall key <- s.hashes, f <- s.hashes[key].fields ::
         f.id in s.registry ==> s.registry[f.id].key == key
  }

  ghost predicate StoreOk(s: Store) {
    && Linked(s)
    && forall key <- s.hashes :: HashOk(s.hashes[key], s.nextId)
  }

  lemma {:induction false} ExclusiveLive(fields: seq<Field>, now: int)
    requires Exclusive(fields)
    ensures Exclusive(Live(fields, now))
    decreases |fields|
  {
    if fields != [] {
      var init, last := fields[..|fields| - 1], fields[|fields| - 1];
      ExclusiveLive(init, now);
      if last.exp > now {
        ApartSubset(init, Live(init, now), last);
        ExclusiveAppend(Live(init, now), last);
      } else {
        assert Live(fields, now) == Live(init, now);
      }
    }
  }

  lemma {:induction false} ExclusiveWithout(fields: seq<Field>, id: nat)
    requires Exclusive(fields)
    ensures Exclusive(Without(fields, id))
    decreases |fields|
  {
    if fields != [] {
      var init, last := fields[..|fields| - 1], fields[|fields| - 1];
      ExclusiveWithout(init, id);
      if last.id != id {
        ApartSubset(init, Without(init, id), last);
        ExclusiveAppend(Without(init, id), last);
      } else {
        assert Without(fields, id) == Without(init, id);
      }
    }
  }

  /** Any two fields of a hash hold disjoint segments. */
  lemma {:induction false} ExclusiveMeans(fields: seq<Field>, i: nat, j: nat)
    requires Exclusive(fields) && i < j < |fields|
    ensures !HalvesOverlap(fields[i].mask, fields[j].mask) && fields[i].id != fields[j].id
    decreases |fields|
  {
    var init := fields[..|fields| - 1];
    if j < |fields| - 1 {
      ExclusiveMeans(init, i, j);
    } else {
      assert fields[i] == init[i] && init[i] in init;
    }
  }

  /** Rewriting a hash with some of its own fields is harmless. */
  lemma RewriteKeeps(s: Store, key: Key, fields: seq<Field>)
    requires StoreOk(s) && Exclusive(fields)
    requires key in s.hashes ==> forall f <- fields :: f in s.hashes[key].fields
    ensures StoreOk(SetFields(s, key, fields))
  {
    if key in s.hashes {
      var t := SetFields(s, key, fields);
      assert HashOk(t.hashes[key], t.nextId);
    }
  }

  lemma VisibleOk(s: Store, key: Key, at: Clock)
    requires StoreOk(s)
    ensures Exclusive(Visible(s, key, at.server))
    ensures forall f <- Visible(s, key, at.server) :: key in s.hashes && f in s.hashes[key].fields
  {}

  /** `live` are fields the seat already lists, none of which clashes with the newcomer. */
  ghost predicate Joinable(s: Store, key: Key, live: seq<Field>, mask: Halves) {
    && Exclusive(live) && IsSpanMask(mask)
    && (forall f <- live :: key in s.hashes && f in s.hashes[key].fields)
    && forall f <- live :: !HalvesOverlap(f.mask, mask)
  }

  lemma LiveIsJoinable(s: Store, key: Key, span: Span, ttl: Ttl, at: Clock)
    requires StoreOk(s) && Acquire(s, key, span, ttl, at).1.Some?
    ensures Joinable(s, key, Live(Visible(s, key, at.server), at.now), Split(Mask(span)))
  {
    VisibleOk(s, key, at);
    ExclusiveLive(Visible(s, key, at.server), at.now);
    UnionClashes(Live(Visible(s, key, at.server), at.now), Split(Mask(span)));
  }

  lemma NewHashOk(s: Store, key: Key, live: seq<Field>, mask: Halves, exp: int, deadline: int)
    requires StoreOk(s) && Joinable(s, key, live, mask)
    ensures HashOk(Hash(live + [Field(s.nextId, exp, mask)], deadline), s.nextId + 1)
  {
    var f := Field(s.nextId, exp, mask);
    assert key in s.hashes ==> HashOk(s.hashes[key], s.nextId);
    ExclusiveAppend(live, f);
  }

  lemma OldHashOk(s: Store, key: Key)
    requires StoreOk(s) && key in s.hashes
    ensures HashOk(s.hashes[key], s.nextId + 1)
  {
    assert HashOk(s.hashes[key], s.nextId);
  }

  lemma AdmitLinks(s: Store, key: Key, live: seq<Field>, mask: Halves, ttl: Ttl, at: Clock)
    requires StoreOk(s) && Joinable(s, key, live, mask)
    ensures Linked(Admit(s, key, live, mask, ttl, at))
  {
    var t := Admit(s, key, live, mask, ttl, at);
    forall k, f | k in t.hashes && f in t.hashes[k].fields && f.id in t.registry
      ensures t.registry[f.id].key == k
    {
      if k != key || f in live {
        assert k in s.hashes && f in s.hashes[k].fields;
        assert HashOk(s.hashes[k], s.nextId);
      }
    }
  }

  lemma AdmitKeeps(s: Store, key: Key, span: Span, ttl: Ttl, at: Clock)
    requires StoreOk(s) && Acquire(s, key, span, ttl, at).1.Some?
    ensures StoreOk(Acquire(s, key, span, ttl, at).0)
  {
    var live, mask := Live(Visible(s, key, at.server), at.now), Split(Mask(span));
    LiveIsJoinable(s, key, span, ttl, at);
    AdmitLinks(s, key, live, mask, ttl, at);
    var t := Admit(s, key, live, mask, ttl, at);
    forall k | k in t.hashes
      ensures HashOk(t.hashes[k], t.nextId)
    {
      if k == key {
        NewHashOk(s, key, live, mask, at.now + ttl, t.hashes[key].deadline);
      } else {
        OldHashOk(s, k);
      }
    }
  }

  lemma AcquireKeeps(s: Store, key: Key, span: Span, ttl: Ttl, at: Clock)
    requires StoreOk(s)
    ensures StoreOk(Acquire(s, key, span, ttl, at).0)
  {
    if Acquire(s, key, span, ttl, at).1.Some? {
      AdmitKeeps(s, key, span, ttl, at);
    } else {
      VisibleOk(s, key, at);
      ExclusiveLive(Visible(s, key, at.server), at.now);
      RewriteKeeps(s, key, Live(Visible(s, key, at.server), at.now));
    }
  }

  lemma ReleaseKeeps(s: Store, id: nat, at: Clock)
    requires StoreOk(s)
    ensures StoreOk(Release(s, id, at.server).0)
  {
    if Release(s, id, at.server).1 {
      var key := s.registry[id].key;
      VisibleOk(s, key, at);
      var rest := Without(Visible(s, key, at.server), id);
      ExclusiveWithout(Visible(s, key, at.server), id);
      RewriteKeeps(s, key, rest);
      var t := SetFields(s, key, rest);
      assert Release(s, id, at.server).0.hashes == t.hashes;
      assert Release(s, id, at.server).0.registry == t.registry - {id};
    }
  }

  lemma {:induction false} ReleaseEachKeeps(s: Store, ids: seq<nat>, at: Clock)
    requires StoreOk(s)
    ensures StoreOk(ReleaseEach(s, ids, at.server))
    decreases |ids|
  {
    if ids != [] {
      ReleaseKeeps(s, ids[0], at);
      ReleaseEachKeeps(Release(s, ids[0], at.server).0, ids[1..], at);
    }
  }

  lemma {:induction false} AcquireEachKeeps(s: Store, seats: seq<Seat>, ttl: Ttl, at: Clock, acquired: seq<nat>)
    requires StoreOk(s)
    ensures StoreOk(AcquireEach(s, seats, ttl, at, acquired).0)
    decreases |seats|
  {
    if seats != [] {
      var (next, hold) := Acquire(s, seats[0].key, seats[0].span, ttl, at);
      AcquireKeeps(s, seats[0].key, seats[0].span, ttl, at);
      if hold.Some? {
        AcquireEachKeeps(next, seats[1..], ttl, at, acquired + [hold.value.id]);
      } else {
        ReleaseEachKeeps(next, acquired, at);
      }
    }
  }

  /** Only the hashes, the registry and the id counter matter to `StoreOk`. */
  lemma SameHashes(s: Store, t: Store)
    requires StoreOk(s) && t.hashes == s.hashes && t.registry == s.registry && t.nextId >= s.nextId
    ensures StoreOk(t)
  {
    forall key | key in t.hashes
      ensures HashOk(t.hashes[key], t.nextId)
    {
      assert HashOk(s.hashes[key], s.nextId);
    }
  }

  lemma AcquireItineraryKeeps(s: Store, seats: seq<Seat>, ttl: Ttl, at: Clock)
    requires StoreOk(s)
    ensures StoreOk(AcquireItinerary(s, seats, ttl, at).0)
  {
    AcquireEachKeeps(s, seats, ttl, at, []);
    SameHashes(AcquireEach(s, seats, ttl, at, []).0, AcquireItinerary(s, seats, ttl, at).0);
  }

  lemma ReleaseItineraryKeeps(s: Store, group: nat, at: Clock)
    requires StoreOk(s)
    ensures StoreOk(ReleaseItinerary(s, group, at.server).0)
  {
    if MembersOf(s, group, at.server).Some? {
      var ids := MembersOf(s, group, at.server).value;
      ReleaseEachKeeps(s, ids, at);
      SameHashes(ReleaseEach(s, ids, at.server), ReleaseItinerary(s, group, at.server).0);
    }
  }

  lemma StepKeepsStore(s: Store, step: Step)
    requires StoreOk(s)
    ensures StoreOk(Next(s, step))
  {
    match step
    case StepAcquire(key, span, ttl, at) => AcquireKeeps(s, key, span, ttl, at);
    case StepRelease(id, at) => ReleaseKeeps(s, id, at);
    case StepAcquireItinerary(seats, ttl, at) => AcquireItineraryKeeps(s, seats, ttl, at);
    case StepReleaseItinerary(id, at) => ReleaseItineraryKeeps(s, id, at);
    case StepRead(trip, at) => SameHashes(s, Next(s, step));
  }

  lemma {:induction false} RunKeepsStore(s: Store, steps: seq<Step>)
    requires StoreOk(s)
    ensures StoreOk(Run(s, steps))
    decreases |steps|
  {
    if steps != [] {
      StepKeepsStore(s, steps[0]);
      RunKeepsStore(Next(s, steps[0]), steps[1..]);
    }
  }

  /** For any clock readings at all, however the processes' clocks and the server's differ, the holds
      listed on one seat are pairwise disjoint. */
  lemma EveryRunIsExclusive(steps: seq<Step>, key: Key, i: nat, j: nat)
    requires key in Run(EMPTY, steps).hashes
    requires i < j < |Run(EMPTY, steps).hashes[key].fields|
    ensures var fields := Run(EMPTY, steps).hashes[key].fields;
            !HalvesOverlap(fields[i].mask, fields[j].mask) && fields[i].id != fields[j].id
  {
    RunKeepsStore(EMPTY, steps);
    var h := Run(EMPTY, steps).hashes[key];
    assert HashOk(h, Run(EMPTY, steps).nextId);
    ExclusiveMeans(h.fields, i, j);
  }

  // ---- how long a seat's key lives -----------------------------------------------------------------------

  /** The reading is at most `ahead` ahead of the server. */
  ghost predicate Within(at: Clock, ahead: int) {
    at.now - at.server <= ahead
  }

  ghost predicate AllWithin(steps: seq<Step>, ahead: int) {
    forall i :: 0 <= i < |steps| ==> Within(steps[i].at, ahead)
  }

  ghost predicate HashOutlives(h: Hash, ahead: int) {
    forall f <- h.fields :: f.exp - ahead <= h.deadline
  }

  /** Counted on the server's clock, no key goes before any of its fields less `ahead`. */
  ghost predicate Outlives(s: Store, ahead: int) {
    forall key <- s.hashes :: HashOutlives(s.hashes[key], ahead)
  }

  lemma FewerOutlive(s: Store, key: Key, fields: seq<Field>, ahead: int)
    requires Outlives(s, ahead) && (key in s.hashes ==> forall f <- fields :: f in s.hashes[key].fields)
    ensures Outlives(SetFields(s, key, fields), ahead)
  {
    if key in s.hashes {
      var t := SetFields(s, key, fields);
      forall k | k in t.hashes
        ensures HashOutlives(t.hashes[k], ahead)
      {
        assert HashOutlives(s.hashes[k], ahead);
      }
    }
  }

  lemma AdmitOutlives(s: Store, key: Key, live: seq<Field>, mask: Halves, ttl: Ttl, at: Clock, ahead: int)
    requires Outlives(s, ahead) && Within(at, ahead)
    ensures Outlives(Admit(s, key, live, mask, ttl, at), ahead)
  {
    var t := Admit(s, key, live, mask, ttl, at);
    forall k | k in t.hashes
      ensures HashOutlives(t.hashes[k], ahead)
    {
      assert k != key ==> HashOutlives(s.hashes[k], ahead);
    }
  }

  lemma AcquireOutlives(s: Store, key: Key, span: Span, ttl: Ttl, at: Clock, ahead: int)
    requires Outlives(s, ahead) && Within(at, ahead)
    ensures Outlives(Acquire(s, key, span, ttl, at).0, ahead)
  {
    var live := Live(Visible(s, key, at.server), at.now);
    AdmitOutlives(s, key, live, Split(Mask(span)), ttl, at, ahead);
    FewerOutlive(s, key, live, ahead);
  }

  lemma ReleaseOutlives(s: Store, id: nat, server: int, ahead: int)
    requires Outlives(s, ahead)
    ensures Outlives(Release(s, id, server).0, ahead)
  {
    if Release(s, id, server).1 {
      var key := s.registry[id].key;
      FewerOutlive(s, key, Without(Visible(s, key, server), id), ahead);
    }
  }

  lemma {:induction false} ReleaseEachOutlives(s: Store, ids: seq<nat>, server: int, ahead: int)
    requires Outlives(s, ahead)
    ensures Outlives(ReleaseEach(s, ids, server), ahead)
    decreases |ids|
  {
    if ids != [] {
      ReleaseOutlives(s, ids[0], server, ahead);
      ReleaseEachOutlives(Release(s, ids[0], server).0, ids[1..], server, ahead);
    }
  }

  lemma {:induction false} AcquireEachOutlives(
    s: Store, seats: seq<Seat>, ttl: Ttl, at: Clock, acquired: seq<nat>, ahead: int)
    requires Outlives(s, ahead) && Within(at, ahead)
    ensures Outlives(AcquireEach(s, seats, ttl, at, acquired).0, ahead)
    decreases |seats|
  {
    if seats != [] {
      var (next, hold) := Acquire(s, seats[0].key, seats[0].span, ttl, at);
      AcquireOutlives(s, seats[0].key, seats[0].span, ttl, at, ahead);
      if hold.Some? {
        AcquireEachOutlives(next, seats[1..], ttl, at, acquired + [hold.value.id], ahead);
      } else {
        ReleaseEachOutlives(next, acquired, at.server, ahead);
      }
    }
  }

  lemma StepOutlives(s: Store, step: Step, ahead: int)
    requires Outlives(s, ahead) && Within(step.at, ahead)
    ensures Outlives(Next(s, step), ahead)
  {
    match step
    case StepAcquire(key, span, ttl, at) => AcquireOutlives(s, key, span, ttl, at, ahead);
    case StepRelease(id, at) => ReleaseOutlives(s, id, at.server, ahead);
    case StepAcquireItinerary(seats, ttl, at) => AcquireEachOutlives(s, seats, ttl, at, [], ahead);
    case StepReleaseItinerary(id, at) =>
      if MembersOf(s, id, at.server).Some? {
        ReleaseEachOutlives(s, MembersOf(s, id, at.server).value, at.server, ahead);
      }
    case StepRead(trip, at) =>
  }

  lemma {:induction false} RunOutlives(s: Store, steps: seq<Step>, ahead: int)
    requires Outlives(s, ahead) && AllWithin(steps, ahead)
    ensures Outlives(Run(s, steps), ahead)
    decreases |steps|
  {
    if steps != [] {
      StepOutlives(s, steps[0], ahead);
      assert forall i :: 0 <= i < |steps[1..]| ==> steps[1..][i] == steps[i + 1];
      RunOutlives(Next(s, steps[0]), steps[1..], ahead);
    }
  }

  /** With no reading more than `ahead` ahead of the server, a seat's key outlives, on the server's
      clock, each of its entries less `ahead`; with readings in step, each of its entries. */
  lemma EveryKeyOutlives(steps: seq<Step>, ahead: int, key: Key, f: Field)
    requires AllWithin(steps, ahead) && key in Run(EMPTY, steps).hashes && f in Run(EMPTY, steps).hashes[key].fields
    ensures f.exp - ahead <= Run(EMPTY, steps).hashes[key].deadline
  {
    RunOutlives(EMPTY, steps, ahead);
    assert HashOutlives(Run(EMPTY, steps).hashes[key], ahead);
  }

  // ---- an admitted hold excludes every overlapping one until it expires or is released -------------------

  ghost predicate Holding(s: Store, key: Key, f: Field) {
    key in s.hashes && f in s.hashes[key].fields
  }

  predicate Releases(s: Store, step: Step, id: nat) {
    match step
    case StepRelease(released, _) => released == id
    case StepReleaseItinerary(group, at) =>
      var members := MembersOf(s, group, at.server);
      members.Some? && id in members.value
    case _ => false
  }

  /** The server has not come within `ahead` of the field's expiry, and the reading is no further ahead. */
  ghost predicate Early(at: Clock, f: Field, ahead: int) {
    Within(at, ahead) && at.server < f.exp - ahead
  }

  /** Every call of the run is early, and none of them releases the hold. */
  ghost predicate Undisturbed(s: Store, steps: seq<Step>, f: Field, ahead: int)
    decreases |steps|
  {
    steps == []
    || (Early(steps[0].at, f, ahead) && !Releases(s, steps[0], f.id) && Undisturbed(Next(s, steps[0]), steps[1..], f, ahead))
  }

  /** Holding, in a store that is sound and whose keys live long enough. */
  ghost predicate Keeping(s: Store, key: Key, f: Field, ahead: int) {
    StoreOk(s) && Outlives(s, ahead) && Holding(s, key, f)
  }

  lemma HoldingIsVisible(s: Store, key: Key, f: Field, at: Clock, ahead: int)
    requires Keeping(s, key, f, ahead) && Early(at, f, ahead)
    ensures f in Live(Visible(s, key, at.server), at.now) && f.id < s.nextId
  {
    assert HashOk(s.hashes[key], s.nextId) && HashOutlives(s.hashes[key], ahead);
  }

  lemma AcquireLeaves(s: Store, key: Key, span: Span, ttl: Ttl, at: Clock, held: Key, f: Field, ahead: int)
    requires Keeping(s, held, f, ahead) && Early(at, f, ahead)
    ensures Keeping(Acquire(s, key, span, ttl, at).0, held, f, ahead)
    ensures Acquire(s, key, span, ttl, at).1.Some? ==> Acquire(s, key, span, ttl, at).1.value.id > f.id
  {
    HoldingIsVisible(s, held, f, at, ahead);
    AcquireKeeps(s, key, span, ttl, at);
    AcquireOutlives(s, key, span, ttl, at, ahead);
  }

  lemma DropLeaves(s: Store, id: nat, key: Key, server: int, held: Key, f: Field)
    requires Holding(s, held, f) && f in Visible(s, held, server) && id != f.id
    ensures Holding(Drop(s, id, key, server), held, f)
  {
    var rest := Without(Visible(s, key, server), id);
    assert Drop(s, id, key, server).hashes == SetFields(s, key, rest).hashes;
    assert key == held ==> f in rest;
  }

  lemma ReleaseLeaves(s: Store, id: nat, at: Clock, held: Key, f: Field, ahead: int)
    requires Keeping(s, held, f, ahead) && Early(at, f, ahead) && id != f.id
    ensures Keeping(Release(s, id, at.server).0, held, f, ahead)
  {
    ReleaseKeeps(s, id, at);
    ReleaseOutlives(s, id, at.server, ahead);
    HoldingIsVisible(s, held, f, at, ahead);
    if Release(s, id, at.server).1 {
      DropLeaves(s, id, s.registry[id].key, at.server, held, f);
    }
  }

  lemma {:induction false} ReleaseEachLeaves(s: Store, ids: seq<nat>, at: Clock, held: Key, f: Field, ahead: int)
    requires Keeping(s, held, f, ahead) && Early(at, f, ahead) && f.id !in ids
    ensures Keeping(ReleaseEach(s, ids, at.server), held, f, ahead)
    decreases |ids|
  {
    if ids != [] {
      ReleaseLeaves(s, ids[0], at, held, f, ahead);
      ReleaseEachLeaves(Release(s, ids[0], at.server).0, ids[1..], at, held, f, ahead);
    }
  }

  lemma {:induction false} AcquireEachLeaves(
    s: Store, seats: seq<Seat>, ttl: Ttl, at: Clock, acquired: seq<nat>, held: Key, f: Field, ahead: int)
    requires Keeping(s, held, f, ahead) && Early(at, f, ahead) && f.id !in acquired
    ensures Keeping(AcquireEach(s, seats, ttl, at, acquired).0, held, f, ahead)
    decreases |seats|
  {
    if seats != [] {
      var (next, hold) := Acquire(s, seats[0].key, seats[0].span, ttl, at);
      AcquireLeaves(s, seats[0].key, seats[0].span, ttl, at, held, f, ahead);
      if hold.Some? {
        AcquireEachLeaves(next, seats[1..], ttl, at, acquired + [hold.value.id], held, f, ahead);
      } else {
        ReleaseEachLeaves(next, acquired, at, held, f, ahead);
      }
    }
  }

  lemma SameKeeping(s: Store, t: Store, held: Key, f: Field, ahead: int)
    requires Keeping(s, held, f, ahead) && t.hashes == s.hashes && t.registry == s.registry && t.nextId >= s.nextId
    ensures Keeping(t, held, f, ahead)
  {
    SameHashes(s, t);
  }

  lemma StepLeaves(s: Store, step: Step, held: Key, f: Field, ahead: int)
    requires Keeping(s, held, f, ahead) && Early(step.at, f, ahead) && !Releases(s, step, f.id)
    ensures Keeping(Next(s, step), held, f, ahead)
  {
    match step
    case StepAcquire(key, span, ttl, at) => AcquireLeaves(s, key, span, ttl, at, held, f, ahead);
    case StepRelease(id, at) => ReleaseLeaves(s, id, at, held, f, ahead);
    case StepAcquireItinerary(seats, ttl, at) =>
      AcquireEachLeaves(s, seats, ttl, at, [], held, f, ahead);
      SameKeeping(AcquireEach(s, seats, ttl, at, []).0, Next(s, step), held, f, ahead);
    case StepReleaseItinerary(id, at) =>
      if MembersOf(s, id, at.server).Some? {
        var ids := MembersOf(s, id, at.server).value;
        ReleaseEachLeaves(s, ids, at, held, f, ahead);
        SameKeeping(ReleaseEach(s, ids, at.server), Next(s, step), held, f, ahead);
      }
    case StepRead(trip, at) => SameKeeping(s, Next(s, step), held, f, ahead);
  }

  lemma {:induction false} RunLeaves(s: Store, steps: seq<Step>, held: Key, f: Field, ahead: int)
    requires Keeping(s, held, f, ahead) && Undisturbed(s, steps, f, ahead)
    ensures Keeping(Run(s, steps), held, f, ahead)
    decreases |steps|
  {
    if steps != [] {
      StepLeaves(s, steps[0], held, f, ahead);
      RunLeaves(Next(s, steps[0]), steps[1..], held, f, ahead);
    }
  }

  /** The field an admitted hold leaves behind. */
  function AdmittedField(s: Store, span: Span, ttl: Ttl, at: Clock): Field {
    Field(s.nextId, at.now + ttl, Split(Mask(span)))
  }

  lemma HeldSeatRefuses(s: Store, key: Key, f: Field, span: Span, other: Span, ttl: Ttl, at: Clock, ahead: int)
    requires Keeping(s, key, f, ahead) && Early(at, f, ahead)
    requires f.mask == Split(Mask(span)) && IntervalsOverlap(span, other)
    ensures Acquire(s, key, other, ttl, at).1.None?
  {
    HoldingIsVisible(s, key, f, at, ahead);
    AdmittedIff(s, key, other, ttl, at);
    SplitOverlapIsIntervalOverlap(span, other);
  }

  lemma AdmittedIsKept(s: Store, key: Key, span: Span, ttl: Ttl, at: Clock, ahead: int)
    requires StoreOk(s) && Outlives(s, ahead) && Within(at, ahead) && Acquire(s, key, span, ttl, at).1.Some?
    ensures Keeping(Acquire(s, key, span, ttl, at).0, key, AdmittedField(s, span, ttl, at), ahead)
  {
    AcquireKeeps(s, key, span, ttl, at);
    AcquireOutlives(s, key, span, ttl, at, ahead);
    AdmittedIsListed(s, key, span, ttl, at);
  }

  lemma AdmittedIsListed(s: Store, key: Key, span: Span, ttl: Ttl, at: Clock)
    requires Acquire(s, key, span, ttl, at).1.Some?
    ensures Holding(Acquire(s, key, span, ttl, at).0, key, AdmittedField(s, span, ttl, at))
  {
    var live := Live(Visible(s, key, at.server), at.now);
    assert Acquire(s, key, span, ttl, at).0 == Admit(s, key, live, Split(Mask(span)), ttl, at);
  }

  /** A hold stamped to expire at `at.now + ttl` makes every overlapping `acquire` on that seat fail,
      whatever else runs in between, until its release or until the server comes within `ahead` of its
      expiry, where no reading of the run is more than `ahead` ahead of the server. For readings in step
      with the server, a common offset allowed, that is until the reading reaches the expiry itself. */
  lemma HoldExcludes(
    before: seq<Step>, key: Key, span: Span, ttl: Ttl, at: Clock, between: seq<Step>,
    other: Span, otherTtl: Ttl, later: Clock, ahead: int)
    requires AllWithin(before, ahead) && Within(at, ahead)
    requires Acquire(Run(EMPTY, before), key, span, ttl, at).1.Some?
    requires var s := Run(EMPTY, before);
             var f := AdmittedField(s, span, ttl, at);
             Undisturbed(Acquire(s, key, span, ttl, at).0, between, f, ahead) && Early(later, f, ahead)
    requires IntervalsOverlap(span, other)
    ensures Acquire(Run(Acquire(Run(EMPTY, before), key, span, ttl, at).0, between), key, other, otherTtl, later).1.None?
  {
    var s := Run(EMPTY, before);
    var f := AdmittedField(s, span, ttl, at);
    var t := Acquire(s, key, span, ttl, at).0;
    RunKeepsStore(EMPTY, before);
    RunOutlives(EMPTY, before, ahead);
    AdmittedIsKept(s, key, span, ttl, at, ahead);
    RunLeaves(t, between, key, f, ahead);
    HeldSeatRefuses(Run(t, between), key, f, span, other, otherTtl, later, ahead);
  }

  // ---- the bound is tight ------------------------------------------------------------------------------------

  /** Two holds side by side, the second by a process `ahead` ahead of the server. */
  function ShortenedRun(key: Key, span: Span, ttl: Ttl, beside: Span, short: Ttl, ahead: int): seq<Step> {
    [StepAcquire(key, span, ttl, Clock(0, 0)), StepAcquire(key, beside, short, Clock(ahead, 0))]
  }

  lemma FirstHold(key: Key, span: Span, ttl: Ttl)
    ensures Acquire(EMPTY, key, span, ttl, Clock(0, 0)).1 == Some(Hold(0, ttl))
    ensures key in Acquire(EMPTY, key, span, ttl, Clock(0, 0)).0.hashes
    ensures Acquire(EMPTY, key, span, ttl, Clock(0, 0)).0.hashes.Keys == {key}
    ensures Acquire(EMPTY, key, span, ttl, Clock(0, 0)).0.hashes[key] == Hash([Field(0, ttl, Split(Mask(span)))], ttl)
  {
    AdmittedIff(EMPTY, key, span, ttl, Clock(0, 0));
    assert Live([], 0) == [];
    assert [] + [Field(0, ttl, Split(Mask(span)))] == [Field(0, ttl, Split(Mask(span)))];
  }

  lemma SecondHold(s: Store, key: Key, f: Field, beside: Span, short: Ttl, ahead: int)
    requires key in s.hashes && s.hashes[key] == Hash([f], f.exp) && f.exp > 0
    requires 0 <= ahead && ahead + short <= f.exp && !HalvesOverlap(f.mask, Split(Mask(beside)))
    ensures var t := Acquire(s, key, beside, short, Clock(ahead, 0)).0;
            Holding(t, key, f) && t.hashes[key].deadline == f.exp - ahead
  {
    var at := Clock(ahead, 0);
    AdmittedIff(s, key, beside, short, at);
    assert [f][..0] == [];
    assert Live([f], ahead) == [f];
    assert LatestExpiry([f], ahead + short) == f.exp;
  }

  lemma GoneKeyAdmits(s: Store, key: Key, span: Span, ttl: Ttl, at: Clock)
    requires key in s.hashes ==> s.hashes[key].deadline <= at.server
    ensures Acquire(s, key, span, ttl, at).1.Some?
  {
    AdmittedIff(s, key, span, ttl, at);
  }

  lemma RunOfTwo(s: Store, first: Step, second: Step)
    ensures Run(s, [first, second]) == Next(Next(s, first), second)
  {
    var steps := [first, second];
    assert steps[1..][0] == second && steps[1..][1..] == [];
    assert Run(Next(s, first), steps[1..]) == Next(Next(s, first), second);
  }

  /** However little a process may be ahead, exactly then exclusion can end: after its hold beside the
      first, the key is gone once the server reaches the first hold's expiry less `ahead`, and a process
      in step with the server is admitted, for any span, over a hold that has not expired. */
  lemma AheadReadingEndsHold(
    key: Key, span: Span, ttl: Ttl, beside: Span, short: Ttl, ahead: int, other: Span, otherTtl: Ttl)
    requires 1 <= ahead && ahead + short <= ttl && !IntervalsOverlap(span, beside)
    ensures AllWithin(ShortenedRun(key, span, ttl, beside, short, ahead), ahead)
    ensures Holding(Run(EMPTY, ShortenedRun(key, span, ttl, beside, short, ahead)), key, Field(0, ttl, Split(Mask(span))))
    ensures Acquire(Run(EMPTY, ShortenedRun(key, span, ttl, beside, short, ahead)), key, other, otherTtl,
                    Clock(ttl - ahead, ttl - ahead)).1.Some?
  {
    var first, second := StepAcquire(key, span, ttl, Clock(0, 0)), StepAcquire(key, beside, short, Clock(ahead, 0));
    var a := Next(EMPTY, first);
    FirstHold(key, span, ttl);
    SplitOverlapIsIntervalOverlap(span, beside);
    SecondHold(a, key, Field(0, ttl, Split(Mask(span))), beside, short, ahead);
    RunOfTwo(EMPTY, first, second);
    GoneKeyAdmits(Next(a, second), key, other, otherTtl, Clock(ttl - ahead, ttl - ahead));
  }
}
