/** Soft holds (crates/lulan-engine/src/inventory/holds.rs): a lock table whose entries expire.

A unit's hash lists its holds as (id, expiry, two mask halves); the per-trip index lists the units
that may carry one; the registry maps a hold id to its unit. Every key has a deadline, after which
Redis no longer shows it.

Two clocks are involved. Entries are stamped with, and pruned by, the reading the API process took;
key deadlines run on the Redis server's own clock. Each call carries both, and nothing below supposes
that they agree or that readings grow unless a lemma says so. */
module Holds {
  import opened Outcomes
  import opened Segments

  const INDEX_TTL_MULTIPLIER := 4

  /** Milliseconds; Redis refuses a registry entry that would expire at once. */
  type Ttl = ttl: int | ttl > 0 witness 1

  /** The process's reading and the server's time of one call. */
  datatype Clock = Clock(now: int, server: int)

  datatype Key = Key(trip: nat, unit: nat)

  /** One field of a unit's hash, `expires_ms:mask_hi:mask_lo`. */
  datatype Field = Field(id: nat, exp: int, mask: Halves)

  /** The fields in the order HGETALL lists them. */
  datatype Hash = Hash(fields: seq<Field>, deadline: int)

  datatype Index = Index(units: set<nat>, deadline: int)

  datatype Registration = Registration(key: Key, deadline: int)

  datatype Itinerary = Itinerary(members: seq<nat>, deadline: int)

  datatype Store = Store(
    hashes: map<Key, Hash>,
    indexes: map<nat, Index>,
    registry: map<nat, Registration>,
    itineraries: map<nat, Itinerary>,
    nextId: nat)

  datatype Hold = Hold(id: nat, expiresAt: int)

  datatype Seat = Seat(key: Key, span: Span)

  // ---- the calls, as functions of the store ------------------------------------------------------

  /** What HGETALL shows: a key past its deadline is gone. */
  function Visible(s: Store, key: Key, server: int): seq<Field> {
    if key in s.hashes && s.hashes[key].deadline > server then s.hashes[key].fields else []
  }

  function Live(fields: seq<Field>, now: int): (live: seq<Field>)
    ensures forall f :: f in live <==> f in fields && f.exp > now
  {
    if fields == [] then []
    else
      var last := fields[|fields| - 1];
      assert fields == fields[..|fields| - 1] + [last];
      Live(fields[..|fields| - 1], now) + (if last.exp > now then [last] else [])
  }

  function UnionOf(fields: seq<Field>): Halves {
    if fields == [] then NO_HALVES
    else OrHalves(UnionOf(fields[..|fields| - 1]), fields[|fields| - 1].mask)
  }

  function LatestExpiry(fields: seq<Field>, atLeast: int): (latest: int)
    ensures latest >= atLeast && forall f <- fields :: f.exp <= latest
    ensures latest == atLeast || exists f <- fields :: f.exp == latest
  {
    if fields == [] then atLeast
    else
      var last := fields[|fields| - 1];
      assert fields == fields[..|fields| - 1] + [last];
      var rest := LatestExpiry(fields[..|fields| - 1], atLeast);
      if last.exp > rest then last.exp else rest
  }

  function SetFields(s: Store, key: Key, fields: seq<Field>): Store {
    if key in s.hashes then s.(hashes := s.hashes[key := s.hashes[key].(fields := fields)]) else s
  }

  function VisibleIndex(s: Store, trip: nat, server: int): set<nat> {
    if trip in s.indexes && s.indexes[trip].deadline > server then s.indexes[trip].units else {}
  }

  /** SREM. */
  function Unindex(s: Store, trip: nat, units: set<nat>): Store {
    if trip in s.indexes then
      s.(indexes := s.indexes[trip := s.indexes[trip].(units := s.indexes[trip].units - units)])
    else s
  }

  /** The writes of an admitted hold: HSET and PEXPIRE, SADD and PEXPIRE, then the registry entry. Each
      deadline is the server's time plus a duration; the hash's is counted on the process's clock. */
  function Admit(s: Store, key: Key, live: seq<Field>, mask: Halves, ttl: Ttl, at: Clock): Store {
    var expiry := at.now + ttl;
    s.(hashes := s.hashes[key := Hash(live + [Field(s.nextId, expiry, mask)], at.server + (LatestExpiry(live, expiry) - at.now))],
       indexes := s.indexes[key.trip :=
         Index(VisibleIndex(s, key.trip, at.server) + {key.unit}, at.server + ttl * INDEX_TTL_MULTIPLIER)],
       registry := s.registry[s.nextId := Registration(key, at.server + ttl)],
       nextId := s.nextId + 1)
  }

  /** The script after its scan: expired fields stay pruned even when the hold is refused. */
  function Judge(s: Store, key: Key, live: seq<Field>, mask: Halves, ttl: Ttl, at: Clock): (Store, Option<Hold>) {
    if HalvesOverlap(UnionOf(live), mask) then (SetFields(s, key, live), None)
    else (Admit(s, key, live, mask, ttl, at), Some(Hold(s.nextId, at.now + ttl)))
  }

  /** `acquire`. */
  function Acquire(s: Store, key: Key, span: Span, ttl: Ttl, at: Clock): (Store, Option<Hold>) {
    Judge(s, key, Live(Visible(s, key, at.server), at.now), Split(Mask(span)), ttl, at)
  }

  /** HDEL. */
  function Without(fields: seq<Field>, id: nat): (rest: seq<Field>)
    ensures forall f :: f in rest <==> f in fields && f.id != id
  {
    if fields == [] then []
    else
      var last := fields[|fields| - 1];
      assert fields == fields[..|fields| - 1] + [last];
      Without(fields[..|fields| - 1], id) + (if last.id != id then [last] else [])
  }

  function Drop(s: Store, id: nat, key: Key, server: int): Store {
    var rest := Without(Visible(s, key, server), id);
    var dropped := SetFields(s, key, rest);
    var indexed := if rest == [] then Unindex(dropped, key.trip, {key.unit}) else dropped;
    indexed.(registry := indexed.registry - {id})
  }

  /** `release`: false when the hold had already expired. It takes no reading of its own. */
  function Release(s: Store, id: nat, server: int): (Store, bool) {
    if id !in s.registry || s.registry[id].deadline <= server then (s, false)
    else (Drop(s, id, s.registry[id].key, server), true)
  }

  function ReleaseEach(s: Store, ids: seq<nat>, server: int): Store
    decreases |ids|
  {
    if ids == [] then s else ReleaseEach(Release(s, ids[0], server).0, ids[1..], server)
  }

  /** The acquire loop; on a refusal, the holds taken so far are released in the order taken. */
  function AcquireEach(s: Store, seats: seq<Seat>, ttl: Ttl, at: Clock, acquired: seq<nat>): (Store, Option<seq<nat>>)
    decreases |seats|
  {
    if seats == [] then (s, Some(acquired))
    else
      var (next, hold) := Acquire(s, seats[0].key, seats[0].span, ttl, at);
      match hold
      case Some(h) => AcquireEach(next, seats[1..], ttl, at, acquired + [h.id])
      case None => (ReleaseEach(next, acquired, at.server), None)
  }

  /** The group's own registry entry, once every seat is held. Only the freshness of its id matters. */
  function Grouped(s: Store, members: Option<seq<nat>>, ttl: Ttl, at: Clock): (Store, Option<Hold>) {
    match members
    case None => (s, None)
    case Some(ids) =>
      (s.(itineraries := s.itineraries[s.nextId := Itinerary(ids, at.server + ttl)], nextId := s.nextId + 1),
       Some(Hold(s.nextId, at.now + ttl)))
  }

  function AcquireItinerary(s: Store, seats: seq<Seat>, ttl: Ttl, at: Clock): (Store, Option<Hold>) {
    var (next, members) := AcquireEach(s, seats, ttl, at, []);
    Grouped(next, members, ttl, at)
  }

  /** `itinerary_raw`. */
  function MembersOf(s: Store, group: nat, server: int): Option<seq<nat>> {
    if group in s.itineraries && s.itineraries[group].deadline > server then Some(s.itineraries[group].members) else None
  }

  function ReleaseItinerary(s: Store, group: nat, server: int): (Store, bool) {
    match MembersOf(s, group, server)
    case None => (s, false)
    case Some(ids) =>
      var next := ReleaseEach(s, ids, server);
      (next.(itineraries := next.itineraries - {group}), true)
  }

  /** The 64-bit union the seat map reads, joining each live field's halves. */
  function LiveUnion(fields: seq<Field>, now: int): Word {
    if fields == [] then ZERO
    else
      var last := fields[|fields| - 1];
      var rest := LiveUnion(fields[..|fields| - 1], now);
      if last.exp > now then Or(rest, Join(last.mask)) else rest
  }

  function HeldMask(s: Store, trip: nat, unit: nat, at: Clock): Word {
    LiveUnion(Visible(s, Key(trip, unit), at.server), at.now)
  }

  function LiveAmong(s: Store, trip: nat, members: set<nat>, at: Clock): map<nat, Word> {
    map unit | unit in members && HeldMask(s, trip, unit, at) != ZERO :: HeldMask(s, trip, unit, at)
  }

  /** `live_held_units`: reads the indexed units and drops the stale ones from the index. */
  function LiveHeldUnits(s: Store, trip: nat, at: Clock): (Store, map<nat, Word>) {
    var members := VisibleIndex(s, trip, at.server);
    var live := LiveAmong(s, trip, members, at);
    (Unindex(s, trip, members - live.Keys), live)
  }

  function HeldUnits(s: Store, trip: nat, span: Span, at: Clock): (Store, set<nat>) {
    var (next, live) := LiveHeldUnits(s, trip, at);
    (next, set unit | unit in live && And(live[unit], Mask(span)) != ZERO)
  }

  /** `held_unit_count`: the index size, recounted when it reaches the threshold. */
  function HeldUnitCount(s: Store, trip: nat, accurateAbove: nat, at: Clock): (Store, nat) {
    var approximate := |VisibleIndex(s, trip, at.server)|;
    if approximate < accurateAbove then (s, approximate)
    else
      var (next, live) := LiveHeldUnits(s, trip, at);
      (next, |live|)
  }

  // ---- runs ------------------------------------------------------------------------------------------

  /** One call and its clocks. */
  datatype Step =
    | StepAcquire(key: Key, span: Span, ttl: Ttl, at: Clock)
    | StepRelease(id: nat, at: Clock)
    | StepAcquireItinerary(seats: seq<Seat>, ttl: Ttl, at: Clock)
    | StepReleaseItinerary(id: nat, at: Clock)
    | StepRead(trip: nat, at: Clock)

  function Next(s: Store, step: Step): Store {
    match step
    case StepAcquire(key, span, ttl, at) => Acquire(s, key, span, ttl, at).0
    case StepRelease(id, at) => Release(s, id, at.server).0
    case StepAcquireItinerary(seats, ttl, at) => AcquireItinerary(s, seats, ttl, at).0
    case StepReleaseItinerary(id, at) => ReleaseItinerary(s, id, at.server).0
    case StepRead(trip, at) => LiveHeldUnits(s, trip, at).0
  }

  function Run(s: Store, steps: seq<Step>): Store
    decreases |steps|
  {
    if steps == [] then s else Run(Next(s, steps[0]), steps[1..])
  }

  const EMPTY := Store(map[], map[], map[], map[], 0)
}
