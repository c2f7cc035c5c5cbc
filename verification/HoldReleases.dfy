/** Giving holds back (crates/lulan-engine/src/inventory/holds.rs, release and release_itinerary): a release
frees exactly what it names, and undoes the grant it belongs to. */
module HoldReleases {
  import opened Outcomes
  import opened Segments
  import opened Holds
  import opened HoldSafety
  import opened HoldItineraries

  /** The registry still knows the hold. */
  predicate Known(s: Store, id: nat, server: int) {
    id in s.registry && s.registry[id].deadline > server
  }

  ghost predicate Gone(s: Store, id: nat, server: int) {
    forall key, f: Field :: f in Visible(s, key, server) ==> f.id != id
  }

  /** Every seat shows the same holds as before, those named `ids` aside. */
  ghost predicate OthersStay(s: Store, t: Store, ids: seq<nat>, server: int) {
    forall key, f: Field :: f.id !in ids ==> (f in Visible(t, key, server) <==> f in Visible(s, key, server))
  }

  /** A release answers whether the hold was known; a known one leaves its seat and the registry, and no other
      hold on any seat goes with it. */
  lemma ReleaseFrees(s: Store, id: nat, server: int)
    requires StoreOk(s)
    ensures var (t, released) := Release(s, id, server);
            && (released <==> Known(s, id, server))
            && (released ==> Gone(t, id, server) && t.registry == s.registry - {id} && OthersStay(s, t, [id], server))
            && (!released ==> t == s)
  {
    if Known(s, id, server) {
      var t := Release(s, id, server).0;
      forall key, f | f in Visible(t, key, server)
        ensures f.id != id
      {
        if key != s.registry[id].key {
          assert f in s.hashes[key].fields;
        }
      }
    }
  }

  lemma GoneStays(s: Store, t: Store, id: nat, other: nat, server: int)
    requires Gone(s, id, server) && (t == s || (OthersStay(s, t, [other], server) && Gone(t, other, server)))
    ensures Gone(t, id, server)
  {
    forall key, f | f in Visible(t, key, server)
      ensures f.id != id
    {
      if t != s && f.id != other {
        assert f in Visible(s, key, server);
      }
    }
  }

  lemma {:induction false} GoneStaysGone(s: Store, ids: seq<nat>, id: nat, at: Clock)
    requires StoreOk(s) && Gone(s, id, at.server)
    ensures Gone(ReleaseEach(s, ids, at.server), id, at.server)
    decreases |ids|
  {
    if ids != [] {
      var t := Release(s, ids[0], at.server).0;
      ReleaseFrees(s, ids[0], at.server);
      GoneStays(s, t, id, ids[0], at.server);
      ReleaseKeeps(s, ids[0], at);
      GoneStaysGone(t, ids[1..], id, at);
    }
  }

  lemma OthersStayThen(s: Store, t: Store, u: Store, ids: seq<nat>, server: int)
    requires ids != [] && OthersStay(s, t, [ids[0]], server) && OthersStay(t, u, ids[1..], server)
    ensures OthersStay(s, u, ids, server)
  {
    forall key, f: Field | f.id !in ids
      ensures f in Visible(u, key, server) <==> f in Visible(s, key, server)
    {
      assert f.id != ids[0] && f.id !in ids[1..];
    }
  }

  lemma {:induction false} ReleaseEachFrees(s: Store, ids: seq<nat>, id: nat, at: Clock)
    requires StoreOk(s)
    ensures OthersStay(s, ReleaseEach(s, ids, at.server), ids, at.server)
    ensures id in ids && Known(s, id, at.server) ==> Gone(ReleaseEach(s, ids, at.server), id, at.server)
    decreases |ids|
  {
    if ids != [] {
      var t := Release(s, ids[0], at.server).0;
      ReleaseFrees(s, ids[0], at.server);
      ReleaseKeeps(s, ids[0], at);
      ReleaseEachFrees(t, ids[1..], id, at);
      OthersStayThen(s, t, ReleaseEach(s, ids, at.server), ids, at.server);
      if id == ids[0] && Known(s, id, at.server) {
        GoneStaysGone(t, ids[1..], id, at);
      }
    }
  }

  /** Releasing a group answers whether it was known; then the group is forgotten, every member still known
      leaves its seat, and no other hold does. */
  lemma ItineraryReleaseFrees(s: Store, group: nat, at: Clock, id: nat)
    requires StoreOk(s)
    ensures var (t, released) := ReleaseItinerary(s, group, at.server);
            && (released <==> group in s.itineraries && s.itineraries[group].deadline > at.server)
            && (released ==>
                  var members := s.itineraries[group].members;
                  && t.itineraries == s.itineraries - {group}
                  && OthersStay(s, t, members, at.server)
                  && (id in members && Known(s, id, at.server) ==> Gone(t, id, at.server)))
            && (!released ==> t == s)
  {
    if group in s.itineraries && s.itineraries[group].deadline > at.server {
      var members := s.itineraries[group].members;
      var each := ReleaseEach(s, members, at.server);
      ReleaseEachFrees(s, members, id, at);
      EachKeepsGroups(s, members, at.server);
      var t := ReleaseItinerary(s, group, at.server).0;
      assert forall key :: Visible(t, key, at.server) == Visible(each, key, at.server);
    }
  }

  lemma {:induction false} EachKeepsGroups(s: Store, ids: seq<nat>, server: int)
    ensures ReleaseEach(s, ids, server).itineraries == s.itineraries
    decreases |ids|
  {
    if ids != [] {
      EachKeepsGroups(Release(s, ids[0], server).0, ids[1..], server);
    }
  }

  // ---- what a grant leaves ---------------------------------------------------------------------------------

  /** The ids are new and distinct, and the registry knows each for its seat until its ttl is over. */
  ghost predicate RegisteredFor(s: Store, seats: seq<Seat>, ids: seq<nat>, first: nat, deadline: int) {
    && |ids| == |seats|
    && (forall k :: 0 <= k < |ids| ==>
          first <= ids[k] < s.nextId && ids[k] in s.registry && s.registry[ids[k]] == Registration(seats[k].key, deadline))
    && forall j, k :: 0 <= j < k < |ids| ==> ids[j] < ids[k]
  }

  lemma AcquiredIs(s: Store, key: Key, span: Span, ttl: Ttl, at: Clock)
    ensures var (t, hold) := Acquire(s, key, span, ttl, at);
            hold.Some? ==>
              && hold.value == Hold(s.nextId, at.now + ttl) && t.nextId == s.nextId + 1
              && t.registry == s.registry[s.nextId := Registration(key, at.server + ttl)]
              && t.itineraries == s.itineraries
  {}

  lemma OneMoreRegistered(s: Store, t: Store, seats: seq<Seat>, ids: seq<nat>, first: nat, seat: Seat, deadline: int)
    requires RegisteredFor(s, seats, ids, first, deadline) && first <= s.nextId && t.nextId == s.nextId + 1
    requires t.registry == s.registry[s.nextId := Registration(seat.key, deadline)]
    ensures RegisteredFor(t, seats + [seat], ids + [s.nextId], first, deadline)
  {}

  lemma AcquiredIsRegistered(
    s: Store, all: seq<Seat>, k: nat, ttl: Ttl, at: Clock, ids: seq<nat>, first: nat)
    requires k < |all| && RegisteredFor(s, all[..k], ids, first, at.server + ttl) && first <= s.nextId
    requires Acquire(s, all[k].key, all[k].span, ttl, at).1.Some?
    ensures var (t, hold) := Acquire(s, all[k].key, all[k].span, ttl, at);
            && RegisteredFor(t, all[..k + 1], ids + [hold.value.id], first, at.server + ttl)
            && t.itineraries == s.itineraries && first <= t.nextId
  {
    AcquiredIs(s, all[k].key, all[k].span, ttl, at);
    OneMoreRegistered(s, Acquire(s, all[k].key, all[k].span, ttl, at).0, all[..k], ids, first, all[k], at.server + ttl);
    assert all[..k] + [all[k]] == all[..k + 1];
  }

  lemma EachStep(s: Store, all: seq<Seat>, k: nat, ttl: Ttl, at: Clock, ids: seq<nat>)
    requires k < |all| && AcquireEach(s, all[k..], ttl, at, ids).1.Some?
    ensures var (next, hold) := Acquire(s, all[k].key, all[k].span, ttl, at);
            && hold.Some?
            && AcquireEach(s, all[k..], ttl, at, ids) == AcquireEach(next, all[k + 1..], ttl, at, ids + [hold.value.id])
  {
    assert all[k..][0] == all[k] && all[k..][1..] == all[k + 1..];
  }

  /** The loop from seat `k` on, with the ids of the seats before it. */
  lemma {:induction false} EachIsRegistered(
    s: Store, all: seq<Seat>, k: nat, ttl: Ttl, at: Clock, ids: seq<nat>, first: nat)
    requires k <= |all| && RegisteredFor(s, all[..k], ids, first, at.server + ttl) && first <= s.nextId
    requires AcquireEach(s, all[k..], ttl, at, ids).1.Some?
    ensures var (t, members) := AcquireEach(s, all[k..], ttl, at, ids);
            && RegisteredFor(t, all, members.value, first, at.server + ttl)
            && t.itineraries == s.itineraries && first <= t.nextId
    decreases |all| - k
  {
    if k == |all| {
      assert all[..k] == all && all[k..] == [];
    } else {
      var (next, hold) := Acquire(s, all[k].key, all[k].span, ttl, at);
      EachStep(s, all, k, ttl, at, ids);
      AcquiredIsRegistered(s, all, k, ttl, at, ids, first);
      EachIsRegistered(next, all, k + 1, ttl, at, ids + [hold.value.id], first);
    }
  }

  lemma GroupedIs(s: Store, ids: seq<nat>, ttl: Ttl, at: Clock)
    ensures var (t, hold) := Grouped(s, Some(ids), ttl, at);
            && hold == Some(Hold(s.nextId, at.now + ttl)) && t.nextId == s.nextId + 1 && t.registry == s.registry
            && t.itineraries == s.itineraries[s.nextId := Itinerary(ids, at.server + ttl)]
  {}

  /** A granted itinerary answers a new id and the moment its ttl ends on the process's clock, and is kept, with
      the holds of its seats in order, until it ends on the server's. */
  lemma GrantIsRecorded(s: Store, seats: seq<Seat>, ttl: Ttl, at: Clock)
    requires AcquireItinerary(s, seats, ttl, at).1.Some?
    ensures var (t, hold) := AcquireItinerary(s, seats, ttl, at);
            var group := hold.value.id;
            && hold.value.expiresAt == at.now + ttl && s.nextId <= group < t.nextId
            && group in t.itineraries && t.itineraries - {group} == s.itineraries - {group}
            && t.itineraries[group].deadline == at.server + ttl && group !in t.itineraries[group].members
            && RegisteredFor(t, seats, t.itineraries[group].members, s.nextId, at.server + ttl)
  {
    var (next, members) := AcquireEach(s, seats, ttl, at, []);
    assert AcquireItinerary(s, seats, ttl, at) == Grouped(next, members, ttl, at);
    assert seats[0..] == seats && seats[..0] == [];
    EachIsRegistered(s, seats, 0, ttl, at, [], s.nextId);
    GroupedIs(next, members.value, ttl, at);
  }

  // ---- a release undoes its grant --------------------------------------------------------------------------

  lemma {:induction false} GrantIsAhead(start: Store, s: Store, seats: seq<Seat>, ttl: Ttl, at: Clock, ids: seq<nat>)
    requires StoreOk(s) && AheadBy(start, s, ids, at)
    ensures var (t, members) := AcquireEach(s, seats, ttl, at, ids);
            members.Some? ==> StoreOk(t) && AheadBy(start, t, members.value, at)
    decreases |seats|
  {
    if seats != [] {
      var key, span := seats[0].key, seats[0].span;
      var (next, hold) := Acquire(s, key, span, ttl, at);
      AcquireKeeps(s, key, span, ttl, at);
      if hold.Some? {
        AdmitAhead(start, s, key, span, ttl, at, ids, next);
        GrantIsAhead(start, next, seats[1..], ttl, at, ids + [hold.value.id]);
      }
    }
  }

  ghost predicate SameHolds(s: Store, t: Store) {
    t.hashes == s.hashes && t.registry == s.registry && t.indexes == s.indexes
  }

  lemma ReleaseAlike(s: Store, t: Store, id: nat, server: int)
    requires SameHolds(s, t)
    ensures SameHolds(Release(s, id, server).0, Release(t, id, server).0)
  {
    if Known(s, id, server) {
      var key := s.registry[id].key;
      assert Visible(t, key, server) == Visible(s, key, server);
      assert SameHolds(SetFields(s, key, Without(Visible(s, key, server), id)),
                       SetFields(t, key, Without(Visible(t, key, server), id)));
    }
  }

  lemma {:induction false} ReleaseEachAlike(s: Store, t: Store, ids: seq<nat>, server: int)
    requires SameHolds(s, t)
    ensures SameHolds(ReleaseEach(s, ids, server), ReleaseEach(t, ids, server))
    decreases |ids|
  {
    if ids != [] {
      ReleaseAlike(s, t, ids[0], server);
      ReleaseEachAlike(Release(s, ids[0], server).0, Release(t, ids[0], server).0, ids[1..], server);
    }
  }

  /** Releasing an itinerary right after it was granted leaves every seat's live holds as they were before. */
  lemma ItineraryReleaseUndoesGrant(steps: seq<Step>, seats: seq<Seat>, ttl: Ttl, at: Clock, key: Key)
    requires AcquireItinerary(Run(EMPTY, steps), seats, ttl, at).1.Some?
    ensures var s := Run(EMPTY, steps);
            var (granted, hold) := AcquireItinerary(s, seats, ttl, at);
            var (t, released) := ReleaseItinerary(granted, hold.value.id, at.server);
            released && Live(Visible(t, key, at.server), at.now) == Live(Visible(s, key, at.server), at.now)
  {
    var s := Run(EMPTY, steps);
    var (next, members) := AcquireEach(s, seats, ttl, at, []);
    var (granted, hold) := AcquireItinerary(s, seats, ttl, at);
    RunKeepsStore(EMPTY, steps);
    AheadOfItself(s, at);
    GrantIsAhead(s, s, seats, ttl, at, []);
    RollbackReturns(s, next, members.value, at);
    ReleaseEachAlike(next, granted, members.value, at.server);
    var freed := ReleaseEach(next, members.value, at.server);
    assert SameElsewhere(s, freed, key, [], at);
    OthersOfNone(Visible(freed, key, at.server), at.now);
    assert Visible(ReleaseItinerary(granted, hold.value.id, at.server).0, key, at.server) == Visible(freed, key, at.server);
  }
}
