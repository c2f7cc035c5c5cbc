/** The hold store itself (crates/lulan-engine/src/inventory/holds.rs), updated in place: the
admission script's scan, the rollback loop and the pruning reader, each proved to do what the
function of the same name in `Holds` says. */
module HoldStores {
  import opened Outcomes
  import opened Segments
  import opened Holds

  class HoldStore {
    var hashes: map<Key, Hash>
    var indexes: map<nat, Index>
    var registry: map<nat, Registration>
    var itineraries: map<nat, Itinerary>
    var nextId: nat

    ghost function View(): Store
      reads this
    {
      Store(hashes, indexes, registry, itineraries, nextId)
    }

    constructor ()
      ensures View() == EMPTY
    {
      hashes, indexes, registry, itineraries, nextId := map[], map[], map[], map[], 0;
    }

    method HashFields(key: Key, server: int) returns (fields: seq<Field>)
      ensures fields == Visible(View(), key, server)
    {
      fields := [];
      if key in hashes {
        if hashes[key].deadline > server {
          fields := hashes[key].fields;
        }
      }
    }

    method IndexMembers(trip: nat, server: int) returns (units: set<nat>)
      ensures units == VisibleIndex(View(), trip, server)
    {
      units := {};
      if trip in indexes {
        if indexes[trip].deadline > server {
          units := indexes[trip].units;
        }
      }
    }

    method RemoveFromIndex(trip: nat, units: set<nat>)
      modifies this`indexes
      ensures View() == Unindex(old(View()), trip, units)
    {
      if trip in indexes {
        indexes := indexes[trip := indexes[trip].(units := indexes[trip].units - units)];
      }
    }

    /** The script's loop over HGETALL: live fields, the union of their masks, the latest expiry. */
    static method Scan(fields: seq<Field>, ttl: Ttl, now: int)
      returns (kept: seq<Field>, union: Halves, maxExp: int)
      ensures kept == Live(fields, now)
      ensures union == UnionOf(kept) && maxExp == LatestExpiry(kept, now + ttl)
    {
      kept, union, maxExp := [], NO_HALVES, now + ttl;
      for i := 0 to |fields|
        invariant kept == Live(fields[..i], now)
        invariant union == UnionOf(kept) && maxExp == LatestExpiry(kept, now + ttl)
      {
        assert fields[..i + 1][..i] == fields[..i];
        if fields[i].exp > now {
          assert (kept + [fields[i]])[..|kept|] == kept;
          union := OrHalves(union, fields[i].mask);
          if fields[i].exp > maxExp {
            maxExp := fields[i].exp;
          }
          kept := kept + [fields[i]];
        }
      }
      assert fields[..|fields|] == fields;
    }

    /** HSET, PEXPIRE, SADD, PEXPIRE and the registry's SET. */
    method Record(key: Key, kept: seq<Field>, mask: Halves, maxExp: int, ttl: Ttl, at: Clock) returns (id: nat)
      requires maxExp == LatestExpiry(kept, at.now + ttl)
      modifies this
      ensures id == old(nextId) && View() == Admit(old(View()), key, kept, mask, ttl, at)
    {
      id := nextId;
      nextId := nextId + 1;
      hashes := hashes[key := Hash(kept + [Field(id, at.now + ttl, mask)], at.server + (maxExp - at.now))];
      var members := IndexMembers(key.trip, at.server);
      indexes := indexes[key.trip := Index(members + {key.unit}, at.server + ttl * INDEX_TTL_MULTIPLIER)];
      registry := registry[id := Registration(key, at.server + ttl)];
    }

    method Rewrite(key: Key, fields: seq<Field>)
      modifies this`hashes
      ensures View() == SetFields(old(View()), key, fields)
    {
      if key in hashes {
        hashes := hashes[key := hashes[key].(fields := fields)];
      }
    }

    /** The script after its scan, with what the scan found. */
    method Decide(key: Key, kept: seq<Field>, union: Halves, maxExp: int, mask: Halves, ttl: Ttl, at: Clock)
      returns (hold: Option<Hold>)
      requires union == UnionOf(kept) && maxExp == LatestExpiry(kept, at.now + ttl)
      modifies this
      ensures (View(), hold) == Judge(old(View()), key, kept, mask, ttl, at)
    {
      if HalvesOverlap(union, mask) {
        Rewrite(key, kept);
        return None;
      }
      var id := Record(key, kept, mask, maxExp, ttl, at);
      hold := Some(Hold(id, at.now + ttl));
    }

    method Acquire(key: Key, span: Span, ttl: Ttl, at: Clock) returns (hold: Option<Hold>)
      modifies this
      ensures (View(), hold) == Holds.Acquire(old(View()), key, span, ttl, at)
    {
      var mask := Split(Mask(span));
      var fields := HashFields(key, at.server);
      var kept, union, maxExp := Scan(fields, ttl, at.now);
      hold := Decide(key, kept, union, maxExp, mask, ttl, at);
    }

    static method Others(fields: seq<Field>, id: nat) returns (rest: seq<Field>)
      ensures rest == Without(fields, id)
    {
      rest := [];
      for i := 0 to |fields|
        invariant rest == Without(fields[..i], id)
      {
        assert fields[..i + 1][..i] == fields[..i];
        if fields[i].id != id {
          rest := rest + [fields[i]];
        }
      }
      assert fields[..|fields|] == fields;
    }

    method Release(id: nat, server: int) returns (released: bool)
      modifies this
      ensures (View(), released) == Holds.Release(old(View()), id, server)
    {
      if id !in registry || registry[id].deadline <= server {
        return false;
      }
      var key := registry[id].key;
      var fields := HashFields(key, server);
      var rest := Others(fields, id);
      Rewrite(key, rest);
      if rest == [] {
        RemoveFromIndex(key.trip, {key.unit});
      }
      registry := registry - {id};
      released := true;
    }

    method ReleaseAll(ids: seq<nat>, server: int)
      modifies this
      ensures View() == ReleaseEach(old(View()), ids, server)
    {
      for i := 0 to |ids|
        invariant ReleaseEach(View(), ids[i..], server) == ReleaseEach(old(View()), ids, server)
      {
        assert ids[i..][1..] == ids[i + 1..];
        var _ := Release(ids[i], server);
      }
    }

    method AcquireSeats(seats: seq<Seat>, ttl: Ttl, at: Clock) returns (members: Option<seq<nat>>)
      modifies this
      ensures (View(), members) == AcquireEach(old(View()), seats, ttl, at, [])
    {
      var acquired := [];
      for i := 0 to |seats|
        invariant AcquireEach(View(), seats[i..], ttl, at, acquired) == AcquireEach(old(View()), seats, ttl, at, [])
      {
        assert seats[i..][0] == seats[i] && seats[i..][1..] == seats[i + 1..];
        var taken := Acquire(seats[i].key, seats[i].span, ttl, at);
        if taken.None? {
          ReleaseAll(acquired, at.server);
          return None;
        }
        acquired := acquired + [taken.value.id];
      }
      members := Some(acquired);
    }

    method SaveItinerary(members: Option<seq<nat>>, ttl: Ttl, at: Clock) returns (hold: Option<Hold>)
      modifies this`itineraries, this`nextId
      ensures (View(), hold) == Grouped(old(View()), members, ttl, at)
    {
      if members.None? {
        return None;
      }
      hold := Some(Hold(nextId, at.now + ttl));
      itineraries := itineraries[nextId := Itinerary(members.value, at.server + ttl)];
      nextId := nextId + 1;
    }

    method AcquireItinerary(seats: seq<Seat>, ttl: Ttl, at: Clock) returns (hold: Option<Hold>)
      modifies this
      ensures (View(), hold) == Holds.AcquireItinerary(old(View()), seats, ttl, at)
    {
      var members := AcquireSeats(seats, ttl, at);
      hold := SaveItinerary(members, ttl, at);
    }

    method ReleaseItinerary(group: nat, server: int) returns (released: bool)
      modifies this
      ensures (View(), released) == Holds.ReleaseItinerary(old(View()), group, server)
    {
      if group !in itineraries || itineraries[group].deadline <= server {
        return false;
      }
      ReleaseAll(itineraries[group].members, server);
      itineraries := itineraries - {group};
      released := true;
    }

    method UnionFor(trip: nat, unit: nat, at: Clock) returns (union: Word)
      ensures union == HeldMask(View(), trip, unit, at)
    {
      var fields := HashFields(Key(trip, unit), at.server);
      union := ZERO;
      for i := 0 to |fields|
        invariant union == LiveUnion(fields[..i], at.now)
      {
        assert fields[..i + 1][..i] == fields[..i];
        if fields[i].exp > at.now {
          union := Or(union, Join(fields[i].mask));
        }
      }
      assert fields[..|fields|] == fields;
    }

    method LiveHeldUnits(trip: nat, at: Clock) returns (live: map<nat, Word>)
      modifies this
      ensures (View(), live) == Holds.LiveHeldUnits(old(View()), trip, at)
    {
      var members := IndexMembers(trip, at.server);
      var todo, stale := members, {};
      live := map[];
      while todo != {}
        invariant todo <= members && View() == old(View())
        invariant live == LiveAmong(View(), trip, members - todo, at)
        invariant stale == (members - todo) - live.Keys
      {
        var unit :| unit in todo;
        var union := UnionFor(trip, unit, at);
        todo := todo - {unit};
        if union == ZERO {
          stale := stale + {unit};
        } else {
          live := live[unit := union];
        }
      }
      assert members - {} == members;
      RemoveFromIndex(trip, stale);
    }

    method HeldUnits(trip: nat, span: Span, at: Clock) returns (units: set<nat>)
      modifies this
      ensures (View(), units) == Holds.HeldUnits(old(View()), trip, span, at)
    {
      var live := LiveHeldUnits(trip, at);
      units := set unit | unit in live && And(live[unit], Mask(span)) != ZERO;
    }

    method HeldUnitCount(trip: nat, accurateAbove: nat, at: Clock) returns (count: nat)
      modifies this
      ensures (View(), count) == Holds.HeldUnitCount(old(View()), trip, accurateAbove, at)
    {
      var members := IndexMembers(trip, at.server);
      if |members| < accurateAbove {
        return |members|;
      }
      var live := LiveHeldUnits(trip, at);
      count := |live|;
    }
  }
}
