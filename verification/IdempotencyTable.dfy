/** The key table itself (crates/lulan-api/src/idempotency.rs), updated in place. The contracts say who
may go on to book, who is answered with what, and which rows stay as they were. */
module IdempotencyTable {
  import opened Outcomes
  import opened Idempotency

  /** No row but `slot`'s differs. */
  ghost predicate OnlyAt(before: Table, after: Table, slot: Slot) {
    before - {slot} == after - {slot}
  }

  class Keys {
    var rows: Table

    constructor ()
      ensures rows == map[]
    {
      rows := map[];
    }

    /** Only a completed row answers, and only to the request that completed it. */
    method ReplayIfCompleted(key: Option<nat>, scope: nat, hash: nat)
      returns (answer: Result<Option<Response>, Refusal>)
      ensures forall response :: answer == Ok(Some(response)) <==>
                key.Some? && Slot(scope, key.value) in rows && rows[Slot(scope, key.value)] == Row(hash, Some(response))
      ensures answer.Err? <==>
                && key.Some? && Slot(scope, key.value) in rows
                && rows[Slot(scope, key.value)].stored.Some? && rows[Slot(scope, key.value)].hash != hash
      ensures answer == Idempotency.ReplayIfCompleted(rows, key, scope, hash)
    {
      if key.None? {
        return Ok(None);
      }
      var slot := Slot(scope, key.value);
      if slot !in rows || rows[slot].stored.None? {
        return Ok(None);
      }
      if rows[slot].hash != hash {
        return Err(DifferentRequest);
      }
      answer := Ok(rows[slot].stored);
    }

    /** Of any number of inserts into one slot, only one that finds no row wins. */
    method TryInsert(slot: Slot, hash: nat) returns (inserted: bool)
      modifies this
      ensures inserted <==> slot !in old(rows)
      ensures rows == if inserted then old(rows)[slot := Row(hash, None)] else old(rows)
      ensures (rows, inserted) == Insert(old(rows), slot, hash)
    {
      inserted := slot !in rows;
      if inserted {
        rows := rows[slot := Row(hash, None)];
      }
    }

    /** A row that is there never lets the reader book; one that has gone does. */
    method ReadRow(slot: Slot, hash: nat) returns (reserved: Result<Reserved, Refusal>)
      ensures reserved == Ok(Held(slot)) <==> slot !in rows
      ensures forall response :: reserved == Ok(Replay(response)) <==> slot in rows && rows[slot] == Row(hash, Some(response))
      ensures reserved == Err(DifferentRequest) <==> slot in rows && rows[slot].hash != hash
      ensures reserved == Err(InFlight) <==> slot in rows && rows[slot] == Row(hash, None)
      ensures reserved == Read(rows, slot, hash)
    {
      if slot !in rows {
        return Ok(Held(slot));
      }
      if rows[slot].hash != hash {
        return Err(DifferentRequest);
      }
      if rows[slot].stored.Some? {
        return Ok(Replay(rows[slot].stored.value));
      }
      reserved := Err(InFlight);
    }

    /** With nothing in between, the caller may book exactly when it has no key or its slot had no row,
        and in the second case the row is now its own. */
    method Reserve(key: Option<nat>, scope: nat, hash: nat) returns (reserved: Result<Reserved, Refusal>)
      modifies this
      ensures reserved == Ok(Disabled) <==> key.None?
      ensures reserved.Ok? && reserved.value.Held? <==> key.Some? && Slot(scope, key.value) !in old(rows)
      ensures if reserved.Ok? && reserved.value.Held?
              then reserved.value.slot == Slot(scope, key.value) && rows == old(rows)[Slot(scope, key.value) := Row(hash, None)]
              else rows == old(rows)
      ensures (rows, reserved) == Idempotency.Reserve(old(rows), key, scope, hash)
    {
      if key.None? {
        return Ok(Disabled);
      }
      var slot := Slot(scope, key.value);
      var inserted := TryInsert(slot, hash);
      if inserted {
        return Ok(Held(slot));
      }
      reserved := ReadRow(slot, hash);
    }

    /** The holder's request replays this response from now on. */
    method Complete(slot: Slot, response: Response)
      modifies this
      ensures rows.Keys == old(rows).Keys && OnlyAt(old(rows), rows, slot)
      ensures slot in rows ==> rows[slot] == Row(old(rows)[slot].hash, Some(response))
      ensures rows == Idempotency.Complete(old(rows), slot, response)
    {
      if slot in rows {
        rows := rows[slot := rows[slot].(stored := Some(response))];
      }
    }

    /** A pending slot is free again; a stored response is never lost. */
    method Release(slot: Slot)
      modifies this
      ensures slot in rows <==> slot in old(rows) && old(rows)[slot].stored.Some?
      ensures OnlyAt(old(rows), rows, slot) && (slot in rows ==> rows == old(rows))
      ensures rows == Idempotency.Release(old(rows), slot)
    {
      if slot in rows {
        if rows[slot].stored.None? {
          rows := rows - {slot};
        }
      }
    }
  }
}
