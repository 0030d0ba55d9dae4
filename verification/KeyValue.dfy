/** One key of a JetStream key/value bucket: a revision counter and, unless the key was never
    written or its last write was a delete, a value.  The three conditional writes are atomic at the
    server; everything the clients do around them is not. */
module KeyValue {
  import opened Wrappers

  /** `revision` counts the writes and deletes the key has seen, so it names one state of the key. */
  datatype Slot<+V> = Slot(revision: nat, value: Option<V>)

  /** Create-if-absent; None is KeyWrongLastSequenceError. */
  function Create<V>(s: Slot<V>, v: V): Option<Slot<V>> {
    if s.value.None? then Some(Slot(s.revision + 1, Some(v))) else None
  }

  /** Update at a revision; None is KeyWrongLastSequenceError. */
  function Update<V>(s: Slot<V>, v: V, last: nat): Option<Slot<V>> {
    if s.value.Some? && s.revision == last then Some(Slot(s.revision + 1, Some(v))) else None
  }

  /** Delete at a revision; None is KeyWrongLastSequenceError. */
  function Delete<V>(s: Slot<V>, last: nat): Option<Slot<V>> {
    if s.value.Some? && s.revision == last then Some(Slot(s.revision + 1, None)) else None
  }

  /** What a client may rely on between two of its own operations: other clients only move the key
      to later revisions, and one revision never shows two different values. */
  ghost predicate Evolves<V>(before: Slot<V>, after: Slot<V>) {
    before.revision <= after.revision && (before.revision == after.revision ==> before == after)
  }

  /** A successful write of one client, with the slot it found and the slot it left. */
  datatype Write<V> = Write(before: Slot<V>, after: Slot<V>)

  /** The wall clock, which other activity advances between two readings. */
  class Clock {
    var now: real

    method Read() returns (t: real)
      modifies this
      ensures old(now) <= now == t
    {
      var passed: real := *;
      if passed > 0.0 { now := now + passed; }
      t := now;
    }
  }

  /** What a read showed, and what the clock said by then. */
  datatype Reading<V> = Reading(slot: Slot<V>, at: real)

  /** One key of the bucket as one client sees it: before each of its operations other clients may write. */
  class Bucket<V(==)> {
    var slot: Slot<V>
    ghost const clock: Clock
    ghost var mine: seq<Write<V>>         // the successful writes made through this handle
    ghost var shown: seq<Reading<V>>      // what its reads showed

    constructor (ghost clock: Clock)
      ensures this.clock == clock && slot == Slot(0, None) && mine == [] && shown == []
    {
      this.clock := clock;
      slot := Slot(0, None);
      mine := [];
      shown := [];
    }

    /** Other clients write, any number of times. */
    method Interfere()
      modifies this`slot
      ensures Evolves(old(slot), slot)
    {
      var later: Slot<V> := *;
      if later.revision > slot.revision { slot := later; }
    }

    method Get() returns (entry: Slot<V>)
      modifies this`slot, this`shown
      ensures Evolves(old(slot), entry) && slot == entry
      ensures shown == old(shown) + [Reading(entry, clock.now)]
    {
      Interfere();
      entry := slot;
      shown := shown + [Reading(entry, clock.now)];
    }

    method Put(v: V, last: Option<nat>) returns (revision: Option<nat>)
      modifies this`slot, this`mine
      ensures revision.None? ==> mine == old(mine) && Evolves(old(slot), slot)
      ensures revision.None? && last.None? ==> slot.value.Some?
      ensures revision.None? && last.Some? ==> slot.revision != last.value || slot.value.None?
      ensures revision.Some? ==>
                && |mine| == |old(mine)| + 1 && mine[..|old(mine)|] == old(mine)
                && var w := mine[|old(mine)|];
                && Evolves(old(slot), w.before) && w.after == slot
                && (if last.None? then Create(w.before, v) else Update(w.before, v, last.value))
                     == Some(slot)
                && revision == Some(slot.revision)
    {
      Interfere();
      var after := if last.None? then Create(slot, v) else Update(slot, v, last.value);
      if after.None? { return None; }
      mine := mine + [Write(slot, after.value)];
      slot := after.value;
      revision := Some(slot.revision);
    }

    method Remove(last: nat) returns (ok: bool)
      modifies this`slot, this`mine
      ensures !ok ==> mine == old(mine) && Evolves(old(slot), slot)
      ensures !ok ==> slot.revision != last || slot.value.None?
      ensures ok ==>
                && |mine| == |old(mine)| + 1 && mine[..|old(mine)|] == old(mine)
                && var w := mine[|old(mine)|];
                && Evolves(old(slot), w.before) && w.after == slot && Delete(w.before, last) == Some(slot)
    {
      Interfere();
      var after := Delete(slot, last);
      if after.None? { return false; }
      mine := mine + [Write(slot, after.value)];
      slot := after.value;
      ok := true;
    }
  }
}
