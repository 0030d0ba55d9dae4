/** `SchedulerLockManager` against a bucket other processes write to at the same time.  Between any two
    operations of this client the key may move to a later revision; the contracts say that the
    client's own write is nevertheless one atomic take-over, renewal or delete of the record it
    replaced, as the steps of LeaseProtocol have it. */
module SchedulerLock {
  import opened Wrappers
  import opened KeyValue
  import P = LeaseProtocol

  /** What the key's bytes decode to. */
  datatype Stored = Valid(record: P.LeaseRecord) | Garbage

  datatype AcquireResult = Granted(lease: SchedulerLease) | Refused | Invalid

  /** The slot as the protocol sees it; a record that does not decode is not part of the protocol. */
  ghost function View(s: Slot<Stored>): Option<Slot<P.LeaseRecord>> {
    match s.value
    case None => Some(Slot(s.revision, None))
    case Some(Valid(record)) => Some(Slot(s.revision, Some(record)))
    case Some(Garbage) => None
  }

  /** The write is what the protocol's `request` does to the slot found. */
  ghost predicate Performs(w: Write<Stored>, request: Option<P.Request>) {
    && View(w.before).Some? && View(w.after).Some? && request.Some?
    && P.Apply(View(w.before).value, request.value) == View(w.after)
  }

  ghost predicate TakesOver(w: Write<Stored>, owner: string, leaseSeconds: real, now: real) {
    View(w.before).Some? && Performs(w, P.AcquireRequest(owner, leaseSeconds, now, View(w.before).value))
  }

  ghost predicate Renews(w: Write<Stored>, owner: string, leaseSeconds: real, now: real) {
    View(w.before).Some? && Performs(w, P.RenewalRequest(owner, leaseSeconds, now, View(w.before).value))
  }

  ghost predicate Releases(w: Write<Stored>, owner: string) {
    View(w.before).Some? && Performs(w, P.ReleaseRequest(owner, View(w.before).value))
  }

  /** The key holds a record of this owner. */
  ghost predicate Stores(s: Slot<Stored>, owner: string) {
    s.value.Some? && s.value.value.Valid? && s.value.value.record.owner == owner
  }

  /** ... that has not run out. */
  ghost predicate Holds(s: Slot<Stored>, owner: string, now: real) {
    Stores(s, owner) && s.value.value.record.expiresAt > now
  }

  /** The key holds no record, or one that has run out. */
  ghost predicate IsFree(s: Slot<Stored>, now: real) {
    s.value.None? || (s.value.value.Valid? && s.value.value.record.expiresAt <= now)
  }

  /** The write left this record, one revision later. */
  ghost predicate Leaves(w: Write<Stored>, owner: string, expiresAt: real) {
    w.after == Slot(w.before.revision + 1, Some(Valid(P.LeaseRecord(owner, expiresAt))))
  }

  /** A read of this call, made after the clock said `reading`, showed this content of the key. */
  ghost predicate Showed(kv: Bucket<Stored>, from: nat, content: Stored, reading: real)
    reads kv
  {
    exists i :: from <= i < |kv.shown| && kv.shown[i].slot.value == Some(content) && reading <= kv.shown[i].at
  }

  class SchedulerLease {
    const owner: string
    var revision: nat
    var expiresAt: real

    constructor (owner: string, revision: nat, expiresAt: real)
      ensures this.owner == owner && this.revision == revision && this.expiresAt == expiresAt
    {
      this.owner, this.revision, this.expiresAt := owner, revision, expiresAt;
    }
  }

  class SchedulerLockManager {
    const ownerId: string
    const leaseSeconds: real

    constructor (ownerId: string, leaseSeconds: real)
      ensures this.ownerId == ownerId && this.leaseSeconds == leaseSeconds
    {
      this.ownerId, this.leaseSeconds := ownerId, leaseSeconds;
    }

    /** A grant is one atomic take-over of an absent or run-out record, timed by a clock reading made
        during the call.  A refusal wrote nothing and saw a record that had not run out at a reading made
        before it was read, or lost eight races; an invalid record was seen. */
    method Acquire(kv: Bucket<Stored>, clock: Clock)
      returns (r: AcquireResult, ghost blocker: Option<P.LeaseRecord>, ghost reading: real)
      requires kv.clock == clock
      modifies kv, clock
      ensures clock.now >= old(clock.now)
      ensures !r.Granted? ==> kv.mine == old(kv.mine)
      ensures r.Granted? ==>
                && fresh(r.lease) && r.lease.owner == ownerId
                && |kv.mine| == |old(kv.mine)| + 1 && kv.mine[..|old(kv.mine)|] == old(kv.mine)
                && var w := kv.mine[|old(kv.mine)|];
                && TakesOver(w, ownerId, leaseSeconds, r.lease.expiresAt - leaseSeconds)
                && IsFree(w.before, r.lease.expiresAt - leaseSeconds) && Leaves(w, ownerId, r.lease.expiresAt)
                && r.lease.revision == w.after.revision
                && old(clock.now) <= r.lease.expiresAt - leaseSeconds <= clock.now
      ensures r.Refused? && blocker.Some? ==>
                && old(clock.now) <= reading <= clock.now && blocker.value.expiresAt > reading
                && Showed(kv, |old(kv.shown)|, Valid(blocker.value), reading)
      ensures r.Refused? && blocker.None? ==> kv.slot.revision >= old(kv.slot.revision) + P.MAX_TRIES
      ensures r.Invalid? ==> Showed(kv, |old(kv.shown)|, Garbage, old(clock.now))
    {
      var tries := 0;
      reading := clock.now;
      while tries < P.MAX_TRIES
        invariant tries <= P.MAX_TRIES
        invariant clock.now >= old(clock.now) && kv.mine == old(kv.mine)
        invariant |kv.shown| >= |old(kv.shown)|
        invariant kv.slot.revision >= old(kv.slot.revision) + tries
      {
        var now := clock.Read();
        var expiresAt := now + leaseSeconds;
        var entry := kv.Get();
        assert kv.shown[|kv.shown| - 1] == Reading(entry, clock.now);
        if entry.value.None? {
          var revision := kv.Put(Valid(P.LeaseRecord(ownerId, expiresAt)), None);
          if revision.Some? {
            var lease := new SchedulerLease(ownerId, revision.value, expiresAt);
            return Granted(lease), None, now;
          }
        } else {
          match entry.value.value
          case Garbage => return Invalid, None, now;
          case Valid(record) =>
            if record.expiresAt > now { return Refused, Some(record), now; }
            var revision := kv.Put(Valid(P.LeaseRecord(ownerId, expiresAt)), Some(entry.revision));
            if revision.Some? {
              var lease := new SchedulerLease(ownerId, revision.value, expiresAt);
              return Granted(lease), None, now;
            }
        }
        tries := tries + 1;
      }
      return Refused, None, clock.now;
    }

    /** A renewal that reports success is one atomic extension of this owner's own unexpired record, and
        the local lease then says what was stored.  One that reports failure changes neither, and unless
        the key moved meanwhile its record was not this owner's or had run out by the end of the call. */
    method Renew(kv: Bucket<Stored>, clock: Clock, lease: SchedulerLease) returns (renewed: bool)
      requires lease.owner == ownerId && kv.clock == clock
      modifies kv, clock, lease
      ensures clock.now >= old(clock.now)
      ensures !renewed ==> kv.mine == old(kv.mine) && unchanged(lease)
      ensures !renewed && kv.slot.revision == old(kv.slot.revision) ==> !Holds(old(kv.slot), ownerId, clock.now)
      ensures renewed ==>
                && |kv.mine| == |old(kv.mine)| + 1 && kv.mine[..|old(kv.mine)|] == old(kv.mine)
                && var w := kv.mine[|old(kv.mine)|];
                && Renews(w, ownerId, leaseSeconds, lease.expiresAt - leaseSeconds)
                && Holds(w.before, ownerId, lease.expiresAt - leaseSeconds) && Leaves(w, ownerId, lease.expiresAt)
                && lease.revision == w.after.revision
                && old(clock.now) <= lease.expiresAt - leaseSeconds <= clock.now
    {
      var entry := kv.Get();
      if entry.value.None? || entry.value.value.Garbage? { return false; }
      var now := clock.Read();
      var record := entry.value.value.record;
      if record.owner != lease.owner || record.expiresAt <= now { return false; }
      var expiresAt := now + leaseSeconds;
      var revision := kv.Put(Valid(P.LeaseRecord(ownerId, expiresAt)), Some(entry.revision));
      if revision.None? { return false; }
      lease.revision := revision.value;
      lease.expiresAt := expiresAt;
      renewed := true;
    }

    /** Release deletes at most one record, and only one this owner stored; it leaves the key alone only if
        the key moved meanwhile or held no record of this owner. */
    method Release(kv: Bucket<Stored>, lease: SchedulerLease)
      requires lease.owner == ownerId
      modifies kv
      ensures || kv.mine == old(kv.mine)
              || (&& |kv.mine| == |old(kv.mine)| + 1 && kv.mine[..|old(kv.mine)|] == old(kv.mine)
                  && var w := kv.mine[|old(kv.mine)|];
                  && Releases(w, ownerId)
                  && Stores(w.before, ownerId) && w.after == Slot(w.before.revision + 1, None))
      ensures kv.mine == old(kv.mine) && kv.slot.revision == old(kv.slot.revision) ==> !Stores(old(kv.slot), ownerId)
    {
      var entry := kv.Get();
      if entry.value.None? || entry.value.value.Garbage? { return; }
      if entry.value.value.record.owner == lease.owner {
        var _ := kv.Remove(entry.revision);
      }
    }
  }
}
