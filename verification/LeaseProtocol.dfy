/** The lease of one scheduled job as a protocol: any number of workers, each with at most one run of
    the job in flight, act on one key of the bucket.  Reading the key, reading the clock, sending a
    conditional write, the write taking effect at the server and its answer coming back are separate
    steps, and a timed-out or cancelled operation may leave its write on the wire. */
module LeaseProtocol {
  import opened Wrappers
  import opened KeyValue

  type Worker = nat

  /** The stored JSON: the owner and the wall-clock time the lease runs out. */
  datatype LeaseRecord = LeaseRecord(owner: string, expiresAt: real)

  /** What a client holds in memory after a successful acquire. */
  datatype Lease = Lease(revision: nat, expiresAt: real)

  datatype Config = Config(owners: map<Worker, string>, leaseSeconds: real)

  datatype Request =
    | CreateRequest(record: LeaseRecord)
    | TakeRequest(record: LeaseRecord, last: nat)
    | RenewRequest(record: LeaseRecord, last: nat)
    | DeleteRequest(last: nat)

  datatype Phase =
    | Idle
    | AcquireStart(tries: nat)                  // top of the retry loop
    | AcquireTimed(tries: nat, now: real)       // clock read, key not yet read
    | AcquireSent(tries: nat, request: Request) // conditional write on the wire
    | AcquireWon(lease: Lease)                  // write took effect, answer on the wire
    | Holding(lease: Lease)                     // the job runs
    | RenewGot(lease: Lease, seen: Slot<LeaseRecord>)
    | RenewSent(lease: Lease, request: Request)
    | RenewWon(lease: Lease, renewed: Lease)    // stored record renewed, local lease not yet
    | Releasing                                 // the job is over
    | ReleaseSent(request: Request)

  datatype State = State(
    now: real,
    slot: Slot<LeaseRecord>,
    phases: map<Worker, Phase>,
    orphans: set<(Worker, Request)>)            // writes whose sender no longer waits for them

  /** A worker's own steps, between its exchanges with the server. */
  datatype Action =
    | BeginAcquire
    | ReadClock
    | GiveUp
    | AcquireGet
    | Grant
    | RenewGet
    | RenewClock
    | RenewDone
    | Finish
    | ReleaseGet

  datatype Step =
    | Tick(delta: real)
    | Local(w: Worker, action: Action)
    | Land(w: Worker)                           // the worker's write reaches the server
    | Abandon(w: Worker)                        // timeout or cancellation
    | Crash(w: Worker)
    | LandOrphan(w: Worker, request: Request)
    | DropOrphan(w: Worker, request: Request)

  const MAX_TRIES: nat := 8

  function Apply(slot: Slot<LeaseRecord>, r: Request): Option<Slot<LeaseRecord>> {
    match r
    case CreateRequest(record) => Create(slot, record)
    case TakeRequest(record, last) => Update(slot, record, last)
    case RenewRequest(record, last) => Update(slot, record, last)
    case DeleteRequest(last) => Delete(slot, last)
  }

  /** The write `acquire` sends after reading the key, or None when the record has not run out. */
  function AcquireRequest(owner: string, leaseSeconds: real, now: real, seen: Slot<LeaseRecord>): Option<Request> {
    var record := LeaseRecord(owner, now + leaseSeconds);
    match seen.value
    case None => Some(CreateRequest(record))
    case Some(current) => if current.expiresAt > now then None else Some(TakeRequest(record, seen.revision))
  }

  /** The write `renew` sends, or None when it reports failure without writing. */
  function RenewalRequest(owner: string, leaseSeconds: real, now: real, seen: Slot<LeaseRecord>): Option<Request> {
    if seen.value.None? || seen.value.value.owner != owner || seen.value.value.expiresAt <= now then None
    else Some(RenewRequest(LeaseRecord(owner, now + leaseSeconds), seen.revision))
  }

  /** The delete `release` sends, or None when the record is gone or someone else's. */
  function ReleaseRequest(owner: string, seen: Slot<LeaseRecord>): Option<Request> {
    if seen.value.None? || seen.value.value.owner != owner then None
    else Some(DeleteRequest(seen.revision))
  }

  /** The phase an operation falls back to when it times out, is cancelled, or its process stops waiting. */
  function Abandoned(p: Phase): Phase {
    match p
    case RenewGot(lease, _) => Holding(lease)
    case RenewSent(lease, _) => Holding(lease)
    case RenewWon(lease, _) => Holding(lease)
    case Holding(lease) => Holding(lease)
    case _ => Idle
  }

  /** The write an operation in this phase has on the wire. */
  function OnWire(p: Phase): Option<Request> {
    match p
    case AcquireSent(_, r) => Some(r)
    case RenewSent(_, r) => Some(r)
    case ReleaseSent(r) => Some(r)
    case _ => None
  }

  function Orphaned(w: Worker, p: Phase): set<(Worker, Request)> {
    if OnWire(p).Some? then {(w, OnWire(p).value)} else {}
  }

  /** The worker's step in its own phase; None when the step does not apply there. */
  function LocalStep(c: Config, s: State, action: Action, w: Worker): (p': Option<Phase>)
    requires w in s.phases && w in c.owners
  {
    var owner := c.owners[w];
    match (action, s.phases[w])
    case (BeginAcquire, Idle) => Some(AcquireStart(MAX_TRIES))
    case (ReadClock, AcquireStart(k)) => if k > 0 then Some(AcquireTimed(k, s.now)) else None
    case (GiveUp, AcquireStart(k)) => if k == 0 then Some(Idle) else None
    case (AcquireGet, AcquireTimed(k, n)) =>
      var r := AcquireRequest(owner, c.leaseSeconds, n, s.slot);
      Some(if r.None? then Idle else AcquireSent(k, r.value))
    case (Grant, AcquireWon(lease)) => Some(Holding(lease))
    case (RenewGet, Holding(lease)) => Some(if s.slot.value.None? then Holding(lease) else RenewGot(lease, s.slot))
    case (RenewClock, RenewGot(lease, seen)) =>
      var r := RenewalRequest(owner, c.leaseSeconds, s.now, seen);
      Some(if r.None? then Holding(lease) else RenewSent(lease, r.value))
    case (RenewDone, RenewWon(_, renewed)) => Some(Holding(renewed))
    case (Finish, Holding(_)) => Some(Releasing)
    case (ReleaseGet, Releasing) =>
      var r := ReleaseRequest(owner, s.slot);
      Some(if r.None? then Idle else ReleaseSent(r.value))
    case _ => None
  }

  /** The phase after the worker's write reached the server, given whether it took effect. */
  function Landed(p: Phase, slot': Option<Slot<LeaseRecord>>): Option<Phase> {
    match p
    case AcquireSent(k, r) =>
      if r.DeleteRequest? || k == 0 then None
      else if slot'.None? then Some(AcquireStart(k - 1))
      else Some(AcquireWon(Lease(slot'.value.revision, r.record.expiresAt)))
    case RenewSent(lease, r) =>
      if r.DeleteRequest? then None
      else if slot'.None? then Some(Holding(lease))
      else Some(RenewWon(lease, Lease(slot'.value.revision, r.record.expiresAt)))
    case ReleaseSent(_) => Some(Idle)
    case _ => None
  }

  ghost predicate NextStep(c: Config, s: State, s': State, step: Step) {
    match step
    case Tick(delta) => delta >= 0.0 && s' == s.(now := s.now + delta)
    case LandOrphan(w, r) =>
      && (w, r) in s.orphans
      && s' == s.(orphans := s.orphans - {(w, r)},
                  slot := if Apply(s.slot, r).Some? then Apply(s.slot, r).value else s.slot)
    case DropOrphan(w, r) => (w, r) in s.orphans && s' == s.(orphans := s.orphans - {(w, r)})
    case Abandon(w) =>
      && w in s.phases
      && s' == s.(phases := s.phases[w := Abandoned(s.phases[w])], orphans := s.orphans + Orphaned(w, s.phases[w]))
    case Crash(w) =>
      && w in s.phases
      && s' == s.(phases := s.phases[w := Idle], orphans := s.orphans + Orphaned(w, s.phases[w]))
    case Local(w, action) =>
      && w in s.phases && w in c.owners
      && LocalStep(c, s, action, w).Some?
      && s' == s.(phases := s.phases[w := LocalStep(c, s, action, w).value])
    case Land(w) =>
      && w in s.phases && w in c.owners
      && OnWire(s.phases[w]).Some?
      && var slot' := Apply(s.slot, OnWire(s.phases[w]).value);
      && Landed(s.phases[w], slot').Some?
      && s' == s.(phases := s.phases[w := Landed(s.phases[w], slot').value],
                  slot := if slot'.Some? then slot'.value else s.slot)
  }

  ghost predicate Next(c: Config, s: State, s': State) {
    exists step :: NextStep(c, s, s', step)
  }

  ghost predicate Init(c: Config, s: State) {
    && s.phases.Keys == c.owners.Keys
    && (forall w <- s.phases :: s.phases[w] == Idle)
    && s.orphans == {}
    && s.slot == Slot(0, None)
  }

  ghost predicate IsRun(c: Config, run: seq<State>) {
    && |run| > 0
    && Init(c, run[0])
    && forall i :: 0 <= i < |run| - 1 ==> Next(c, run[i], run[i + 1])
  }

  /** No two workers act under one owner id: at most one run per (owner, key) is ever in flight. */
  ghost predicate DistinctOwners(c: Config) {
    forall w1 <- c.owners, w2 <- c.owners :: c.owners[w1] == c.owners[w2] ==> w1 == w2
  }

  /** The lease a worker's job runs under. */
  function HeldLease(p: Phase): Option<Lease> {
    match p
    case Holding(lease) => Some(lease)
    case RenewGot(lease, _) => Some(lease)
    case RenewSent(lease, _) => Some(lease)
    case RenewWon(lease, _) => Some(lease)
    case _ => None
  }

  /** The worker's job is running under a lease that has not run out. */
  ghost predicate Live(s: State, w: Worker) {
    w in s.phases && HeldLease(s.phases[w]).Some? && HeldLease(s.phases[w]).value.expiresAt > s.now
  }

  // ----- The invariant -----

  /** While a lease has not run out, the stored record carries its owner and runs out no earlier. */
  ghost predicate Backed(owner: string, now: real, slot: Slot<LeaseRecord>, lease: Lease) {
    && lease.revision <= slot.revision
    && (lease.expiresAt > now ==>
          slot.value.Some? && slot.value.value.owner == owner && slot.value.value.expiresAt >= lease.expiresAt)
  }

  /** No delete left over from an earlier run can name the revision this lease was written at. */
  ghost predicate Fresh(orphans: set<(Worker, Request)>, w: Worker, lease: Lease) {
    forall r :: (w, r) in orphans && r.DeleteRequest? ==> r.last < lease.revision
  }

  /** A write on the wire, if its revision is still the current one, was justified by the record it will replace. */
  ghost predicate RequestOk(owner: string, lease: real, now: real, slot: Slot<LeaseRecord>, r: Request) {
    match r
    case CreateRequest(record) => record.owner == owner && record.expiresAt <= now + lease
    case TakeRequest(record, last) =>
      && record.owner == owner && record.expiresAt <= now + lease && last <= slot.revision
      && (slot.revision == last && slot.value.Some? ==> slot.value.value.expiresAt <= now)
    case RenewRequest(record, last) =>
      && record.owner == owner && record.expiresAt <= now + lease && last <= slot.revision
      && (slot.revision == last && slot.value.Some? ==>
            slot.value.value.owner == owner && slot.value.value.expiresAt <= record.expiresAt)
    case DeleteRequest(last) =>
      && last <= slot.revision
      && (slot.revision == last && slot.value.Some? ==> slot.value.value.owner == owner)
  }

  ghost predicate PhaseOk(c: Config, s: State, w: Worker, p: Phase)
    requires w in c.owners
  {
    var owner := c.owners[w];
    match p
    case Idle => true
    case AcquireStart(_) => true
    case AcquireTimed(_, n) => n <= s.now
    case AcquireSent(_, r) => (r.CreateRequest? || r.TakeRequest?) && RequestOk(owner, c.leaseSeconds, s.now, s.slot, r)
    case AcquireWon(lease) => Backed(owner, s.now, s.slot, lease) && Fresh(s.orphans, w, lease)
    case Holding(lease) => Backed(owner, s.now, s.slot, lease) && Fresh(s.orphans, w, lease)
    case RenewGot(lease, seen) =>
      && Backed(owner, s.now, s.slot, lease) && Fresh(s.orphans, w, lease)
      && seen.value.Some? && Evolves(seen, s.slot)
      && seen.value.value.expiresAt <= s.now + c.leaseSeconds
    case RenewSent(lease, r) =>
      && Backed(owner, s.now, s.slot, lease) && Fresh(s.orphans, w, lease)
      && r.RenewRequest? && RequestOk(owner, c.leaseSeconds, s.now, s.slot, r)
    case RenewWon(lease, renewed) =>
      && Backed(owner, s.now, s.slot, lease) && Fresh(s.orphans, w, lease)
      && Backed(owner, s.now, s.slot, renewed) && Fresh(s.orphans, w, renewed)
    case Releasing => true
    case ReleaseSent(r) => r.DeleteRequest? && RequestOk(owner, c.leaseSeconds, s.now, s.slot, r)
  }

  ghost predicate OrphansOk(c: Config, s: State) {
    forall w, r :: (w, r) in s.orphans ==> w in c.owners && RequestOk(c.owners[w], c.leaseSeconds, s.now, s.slot, r)
  }

  ghost predicate Inv(c: Config, s: State) {
    && s.phases.Keys == c.owners.Keys
    && (s.slot.value.Some? ==> s.slot.value.value.expiresAt <= s.now + c.leaseSeconds)
    && (forall w <- s.phases :: PhaseOk(c, s, w, s.phases[w]))
    && OrphansOk(c, s)
  }

  // ----- Preservation -----

  /** A write that is justified and takes effect leaves every other worker's facts true. */
  lemma LandKeepsOthers(c: Config, s: State, w: Worker, r: Request, slot': Slot<LeaseRecord>, v: Worker)
    requires DistinctOwners(c) && Inv(c, s)
    requires w in c.owners && RequestOk(c.owners[w], c.leaseSeconds, s.now, s.slot, r)
    requires Apply(s.slot, r) == Some(slot')
    requires v in s.phases
    requires v == w && r.DeleteRequest? && s.phases[v].RenewWon? ==> r.last < s.phases[v].renewed.revision
    requires v == w && r.DeleteRequest? && HeldLease(s.phases[v]).Some? ==>
             r.last < HeldLease(s.phases[v]).value.revision
    requires v == w && r.DeleteRequest? && s.phases[v].AcquireWon? ==> r.last < s.phases[v].lease.revision
    ensures PhaseOk(c, s.(slot := slot'), v, s.phases[v])
  {
  }

  lemma LandKeepsOrphans(c: Config, s: State, w: Worker, r: Request, slot': Slot<LeaseRecord>)
    requires Inv(c, s)
    requires Apply(s.slot, r) == Some(slot')
    ensures OrphansOk(c, s.(slot := slot'))
  {
  }

  lemma TickKeepsInv(c: Config, s: State, delta: real)
    requires Inv(c, s) && delta >= 0.0
    ensures Inv(c, s.(now := s.now + delta))
  {
    var s' := s.(now := s.now + delta);
    forall w | w in s'.phases ensures PhaseOk(c, s', w, s'.phases[w]) {
      assert PhaseOk(c, s, w, s.phases[w]);
    }
  }

  /** A justified write sent earlier reaches the server after its sender stopped waiting. */
  lemma OrphanKeepsInv(c: Config, s: State, w: Worker, r: Request)
    requires DistinctOwners(c) && Inv(c, s) && (w, r) in s.orphans
    ensures Inv(c, s.(orphans := s.orphans - {(w, r)}))
    ensures Apply(s.slot, r).Some? ==> Inv(c, s.(orphans := s.orphans - {(w, r)}, slot := Apply(s.slot, r).value))
  {
    var t := s.(orphans := s.orphans - {(w, r)});
    forall v | v in t.phases ensures PhaseOk(c, t, v, t.phases[v]) {
      assert PhaseOk(c, s, v, s.phases[v]);
    }
    if Apply(s.slot, r).Some? {
      var slot' := Apply(s.slot, r).value;
      var s' := t.(slot := slot');
      LandKeepsOrphans(c, t, w, r, slot');
      forall v | v in s'.phases ensures PhaseOk(c, s', v, s'.phases[v]) {
        assert PhaseOk(c, s, v, s.phases[v]);
        LandKeepsOthers(c, t, w, r, slot', v);
      }
    }
  }

  lemma FailedLandKeepsInv(c: Config, s: State, s': State, w: Worker)
    requires Inv(c, s) && NextStep(c, s, s', Land(w)) && Apply(s.slot, OnWire(s.phases[w]).value) == None
    ensures Inv(c, s')
  {
    forall v | v in s'.phases ensures PhaseOk(c, s', v, s'.phases[v]) {
      assert PhaseOk(c, s, v, s.phases[v]);
    }
  }

  lemma LandKeepsInv(c: Config, s: State, s': State, w: Worker)
    requires DistinctOwners(c) && Inv(c, s) && NextStep(c, s, s', Land(w))
    ensures Inv(c, s')
  {
    var p := s.phases[w];
    var r := OnWire(p).value;
    assert PhaseOk(c, s, w, p);
    if Apply(s.slot, r).Some? {
      var slot' := Apply(s.slot, r).value;
      LandKeepsOrphans(c, s, w, r, slot');
      forall v | v in s'.phases ensures PhaseOk(c, s', v, s'.phases[v]) {
        assert PhaseOk(c, s, v, s.phases[v]);
        if v != w {
          LandKeepsOthers(c, s, w, r, slot', v);
        } else {
          LandKeepsSelf(c, s, w, slot');
        }
      }
    } else {
      FailedLandKeepsInv(c, s, s', w);
    }
  }

  lemma LandKeepsSelf(c: Config, s: State, w: Worker, slot': Slot<LeaseRecord>)
    requires DistinctOwners(c) && Inv(c, s) && w in s.phases
    requires OnWire(s.phases[w]).Some?
    requires Apply(s.slot, OnWire(s.phases[w]).value) == Some(slot')
    requires Landed(s.phases[w], Some(slot')).Some?
    ensures PhaseOk(c, s.(slot := slot'), w, Landed(s.phases[w], Some(slot')).value)
  {
    assert PhaseOk(c, s, w, s.phases[w]);
    assert OrphansOk(c, s);
  }

  lemma AbandonKeepsInv(c: Config, s: State, w: Worker, p': Phase)
    requires Inv(c, s) && w in s.phases
    requires p' == Idle || p' == Abandoned(s.phases[w])
    ensures Inv(c, s.(phases := s.phases[w := p'], orphans := s.orphans + Orphaned(w, s.phases[w])))
  {
    var s' := s.(phases := s.phases[w := p'], orphans := s.orphans + Orphaned(w, s.phases[w]));
    assert PhaseOk(c, s, w, s.phases[w]);
    forall v | v in s'.phases ensures PhaseOk(c, s', v, s'.phases[v]) {
      assert PhaseOk(c, s, v, s.phases[v]);
    }
  }

  lemma LocalKeepsInv(c: Config, s: State, action: Action, w: Worker)
    requires Inv(c, s) && w in s.phases && w in c.owners
    requires c.leaseSeconds >= 0.0
    requires LocalStep(c, s, action, w).Some?
    ensures Inv(c, s.(phases := s.phases[w := LocalStep(c, s, action, w).value]))
  {
    var p' := LocalStep(c, s, action, w).value;
    var s' := s.(phases := s.phases[w := p']);
    assert PhaseOk(c, s, w, s.phases[w]);
    assert PhaseOk(c, s', w, p');
    forall v | v in s'.phases ensures PhaseOk(c, s', v, s'.phases[v]) {
      if v != w { assert PhaseOk(c, s, v, s.phases[v]); }
    }
  }

  lemma EnvironmentKeepsInv(c: Config, s: State, s': State, step: Step)
    requires DistinctOwners(c) && Inv(c, s) && NextStep(c, s, s', step)
    requires step.Tick? || step.LandOrphan? || step.DropOrphan?
    ensures Inv(c, s')
  {
    if step.Tick? {
      TickKeepsInv(c, s, step.delta);
    } else {
      OrphanKeepsInv(c, s, step.w, step.request);
    }
  }

  lemma WorkerKeepsInv(c: Config, s: State, s': State, step: Step)
    requires DistinctOwners(c) && c.leaseSeconds >= 0.0 && Inv(c, s) && NextStep(c, s, s', step)
    requires step.Abandon? || step.Crash? || step.Local? || step.Land?
    ensures Inv(c, s')
  {
    if step.Abandon? {
      AbandonKeepsInv(c, s, step.w, Abandoned(s.phases[step.w]));
    } else if step.Crash? {
      AbandonKeepsInv(c, s, step.w, Idle);
    } else if step.Local? {
      LocalKeepsInv(c, s, step.action, step.w);
    } else {
      LandKeepsInv(c, s, s', step.w);
    }
  }

  lemma NextKeepsInv(c: Config, s: State, s': State)
    requires DistinctOwners(c) && c.leaseSeconds >= 0.0 && Inv(c, s) && Next(c, s, s')
    ensures Inv(c, s')
  {
    var step :| NextStep(c, s, s', step);
    if step.Tick? || step.LandOrphan? || step.DropOrphan? {
      EnvironmentKeepsInv(c, s, s', step);
    } else {
      WorkerKeepsInv(c, s, s', step);
    }
  }

  lemma {:induction false} RunKeepsInv(c: Config, run: seq<State>, i: nat)
    requires DistinctOwners(c) && c.leaseSeconds >= 0.0 && IsRun(c, run) && i < |run|
    ensures Inv(c, run[i])
  {
    if i > 0 {
      RunKeepsInv(c, run, i - 1);
      assert Next(c, run[i - 1], run[i - 1 + 1]);
      NextKeepsInv(c, run[i - 1], run[i]);
    }
  }

  // ----- Main results -----

  /** In every interleaving a lease that has not run out is backed by the stored record. */
  lemma LeaseIsBacked(c: Config, run: seq<State>, i: nat, w: Worker)
    requires DistinctOwners(c) && c.leaseSeconds >= 0.0 && IsRun(c, run) && i < |run|
    requires Live(run[i], w)
    ensures w in c.owners && run[i].slot.value.Some?
    ensures run[i].slot.value.value.owner == c.owners[w]
    ensures run[i].slot.value.value.expiresAt >= HeldLease(run[i].phases[w]).value.expiresAt
  {
    RunKeepsInv(c, run, i);
    assert PhaseOk(c, run[i], w, run[i].phases[w]);
  }

  /** Two jobs never run under unexpired leases at the same time. */
  lemma MutualExclusion(c: Config, run: seq<State>, i: nat, w1: Worker, w2: Worker)
    requires DistinctOwners(c) && c.leaseSeconds >= 0.0 && IsRun(c, run) && i < |run|
    requires Live(run[i], w1) && Live(run[i], w2)
    ensures w1 == w2
  {
    LeaseIsBacked(c, run, i, w1);
    LeaseIsBacked(c, run, i, w2);
  }

  /** No two workers are ever live together along the run. */
  ghost predicate Exclusive(run: seq<State>) {
    forall i, w1, w2 :: 0 <= i < |run| && Live(run[i], w1) && Live(run[i], w2) ==> w1 == w2
  }

  /** Exclusion holds along every run exactly when no two workers share an owner id. */
  lemma ExclusionIffDistinctOwners(c: Config)
    requires c.leaseSeconds > 0.0
    ensures (forall run: seq<State> :: IsRun(c, run) ==> Exclusive(run)) <==> DistinctOwners(c)
  {
    if DistinctOwners(c) {
      forall run: seq<State>, i: nat, w1, w2 |
        IsRun(c, run) && i < |run| && Live(run[i], w1) && Live(run[i], w2)
        ensures w1 == w2
      {
        MutualExclusion(c, run, i, w1, w2);
      }
    } else {
      var w1, w2 :| w1 in c.owners && w2 in c.owners && c.owners[w1] == c.owners[w2] && w1 != w2;
      var run := SharedOwnerRun(c, w1, w2);
      assert !Exclusive(run);
    }
  }

  lemma Extend(c: Config, run: seq<State>, step: Step, s': State) returns (longer: seq<State>)
    requires IsRun(c, run) && NextStep(c, run[|run| - 1], s', step)
    ensures IsRun(c, longer) && longer[|longer| - 1] == s'
  {
    longer := run + [s'];
    assert Next(c, run[|run| - 1], s');
    forall i | 0 <= i < |longer| - 1 ensures Next(c, longer[i], longer[i + 1]) {
      if i < |run| - 1 { assert Next(c, run[i], run[i + 1]); }
    }
  }

  /** One step of a worker that changes nothing but its phase. */
  lemma ExtendLocal(c: Config, run: seq<State>, w: Worker, action: Action, p: Phase) returns (longer: seq<State>)
    requires IsRun(c, run) && w in run[|run| - 1].phases && w in c.owners
    requires LocalStep(c, run[|run| - 1], action, w) == Some(p)
    ensures IsRun(c, longer)
    ensures var s := run[|run| - 1]; longer[|longer| - 1] == s.(phases := s.phases[w := p])
  {
    var s := run[|run| - 1];
    longer := Extend(c, run, Local(w, action), s.(phases := s.phases[w := p]));
  }

  /** One worker's uncontended acquire, from Idle to Holding, on a record that is absent or run out. */
  lemma AcquireRun(c: Config, start: seq<State>, w: Worker) returns (run: seq<State>)
    requires IsRun(c, start) && w in c.owners
    requires var s := start[|start| - 1]; w in s.phases && s.phases[w] == Idle
    requires var s := start[|start| - 1]; s.slot.value.Some? ==> s.slot.value.value.expiresAt <= s.now
    ensures IsRun(c, run)
    ensures var s := start[|start| - 1];
            var record := LeaseRecord(c.owners[w], s.now + c.leaseSeconds);
            run[|run| - 1] == s.(slot := Slot(s.slot.revision + 1, Some(record)),
                                 phases := s.phases[w := Holding(Lease(s.slot.revision + 1, record.expiresAt))])
  {
    var s := start[|start| - 1];
    var r := AcquireRequest(c.owners[w], c.leaseSeconds, s.now, s.slot).value;
    var lease := Lease(s.slot.revision + 1, s.now + c.leaseSeconds);
    run := ExtendLocal(c, start, w, BeginAcquire, AcquireStart(MAX_TRIES));
    run := ExtendLocal(c, run, w, ReadClock, AcquireTimed(MAX_TRIES, s.now));
    run := ExtendLocal(c, run, w, AcquireGet, AcquireSent(MAX_TRIES, r));
    var t := run[|run| - 1];
    run := Extend(c, run, Land(w), t.(phases := t.phases[w := AcquireWon(lease)], slot := Apply(t.slot, r).value));
    run := ExtendLocal(c, run, w, Grant, Holding(lease));
    assert run[|run| - 1].phases == s.phases[w := Holding(lease)];
  }

  /** A holder whose stored record is someone's unexpired lease under its own owner id renews it. */
  lemma RenewRun(c: Config, start: seq<State>, w: Worker) returns (run: seq<State>)
    requires IsRun(c, start) && w in c.owners
    requires var s := start[|start| - 1]; w in s.phases && s.phases[w].Holding?
    requires var s := start[|start| - 1];
             s.slot.value.Some? && s.slot.value.value.owner == c.owners[w] && s.slot.value.value.expiresAt > s.now
    ensures IsRun(c, run)
    ensures var s, e := start[|start| - 1], run[|run| - 1];
            && e.now == s.now && e.phases.Keys == s.phases.Keys
            && e.phases[w] == Holding(Lease(s.slot.revision + 1, s.now + c.leaseSeconds))
            && forall v <- s.phases :: v != w ==> e.phases[v] == s.phases[v]
  {
    var s := start[|start| - 1];
    var lease := s.phases[w].lease;
    var r := RenewalRequest(c.owners[w], c.leaseSeconds, s.now, s.slot).value;
    var renewed := Lease(s.slot.revision + 1, s.now + c.leaseSeconds);
    run := ExtendLocal(c, start, w, RenewGet, RenewGot(lease, s.slot));
    run := ExtendLocal(c, run, w, RenewClock, RenewSent(lease, r));
    var t := run[|run| - 1];
    run := Extend(c, run, Land(w),
                  t.(phases := t.phases[w := RenewWon(lease, renewed)], slot := Apply(t.slot, r).value));
    run := ExtendLocal(c, run, w, RenewDone, Holding(renewed));
  }

  /** Two workers under one owner id: the first stalls past its expiry, the second takes the record
      over, and the first then renews the second's record as if it were its own. */
  lemma SharedOwnerRun(c: Config, w1: Worker, w2: Worker) returns (run: seq<State>)
    requires c.leaseSeconds > 0.0
    requires w1 in c.owners && w2 in c.owners && c.owners[w1] == c.owners[w2] && w1 != w2
    ensures IsRun(c, run) && Live(run[|run| - 1], w1) && Live(run[|run| - 1], w2)
  {
    var start := State(0.0, Slot(0, None), map w <- c.owners :: Idle, {});
    run := AcquireRun(c, [start], w1);
    var held := run[|run| - 1];
    run := Extend(c, run, Tick(c.leaseSeconds), held.(now := held.now + c.leaseSeconds));
    run := AcquireRun(c, run, w2);
    run := RenewRun(c, run, w1);
  }
}
