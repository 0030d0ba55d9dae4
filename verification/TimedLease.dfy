/** The lease protocol and the timing of its runs put together: every worker's steps happen at moments its
    timeouts and its renewal timer allow, and a job runs only while `lost` is unset.  Main result: no
    two jobs ever run at once, without assuming that their leases are unexpired. */
module TimedLease {
  import opened Wrappers
  import opened KeyValue
  import opened P = LeaseProtocol
  import T = RenewalTiming

  datatype Settings = Settings(owners: map<Worker, string>, timing: T.Settings)

  datatype Timed = Timed(s: P.State, timing: map<Worker, T.Phase>)

  function Protocol(c: Settings): Config {
    Config(c.owners, c.timing.lease)
  }

  /** The timing of a worker after one of its own steps that took it from phase p to p'.  An operation that
      fails, is refused or is abandoned leaves no job running: the run is skipped or `lost` is set. */
  function Retimed(c: Settings, now: real, step: Step, p: Phase, p': Phase, t: T.Phase): Option<T.Phase> {
    match step
    case Local(_, BeginAcquire) => Some(T.Acquiring(now, None))
    case Local(_, ReadClock) => if t.Acquiring? then Some(T.Acquiring(t.started, Some(now))) else None
    case Local(_, GiveUp) => Some(T.Over)
    case Local(_, AcquireGet) => Some(if p'.Idle? then T.Over else t)
    case Local(_, Grant) =>
      if t.Acquiring? && t.reading.Some? then Some(T.Waiting(now, t.reading.value + c.timing.lease)) else None
    case Local(_, RenewGet) =>
      if t.Waiting? && now == t.since + c.timing.renewInterval then
        Some(if p'.Holding? then T.Over else T.Renewing(now, None, t.expiresAt))
      else None
    case Local(_, RenewClock) =>
      if t.Renewing? then Some(if p'.Holding? then T.Over else T.Renewing(t.started, Some(now), t.expiresAt)) else None
    case Local(_, RenewDone) =>
      if t.Renewing? && t.reading.Some? then Some(T.Waiting(now, t.reading.value + c.timing.lease)) else None
    case Local(_, Finish) => Some(T.Over)
    case Local(_, ReleaseGet) => Some(T.Over)
    case Land(_) => Some(if p.RenewSent? && p'.Holding? then T.Over else t)
    case Abandon(_) => Some(if p.Holding? then t else T.Over)
    case Crash(_) => Some(T.Over)
    case Tick(_) => Some(t)
    case LandOrphan(_, _) => Some(t)
    case DropOrphan(_, _) => Some(t)
  }

  function Actor(step: Step): Option<Worker> {
    match step
    case Local(w, _) => Some(w)
    case Land(w) => Some(w)
    case Abandon(w) => Some(w)
    case Crash(w) => Some(w)
    case Tick(_) => None
    case LandOrphan(_, _) => None
    case DropOrphan(_, _) => None
  }

  /** No operation outlasts its timeout, and no renewal comes late. */
  predicate WithinDeadlines(c: Settings, timing: map<Worker, T.Phase>, now: real) {
    forall w <- timing :: T.Deadline(c.timing, timing[w]).Some? ==> now <= T.Deadline(c.timing, timing[w]).value
  }

  ghost predicate TimedStep(c: Settings, t: Timed, t': Timed, step: Step) {
    && NextStep(Protocol(c), t.s, t'.s, step)
    && match Actor(step)
       case None => t'.timing == t.timing && WithinDeadlines(c, t.timing, t'.s.now)
       case Some(w) =>
         && w in t.timing && w in t.s.phases && w in t'.s.phases
         && var next := Retimed(c, t.s.now, step, t.s.phases[w], t'.s.phases[w], t.timing[w]);
            next.Some? && t'.timing == t.timing[w := next.value]
  }

  ghost predicate TimedNext(c: Settings, t: Timed, t': Timed) {
    exists step :: TimedStep(c, t, t', step)
  }

  ghost predicate TimedInit(c: Settings, t: Timed) {
    Init(Protocol(c), t.s) && t.timing == map w <- c.owners :: T.Over
  }

  ghost predicate IsTimedRun(c: Settings, run: seq<Timed>) {
    && |run| > 0 && TimedInit(c, run[0])
    && forall i, j :: 0 <= i && i + 1 == j < |run| ==> TimedNext(c, run[i], run[j])
  }

  /** The worker's job runs and has not been told of a loss. */
  predicate Runs(t: Timed, w: Worker) {
    w in t.timing && (t.timing[w].Waiting? || t.timing[w].Renewing?)
  }

  // ----- Each worker's run is a timed run of its own -----

  /** What the protocol phase holds is what the timing says. */
  ghost predicate Coupled(c: Settings, p: Phase, t: T.Phase) {
    match t
    case Acquiring(_, reading) =>
      (match p
       case AcquireStart(_) => true
       case AcquireTimed(_, n) => reading == Some(n)
       case AcquireSent(_, r) => !r.DeleteRequest? && reading.Some? &&
         r.record.expiresAt == reading.value + c.timing.lease
       case AcquireWon(lease) => reading.Some? && lease.expiresAt == reading.value + c.timing.lease
       case _ => false)
    case Waiting(_, expiresAt) => p.Holding? && p.lease.expiresAt == expiresAt
    case Renewing(_, reading, expiresAt) =>
      (match p
       case RenewGot(lease, _) => reading == None && lease.expiresAt == expiresAt
       case RenewSent(lease, r) =>
         lease.expiresAt == expiresAt && !r.DeleteRequest? && reading.Some? &&
           r.record.expiresAt == reading.value + c.timing.lease
       case RenewWon(lease, renewed) =>
         lease.expiresAt == expiresAt && reading.Some? && renewed.expiresAt == reading.value + c.timing.lease
       case _ => false)
    case Over => p.Idle? || p.Holding? || p.Releasing? || p.ReleaseSent?
  }

  ghost predicate WorkerOk(c: Settings, t: Timed, w: Worker)
    requires w in t.timing && w in t.s.phases
  {
    Coupled(c, t.s.phases[w], t.timing[w]) && T.Inv(c.timing, T.State(t.s.now, t.timing[w]))
  }

  ghost predicate TimedInv(c: Settings, t: Timed) {
    && t.timing.Keys == c.owners.Keys && t.s.phases.Keys == c.owners.Keys
    && forall w <- c.owners :: WorkerOk(c, t, w)
  }

  /** The actor's own step keeps phase and timing together. */
  lemma ActorKeepsCoupled(c: Settings, t: Timed, t': Timed, step: Step, w: Worker)
    requires TimedInv(c, t) && TimedStep(c, t, t', step) && Actor(step) == Some(w)
    ensures w in c.owners && w in t'.timing && w in t'.s.phases && Coupled(c, t'.s.phases[w], t'.timing[w])
  {
    assert w in c.owners && WorkerOk(c, t, w);
  }

  /** It is a step of the actor's own timed run, or begins one. */
  lemma ActorKeepsTiming(c: Settings, t: Timed, t': Timed, step: Step, w: Worker)
    requires c.timing.renewInterval >= 0.0 && c.timing.timeout >= 0.0
    requires TimedInv(c, t) && TimedStep(c, t, t', step) && Actor(step) == Some(w)
    ensures w in t'.timing && T.Inv(c.timing, T.State(t'.s.now, t'.timing[w]))
  {
    assert w in c.owners && WorkerOk(c, t, w);
    var before, after := T.State(t.s.now, t.timing[w]), T.State(t'.s.now, t'.timing[w]);
    if after.phase != before.phase && !after.phase.Acquiring? {
      assert T.Next(c.timing, before, after);
      T.NextKeepsInv(c.timing, before, after);
    }
  }

  lemma OthersKeepOk(c: Settings, t: Timed, t': Timed, step: Step, w: Worker)
    requires TimedInv(c, t) && TimedStep(c, t, t', step) && Actor(step) != Some(w) && w in c.owners
    requires c.timing.renewInterval >= 0.0 && c.timing.timeout >= 0.0
    ensures w in t'.timing && w in t'.s.phases && WorkerOk(c, t', w)
  {
    assert WorkerOk(c, t, w);
    assert t'.s.phases[w] == t.s.phases[w] && t'.timing[w] == t.timing[w];
    if Actor(step) == None {
      assert t'.s.now >= t.s.now;
      T.NextKeepsInv(c.timing, T.State(t.s.now, t.timing[w]), T.State(t'.s.now, t.timing[w]));
    }
  }

  lemma StepKeepsTimedInv(c: Settings, t: Timed, t': Timed)
    requires TimedInv(c, t) && TimedNext(c, t, t')
    requires c.timing.renewInterval >= 0.0 && c.timing.timeout >= 0.0
    ensures TimedInv(c, t')
  {
    var step :| TimedStep(c, t, t', step);
    forall w | w in c.owners ensures w in t'.timing && w in t'.s.phases && WorkerOk(c, t', w) {
      if Actor(step) == Some(w) {
        ActorKeepsCoupled(c, t, t', step, w);
        ActorKeepsTiming(c, t, t', step, w);
      } else {
        OthersKeepOk(c, t, t', step, w);
      }
    }
    KeysStay(c, t, t', step);
  }

  lemma KeysStay(c: Settings, t: Timed, t': Timed, step: Step)
    requires TimedInv(c, t) && TimedStep(c, t, t', step)
    ensures t'.timing.Keys == c.owners.Keys && t'.s.phases.Keys == c.owners.Keys
  {
  }

  lemma {:induction false} RunKeepsTimedInv(c: Settings, run: seq<Timed>, i: nat)
    requires IsTimedRun(c, run) && i < |run|
    requires c.timing.renewInterval >= 0.0 && c.timing.timeout >= 0.0
    ensures TimedInv(c, run[i])
  {
    if i > 0 {
      RunKeepsTimedInv(c, run, i - 1);
      assert TimedNext(c, run[i - 1], run[i]);
      StepKeepsTimedInv(c, run[i - 1], run[i]);
    }
  }

  // ----- No two jobs at once -----

  function Untimed(run: seq<Timed>): seq<P.State> {
    seq(|run|, i requires 0 <= i < |run| => run[i].s)
  }

  lemma UntimedRun(c: Settings, run: seq<Timed>)
    requires IsTimedRun(c, run)
    ensures P.IsRun(Protocol(c), Untimed(run))
  {
    var states := Untimed(run);
    forall i | 0 <= i < |states| - 1 ensures Next(Protocol(c), states[i], states[i + 1]) {
      assert TimedNext(c, run[i], run[i + 1]);
      var step :| TimedStep(c, run[i], run[i + 1], step);
      assert NextStep(Protocol(c), states[i], states[i + 1], step);
    }
  }

  /** A job that runs has a lease that has not run out, if two timeouts fit. */
  lemma RunningIsLive(c: Settings, t: Timed, w: Worker)
    requires TimedInv(c, t) && T.SignalsInTime(c.timing) && Runs(t, w)
    requires c.timing.renewInterval >= 0.0 && c.timing.timeout >= 0.0
    ensures Live(t.s, w)
  {
    assert WorkerOk(c, t, w);
  }

  /** No two jobs are ever running along the run. */
  ghost predicate ExclusiveJobs(run: seq<Timed>) {
    forall i, w1, w2 :: 0 <= i < |run| && Runs(run[i], w1) && Runs(run[i], w2) ==> w1 == w2
  }

  /** With distinct owners and room for two timeouts, whatever the delays, no two jobs run at once. */
  lemma JobsExclude(c: Settings, run: seq<Timed>)
    requires IsTimedRun(c, run) && DistinctOwners(Protocol(c)) && T.SignalsInTime(c.timing)
    requires c.timing.renewInterval >= 0.0 && c.timing.timeout >= 0.0
    ensures ExclusiveJobs(run)
  {
    forall i, w1, w2 | 0 <= i < |run| && Runs(run[i], w1) && Runs(run[i], w2) ensures w1 == w2 {
      RunKeepsTimedInv(c, run, i);
      RunningIsLive(c, run[i], w1);
      RunningIsLive(c, run[i], w2);
      UntimedRun(c, run);
      MutualExclusion(Protocol(c), Untimed(run), i, w1, w2);
    }
  }

  // ----- Runs in which they do -----

  lemma Extend(c: Settings, run: seq<Timed>, step: Step, t': Timed) returns (longer: seq<Timed>)
    requires IsTimedRun(c, run) && TimedStep(c, run[|run| - 1], t', step)
    ensures IsTimedRun(c, longer) && longer[|longer| - 1] == t'
  {
    longer := run + [t'];
    assert TimedNext(c, run[|run| - 1], t');
    forall i, j | 0 <= i && i + 1 == j < |longer| ensures TimedNext(c, longer[i], longer[j]) {
      if j < |run| { assert TimedNext(c, run[i], run[j]); }
    }
  }

  function With(t: Timed, w: Worker, p: Phase, x: T.Phase): Timed {
    Timed(t.s.(phases := t.s.phases[w := p]), t.timing[w := x])
  }

  /** One step of a worker that changes nothing but its phase and its timing. */
  lemma ExtendLocal(c: Settings, run: seq<Timed>, w: Worker, action: Action, p: Phase, x: T.Phase)
    returns (longer: seq<Timed>)
    requires IsTimedRun(c, run)
    requires var t := run[|run| - 1];
             && w in t.s.phases && w in t.timing && w in c.owners
             && LocalStep(Protocol(c), t.s, action, w) == Some(p)
             && Retimed(c, t.s.now, Local(w, action), t.s.phases[w], p, t.timing[w]) == Some(x)
    ensures IsTimedRun(c, longer) && longer[|longer| - 1] == With(run[|run| - 1], w, p, x)
  {
    longer := Extend(c, run, Local(w, action), With(run[|run| - 1], w, p, x));
  }

  lemma ExtendTick(c: Settings, run: seq<Timed>, delta: real) returns (longer: seq<Timed>)
    requires IsTimedRun(c, run) && delta >= 0.0
    requires var t := run[|run| - 1]; WithinDeadlines(c, t.timing, t.s.now + delta)
    ensures IsTimedRun(c, longer)
    ensures var t := run[|run| - 1]; longer[|longer| - 1] == t.(s := t.s.(now := t.s.now + delta))
  {
    var t := run[|run| - 1];
    longer := Extend(c, run, Tick(delta), t.(s := t.s.(now := t.s.now + delta)));
  }

  /** The next step of a worker whose phase and timing were the last to change. */
  lemma ExtendAgain(c: Settings, run: seq<Timed>, t: Timed, w: Worker, p: Phase, x: T.Phase,
                    action: Action, p': Phase, x': T.Phase) returns (longer: seq<Timed>)
    requires IsTimedRun(c, run) && w in t.s.phases && w in t.timing && w in c.owners
    requires run[|run| - 1] == With(t, w, p, x)
    requires LocalStep(Protocol(c), With(t, w, p, x).s, action, w) == Some(p')
    requires Retimed(c, t.s.now, Local(w, action), p, p', x) == Some(x')
    ensures IsTimedRun(c, longer) && longer[|longer| - 1] == With(t, w, p', x')
  {
    longer := ExtendLocal(c, run, w, action, p', x');
    assert t.s.phases[w := p][w := p'] == t.s.phases[w := p'] && t.timing[w := x][w := x'] == t.timing[w := x'];
  }

  /** A worker that asks for the lease of a key that is free, taking no time. */
  lemma AskForLease(c: Settings, start: seq<Timed>, w: Worker) returns (run: seq<Timed>)
    requires IsTimedRun(c, start) && w in c.owners
    requires var t := start[|start| - 1]; w in t.s.phases && w in t.timing && t.s.phases[w] == Idle
    requires var t := start[|start| - 1]; AcquireRequest(c.owners[w], c.timing.lease, t.s.now, t.s.slot).Some?
    ensures IsTimedRun(c, run)
    ensures var t := start[|start| - 1];
            run[|run| - 1] ==
            With(t, w, AcquireSent(MAX_TRIES, AcquireRequest(c.owners[w], c.timing.lease, t.s.now, t.s.slot).value),
                 T.Acquiring(t.s.now, Some(t.s.now)))
  {
    var t := start[|start| - 1];
    var now, x := t.s.now, T.Acquiring(t.s.now, Some(t.s.now));
    var r := AcquireRequest(c.owners[w], c.timing.lease, now, t.s.slot).value;
    var p0, p1, p2 := AcquireStart(MAX_TRIES), AcquireTimed(MAX_TRIES, now), AcquireSent(MAX_TRIES, r);
    run := ExtendLocal(c, start, w, BeginAcquire, p0, T.Acquiring(now, None));
    run := ExtendAgain(c, run, t, w, p0, T.Acquiring(now, None), ReadClock, p1, x);
    run := ExtendAgain(c, run, t, w, p1, x, AcquireGet, p2, x);
  }

  function WithSlot(t: Timed, slot: Slot<LeaseRecord>): Timed {
    t.(s := t.s.(slot := slot))
  }

  /** The slot after a worker took the lease now. */
  function Taken(c: Settings, s: P.State, w: Worker): Slot<LeaseRecord>
    requires w in c.owners
  {
    Slot(s.slot.revision + 1, Some(LeaseRecord(c.owners[w], s.now + c.timing.lease)))
  }

  predicate Free(s: P.State) {
    s.slot.value.Some? ==> s.slot.value.value.expiresAt <= s.now
  }

  /** An uncontended acquire up to the answer. */
  lemma WinAcquire(c: Settings, start: seq<Timed>, w: Worker) returns (run: seq<Timed>)
    requires IsTimedRun(c, start) && w in c.owners
    requires var t := start[|start| - 1]; w in t.s.phases && w in t.timing && t.s.phases[w] == Idle && Free(t.s)
    ensures IsTimedRun(c, run)
    ensures var t := start[|start| - 1];
            run[|run| - 1] ==
            With(WithSlot(t, Taken(c, t.s, w)), w,
                 AcquireWon(Lease(t.s.slot.revision + 1, t.s.now + c.timing.lease)),
                 T.Acquiring(t.s.now, Some(t.s.now)))
  {
    var t := start[|start| - 1];
    var x := T.Acquiring(t.s.now, Some(t.s.now));
    var won := AcquireWon(Lease(t.s.slot.revision + 1, t.s.now + c.timing.lease));
    run := AskForLease(c, start, w);
    var u := run[|run| - 1];
    var u' := With(WithSlot(t, Taken(c, t.s, w)), w, won, x);
    assert u'.s.phases == u.s.phases[w := won] && u'.timing == u.timing[w := x];
    run := Extend(c, run, Land(w), u');
  }

  /** The same with the answer in, so that the job runs. */
  lemma Acquire(c: Settings, start: seq<Timed>, w: Worker) returns (run: seq<Timed>)
    requires IsTimedRun(c, start) && w in c.owners
    requires var t := start[|start| - 1]; w in t.s.phases && w in t.timing && t.s.phases[w] == Idle && Free(t.s)
    ensures IsTimedRun(c, run)
    ensures var t := start[|start| - 1];
            run[|run| - 1] ==
            With(WithSlot(t, Taken(c, t.s, w)), w,
                 Holding(Lease(t.s.slot.revision + 1, t.s.now + c.timing.lease)),
                 T.Waiting(t.s.now, t.s.now + c.timing.lease))
  {
    var t := start[|start| - 1];
    var lease := Lease(t.s.slot.revision + 1, t.s.now + c.timing.lease);
    run := WinAcquire(c, start, w);
    run := ExtendAgain(c, run, WithSlot(t, Taken(c, t.s, w)), w, AcquireWon(lease), T.Acquiring(t.s.now, Some(t.s.now)),
                       Grant, Holding(lease), T.Waiting(t.s.now, lease.expiresAt));
  }

  function Start(c: Settings): Timed {
    Timed(P.State(0.0, Slot(0, None), map w <- c.owners :: Idle, {}), map w <- c.owners :: T.Over)
  }

  lemma StartRun(c: Settings)
    ensures IsTimedRun(c, [Start(c)])
  {
  }

  /** Everybody is idle but one worker, whose lease runs out at l. */
  ghost predicate Alone(c: Settings, t: Timed, w: Worker, p: Phase, x: T.Phase, l: real) {
    && w in c.owners
    && t.s.phases == (map v <- c.owners :: Idle)[w := p]
    && t.timing == (map v <- c.owners :: T.Over)[w := x]
    && t.s.slot == Slot(1, Some(LeaseRecord(c.owners[w], l)))
  }

  ghost predicate Overlap(run: seq<Timed>, w1: Worker, w2: Worker) {
    |run| > 0 && w1 != w2 && Runs(run[|run| - 1], w1) && Runs(run[|run| - 1], w2)
  }

  /** An acquire whose answer takes as long as it may. */
  lemma SlowAcquire(c: Settings, w: Worker) returns (run: seq<Timed>)
    requires w in c.owners && c.timing.timeout >= 0.0
    ensures IsTimedRun(c, run)
    ensures run[|run| - 1].s.now == c.timing.timeout
    ensures var t := run[|run| - 1];
            Alone(c, t, w, Holding(Lease(1, c.timing.lease)), T.Waiting(c.timing.timeout, c.timing.lease),
              c.timing.lease)
  {
    var l, d := c.timing.lease, c.timing.timeout;
    StartRun(c);
    run := WinAcquire(c, [Start(c)], w);
    run := ExtendTick(c, run, d);
    var t := WithSlot(Start(c), Taken(c, Start(c).s, w));
    var later := t.(s := t.s.(now := d));
    assert run[|run| - 1] == With(later, w, AcquireWon(Lease(1, l)), T.Acquiring(0.0, Some(0.0)));
    run := ExtendAgain(c, run, later, w, AcquireWon(Lease(1, l)), T.Acquiring(0.0, Some(0.0)),
                       Grant, Holding(Lease(1, l)), T.Waiting(d, l));
  }

  /** ... and whose first renewal hangs as long as it may. */
  lemma HangingRenewal(c: Settings, w: Worker) returns (run: seq<Timed>)
    requires w in c.owners && c.timing.renewInterval >= 0.0 && c.timing.timeout >= 0.0
    ensures IsTimedRun(c, run) && run[|run| - 1].s.now == c.timing.timeout + c.timing.renewInterval + c.timing.timeout
    ensures var t := run[|run| - 1];
            && t.s.phases.Keys == t.timing.Keys == c.owners.Keys
            && t.timing[w].Renewing? && t.s.slot == Slot(1, Some(LeaseRecord(c.owners[w], c.timing.lease)))
            && forall v <- c.owners :: v != w ==> t.s.phases[v] == Idle
  {
    var l, r, d := c.timing.lease, c.timing.renewInterval, c.timing.timeout;
    run := SlowAcquire(c, w);
    run := ExtendTick(c, run, r);
    var p := RenewGot(Lease(1, l), run[|run| - 1].s.slot);
    run := ExtendLocal(c, run, w, RenewGet, p, T.Renewing(d + r, None, l));
    run := ExtendTick(c, run, d);
  }

  /** One worker's acquire answers late and its first renewal hangs; by then the lease has run out and another
      worker takes over. */
  lemma SlowHolder(c: Settings, w1: Worker, w2: Worker) returns (run: seq<Timed>)
    requires w1 in c.owners && w2 in c.owners && w1 != w2 && !T.SignalsInTime(c.timing)
    requires c.timing.renewInterval >= 0.0 && c.timing.timeout >= 0.0
    ensures IsTimedRun(c, run) && Overlap(run, w1, w2)
  {
    run := HangingRenewal(c, w1);
    run := Acquire(c, run, w2);
  }

  /** A worker that ends its job at once and stalls before the release, until another one has taken over. */
  lemma StalledRelease(c: Settings, w1: Worker, w2: Worker) returns (run: seq<Timed>)
    requires w1 in c.owners && w2 in c.owners && w1 != w2 && c.timing.lease >= 0.0
    ensures IsTimedRun(c, run)
    ensures var t := run[|run| - 1];
            && t.s.phases.Keys == t.timing.Keys == c.owners.Keys
            && t.s.phases[w1] == Releasing && t.timing[w1] == T.Over && t.timing[w2].Waiting?
            && t.s.slot.revision == 2 && t.s.slot.value.Some? && t.s.slot.value.value.owner == c.owners[w2]
  {
    StartRun(c);
    run := Acquire(c, [Start(c)], w1);
    run := ExtendLocal(c, run, w1, Finish, Releasing, T.Over);
    run := ExtendTick(c, run, c.timing.lease);
    run := Acquire(c, run, w2);
  }

  /** The release of a record that another worker stored under the same owner id. */
  lemma ReleaseOfAnother(c: Settings, start: seq<Timed>, w1: Worker, w2: Worker) returns (run: seq<Timed>)
    requires IsTimedRun(c, start) && w1 in c.owners && w2 in c.owners && w1 != w2 && c.owners[w1] == c.owners[w2]
    requires var t := start[|start| - 1];
             && t.s.phases.Keys == t.timing.Keys == c.owners.Keys
             && t.s.phases[w1] == Releasing && t.timing[w1] == T.Over && t.timing[w2].Waiting?
             && t.s.slot.revision == 2 && t.s.slot.value.Some? && t.s.slot.value.value.owner == c.owners[w2]
    ensures IsTimedRun(c, run)
    ensures var t := run[|run| - 1];
            && t.s.phases.Keys == t.timing.Keys == c.owners.Keys
            && t.s.phases[w1] == Idle && t.timing[w2].Waiting? && t.s.slot.value.None?
  {
    run := ExtendLocal(c, start, w1, ReleaseGet, ReleaseSent(DeleteRequest(2)), T.Over);
    var t := run[|run| - 1];
    var s := t.s.(slot := Slot(3, None), phases := t.s.phases[w1 := Idle]);
    run := Extend(c, run, Land(w1), Timed(s, t.timing[w1 := T.Over]));
  }

  /** One worker stalls between the end of its job and its release; another one under the same owner id takes
      over, has its record released by the first, and the first acquires anew. */
  lemma LateRelease(c: Settings, w1: Worker, w2: Worker) returns (run: seq<Timed>)
    requires w1 in c.owners && w2 in c.owners && w1 != w2 && c.owners[w1] == c.owners[w2]
    requires c.timing.lease >= 0.0
    ensures IsTimedRun(c, run) && Overlap(run, w1, w2)
  {
    run := StalledRelease(c, w1, w2);
    run := ReleaseOfAnother(c, run, w1, w2);
    run := Acquire(c, run, w1);
  }

  /** Jobs exclude each other along every run exactly when owner ids are distinct and two timeouts fit. */
  lemma JobsExcludeIff(c: Settings)
    requires c.timing.lease >= 0.0 && c.timing.renewInterval >= 0.0 && c.timing.timeout >= 0.0
    requires exists w1, w2 :: w1 in c.owners && w2 in c.owners && w1 != w2
    ensures (forall run: seq<Timed> :: IsTimedRun(c, run) ==> ExclusiveJobs(run))
            <==> DistinctOwners(Protocol(c)) && T.SignalsInTime(c.timing)
  {
    if !DistinctOwners(Protocol(c)) {
      var w1, w2 :| w1 in c.owners && w2 in c.owners && c.owners[w1] == c.owners[w2] && w1 != w2;
      var run := LateRelease(c, w1, w2);
      assert !ExclusiveJobs(run);
    } else if !T.SignalsInTime(c.timing) {
      var w1, w2 :| w1 in c.owners && w2 in c.owners && w1 != w2;
      var run := SlowHolder(c, w1, w2);
      assert !ExclusiveJobs(run);
    } else {
      forall run: seq<Timed> | IsTimedRun(c, run) ensures ExclusiveJobs(run) { JobsExclude(c, run); }
    }
  }
}
