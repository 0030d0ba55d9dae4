/** `NatsRateLimitBackend.check` run by any number of processes on one stored counter.  Each call reads
    the clock, reads the key and tries one conditional write, at most eight times; a call that times
    out may leave its write on the wire.  Main result: the calls behave like an atomic counter. */
module CasLimiter {
  import opened Wrappers
  import opened KeyValue
  import opened FixedWindow

  type CallId = nat

  const MAX_TRIES: nat := 8

  datatype Phase =
    | Start(tries: nat)
    | Timed(tries: nat, reading: real)
    | Sent(tries: nat, reading: real, seen: Slot<Counter>)    // conditional write on the wire
    | Detached(reading: real, seen: Slot<Counter>)            // caller gone, write still on the wire
    | Answered(verdict: Verdict)
    | Contended                                               // "contention exceeded retry budget"
    | Gone                                                    // caller gone, nothing on the wire

  /** What is remembered about a call from the moment it began. */
  datatype Call = Call(phase: Phase, startTime: real, startRevision: nat, startLog: nat)

  /** The moment a call took effect on the counter. */
  datatype Effect = Effect(id: CallId, reading: real, verdict: Verdict)

  datatype State = State(now: real, slot: Slot<Counter>, calls: map<CallId, Call>, log: seq<Effect>)

  datatype Step =
    | Tick(delta: real)
    | Begin(id: CallId)
    | ReadClock(id: CallId)
    | Get(id: CallId)
    | Land(id: CallId)
    | GiveUp(id: CallId)
    | Abandon(id: CallId)

  /** The counter a call writes after seeing `seen`, or None when it refuses without writing. */
  function Proposal(p: Policy, seen: Slot<Counter>, reading: real): Option<Counter> {
    var (verdict, after) := SharedStep(p, seen.value, reading);
    if verdict.Admit? then after else None
  }

  /** create when the key was absent, update at the revision seen otherwise. */
  function TryWrite(slot: Slot<Counter>, seen: Slot<Counter>, v: Counter): Option<Slot<Counter>> {
    if seen.value.None? then Create(slot, v) else Update(slot, v, seen.revision)
  }

  ghost predicate NextStep(p: Policy, s: State, s': State, step: Step) {
    match step
    case Tick(delta) => delta >= 0.0 && s' == s.(now := s.now + delta)
    case Begin(id) =>
      id !in s.calls && s' == s.(calls := s.calls[id := Call(Start(MAX_TRIES), s.now, s.slot.revision, |s.log|)])
    case ReadClock(id) =>
      && id in s.calls && s.calls[id].phase.Start? && s.calls[id].phase.tries > 0
      && s' == s.(calls := s.calls[id := s.calls[id].(phase := Timed(s.calls[id].phase.tries, s.now))])
    case Get(id) =>
      && id in s.calls && s.calls[id].phase.Timed?
      && var Timed(k, n) := s.calls[id].phase;
      var (verdict, _) := SharedStep(p, s.slot.value, n);
      s' == if verdict.Admit? then s.(calls := s.calls[id := s.calls[id].(phase := Sent(k, n, s.slot))])
            else s.(calls := s.calls[id := s.calls[id].(phase := Answered(verdict))],
                    log := s.log + [Effect(id, n, verdict)])
    case Land(id) =>
      && id in s.calls && (s.calls[id].phase.Sent? || s.calls[id].phase.Detached?)
      && var c := s.calls[id];
      && Proposal(p, c.phase.seen, c.phase.reading).Some?
      && var slot' := TryWrite(s.slot, c.phase.seen, Proposal(p, c.phase.seen, c.phase.reading).value);
      if slot'.Some? then
        s' == s.(slot := slot'.value, log := s.log + [Effect(id, c.phase.reading, Admit)],
                 calls := s.calls[id := c.(phase := if c.phase.Sent? then Answered(Admit) else Gone)])
      else if c.phase.Sent? then
        c.phase.tries > 0 && s' == s.(calls := s.calls[id := c.(phase := Start(c.phase.tries - 1))])
      else
        s' == s.(calls := s.calls[id := c.(phase := Gone)])
    case GiveUp(id) =>
      && id in s.calls && s.calls[id].phase == Start(0)
      && s' == s.(calls := s.calls[id := s.calls[id].(phase := Contended)])
    case Abandon(id) =>
      && id in s.calls
      && var ph := s.calls[id].phase;
      && (ph.Start? || ph.Timed? || ph.Sent?)
      && s' == s.(calls := s.calls[id := s.calls[id].(
                    phase := if ph.Sent? then Detached(ph.reading, ph.seen) else Gone)])
  }

  ghost predicate Next(p: Policy, s: State, s': State) {
    exists step :: NextStep(p, s, s', step)
  }

  ghost predicate IsRun(p: Policy, run: seq<State>) {
    && |run| > 0
    && run[0].slot == Slot(0, None) && run[0].calls == map[] && run[0].log == []
    && forall i :: 0 <= i < |run| - 1 ==> Next(p, run[i], run[i + 1])
  }

  // ----- The atomic counter the log is checked against -----

  function Readings(log: seq<Effect>): seq<real> {
    if log == [] then [] else Readings(log[..|log| - 1]) + [log[|log| - 1].reading]
  }

  /** Every effect is the answer an atomic counter gives after those before it. */
  ghost predicate AnswersMatch(p: Policy, log: seq<Effect>) {
    log == [] ||
    var before, last := log[..|log| - 1], log[|log| - 1];
    AnswersMatch(p, before) && last.verdict == SharedStep(p, Final(p, Readings(before)), last.reading).0
  }

  /** The log is a run of the atomic counter that ends in the stored value. */
  ghost predicate Linearizes(p: Policy, slot: Slot<Counter>, log: seq<Effect>) {
    AnswersMatch(p, log) && Final(p, Readings(log)) == slot.value
  }

  function Admissions(log: seq<Effect>): nat {
    if log == [] then 0
    else Admissions(log[..|log| - 1]) + if log[|log| - 1].verdict.Admit? then 1 else 0
  }

  ghost predicate Silent(log: seq<Effect>, id: CallId) {
    forall i :: 0 <= i < |log| ==> log[i].id != id
  }

  /** The call took effect at position `i` only, after it began and at a clock reading made while it ran. */
  ghost predicate OnlyEffect(now: real, log: seq<Effect>, id: CallId, c: Call, verdict: Verdict, i: nat) {
    && c.startLog <= i < |log|
    && log[i].id == id && log[i].verdict == verdict && c.startTime <= log[i].reading <= now
    && forall j :: 0 <= j < |log| && log[j].id == id ==> j == i
  }

  ghost predicate TookEffect(now: real, log: seq<Effect>, id: CallId, c: Call, verdict: Verdict) {
    exists i :: OnlyEffect(now, log, id, c, verdict, i)
  }

  // ----- The invariant -----

  /** Progress of the retry loop: each lost race cost a write by another call. */
  ghost predicate Raced(c: Call, tries: nat, revision: nat) {
    tries <= MAX_TRIES && revision >= c.startRevision + (MAX_TRIES - tries)
  }

  ghost predicate BeganOk(now: real, log: seq<Effect>, c: Call) {
    c.startLog <= |log| && c.startRevision == Admissions(log[..c.startLog]) && c.startTime <= now
  }

  ghost predicate PhaseOk(p: Policy, now: real, slot: Slot<Counter>, log: seq<Effect>, id: CallId, c: Call) {
    match c.phase
    case Start(k) => Raced(c, k, slot.revision) && Silent(log, id)
    case Timed(k, n) => k > 0 && Raced(c, k, slot.revision) && Silent(log, id) && c.startTime <= n <= now
    case Sent(k, n, seen) =>
      && k > 0 && Raced(c, k, seen.revision) && Evolves(seen, slot) && Silent(log, id)
      && Proposal(p, seen, n).Some? && c.startTime <= n <= now
    case Detached(n, seen) =>
      && Evolves(seen, slot) && Silent(log, id) && Proposal(p, seen, n).Some? && c.startTime <= n <= now
    case Answered(verdict) => TookEffect(now, log, id, c, verdict)
    case Contended => Raced(c, 0, slot.revision) && Silent(log, id)
    case Gone => Silent(log, id) || TookEffect(now, log, id, c, Admit)
  }

  ghost predicate CallOk(p: Policy, now: real, slot: Slot<Counter>, log: seq<Effect>, id: CallId, c: Call) {
    BeganOk(now, log, c) && PhaseOk(p, now, slot, log, id, c)
  }

  ghost predicate LogOk(p: Policy, s: State) {
    && Linearizes(p, s.slot, s.log)
    && s.slot.revision == Admissions(s.log)
    && forall i :: 0 <= i < |s.log| ==> s.log[i].id in s.calls
  }

  ghost predicate CallsOk(p: Policy, s: State) {
    forall id <- s.calls :: CallOk(p, s.now, s.slot, s.log, id, s.calls[id])
  }

  ghost predicate Inv(p: Policy, s: State) {
    LogOk(p, s) && CallsOk(p, s)
  }

  lemma ReadingsSnoc(log: seq<Effect>, e: Effect)
    ensures Readings(log + [e]) == Readings(log) + [e.reading]
  {
    assert (log + [e])[..|log|] == log;
  }

  /** Appending the effect an atomic counter would have keeps the log a run of that counter. */
  lemma AnswersSnoc(p: Policy, log: seq<Effect>, e: Effect)
    requires AnswersMatch(p, log)
    requires e.verdict == SharedStep(p, Final(p, Readings(log)), e.reading).0
    ensures AnswersMatch(p, log + [e])
  {
    assert (log + [e])[..|log|] == log;
  }

  lemma FinalSnoc(p: Policy, log: seq<Effect>, e: Effect)
    ensures Final(p, Readings(log + [e])) == SharedStep(p, Final(p, Readings(log)), e.reading).1
  {
    ReadingsSnoc(log, e);
    var times := Readings(log);
    assert (times + [e.reading])[..|times|] == times;
  }

  lemma AdmissionsSnoc(log: seq<Effect>, e: Effect)
    ensures Admissions(log + [e]) == Admissions(log) + if e.verdict.Admit? then 1 else 0
  {
    assert (log + [e])[..|log|] == log;
  }

  lemma LaterTookEffect(now: real, now': real, log: seq<Effect>, more: seq<Effect>, id: CallId, c: Call, v: Verdict)
    requires now <= now' && TookEffect(now, log, id, c, v) && Silent(more, id)
    ensures TookEffect(now', log + more, id, c, v)
  {
    var i :| OnlyEffect(now, log, id, c, v, i);
    var longer := log + more;
    assert forall j :: |log| <= j < |longer| ==> longer[j] == more[j - |log|];
    assert OnlyEffect(now', longer, id, c, v, i);
  }

  /** Time passing and other calls' effects change nothing about a call but how far things have moved on. */
  lemma OthersKeep(p: Policy, now: real, now': real, slot: Slot<Counter>, slot': Slot<Counter>,
                   log: seq<Effect>, more: seq<Effect>, id: CallId, c: Call)
    requires CallOk(p, now, slot, log, id, c)
    requires now <= now' && Evolves(slot, slot') && Silent(more, id)
    ensures CallOk(p, now', slot', log + more, id, c)
  {
    assert (log + more)[..c.startLog] == log[..c.startLog];
    if c.phase.Answered? {
      LaterTookEffect(now, now', log, more, id, c, c.phase.verdict);
    } else if c.phase.Gone? && TookEffect(now, log, id, c, Admit) {
      LaterTookEffect(now, now', log, more, id, c, Admit);
    }
  }

  /** The call's own effect: it had none before and now has exactly one. */
  lemma OwnEffect(now: real, log: seq<Effect>, id: CallId, c: Call, e: Effect)
    requires BeganOk(now, log, c) && Silent(log, id)
    requires e.id == id && c.startTime <= e.reading <= now
    ensures BeganOk(now, log + [e], c)
    ensures TookEffect(now, log + [e], id, c, e.verdict)
  {
    assert (log + [e])[..c.startLog] == log[..c.startLog];
    assert OnlyEffect(now, log + [e], id, c, e.verdict, |log|);
  }

  /** A step of one call that touches neither the key nor the log. */
  lemma LocalKeepsInv(p: Policy, s: State, s': State, id: CallId, c: Call)
    requires Inv(p, s) && s' == s.(calls := s.calls[id := c])
    requires CallOk(p, s.now, s.slot, s.log, id, c)
    ensures Inv(p, s')
  {
  }

  lemma EffectKeepsLog(p: Policy, s: State, s': State, e: Effect)
    requires LogOk(p, s) && s'.log == s.log + [e] && s.calls.Keys <= s'.calls.Keys && e.id in s'.calls
    requires SharedStep(p, s.slot.value, e.reading) == (e.verdict, s'.slot.value)
    requires s'.slot.revision == s.slot.revision + if e.verdict.Admit? then 1 else 0
    ensures LogOk(p, s')
  {
    AnswersSnoc(p, s.log, e);
    FinalSnoc(p, s.log, e);
    AdmissionsSnoc(s.log, e);
    forall i | 0 <= i < |s'.log| ensures s'.log[i].id in s'.calls {
      if i < |s.log| { assert s'.log[i] == s.log[i]; }
    }
  }

  /** A step in which one call takes effect as the atomic counter would. */
  lemma EffectKeepsInv(p: Policy, s: State, s': State, id: CallId, c: Call, e: Effect, slot': Slot<Counter>)
    requires Inv(p, s) && id in s.calls
    requires s' == s.(slot := slot', log := s.log + [e], calls := s.calls[id := c])
    requires BeganOk(s.now, s.log, c) && Silent(s.log, id) && e.id == id && c.startTime <= e.reading <= s.now
    requires c.phase == Answered(e.verdict) || (c.phase == Gone && e.verdict == Admit)
    requires SharedStep(p, s.slot.value, e.reading) == (e.verdict, slot'.value)
    requires Evolves(s.slot, slot') && slot'.revision == s.slot.revision + if e.verdict.Admit? then 1 else 0
    ensures Inv(p, s')
  {
    EffectKeepsLog(p, s, s', e);
    forall other | other in s'.calls ensures CallOk(p, s'.now, s'.slot, s'.log, other, s'.calls[other]) {
      if other == id {
        OwnEffect(s.now, s.log, id, c, e);
      } else {
        OthersKeep(p, s.now, s.now, s.slot, slot', s.log, [e], other, s.calls[other]);
      }
    }
  }

  lemma GetKeepsInv(p: Policy, s: State, s': State, id: CallId)
    requires Inv(p, s) && NextStep(p, s, s', Get(id))
    ensures Inv(p, s')
  {
    var c := s.calls[id];
    var Timed(k, n) := c.phase;
    assert CallOk(p, s.now, s.slot, s.log, id, c);
    var (verdict, _) := SharedStep(p, s.slot.value, n);
    if verdict.Reject? {
      EffectKeepsInv(p, s, s', id, c.(phase := Answered(verdict)), Effect(id, n, verdict), s.slot);
    } else {
      LocalKeepsInv(p, s, s', id, c.(phase := Sent(k, n, s.slot)));
    }
  }

  lemma LandKeepsInv(p: Policy, s: State, s': State, id: CallId)
    requires Inv(p, s) && NextStep(p, s, s', Land(id))
    ensures Inv(p, s')
  {
    var c := s.calls[id];
    assert CallOk(p, s.now, s.slot, s.log, id, c);
    var seen, n := c.phase.seen, c.phase.reading;
    var slot' := TryWrite(s.slot, seen, Proposal(p, seen, n).value);
    if slot'.Some? {
      assert s.slot.value == seen.value;
      EffectKeepsInv(p, s, s', id, s'.calls[id], Effect(id, n, Admit), slot'.value);
    } else {
      assert s.slot.revision > seen.revision by { FinalIsSome(p, s); }
      LocalKeepsInv(p, s, s', id, s'.calls[id]);
    }
  }

  /** The key, once written, always holds a value: the limiter never deletes. */
  lemma FinalIsSome(p: Policy, s: State)
    requires LogOk(p, s)
    ensures s.slot.revision > 0 ==> s.slot.value.Some?
  {
    if s.log != [] {
      var before := s.log[..|s.log| - 1];
      FinalSnoc(p, before, s.log[|s.log| - 1]);
      assert before + [s.log[|s.log| - 1]] == s.log;
      NeverDeleted(p, Readings(before), s.log[|s.log| - 1].reading);
    }
  }

  lemma NeverDeleted(p: Policy, times: seq<real>, now: real)
    ensures SharedStep(p, Final(p, times), now).1.Some?
  {
  }

  lemma TickKeepsInv(p: Policy, s: State, s': State)
    requires Inv(p, s) && s' == s.(now := s'.now) && s.now <= s'.now
    ensures Inv(p, s')
  {
    forall id | id in s'.calls ensures CallOk(p, s'.now, s'.slot, s'.log, id, s'.calls[id]) {
      OthersKeep(p, s.now, s'.now, s.slot, s.slot, s.log, [], id, s.calls[id]);
      assert s.log + [] == s.log;
    }
  }

  lemma BeginKeepsInv(p: Policy, s: State, s': State, id: CallId)
    requires Inv(p, s) && NextStep(p, s, s', Begin(id))
    ensures Inv(p, s')
  {
    assert s.log[..|s.log|] == s.log;
    LocalKeepsInv(p, s, s', id, s'.calls[id]);
  }

  lemma NextKeepsInv(p: Policy, s: State, s': State)
    requires Inv(p, s) && Next(p, s, s')
    ensures Inv(p, s')
  {
    var step :| NextStep(p, s, s', step);
    match step
    case Tick(_) => TickKeepsInv(p, s, s');
    case Begin(id) => BeginKeepsInv(p, s, s', id);
    case Get(id) => GetKeepsInv(p, s, s', id);
    case Land(id) => LandKeepsInv(p, s, s', id);
    case ReadClock(id) => StayKeepsInv(p, s, s', step, id);
    case GiveUp(id) => StayKeepsInv(p, s, s', step, id);
    case Abandon(id) => StayKeepsInv(p, s, s', step, id);
  }

  lemma StayKeepsInv(p: Policy, s: State, s': State, step: Step, id: CallId)
    requires Inv(p, s) && NextStep(p, s, s', step)
    requires step == ReadClock(id) || step == GiveUp(id) || step == Abandon(id)
    ensures Inv(p, s')
  {
    assert CallOk(p, s.now, s.slot, s.log, id, s.calls[id]);
    LocalKeepsInv(p, s, s', id, s'.calls[id]);
  }

  lemma {:induction false} RunKeepsInv(p: Policy, run: seq<State>, i: nat)
    requires IsRun(p, run) && i < |run|
    ensures Inv(p, run[i])
  {
    if i > 0 {
      RunKeepsInv(p, run, i - 1);
      assert Next(p, run[i - 1], run[i - 1 + 1]);
      NextKeepsInv(p, run[i - 1], run[i]);
    }
  }

  // ----- Main results -----

  /** Every concurrent run behaves like an atomic counter: the effects, in the order they took place,
      are a sequential run of the counter ending in the stored value; each answered call had exactly
      one effect, its own answer, while it was running; refused or failed calls charged nothing. */
  lemma CallsLinearize(p: Policy, run: seq<State>, i: nat)
    requires IsRun(p, run) && i < |run|
    ensures Linearizes(p, run[i].slot, run[i].log)
    ensures forall id <- run[i].calls :: run[i].calls[id].phase.Answered? ==>
              TookEffect(run[i].now, run[i].log, id, run[i].calls[id], run[i].calls[id].phase.verdict)
    ensures forall id <- run[i].calls :: run[i].calls[id].phase.Contended? ==> Silent(run[i].log, id)
  {
    RunKeepsInv(p, run, i);
    forall id | id in run[i].calls ensures CallOk(p, run[i].now, run[i].slot, run[i].log, id, run[i].calls[id]) {}
  }

  /** The stored count is the number of effects charged to the stored window, and within the limit; no
      window of the run was ever charged more than the limit. */
  lemma ChargesMatchStoredCount(p: Policy, run: seq<State>, i: nat)
    requires IsRun(p, run) && i < |run| && p.limit >= 1 && p.window > 0.0
    ensures forall r :: Charged(p, Readings(run[i].log), r) <= p.limit
    ensures run[i].slot.value.Some? ==>
              run[i].slot.value.value.count == Charged(p, Readings(run[i].log), run[i].slot.value.value.resetAt)
  {
    RunKeepsInv(p, run, i);
    ChargesWithinLimit(p, Readings(run[i].log));
  }

  lemma {:induction false} AdmissionsSplit(log: seq<Effect>, k: nat)
    requires k <= |log|
    ensures Admissions(log) == Admissions(log[..k]) + Admissions(log[k..])
  {
    if k == |log| {
      assert log[..k] == log;
    } else {
      var short := log[..|log| - 1];
      AdmissionsSplit(short, k);
      assert short[..k] == log[..k] && short[k..] == log[k..][..|log[k..]| - 1];
    }
  }

  /** The "contention" error means at least eight admissions by other calls while this one ran. */
  lemma ContentionMeansEightWrites(p: Policy, run: seq<State>, i: nat, id: CallId)
    requires IsRun(p, run) && i < |run| && id in run[i].calls && run[i].calls[id].phase.Contended?
    ensures run[i].calls[id].startLog <= |run[i].log|
    ensures Admissions(run[i].log[run[i].calls[id].startLog..]) >= MAX_TRIES
    ensures Silent(run[i].log, id)
  {
    RunKeepsInv(p, run, i);
    var c := run[i].calls[id];
    assert CallOk(p, run[i].now, run[i].slot, run[i].log, id, c);
    AdmissionsSplit(run[i].log, c.startLog);
  }

  // ----- A call that is left alone -----

  lemma Extend(p: Policy, run: seq<State>, step: Step, s': State) returns (longer: seq<State>)
    requires IsRun(p, run) && NextStep(p, run[|run| - 1], s', step)
    ensures IsRun(p, longer) && longer[|longer| - 1] == s'
  {
    longer := run + [s'];
    assert Next(p, run[|run| - 1], s');
    forall i | 0 <= i < |longer| - 1 ensures Next(p, longer[i], longer[i + 1]) {
      if i + 1 < |run| { assert Next(p, run[i], run[i + 1]); }
    }
  }

  /** A new call up to what it does with the counter it read. */
  lemma BeginCall(p: Policy, run: seq<State>, id: CallId) returns (longer: seq<State>, c: Call)
    requires IsRun(p, run) && id !in run[|run| - 1].calls
    ensures IsRun(p, longer) && c.phase == Timed(MAX_TRIES, run[|run| - 1].now)
    ensures var s := run[|run| - 1]; longer[|longer| - 1] == s.(calls := s.calls[id := c])
  {
    var s := run[|run| - 1];
    var begun := Call(Start(MAX_TRIES), s.now, s.slot.revision, |s.log|);
    c := begun.(phase := Timed(MAX_TRIES, s.now));
    longer := Extend(p, run, Begin(id), s.(calls := s.calls[id := begun]));
    assert s.calls[id := begun][id := c] == s.calls[id := c];
    longer := Extend(p, longer, ReadClock(id), s.(calls := s.calls[id := c]));
  }

  /** Wherever a run has come to, a call that nothing interferes with can be answered as the atomic counter
      answers, and leaves what that leaves. */
  lemma SoloCallAnswers(p: Policy, run: seq<State>, id: CallId) returns (longer: seq<State>)
    requires IsRun(p, run) && id !in run[|run| - 1].calls
    ensures IsRun(p, longer)
    ensures var s, s' := run[|run| - 1], longer[|longer| - 1];
            var (verdict, after) := SharedStep(p, s.slot.value, s.now);
            id in s'.calls && s'.calls[id].phase == Answered(verdict) && s'.slot.value == after && s'.now == s.now
  {
    var s := run[|run| - 1];
    var (verdict, after) := SharedStep(p, s.slot.value, s.now);
    var c;
    longer, c := BeginCall(p, run, id);
    var begun := longer[|longer| - 1];
    if verdict.Admit? {
      var sent := c.(phase := Sent(MAX_TRIES, s.now, s.slot));
      var done := c.(phase := Answered(Admit));
      var waiting := begun.(calls := begun.calls[id := sent]);
      longer := Extend(p, longer, Get(id), waiting);
      longer := Extend(p, longer, Land(id),
                       waiting.(slot := Slot(s.slot.revision + 1, after), log := s.log + [Effect(id, s.now, Admit)],
                                calls := waiting.calls[id := done]));
    } else {
      longer := Extend(p, longer, Get(id),
                       begun.(calls := begun.calls[id := c.(phase := Answered(verdict))],
                              log := begun.log + [Effect(id, s.now, verdict)]));
    }
  }

  // ----- The retry loop as one client runs it -----

  /** What the key's bytes decode to. */
  datatype Stored = Valid(counter: Counter) | Garbage

  datatype CheckError = InvalidState | ContentionExceeded

  ghost function View(s: Slot<Stored>): Option<Slot<Counter>> {
    match s.value
    case None => Some(Slot(s.revision, None))
    case Some(Valid(counter)) => Some(Slot(s.revision, Some(counter)))
    case Some(Garbage) => None
  }

  /** The write takes the counter found through one atomic step for a request at `reading`. */
  ghost predicate Charges(w: Write<Stored>, p: Policy, reading: real) {
    && View(w.before).Some? && View(w.after).Some?
    && SharedStep(p, View(w.before).value.value, reading) == (Admit, View(w.after).value.value)
  }

  /** A read of this call, made after the clock said `reading`, showed this content of the key. */
  ghost predicate Showed(kv: Bucket<Stored>, from: nat, content: Stored, reading: real)
    reads kv
  {
    exists i :: from <= i < |kv.shown| && kv.shown[i].slot.value == Some(content) && reading <= kv.shown[i].at
  }

  class NatsRateLimitBackend {

    /** An admission is one atomic charge of the counter the write replaced; a refusal is what that step
        answers on a counter the key showed after the clock was read; an invalid value was shown; the
        contention error means the key moved on at least eight times.  Only an admission writes. */
    method Check(kv: Bucket<Stored>, clock: Clock, p: Policy)
      returns (r: Result<Verdict, CheckError>, ghost reading: real, ghost refusedAt: Counter)
      requires kv.clock == clock
      modifies kv, clock
      ensures r.Ok? ==> old(clock.now) <= reading <= clock.now
      ensures r == Ok(Admit) ==>
                && |kv.mine| == |old(kv.mine)| + 1 && kv.mine[..|old(kv.mine)|] == old(kv.mine)
                && Charges(kv.mine[|old(kv.mine)|], p, reading)
      ensures r != Ok(Admit) ==> kv.mine == old(kv.mine)
      ensures r.Ok? && r.value.Reject? ==>
                && r.value == SharedStep(p, Some(refusedAt), reading).0
                && Showed(kv, |old(kv.shown)|, Valid(refusedAt), reading)
      ensures r == Err(InvalidState) ==> Showed(kv, |old(kv.shown)|, Garbage, old(clock.now))
      ensures r == Err(ContentionExceeded) ==> kv.slot.revision >= old(kv.slot.revision) + MAX_TRIES
    {
      reading, refusedAt := clock.now, Counter(0, 0.0);
      var tries := 0;
      while tries < MAX_TRIES
        invariant tries <= MAX_TRIES
        invariant clock.now >= old(clock.now) && kv.mine == old(kv.mine)
        invariant |kv.shown| >= |old(kv.shown)|
        invariant kv.slot.revision >= old(kv.slot.revision) + tries
      {
        var now := clock.Read();
        reading := now;
        var entry := kv.Get();
        assert kv.shown[|kv.shown| - 1] == Reading(entry, clock.now);
        var count, resetAt := 0, now + p.window;
        if entry.value.Some? {
          if entry.value.value.Garbage? { return Err(InvalidState), reading, refusedAt; }
          var value := entry.value.value.counter;
          if value.resetAt > now { count, resetAt := value.count, value.resetAt; }
          if count >= p.limit {
            return Ok(Reject(RetryAfter(now, resetAt))), reading, value;
          }
        }
        var last := if entry.value.None? then None else Some(entry.revision);
        var revision := kv.Put(Valid(Counter(count + 1, resetAt)), last);
        if revision.Some? { return Ok(Admit), reading, refusedAt; }
        tries := tries + 1;
      }
      return Err(ContentionExceeded), reading, refusedAt;
    }
  }
}
