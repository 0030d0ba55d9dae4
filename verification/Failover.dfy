/** Failover of a pulse to its backup and back, and how often it can happen. */
module Failover {
  import opened Wrappers

  datatype PulseStatus = PendingClaim | Running | Stopped | Starting | Stopping | Error | Unhealthy | Partial

  /** Times are in microseconds, as the clock gives them. */
  const MINUTE := 60_000_000

  const FAILOVER_COOLDOWN := 3 * MINUTE

  const FAILBACK_COOLDOWN := 5 * MINUTE

  /** `failover_active` and `last_failover_at`. */
  datatype State = State(active: bool, last: Option<int>)

  /** The backup as the query by id finds it. */
  datatype Backup = Backup(id: int, enabled: bool)

  /** One round of the health job over one pulse: the pulse as loaded, its status after healing, its backup,
      and the two clock readings of an attempt. */
  datatype Pass = Pass(
    id: int,
    enabled: bool,
    status: PulseStatus,
    healed: PulseStatus,
    autoFailover: bool,
    autoFailback: bool,
    backupId: Option<int>,
    backup: Option<Backup>,
    agentsFresh: bool,
    checkedAt: int,
    writtenAt: int)

  datatype Kind = ToBackup | ToPrimary

  datatype Transition = Transition(kind: Kind, at: int)

  predicate CooledDown(s: State, now: int, cooldown: int) {
    s.last.Some? ==> now - s.last.value >= cooldown
  }

  predicate HasBackupId(p: Pass) {
    p.backupId.Some? && p.backupId.value != 0
  }

  predicate FailsOver(s: State, p: Pass) {
    && p.autoFailover && HasBackupId(p) && !s.active && CooledDown(s, p.checkedAt, FAILOVER_COOLDOWN)
    && p.backup.Some? && p.backup.value.id != p.id && p.backup.value.enabled
  }

  predicate FailsBack(s: State, p: Pass) {
    && p.autoFailback && s.active && HasBackupId(p) && CooledDown(s, p.checkedAt, FAILBACK_COOLDOWN)
    && p.agentsFresh && p.healed !in {Error, Stopped}
  }

  /** The branch of the job for one pulse. */
  function Taken(s: State, p: Pass): Option<Transition> {
    if !p.enabled || p.status in {Stopped, Stopping, PendingClaim} then None
    else if p.healed == Unhealthy && !s.active then
      if FailsOver(s, p) then Some(Transition(ToBackup, p.writtenAt)) else None
    else if s.active && FailsBack(s, p) then Some(Transition(ToPrimary, p.writtenAt))
    else None
  }

  function Apply(s: State, t: Option<Transition>): State {
    if t.Some? then State(t.value.kind == ToBackup, Some(t.value.at)) else s
  }

  function After(s: State, passes: seq<Pass>): State {
    if passes == [] then s
    else
      var before := After(s, passes[..|passes| - 1]);
      Apply(before, Taken(before, passes[|passes| - 1]))
  }

  /** The transitions of a run, in order. */
  function Log(s: State, passes: seq<Pass>): seq<Transition> {
    if passes == [] then []
    else
      var before := passes[..|passes| - 1];
      var t := Taken(After(s, before), passes[|passes| - 1]);
      Log(s, before) + if t.Some? then [t.value] else []
  }

  /** The clock never goes back, within a pass or from one to the next. */
  predicate InOrder(passes: seq<Pass>) {
    passes == [] ||
    var before, last := passes[..|passes| - 1], passes[|passes| - 1];
    InOrder(before) && last.checkedAt <= last.writtenAt && Past(before, last.checkedAt)
  }

  /** All passes were over by then. */
  predicate Past(passes: seq<Pass>, now: int) {
    passes == [] || passes[|passes| - 1].writtenAt <= now
  }

  // ----- The transitions of one primary -----

  function Cooldown(kind: Kind): int {
    if kind == ToBackup then FAILOVER_COOLDOWN else FAILBACK_COOLDOWN
  }

  ghost predicate Follows(a: Transition, b: Transition) {
    a.kind != b.kind && b.at - a.at >= Cooldown(b.kind)
  }

  ghost predicate Alternates(log: seq<Transition>) {
    forall i, j :: 0 <= i && i + 1 == j < |log| ==> Follows(log[i], log[j])
  }

  /** The stored fields are those of the last transition. */
  lemma {:induction false} StateIsLastTransition(s: State, passes: seq<Pass>)
    ensures var log := Log(s, passes);
            After(s, passes) == if log == [] then s else Apply(s, Some(log[|log| - 1]))
  {
    if passes != [] { StateIsLastTransition(s, passes[..|passes| - 1]); }
  }

  /** For a primary nobody else writes the fields of: failovers and failbacks alternate, a failback comes at
      least five minutes after the failover and a failover at least three after the failback. */
  lemma {:induction false} CannotFlap(s: State, passes: seq<Pass>)
    requires InOrder(passes)
    ensures Alternates(Log(s, passes))
  {
    if passes != [] {
      var before, p := passes[..|passes| - 1], passes[|passes| - 1];
      CannotFlap(s, before);
      StateIsLastTransition(s, before);
      var log, t := Log(s, before), Taken(After(s, before), p);
      if t.Some? && log != [] { assert Follows(log[|log| - 1], t.value); }
    }
  }

  // ----- Which passes make a transition -----

  /** The job looks at the pulse. */
  predicate Looked(p: Pass) {
    p.enabled && p.status != Stopped && p.status != Stopping && p.status != PendingClaim
  }

  /** What a failover needs, the state and the cooldown aside. */
  predicate CallsForFailover(p: Pass) {
    && Looked(p) && p.healed == Unhealthy && p.autoFailover
    && p.backupId.Some? && p.backupId.value != 0
    && p.backup.Some? && p.backup.value.enabled && p.backup.value.id != p.id
  }

  /** What a failback needs. */
  predicate CallsForFailback(p: Pass) {
    && Looked(p) && p.healed != Error && p.healed != Stopped && p.autoFailback && p.agentsFresh
    && p.backupId.Some? && p.backupId.value != 0
  }

  /** This many minutes have passed since. */
  predicate MinutesSince(last: Option<int>, now: int, minutes: nat) {
    last == None || now >= last.value + minutes * MINUTE
  }

  /** The transition a pass is due to make in a state. */
  function Due(s: State, p: Pass): seq<Transition> {
    if !s.active && CallsForFailover(p) && MinutesSince(s.last, p.checkedAt, 3) then
      [Transition(ToBackup, p.writtenAt)]
    else if s.active && CallsForFailback(p) && MinutesSince(s.last, p.checkedAt, 5) then
      [Transition(ToPrimary, p.writtenAt)]
    else []
  }

  /** The state the transitions so far have led to. */
  function StateBy(s: State, log: seq<Transition>): State {
    if log == [] then s else State(log[|log| - 1].kind == ToBackup, Some(log[|log| - 1].at))
  }

  /** Over any run, a pass makes exactly the transition it is due to make. */
  lemma PassesActWhenDue(s: State, passes: seq<Pass>, i: nat)
    requires i < |passes|
    ensures Log(s, passes[..i + 1]) == Log(s, passes[..i]) + Due(StateBy(s, Log(s, passes[..i])), passes[i])
  {
    StateIsLastTransition(s, passes[..i]);
    AfterOneMore(s, passes[..i], passes[i]);
    assert passes[..i + 1] == passes[..i] + [passes[i]];
    assert Log(s, passes[..i]) + [] == Log(s, passes[..i]);
  }

  /** Every failover of a run comes from an unhealthy pass with another, enabled backup, and every failback
      from a pass with fresh agents and a status it may go back in. */
  lemma {:induction false} EveryTransitionWasDue(s: State, passes: seq<Pass>, k: nat) returns (i: nat)
    requires k < |Log(s, passes)|
    ensures i < |passes| && Log(s, passes)[k].at == passes[i].writtenAt
    ensures if Log(s, passes)[k].kind == ToBackup then CallsForFailover(passes[i]) else CallsForFailback(passes[i])
  {
    var n := |passes| - 1;
    assert passes[..n + 1] == passes;
    PassesActWhenDue(s, passes, n);
    if k < |Log(s, passes[..n])| { i := EveryTransitionWasDue(s, passes[..n], k); } else { i := n; }
  }

  // ----- How many fit into a span -----

  /** The shortest span from one transition to the g-th after it. */
  function MinSpan(g: nat, kind: Kind): int {
    if g == 0 then 0
    else MinSpan(g - 1, kind) + Cooldown(if (g % 2 == 1) == (kind == ToBackup) then ToPrimary else ToBackup)
  }

  lemma {:induction false} GapsAddUp(log: seq<Transition>, i: nat, j: nat)
    requires Alternates(log) && i <= j < |log|
    ensures log[j].at - log[i].at >= MinSpan(j - i, log[i].kind)
    ensures (log[j].kind == log[i].kind) == ((j - i) % 2 == 0)
    decreases j
  {
    if i < j {
      GapsAddUp(log, i, j - 1);
      assert Follows(log[j - 1], log[j]);
    }
  }

  lemma {:induction false} MinSpanIs(g: nat, kind: Kind)
    ensures MinSpan(g, kind) ==
            (g / 2) * 8 * MINUTE + if g % 2 == 0 then 0 else Cooldown(if kind == ToBackup then ToPrimary else ToBackup)
  {
    if g > 0 { MinSpanIs(g - 1, kind); }
  }

  /** Transitions from a to b, both included. */
  function Count(log: seq<Transition>, a: int, b: int): nat {
    if log == [] then 0
    else Count(log[..|log| - 1], a, b) + if a <= log[|log| - 1].at <= b then 1 else 0
  }

  lemma {:induction false} CountedLieBetween(log: seq<Transition>, a: int, b: int) returns (i: nat, j: nat)
    requires Count(log, a, b) > 0
    ensures i <= j < |log| && a <= log[i].at && log[j].at <= b && j - i + 1 >= Count(log, a, b)
  {
    var last := |log| - 1;
    if Count(log[..last], a, b) > 0 { i, j := CountedLieBetween(log[..last], a, b); }
    if a <= log[last].at <= b {
      j := last;
      if Count(log[..last], a, b) == 0 { i := last; }
    }
  }

  function Bound(span: nat): nat {
    2 * (span / (8 * MINUTE)) + if span % (8 * MINUTE) >= 3 * MINUTE then 2 else 1
  }

  lemma GapsFit(g: nat, kind: Kind, span: nat)
    requires MinSpan(g, kind) <= span
    ensures g + 1 <= Bound(span)
  {
    MinSpanIs(g, kind);
    var rounds := g / 2;
    assert rounds * (8 * MINUTE) <= span;
    assert rounds <= span / (8 * MINUTE);
  }

  /** No span of time holds more transitions than its whole rounds of eight minutes, and one or two more. */
  lemma TransitionsPerSpan(s: State, passes: seq<Pass>, a: int, span: nat)
    requires InOrder(passes)
    ensures Count(Log(s, passes), a, a + span) <= Bound(span) <= 2 * (span / (8 * MINUTE)) + 2
  {
    var log := Log(s, passes);
    CannotFlap(s, passes);
    if Count(log, a, a + span) > 0 {
      var i, j := CountedLieBetween(log, a, a + span);
      GapsAddUp(log, i, j);
      GapsFit(j - i, log[i].kind, span);
    }
  }

  // ----- The bound is reached -----

  /** A primary that is never healthy and whose agents are always fresh changes over as soon as it may:
      even transitions are failovers, odd ones failbacks. */
  function TightKind(i: nat): Kind {
    if i % 2 == 0 then ToBackup else ToPrimary
  }

  function TightTime(i: nat): nat {
    if i == 0 then 0 else TightTime(i - 1) + Cooldown(TightKind(i))
  }

  function TightTransition(i: nat): Transition {
    Transition(TightKind(i), TightTime(i))
  }

  function TightPass(i: nat): Pass {
    Pass(1, true, Running, Unhealthy, true, true, Some(2), Some(Backup(2, true)), true, TightTime(i), TightTime(i))
  }

  function TightPasses(n: nat): seq<Pass> {
    if n == 0 then [] else TightPasses(n - 1) + [TightPass(n - 1)]
  }

  function TightLog(n: nat): seq<Transition> {
    if n == 0 then [] else TightLog(n - 1) + [TightTransition(n - 1)]
  }

  const START := State(false, None)

  /** The state before transition i of the tight run. */
  function TightAt(i: nat): State {
    if i == 0 then START else Apply(START, Some(TightTransition(i - 1)))
  }

  /** Every pass of the tight run makes its transition. */
  lemma TightTaken(i: nat)
    ensures Taken(TightAt(i), TightPass(i)) == Some(TightTransition(i))
  {
    if i > 0 { assert TightTime(i) == TightTime(i - 1) + Cooldown(TightKind(i)); }
  }

  lemma AfterOneMore(s: State, passes: seq<Pass>, p: Pass)
    ensures After(s, passes + [p]) == Apply(After(s, passes), Taken(After(s, passes), p))
    ensures Log(s, passes + [p]) ==
            Log(s, passes) + if Taken(After(s, passes), p).Some? then [Taken(After(s, passes), p).value] else []
  {
    assert (passes + [p])[..|passes|] == passes;
  }

  lemma {:induction false} TightRun(n: nat)
    ensures After(START, TightPasses(n)) == TightAt(n) && Log(START, TightPasses(n)) == TightLog(n)
  {
    if n > 0 {
      TightRun(n - 1);
      TightTaken(n - 1);
      AfterOneMore(START, TightPasses(n - 1), TightPass(n - 1));
    }
  }

  lemma {:induction false} TightTimesOrdered(i: nat, j: nat)
    requires i <= j
    ensures TightTime(i) <= TightTime(j)
    decreases j
  {
    if i < j { TightTimesOrdered(i, j - 1); }
  }

  lemma {:induction false} TightInOrder(n: nat)
    ensures InOrder(TightPasses(n)) && Past(TightPasses(n), TightTime(n))
  {
    if n > 0 {
      TightInOrder(n - 1);
      TightTimesOrdered(n - 1, n);
      assert TightPasses(n)[..|TightPasses(n)| - 1] == TightPasses(n - 1);
    }
  }

  lemma CountOneMore(log: seq<Transition>, t: Transition, a: int, b: int)
    ensures Count(log + [t], a, b) == Count(log, a, b) + if a <= t.at <= b then 1 else 0
  {
    assert (log + [t])[..|log|] == log;
  }

  /** From its first failback on. */
  lemma {:induction false} TightCount(n: nat, b: int)
    requires TightTime(n) <= b
    ensures Count(TightLog(n + 1), FAILBACK_COOLDOWN, b) == n
  {
    CountOneMore(TightLog(n), TightTransition(n), FAILBACK_COOLDOWN, b);
    if n > 0 {
      TightTimesOrdered(n - 1, n);
      TightTimesOrdered(1, n);
      TightCount(n - 1, b);
    }
  }

  lemma {:induction false} TightTimeIs(i: nat)
    ensures TightTime(i) == (i / 2) * 8 * MINUTE + (i % 2) * 5 * MINUTE
  {
    if i > 0 { TightTimeIs(i - 1); }
  }

  lemma BoundFits(span: nat)
    ensures TightTime(Bound(span)) <= FAILBACK_COOLDOWN + span
  {
    TightTimeIs(Bound(span));
    var rounds := span / (8 * MINUTE);
    assert span == rounds * (8 * MINUTE) + span % (8 * MINUTE);
  }

  /** For every length of span there is a run from a primary in service that fills a span of that length. */
  lemma BoundIsTight(span: nat) returns (passes: seq<Pass>, a: int)
    ensures InOrder(passes) && Count(Log(State(false, None), passes), a, a + span) == Bound(span)
  {
    passes, a := TightPasses(Bound(span) + 1), FAILBACK_COOLDOWN;
    TightInOrder(Bound(span) + 1);
    TightRun(Bound(span) + 1);
    BoundFits(span);
    TightCount(Bound(span), a + span);
  }
}
