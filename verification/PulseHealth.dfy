/** The health job over all pulses: every pulse's failover fields go through legal passes only. */
module PulseHealth {
  import opened Wrappers
  import opened Failover

  class Clock {
    var now: int

    method Read() returns (t: int)
      modifies this
      ensures old(now) <= now == t
    {
      var passed: int := *;
      if passed > 0 { now := now + passed; }
      t := now;
    }
  }

  class Pulse {
    const id: int
    const autoFailover: bool
    const autoFailback: bool
    const backupPulseId: Option<int>
    var enabled: bool
    var status: PulseStatus
    var failoverActive: bool
    var lastFailoverAt: Option<int>
    ghost const start: State
    ghost var passes: seq<Pass>           // the rounds this pulse went through as a primary

    ghost function Failover(): State
      reads this
    {
      State(failoverActive, lastFailoverAt)
    }

    /** The failover fields are what the passes make of the starting state, and all passes are past. */
    ghost predicate Valid(now: int)
      reads this
    {
      InOrder(passes) && Past(passes, now) && Failover() == After(start, passes)
    }

    ghost method Record(before: State, p: Pass, now: int, later: int)
      requires InOrder(passes) && Past(passes, now) && now <= p.checkedAt <= p.writtenAt <= later
      requires before == After(start, passes) && Failover() == Apply(before, Taken(before, p))
      modifies this`passes
      ensures Valid(later) && passes == old(passes) + [p]
    {
      AfterOneMore(start, passes, p);
      assert (passes + [p])[..|passes|] == passes;
      passes := passes + [p];
    }
  }

  ghost function View(backup: Pulse?): Option<Backup>
    reads backup
  {
    if backup == null then None else Some(Backup(backup.id, backup.enabled))
  }

  ghost function PassOf(pulse: Pulse, healed: PulseStatus, backup: Pulse?, agentsFresh: bool,
                        checkedAt: int, writtenAt: int): Pass
    reads pulse, backup
  {
    Pass(pulse.id, pulse.enabled, pulse.status, healed, pulse.autoFailover, pulse.autoFailback, pulse.backupPulseId,
         View(backup), agentsFresh, checkedAt, writtenAt)
  }

  /** The job does not look at this pulse. */
  predicate Skipped(pulse: Pulse)
    reads pulse
  {
    !pulse.enabled || pulse.status in {Stopped, Stopping, PendingClaim}
  }

  /** The pulse failed over to its backup since. */
  twostate predicate SwitchedOver(pulse: Pulse)
    reads pulse
  {
    !old(pulse.failoverActive) && pulse.failoverActive
  }

  /** What a failover makes of the status of the backup. */
  function Woken(status: PulseStatus): PulseStatus {
    if status in {Stopped, Error} then Starting else status
  }

  /** `_attempt_failover`; the backup is what the query by its id gives. */
  method AttemptFailover(primary: Pulse, backup: Pulse?, clock: Clock)
    returns (done: bool, ghost checkedAt: int, ghost writtenAt: int)
    modifies primary, clock, if backup == null then {} else {backup}
    ensures old(clock.now) <= checkedAt <= writtenAt <= clock.now
    ensures done ==
            FailsOver(old(primary.Failover()),
                      old(PassOf(primary, Unhealthy, backup, false, checkedAt, writtenAt)))
    ensures done <==>
              && primary.autoFailover && primary.backupPulseId.Some? && primary.backupPulseId.value != 0
              && !old(primary.failoverActive) && MinutesSince(old(primary.lastFailoverAt), checkedAt, 3)
              && backup != null && old(backup.enabled) && backup.id != primary.id
    ensures primary.Failover() == if done then State(true, Some(writtenAt)) else old(primary.Failover())
    ensures done ==> primary.status == Unhealthy && backup != null && backup != primary && backup.enabled
    ensures done ==> backup.status == if old(backup.status) == Stopped || old(backup.status) == Error then Starting
                                      else old(backup.status)
    ensures !done ==> primary.status == old(primary.status) && (backup != null ==> backup.status == old(backup.status))
    ensures primary.enabled == old(primary.enabled) && (backup != null ==> backup.enabled == old(backup.enabled))
    ensures primary.passes == old(primary.passes)
    ensures backup != null && backup != primary ==>
              backup.Failover() == old(backup.Failover()) && backup.passes == old(backup.passes)
  {
    checkedAt, writtenAt := clock.now, clock.now;
    if !primary.autoFailover || primary.backupPulseId == None || primary.backupPulseId.value == 0 {
      return false, checkedAt, writtenAt;
    }
    if primary.failoverActive { return false, checkedAt, writtenAt; }
    var t := clock.Read();
    checkedAt, writtenAt := t, t;
    if primary.lastFailoverAt.Some? && t - primary.lastFailoverAt.value < FAILOVER_COOLDOWN {
      return false, checkedAt, writtenAt;
    }
    if backup == null || backup.id == primary.id || !backup.enabled { return false, checkedAt, writtenAt; }
    var now := clock.Read();
    writtenAt := now;
    primary.failoverActive := true;
    primary.status := Unhealthy;
    primary.lastFailoverAt := Some(now);
    if backup.status in {Stopped, Error} { backup.status := Starting; }
    backup.enabled := true;
    done := true;
  }

  /** `_attempt_failback`. */
  method AttemptFailback(primary: Pulse, agentsFresh: bool, clock: Clock)
    returns (done: bool, ghost checkedAt: int, ghost writtenAt: int)
    modifies primary, clock
    ensures old(clock.now) <= checkedAt <= writtenAt <= clock.now
    ensures done ==
            FailsBack(old(primary.Failover()),
                      old(PassOf(primary, primary.status, null, agentsFresh, checkedAt, writtenAt)))
    ensures done <==>
              && primary.autoFailback && agentsFresh && primary.backupPulseId.Some? && primary.backupPulseId.value != 0
              && old(primary.failoverActive) && MinutesSince(old(primary.lastFailoverAt), checkedAt, 5)
              && old(primary.status) != Error && old(primary.status) != Stopped
    ensures primary.Failover() == if done then State(false, Some(writtenAt)) else old(primary.Failover())
    ensures primary.status == if done then Running else old(primary.status)
    ensures primary.enabled == old(primary.enabled) && primary.passes == old(primary.passes)
  {
    checkedAt, writtenAt := clock.now, clock.now;
    if !primary.autoFailback || !primary.failoverActive { return false, checkedAt, writtenAt; }
    if primary.backupPulseId == None || primary.backupPulseId.value == 0 { return false, checkedAt, writtenAt; }
    var t := clock.Read();
    checkedAt, writtenAt := t, t;
    if primary.lastFailoverAt.Some? && t - primary.lastFailoverAt.value < FAILBACK_COOLDOWN {
      return false, checkedAt, writtenAt;
    }
    if !agentsFresh { return false, checkedAt, writtenAt; }
    // An unhealthy primary passes whatever its message says.
    if primary.status in {Error, Stopped} { return false, checkedAt, writtenAt; }
    var now := clock.Read();
    writtenAt := now;
    primary.failoverActive := false;
    primary.status := Running;
    primary.lastFailoverAt := Some(now);
    done := true;
  }

  /** Healing and the attempt that the healed status calls for. */
  method RunPass(pulse: Pulse, healed: PulseStatus, backup: Pulse?, agentsFresh: bool, clock: Clock)
    returns (ghost checkedAt: int, ghost writtenAt: int)
    requires !Skipped(pulse)
    modifies pulse, clock, if backup == null then {} else {backup}
    ensures old(clock.now) <= checkedAt <= writtenAt <= clock.now
    ensures pulse.Failover() ==
            Apply(old(pulse.Failover()),
                  Taken(old(pulse.Failover()), old(PassOf(pulse, healed, backup, agentsFresh, checkedAt, writtenAt))))
    ensures pulse.passes == old(pulse.passes)
    ensures pulse.enabled == old(pulse.enabled) && (SwitchedOver(pulse) ==> backup != null && backup != pulse)
    ensures backup != null && backup != pulse ==>
              && backup.Failover() == old(backup.Failover()) && backup.passes == old(backup.passes)
              && backup.enabled == old(backup.enabled)
              && backup.status == if SwitchedOver(pulse) then Woken(old(backup.status)) else old(backup.status)
  {
    checkedAt, writtenAt := clock.now, clock.now;
    var done := false;
    pulse.status := healed;
    if pulse.status == Unhealthy && !pulse.failoverActive {
      done, checkedAt, writtenAt := AttemptFailover(pulse, backup, clock);
    } else if pulse.failoverActive {
      done, checkedAt, writtenAt := AttemptFailback(pulse, agentsFresh, clock);
    }
  }

  /** The job's branch for one pulse; `healed` is the status the healer leaves. */
  method CheckPulse(pulse: Pulse, healed: PulseStatus, backup: Pulse?, agentsFresh: bool, clock: Clock)
    returns (ghost checkedAt: int, ghost writtenAt: int)
    requires pulse.Valid(clock.now)
    modifies pulse, clock, if backup == null then {} else {backup}
    ensures old(clock.now) <= clock.now && pulse.Valid(clock.now)
    ensures var skipped := old(!pulse.enabled || pulse.status == Stopped || pulse.status == Stopping ||
                               pulse.status == PendingClaim);
            pulse.passes ==
            if skipped then old(pulse.passes)
            else old(pulse.passes) + [old(PassOf(pulse, healed, backup, agentsFresh, checkedAt, writtenAt))]
    ensures old(Skipped(pulse)) ==> pulse.status == old(pulse.status) && pulse.Failover() == old(pulse.Failover())
    ensures pulse.enabled == old(pulse.enabled) && (SwitchedOver(pulse) ==> backup != null && backup != pulse)
    ensures backup != null && backup != pulse ==>
              && backup.Failover() == old(backup.Failover()) && backup.passes == old(backup.passes)
              && backup.enabled == old(backup.enabled)
              && backup.status == if SwitchedOver(pulse) then Woken(old(backup.status)) else old(backup.status)
  {
    ghost var now, before := clock.now, pulse.Failover();
    checkedAt, writtenAt := now, now;
    if !pulse.enabled { return; }
    if pulse.status in {Stopped, Stopping, PendingClaim} { return; }
    checkedAt, writtenAt := RunPass(pulse, healed, backup, agentsFresh, clock);
    pulse.Record(before, old(PassOf(pulse, healed, backup, agentsFresh, checkedAt, writtenAt)), now, clock.now);
  }

  /** `get_hpx_pulse_by_id`. */
  method FindPulse(all: seq<Pulse>, id: int) returns (found: Pulse?, ghost at: nat)
    ensures found != null ==> at < |all| && all[at] == found && found.id == id
    ensures found == null ==> forall k :: 0 <= k < |all| ==> all[k].id != id
  {
    for i := 0 to |all|
      invariant forall k :: 0 <= k < i ==> all[k].id != id
    {
      if all[i].id == id { return all[i], i; }
    }
    return null, 0;
  }

  // ----- One round over all pulses -----

  predicate UniqueIds(all: seq<Pulse>) {
    forall i, j :: 0 <= i < j < |all| ==> all[i] != all[j] && all[i].id != all[j].id
  }

  /** A pulse as a round sees it. */
  datatype Snap = Snap(id: int, autoFailover: bool, autoFailback: bool, backupId: Option<int>, enabled: bool,
                       status: PulseStatus, state: State, start: State, passes: seq<Pass>)

  /** What is found out about a pulse from outside in a round: the status healing leaves, and whether its agents
      are fresh. */
  datatype Findings = Findings(healed: PulseStatus, agentsFresh: bool)

  ghost function SnapOf(pulse: Pulse): Snap
    reads pulse
  {
    Snap(pulse.id, pulse.autoFailover, pulse.autoFailback, pulse.backupPulseId, pulse.enabled, pulse.status,
         pulse.Failover(), pulse.start, pulse.passes)
  }

  /** The pulses as they are. */
  ghost predicate Show(all: seq<Pulse>, vs: seq<Snap>)
    reads all
  {
    |vs| == |all| && forall i :: 0 <= i < |vs| ==> vs[i] == SnapOf(all[i])
  }

  /** Every pulse's failover fields are where its passes put them, and every pass is past. */
  ghost predicate AllValid(vs: seq<Snap>, now: int) {
    forall k :: 0 <= k < |vs| ==> ValidSnap(vs[k], now)
  }

  predicate ValidSnap(v: Snap, now: int) {
    InOrder(v.passes) && Past(v.passes, now) && v.state == After(v.start, v.passes)
  }

  /** What a round never changes about a pulse. */
  predicate SameSettings(v: Snap, v': Snap) {
    && v'.id == v.id && v'.autoFailover == v.autoFailover && v'.autoFailback == v.autoFailback
    && v'.backupId == v.backupId && v'.enabled == v.enabled && v'.start == v.start
  }

  /** What the query by id gives. */
  ghost predicate Finds(vs: seq<Snap>, id: Option<int>, backup: Option<Backup>) {
    && (forall k :: 0 <= k < |vs| && Some(vs[k].id) == id ==> backup == Some(Backup(vs[k].id, vs[k].enabled)))
    && ((forall k :: 0 <= k < |vs| ==> Some(vs[k].id) != id) ==> backup == None)
  }

  /** A pass over the pulse as it is. */
  ghost predicate PassFor(vs: seq<Snap>, v: Snap, f: Findings, p: Pass) {
    && p.id == v.id && p.enabled == v.enabled && p.status == v.status
    && p.autoFailover == v.autoFailover && p.autoFailback == v.autoFailback && p.backupId == v.backupId
    && p.healed == f.healed && p.agentsFresh == f.agentsFresh && Finds(vs, v.backupId, p.backup)
  }

  /** The pulse made one pass, if it was looked at, and else none. */
  ghost predicate Grown(vs: seq<Snap>, v: Snap, v': Snap, f: Findings, looked: bool) {
    && SameSettings(v, v') && |v'.passes| == |v.passes| + (if looked then 1 else 0)
    && v'.passes[..|v.passes|] == v.passes
    && (looked ==> PassFor(vs, v, f, v'.passes[|v.passes|]))
  }

  predicate Passed(v: Snap) {
    v.enabled && v.status !in {Stopped, Stopping, PendingClaim}
  }

  /** The pulse failed over meanwhile. */
  predicate WentOver(v: Snap, v': Snap) {
    !v.state.active && v'.state.active
  }

  /** The first pulse failed over to the second meanwhile. */
  predicate Switched(v: Snap, v': Snap, backup: Snap) {
    WentOver(v, v') && v.backupId == Some(backup.id)
  }

  /** What the branch for one pulse does to another one: if it failed over to it, it may have woken it. */
  predicate Neighbour(v: Snap, v': Snap, other: Snap, other': Snap) {
    other' == other.(status := if Switched(v, v', other) then Woken(other.status) else other.status)
  }

  /** The job looked at pulse i, and may have woken its backup. */
  ghost predicate OnePulse(vs: seq<Snap>, vs': seq<Snap>, f: Findings, i: nat)
    requires i < |vs|
  {
    && |vs'| == |vs| && Grown(vs, vs[i], vs'[i], f, Passed(vs[i]))
    && (forall k :: 0 <= k < |vs| && k != i ==> Neighbour(vs[i], vs'[i], vs[k], vs'[k]))
  }

  /** A primary before position n failed over to pulse k in this round. */
  predicate WokenBefore(vs: seq<Snap>, vs': seq<Snap>, n: nat, k: nat)
    requires n <= |vs| == |vs'| && k < |vs|
    decreases n
  {
    n > 0 && (Switched(vs[n - 1], vs'[n - 1], vs[k]) || WokenBefore(vs, vs', n - 1, k))
  }

  /** The round comes to pulse k when it is not to be skipped: it was not, or an earlier failover woke it. */
  predicate Visited(vs: seq<Snap>, vs': seq<Snap>, k: nat)
    requires |vs| == |vs'| && k < |vs|
  {
    Passed(vs[k]) || (vs[k].enabled && vs[k].status == Stopped && WokenBefore(vs, vs', k, k))
  }

  /** Pulse k as the round finds it: an earlier failover may have woken it. */
  function FoundAs(vs: seq<Snap>, vs': seq<Snap>, n: nat, k: nat): Snap
    requires n <= |vs| == |vs'| && k < |vs|
  {
    vs[k].(status := if WokenBefore(vs, vs', n, k) then Woken(vs[k].status) else vs[k].status)
  }

  /** What a round has done when it comes to position n: exactly the pulses visited have made a pass, and
      each has made one, with the fields it was found with. */
  ghost predicate RoundUpTo(vs: seq<Snap>, vs': seq<Snap>, fs: seq<Findings>, n: nat)
    requires n <= |vs| == |fs|
  {
    && |vs'| == |vs|
    && (forall k :: 0 <= k < n ==> Grown(vs, FoundAs(vs, vs', k, k), vs'[k], fs[k], Visited(vs, vs', k)))
    && (forall k :: n <= k < |vs| ==> vs'[k] == FoundAs(vs, vs', n, k))
  }

  lemma {:induction false} SameBefore(vs: seq<Snap>, mid: seq<Snap>, vs': seq<Snap>, n: nat, k: nat)
    requires |vs| == |mid| == |vs'| && n <= |vs| && k < |vs|
    requires forall j :: 0 <= j < n ==> vs'[j].state == mid[j].state
    ensures WokenBefore(vs, vs', n, k) <==> WokenBefore(vs, mid, n, k)
  {
    if n > 0 { SameBefore(vs, mid, vs', n - 1, k); }
  }

  lemma RoundBegins(vs: seq<Snap>, fs: seq<Findings>)
    requires |fs| == |vs|
    ensures RoundUpTo(vs, vs, fs, 0)
  {
  }

  lemma FindsTheSame(vs: seq<Snap>, mid: seq<Snap>, id: Option<int>, backup: Option<Backup>)
    requires |mid| == |vs| && (forall k :: 0 <= k < |vs| ==> SameSettings(vs[k], mid[k])) && Finds(mid, id, backup)
    ensures Finds(vs, id, backup)
  {
  }

  lemma OneMorePulse(vs: seq<Snap>, mid: seq<Snap>, vs': seq<Snap>, fs: seq<Findings>, n: nat)
    requires n < |vs| == |fs| && RoundUpTo(vs, mid, fs, n) && OnePulse(mid, vs', fs[n], n)
    ensures RoundUpTo(vs, vs', fs, n + 1)
  {
    forall k | 0 <= k <= n
      ensures Grown(vs, FoundAs(vs, vs', k, k), vs'[k], fs[k], Visited(vs, vs', k))
    {
      SameBefore(vs, mid, vs', k, k);
      if k == n && Passed(mid[n]) { FindsTheSame(vs, mid, mid[n].backupId, vs'[n].passes[|mid[n].passes|].backup); }
    }
    forall k | n < k < |vs| ensures vs'[k] == FoundAs(vs, vs', n + 1, k) { SameBefore(vs, mid, vs', n, k); }
  }

  lemma LaterAllValid(vs: seq<Snap>, vs': seq<Snap>, i: nat, now: int, later: int)
    requires i < |vs| && AllValid(vs, now) && now <= later && |vs'| == |vs| && ValidSnap(vs'[i], later)
    requires forall k :: 0 <= k < |vs| && k != i ==> Neighbour(vs[i], vs'[i], vs[k], vs'[k])
    ensures AllValid(vs', later)
  {
    forall k | 0 <= k < |vs'| ensures ValidSnap(vs'[k], later) { assert ValidSnap(vs[k], now); }
  }

  ghost function SnapsOf(all: seq<Pulse>): seq<Snap>
    reads all
  {
    seq(|all|, i requires 0 <= i < |all| reads all => SnapOf(all[i]))
  }

  /** The job's branch for one pulse, seen from before and after. */
  method CheckSnap(pulse: Pulse, f: Findings, backup: Pulse?, clock: Clock, ghost v: Snap)
    requires v == SnapOf(pulse) && ValidSnap(v, clock.now)
    modifies pulse, clock, if backup == null then {} else {backup}
    ensures old(clock.now) <= clock.now && ValidSnap(SnapOf(pulse), clock.now) && SameSettings(v, SnapOf(pulse))
    ensures !Passed(v) ==> pulse.passes == v.passes
    ensures Passed(v) ==>
              && |pulse.passes| == |v.passes| + 1 && pulse.passes[..|v.passes|] == v.passes
              && var p := pulse.passes[|v.passes|];
              p == old(PassOf(pulse, f.healed, backup, f.agentsFresh, p.checkedAt, p.writtenAt))
    ensures WentOver(v, SnapOf(pulse)) ==> backup != null && backup != pulse
    ensures backup != null && backup != pulse ==>
              SnapOf(backup) ==
              old(SnapOf(backup)).(status := if WentOver(v, SnapOf(pulse)) then Woken(old(backup.status))
                                             else old(backup.status))
  {
    ghost var checkedAt, writtenAt := CheckPulse(pulse, f.healed, backup, f.agentsFresh, clock);
  }

  /** The backup of pulse i. */
  method FindBackup(all: seq<Pulse>, i: nat, ghost vs: seq<Snap>) returns (backup: Pulse?, ghost at: nat)
    requires i < |all| && UniqueIds(all) && Show(all, vs)
    ensures backup != null ==> at < |all| && all[at] == backup && Some(backup.id) == vs[i].backupId
    ensures Finds(vs, vs[i].backupId, View(backup))
  {
    backup, at := null, 0;
    if all[i].backupPulseId.Some? { backup, at := FindPulse(all, all[i].backupPulseId.value); }
    assert forall k :: 0 <= k < |vs| ==> vs[k].id == all[k].id && vs[k].enabled == all[k].enabled;
    if backup != null {
      forall k | 0 <= k < |vs| && Some(vs[k].id) == vs[i].backupId ensures k == at { assert all[k].id == all[at].id; }
      assert Some(vs[at].id) == vs[i].backupId;
    }
  }

  /** The job's branch for pulse i, with its backup looked up. */
  method VisitPulse(all: seq<Pulse>, i: nat, f: Findings, clock: Clock, ghost vs: seq<Snap>)
    requires i < |all| && UniqueIds(all) && Show(all, vs) && ValidSnap(vs[i], clock.now)
    modifies all, clock
    ensures old(clock.now) <= clock.now && ValidSnap(SnapOf(all[i]), clock.now)
    ensures Grown(vs, vs[i], SnapOf(all[i]), f, Passed(vs[i]))
    ensures forall k :: 0 <= k < |all| && k != i ==> Neighbour(vs[i], SnapOf(all[i]), vs[k], SnapOf(all[k]))
  {
    var backup: Pulse?;
    ghost var at: nat;
    backup, at := FindBackup(all, i, vs);
    CheckSnap(all[i], f, backup, clock, vs[i]);
    forall k | 0 <= k < |all| && k != i ensures Neighbour(vs[i], SnapOf(all[i]), vs[k], SnapOf(all[k])) {
      assert all[k] != all[i] && vs[k] == old(SnapOf(all[k]));
      if backup != null && k != at { assert all[k] != backup && all[k].id != backup.id; }
    }
  }

  /** The same, for the pulses together. */
  method NextPulse(all: seq<Pulse>, i: nat, fs: seq<Findings>, clock: Clock, ghost vs: seq<Snap>, ghost mid: seq<Snap>)
    returns (ghost vs': seq<Snap>)
    requires i < |all| == |fs| && UniqueIds(all) && Show(all, mid) && AllValid(mid, clock.now)
    requires |vs| == |all| && RoundUpTo(vs, mid, fs, i)
    modifies all, clock
    ensures old(clock.now) <= clock.now && Show(all, vs') && AllValid(vs', clock.now)
    ensures RoundUpTo(vs, vs', fs, i + 1)
  {
    ghost var now := clock.now;
    assert ValidSnap(mid[i], now);
    VisitPulse(all, i, fs[i], clock, mid);
    vs' := SnapsOf(all);
    LaterAllValid(mid, vs', i, now, clock.now);
    OneMorePulse(vs, mid, vs', fs, i);
  }

  /** `hpx_pulse_health_job`: the first 500 pulses, one after the other, from how they are to how the round
      leaves them.  Healing and the freshness of the agents come from outside. */
  method HealthJob(all: seq<Pulse>, fs: seq<Findings>, clock: Clock, ghost vs: seq<Snap>) returns (ghost vs': seq<Snap>)
    requires |fs| == |all| && UniqueIds(all) && Show(all, vs) && AllValid(vs, clock.now)
    modifies all, clock
    ensures old(clock.now) <= clock.now && Show(all, vs') && AllValid(vs', clock.now)
    ensures RoundUpTo(vs, vs', fs, if |all| < 500 then |all| else 500)
  {
    vs' := vs;
    RoundBegins(vs, fs);
    for i := 0 to if |all| < 500 then |all| else 500
      invariant old(clock.now) <= clock.now && Show(all, vs') && AllValid(vs', clock.now)
      invariant RoundUpTo(vs, vs', fs, i)
    {
      vs' := NextPulse(all, i, fs, clock, vs, vs');
    }
  }

  /** Whatever the job does over any number of rounds, the transitions of a pulse alternate at their
      distance, and no span of time holds more of them than the bound. */
  lemma PulseCannotFlap(v: Snap, now: int, a: int, span: nat)
    requires ValidSnap(v, now)
    ensures Alternates(Log(v.start, v.passes)) && Count(Log(v.start, v.passes), a, a + span) <= Bound(span)
  {
    CannotFlap(v.start, v.passes);
    TransitionsPerSpan(v.start, v.passes, a, span);
  }
}
