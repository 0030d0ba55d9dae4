/** When does a run learn that it lost its lease?  One run of `run_locked` as a timed machine: acquire
    and renew each take at most `timeout`, the renewal loop sleeps for `renewInterval`, and a lease
    runs out `lease` after the clock reading it was written with, not after the write. */
module RenewalTiming {
  import opened Wrappers

  datatype Settings = Settings(lease: real, renewInterval: real, timeout: real)

  datatype Phase =
    | Acquiring(started: real, reading: Option<real>)
    | Waiting(since: real, expiresAt: real)
    | Renewing(started: real, reading: Option<real>, expiresAt: real)
    | Over // done, not acquired, or `lost` is set

  datatype State = State(now: real, phase: Phase)

  /** The latest moment the phase can last: operation timeout or timer. */
  function Deadline(c: Settings, p: Phase): Option<real> {
    match p
    case Acquiring(started, _) => Some(started + c.timeout)
    case Waiting(since, _) => Some(since + c.renewInterval)
    case Renewing(started, _, _) => Some(started + c.timeout)
    case Over => None
  }

  ghost predicate Next(c: Settings, s: State, s': State) {
    || (&& s'.phase == s.phase && s'.now >= s.now // time passes
        && (Deadline(c, s.phase).Some? ==> s'.now <= Deadline(c, s.phase).value))
    || (s'.now == s.now && s'.phase == Over)
    || (s'.now == s.now &&
        match s.phase
        case Acquiring(started, reading) =>
          || s'.phase == Acquiring(started, Some(s.now))
          || (reading.Some? && s'.phase == Waiting(s.now, reading.value + c.lease))
        case Waiting(since, expiresAt) =>
          s.now == since + c.renewInterval && s'.phase == Renewing(s.now, None, expiresAt)
        case Renewing(started, reading, expiresAt) =>
          || (reading.None? && s'.phase == Renewing(started, Some(s.now), expiresAt))
          || (reading.Some? && s'.phase == Waiting(s.now, reading.value + c.lease))
        case Over => false)
  }

  ghost predicate IsRun(c: Settings, run: seq<State>) {
    && |run| > 0
    && run[0].phase == Acquiring(run[0].now, None)
    && forall i :: 0 <= i < |run| - 1 ==> Next(c, run[i], run[i + 1])
  }

  /** The job runs and `lost` is unset. */
  predicate Running(s: State) {
    s.phase.Waiting? || s.phase.Renewing?
  }

  ghost predicate NeverOutlivesLease(run: seq<State>) {
    forall i :: 0 <= i < |run| && Running(run[i]) ==> run[i].now < run[i].phase.expiresAt
  }

  /** config.py: the interval plus one timeout must be shorter than the lease. */
  predicate ValidatorAccepts(c: Settings) {
    c.renewInterval + c.timeout < c.lease
  }

  /** The interval plus two timeouts: the second pays for the write that follows the clock reading. */
  predicate SignalsInTime(c: Settings) {
    c.renewInterval + 2.0 * c.timeout < c.lease
  }

  ghost predicate Inv(c: Settings, s: State) {
    match s.phase
    case Acquiring(started, reading) =>
      started <= s.now <= started + c.timeout && (reading.Some? ==> started <= reading.value)
    case Waiting(since, expiresAt) =>
      since <= s.now <= since + c.renewInterval && since <= expiresAt - c.lease + c.timeout
    case Renewing(started, reading, expiresAt) =>
      && started <= s.now <= started + c.timeout
      && started <= expiresAt - c.lease + c.timeout + c.renewInterval
      && (reading.Some? ==> started <= reading.value)
    case Over => true
  }

  lemma NextKeepsInv(c: Settings, s: State, s': State)
    requires c.renewInterval >= 0.0 && c.timeout >= 0.0 && Inv(c, s) && Next(c, s, s')
    ensures Inv(c, s')
  {
  }

  lemma {:induction false} RunKeepsInv(c: Settings, run: seq<State>, i: nat)
    requires c.renewInterval >= 0.0 && c.timeout >= 0.0
    requires IsRun(c, run) && i < |run|
    ensures Inv(c, run[i])
  {
    if i > 0 {
      RunKeepsInv(c, run, i - 1);
      assert Next(c, run[i - 1], run[i - 1 + 1]);
      NextKeepsInv(c, run[i - 1], run[i]);
    }
  }

  /** The slowest run the timeouts allow: the acquire answers late, and the first renewal hangs. */
  lemma SlowRun(c: Settings) returns (run: seq<State>)
    requires c.renewInterval >= 0.0 && c.timeout >= 0.0 && !SignalsInTime(c)
    ensures IsRun(c, run) && !NeverOutlivesLease(run)
  {
    var t, r := c.timeout, c.renewInterval;
    run := [ State(0.0, Acquiring(0.0, None)),
             State(0.0, Acquiring(0.0, Some(0.0))),
             State(t, Acquiring(0.0, Some(0.0))),
             State(t, Waiting(t, c.lease)),
             State(t + r, Waiting(t, c.lease)),
             State(t + r, Renewing(t + r, None, c.lease)),
             State(t + r + t, Renewing(t + r, None, c.lease)) ];
    assert Running(run[6]) && run[6].now >= run[6].phase.expiresAt;
  }

  /** Loss is signalled before the lease runs out, on every run, exactly when two timeouts fit. */
  lemma LossIsSignalledInTime(c: Settings)
    requires c.renewInterval >= 0.0 && c.timeout >= 0.0
    ensures (forall run: seq<State> :: IsRun(c, run) ==> NeverOutlivesLease(run)) <==> SignalsInTime(c)
  {
    if SignalsInTime(c) {
      forall run: seq<State>, i: nat | IsRun(c, run) && i < |run| && Running(run[i])
        ensures run[i].now < run[i].phase.expiresAt
      {
        RunKeepsInv(c, run, i);
      }
    } else {
      var run := SlowRun(c);
    }
  }

  /** The configuration check lets settings through under which a job outlives its lease unawares. */
  lemma ValidatorIsNotEnough() returns (c: Settings, run: seq<State>)
    ensures c.lease >= 15.0 && c.renewInterval >= 5.0 && 0.0 < c.timeout <= 30.0 && ValidatorAccepts(c)
    ensures IsRun(c, run) && !NeverOutlivesLease(run)
  {
    c := Settings(30.0, 5.0, 20.0);
    run := SlowRun(c);
  }

  /** What happens while the loop waits: the job ends, or a renewal is tried, reading the clock and
      answering after the given delays. */
  datatype Round = JobEnds(after: real) | Renewal(readAfter: real, answerAfter: real, renewed: bool)

  ghost predicate Plausible(c: Settings, r: Round) {
    match r
    case JobEnds(after) => 0.0 <= after <= c.renewInterval
    case Renewal(readAfter, answerAfter, _) => 0.0 <= readAfter <= answerAfter
  }

  /** A renewal that reports success in time. */
  predicate Renewed(c: Settings, r: Round) {
    r.Renewal? && r.renewed && r.answerAfter <= c.timeout
  }

  /** The loop is in its round n: every earlier one was a successful renewal. */
  predicate Reaches(c: Settings, rounds: seq<Round>, n: nat) {
    n <= |rounds| && forall i :: 0 <= i < n ==> Renewed(c, rounds[i])
  }

  /** When the wait of round n begins. */
  function WaitsSince(c: Settings, rounds: seq<Round>, granted: real, n: nat): real
    requires Reaches(c, rounds, n)
  {
    if n == 0 then granted else WaitsSince(c, rounds, granted, n - 1) + c.renewInterval + rounds[n - 1].answerAfter
  }

  /** When the lease held in round n runs out: only a successful renewal moves it. */
  function ExpiresAt(c: Settings, rounds: seq<Round>, read: real, granted: real, n: nat): real
    requires Reaches(c, rounds, n)
  {
    if n == 0 then read + c.lease
    else WaitsSince(c, rounds, granted, n - 1) + c.renewInterval + rounds[n - 1].readAfter + c.lease
  }

  // ----- The rounds as steps of the machine -----

  ghost predicate Connected(c: Settings, run: seq<State>) {
    forall i :: 0 <= i < |run| - 1 ==> Next(c, run[i], run[i + 1])
  }

  lemma Append(c: Settings, a: seq<State>, b: seq<State>) returns (run: seq<State>)
    requires a != [] && b != [] && Connected(c, a) && Connected(c, b) && Next(c, a[|a| - 1], b[0])
    ensures run == a + b && Connected(c, run)
  {
    run := a + b;
    forall i | 0 <= i < |run| - 1 ensures Next(c, run[i], run[i + 1]) {
      if i >= |a| { assert Next(c, b[i - |a|], b[i - |a| + 1]); }
    }
  }

  /** The run has come to this phase and moment. */
  ghost predicate ComesTo(c: Settings, run: seq<State>, s: State) {
    IsRun(c, run) && run[|run| - 1] == s
  }

  lemma Continue(c: Settings, run: seq<State>, steps: seq<State>) returns (longer: seq<State>)
    requires IsRun(c, run) && steps != [] && Connected(c, steps) && Next(c, run[|run| - 1], steps[0])
    ensures longer == run + steps && ComesTo(c, longer, steps[|steps| - 1])
  {
    longer := Append(c, run, steps);
  }

  lemma Granted(c: Settings, read: real, granted: real) returns (run: seq<State>)
    requires read <= granted <= read + c.timeout
    ensures ComesTo(c, run, State(granted, Waiting(granted, read + c.lease)))
  {
    run := [ State(read, Acquiring(read, None)),
             State(read, Acquiring(read, Some(read))),
             State(granted, Acquiring(read, Some(read))),
             State(granted, Waiting(granted, read + c.lease)) ];
  }

  lemma OneRenewal(c: Settings, run: seq<State>, since: real, expiresAt: real, r: Round) returns (longer: seq<State>)
    requires ComesTo(c, run, State(since, Waiting(since, expiresAt))) && c.renewInterval >= 0.0
    requires Plausible(c, r) && Renewed(c, r)
    ensures var started := since + c.renewInterval;
            ComesTo(c, longer, State(started + r.answerAfter,
                                     Waiting(started + r.answerAfter, started + r.readAfter + c.lease)))
  {
    var started := since + c.renewInterval;
    var read, answered := started + r.readAfter, started + r.answerAfter;
    var steps := [ State(started, Waiting(since, expiresAt)),
                   State(started, Renewing(started, None, expiresAt)),
                   State(read, Renewing(started, None, expiresAt)),
                   State(read, Renewing(started, Some(read), expiresAt)),
                   State(answered, Renewing(started, Some(read), expiresAt)),
                   State(answered, Waiting(answered, read + c.lease)) ];
    longer := Continue(c, run, steps);
  }

  /** The failed or hanging renewal, after which the job no longer runs. */
  lemma LostRenewal(c: Settings, run: seq<State>, since: real, expiresAt: real, stopped: real)
    returns (longer: seq<State>)
    requires ComesTo(c, run, State(since, Waiting(since, expiresAt))) && c.renewInterval >= 0.0
    requires since + c.renewInterval <= stopped <= since + c.renewInterval + c.timeout
    ensures ComesTo(c, longer, State(stopped, Over)) && |longer| > 1
    ensures longer[|longer| - 2] == State(stopped, Renewing(since + c.renewInterval, None, expiresAt))
  {
    var started := since + c.renewInterval;
    var steps := [ State(started, Waiting(since, expiresAt)),
                   State(started, Renewing(started, None, expiresAt)),
                   State(stopped, Renewing(started, None, expiresAt)),
                   State(stopped, Over) ];
    longer := Continue(c, run, steps);
  }

  lemma JobOver(c: Settings, run: seq<State>, since: real, expiresAt: real, after: real) returns (longer: seq<State>)
    requires ComesTo(c, run, State(since, Waiting(since, expiresAt))) && 0.0 <= after <= c.renewInterval
    ensures ComesTo(c, longer, State(since + after, Over)) && |longer| > 1
    ensures longer[|longer| - 2] == State(since + after, Waiting(since, expiresAt))
  {
    var steps := [ State(since + after, Waiting(since, expiresAt)), State(since + after, Over) ];
    longer := Continue(c, run, steps);
  }

  /** The renewal loop.  A loss is reported exactly when the first round that is no successful renewal is a
      renewal that failed or hung.  When the loop stops, and until when it held its lease, is as the rounds
      say and as some run of the machine has it; it stops strictly before that lease runs out. */
  method RenewUntilDone(c: Settings, rounds: seq<Round>, read: real, granted: real)
    returns (lost: bool, stopped: real, expiresAt: real, ghost n: nat, ghost run: seq<State>)
    requires c.renewInterval >= 0.0 && c.timeout >= 0.0 && SignalsInTime(c)
    requires read <= granted <= read + c.timeout
    requires forall r <- rounds :: Plausible(c, r)
    ensures lost <==> exists i :: 0 <= i < |rounds| && rounds[i].Renewal? &&
                        (!rounds[i].renewed || rounds[i].answerAfter > c.timeout) &&
                        forall j :: 0 <= j < i ==>
                          rounds[j].Renewal? && rounds[j].renewed && rounds[j].answerAfter <= c.timeout
    ensures Reaches(c, rounds, n) && (n < |rounds| ==> !Renewed(c, rounds[n]))
    ensures expiresAt == ExpiresAt(c, rounds, read, granted, n)
    ensures var since := WaitsSince(c, rounds, granted, n);
            stopped == if n == |rounds| then since
                       else if rounds[n].JobEnds? then since + rounds[n].after
                       else if rounds[n].answerAfter > c.timeout then since + c.renewInterval + c.timeout
                       else since + c.renewInterval + rounds[n].answerAfter
    ensures IsRun(c, run) && run[|run| - 1].now == stopped
    ensures if n == |rounds| then run[|run| - 1].phase == Waiting(stopped, expiresAt)
            else run[|run| - 1].phase == Over && |run| > 1 && Running(run[|run| - 2]) &&
                 run[|run| - 2].phase.expiresAt == expiresAt
    ensures granted <= stopped < expiresAt
  {
    lost, stopped, expiresAt := false, granted, read + c.lease;
    run := Granted(c, read, granted);
    var i := 0;
    n := 0;
    while i < |rounds| && !rounds[i].JobEnds?
      invariant n == i && Reaches(c, rounds, i)
      invariant !lost && granted <= stopped <= expiresAt - c.lease + c.timeout
      invariant stopped == WaitsSince(c, rounds, granted, i) && expiresAt == ExpiresAt(c, rounds, read, granted, i)
      invariant ComesTo(c, run, State(stopped, Waiting(stopped, expiresAt)))
    {
      var round := rounds[i];
      assert Plausible(c, round);
      var started := stopped + c.renewInterval;
      if !round.renewed || round.answerAfter > c.timeout {
        lost := true;
        ghost var since := stopped;
        stopped := started + if round.answerAfter > c.timeout then c.timeout else round.answerAfter;
        run := LostRenewal(c, run, since, expiresAt, stopped);
        return;
      }
      run := OneRenewal(c, run, stopped, expiresAt, round);
      stopped := started + round.answerAfter;
      expiresAt := started + round.readAfter + c.lease;
      i := i + 1;
      n := i;
    }
    if i < |rounds| {
      assert Plausible(c, rounds[i]);
      run := JobOver(c, run, stopped, expiresAt, rounds[i].after);
      stopped := stopped + rounds[i].after;
    }
  }
}
