/** One key's fixed-window counter: the transition each back end makes for a request at a clock
    reading, and what it adds up to over any sequence of requests. */
module FixedWindow {
  import opened Wrappers

  datatype Policy = Policy(limit: int, window: real)

  datatype Counter = Counter(count: nat, resetAt: real)

  datatype Verdict = Admit | Reject(retryAfter: int)

  function Ceil(x: real): int {
    -((-x).Floor)
  }

  function RetryAfter(now: real, resetAt: real): int {
    if Ceil(resetAt - now) > 1 then Ceil(resetAt - now) else 1
  }

  /** `InMemoryRateLimitBackend.check` on the key's entry: an absent or run-out entry always admits. */
  function MemoryStep(p: Policy, c: Option<Counter>, now: real): (Verdict, Option<Counter>) {
    if c.None? || c.value.resetAt <= now then (Admit, Some(Counter(1, now + p.window)))
    else if c.value.count >= p.limit then (Reject(RetryAfter(now, c.value.resetAt)), c)
    else (Admit, Some(Counter(c.value.count + 1, c.value.resetAt)))
  }

  /** `NatsRateLimitBackend.check` on the stored value: a run-out window restarts at 0 and then meets the limit. */
  function SharedStep(p: Policy, c: Option<Counter>, now: real): (Verdict, Option<Counter>) {
    if c.None? then (Admit, Some(Counter(1, now + p.window)))
    else
      var expired := c.value.resetAt <= now;
      var count := if expired then 0 else c.value.count;
      var resetAt := if expired then now + p.window else c.value.resetAt;
      if count >= p.limit then (Reject(RetryAfter(now, resetAt)), c)
      else (Admit, Some(Counter(count + 1, resetAt)))
  }

  /** The counter after requests at `times`, starting from no entry. */
  function Final(p: Policy, times: seq<real>): Option<Counter> {
    if times == [] then None
    else SharedStep(p, Final(p, times[..|times| - 1]), times[|times| - 1]).1
  }

  /** The answer to the last request of `times`. */
  function Last(p: Policy, times: seq<real>): Verdict
    requires times != []
  {
    SharedStep(p, Final(p, times[..|times| - 1]), times[|times| - 1]).0
  }

  function MemoryFinal(p: Policy, times: seq<real>): Option<Counter> {
    if times == [] then None
    else MemoryStep(p, MemoryFinal(p, times[..|times| - 1]), times[|times| - 1]).1
  }

  function MemoryLast(p: Policy, times: seq<real>): Verdict
    requires times != []
  {
    MemoryStep(p, MemoryFinal(p, times[..|times| - 1]), times[|times| - 1]).0
  }

  ghost predicate Nondecreasing(times: seq<real>) {
    forall i, j :: 0 <= i < j < |times| ==> times[i] <= times[j]
  }

  // ----- The two back ends -----

  lemma {:induction false} SameFinal(p: Policy, times: seq<real>)
    requires p.limit >= 1
    ensures MemoryFinal(p, times) == Final(p, times)
  {
    if times != [] { SameFinal(p, times[..|times| - 1]); }
  }

  ghost predicate SameAnswers(p: Policy, times: seq<real>) {
    forall n :: 0 < n <= |times| ==> MemoryLast(p, times[..n]) == Last(p, times[..n])
  }

  /** The two back ends answer every sequence of requests alike exactly when the limit is positive. */
  lemma BackendsAgree(p: Policy)
    requires p.window > 0.0
    ensures (forall times: seq<real> :: Nondecreasing(times) ==> SameAnswers(p, times)) <==> p.limit >= 1
  {
    if p.limit >= 1 {
      forall times: seq<real>, n | 0 < n <= |times|
        ensures MemoryLast(p, times[..n]) == Last(p, times[..n])
      {
        SameFinal(p, times[..n][..n - 1]);
      }
    } else {
      var times := [0.0, p.window];
      assert times[..2] == times && times[..1] == [0.0];
      assert [0.0][..0] == [];
      assert MemoryFinal(p, [0.0]) == Final(p, [0.0]) == Some(Counter(1, p.window));
      assert MemoryLast(p, times[..2]) == Admit;
      assert Last(p, times[..2]).Reject?;
      assert !SameAnswers(p, times);
    }
  }

  // ----- Windows -----

  /** How many admissions were charged to the window that ends at `resetAt`. */
  function Charged(p: Policy, times: seq<real>, resetAt: real): nat {
    if times == [] then 0
    else
      Charged(p, times[..|times| - 1], resetAt) +
      if Last(p, times).Admit? && Final(p, times).value.resetAt == resetAt then 1 else 0
  }

  /** The stored count is the number of admissions charged to the stored window; no window is ever
      charged more than the limit, and none later than the stored one is charged at all. */
  lemma {:induction false} ChargesWithinLimit(p: Policy, times: seq<real>)
    requires p.limit >= 1 && p.window > 0.0
    ensures Final(p, times).Some? <==> times != []
    ensures forall r :: Charged(p, times, r) <= p.limit
    ensures Final(p, times).Some? ==>
              var c := Final(p, times).value;
              && 1 <= c.count == Charged(p, times, c.resetAt)
              && forall r :: r > c.resetAt ==> Charged(p, times, r) == 0
  {
    if times != [] {
      var before := times[..|times| - 1];
      ChargesWithinLimit(p, before);
      forall r ensures Charged(p, times, r) <= p.limit {
        assert Charged(p, before, r) <= p.limit;
      }
    }
  }

  /** A new window ends strictly later than the one it replaces, whatever order the clock readings come in. */
  lemma ResetsGrow(p: Policy, c: Counter, now: real)
    requires p.window > 0.0
    ensures var c' := SharedStep(p, Some(c), now).1;
            c'.Some? && (c'.value.resetAt == c.resetAt || c.resetAt < c'.value.resetAt == now + p.window)
  {
  }

  /** Along any run the stored window only ever moves to later ones, and within one its count only grows. */
  lemma {:induction false} WindowsAdvance(p: Policy, times: seq<real>, i: nat, j: nat)
    requires p.window > 0.0 && 0 < i <= j <= |times|
    ensures Final(p, times[..i]).Some? && Final(p, times[..j]).Some?
    ensures var a, b := Final(p, times[..i]).value, Final(p, times[..j]).value;
            a.resetAt < b.resetAt || (a.resetAt == b.resetAt && a.count <= b.count)
    decreases j
  {
    assert times[..j][..j - 1] == times[..j - 1];
    if i < j {
      WindowsAdvance(p, times, i, j - 1);
      ResetsGrow(p, Final(p, times[..j - 1]).value, times[j - 1]);
    }
  }

  /** Admissions in the half-open interval [from, from + window). */
  function AdmittedIn(p: Policy, times: seq<real>, from: real): nat {
    if times == [] then 0
    else
      AdmittedIn(p, times[..|times| - 1], from) +
      if Last(p, times).Admit? && from <= times[|times| - 1] < from + p.window then 1 else 0
  }

  lemma {:induction false} SlidingBoundInductive(p: Policy, times: seq<real>, from: real)
    requires p.limit >= 1 && p.window > 0.0 && Nondecreasing(times)
    ensures times == [] ==> AdmittedIn(p, times, from) == 0
    ensures times != [] ==>
              && Final(p, times).Some?
              && var c := Final(p, times).value;
              var n := AdmittedIn(p, times, from);
              && 1 <= c.count <= p.limit
              && c.resetAt - p.window <= times[|times| - 1]
              && (c.resetAt <= from ==> n == 0)
              && (from < c.resetAt < from + p.window ==> n < c.count)
              && (from + p.window <= c.resetAt < from + 2.0 * p.window ==> n <= p.limit - 1 + c.count)
              && n <= 2 * p.limit - 1
  {
    if times != [] {
      var before := times[..|times| - 1];
      SlidingBoundInductive(p, before, from);
      if before != [] {
        assert before[|before| - 1] == times[|before| - 1] <= times[|times| - 1];
      }
    }
  }

  /** No span as long as the window ever holds 2 * limit admissions. */
  lemma SlidingBound(p: Policy, times: seq<real>, from: real)
    requires p.limit >= 1 && p.window > 0.0 && Nondecreasing(times)
    ensures AdmittedIn(p, times, from) <= 2 * p.limit - 1
  {
    SlidingBoundInductive(p, times, from);
  }

  lemma OneMore(p: Policy, times: seq<real>, t: real, from: real)
    ensures Final(p, times + [t]) == SharedStep(p, Final(p, times), t).1
    ensures AdmittedIn(p, times + [t], from) ==
            AdmittedIn(p, times, from) +
            if SharedStep(p, Final(p, times), t).0.Admit? && from <= t < from + p.window then 1 else 0
  {
    assert (times + [t])[..|times|] == times;
  }

  /** Requests at one moment use up what is left of the stored window. */
  lemma {:induction false} FillWindow(p: Policy, times: seq<real>, from: real, t: real, c: Counter)
    returns (filled: seq<real>)
    requires 1 <= c.count <= p.limit && Final(p, times) == Some(c) && from <= t < from + p.window && t < c.resetAt
    requires Nondecreasing(times) && times != [] && times[|times| - 1] <= t
    ensures Nondecreasing(filled) && filled != [] && filled[|filled| - 1] <= t
    ensures Final(p, filled) == Some(Counter(p.limit, c.resetAt))
    ensures AdmittedIn(p, filled, from) == AdmittedIn(p, times, from) + p.limit - c.count
    decreases p.limit - c.count
  {
    if c.count == p.limit {
      filled := times;
    } else {
      OneMore(p, times, t, from);
      filled := FillWindow(p, times + [t], from, t, Counter(c.count + 1, c.resetAt));
    }
  }

  /** The bound is reached for every limit and window: late in one window, then at once in the next. */
  lemma SlidingBoundIsTight(p: Policy) returns (times: seq<real>, from: real)
    requires p.limit >= 1 && p.window > 0.0
    ensures Nondecreasing(times) && AdmittedIn(p, times, from) == 2 * p.limit - 1
  {
    from := p.window / 2.0;
    OneMore(p, [], 0.0, from);
    times := FillWindow(p, [] + [0.0], from, from, Counter(1, p.window));
    OneMore(p, times, p.window, from);
    times := FillWindow(p, times + [p.window], from, p.window, Counter(1, p.window + p.window));
  }

  /** `retry_after` is exact: among whole seconds, the refused client is let in from that many on and not before. */
  lemma RetryAfterIsExact(p: Policy, c: Counter, now: real, k: nat)
    requires p.limit >= 1 && k >= 1
    requires SharedStep(p, Some(c), now).0.Reject?
    ensures SharedStep(p, Some(c), now + k as real).0.Admit? <==> k >= SharedStep(p, Some(c), now).0.retryAfter
    ensures MemoryStep(p, Some(c), now).0 == SharedStep(p, Some(c), now).0
    ensures MemoryStep(p, Some(c), now + k as real).0.Admit? <==> k >= MemoryStep(p, Some(c), now).0.retryAfter
  {
    var d := c.resetAt - now;
    assert (-d).Floor as real <= -d < (-d).Floor as real + 1.0;
    assert k as real >= d <==> k >= Ceil(d);
  }
}
