/** Whole runs of the in-memory limiter: many keys on one bounded table. */
module LimiterRuns {
  import opened Wrappers
  import opened FixedWindow
  import opened MemoryLimiter

  datatype Request = Request(key: string, now: real)

  datatype Table = Table(entries: Entries, order: seq<string>)

  /** The table before the first request and after each one, and the answers. */
  datatype Run = Run(requests: seq<Request>, tables: seq<Table>, verdicts: seq<Verdict>)

  /** Every key has its policy, as the endpoint is part of the key. */
  ghost predicate IsRun(maxKeys: nat, policies: string -> Policy, r: Run) {
    && |r.tables| == |r.requests| + 1 && |r.verdicts| == |r.requests|
    && r.tables[0] == Table(map[], [])
    && (forall i, j :: 0 <= i < j < |r.requests| ==> r.requests[i].now <= r.requests[j].now)
    && forall i :: 0 <= i < |r.requests| ==> Checked(maxKeys, policies, r, i)
  }

  ghost predicate Checked(maxKeys: nat, policies: string -> Policy, r: Run, i: nat)
    requires |r.tables| == |r.requests| + 1 && |r.verdicts| == |r.requests| && i < |r.requests|
  {
    var key := r.requests[i].key;
    CheckStep(maxKeys, policies(key), r.tables[i].entries, r.tables[i].order, key, r.requests[i].now, r.verdicts[i],
              r.tables[i + 1].entries, r.tables[i + 1].order)
  }

  /** The times of one key's requests. */
  function Own(requests: seq<Request>, key: string): seq<real> {
    if requests == [] then []
    else
      var last := requests[|requests| - 1];
      Own(requests[..|requests| - 1], key) + if last.key == key then [last.now] else []
  }

  /** The table in the middle of check i, with the new counter and before any cleanup. */
  function Midway(policies: string -> Policy, r: Run, i: nat): Entries
    requires i < |r.requests| < |r.tables|
  {
    Counted(policies(r.requests[i].key), r.tables[i].entries, r.requests[i].key, r.requests[i].now)
  }

  /** Check i dropped the key while its window was running. */
  predicate DropsLive(policies: string -> Policy, r: Run, i: nat, key: string)
    requires i < |r.requests| && |r.tables| == |r.requests| + 1
  {
    var e := Midway(policies, r, i);
    key in e && e[key].resetAt > r.requests[i].now && key !in r.tables[i + 1].entries
  }

  // ----- When a running window is dropped -----

  function LiveKeys(e: Entries, now: real): set<string> {
    set k <- e | e[k].resetAt > now
  }

  /** Only when more windows are running than the table may hold. */
  lemma DropNeedsFullTable(maxKeys: nat, policies: string -> Policy, r: Run, i: nat, key: string)
    requires IsRun(maxKeys, policies, r) && i < |r.requests| && DropsLive(policies, r, i, key)
    ensures |LiveKeys(Midway(policies, r, i), r.requests[i].now)| > maxKeys
  {
    assert Checked(maxKeys, policies, r, i);
    var e, e', now := Midway(policies, r, i), r.tables[i + 1].entries, r.requests[i].now;
    var live := LiveKeys(e, now);
    assert |e'| == maxKeys && |e| > maxKeys;
    assert e'.Keys <= live && key in live - e'.Keys;
    Subset(e'.Keys, live - {key});
  }

  lemma Subset(a: set<string>, b: set<string>)
    requires a <= b
    ensures |a| <= |b|
  {
    if a != {} {
      var x :| x in a;
      Subset(a - {x}, b - {x});
    }
  }

  // ----- Which running windows are dropped -----

  /** The check since which the key has been in the table that check n - 1 leaves or is about to clean up. */
  function InsertedAt(r: Run, n: nat, key: string): (i: nat)
    requires n <= |r.requests| < |r.tables|
    ensures i <= n && (i == n ==> n == 0)
  {
    if n == 0 then 0 else if key in r.tables[n - 1].entries then InsertedAt(r, n - 1, key) else n - 1
  }

  /** The dictionary's order is that of insertion. */
  ghost predicate ByInsertion(r: Run, n: nat, order: seq<string>)
    requires n <= |r.requests| < |r.tables|
  {
    forall a, b :: Before(order, a, b) ==> InsertedAt(r, n, a) < InsertedAt(r, n, b)
  }

  lemma {:induction false} BeforeAppended(s: seq<string>, key: string, a: string, b: string)
    requires Before(s + [key], a, b)
    ensures Before(s, a, b) || (a in s && b == key)
  {
    if s == [] {
      assert (s + [key])[1..] == [];
    } else {
      assert (s + [key])[1..] == s[1..] + [key];
      if s[0] != a { BeforeAppended(s[1..], key, a, b); }
    }
  }

  lemma TableIsListed(maxKeys: nat, policies: string -> Policy, r: Run, n: nat)
    requires IsRun(maxKeys, policies, r) && n <= |r.requests|
    ensures Lists(r.tables[n].order, r.tables[n].entries.Keys)
  {
    if n > 0 { assert Checked(maxKeys, policies, r, n - 1); }
  }

  lemma InsertionKeepsOrder(maxKeys: nat, policies: string -> Policy, r: Run, n: nat)
    requires IsRun(maxKeys, policies, r) && n < |r.requests| && ByInsertion(r, n, r.tables[n].order)
    ensures ByInsertion(r, n + 1, InsertionOrder(r.tables[n].order, r.requests[n].key))
  {
    var order, key := r.tables[n].order, r.requests[n].key;
    TableIsListed(maxKeys, policies, r, n);
    assert forall x :: x in order <==> x in Elements(order);
    forall a, b | Before(InsertionOrder(order, key), a, b) ensures InsertedAt(r, n + 1, a) < InsertedAt(r, n + 1, b) {
      if key !in order { BeforeAppended(order, key, a, b); }
      if Before(order, a, b) { BeforeElements(order, a, b); }
    }
  }

  lemma {:induction false} TableOrderIsInsertionOrder(maxKeys: nat, policies: string -> Policy, r: Run, n: nat)
    requires IsRun(maxKeys, policies, r) && n <= |r.requests|
    ensures ByInsertion(r, n, r.tables[n].order)
  {
    if n > 0 {
      TableOrderIsInsertionOrder(maxKeys, policies, r, n - 1);
      InsertionKeepsOrder(maxKeys, policies, r, n - 1);
      assert Checked(maxKeys, policies, r, n - 1);
    }
  }

  /** A running window that is dropped ends before every window that stays, or together with it and has been
      in the table for longer. */
  lemma EarliestIsDropped(maxKeys: nat, policies: string -> Policy, r: Run, i: nat, key: string, other: string)
    requires IsRun(maxKeys, policies, r) && i < |r.requests|
    requires DropsLive(policies, r, i, key) && other in r.tables[i + 1].entries
    ensures var e := Midway(policies, r, i);
            && other in e
            && (e[key].resetAt < e[other].resetAt ||
                (e[key].resetAt == e[other].resetAt && InsertedAt(r, i + 1, key) < InsertedAt(r, i + 1, other)))
  {
    assert Checked(maxKeys, policies, r, i);
    TableOrderIsInsertionOrder(maxKeys, policies, r, i);
    InsertionKeepsOrder(maxKeys, policies, r, i);
    var e, order := Midway(policies, r, i), InsertionOrder(r.tables[i].order, r.requests[i].key);
    assert Earlier(e, order, key, other);
  }

  // ----- Each key is a counter of its own -----

  /** The key's entry is its own counter, or is gone and its window was over by then. */
  ghost predicate KeyOk(policies: string -> Policy, r: Run, n: nat, key: string)
    requires n <= |r.requests| < |r.tables|
  {
    var own := MemoryFinal(policies(key), Own(r.requests[..n], key));
    Entry(r.tables[n].entries, key) == own ||
    (key !in r.tables[n].entries && own.Some? && n > 0 && own.value.resetAt <= r.requests[n - 1].now)
  }

  lemma OwnOneMore(requests: seq<Request>, n: nat, key: string)
    requires n < |requests|
    ensures Own(requests[..n + 1], key) ==
            Own(requests[..n], key) + if requests[n].key == key then [requests[n].now] else []
  {
    assert requests[..n + 1][..n] == requests[..n];
  }

  lemma FinalOneMore(p: Policy, times: seq<real>, t: real)
    ensures MemoryFinal(p, times + [t]) == MemoryStep(p, MemoryFinal(p, times), t).1
    ensures MemoryLast(p, times + [t]) == MemoryStep(p, MemoryFinal(p, times), t).0
  {
    assert (times + [t])[..|times|] == times;
  }

  /** The check answers the key's request as the key's own counter does. */
  lemma AnswersOwn(maxKeys: nat, policies: string -> Policy, r: Run, n: nat, key: string)
    requires IsRun(maxKeys, policies, r) && n < |r.requests| && r.requests[n].key == key && KeyOk(policies, r, n, key)
    ensures r.verdicts[n] == MemoryLast(policies(key), Own(r.requests[..n + 1], key))
    ensures Entry(Midway(policies, r, n), key) == MemoryFinal(policies(key), Own(r.requests[..n + 1], key))
  {
    assert Checked(maxKeys, policies, r, n);
    OwnOneMore(r.requests, n, key);
    FinalOneMore(policies(key), Own(r.requests[..n], key), r.requests[n].now);
  }

  lemma StepKeepsKeyOk(maxKeys: nat, policies: string -> Policy, r: Run, n: nat, key: string)
    requires IsRun(maxKeys, policies, r) && n < |r.requests| && KeyOk(policies, r, n, key)
    requires !DropsLive(policies, r, n, key)
    ensures KeyOk(policies, r, n + 1, key)
  {
    assert Checked(maxKeys, policies, r, n);
    OwnOneMore(r.requests, n, key);
    if r.requests[n].key == key {
      AnswersOwn(maxKeys, policies, r, n, key);
    } else {
      assert Own(r.requests[..n], key) + [] == Own(r.requests[..n], key);
    }
  }

  lemma {:induction false} KeyStaysOk(maxKeys: nat, policies: string -> Policy, r: Run, n: nat, key: string)
    requires IsRun(maxKeys, policies, r) && n <= |r.requests|
    requires forall i :: 0 <= i < n ==> !DropsLive(policies, r, i, key)
    ensures KeyOk(policies, r, n, key)
  {
    if n > 0 {
      KeyStaysOk(maxKeys, policies, r, n - 1, key);
      StepKeepsKeyOk(maxKeys, policies, r, n - 1, key);
    }
  }

  /** Whatever other keys do, a key's requests are answered as if it were alone, as long as no running window
      of it was dropped. */
  lemma KeysAreIndependent(maxKeys: nat, policies: string -> Policy, r: Run, n: nat, key: string)
    requires IsRun(maxKeys, policies, r) && n < |r.requests| && r.requests[n].key == key
    requires forall i :: 0 <= i < n ==> !DropsLive(policies, r, i, key)
    ensures r.verdicts[n] == MemoryLast(policies(key), Own(r.requests[..n + 1], key))
  {
    KeyStaysOk(maxKeys, policies, r, n, key);
    AnswersOwn(maxKeys, policies, r, n, key);
  }

  // ----- The sliding bound on the table -----

  /** The key's admissions from `from` on for one window, among the first n requests. */
  function Admitted(policies: string -> Policy, r: Run, n: nat, key: string, from: real): nat
    requires n <= |r.requests| == |r.verdicts|
  {
    if n == 0 then 0
    else
      Admitted(policies, r, n - 1, key, from) +
      if r.requests[n - 1].key == key && r.verdicts[n - 1].Admit?
         && from <= r.requests[n - 1].now < from + policies(key).window then 1 else 0
  }

  /** At no time are more windows running than the table may hold. */
  ghost predicate EnoughRoom(maxKeys: nat, policies: string -> Policy, r: Run)
    requires |r.tables| == |r.requests| + 1
  {
    forall i :: 0 <= i < |r.requests| ==> |LiveKeys(Midway(policies, r, i), r.requests[i].now)| <= maxKeys
  }

  lemma NothingLiveDropped(maxKeys: nat, policies: string -> Policy, r: Run, n: nat, key: string)
    requires IsRun(maxKeys, policies, r) && EnoughRoom(maxKeys, policies, r) && n <= |r.requests|
    ensures forall i :: 0 <= i < n ==> !DropsLive(policies, r, i, key)
  {
    forall i | 0 <= i < n ensures !DropsLive(policies, r, i, key) {
      if DropsLive(policies, r, i, key) { DropNeedsFullTable(maxKeys, policies, r, i, key); }
    }
  }

  /** Every request of the key is answered by its own atomic counter. */
  ghost predicate AnsweredAlone(policies: string -> Policy, r: Run, key: string)
    requires |r.verdicts| == |r.requests|
  {
    forall n :: 0 <= n < |r.requests| && r.requests[n].key == key ==>
      r.verdicts[n] == SharedStep(policies(key), Final(policies(key), Own(r.requests[..n], key)), r.requests[n].now).0
  }

  lemma RoomAnswersAlone(maxKeys: nat, policies: string -> Policy, r: Run, key: string)
    requires IsRun(maxKeys, policies, r) && EnoughRoom(maxKeys, policies, r) && policies(key).limit >= 1
    ensures AnsweredAlone(policies, r, key)
  {
    var p := policies(key);
    forall n | 0 <= n < |r.requests| && r.requests[n].key == key
      ensures r.verdicts[n] == SharedStep(p, Final(p, Own(r.requests[..n], key)), r.requests[n].now).0
    {
      NothingLiveDropped(maxKeys, policies, r, n, key);
      KeysAreIndependent(maxKeys, policies, r, n, key);
      OwnOneMore(r.requests, n, key);
      FinalOneMore(p, Own(r.requests[..n], key), r.requests[n].now);
      SameFinal(p, Own(r.requests[..n], key));
    }
  }

  lemma {:induction false} AdmittedIsOwn(policies: string -> Policy, r: Run, n: nat, key: string, from: real)
    requires n <= |r.requests| == |r.verdicts| && AnsweredAlone(policies, r, key)
    ensures Admitted(policies, r, n, key, from) == AdmittedIn(policies(key), Own(r.requests[..n], key), from)
  {
    if n > 0 {
      AdmittedIsOwn(policies, r, n - 1, key, from);
      OwnOneMore(r.requests, n - 1, key);
      if r.requests[n - 1].key == key {
        OneMore(policies(key), Own(r.requests[..n - 1], key), r.requests[n - 1].now, from);
      } else {
        assert Own(r.requests[..n - 1], key) + [] == Own(r.requests[..n - 1], key);
      }
    }
  }

  lemma {:induction false} OwnInOrder(requests: seq<Request>, key: string, n: nat)
    requires n <= |requests| && forall i, j :: 0 <= i < j < |requests| ==> requests[i].now <= requests[j].now
    ensures Nondecreasing(Own(requests[..n], key))
    ensures forall t <- Own(requests[..n], key), i :: n <= i < |requests| ==> t <= requests[i].now
  {
    if n > 0 {
      OwnInOrder(requests, key, n - 1);
      OwnOneMore(requests, n - 1, key);
      var before := Own(requests[..n - 1], key);
      assert before + [] == before;
      forall i | 0 <= i < |before| ensures before[i] <= requests[n - 1].now { assert before[i] in before; }
    }
  }

  /** While the table has room for all running windows, no key is ever admitted 2 * limit times within one
      window's length, whatever the other keys do. */
  lemma TableSlidingBound(maxKeys: nat, policies: string -> Policy, r: Run, key: string, from: real)
    requires IsRun(maxKeys, policies, r) && EnoughRoom(maxKeys, policies, r)
    requires policies(key).limit >= 1 && policies(key).window > 0.0
    ensures Admitted(policies, r, |r.requests|, key, from) <= 2 * policies(key).limit - 1
  {
    RoomAnswersAlone(maxKeys, policies, r, key);
    AdmittedIsOwn(policies, r, |r.requests|, key, from);
    OwnInOrder(r.requests, key, |r.requests|);
    SlidingBound(policies(key), Own(r.requests[..|r.requests|], key), from);
  }
}
