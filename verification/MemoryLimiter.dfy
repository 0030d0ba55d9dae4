/** `InMemoryRateLimitBackend`: one dictionary of counters for all keys, kept to a maximum size by
    dropping run-out entries and then those that run out first. */
module MemoryLimiter {
  import opened Wrappers
  import opened FixedWindow

  type Entries = map<string, Counter>

  // ----- Lists of dictionary keys -----

  function Elements(s: seq<string>): set<string> {
    set k | k in s
  }

  predicate Distinct(s: seq<string>) {
    s == [] || (s[0] !in s[1..] && Distinct(s[1..]))
  }

  /** `order` is an enumeration of the dictionary's keys. */
  ghost predicate Lists(order: seq<string>, keys: set<string>) {
    Distinct(order) && Elements(order) == keys
  }

  /** `a` stands before `b` in the list. */
  predicate Before(order: seq<string>, a: string, b: string) {
    order != [] && if order[0] == a then b in order[1..] else Before(order[1..], a, b)
  }

  /** Keys keep their relative order. */
  ghost predicate Suborder(part: seq<string>, order: seq<string>) {
    forall a, b :: Before(part, a, b) ==> Before(order, a, b)
  }

  lemma {:induction false} ListSize(s: seq<string>)
    requires Distinct(s)
    ensures |s| == |Elements(s)|
  {
    if s != [] {
      ListSize(s[1..]);
      assert Elements(s) == Elements(s[1..]) + {s[0]};
    }
  }

  lemma {:induction false} SplitLists(s: seq<string>, n: nat)
    requires Distinct(s) && n <= |s|
    ensures Distinct(s[n..]) && Elements(s[n..]) == Elements(s) - Elements(s[..n])
  {
    if n > 0 {
      SplitLists(s[1..], n - 1);
      assert s[1..][n - 1..] == s[n..] && s[..n] == [s[0]] + s[1..][..n - 1];
      assert Elements(s[..n]) == {s[0]} + Elements(s[1..][..n - 1]);
      assert Elements(s) == {s[0]} + Elements(s[1..]);
    } else {
      assert s[0..] == s && s[..0] == [];
    }
  }

  /** Where assigning to a key leaves it in the dictionary: in place, or at the end when it is new. */
  function InsertionOrder(order: seq<string>, key: string): seq<string> {
    if key in order then order else order + [key]
  }

  lemma {:induction false} AppendDistinct(s: seq<string>, key: string)
    requires Distinct(s) && key !in s
    ensures Distinct(s + [key])
  {
    if s != [] {
      AppendDistinct(s[1..], key);
      assert (s + [key])[1..] == s[1..] + [key];
    }
  }

  function Without(s: seq<string>, gone: string): seq<string> {
    if s == [] then [] else if s[0] == gone then Without(s[1..], gone) else [s[0]] + Without(s[1..], gone)
  }

  lemma {:induction false} WithoutLists(s: seq<string>, gone: string)
    ensures Elements(Without(s, gone)) == Elements(s) - {gone}
    ensures Distinct(s) ==> Distinct(Without(s, gone))
  {
    if s != [] {
      WithoutLists(s[1..], gone);
      var w := Without(s[1..], gone);
      assert forall x :: x in w <==> x in Elements(w);
      if s[0] != gone { assert ([s[0]] + w)[1..] == w; }
    }
  }

  lemma {:induction false} WithoutKeepsOrder(s: seq<string>, gone: string, a: string, b: string)
    requires Distinct(s) && Before(Without(s, gone), a, b)
    ensures Before(s, a, b)
  {
    WithoutLists(s[1..], gone);
    var w := Without(s[1..], gone);
    assert forall x :: x in w <==> x in Elements(w);
    if s[0] != gone { assert ([s[0]] + w)[1..] == w; }
    if s[0] == gone {
      BeforeElements(w, a, b);
      WithoutKeepsOrder(s[1..], gone, a, b);
    } else if s[0] != a {
      WithoutKeepsOrder(s[1..], gone, a, b);
    }
  }

  lemma {:induction false} BeforeElements(s: seq<string>, a: string, b: string)
    requires Before(s, a, b)
    ensures a in s && b in s
  {
    if s[0] != a { BeforeElements(s[1..], a, b); }
  }

  // ----- Python's stable `sorted` with the reset time as key -----

  /** `a` comes out of the sort before `b`: earlier reset, or the same reset and earlier in the dictionary. */
  ghost predicate Earlier(e: Entries, order: seq<string>, a: string, b: string)
    requires a in e && b in e
  {
    e[a].resetAt < e[b].resetAt || (e[a].resetAt == e[b].resetAt && Before(order, a, b))
  }

  function Insert(k: string, s: seq<string>, e: Entries): seq<string>
    requires k in e && forall x <- s :: x in e
  {
    if s == [] || e[k].resetAt <= e[s[0]].resetAt then [k] + s else [s[0]] + Insert(k, s[1..], e)
  }

  lemma {:induction false} InsertElements(k: string, s: seq<string>, e: Entries)
    requires k in e && forall x <- s :: x in e
    ensures Elements(Insert(k, s, e)) == Elements(s) + {k}
    ensures k !in s && Distinct(s) ==> Distinct(Insert(k, s, e))
  {
    if s == [] || e[k].resetAt <= e[s[0]].resetAt {
      assert ([k] + s)[1..] == s;
    } else {
      InsertElements(k, s[1..], e);
      var t := Insert(k, s[1..], e);
      assert forall x :: x in t <==> x in Elements(t);
      assert ([s[0]] + t)[1..] == t;
    }
  }

  function SortByReset(order: seq<string>, e: Entries): (s: seq<string>)
    requires forall x <- order :: x in e
    ensures Elements(s) == Elements(order)
  {
    if order == [] then []
    else
      var rest := SortByReset(order[1..], e);
      assert forall x <- rest :: x in Elements(rest);
      InsertElements(order[0], rest, e);
      Insert(order[0], rest, e)
  }

  ghost predicate SortedIn(s: seq<string>, e: Entries, order: seq<string>)
    requires forall x <- s :: x in e
  {
    s == [] || ((forall x <- s[1..] :: Earlier(e, order, s[0], x)) && SortedIn(s[1..], e, order))
  }

  lemma {:induction false} InsertSorted(k: string, s: seq<string>, e: Entries, order: seq<string>)
    requires k in e && (forall x <- s :: x in e)
    requires SortedIn(s, e, order) && forall x <- s :: Before(order, k, x)
    ensures forall x <- Insert(k, s, e) :: x in e
    ensures SortedIn(Insert(k, s, e), e, order)
  {
    InsertElements(k, s, e);
    assert forall x <- Insert(k, s, e) :: x in Elements(Insert(k, s, e));
    if s != [] && e[k].resetAt > e[s[0]].resetAt {
      InsertSorted(k, s[1..], e, order);
      InsertElements(k, s[1..], e);
      var t := Insert(k, s[1..], e);
      assert ([s[0]] + t)[1..] == t;
      forall x | x in t ensures Earlier(e, order, s[0], x) {
        assert x in Elements(t);
        assert x == k || x in s[1..];
      }
    } else {
      assert ([k] + s)[1..] == s;
      forall x | x in s ensures Earlier(e, order, k, x) {
        assert x == s[0] || Earlier(e, order, s[0], x);
      }
    }
  }

  lemma {:induction false} SortedInLonger(s: seq<string>, e: Entries, k: string, order: seq<string>)
    requires (forall x <- s :: x in e) && k !in s && SortedIn(s, e, order)
    ensures SortedIn(s, e, [k] + order)
  {
    if s != [] {
      SortedInLonger(s[1..], e, k, order);
      forall x | x in s[1..] ensures Earlier(e, [k] + order, s[0], x) {
        assert ([k] + order)[1..] == order;
      }
    }
  }

  /** The sort is a stable one: the same keys, by reset time, ties in dictionary order. */
  lemma {:induction false} SortIsStable(order: seq<string>, e: Entries)
    requires Distinct(order) && forall x <- order :: x in e
    ensures Distinct(SortByReset(order, e))
    ensures forall x <- SortByReset(order, e) :: x in e
    ensures SortedIn(SortByReset(order, e), e, order)
  {
    if order != [] {
      var k, rest := order[0], order[1..];
      SortIsStable(rest, e);
      var s := SortByReset(rest, e);
      assert forall x :: x in s <==> x in Elements(s);
      InsertElements(k, s, e);
      SortedInLonger(s, e, k, rest);
      assert [k] + rest == order;
      InsertSorted(k, s, e, order);
    }
  }

  lemma {:induction false} FrontIsEarlier(s: seq<string>, e: Entries, order: seq<string>, n: nat, d: string, k: string)
    requires (forall x <- s :: x in e) && SortedIn(s, e, order) && n <= |s|
    requires d in s[..n] && k in s[n..]
    ensures Earlier(e, order, d, k)
  {
    assert s[1..][n - 1..] == s[n..] && s[..n] == [s[0]] + s[1..][..n - 1];
    if d == s[0] {
      assert k in s[1..];
    } else {
      FrontIsEarlier(s[1..], e, order, n - 1, d, k);
    }
  }

  // ----- Cleanup -----

  /** What `_cleanup` must leave of the dictionary `e`. */
  ghost predicate CleanedUp(e: Entries, order: seq<string>, maxKeys: nat, now: real, e': Entries) {
    && e'.Keys <= e.Keys
    && (forall k <- e' :: e'[k] == e[k])
    && |e'| <= maxKeys
    && (|e| <= maxKeys ==> e' == e)
    // run-out entries go first: none survives once anything is dropped
    && (|e| > maxKeys ==> forall k <- e' :: e[k].resetAt > now)
    // a live entry goes only if room is needed, and then the ones that run out first
    && (forall d <- e :: d !in e' && e[d].resetAt > now ==>
          |e'| == maxKeys && forall k <- e' :: Earlier(e, order, d, k))
  }

  /** The keys whose window has run out, in dictionary order. */
  function ExpiredKeys(order: seq<string>, e: Entries, now: real): (s: seq<string>)
    requires forall k <- order :: k in e
    ensures forall k :: k in s <==> k in order && e[k].resetAt <= now
  {
    if order == [] then []
    else (if e[order[0]].resetAt <= now then [order[0]] else []) + ExpiredKeys(order[1..], e, now)
  }

  /** What popping the run-out keys leaves: the live entries, in the order they were in. */
  ghost predicate OnlyLive(e: Entries, order: seq<string>, now: real, live: Entries, liveOrder: seq<string>) {
    && live.Keys <= e.Keys
    && (forall k <- live :: live[k] == e[k])
    && (forall k <- e :: k in live <==> e[k].resetAt > now)
    && Suborder(liveOrder, order)
  }

  /** `n` entries stay, and every entry that goes comes before every entry that stays. */
  ghost predicate KeepsLatest(e: Entries, order: seq<string>, n: nat, e': Entries) {
    && e'.Keys <= e.Keys
    && (forall k <- e' :: e'[k] == e[k])
    && |e'| == n
    && forall d <- e, k <- e' :: d !in e' ==> Earlier(e, order, d, k)
  }

  lemma SplitSorted(e: Entries, order: seq<string>, sorted: seq<string>, n: nat)
    requires n <= |sorted| && (forall k <- sorted :: k in e) && SortedIn(sorted, e, order)
    ensures forall d <- Elements(sorted[..n]), k <- Elements(sorted[n..]) :: d in e && k in e && Earlier(e, order, d, k)
  {
    forall d, k | d in sorted[..n] && k in sorted[n..] ensures Earlier(e, order, d, k) {
      FrontIsEarlier(sorted, e, order, n, d, k);
    }
  }

  lemma PoppingFrontKeepsLatest(e: Entries, order: seq<string>, front: set<string>, back: set<string>)
    requires front !! back && front + back == e.Keys
    requires forall d <- front, k <- back :: d in e && k in e && Earlier(e, order, d, k)
    ensures KeepsLatest(e, order, |back|, e - front)
  {
    assert (e - front).Keys == back;
  }

  lemma BackOfSort(keys: set<string>, sorted: seq<string>, n: nat) returns (back: set<string>)
    requires Lists(sorted, keys) && n <= |keys|
    ensures n <= |sorted| && back == Elements(sorted[n..])
    ensures var front := Elements(sorted[..n]); front !! back && front + back == keys && |back| == |keys| - n
  {
    ListSize(sorted);
    SplitLists(sorted, n);
    ListSize(sorted[n..]);
    back := Elements(sorted[n..]);
    assert Elements(sorted[..n]) <= Elements(sorted);
  }

  lemma FrontOfSort(e: Entries, order: seq<string>, sorted: seq<string>, n: nat)
    requires Lists(sorted, e.Keys) && n <= |e|
    requires (forall k <- sorted :: k in e) && SortedIn(sorted, e, order)
    ensures n <= |sorted| && KeepsLatest(e, order, |e| - n, e - Elements(sorted[..n]))
  {
    var back := BackOfSort(e.Keys, sorted, n);
    SplitSorted(e, order, sorted, n);
    PoppingFrontKeepsLatest(e, order, Elements(sorted[..n]), back);
  }

  lemma LatestLiveIsCleanedUp(e: Entries, order: seq<string>, maxKeys: nat, now: real,
                              live: Entries, liveOrder: seq<string>, e': Entries)
    requires |e| > maxKeys && OnlyLive(e, order, now, live, liveOrder)
    requires KeepsLatest(live, liveOrder, maxKeys, e') || (e' == live && |live| <= maxKeys)
    ensures CleanedUp(e, order, maxKeys, now, e')
  {
  }

  function Entry(e: Entries, key: string): Option<Counter> {
    if key in e then Some(e[key]) else None
  }

  /** The table with the key's new counter, before any cleanup. */
  function Counted(policy: Policy, e: Entries, key: string, now: real): Entries {
    e[key := MemoryStep(policy, Entry(e, key), now).1.value]
  }

  /** What one check answers and makes of the table: the key's own fixed-window step, and a cleanup when it
      opened a window. */
  ghost predicate CheckStep(maxKeys: nat, policy: Policy, e: Entries, order: seq<string>, key: string, now: real,
                            verdict: Verdict, e': Entries, order': seq<string>)
  {
    && verdict == MemoryStep(policy, Entry(e, key), now).0
    && Lists(order', e'.Keys) && Suborder(order', InsertionOrder(order, key))
    && if key in e && e[key].resetAt > now then e' == Counted(policy, e, key, now) && order' == order
       else CleanedUp(Counted(policy, e, key, now), InsertionOrder(order, key), maxKeys, now, e')
  }

  /** A running window's entry keeps its place, whatever the answer. */
  lemma RunningIsStep(maxKeys: nat, policy: Policy, e: Entries, order: seq<string>, key: string, now: real)
    requires Lists(order, e.Keys) && key in e && e[key].resetAt > now
    ensures CheckStep(maxKeys, policy, e, order, key, now, MemoryStep(policy, Some(e[key]), now).0,
                      Counted(policy, e, key, now), order)
  {
    assert key in Elements(order);
    assert Counted(policy, e, key, now).Keys == e.Keys;
  }

  class InMemoryRateLimitBackend {
    const maxKeys: nat
    var entries: Entries
    var order: seq<string> // the dictionary's insertion order

    constructor (maxKeys: nat)
      ensures this.maxKeys == maxKeys && entries == map[] && Valid()
    {
      this.maxKeys, entries, order := maxKeys, map[], [];
    }

    ghost predicate Valid()
      reads this
    {
      Lists(order, entries.Keys)
    }

    method PopAll(keys: seq<string>)
      requires Valid()
      modifies this
      ensures Valid() && entries == old(entries) - Elements(keys)
      ensures Suborder(order, old(order))
    {
      var i := 0;
      while i < |keys|
        invariant i <= |keys| && Valid()
        invariant entries == old(entries) - Elements(keys[..i])
        invariant Suborder(order, old(order))
      {
        var key, was := keys[i], order;
        entries := entries - {key};
        order := Without(order, key);
        WithoutLists(was, key);
        forall a, b | Before(order, a, b) ensures Before(was, a, b) { WithoutKeepsOrder(was, key, a, b); }
        assert Elements(keys[..i + 1]) == Elements(keys[..i]) + {key};
        i := i + 1;
      }
      assert keys[..i] == keys;
    }

    method PopExpired(now: real)
      requires Valid()
      modifies this
      ensures Valid() && OnlyLive(old(entries), old(order), now, entries, order)
    {
      ghost var o := order;
      assert forall k :: k in order <==> k in Elements(order);
      var expired := ExpiredKeys(order, entries, now);
      assert forall k :: k in expired <==> k in Elements(expired);
      PopAll(expired);
    }

    method Cleanup(now: real)
      requires Valid()
      modifies this
      ensures Valid() && CleanedUp(old(entries), old(order), maxKeys, now, entries)
      ensures Suborder(order, old(order))
    {
      if |entries| <= maxKeys { return; }
      ghost var e, o := entries, order;
      PopExpired(now);
      ghost var live, liveOrder := entries, order;
      if |entries| > maxKeys {
        var oldest := Oldest(|entries| - maxKeys);
        PopAll(oldest);
      }
      LatestLiveIsCleanedUp(e, o, maxKeys, now, live, liveOrder, entries);
    }

    /** sorted(entries, by reset)[:overflow] */
    method Oldest(overflow: nat) returns (oldest: seq<string>)
      requires Valid() && overflow <= |entries|
      ensures KeepsLatest(entries, order, |entries| - overflow, entries - Elements(oldest))
    {
      assert forall k <- order :: k in Elements(order);
      var sorted := SortByReset(order, entries);
      SortIsStable(order, entries);
      FrontOfSort(entries, order, sorted, overflow);
      oldest := sorted[..overflow];
    }

    /** A key with no running window gets one, and the table is cleaned up. */
    method OpenWindow(key: string, policy: Policy, now: real)
      requires Valid()
      modifies this
      ensures Valid()
      ensures CleanedUp(old(entries)[key := Counter(1, now + policy.window)],
                        InsertionOrder(old(order), key), maxKeys, now, entries)
      ensures Suborder(order, InsertionOrder(old(order), key))
    {
      assert key in order <==> key in Elements(order);
      if key !in order {
        AppendDistinct(order, key);
        assert Elements(order + [key]) == Elements(order) + {key};
      }
      order := InsertionOrder(order, key);
      entries := entries[key := Counter(1, now + policy.window)];
      Cleanup(now);
    }

    /** The answer is the key's own fixed-window step; the table gains that step's counter and, when a
        window was opened, is then cleaned up. */
    method Check(key: string, policy: Policy, now: real) returns (verdict: Verdict)
      requires Valid()
      modifies this
      ensures Valid() && CheckStep(maxKeys, policy, old(entries), old(order), key, now, verdict, entries, order)
      ensures |old(entries)| <= maxKeys ==> |entries| <= maxKeys
    {
      if key !in entries || entries[key].resetAt <= now {
        OpenWindow(key, policy, now);
        return Admit;
      }
      var current := entries[key];
      RunningIsStep(maxKeys, policy, entries, order, key, now);
      if current.count >= policy.limit {
        assert entries == entries[key := current];
        return Reject(RetryAfter(now, current.resetAt));
      }
      entries := entries[key := Counter(current.count + 1, current.resetAt)];
      return Admit;
    }
  }
}
