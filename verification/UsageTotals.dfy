/** Traffic totals per user.  Python's insertion-ordered dictionaries are lists of entries with
    distinct users, so that the threaded computation can be compared with the sequential one down to
    the order of the result. */
module UsageTotals {

  /** One statistic of one node, and a total of one user. */
  datatype Entry = Entry(uid: int, value: int)

  type Dict = seq<Entry>

  /** A node's id and the statistics it reported. */
  datatype NodeParams = NodeParams(node: int, params: seq<Entry>)

  /** int(value * coefficient of the node); every path evaluates the same expression. */
  type Scale = (int, int) -> nat

  /** `d[uid] += value` on a defaultdict. */
  function Add(d: Dict, e: Entry): Dict {
    if d == [] then [e]
    else if d[0].uid == e.uid then [Entry(e.uid, d[0].value + e.value)] + d[1..]
    else [d[0]] + Add(d[1..], e)
  }

  function AddAll(d: Dict, entries: seq<Entry>): Dict
    decreases entries
  {
    if entries == [] then d else AddAll(Add(d, entries[0]), entries[1..])
  }

  function Scaled(scale: Scale, node: int, params: seq<Entry>): (s: seq<Entry>)
    ensures |s| == |params|
  {
    seq(|params|, i requires 0 <= i < |params| => Entry(params[i].uid, scale(node, params[i].value)))
  }

  /** All statistics of all nodes, in the order they are visited. */
  function AllScaled(scale: Scale, nodes: seq<NodeParams>): seq<Entry> {
    if nodes == [] then [] else Scaled(scale, nodes[0].node, nodes[0].params) + AllScaled(scale, nodes[1..])
  }

  function Concat(dicts: seq<Dict>): seq<Entry> {
    if dicts == [] then [] else dicts[0] + Concat(dicts[1..])
  }

  // ----- Adding totals is adding what they were made of -----

  predicate Has(d: Dict, uid: int) {
    exists e <- d :: e.uid == uid
  }

  lemma {:induction false} AddHas(d: Dict, e: Entry, uid: int)
    ensures Has(Add(d, e), uid) <==> Has(d, uid) || uid == e.uid
  {
    if d == [] {
      assert [e][0] == e;
    } else {
      AddHas(d[1..], e, uid);
      var r := Add(d, e);
      assert forall x :: x in d <==> x == d[0] || x in d[1..];
      assert forall x :: x in r <==> x == r[0] || x in r[1..];
      if d[0].uid == e.uid { assert r[1..] == d[1..] && r[0].uid == e.uid; } else { assert r[1..] == Add(d[1..], e); }
    }
  }

  lemma {:induction false} AddTwice(d: Dict, uid: int, a: int, b: int)
    ensures Add(Add(d, Entry(uid, a)), Entry(uid, b)) == Add(d, Entry(uid, a + b))
  {
    if d != [] && d[0].uid != uid {
      AddTwice(d[1..], uid, a, b);
      assert Add(d, Entry(uid, a))[1..] == Add(d[1..], Entry(uid, a));
    }
  }

  /** Once a user has a place in the dictionary, additions to it commute with all others. */
  lemma {:induction false} AddCommutes(d: Dict, e: Entry, other: Entry)
    requires Has(d, e.uid)
    ensures Add(Add(d, other), e) == Add(Add(d, e), other)
  {
    assert forall x :: x in d <==> x == d[0] || x in d[1..];
    if d[0].uid == e.uid && d[0].uid == other.uid {
    } else if d[0].uid == e.uid {
      assert Add(d, other)[1..] == Add(d[1..], other);
    } else if d[0].uid == other.uid {
      assert Add(d, e)[1..] == Add(d[1..], e);
    } else {
      AddCommutes(d[1..], e, other);
      assert Add(d, other)[1..] == Add(d[1..], other) && Add(d, e)[1..] == Add(d[1..], e);
    }
  }

  lemma {:induction false} AddAllCommutes(d: Dict, entries: seq<Entry>, e: Entry)
    requires Has(d, e.uid)
    ensures Add(AddAll(d, entries), e) == AddAll(Add(d, e), entries)
    decreases entries
  {
    if entries != [] {
      AddHas(d, entries[0], e.uid);
      AddAllCommutes(Add(d, entries[0]), entries[1..], e);
      AddCommutes(d, e, entries[0]);
    }
  }

  lemma {:induction false} AddAllOfAdd(d: Dict, t: Dict, e: Entry)
    ensures AddAll(d, Add(t, e)) == Add(AddAll(d, t), e)
    decreases t
  {
    if t != [] {
      if t[0].uid == e.uid {
        var d' := Add(d, t[0]);
        AddHas(d, t[0], e.uid);
        AddAllCommutes(d', t[1..], e);
        AddTwice(d, e.uid, t[0].value, e.value);
        assert Add(t, e)[1..] == t[1..];
      } else {
        AddAllOfAdd(Add(d, t[0]), t[1..], e);
        assert Add(t, e)[1..] == Add(t[1..], e);
      }
    }
  }

  /** Adding the entries of an aggregated dictionary gives what adding the raw entries gives. */
  lemma {:induction false} AddAllOfAddAll(d: Dict, t: Dict, entries: seq<Entry>)
    ensures AddAll(d, AddAll(t, entries)) == AddAll(AddAll(d, t), entries)
    decreases entries
  {
    if entries != [] {
      AddAllOfAddAll(d, Add(t, entries[0]), entries[1..]);
      AddAllOfAdd(d, t, entries[0]);
    }
  }

  lemma {:induction false} AddAllConcat(d: Dict, a: seq<Entry>, b: seq<Entry>)
    ensures AddAll(d, a + b) == AddAll(AddAll(d, a), b)
    decreases a
  {
    if a == [] {
      assert a + b == b;
    } else {
      AddAllConcat(Add(d, a[0]), a[1..], b);
      assert (a + b)[1..] == a[1..] + b;
    }
  }

  /** Each dictionary aggregates the list of entries at its position. */
  ghost predicate Aggregates(dicts: seq<Dict>, raw: seq<seq<Entry>>) {
    |dicts| == |raw| && forall i :: 0 <= i < |dicts| ==> dicts[i] == AddAll([], raw[i])
  }

  /** Merging aggregates gives the aggregate of everything, whatever the grouping. */
  lemma {:induction false} MergeAggregates(d: Dict, dicts: seq<Dict>, raw: seq<seq<Entry>>)
    requires Aggregates(dicts, raw)
    ensures AddAll(d, Concat(dicts)) == AddAll(d, Concat(raw))
    decreases dicts
  {
    if dicts != [] {
      AddAllConcat(d, dicts[0], Concat(dicts[1..]));
      AddAllConcat(d, raw[0], Concat(raw[1..]));
      AddAllOfAddAll(d, [], raw[0]);
      MergeAggregates(AddAll(d, dicts[0]), dicts[1..], raw[1..]);
    }
  }

  // ----- The code -----

  method ProcessNodeChunk(scale: Scale, chunk: NodeParams) returns (usersUsage: Dict)
    ensures usersUsage == AddAll([], Scaled(scale, chunk.node, chunk.params))
  {
    usersUsage := [];
    ghost var scaled := Scaled(scale, chunk.node, chunk.params);
    for i := 0 to |chunk.params|
      invariant AddAll(usersUsage, scaled[i..]) == AddAll([], scaled)
    {
      usersUsage := Add(usersUsage, Entry(chunk.params[i].uid, scale(chunk.node, chunk.params[i].value)));
      assert scaled[i..][1..] == scaled[i + 1..];
    }
  }

  method MergeUsageDicts(dicts: seq<Dict>) returns (merged: Dict)
    ensures merged == AddAll([], Concat(dicts))
  {
    merged := [];
    for i := 0 to |dicts|
      invariant AddAll(merged, Concat(dicts[i..])) == AddAll([], Concat(dicts))
    {
      AddAllConcat(merged, dicts[i], Concat(dicts[i + 1..]));
      assert dicts[i..][1..] == dicts[i + 1..];
      var d := dicts[i];
      ghost var before := merged;
      for j := 0 to |d|
        invariant AddAll(merged, d[j..]) == AddAll(before, d)
      {
        merged := Add(merged, d[j]);
        assert d[j..][1..] == d[j + 1..];
      }
    }
  }

  method ProcessUsageSync(scale: Scale, chunks: seq<NodeParams>) returns (usersUsage: Dict)
    ensures usersUsage == AddAll([], AllScaled(scale, chunks))
  {
    usersUsage := [];
    for i := 0 to |chunks|
      invariant AddAll(usersUsage, AllScaled(scale, chunks[i..])) == AddAll([], AllScaled(scale, chunks))
    {
      ghost var scaled := Scaled(scale, chunks[i].node, chunks[i].params);
      AddAllConcat(usersUsage, scaled, AllScaled(scale, chunks[i + 1..]));
      assert chunks[i..][1..] == chunks[i + 1..];
      ghost var before := usersUsage;
      for j := 0 to |chunks[i].params|
        invariant AddAll(usersUsage, scaled[j..]) == AddAll(before, scaled)
      {
        var param := chunks[i].params[j];
        usersUsage := Add(usersUsage, Entry(param.uid, scale(chunks[i].node, param.value)));
        assert scaled[j..][1..] == scaled[j + 1..];
      }
    }
  }

  /** `range(0, n, size)` slices. */
  function Chunked<T>(items: seq<T>, size: nat): seq<seq<T>>
    requires size > 0
    decreases |items|
  {
    if items == [] then []
    else if |items| <= size then [items]
    else [items[..size]] + Chunked(items[size..], size)
  }

  lemma {:induction false} ChunkedConcat(dicts: seq<Dict>, size: nat, d: Dict)
    requires size > 0
    ensures AddAll(d, Concat(dicts)) == AddAll(d, ConcatAll(Chunked(dicts, size)))
    decreases |dicts|
  {
    if dicts == [] {
    } else if |dicts| <= size {
      assert [dicts][1..] == [];
      assert Concat(dicts) + [] == Concat(dicts);
    } else {
      assert dicts == dicts[..size] + dicts[size..];
      ConcatSplits(dicts[..size], dicts[size..]);
      var rest := ConcatAll(Chunked(dicts[size..], size));
      AddAllConcat(d, Concat(dicts[..size]), Concat(dicts[size..]));
      AddAllConcat(d, Concat(dicts[..size]), rest);
      ChunkedConcat(dicts[size..], size, AddAll(d, Concat(dicts[..size])));
      assert ([dicts[..size]] + Chunked(dicts[size..], size))[1..] == Chunked(dicts[size..], size);
    }
  }

  function ConcatAll(groups: seq<seq<Dict>>): seq<Entry> {
    if groups == [] then [] else Concat(groups[0]) + ConcatAll(groups[1..])
  }

  lemma {:induction false} ConcatSplits(a: seq<Dict>, b: seq<Dict>)
    ensures Concat(a + b) == Concat(a) + Concat(b)
  {
    if a == [] {
      assert a + b == b;
    } else {
      ConcatSplits(a[1..], b);
      assert (a + b)[1..] == a[1..] + b;
      assert Concat(a + b) == a[0] + (Concat(a[1..]) + Concat(b));
    }
  }

  function RawOf(scale: Scale, chunks: seq<NodeParams>): (raw: seq<seq<Entry>>)
    ensures |raw| == |chunks|
  {
    seq(|chunks|, i requires 0 <= i < |chunks| => Scaled(scale, chunks[i].node, chunks[i].params))
  }

  function RawGroups(groups: seq<seq<Dict>>): (raw: seq<seq<Entry>>)
    ensures |raw| == |groups|
  {
    seq(|groups|, i requires 0 <= i < |groups| => Concat(groups[i]))
  }

  lemma {:induction false} RawOfConcat(scale: Scale, chunks: seq<NodeParams>)
    ensures Concat(RawOf(scale, chunks)) == AllScaled(scale, chunks)
  {
    if chunks != [] {
      RawOfConcat(scale, chunks[1..]);
      assert RawOf(scale, chunks)[1..] == RawOf(scale, chunks[1..]);
    }
  }

  lemma {:induction false} RawGroupsConcat(groups: seq<seq<Dict>>)
    ensures Concat(RawGroups(groups)) == ConcatAll(groups)
  {
    if groups != [] {
      RawGroupsConcat(groups[1..]);
      assert RawGroups(groups)[1..] == RawGroups(groups[1..]);
    }
  }

  function TotalParams(chunks: seq<NodeParams>): nat {
    if chunks == [] then 0 else |chunks[0].params| + TotalParams(chunks[1..])
  }

  function NonEmpty(nodes: seq<NodeParams>): seq<NodeParams> {
    if nodes == [] then [] else (if nodes[0].params == [] then [] else [nodes[0]]) + NonEmpty(nodes[1..])
  }

  lemma {:induction false} SkippingEmptyNodes(scale: Scale, nodes: seq<NodeParams>)
    ensures AllScaled(scale, NonEmpty(nodes)) == AllScaled(scale, nodes)
  {
    if nodes != [] {
      SkippingEmptyNodes(scale, nodes[1..]);
      if nodes[0].params == [] {
        assert Scaled(scale, nodes[0].node, nodes[0].params) == [];
        assert [] + NonEmpty(nodes[1..]) == NonEmpty(nodes[1..]);
        assert [] + AllScaled(scale, nodes[1..]) == AllScaled(scale, nodes[1..]);
      } else {
        assert ([nodes[0]] + NonEmpty(nodes[1..]))[1..] == NonEmpty(nodes[1..]);
      }
    }
  }

  /** Whichever way it is computed - in one pass, one thread per node, or merged in about four groups -
      the result is the same list of totals in the same order. */
  method CalculateUsersUsage(scale: Scale, apiParams: seq<NodeParams>, poolAvailable: bool) returns (usersUsage: Dict)
    ensures usersUsage == AddAll([], AllScaled(scale, apiParams))
  {
    var chunks := NonEmpty(apiParams);
    SkippingEmptyNodes(scale, apiParams);
    if chunks == [] { return []; }
    if TotalParams(chunks) < 1000 || !poolAvailable {
      usersUsage := ProcessUsageSync(scale, chunks);
      return;
    }
    var chunkResults: seq<Dict> := [];
    for i := 0 to |chunks|
      invariant Aggregates(chunkResults, RawOf(scale, chunks)[..i])
    {
      var result := ProcessNodeChunk(scale, chunks[i]);
      chunkResults := chunkResults + [result];
    }
    assert RawOf(scale, chunks)[..|chunks|] == RawOf(scale, chunks);
    MergeAggregates([], chunkResults, RawOf(scale, chunks));
    RawOfConcat(scale, chunks);
    if |chunkResults| > 4 {
      usersUsage := MergeInGroups(chunkResults);
    } else {
      usersUsage := MergeUsageDicts(chunkResults);
    }
  }

  method MergeInGroups(chunkResults: seq<Dict>) returns (merged: Dict)
    ensures merged == AddAll([], Concat(chunkResults))
  {
    var chunkSize := if |chunkResults| / 4 < 1 then 1 else |chunkResults| / 4;
    var mergeChunks := Chunked(chunkResults, chunkSize);
    var partialResults: seq<Dict> := [];
    for i := 0 to |mergeChunks|
      invariant Aggregates(partialResults, RawGroups(mergeChunks)[..i])
    {
      var result := MergeUsageDicts(mergeChunks[i]);
      partialResults := partialResults + [result];
    }
    assert RawGroups(mergeChunks)[..|mergeChunks|] == RawGroups(mergeChunks);
    merged := MergeUsageDicts(partialResults);
    MergeAggregates([], partialResults, RawGroups(mergeChunks));
    RawGroupsConcat(mergeChunks);
    ChunkedConcat(chunkResults, chunkSize, []);
  }
}
