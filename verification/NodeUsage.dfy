/** The node usage job: nodes, the system total and the per-bucket rows are charged the same traffic. */
module NodeUsage {
  import opened Sums
  import opened UsageTotals
  import opened Upserts
  import opened UsageRecording

  /** A node's id and the outbound statistics it reported. */
  datatype NodeStats = NodeStats(node: int, params: seq<Traffic>)

  function Dir(t: Traffic, up: bool): int {
    if up then t.up else t.down
  }

  /** What the statistics of a node report in one direction. */
  function Reported(params: seq<Traffic>, up: bool): int {
    if params == [] then 0
    else
      var last := params[|params| - 1];
      Reported(params[..|params| - 1], up) + if up then last.up else last.down
  }

  function SumOf(params: seq<Traffic>): Traffic {
    Traffic(Reported(params, true), Reported(params, false))
  }

  /** The totals of the nodes in one direction. */
  function NodeEntries(api: seq<NodeStats>, up: bool): (entries: seq<Entry>)
    ensures |entries| == |api|
  {
    seq(|api|, i requires 0 <= i < |api| => Entry(api[i].node, Reported(api[i].params, up)))
  }

  /** The two directions gained these values. */
  predicate Gained(t: Traffic, t': Traffic, up: int, down: int) {
    t'.up == t.up + up && t'.down == t.down + down
  }

  /** Sum of all values, whoever they belong to. */
  function GrandTotal(entries: seq<Entry>): int {
    if entries == [] then 0 else GrandTotal(entries[..|entries| - 1]) + entries[|entries| - 1].value
  }

  lemma {:induction false} GrandTotalIn(entries: seq<Entry>, s: set<int>)
    requires forall e <- entries :: e.uid in s
    ensures GrandTotal(entries) == TotalIn(entries, s)
  {
    if entries != [] {
      var before, e := entries[..|entries| - 1], entries[|entries| - 1];
      GrandTotalIn(before, s);
      TotalInSnoc(before, e, s);
      assert before + [e] == entries && e in entries;
    }
  }

  lemma {:induction false} TotalInSnoc(entries: seq<Entry>, e: Entry, s: set<int>)
    ensures TotalIn(entries + [e], s) == TotalIn(entries, s) + if e.uid in s then e.value else 0
  {
    if entries != [] {
      TotalInSnoc(entries[1..], e, s);
      assert (entries + [e])[1..] == entries[1..] + [e];
    }
  }

  // ----- What has to balance -----

  ghost function NodeIncrements(nodes: map<int, Traffic>, nodes': map<int, Traffic>, up: bool): int -> int {
    n => if n in nodes && n in nodes' then Dir(nodes'[n], up) - Dir(nodes[n], up) else 0
  }

  ghost predicate NodesCharged(nodes: map<int, Traffic>, nodes': map<int, Traffic>, api: seq<NodeStats>) {
    && nodes'.Keys == nodes.Keys
    && forall n <- nodes ::
         Gained(nodes[n], nodes'[n], Total(NodeEntries(api, true), n), Total(NodeEntries(api, false), n))
  }

  /** What the rows of the run's bucket gained, and no other row. */
  ghost predicate RowsCharged(t: NodeTable, t': NodeTable, createdAt: int, api: seq<NodeStats>) {
    forall k :: Gained(NodeStored(t, k), NodeStored(t', k), InBucket(k, createdAt, api, true),
                       InBucket(k, createdAt, api, false))
  }

  function InBucket(k: NodeKey, createdAt: int, api: seq<NodeStats>, up: bool): int {
    if k.createdAt == createdAt then Total(NodeEntries(api, up), k.node) else 0
  }

  /** The run reports nothing in either direction, all nodes together. */
  ghost predicate NoTraffic(api: seq<NodeStats>) {
    GrandTotal(NodeEntries(api, true)) == 0 && GrandTotal(NodeEntries(api, false)) == 0
  }

  ghost predicate AllKnown(api: seq<NodeStats>, nodes: set<int>) {
    forall s <- api :: s.node in nodes
  }

  /** The system gained what its nodes gained together. */
  ghost predicate SystemBalance(system: Traffic, system': Traffic, nodes: map<int, Traffic>,
                                nodes': map<int, Traffic>)
  {
    forall up :: Dir(system', up) - Dir(system, up) == SumOver(nodes.Keys, NodeIncrements(nodes, nodes', up))
  }

  /** The system gained what the rows of all nodes and buckets gained together, and each node what its
      row gained. */
  ghost predicate NodeRowsBalance(system: Traffic, system': Traffic, nodes: map<int, Traffic>,
                                  nodes': map<int, Traffic>,
                                  t: NodeTable, t': NodeTable, createdAt: int)
  {
    forall up ::
      && Dir(system', up) - Dir(system, up) == TableTotal(t', up) - TableTotal(t, up)
      && forall n <- nodes ::
           Dir(NodeStored(t', NodeKey(createdAt, n)), up) - Dir(NodeStored(t, NodeKey(createdAt, n)), up)
           == NodeIncrements(nodes, nodes', up)(n)
  }

  lemma NothingReported(system: Traffic, nodes: map<int, Traffic>, t: NodeTable, createdAt: int)
    ensures SystemBalance(system, system, nodes, nodes) &&
            NodeRowsBalance(system, system, nodes, nodes, t, t, createdAt)
  {
    forall up ensures SumOver(nodes.Keys, NodeIncrements(nodes, nodes, up)) == 0 {
      SumZero(nodes.Keys, NodeIncrements(nodes, nodes, up));
    }
  }

  lemma KnownNodesBalance(system: Traffic, system': Traffic, nodes: map<int, Traffic>, nodes': map<int, Traffic>,
                          api: seq<NodeStats>)
    requires NodesCharged(nodes, nodes', api) && AllKnown(api, nodes.Keys)
    requires Gained(system, system', GrandTotal(NodeEntries(api, true)), GrandTotal(NodeEntries(api, false)))
    ensures SystemBalance(system, system', nodes, nodes')
  {
    forall up ensures GrandTotal(NodeEntries(api, up)) == SumOver(nodes.Keys, NodeIncrements(nodes, nodes', up)) {
      var entries := NodeEntries(api, up);
      forall e | e in entries ensures e.uid in nodes.Keys {
        var i :| 0 <= i < |entries| && entries[i] == e;
        assert api[i] in api;
      }
      GrandTotalIn(entries, nodes.Keys);
      TotalInIsSum(entries, nodes.Keys, NodeIncrements(nodes, nodes', up));
    }
  }

  lemma UpsertTableTotal(t: NodeTable, k: NodeKey, v: Traffic, up: bool)
    ensures TableTotal(UpsertNode(t, k, v), up) == TableTotal(t, up) + Dir(v, up)
  {
    var t' := UpsertNode(t, k, v);
    var f := (x: NodeKey) => if up then NodeStored(t, x).up else NodeStored(t, x).down;
    var f' := (x: NodeKey) => if up then NodeStored(t', x).up else NodeStored(t', x).down;
    SumRemove(t'.Keys, k, f');
    SumSame(t.Keys - {k}, f, f');
    assert t'.Keys - {k} == t.Keys - {k};
    if k in t {
      SumRemove(t.Keys, k, f);
    } else {
      assert t.Keys - {k} == t.Keys;
    }
  }

  // ----- One more node -----

  /** update nodes set uplink = uplink + up, downlink = downlink + down where id = node_id. */
  function ChargeNode(nodes: map<int, Traffic>, n: int, v: Traffic): map<int, Traffic> {
    if n in nodes then nodes[n := Plus(nodes[n], v)] else nodes
  }

  lemma EntriesSnoc(api: seq<NodeStats>, i: nat, up: bool, n: int)
    requires i < |api|
    ensures var v := Reported(api[i].params, up);
            && Total(NodeEntries(api[..i + 1], up), n) ==
               Total(NodeEntries(api[..i], up), n) + (if api[i].node == n then v else 0)
            && GrandTotal(NodeEntries(api[..i + 1], up)) == GrandTotal(NodeEntries(api[..i], up)) + v
  {
    var entries := NodeEntries(api[..i + 1], up);
    assert entries[..i] == NodeEntries(api[..i], up);
    TotalSnoc(entries, n);
  }

  lemma ChargeOneNode(nodes: map<int, Traffic>, nodes': map<int, Traffic>, api: seq<NodeStats>, i: nat)
    requires i < |api| && NodesCharged(nodes, nodes', api[..i])
    ensures NodesCharged(nodes, ChargeNode(nodes', api[i].node, SumOf(api[i].params)), api[..i + 1])
  {
    var after := ChargeNode(nodes', api[i].node, SumOf(api[i].params));
    forall n | n in nodes
      ensures Gained(nodes[n], after[n], Total(NodeEntries(api[..i + 1], true), n),
                     Total(NodeEntries(api[..i + 1], false), n))
    {
      EntriesSnoc(api, i, true, n);
      EntriesSnoc(api, i, false, n);
    }
  }

  lemma ChargeOneRow(t: NodeTable, t': NodeTable, createdAt: int, api: seq<NodeStats>, i: nat)
    requires i < |api| && RowsCharged(t, t', createdAt, api[..i])
    ensures var after := UpsertNode(t', NodeKey(createdAt, api[i].node), SumOf(api[i].params));
            RowsCharged(t, after, createdAt, api[..i + 1])
  {
    var after := UpsertNode(t', NodeKey(createdAt, api[i].node), SumOf(api[i].params));
    forall k
      ensures Gained(NodeStored(t, k), NodeStored(after, k), InBucket(k, createdAt, api[..i + 1], true),
                     InBucket(k, createdAt, api[..i + 1], false))
    {
      EntriesSnoc(api, i, true, k.node);
      EntriesSnoc(api, i, false, k.node);
      assert Gained(NodeStored(t, k), NodeStored(t', k), InBucket(k, createdAt, api[..i], true),
                    InBucket(k, createdAt, api[..i], false));
    }
  }

  /** A row that gains nothing counts as charged, present or not. */
  lemma SkipRow(t: NodeTable, t': NodeTable, createdAt: int, api: seq<NodeStats>, i: nat)
    requires i < |api| && SumOf(api[i].params) == ZERO && RowsCharged(t, t', createdAt, api[..i])
    ensures RowsCharged(t, t', createdAt, api[..i + 1])
  {
    forall k
      ensures Gained(NodeStored(t, k), NodeStored(t', k), InBucket(k, createdAt, api[..i + 1], true),
                     InBucket(k, createdAt, api[..i + 1], false))
    {
      EntriesSnoc(api, i, true, k.node);
      EntriesSnoc(api, i, false, k.node);
      assert Gained(NodeStored(t, k), NodeStored(t', k), InBucket(k, createdAt, api[..i], true),
                    InBucket(k, createdAt, api[..i], false));
    }
  }

  class NodeUsageDb {
    var nodes: map<int, Traffic>          // uplink and downlink
    var system: Traffic
    var nodeUsages: NodeTable

    /** `sum(param["up"] ...)` and `sum(param["down"] ...)`. */
    static method Sum(params: seq<Traffic>) returns (total: Traffic)
      ensures total.up == Reported(params, true) && total.down == Reported(params, false)
    {
      total := ZERO;
      for i := 0 to |params|
        invariant total.up == Reported(params[..i], true) && total.down == Reported(params[..i], false)
      {
        total := Plus(total, params[i]);
        assert params[..i + 1][..i] == params[..i];
      }
      assert params[..|params|] == params;
    }

    static method GrandTotals(api: seq<NodeStats>) returns (total: Traffic)
      ensures Gained(ZERO, total, GrandTotal(NodeEntries(api, true)), GrandTotal(NodeEntries(api, false)))
    {
      total := ZERO;
      for i := 0 to |api|
        invariant Gained(ZERO, total, GrandTotal(NodeEntries(api[..i], true)), GrandTotal(NodeEntries(api[..i], false)))
      {
        var v := Sum(api[i].params);
        forall up ensures GrandTotal(NodeEntries(api[..i + 1], up)) ==
          GrandTotal(NodeEntries(api[..i], up)) + Dir(v, up) {
          EntriesSnoc(api, i, up, 0);
        }
        total := Plus(total, v);
      }
      assert api[..|api|] == api;
    }

    method UpdateNodes(api: seq<NodeStats>)
      modifies this`nodes
      ensures NodesCharged(old(nodes), nodes, api)
    {
      for i := 0 to |api|
        invariant NodesCharged(old(nodes), nodes, api[..i])
      {
        var n := api[i].node;
        var v := Sum(api[i].params);
        ChargeOneNode(old(nodes), nodes, api, i);
        if v != ZERO {
          nodes := ChargeNode(nodes, n, v);
        } else {
          assert ChargeNode(nodes, n, v) == nodes;
        }
      }
      assert api[..|api|] == api;
    }

    /** `record_node_stats_batched`: one row per node with traffic, in one statement or in SQLite's two. */
    method RecordNodeStatsBatched(createdAt: int, api: seq<NodeStats>, dialect: Dialect)
      modifies this`nodeUsages
      ensures RowsCharged(old(nodeUsages), nodeUsages, createdAt, api)
      ensures forall up ::
                TableTotal(nodeUsages, up) == TableTotal(old(nodeUsages), up) + GrandTotal(NodeEntries(api, up))
    {
      for i := 0 to |api|
        invariant RowsCharged(old(nodeUsages), nodeUsages, createdAt, api[..i])
        invariant forall up :: TableTotal(nodeUsages, up) ==
                               TableTotal(old(nodeUsages), up) + GrandTotal(NodeEntries(api[..i], up))
      {
        var k := NodeKey(createdAt, api[i].node);
        var v := Sum(api[i].params);
        ghost var t := nodeUsages;
        if v != ZERO {
          ChargeOneRow(old(nodeUsages), nodeUsages, createdAt, api, i);
          if dialect.SQLite? {
            SqliteUpsert(nodeUsages, k, v, true);
            nodeUsages := InsertOrIgnoreZero(nodeUsages, k);
            nodeUsages := UpdateAdd(nodeUsages, k, v);
          } else {
            nodeUsages := UpsertNode(nodeUsages, k, v);
          }
        } else {
          SkipRow(old(nodeUsages), nodeUsages, createdAt, api, i);
        }
        forall up ensures TableTotal(nodeUsages, up) == TableTotal(t, up) + Dir(v, up) {
          UpsertTableTotal(t, k, v, up);
        }
        forall up ensures GrandTotal(NodeEntries(api[..i + 1], up)) ==
          GrandTotal(NodeEntries(api[..i], up)) + Dir(v, up) {
          EntriesSnoc(api, i, up, 0);
        }
      }
      assert api[..|api|] == api;
    }

    /** `_record_node_usages_impl` with every statement succeeding. */
    method RecordNodeUsages(api: seq<NodeStats>, createdAt: int, dialect: Dialect, disableNodeUsage: bool)
      modifies this
      ensures AllKnown(api, old(nodes).Keys) ==> SystemBalance(old(system), system, old(nodes), nodes)
      ensures disableNodeUsage ==> nodeUsages == old(nodeUsages)
      ensures !disableNodeUsage ==>
                NodeRowsBalance(old(system), system, old(nodes), nodes, old(nodeUsages), nodeUsages, createdAt)
      ensures Gained(old(system), system, GrandTotal(NodeEntries(api, true)), GrandTotal(NodeEntries(api, false)))
      ensures if NoTraffic(api) then nodes == old(nodes) && nodeUsages == old(nodeUsages)
              else NodesCharged(old(nodes), nodes, api) &&
                   (!disableNodeUsage ==> RowsCharged(old(nodeUsages), nodeUsages, createdAt, api))
    {
      var total := GrandTotals(api);
      if total == ZERO {
        NothingReported(system, nodes, nodeUsages, createdAt);
        return;
      }
      UpdateNodes(api);
      system := Plus(system, total);
      if AllKnown(api, old(nodes).Keys) {
        KnownNodesBalance(old(system), system, old(nodes), nodes, api);
      }
      if disableNodeUsage { return; }
      RecordNodeStatsBatched(createdAt, api, dialect);
    }
  }
}
