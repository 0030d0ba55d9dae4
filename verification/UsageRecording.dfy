/** The two usage jobs: what one run adds to the users, admins, nodes and usage rows balances. */
module UsageRecording {
  import opened Wrappers
  import opened Sums
  import opened UsageTotals
  import opened Upserts

  datatype User = User(adminId: Option<int>, usedTraffic: int)

  // ----- Totals -----

  /** Sum of the values of one user's entries. */
  function Total(entries: seq<Entry>, uid: int): int {
    if entries == [] then 0
    else (if entries[0].uid == uid then entries[0].value else 0) + Total(entries[1..], uid)
  }

  lemma {:induction false} TotalConcat(a: seq<Entry>, b: seq<Entry>, uid: int)
    ensures Total(a + b, uid) == Total(a, uid) + Total(b, uid)
  {
    if a == [] {
      assert a + b == b;
    } else {
      TotalConcat(a[1..], b, uid);
      assert (a + b)[1..] == a[1..] + b;
    }
  }

  lemma {:induction false} AddTotal(d: Dict, e: Entry, uid: int)
    ensures Total(Add(d, e), uid) == Total(d, uid) + if e.uid == uid then e.value else 0
  {
    if d != [] && d[0].uid != e.uid {
      AddTotal(d[1..], e, uid);
      assert Add(d, e)[1..] == Add(d[1..], e);
    } else if d != [] {
      assert Add(d, e)[1..] == d[1..];
    }
  }

  /** Aggregation keeps every user's total. */
  lemma {:induction false} AddAllTotal(d: Dict, entries: seq<Entry>, uid: int)
    ensures Total(AddAll(d, entries), uid) == Total(d, uid) + Total(entries, uid)
    decreases entries
  {
    if entries != [] {
      AddTotal(d, entries[0], uid);
      AddAllTotal(Add(d, entries[0]), entries[1..], uid);
    }
  }

  predicate NonNegative(entries: seq<Entry>) {
    forall e <- entries :: e.value >= 0
  }

  lemma {:induction false} AddNonNegative(d: Dict, e: Entry)
    requires NonNegative(d) && e.value >= 0
    ensures NonNegative(Add(d, e))
  {
    if d != [] {
      assert d[0] in d && forall x <- d[1..] :: x in d;
      if d[0].uid != e.uid { AddNonNegative(d[1..], e); }
    }
  }

  lemma {:induction false} AddAllNonNegative(d: Dict, entries: seq<Entry>)
    requires NonNegative(d) && NonNegative(entries)
    ensures NonNegative(AddAll(d, entries))
    decreases entries
  {
    if entries != [] {
      assert entries[0] in entries && forall x <- entries[1..] :: x in entries;
      AddNonNegative(d, entries[0]);
      AddAllNonNegative(Add(d, entries[0]), entries[1..]);
    }
  }

  lemma {:induction false} AllScaledNonNegative(scale: Scale, nodes: seq<NodeParams>)
    ensures NonNegative(AllScaled(scale, nodes))
  {
    if nodes != [] { AllScaledNonNegative(scale, nodes[1..]); }
  }

  // ----- Users -----

  /** The entries worth an update: users that exist, with actual traffic. */
  function ValidUsage(entries: seq<Entry>, users: set<int>): seq<Entry> {
    if entries == [] then []
    else (if entries[0].uid in users && entries[0].value > 0 then [entries[0]] else [])
         + ValidUsage(entries[1..], users)
  }

  lemma {:induction false} ValidUsageTotal(entries: seq<Entry>, users: set<int>, uid: int)
    requires uid in users && NonNegative(entries)
    ensures Total(ValidUsage(entries, users), uid) == Total(entries, uid)
  {
    if entries != [] {
      assert entries[0] in entries && forall x <- entries[1..] :: x in entries;
      ValidUsageTotal(entries[1..], users, uid);
      TotalConcat(if entries[0].uid in users && entries[0].value > 0 then [entries[0]] else [],
                  ValidUsage(entries[1..], users), uid);
    }
  }

  /** What one run of `update users set used_traffic = used_traffic + value where id = uid` over the
      parameter list makes of a user. */
  ghost predicate Charged(before: map<int, User>, after: map<int, User>, entries: seq<Entry>) {
    && after.Keys == before.Keys
    && forall u <- before ::
         after[u] == before[u].(usedTraffic := before[u].usedTraffic + Total(entries, u))
  }

  // ----- Admins -----

  /** A user's admin as the code tests it: no admin and admin 0 are alike. */
  function AdminOf(users: map<int, User>, uid: int): Option<int> {
    if uid in users && users[uid].adminId.Some? && users[uid].adminId.value != 0 then users[uid].adminId else None
  }

  function AdminEntries(users: map<int, User>, entries: seq<Entry>): seq<Entry> {
    if entries == [] then []
    else (match AdminOf(users, entries[0].uid)
          case None => []
          case Some(admin) => [Entry(admin, entries[0].value)]) + AdminEntries(users, entries[1..])
  }

  ghost function UsersOf(users: map<int, User>, admin: int): set<int> {
    set u <- users | users[u].adminId == Some(admin)
  }

  /** Sum of the values of the entries of a set of users. */
  function TotalIn(entries: seq<Entry>, s: set<int>): int {
    if entries == [] then 0
    else (if entries[0].uid in s then entries[0].value else 0) + TotalIn(entries[1..], s)
  }

  lemma {:induction false} TotalInRemove(entries: seq<Entry>, s: set<int>, uid: int)
    requires uid in s
    ensures TotalIn(entries, s) == Total(entries, uid) + TotalIn(entries, s - {uid})
  {
    if entries != [] { TotalInRemove(entries[1..], s, uid); }
  }

  lemma {:induction false} TotalInNothing(entries: seq<Entry>)
    ensures TotalIn(entries, {}) == 0
  {
    if entries != [] { TotalInNothing(entries[1..]); }
  }

  lemma {:induction false} TotalInIsSum(entries: seq<Entry>, s: set<int>, f: int -> int)
    requires forall u <- s :: f(u) == Total(entries, u)
    ensures TotalIn(entries, s) == SumOver(s, f)
  {
    if s != {} {
      var u := Pick(s);
      TotalInRemove(entries, s, u);
      SumRemove(s, u, f);
      TotalInIsSum(entries, s - {u}, f);
    } else {
      TotalInNothing(entries);
    }
  }

  lemma {:induction false} AdminEntriesTotal(users: map<int, User>, entries: seq<Entry>, admin: int)
    ensures Total(AdminEntries(users, entries), admin) ==
            if admin == 0 then 0 else TotalIn(entries, UsersOf(users, admin))
  {
    if entries != [] {
      AdminEntriesTotal(users, entries[1..], admin);
      TotalConcat(match AdminOf(users, entries[0].uid)
                  case None => []
                  case Some(admin) => [Entry(admin, entries[0].value)],
                  AdminEntries(users, entries[1..]), admin);
    }
  }

  // ----- Per-node rows of users -----

  function NodeRows(scale: Scale, createdAt: int, node: int, params: seq<Entry>): (rows: seq<UsageRow>)
    ensures |rows| == |params|
  {
    seq(|params|, i requires 0 <= i < |params| =>
      UsageRow(UsageKey(createdAt, params[i].uid, node), scale(node, params[i].value)))
  }

  function AllRows(scale: Scale, createdAt: int, nodes: seq<NodeParams>): seq<UsageRow> {
    if nodes == [] then []
    else NodeRows(scale, createdAt, nodes[0].node, nodes[0].params) + AllRows(scale, createdAt, nodes[1..])
  }

  function Nodes(nodes: seq<NodeParams>): set<int> {
    set n <- nodes :: n.node
  }

  /** What the source rows hold for one user in one bucket at a set of nodes. */
  function RowsTotal(rows: seq<UsageRow>, createdAt: int, uid: int, s: set<int>): int {
    if rows == [] then 0
    else RowsTotal(rows[..|rows| - 1], createdAt, uid, s) +
         var r := rows[|rows| - 1];
         if r.key.createdAt == createdAt && r.key.uid == uid && r.key.node in s then r.value else 0
  }

  lemma {:induction false} RowsTotalRemove(rows: seq<UsageRow>, users: set<int>, createdAt: int, uid: int, s: set<int>,
                                           n: int)
    requires n in s && uid in users
    ensures RowsTotal(rows, createdAt, uid, s) ==
            GroupSum(rows, users, UsageKey(createdAt, uid, n)) + RowsTotal(rows, createdAt, uid, s - {n})
  {
    if rows != [] { RowsTotalRemove(rows[..|rows| - 1], users, createdAt, uid, s, n); }
  }

  lemma {:induction false} RowsTotalNothing(rows: seq<UsageRow>, createdAt: int, uid: int)
    ensures RowsTotal(rows, createdAt, uid, {}) == 0
  {
    if rows != [] { RowsTotalNothing(rows[..|rows| - 1], createdAt, uid); }
  }

  lemma {:induction false} RowsTotalIsSum(rows: seq<UsageRow>, users: set<int>, createdAt: int, uid: int, s: set<int>,
                                          f: int -> int)
    requires uid in users && forall n <- s :: f(n) == GroupSum(rows, users, UsageKey(createdAt, uid, n))
    ensures RowsTotal(rows, createdAt, uid, s) == SumOver(s, f)
  {
    if s != {} {
      var n := Pick(s);
      RowsTotalRemove(rows, users, createdAt, uid, s, n);
      SumRemove(s, n, f);
      RowsTotalIsSum(rows, users, createdAt, uid, s - {n}, f);
    } else {
      RowsTotalNothing(rows, createdAt, uid);
    }
  }

  lemma {:induction false} RowsTotalConcat(a: seq<UsageRow>, b: seq<UsageRow>, createdAt: int, uid: int, s: set<int>)
    ensures RowsTotal(a + b, createdAt, uid, s) == RowsTotal(a, createdAt, uid, s) + RowsTotal(b, createdAt, uid, s)
  {
    if b == [] {
      assert a + b == a;
    } else {
      RowsTotalConcat(a, b[..|b| - 1], createdAt, uid, s);
      assert (a + b)[..|a + b| - 1] == a + b[..|b| - 1];
    }
  }

  lemma {:induction false} TotalSnoc(entries: seq<Entry>, uid: int)
    requires entries != []
    ensures var e := entries[|entries| - 1];
            Total(entries, uid) == Total(entries[..|entries| - 1], uid) + if e.uid == uid then e.value else 0
  {
    var e := entries[|entries| - 1];
    TotalConcat(entries[..|entries| - 1], [e], uid);
    assert entries == entries[..|entries| - 1] + [e];
  }

  lemma {:induction false} NodeRowsTotal(scale: Scale, createdAt: int, node: int, params: seq<Entry>, uid: int,
                                         s: set<int>)
    requires node in s
    ensures RowsTotal(NodeRows(scale, createdAt, node, params), createdAt, uid, s) ==
            Total(Scaled(scale, node, params), uid)
  {
    if params != [] {
      var before := params[..|params| - 1];
      NodeRowsTotal(scale, createdAt, node, before, uid, s);
      assert NodeRows(scale, createdAt, node, params)[..|params| - 1] == NodeRows(scale, createdAt, node, before);
      assert Scaled(scale, node, params)[..|params| - 1] == Scaled(scale, node, before);
      TotalSnoc(Scaled(scale, node, params), uid);
    }
  }

  /** The rows of a user hold, over all nodes, the user's total. */
  lemma {:induction false} AllRowsTotal(scale: Scale, createdAt: int, nodes: seq<NodeParams>, uid: int, s: set<int>)
    requires Nodes(nodes) <= s
    ensures RowsTotal(AllRows(scale, createdAt, nodes), createdAt, uid, s) == Total(AllScaled(scale, nodes), uid)
  {
    if nodes != [] {
      assert nodes[0] in nodes && forall n <- nodes[1..] :: n in nodes;
      assert nodes[0].node in Nodes(nodes);
      AllRowsTotal(scale, createdAt, nodes[1..], uid, s);
      NodeRowsTotal(scale, createdAt, nodes[0].node, nodes[0].params, uid, s);
      RowsTotalConcat(NodeRows(scale, createdAt, nodes[0].node, nodes[0].params), AllRows(scale, createdAt, nodes[1..]),
                      createdAt, uid, s);
      TotalConcat(Scaled(scale, nodes[0].node, nodes[0].params), AllScaled(scale, nodes[1..]), uid);
    }
  }

  /** Parameters of users that exist, and nodes that still have some. */
  function ValidParams(params: seq<Entry>, users: set<int>): seq<Entry> {
    if params == [] then []
    else (if params[0].uid in users then [params[0]] else []) + ValidParams(params[1..], users)
  }

  function ValidNodes(nodes: seq<NodeParams>, users: set<int>): seq<NodeParams> {
    if nodes == [] then []
    else
      var params := ValidParams(nodes[0].params, users);
      (if params != [] then [NodeParams(nodes[0].node, params)] else []) + ValidNodes(nodes[1..], users)
  }

  lemma {:induction false} ValidNodesAreNodes(nodes: seq<NodeParams>, users: set<int>)
    ensures Nodes(ValidNodes(nodes, users)) <= Nodes(nodes)
  {
    if nodes != [] {
      ValidNodesAreNodes(nodes[1..], users);
      forall n | n in Nodes(ValidNodes(nodes, users)) ensures n in Nodes(nodes) {
        if n == nodes[0].node {
          assert nodes[0] in nodes;
        } else {
          var v :| v in ValidNodes(nodes, users) && v.node == n;
          assert v in ValidNodes(nodes[1..], users) && n in Nodes(ValidNodes(nodes[1..], users));
          var w :| w in nodes[1..] && w.node == n;
          assert w in nodes;
        }
      }
    }
  }

  lemma {:induction false} ValidParamsTotal(scale: Scale, node: int, params: seq<Entry>, users: set<int>, uid: int)
    requires uid in users
    ensures Total(Scaled(scale, node, ValidParams(params, users)), uid) == Total(Scaled(scale, node, params), uid)
  {
    if params != [] {
      var rest := params[1..];
      ValidParamsTotal(scale, node, rest, users, uid);
      var v := ValidParams(rest, users);
      assert Scaled(scale, node, params)[1..] == Scaled(scale, node, rest);
      if params[0].uid in users {
        assert Scaled(scale, node, [params[0]] + v)[1..] == Scaled(scale, node, v);
      } else {
        assert [] + v == v;
      }
    }
  }

  lemma {:induction false} ValidNodesTotal(scale: Scale, nodes: seq<NodeParams>, users: set<int>, uid: int)
    requires uid in users
    ensures Total(AllScaled(scale, ValidNodes(nodes, users)), uid) == Total(AllScaled(scale, nodes), uid)
  {
    if nodes != [] {
      var node, params := nodes[0].node, ValidParams(nodes[0].params, users);
      var rest := ValidNodes(nodes[1..], users);
      ValidNodesTotal(scale, nodes[1..], users, uid);
      ValidParamsTotal(scale, node, nodes[0].params, users, uid);
      TotalConcat(Scaled(scale, node, nodes[0].params), AllScaled(scale, nodes[1..]), uid);
      if params != [] {
        assert ([NodeParams(node, params)] + rest)[1..] == rest;
        TotalConcat(Scaled(scale, node, params), AllScaled(scale, rest), uid);
      } else {
        assert [] + rest == rest;
        assert Scaled(scale, node, params) == [];
      }
    }
  }

  // ----- What has to balance -----

  ghost function Increments(users: map<int, User>, users': map<int, User>): int -> int {
    u => if u in users && u in users' then users'[u].usedTraffic - users[u].usedTraffic else 0
  }

  ghost function RowIncrements(t: UsageTable, t': UsageTable, createdAt: int, uid: int): int -> int {
    n => Stored(t', UsageKey(createdAt, uid, n)) - Stored(t, UsageKey(createdAt, uid, n))
  }

  /** Every user's increment is what was added to the user's rows over the nodes. */
  ghost predicate RowsBalance(users: map<int, User>, users': map<int, User>, t: UsageTable, t': UsageTable,
                              createdAt: int, nodes: set<int>)
  {
    forall u <- users :: SumOver(nodes, RowIncrements(t, t', createdAt, u)) == Increments(users, users')(u)
  }

  /** Every admin's increment is the sum of the increments of the admin's users; admin 0 is never charged. */
  ghost predicate AdminsBalance(users: map<int, User>, users': map<int, User>, admins: map<int, int>,
                                admins': map<int, int>)
  {
    && admins'.Keys == admins.Keys
    && forall a <- admins ::
         admins'[a] - admins[a] == if a == 0 then 0 else SumOver(UsersOf(users, a), Increments(users, users'))
  }

  lemma NothingBalances(users: map<int, User>, admins: map<int, int>, t: UsageTable, createdAt: int, nodes: set<int>)
    ensures AdminsBalance(users, users, admins, admins) && RowsBalance(users, users, t, t, createdAt, nodes)
  {
    forall a | a in admins ensures SumOver(UsersOf(users, a), Increments(users, users)) == 0 {
      SumZero(UsersOf(users, a), Increments(users, users));
    }
    forall u | u in users ensures SumOver(nodes, RowIncrements(t, t, createdAt, u)) == 0 {
      SumZero(nodes, RowIncrements(t, t, createdAt, u));
    }
  }

  lemma UpsertRowsBalance(scale: Scale, createdAt: int, nodes: seq<NodeParams>, t: UsageTable, users: set<int>,
                          uid: int, s: set<int>)
    requires uid in users && Nodes(nodes) <= s
    ensures var t' := Upsert(t, AllRows(scale, createdAt, nodes), users);
            SumOver(s, RowIncrements(t, t', createdAt, uid)) == Total(AllScaled(scale, nodes), uid)
  {
    var rows := AllRows(scale, createdAt, nodes);
    var f := RowIncrements(t, Upsert(t, rows, users), createdAt, uid);
    forall n | n in s ensures f(n) == GroupSum(rows, users, UsageKey(createdAt, uid, n)) {
      UpsertStored(t, rows, users, UsageKey(createdAt, uid, n));
    }
    RowsTotalIsSum(rows, users, createdAt, uid, s, f);
    AllRowsTotal(scale, createdAt, nodes, uid, s);
  }

  lemma RowsOfValidNodesBalance(scale: Scale, createdAt: int, nodes: seq<NodeParams>, t: UsageTable,
                                users: map<int, User>, users': map<int, User>)
    requires Charged(users, users', AllScaled(scale, nodes))
    ensures RowsBalance(users, users', t,
                        Upsert(t, AllRows(scale, createdAt, ValidNodes(nodes, users.Keys)), users.Keys),
                        createdAt, Nodes(nodes))
  {
    forall u | u in users
      ensures var t' := Upsert(t, AllRows(scale, createdAt, ValidNodes(nodes, users.Keys)), users.Keys);
              SumOver(Nodes(nodes), RowIncrements(t, t', createdAt, u)) == Total(AllScaled(scale, nodes), u)
    {
      ValidNodesAreNodes(nodes, users.Keys);
      UpsertRowsBalance(scale, createdAt, ValidNodes(nodes, users.Keys), t, users.Keys, u, Nodes(nodes));
      ValidNodesTotal(scale, nodes, users.Keys, u);
    }
  }

  /** What one run of `update admins set used_traffic = used_traffic + value where id = admin_id` over the
      parameter list makes of an admin. */
  ghost predicate AdminsCharged(before: map<int, int>, after: map<int, int>, entries: seq<Entry>) {
    && after.Keys == before.Keys
    && forall a <- before :: after[a] == before[a] + Total(entries, a)
  }

  lemma ChargesBalance(users: map<int, User>, users': map<int, User>, admins: map<int, int>, admins': map<int, int>,
                       all: seq<Entry>)
    requires Charged(users, users', all)
    requires AdminsCharged(admins, admins', AddAll([], AdminEntries(users, AddAll([], all))))
    ensures AdminsBalance(users, users', admins, admins')
  {
    var usersUsage := AddAll([], all);
    forall a | a in admins
      ensures Total(AddAll([], AdminEntries(users, usersUsage)), a) ==
              if a == 0 then 0 else SumOver(UsersOf(users, a), Increments(users, users'))
    {
      forall u | u in users ensures Increments(users, users')(u) == Total(usersUsage, u) {
        AddAllTotal([], all, u);
      }
      AddAllTotal([], AdminEntries(users, usersUsage), a);
      AdminEntriesTotal(users, usersUsage, a);
      TotalInIsSum(usersUsage, UsersOf(users, a), Increments(users, users'));
    }
  }

  lemma ValidUsageCharges(users: map<int, User>, users': map<int, User>, scale: Scale, nodes: seq<NodeParams>)
    requires Charged(users, users', ValidUsage(AddAll([], AllScaled(scale, nodes)), users.Keys))
    ensures Charged(users, users', AllScaled(scale, nodes))
  {
    var all := AllScaled(scale, nodes);
    AllScaledNonNegative(scale, nodes);
    AddAllNonNegative([], all);
    forall u | u in users ensures Total(ValidUsage(AddAll([], all), users.Keys), u) == Total(all, u) {
      AddAllTotal([], all, u);
      ValidUsageTotal(AddAll([], all), users.Keys, u);
    }
  }

  lemma NobodyCharged(users: map<int, User>, all: seq<Entry>)
    requires forall e <- AddAll([], all) :: e.uid !in users
    ensures Charged(users, users, all)
  {
    NoEntries(users, AddAll([], all));
    forall u | u in users ensures Total(all, u) == 0 { AddAllTotal([], all, u); }
  }

  lemma {:induction false} NoEntries(users: map<int, User>, entries: seq<Entry>)
    requires forall e <- entries :: e.uid !in users
    ensures forall u <- users :: Total(entries, u) == 0
  {
    if entries != [] {
      assert entries[0] in entries && forall e <- entries[1..] :: e in entries;
      NoEntries(users, entries[1..]);
    }
  }

  // ----- What each user and each row is charged, read off the reports -----

  /** What the statistics of one node come to for one user. */
  function NodeCharge(scale: Scale, node: int, params: seq<Entry>, uid: int): int {
    if params == [] then 0
    else (if params[0].uid == uid then scale(node, params[0].value) else 0) + NodeCharge(scale, node, params[1..], uid)
  }

  /** ... over all nodes, and over those of one id. */
  function ChargeOf(scale: Scale, nodes: seq<NodeParams>, uid: int): int {
    if nodes == [] then 0
    else NodeCharge(scale, nodes[0].node, nodes[0].params, uid) + ChargeOf(scale, nodes[1..], uid)
  }

  function ChargeAt(scale: Scale, nodes: seq<NodeParams>, uid: int, node: int): int {
    if nodes == [] then 0
    else
      (if nodes[0].node == node then NodeCharge(scale, node, nodes[0].params, uid) else 0) +
      ChargeAt(scale, nodes[1..], uid, node)
  }

  lemma {:induction false} NodeChargeIsTotal(scale: Scale, node: int, params: seq<Entry>, uid: int)
    ensures 0 <= NodeCharge(scale, node, params, uid) == Total(Scaled(scale, node, params), uid)
  {
    if params != [] {
      NodeChargeIsTotal(scale, node, params[1..], uid);
      assert Scaled(scale, node, params)[1..] == Scaled(scale, node, params[1..]);
    }
  }

  lemma {:induction false} ChargeIsTotal(scale: Scale, nodes: seq<NodeParams>, uid: int)
    ensures 0 <= ChargeOf(scale, nodes, uid) == Total(AllScaled(scale, nodes), uid)
    ensures forall n :: 0 <= ChargeAt(scale, nodes, uid, n) <= ChargeOf(scale, nodes, uid)
  {
    if nodes != [] {
      ChargeIsTotal(scale, nodes[1..], uid);
      NodeChargeIsTotal(scale, nodes[0].node, nodes[0].params, uid);
      TotalConcat(Scaled(scale, nodes[0].node, nodes[0].params), AllScaled(scale, nodes[1..]), uid);
    }
  }

  lemma {:induction false} NodeRowsSum(scale: Scale, createdAt: int, node: int, params: seq<Entry>, users: set<int>,
                                       k: UsageKey)
    requires k.uid in users
    ensures GroupSum(NodeRows(scale, createdAt, node, params), users, k) ==
            if k.createdAt == createdAt && k.node == node then NodeCharge(scale, node, params, k.uid) else 0
  {
    NodeChargeIsTotal(scale, node, params, k.uid);
    if params != [] {
      var before := params[..|params| - 1];
      NodeRowsSum(scale, createdAt, node, before, users, k);
      NodeChargeIsTotal(scale, node, before, k.uid);
      assert NodeRows(scale, createdAt, node, params)[..|params| - 1] == NodeRows(scale, createdAt, node, before);
      assert Scaled(scale, node, params)[..|params| - 1] == Scaled(scale, node, before);
      TotalSnoc(Scaled(scale, node, params), k.uid);
    }
  }

  /** The rows written for a key come to what its node reported of its user. */
  lemma {:induction false} RowsSum(scale: Scale, createdAt: int, nodes: seq<NodeParams>, users: set<int>, k: UsageKey)
    requires k.uid in users
    ensures GroupSum(AllRows(scale, createdAt, ValidNodes(nodes, users)), users, k) ==
            if k.createdAt == createdAt then ChargeAt(scale, nodes, k.uid, k.node) else 0
  {
    if nodes != [] {
      var node, params := nodes[0].node, ValidParams(nodes[0].params, users);
      var rest := ValidNodes(nodes[1..], users);
      RowsSum(scale, createdAt, nodes[1..], users, k);
      NodeRowsSum(scale, createdAt, node, params, users, k);
      NodeChargeIsTotal(scale, node, params, k.uid);
      NodeChargeIsTotal(scale, node, nodes[0].params, k.uid);
      ValidParamsTotal(scale, node, nodes[0].params, users, k.uid);
      if params != [] {
        assert ([NodeParams(node, params)] + rest)[1..] == rest;
        GroupSumConcat(NodeRows(scale, createdAt, node, params), AllRows(scale, createdAt, rest), users, k);
      } else {
        assert [] + rest == rest;
      }
    }
  }

  /** Every user gained what all nodes reported of it. */
  ghost predicate UsersCharged(users: map<int, User>, users': map<int, User>, scale: Scale, nodes: seq<NodeParams>) {
    && users'.Keys == users.Keys
    && forall u <- users ::
         users'[u] == users[u].(usedTraffic := users[u].usedTraffic + ChargeOf(scale, nodes, u))
  }

  /** Every row of the bucket gained what its node reported of its user; no other row gained anything. */
  ghost predicate UserRowsCharged(t: UsageTable, t': UsageTable, users: set<int>, scale: Scale, createdAt: int,
                              nodes: seq<NodeParams>)
  {
    forall k :: Stored(t', k) == Stored(t, k) + if k.createdAt == createdAt && k.uid in users then
                  ChargeAt(scale, nodes, k.uid, k.node) else 0
  }

  lemma UpsertedRowsCharged(t: UsageTable, users: set<int>, scale: Scale, createdAt: int, nodes: seq<NodeParams>)
    ensures UserRowsCharged(t, Upsert(t, AllRows(scale, createdAt, ValidNodes(nodes, users)), users), users, scale,
                        createdAt, nodes)
  {
    var rows := AllRows(scale, createdAt, ValidNodes(nodes, users));
    forall k ensures Stored(Upsert(t, rows, users), k) ==
                     Stored(t, k) + if k.createdAt == createdAt && k.uid in users then
                       ChargeAt(scale, nodes, k.uid, k.node) else 0
    {
      UpsertStored(t, rows, users, k);
      if k.uid in users { RowsSum(scale, createdAt, nodes, users, k); } else { GroupSumElsewhere(rows, users, k); }
    }
  }

  lemma ChargedAsReported(users: map<int, User>, users': map<int, User>, scale: Scale, nodes: seq<NodeParams>)
    requires Charged(users, users', AllScaled(scale, nodes))
    ensures UsersCharged(users, users', scale, nodes)
  {
    forall u | u in users ensures ChargeOf(scale, nodes, u) == Total(AllScaled(scale, nodes), u) {
      ChargeIsTotal(scale, nodes, u);
    }
  }

  /** When no user was charged, no row had to be. */
  lemma NoRowsCharged(users: map<int, User>, scale: Scale, nodes: seq<NodeParams>, t: UsageTable, createdAt: int)
    requires UsersCharged(users, users, scale, nodes)
    ensures UserRowsCharged(t, t, users.Keys, scale, createdAt, nodes)
  {
    forall u, n | u in users ensures ChargeAt(scale, nodes, u, n) == 0 {
      ChargeIsTotal(scale, nodes, u);
      assert users[u] == users[u].(usedTraffic := users[u].usedTraffic + ChargeOf(scale, nodes, u));
    }
  }

  // ----- The user usage job -----

  datatype Dialect = PostgreSQL | MySQL | SQLite

  class UsageDb {
    var users: map<int, User>
    var admins: map<int, int>             // used_traffic
    var nodeUserUsages: UsageTable

    method UpdateUsers(entries: seq<Entry>)
      modifies this`users
      ensures Charged(old(users), users, entries)
    {
      for i := 0 to |entries|
        invariant Charged(old(users), users, entries[..i])
      {
        var e := entries[i];
        if e.uid in users { users := users[e.uid := users[e.uid].(usedTraffic := users[e.uid].usedTraffic + e.value)]; }
        assert entries[..i + 1][..i] == entries[..i];
        forall u ensures Total(entries[..i + 1], u) == Total(entries[..i], u) + if e.uid == u then e.value else 0 {
          TotalSnoc(entries[..i + 1], u);
        }
      }
      assert entries[..|entries|] == entries;
    }

    method UpdateAdmins(entries: seq<Entry>)
      modifies this`admins
      ensures AdminsCharged(old(admins), admins, entries)
    {
      for i := 0 to |entries|
        invariant AdminsCharged(old(admins), admins, entries[..i])
      {
        var e := entries[i];
        if e.uid in admins { admins := admins[e.uid := admins[e.uid] + e.value]; }
        assert entries[..i + 1][..i] == entries[..i];
        forall u ensures Total(entries[..i + 1], u) == Total(entries[..i], u) + if e.uid == u then e.value else 0 {
          TotalSnoc(entries[..i + 1], u);
        }
      }
      assert entries[..|entries|] == entries;
    }

    /** `calculate_admin_usage`. */
    method CalculateAdminUsage(usersUsage: Dict) returns (adminUsage: Dict)
      ensures adminUsage == AddAll([], AdminEntries(users, usersUsage))
    {
      adminUsage := [];
      for i := 0 to |usersUsage|
        invariant AddAll(adminUsage, AdminEntries(users, usersUsage[i..])) ==
                  AddAll([], AdminEntries(users, usersUsage))
      {
        assert usersUsage[i..][1..] == usersUsage[i + 1..];
        var admin := AdminOf(users, usersUsage[i].uid);
        if admin.Some? {
          var e := Entry(admin.value, usersUsage[i].value);
          assert ([e] + AdminEntries(users, usersUsage[i + 1..]))[1..] == AdminEntries(users, usersUsage[i + 1..]);
          adminUsage := Add(adminUsage, e);
        } else {
          assert [] + AdminEntries(users, usersUsage[i + 1..]) == AdminEntries(users, usersUsage[i + 1..]);
        }
      }
    }

    /** `record_user_stats_batched`: all nodes' rows, upserted in batches of the dialect's size. */
    method RecordUserStatsBatched(scale: Scale, createdAt: int, nodes: seq<NodeParams>, dialect: Dialect)
      modifies this`nodeUserUsages
      ensures nodeUserUsages == Upsert(old(nodeUserUsages), AllRows(scale, createdAt, nodes), users.Keys)
    {
      var rows := AllRows(scale, createdAt, nodes);
      if rows == [] {
        assert Upsert(nodeUserUsages, [], users.Keys) == nodeUserUsages;
        return;
      }
      var size := if dialect.MySQL? then 1000 else if dialect.SQLite? then 400 else |rows|;
      var batches := Chunked(rows, size);
      BatchesCompose(nodeUserUsages, rows, size, users.Keys);
      for i := 0 to |batches|
        invariant UpsertBatches(nodeUserUsages, batches[i..], users.Keys)
                  == Upsert(old(nodeUserUsages), rows, users.Keys)
      {
        assert batches[i..][1..] == batches[i + 1..];
        nodeUserUsages := Upsert(nodeUserUsages, batches[i], users.Keys);
      }
    }

    /** `_record_user_usages_impl` with every statement succeeding: each user is charged what all nodes report
        of it, each row what its node reports of its user, and users, admins and rows balance. */
    method RecordUserUsages(scale: Scale, apiParams: seq<NodeParams>, createdAt: int, dialect: Dialect,
                            disableNodeUsage: bool, poolAvailable: bool)
      modifies this
      ensures UsersCharged(old(users), users, scale, apiParams)
      ensures AdminsBalance(old(users), users, old(admins), admins)
      ensures disableNodeUsage ==> nodeUserUsages == old(nodeUserUsages)
      ensures !disableNodeUsage ==>
                && UserRowsCharged(old(nodeUserUsages), nodeUserUsages, users.Keys, scale, createdAt, apiParams)
                && RowsBalance(old(users), users, old(nodeUserUsages), nodeUserUsages, createdAt, Nodes(apiParams))
    {
      var usersUsage := CalculateUsersUsage(scale, apiParams, poolAvailable);
      var adminUsage := CalculateAdminUsage(usersUsage);
      var validUsers := users.Keys;
      if forall e <- usersUsage :: e.uid !in validUsers {
        NobodyCharged(users, AllScaled(scale, apiParams));
        ChargedAsReported(users, users, scale, apiParams);
        NoRowsCharged(users, scale, apiParams, nodeUserUsages, createdAt);
        NothingBalances(users, admins, nodeUserUsages, createdAt, Nodes(apiParams));
        return;
      }
      UpdateUsers(ValidUsage(usersUsage, validUsers));
      ValidUsageCharges(old(users), users, scale, apiParams);
      ChargedAsReported(old(users), users, scale, apiParams);
      UpdateAdmins(adminUsage);
      ChargesBalance(old(users), users, old(admins), admins, AllScaled(scale, apiParams));
      if disableNodeUsage { return; }
      RowsOfValidNodesBalance(scale, createdAt, apiParams, nodeUserUsages, old(users), users);
      UpsertedRowsCharged(nodeUserUsages, users.Keys, scale, createdAt, apiParams);
      RecordUserStatsBatched(scale, createdAt, ValidNodes(apiParams, validUsers), dialect);
    }
  }
}
