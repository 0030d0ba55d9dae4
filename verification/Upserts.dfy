/** The usage tables and the statements that add to them. */
module Upserts {
  import opened Sums
  import opened UsageTotals

  /** Primary key of a per-node row of one user: time bucket, user, node. */
  datatype UsageKey = UsageKey(createdAt: int, uid: int, node: int)

  datatype UsageRow = UsageRow(key: UsageKey, value: int)

  type UsageTable = map<UsageKey, int>

  function Stored(t: UsageTable, k: UsageKey): int {
    if k in t then t[k] else 0
  }

  /** sum(value) ... group by created_at, uid, node_id over the source rows joined with the users. */
  function GroupSum(rows: seq<UsageRow>, users: set<int>, k: UsageKey): int {
    if rows == [] then 0
    else GroupSum(rows[..|rows| - 1], users, k) +
         if rows[|rows| - 1].key == k && k.uid in users then rows[|rows| - 1].value else 0
  }

  function GroupKeys(rows: seq<UsageRow>, users: set<int>): set<UsageKey> {
    set row <- rows | row.key.uid in users :: row.key
  }

  /** insert ... select ... group by ... on conflict do update set used_traffic = used_traffic + excluded. */
  function Upsert(t: UsageTable, rows: seq<UsageRow>, users: set<int>): UsageTable {
    map k | k in t.Keys + GroupKeys(rows, users) :: Stored(t, k) + GroupSum(rows, users, k)
  }

  function UpsertBatches(t: UsageTable, batches: seq<seq<UsageRow>>, users: set<int>): UsageTable
    decreases batches
  {
    if batches == [] then t else UpsertBatches(Upsert(t, batches[0], users), batches[1..], users)
  }

  lemma {:induction false} GroupSumConcat(a: seq<UsageRow>, b: seq<UsageRow>, users: set<int>, k: UsageKey)
    ensures GroupSum(a + b, users, k) == GroupSum(a, users, k) + GroupSum(b, users, k)
  {
    if b == [] {
      assert a + b == a;
    } else {
      GroupSumConcat(a, b[..|b| - 1], users, k);
      assert (a + b)[..|a + b| - 1] == a + b[..|b| - 1];
    }
  }

  lemma {:induction false} GroupSumElsewhere(rows: seq<UsageRow>, users: set<int>, k: UsageKey)
    requires k !in GroupKeys(rows, users)
    ensures GroupSum(rows, users, k) == 0
  {
    if rows != [] {
      assert rows[|rows| - 1] in rows;
      GroupSumElsewhere(rows[..|rows| - 1], users, k);
    }
  }

  /** What a row holds after an upsert, present before or not. */
  lemma UpsertStored(t: UsageTable, rows: seq<UsageRow>, users: set<int>, k: UsageKey)
    ensures Stored(Upsert(t, rows, users), k) == Stored(t, k) + GroupSum(rows, users, k)
  {
    if k !in GroupKeys(rows, users) { GroupSumElsewhere(rows, users, k); }
  }

  /** Two upserts in a row are one upsert of all the rows, repeated keys included. */
  lemma UpsertsCompose(t: UsageTable, a: seq<UsageRow>, b: seq<UsageRow>, users: set<int>)
    ensures Upsert(Upsert(t, a, users), b, users) == Upsert(t, a + b, users)
  {
    var twice, once := Upsert(Upsert(t, a, users), b, users), Upsert(t, a + b, users);
    assert twice.Keys == once.Keys;
    forall k | k in once ensures twice[k] == once[k] {
      UpsertStored(t, a, users, k);
      GroupSumConcat(a, b, users, k);
    }
  }

  /** However the rows are cut into batches, the table ends up the same. */
  lemma {:induction false} BatchesCompose(t: UsageTable, rows: seq<UsageRow>, size: nat, users: set<int>)
    requires size > 0
    ensures UpsertBatches(t, Chunked(rows, size), users) == Upsert(t, rows, users)
    decreases |rows|
  {
    if rows == [] {
      assert Upsert(t, [], users) == t;
    } else if |rows| <= size {
      assert [rows][1..] == [];
    } else {
      var rest := Chunked(rows[size..], size);
      assert ([rows[..size]] + rest)[1..] == rest;
      BatchesCompose(Upsert(t, rows[..size], users), rows[size..], size, users);
      UpsertsCompose(t, rows[..size], rows[size..], users);
      assert rows[..size] + rows[size..] == rows;
    }
  }

  // ----- Per-node rows -----

  datatype Traffic = Traffic(up: int, down: int)

  datatype NodeKey = NodeKey(createdAt: int, node: int)

  type NodeTable = map<NodeKey, Traffic>

  function Plus(a: Traffic, b: Traffic): Traffic {
    Traffic(a.up + b.up, a.down + b.down)
  }

  const ZERO := Traffic(0, 0)

  function NodeStored(t: NodeTable, k: NodeKey): Traffic {
    if k in t then t[k] else ZERO
  }

  /** PostgreSQL and MySQL: one statement. */
  function UpsertNode(t: NodeTable, k: NodeKey, v: Traffic): NodeTable {
    t[k := if k in t then Plus(t[k], v) else v]
  }

  /** SQLite, first statement: insert or ignore a zero row. */
  function InsertOrIgnoreZero(t: NodeTable, k: NodeKey): NodeTable {
    if k in t then t else t[k := ZERO]
  }

  /** SQLite, second statement: update ... where. */
  function UpdateAdd(t: NodeTable, k: NodeKey, v: Traffic): NodeTable {
    if k in t then t[k := Plus(t[k], v)] else t
  }

  ghost function TableTotal(t: NodeTable, up: bool): int {
    SumOver(t.Keys, k => if up then NodeStored(t, k).up else NodeStored(t, k).down)
  }

  /** SQLite's two statements do what the one statement of the others does, and stopping between them
      changes no total. */
  lemma SqliteUpsert(t: NodeTable, k: NodeKey, v: Traffic, up: bool)
    ensures UpdateAdd(InsertOrIgnoreZero(t, k), k, v) == UpsertNode(t, k, v)
    ensures TableTotal(InsertOrIgnoreZero(t, k), up) == TableTotal(t, up)
  {
    var t' := InsertOrIgnoreZero(t, k);
    if k !in t {
      var f := (x: NodeKey) => if up then NodeStored(t, x).up else NodeStored(t, x).down;
      var f' := (x: NodeKey) => if up then NodeStored(t', x).up else NodeStored(t', x).down;
      SumRemove(t'.Keys, k, f');
      assert t'.Keys - {k} == t.Keys;
      SumSame(t.Keys, f, f');
    }
  }
}
