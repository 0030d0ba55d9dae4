/** The bulk view: one query with outer joins and a grouped concatenation lists a core's users. */
module BulkUsers {
  import opened Wrappers
  import opened UserTables
  import opened TagLists

  /** One row of the joined tables for a user, by the keys it was joined from; None is a NULL side. */
  datatype Row = Row(
    membership: Option<int>,
    group: Option<int>,
    link: Option<int>,
    inbound: Option<int>,
    quota: Option<UserGroup>,
    admin: Option<int>,
    role: Option<int>)

  /** A left outer join gives every match, or NULL when there is none. */
  predicate OuterJoined<T(==)>(matches: set<T>, joined: Option<T>) {
    if matches == {} then joined == None else joined.Some? && joined.value in matches
  }

  // The ON clauses: what matches a row joined so far.

  function MembershipMatches(db: Database, u: int): set<int> {
    set m <- db.memberships | m.user == u :: m.group
  }

  function GroupMatches(db: Database, r: Row): set<int> {
    set g <- db.groups | r.membership == Some(g) && !db.groups[g]
  }

  function LinkMatches(db: Database, r: Row): set<int> {
    set l <- db.groupInbounds | r.group == Some(l.group) :: l.inbound
  }

  function InboundMatches(db: Database, filter: set<string>, r: Row): set<int> {
    set i <- db.inbounds | r.link == Some(i) && (filter == {} || db.inbounds[i] in filter)
  }

  function QuotaMatches(db: Database, u: int, r: Row): set<UserGroup> {
    set k <- db.quotas | k.user == u && r.group == Some(k.group)
  }

  function AdminMatches(db: Database, u: int): set<int>
    requires u in db.users
  {
    set a <- db.admins | db.users[u].adminId == Some(a)
  }

  function RoleMatches(db: Database, r: Row): set<int> {
    set x <- db.roles | r.admin.Some? && r.admin.value in db.admins && db.admins[r.admin.value].roleId == x
  }

  /** The FROM clause of `core_users`, restricted to one user. */
  predicate IsRow(db: Database, filter: set<string>, u: int, r: Row)
    requires u in db.users
  {
    && OuterJoined(MembershipMatches(db, u), r.membership)
    && OuterJoined(GroupMatches(db, r), r.group)
    && OuterJoined(LinkMatches(db, r), r.link)
    && OuterJoined(InboundMatches(db, filter, r), r.inbound)
    && OuterJoined(QuotaMatches(db, u, r), r.quota)
    && OuterJoined(AdminMatches(db, u), r.admin)
    && OuterJoined(RoleMatches(db, r), r.role)
  }

  // ----- The columns of a row -----

  function DataLimit(db: Database, r: Row): Option<int> {
    if r.quota.Some? && r.quota.value in db.quotas then db.quotas[r.quota.value].dataLimit else None
  }

  function UsedTraffic(db: Database, r: Row): Option<int> {
    if r.quota.Some? && r.quota.value in db.quotas then Some(db.quotas[r.quota.value].usedTraffic) else None
  }

  function StatusOf(db: Database, r: Row): Option<AdminStatus> {
    if r.admin.Some? && r.admin.value in db.admins then Some(db.admins[r.admin.value].status) else None
  }

  function RoleOf(db: Database, r: Row): Option<Role> {
    if r.role.Some? && r.role.value in db.roles then Some(db.roles[r.role.value]) else None
  }

  // ----- The WHERE clauses -----

  function QuotaClause(db: Database, r: Row): Truth {
    var limit := DataLimit(db, r);
    Or(Of(r.quota == None),
       Or(Of(limit == None),
          Or(Compare(limit, Some(0), (a, b) => a == b),
             Compare(UsedTraffic(db, r), limit, (a, b) => a < b))))
  }

  function StatusIs(status: Option<AdminStatus>, s: AdminStatus): Truth {
    if status.Some? then Of(status.value == s) else Unknown
  }

  function AdminClause(db: Database, r: Row): Truth {
    var status, role := StatusOf(db, r), RoleOf(db, r);
    Or(Of(r.admin == None),
       Or(if status.Some? then Of(status.value !in {AdminLimited, AdminDisabled}) else Unknown,
          Or(And(StatusIs(status, AdminLimited), Of(!(role.Some? && role.value.disconnectWhenLimited))),
             And(StatusIs(status, AdminDisabled), Of(!(role.Some? && role.value.disconnectWhenDisabled))))))
  }

  predicate Kept(db: Database, filter: set<string>, u: int, r: Row)
    requires u in db.users
  {
    && IsRow(db, filter, u, r)
    && Served(db.users[u].status)
    && QuotaClause(db, r) == True
    && AdminClause(db, r) == True
  }

  /** The user has a row that brings this tag to the aggregate. */
  ghost predicate Aggregated(db: Database, filter: set<string>, u: int, tag: string)
    requires u in db.users
  {
    exists r :: Kept(db, filter, u, r) && r.inbound.Some? && r.inbound.value in db.inbounds &&
      db.inbounds[r.inbound.value] == tag
  }

  // ----- What the rows amount to -----

  /** A quota with a negative limit is closed in the query, and not limited for `is_limited`. */
  predicate NegativeLimit(q: Quota) {
    q.dataLimit.Some? && q.dataLimit.value < 0 && q.usedTraffic >= q.dataLimit.value
  }

  /** The groups the query leaves open. */
  function QueriedGroups(db: Database, u: int): set<int> {
    set m <- db.memberships |
      && m.user == u && m.group in db.groups && !db.groups[m.group]
      && !(m in db.quotas && (IsLimited(db.quotas[m]) || NegativeLimit(db.quotas[m]))) :: m.group
  }

  /** One row's quota clause, read off the quota table. */
  lemma QuotaClauseMeans(db: Database, filter: set<string>, u: int, r: Row)
    requires u in db.users && IsRow(db, filter, u, r) && r.group.Some?
    ensures var k := UserGroup(u, r.group.value);
            QuotaClause(db, r) == True <==>
              !(k in db.quotas && (IsLimited(db.quotas[k]) || NegativeLimit(db.quotas[k])))
  {
    var k := UserGroup(u, r.group.value);
    if k in db.quotas {
      assert k in QuotaMatches(db, u, r);
      assert r.quota == Some(k);
    } else {
      assert QuotaMatches(db, u, r) == {};
    }
  }

  lemma AdminClauseMeans(db: Database, filter: set<string>, u: int, r: Row)
    requires u in db.users && IsRow(db, filter, u, r)
    ensures AdminClause(db, r) == True <==> !UserBlocked(db, u)
  {
    var admin := db.users[u].adminId;
    if admin.Some? && admin.value in db.admins {
      assert admin.value in AdminMatches(db, u);
      var roleId := db.admins[admin.value].roleId;
      if roleId in db.roles { assert roleId in RoleMatches(db, r); } else { assert RoleMatches(db, r) == {}; }
    } else {
      assert AdminMatches(db, u) == {} && RoleMatches(db, r) == {};
    }
  }

  lemma KeptTagIsQueried(db: Database, filter: set<string>, u: int, r: Row)
    requires u in db.users && Kept(db, filter, u, r) && r.inbound.Some? && r.inbound.value in db.inbounds
    ensures db.inbounds[r.inbound.value] in Cut(TagsVia(db, QueriedGroups(db, u)), filter)
  {
    assert r.inbound.value in InboundMatches(db, filter, r);
    assert r.link.value in LinkMatches(db, r);
    var link :| link in db.groupInbounds && r.group == Some(link.group) && link.inbound == r.link.value;
    assert r.group.value in GroupMatches(db, r);
    assert r.membership.value in MembershipMatches(db, u);
    QuotaClauseMeans(db, filter, u, r);
    assert UserGroup(u, link.group) in db.memberships;
    assert link.group in QueriedGroups(db, u);
  }

  /** The row that joins a membership, a link of its group and everything the user hangs on. */
  lemma QueriedTagHasRow(db: Database, filter: set<string>, u: int, link: GroupInbound) returns (r: Row)
    requires u in db.users && link in db.groupInbounds && link.group in QueriedGroups(db, u)
    requires link.inbound in db.inbounds && (filter == {} || db.inbounds[link.inbound] in filter)
    ensures IsRow(db, filter, u, r) && r.group == Some(link.group) && r.inbound == Some(link.inbound)
  {
    var g, k, admin := link.group, UserGroup(u, link.group), db.users[u].adminId;
    var knownAdmin := admin.Some? && admin.value in db.admins;
    r := Row(Some(g), Some(g), Some(link.inbound), Some(link.inbound),
             if k in db.quotas then Some(k) else None,
             if knownAdmin then admin else None,
             if knownAdmin && db.admins[admin.value].roleId in db.roles then Some(db.admins[admin.value].roleId)
             else None);
    assert k in db.memberships && g in MembershipMatches(db, u) && g in GroupMatches(db, r);
    assert link.inbound in LinkMatches(db, r) && link.inbound in InboundMatches(db, filter, r);
    assert if k in db.quotas then k in QuotaMatches(db, u, r) else QuotaMatches(db, u, r) == {};
    assert if knownAdmin then admin.value in AdminMatches(db, u) else AdminMatches(db, u) == {};
    assert if r.role.Some? then r.role.value in RoleMatches(db, r) else RoleMatches(db, r) == {};
  }

  /** The tags the query aggregates for a user, read off the tables. */
  lemma AggregatedMeans(db: Database, filter: set<string>, u: int, tag: string)
    requires u in db.users
    ensures Aggregated(db, filter, u, tag) <==>
            && (db.users[u].status == Active || db.users[u].status == OnHold) && !UserBlocked(db, u)
            && tag in Cut(TagsVia(db, QueriedGroups(db, u)), filter)
  {
    if Aggregated(db, filter, u, tag) {
      var r :| Kept(db, filter, u, r) && r.inbound.Some? && r.inbound.value in db.inbounds &&
        db.inbounds[r.inbound.value] == tag;
      KeptTagIsQueried(db, filter, u, r);
      AdminClauseMeans(db, filter, u, r);
    }
    if Served(db.users[u].status) && !UserBlocked(db, u) && tag in Cut(TagsVia(db, QueriedGroups(db, u)), filter) {
      var link :| link in db.groupInbounds && link.group in QueriedGroups(db, u) && link.inbound in db.inbounds &&
                  db.inbounds[link.inbound] == tag;
      var r := QueriedTagHasRow(db, filter, u, link);
      QuotaClauseMeans(db, filter, u, r);
      AdminClauseMeans(db, filter, u, r);
    }
  }

  // ----- core_users -----

  datatype ResultRow = ResultRow(id: int, inboundTags: Option<string>)

  datatype BridgeUser = BridgeUser(id: int, inbounds: seq<string>)

  predicate Distinct<T(==)>(items: seq<T>) {
    items == [] || (items[0] !in items[1..] && Distinct(items[1..]))
  }

  /** group_concat(distinct tag): the tags in some order, or NULL when every side was NULL. */
  ghost predicate IsAggregate(db: Database, filter: set<string>, u: int, aggregate: Option<string>)
    requires u in db.users
  {
    exists order: seq<string> ::
      && Distinct(order)
      && (forall t: string :: t in order <==> Aggregated(db, filter, u, t))
      && aggregate == if order == [] then None else Some(Join(order))
  }

  /** `results` is the query's answer: one row for each user that has a kept row. */
  ghost predicate IsResult(db: Database, filter: set<string>, results: seq<ResultRow>) {
    && (forall i, j :: 0 <= i < j < |results| ==> results[i].id != results[j].id)
    && (forall row <- results :: row.id in db.users && IsAggregate(db, filter, row.id, row.inboundTags))
    && (forall u <- db.users :: (exists r :: Kept(db, filter, u, r)) ==> exists row <- results :: row.id == u)
  }

  /** The append loop over the results. */
  function Listed(results: seq<ResultRow>): seq<BridgeUser> {
    if results == [] then []
    else
      var row := results[|results| - 1];
      Listed(results[..|results| - 1]) +
      if row.inboundTags.Some? && row.inboundTags.value != "" then [BridgeUser(row.id, Split(row.inboundTags.value))]
      else []
  }

  method CoreUsers(results: seq<ResultRow>) returns (bridgeUsers: seq<BridgeUser>)
    ensures bridgeUsers == Listed(results)
  {
    bridgeUsers := [];
    for i := 0 to |results|
      invariant bridgeUsers == Listed(results[..i])
    {
      assert results[..i + 1][..i] == results[..i];
      var row := results[i];
      var truthy := row.inboundTags.Some? && row.inboundTags.value != "";
      var inboundTags := if truthy then Split(row.inboundTags.value) else [];
      if inboundTags != [] {
        bridgeUsers := bridgeUsers + [BridgeUser(row.id, inboundTags)];
      }
    }
    assert results[..|results|] == results;
  }

  /** The tag set the bulk view gives a user. */
  function BulkTags(db: Database, filter: set<string>, u: int): set<string>
    requires u in db.users
  {
    if Served(db.users[u].status) && !UserBlocked(db, u) then Cut(TagsVia(db, QueriedGroups(db, u)), filter) else {}
  }

  /** The order in which the tags of an aggregate were concatenated. */
  lemma AggregateOrder(db: Database, filter: set<string>, u: int, aggregate: Option<string>)
    returns (order: seq<string>)
    requires u in db.users && IsAggregate(db, filter, u, aggregate)
    ensures Distinct(order) && aggregate == if order == [] then None else Some(Join(order))
    ensures (set t <- order) == BulkTags(db, filter, u)
  {
    order :|
      && Distinct(order)
      && (forall t: string :: t in order <==> Aggregated(db, filter, u, t))
      && aggregate == if order == [] then None else Some(Join(order));
    forall t: string ensures t in order <==> t in BulkTags(db, filter, u) { AggregatedMeans(db, filter, u, t); }
  }

  lemma JoinedIsEmpty(order: seq<string>)
    requires order != [] && Distinct(order) && forall t <- order :: CommaFree(t)
    ensures Join(order) == "" <==> (set t <- order) == {""}
  {
    var tags := set t <- order;
    assert order[0] in tags;
    if |order| == 1 {
      assert tags == {order[0]};
    } else {
      assert order[1] in order[1..] && order[1] in tags;
    }
  }

  /** Splitting the aggregate gives the tags back; nothing aggregated and one empty tag are both skipped. */
  lemma AggregateSplits(db: Database, filter: set<string>, u: int, aggregate: Option<string>)
    requires u in db.users && IsAggregate(db, filter, u, aggregate)
    requires forall t <- BulkTags(db, filter, u) :: CommaFree(t)
    ensures aggregate.Some? && aggregate.value != "" <==> BulkTags(db, filter, u) !in {{}, {""}}
    ensures aggregate.Some? ==>
              Distinct(Split(aggregate.value)) && (set t <- Split(aggregate.value)) == BulkTags(db, filter, u)
  {
    var order := AggregateOrder(db, filter, u, aggregate);
    var tags := BulkTags(db, filter, u);
    if order == [] {
      assert tags == {};
    } else {
      assert order[0] in tags && forall t <- order :: t in tags;
      SplitUndoesJoin(order);
      JoinedIsEmpty(order);
    }
  }

  lemma {:induction false} ListedComesFromResults(results: seq<ResultRow>, b: BridgeUser)
    ensures b in Listed(results) <==>
            exists row <- results :: row.inboundTags.Some? && row.inboundTags.value != "" &&
                                     b == BridgeUser(row.id, Split(row.inboundTags.value))
  {
    if results != [] {
      var before, row := results[..|results| - 1], results[|results| - 1];
      ListedComesFromResults(before, b);
      assert forall x :: x in results <==> x in before || x == row;
    }
  }

  ghost predicate OncePerUser(l: seq<BridgeUser>) {
    forall i, j :: 0 <= i < j < |l| ==> l[i].id != l[j].id
  }

  lemma {:induction false} ListedOnce(results: seq<ResultRow>)
    requires forall i, j :: 0 <= i < j < |results| ==> results[i].id != results[j].id
    ensures OncePerUser(Listed(results))
  {
    if results != [] {
      var before, row := results[..|results| - 1], results[|results| - 1];
      ListedOnce(before);
      var l := Listed(before);
      forall i | 0 <= i < |l| ensures l[i].id != row.id {
        ListedComesFromResults(before, l[i]);
        var other :| other in before && other.id == l[i].id;
        var j :| 0 <= j < |before| && before[j] == other;
        assert results[j] == other;
      }
    }
  }

  /** For comma-free tags, `core_users` lists every user that has tags other than the empty one, once, with
      exactly the user's tags. */
  lemma BulkListsExactly(db: Database, filter: set<string>, results: seq<ResultRow>)
    requires IsResult(db, filter, results) && forall i <- db.inbounds :: CommaFree(db.inbounds[i])
    ensures var l := Listed(results);
            && OncePerUser(l)
            && (forall b <- l ::
                  b.id in db.users && Distinct(b.inbounds) && (set t <- b.inbounds) == BulkTags(db, filter, b.id))
            && (forall u <- db.users :: (exists b <- l :: b.id == u) <==> BulkTags(db, filter, u) !in {{}, {""}})
  {
    var l := Listed(results);
    ListedOnce(results);
    forall b | b in l
      ensures b.id in db.users && Distinct(b.inbounds) && (set t <- b.inbounds) == BulkTags(db, filter, b.id)
      ensures BulkTags(db, filter, b.id) !in {{}, {""}}
    {
      ListedComesFromResults(results, b);
      var row :| row in results && row.inboundTags.Some? && b == BridgeUser(row.id, Split(row.inboundTags.value));
      AggregateSplits(db, filter, row.id, row.inboundTags);
    }
    forall u | u in db.users && BulkTags(db, filter, u) !in {{}, {""}} ensures exists b <- l :: b.id == u {
      assert BulkTags(db, filter, u) != {};
      var t :| t in BulkTags(db, filter, u);
      AggregatedMeans(db, filter, u, t);
      var row :| row in results && row.id == u;
      AggregateSplits(db, filter, u, row.inboundTags);
      ListedComesFromResults(results, BridgeUser(u, Split(row.inboundTags.value)));
    }
  }
}
