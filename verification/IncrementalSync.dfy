/** The incremental view: updates of single users from whatever of them is loaded, and its agreement
    with the bulk view. */
module IncrementalSync {
  import opened Wrappers
  import opened UserTables
  import opened TagLists
  import opened BulkUsers

  datatype LoadedGroup = LoadedGroup(id: int, isDisabled: bool, inbounds: Option<seq<string>>)

  datatype LoadedQuota = LoadedQuota(groupId: int, quota: Quota)

  /** The admin in a user's `__dict__`; its id is the user's admin_id. */
  datatype LoadedAdmin = LoadedAdmin(status: Option<AdminStatus>, role: Option<Role>)

  /** A user object: None is an attribute that is not in `__dict__`. */
  datatype UserObject = UserObject(
    id: int,
    status: UserStatus,
    adminId: Option<int>,
    admin: Option<LoadedAdmin>,
    groups: Option<seq<LoadedGroup>>,
    groupQuotas: Option<seq<LoadedQuota>>,
    attached: bool)

  // ----- A user's inbounds -----

  predicate ClosedByQuota(user: UserObject, group: int) {
    user.groupQuotas.Some? && exists q <- user.groupQuotas.value :: q.groupId == group && IsLimited(q.quota)
  }

  /** `_group_is_quota_limited`. */
  method GroupIsQuotaLimited(user: UserObject, group: int) returns (limited: bool)
    ensures limited <==> ClosedByQuota(user, group)
  {
    if user.groupQuotas == None || user.groupQuotas.value == [] { return false; }
    var quotas := user.groupQuotas.value;
    for i := 0 to |quotas|
      invariant forall q <- quotas[..i] :: !(q.groupId == group && IsLimited(q.quota))
    {
      if quotas[i].groupId == group && IsLimited(quotas[i].quota) { return true; }
    }
    return false;
  }

  predicate IsOpen(user: UserObject, g: LoadedGroup) {
    !g.isDisabled && !ClosedByQuota(user, g.id)
  }

  /** The tags of the open groups among `groups`, as far as they are loaded. */
  function LoadedTags(user: UserObject, groups: seq<LoadedGroup>): set<string> {
    set g <- groups, t | IsOpen(user, g) && g.inbounds.Some? && t in g.inbounds.value :: t
  }

  /** Every open group has its inbounds loaded. */
  predicate InboundsLoaded(user: UserObject, groups: seq<LoadedGroup>) {
    forall g <- groups :: IsOpen(user, g) ==> g.inbounds.Some?
  }

  lemma LoadedTagsSnoc(user: UserObject, groups: seq<LoadedGroup>, i: nat)
    requires i < |groups|
    ensures LoadedTags(user, groups[..i + 1]) ==
            LoadedTags(user, groups[..i]) +
            if IsOpen(user, groups[i]) && groups[i].inbounds.Some? then (set t <- groups[i].inbounds.value) else {}
    ensures InboundsLoaded(user, groups[..i + 1]) <==>
            InboundsLoaded(user, groups[..i]) && (IsOpen(user, groups[i]) ==> groups[i].inbounds.Some?)
  {
    assert forall g :: g in groups[..i + 1] <==> g in groups[..i] || g == groups[i];
  }

  /** `_inbounds_from_loaded_groups`: None when something it needs is not loaded. */
  method InboundsFromLoadedGroups(user: UserObject) returns (tags: Option<set<string>>)
    ensures tags.Some? <==> user.groups.Some? && InboundsLoaded(user, user.groups.value)
    ensures tags.Some? ==> tags.value == LoadedTags(user, user.groups.value)
  {
    if user.groups == None { return None; }
    var groups := user.groups.value;
    var found: set<string> := {};
    for i := 0 to |groups|
      invariant found == LoadedTags(user, groups[..i]) && InboundsLoaded(user, groups[..i])
    {
      LoadedTagsSnoc(user, groups, i);
      if groups[i].isDisabled { continue; }
      var limited := GroupIsQuotaLimited(user, groups[i].id);
      if limited { continue; }
      if groups[i].inbounds == None {
        assert groups[i] in groups;
        return None;
      }
      found := found + set t <- groups[i].inbounds.value;
    }
    assert groups[..|groups|] == groups;
    return Some(found);
  }

  /** The query of `User.inbounds`, with its NOT IN subquery. */
  function QueryInbounds(db: Database, u: int): set<string> {
    var limitedGroups := set k <- db.quotas |
      && k.user == u && db.quotas[k].dataLimit.Some? && db.quotas[k].dataLimit.value > 0
      && db.quotas[k].usedTraffic >= db.quotas[k].dataLimit.value :: k.group;
    set m <- db.memberships, l <- db.groupInbounds |
      && m.user == u && m.group in db.groups && m.group == l.group && l.inbound in db.inbounds
      && !db.groups[m.group] && m.group !in limitedGroups :: db.inbounds[l.inbound]
  }

  lemma QueryInboundsMeans(db: Database, u: int)
    ensures QueryInbounds(db, u) == TagsVia(db, OpenGroups(db, u))
  {
    forall t | t in TagsVia(db, OpenGroups(db, u)) ensures t in QueryInbounds(db, u) {
      var l :| l in db.groupInbounds && l.group in OpenGroups(db, u) && l.inbound in db.inbounds &&
        db.inbounds[l.inbound] == t;
      var m :| m in db.memberships && m.user == u && m.group == l.group && !(m in db.quotas && IsLimited(db.quotas[m]));
      assert m == UserGroup(u, l.group);
    }
    forall t | t in QueryInbounds(db, u) ensures t in TagsVia(db, OpenGroups(db, u)) {
      var m, l :| m in db.memberships && l in db.groupInbounds && m.user == u && m.group in db.groups &&
        m.group == l.group &&
                  l.inbound in db.inbounds && !db.groups[m.group] && db.inbounds[l.inbound] == t &&
                  !(exists k <- db.quotas :: k.user == u && k.group == m.group && IsLimited(db.quotas[k]));
      assert l.group in OpenGroups(db, u);
    }
  }

  /** `User.inbounds`. */
  method Inbounds(db: Database, user: UserObject) returns (tags: set<string>)
    ensures tags == if user.attached then TagsVia(db, OpenGroups(db, user.id))
                    else if user.groups.Some? then LoadedTags(user, user.groups.value) else {}
  {
    if user.attached {
      QueryInboundsMeans(db, user.id);
      return QueryInbounds(db, user.id);
    }
    var groups := if user.groups.Some? then user.groups.value else [];
    tags := {};
    for i := 0 to |groups|
      invariant tags == LoadedTags(user, groups[..i])
    {
      LoadedTagsSnoc(user, groups, i);
      if groups[i].isDisabled { continue; }
      var limited := GroupIsQuotaLimited(user, groups[i].id);
      if limited { continue; }
      var inbounds := if groups[i].inbounds.Some? then groups[i].inbounds.value else [];
      tags := tags + set t <- inbounds;
    }
    assert groups[..|groups|] == groups;
  }

  /** The tags an update of the user carries; without any the nodes drop the user. */
  function SerializedTags(db: Database, user: UserObject): set<string> {
    if !Served(user.status) then {}
    else if user.groups.Some? && InboundsLoaded(user, user.groups.value) then LoadedTags(user, user.groups.value)
    else if user.attached then TagsVia(db, OpenGroups(db, user.id))
    else if user.groups.Some? then LoadedTags(user, user.groups.value)
    else {}
  }

  datatype ProtoUser = ProtoUser(id: int, inbounds: set<string>)

  method SerializeUser(db: Database, user: UserObject) returns (proto: ProtoUser)
    ensures proto == ProtoUser(user.id, SerializedTags(db, user))
  {
    if !Served(user.status) { return ProtoUser(user.id, {}); }
    var loaded := InboundsFromLoadedGroups(user);
    if loaded.Some? { return ProtoUser(user.id, loaded.value); }
    var tags := Inbounds(db, user);
    return ProtoUser(user.id, tags);
  }

  // ----- Admins whose users are kept off the nodes -----

  /** `_loaded_admin_sync_blocked`: None when the answer is not loaded. */
  function LoadedAdminSyncBlocked(admin: LoadedAdmin): Option<bool> {
    if admin.status == None then None
    else if admin.status.value !in {AdminLimited, AdminDisabled} then Some(false)
    else if admin.role == None then None
    else if admin.status.value == AdminLimited then Some(admin.role.value.disconnectWhenLimited)
    else Some(admin.role.value.disconnectWhenDisabled)
  }

  /** `_user_sync_blocked`, which also takes admin 0 for no admin. */
  function UserSyncBlocked(db: Database, user: UserObject): bool {
    if user.adminId == None || user.adminId.value == 0 then false
    else
      var loaded := if user.admin.Some? then LoadedAdminSyncBlocked(user.admin.value) else None;
      if loaded.Some? then loaded.value
      else if !user.attached then false
      else
        var a := user.adminId.value;
        && a in db.admins && db.admins[a].roleId in db.roles
        && var status, role := db.admins[a].status, db.roles[db.admins[a].roleId];
           (status == AdminLimited && role.disconnectWhenLimited) ||
             (status == AdminDisabled && role.disconnectWhenDisabled)
  }

  function AdminIds(users: seq<UserObject>): set<int> {
    set user <- users | user.adminId.Some? :: user.adminId.value
  }

  /** The admins found loaded, later users overriding earlier ones. */
  function LoadedAdmins(users: seq<UserObject>): map<int, LoadedAdmin> {
    if users == [] then map[]
    else
      var user := users[|users| - 1];
      var before := LoadedAdmins(users[..|users| - 1]);
      if user.adminId.Some? && user.admin.Some? then before[user.adminId.value := user.admin.value] else before
  }

  /** What the loaded admins tell, as far as they do. */
  function LoadedResults(loaded: map<int, LoadedAdmin>): map<int, bool> {
    map a <- loaded | LoadedAdminSyncBlocked(loaded[a]).Some? :: LoadedAdminSyncBlocked(loaded[a]).value
  }

  function QueryBlockedIds(db: Database, ids: set<int>): set<int> {
    set a <- ids |
      && a in db.admins && db.admins[a].roleId in db.roles
      && var status, role := db.admins[a].status, db.roles[db.admins[a].roleId];
         (status == AdminLimited && role.disconnectWhenLimited) ||
           (status == AdminDisabled && role.disconnectWhenDisabled)
  }

  /** `_blocked_admin_ids_for_users`. */
  function BlockedAdminIds(db: Database, users: seq<UserObject>): set<int> {
    var ids, loaded := AdminIds(users), LoadedAdmins(users);
    if ids == {} then {}
    else if loaded.Keys == ids && LoadedResults(loaded).Keys == ids then
      set a <- LoadedResults(loaded) | LoadedResults(loaded)[a]
    else if forall user <- users :: !user.attached then {}
    else QueryBlockedIds(db, ids)
  }

  /** The users `sync_users` sends on. */
  function Unblocked(users: seq<UserObject>, blocked: set<int>): seq<UserObject> {
    if users == [] then []
    else
      var user := users[|users| - 1];
      Unblocked(users[..|users| - 1], blocked) +
      if user.adminId.Some? && user.adminId.value in blocked then [] else [user]
  }

  /** `sent` is `users` cut to the positions `at`, in order. */
  ghost predicate IsCut<T>(users: seq<T>, sent: seq<T>, at: seq<nat>) {
    && |at| == |sent|
    && (forall i, j :: 0 <= i < j < |at| ==> at[i] < at[j])
    && forall i :: 0 <= i < |at| ==> at[i] < |users| && sent[i] == users[at[i]]
  }

  predicate MaySend(users: seq<UserObject>, blocked: set<int>, k: nat) {
    k < |users| && (users[k].adminId == None || users[k].adminId.value !in blocked)
  }

  lemma CutOneMore<T>(users: seq<T>, sent: seq<T>, at: seq<nat>)
    requires users != [] && IsCut(users[..|users| - 1], sent, at)
    ensures IsCut(users, sent, at) && IsCut(users, sent + [users[|users| - 1]], at + [|users| - 1])
    ensures forall k <- at :: k < |users| - 1
  {
  }

  /** The positions are exactly those of the users that may be sent. */
  ghost predicate Sendable(users: seq<UserObject>, blocked: set<int>, at: seq<nat>) {
    forall k: nat :: k in at <==> MaySend(users, blocked, k)
  }

  lemma SendableOneMore(users: seq<UserObject>, blocked: set<int>, at: seq<nat>)
    requires users != [] && Sendable(users[..|users| - 1], blocked, at)
    ensures Sendable(users, blocked, if MaySend(users, blocked, |users| - 1) then at + [|users| - 1] else at)
  {
    forall k: nat ensures MaySend(users[..|users| - 1], blocked, k) <==> k < |users| - 1 && MaySend(users, blocked, k)
    {
    }
  }

  lemma {:induction false} UnblockedIsCut(users: seq<UserObject>, blocked: set<int>) returns (at: seq<nat>)
    ensures IsCut(users, Unblocked(users, blocked), at) && Sendable(users, blocked, at)
  {
    if users == [] { return []; }
    var n := |users| - 1;
    at := UnblockedIsCut(users[..n], blocked);
    CutOneMore(users, Unblocked(users[..n], blocked), at);
    SendableOneMore(users, blocked, at);
    if MaySend(users, blocked, n) {
      at := at + [n];
    } else {
      assert Unblocked(users, blocked) == Unblocked(users[..n], blocked);
    }
  }

  /** Sent are, in order, exactly the users without an admin or whose admin is not found blocked; if the
      objects are up to date, exactly those the tables do not block, each with its tags. */
  method SyncUsers(db: Database, users: seq<UserObject>) returns (protoUsers: seq<ProtoUser>, ghost at: seq<nat>)
    ensures |at| == |protoUsers| && forall i, j :: 0 <= i < j < |at| ==> at[i] < at[j]
    ensures forall i :: 0 <= i < |at| ==>
              && at[i] < |users|
              && protoUsers[i] == ProtoUser(users[at[i]].id, SerializedTags(db, users[at[i]]))
    ensures forall k: nat :: k in at <==>
              k < |users| && (users[k].adminId == None || users[k].adminId.value !in BlockedAdminIds(db, users))
    ensures AllReflect(db, users) && AdminsKnown(users) ==>
              forall k: nat :: k in at <==> k < |users| && users[k].id in db.users && !UserBlocked(db, users[k].id)
  {
    var filtered := Unblocked(users, BlockedAdminIds(db, users));
    at := UnblockedIsCut(users, BlockedAdminIds(db, users));
    assert forall k: nat :: k in at <==> MaySend(users, BlockedAdminIds(db, users), k);
    protoUsers := [];
    for i := 0 to |filtered|
      invariant |protoUsers| == i
      invariant forall j :: 0 <= j < i ==> protoUsers[j] == ProtoUser(filtered[j].id, SerializedTags(db, filtered[j]))
    {
      var proto := SerializeUser(db, filtered[i]);
      protoUsers := protoUsers + [proto];
    }
    if AllReflect(db, users) && AdminsKnown(users) {
      forall k: nat | k < |users|
        ensures users[k].id in db.users
        ensures !UserBlocked(db, users[k].id) <==>
                users[k].adminId == None || users[k].adminId.value !in BlockedAdminIds(db, users)
      {
        NotSentIffBlocked(db, users, users[k]);
      }
    }
  }

  // ----- Objects that say what the database says -----

  function GroupIds(groups: seq<LoadedGroup>): set<int> {
    set g <- groups :: g.id
  }

  /** The groups a user is in, closed or not. */
  function MemberGroups(db: Database, u: int): set<int> {
    set m <- db.memberships | m.user == u && m.group in db.groups :: m.group
  }

  function TagSet(tags: seq<string>): set<string> {
    set t <- tags
  }

  predicate ReflectsGroup(db: Database, g: LoadedGroup) {
    && g.id in db.groups && g.isDisabled == db.groups[g.id]
    && (g.inbounds.Some? ==> TagSet(g.inbounds.value) == TagsVia(db, {g.id}))
  }

  predicate ReflectsAdmin(db: Database, a: int, admin: LoadedAdmin) {
    && a in db.admins
    && (admin.status.Some? ==> admin.status.value == db.admins[a].status)
    && (admin.role.Some? ==> db.admins[a].roleId in db.roles && admin.role.value == db.roles[db.admins[a].roleId])
  }

  /** Whatever is loaded is up to date; what is not loaded is not claimed. */
  predicate Reflects(db: Database, user: UserObject) {
    && user.id in db.users && db.users[user.id] == User(user.status, user.adminId)
    && (user.groups.Some? ==>
          && GroupIds(user.groups.value) == MemberGroups(db, user.id)
          && forall g <- user.groups.value :: ReflectsGroup(db, g))
    && (user.groupQuotas.Some? ==>
          forall q <- user.groupQuotas.value ::
            UserGroup(user.id, q.groupId) in db.quotas && db.quotas[UserGroup(user.id, q.groupId)] == q.quota)
    && (user.admin.Some? ==> user.adminId.Some? && ReflectsAdmin(db, user.adminId.value, user.admin.value))
  }

  /** An enabled group of the user that the user's quota has closed. */
  predicate ClosedInTables(db: Database, m: UserGroup) {
    m.group in db.groups && !db.groups[m.group] && m in db.quotas && IsLimited(db.quotas[m])
  }

  /** The quota of every such group is loaded.  The relationship is "noload": unless it is asked for, the
      code sees an empty list. */
  predicate QuotasLoaded(db: Database, user: UserObject) {
    forall m <- db.memberships :: m.user == user.id && ClosedInTables(db, m) ==> ClosedByQuota(user, m.group)
  }

  /** The tags can be computed: from loaded groups and quotas, or by a query. */
  predicate TagsKnown(db: Database, user: UserObject) {
    if user.groups.Some? && InboundsLoaded(user, user.groups.value) then QuotasLoaded(db, user) else user.attached
  }

  /** Whether the admin blocks can be computed: from the loaded admin, or by a query. */
  predicate AdminKnown(user: UserObject) {
    || user.adminId == None
    || (user.admin.Some? && LoadedAdminSyncBlocked(user.admin.value).Some?)
    || user.attached
  }

  /** A loaded group is taken as open exactly when it is open or its closing quota is not loaded. */
  lemma LoadedGroupIsOpen(db: Database, user: UserObject, g: LoadedGroup)
    requires Reflects(db, user) && user.groups.Some? && g in user.groups.value
    ensures var m := UserGroup(user.id, g.id);
            && m in db.memberships
            && (IsOpen(user, g) <==>
                g.id in OpenGroups(db, user.id) || (ClosedInTables(db, m) && !ClosedByQuota(user, g.id)))
  {
    assert ReflectsGroup(db, g);
    assert g.id in GroupIds(user.groups.value) && g.id in MemberGroups(db, user.id);
  }

  /** The groups the code takes as open. */
  function LoadedOpenGroups(user: UserObject): set<int>
    requires user.groups.Some?
  {
    set g <- user.groups.value | IsOpen(user, g) :: g.id
  }

  /** A closed group of the user whose quota is not loaded. */
  predicate Reopened(db: Database, user: UserObject, m: UserGroup) {
    m in db.memberships && m.user == user.id && ClosedInTables(db, m) && !ClosedByQuota(user, m.group)
  }

  lemma LoadedOpenMeans(db: Database, user: UserObject, k: int)
    requires Reflects(db, user) && user.groups.Some?
    ensures k in LoadedOpenGroups(user) <==> k in OpenGroups(db, user.id) || Reopened(db, user, UserGroup(user.id, k))
  {
    if k in MemberGroups(db, user.id) {
      assert k in GroupIds(user.groups.value);
      var g :| g in user.groups.value && g.id == k;
      LoadedGroupIsOpen(db, user, g);
    }
    forall g | g in user.groups.value && g.id == k
      ensures k in MemberGroups(db, user.id)
      ensures IsOpen(user, g) <==> k in OpenGroups(db, user.id) || Reopened(db, user, UserGroup(user.id, k))
    {
      LoadedGroupIsOpen(db, user, g);
      assert k in GroupIds(user.groups.value);
    }
  }

  /** They are the open groups exactly when every closing quota is loaded. */
  lemma OpenGroupsLoaded(db: Database, user: UserObject)
    requires Reflects(db, user) && user.groups.Some?
    ensures LoadedOpenGroups(user) == OpenGroups(db, user.id) <==> QuotasLoaded(db, user)
  {
    forall k ensures k in LoadedOpenGroups(user) <==>
                     k in OpenGroups(db, user.id) || Reopened(db, user, UserGroup(user.id, k))
    {
      LoadedOpenMeans(db, user, k);
    }
    if m :| m in db.memberships && m.user == user.id && ClosedInTables(db, m) && !ClosedByQuota(user, m.group) {
      assert m == UserGroup(user.id, m.group) && Reopened(db, user, m);
      assert m.group in LoadedOpenGroups(user) && m.group !in OpenGroups(db, user.id);
    }
  }

  lemma LoadedTagsMean(db: Database, user: UserObject)
    requires Reflects(db, user) && user.groups.Some? && InboundsLoaded(user, user.groups.value)
    requires QuotasLoaded(db, user)
    ensures LoadedTags(user, user.groups.value) == TagsVia(db, OpenGroups(db, user.id))
  {
    var groups := user.groups.value;
    forall t | t in LoadedTags(user, groups) ensures t in TagsVia(db, OpenGroups(db, user.id)) {
      var g :| g in groups && IsOpen(user, g) && g.inbounds.Some? && t in g.inbounds.value;
      LoadedGroupIsOpen(db, user, g);
      assert ReflectsGroup(db, g) && t in TagSet(g.inbounds.value) && t in TagsVia(db, {g.id});
    }
    forall t | t in TagsVia(db, OpenGroups(db, user.id)) ensures t in LoadedTags(user, groups) {
      var l :| l in db.groupInbounds && l.group in OpenGroups(db, user.id) && l.inbound in db.inbounds &&
               db.inbounds[l.inbound] == t;
      assert l.group in MemberGroups(db, user.id) && l.group in GroupIds(groups);
      var g :| g in groups && g.id == l.group;
      LoadedGroupIsOpen(db, user, g);
      assert ReflectsGroup(db, g) && t in TagsVia(db, {g.id}) && t in TagSet(g.inbounds.value);
    }
  }

  /** An update carries exactly the tags the user may use. */
  lemma SerializedTagsMean(db: Database, user: UserObject)
    requires Reflects(db, user) && TagsKnown(db, user)
    ensures SerializedTags(db, user) ==
            if user.status == Active || user.status == OnHold then TagsVia(db, OpenGroups(db, user.id)) else {}
    ensures SerializedTags(db, user) == UserTags(db, user.id)
  {
    if user.groups.Some? && InboundsLoaded(user, user.groups.value) { LoadedTagsMean(db, user); }
  }

  /** The check of one user blocks exactly the users the query leaves out, but never those of admin 0. */
  lemma UserSyncBlockedMeans(db: Database, user: UserObject)
    requires Reflects(db, user) && AdminKnown(user)
    ensures UserSyncBlocked(db, user) <==> UserBlocked(db, user.id) && user.adminId != Some(0)
  {
  }

  ghost predicate AllReflect(db: Database, users: seq<UserObject>) {
    forall user <- users :: Reflects(db, user)
  }

  lemma {:induction false} LoadedAdminsReflect(db: Database, users: seq<UserObject>)
    requires AllReflect(db, users)
    ensures LoadedAdmins(users).Keys <= AdminIds(users)
    ensures forall a <- LoadedAdmins(users) :: ReflectsAdmin(db, a, LoadedAdmins(users)[a])
  {
    if users != [] {
      var before, user := users[..|users| - 1], users[|users| - 1];
      LoadedAdminsReflect(db, before);
      assert user in users && AdminIds(before) <= AdminIds(users);
    }
  }

  /** The admins of the users are all loaded, or some user has a session to ask. */
  predicate AdminsKnown(users: seq<UserObject>) {
    || (exists user <- users :: user.attached)
    || forall a <- AdminIds(users) :: a in LoadedAdmins(users) && LoadedAdminSyncBlocked(LoadedAdmins(users)[a]).Some?
  }

  lemma LoadedAdminBlocks(db: Database, a: int, admin: LoadedAdmin)
    requires ReflectsAdmin(db, a, admin) && LoadedAdminSyncBlocked(admin).Some?
    ensures LoadedAdminSyncBlocked(admin).value <==> AdminBlocked(db, a)
  {
  }

  /** The check of many users blocks exactly the admins the query leaves out, admin 0 included. */
  lemma BlockedAdminIdsMean(db: Database, users: seq<UserObject>, a: int)
    requires AllReflect(db, users) && AdminsKnown(users) && a in AdminIds(users)
    ensures a in BlockedAdminIds(db, users) <==> AdminBlocked(db, a)
  {
    LoadedAdminsReflect(db, users);
    var ids, loaded := AdminIds(users), LoadedAdmins(users);
    if forall x <- ids :: x in loaded && LoadedAdminSyncBlocked(loaded[x]).Some? {
      assert loaded.Keys == ids && LoadedResults(loaded).Keys == ids;
    }
    if loaded.Keys == ids && LoadedResults(loaded).Keys == ids {
      assert a in LoadedResults(loaded).Keys;
      LoadedAdminBlocks(db, a, loaded[a]);
    } else {
      assert a in QueryBlockedIds(db, ids) <==> AdminBlocked(db, a);
    }
  }

  /** The batch check keeps back exactly the users the tables block. */
  lemma NotSentIffBlocked(db: Database, users: seq<UserObject>, user: UserObject)
    requires AllReflect(db, users) && AdminsKnown(users) && user in users
    ensures user.id in db.users
    ensures UserBlocked(db, user.id) <==> user.adminId.Some? && user.adminId.value in BlockedAdminIds(db, users)
  {
    assert Reflects(db, user);
    if user.adminId.Some? {
      assert user.adminId.value in AdminIds(users);
      BlockedAdminIdsMean(db, users, user.adminId.value);
    }
  }

  // ----- The two views agree -----

  /** No quota of the user has a limit below zero that its traffic has reached. */
  predicate NoNegativeLimit(db: Database, u: int) {
    forall k <- db.quotas :: k.user == u ==> !NegativeLimit(db.quotas[k])
  }

  /** What the incremental update amounts to for a node that serves `filter`. */
  function IncrementalTags(db: Database, filter: set<string>, user: UserObject, blocked: bool): set<string> {
    if blocked then {} else Cut(SerializedTags(db, user), filter)
  }

  /** The bulk view lists a user, with this tag set or not at all. */
  ghost predicate ListedWith(results: seq<ResultRow>, u: int, tags: set<string>) {
    && (forall b <- Listed(results) :: b.id == u ==> TagSet(b.inbounds) == tags)
    && ((exists b <- Listed(results) :: b.id == u) <==> tags !in {{}, {""}})
  }

  lemma ListedWithBulkTags(db: Database, filter: set<string>, results: seq<ResultRow>, u: int)
    requires IsResult(db, filter, results) && forall i <- db.inbounds :: CommaFree(db.inbounds[i])
    requires u in db.users
    ensures ListedWith(results, u, BulkTags(db, filter, u))
  {
    BulkListsExactly(db, filter, results);
  }

  lemma UpdateBringsBulkTags(db: Database, filter: set<string>, user: UserObject)
    requires Reflects(db, user) && TagsKnown(db, user) && NoNegativeLimit(db, user.id)
    ensures BulkTags(db, filter, user.id) == IncrementalTags(db, filter, user, UserBlocked(db, user.id))
  {
    SerializedTagsMean(db, user);
    assert QueriedGroups(db, user.id) == OpenGroups(db, user.id);
  }

  /** `core_users` lists a user with a set of tags exactly when the user's own update is not suppressed
      and brings that set of tags. */
  lemma BulkEqualsIncremental(db: Database, filter: set<string>, results: seq<ResultRow>, user: UserObject)
    requires IsResult(db, filter, results) && forall i <- db.inbounds :: CommaFree(db.inbounds[i])
    requires Reflects(db, user) && TagsKnown(db, user) && AdminKnown(user) && user.adminId != Some(0)
    requires NoNegativeLimit(db, user.id)
    ensures ListedWith(results, user.id, IncrementalTags(db, filter, user, UserSyncBlocked(db, user)))
  {
    UserSyncBlockedMeans(db, user);
    UpdateBringsBulkTags(db, filter, user);
    ListedWithBulkTags(db, filter, results, user.id);
  }

  /** The same for updates of many users, whose check knows admin 0. */
  lemma BulkEqualsBatch(db: Database, filter: set<string>, results: seq<ResultRow>, users: seq<UserObject>,
                        user: UserObject)
    requires IsResult(db, filter, results) && forall i <- db.inbounds :: CommaFree(db.inbounds[i])
    requires user in users && AllReflect(db, users) && AdminsKnown(users) && TagsKnown(db, user)
    requires NoNegativeLimit(db, user.id)
    ensures var blocked := user.adminId.Some? && user.adminId.value in BlockedAdminIds(db, users);
            ListedWith(results, user.id, IncrementalTags(db, filter, user, blocked))
  {
    assert Reflects(db, user);
    if user.adminId.Some? { BlockedAdminIdsMean(db, users, user.adminId.value); }
    UpdateBringsBulkTags(db, filter, user);
    ListedWithBulkTags(db, filter, results, user.id);
  }

  /** The views agree on a user for this assignment of inbounds to groups. */
  predicate AgreeOn(db: Database, u: int, links: set<GroupInbound>, inbounds: map<int, string>, filter: set<string>)
    requires u in db.users
  {
    var db' := db.(groupInbounds := links, inbounds := inbounds);
    BulkTags(db', filter, u) == if UserBlocked(db', u) then {} else Cut(UserTags(db', u), filter)
  }

  /** Some enabled group of the user has a negative limit. */
  predicate HasNegativeLimit(db: Database, u: int) {
    exists m <- db.memberships ::
      m.user == u && m.group in db.groups && !db.groups[m.group] && m in db.quotas && NegativeLimit(db.quotas[m])
  }

  /** Exactly the negative limits tell the two views apart: the query takes such a group as closed,
      `is_limited` takes it as unlimited. */
  lemma OnlyNegativeLimitsDisagree(db: Database, u: int)
    requires u in db.users && Served(db.users[u].status) && !UserBlocked(db, u)
    ensures (forall links, inbounds, filter :: AgreeOn(db, u, links, inbounds, filter)) <==> !HasNegativeLimit(db, u)
  {
    if HasNegativeLimit(db, u) {
      var m :| m in db.memberships && m.user == u && m.group in db.groups && !db.groups[m.group] &&
               m in db.quotas && NegativeLimit(db.quotas[m]);
      var db' := db.(groupInbounds := {GroupInbound(m.group, 0)}, inbounds := map[0 := "inbound"]);
      assert m.group in OpenGroups(db', u);
      assert GroupInbound(m.group, 0) in db'.groupInbounds && "inbound" in UserTags(db', u);
      assert m == UserGroup(u, m.group) && m.group !in QueriedGroups(db', u);
      assert TagsVia(db', QueriedGroups(db', u)) == {};
      assert !AgreeOn(db, u, {GroupInbound(m.group, 0)}, map[0 := "inbound"], {});
    } else {
      forall links, inbounds, filter ensures AgreeOn(db, u, links, inbounds, filter) {
        var db' := db.(groupInbounds := links, inbounds := inbounds);
        assert QueriedGroups(db', u) == OpenGroups(db', u);
        assert UserBlocked(db', u) == UserBlocked(db, u);
      }
    }
  }

  // ----- Quotas that are not loaded -----

  /** The same object with the inbounds of its groups loaded anew. */
  ghost predicate SameButInbounds(user: UserObject, other: UserObject)
    requires user.groups.Some?
  {
    && other.groups.Some? && other == user.(groups := other.groups)
    && |other.groups.value| == |user.groups.value|
    && forall i :: 0 <= i < |user.groups.value| ==>
         other.groups.value[i] == user.groups.value[i].(inbounds := other.groups.value[i].inbounds)
  }

  /** For this assignment of inbounds to groups the update carries the tags the user may use. */
  ghost predicate UpdateIsRight(db: Database, user: UserObject, links: set<GroupInbound>, inbounds: map<int, string>,
                                other: UserObject)
    requires user.groups.Some? && user.id in db.users
  {
    var db' := db.(groupInbounds := links, inbounds := inbounds);
    SameButInbounds(user, other) && Reflects(db', other) && InboundsLoaded(other, other.groups.value) ==>
      SerializedTags(db', other) == UserTags(db', user.id)
  }

  lemma OtherIsRight(db: Database, user: UserObject, links: set<GroupInbound>, inbounds: map<int, string>,
                     other: UserObject)
    requires Reflects(db, user) && user.groups.Some? && QuotasLoaded(db, user)
    ensures UpdateIsRight(db, user, links, inbounds, other)
  {
    var db' := db.(groupInbounds := links, inbounds := inbounds);
    if SameButInbounds(user, other) && Reflects(db', other) && InboundsLoaded(other, other.groups.value) {
      assert QuotasLoaded(db', other) by {
        forall m | m in db'.memberships && m.user == other.id && ClosedInTables(db', m)
          ensures ClosedByQuota(other, m.group)
        {
          assert ClosedInTables(db, m) && ClosedByQuota(user, m.group);
        }
      }
      SerializedTagsMean(db', other);
    }
  }

  function WithOneTag(groups: seq<LoadedGroup>, id: int): seq<LoadedGroup> {
    seq(|groups|, i requires 0 <= i < |groups| =>
      groups[i].(inbounds := Some(if groups[i].id == id then ["inbound"] else [])))
  }

  /** A closed group whose quota is not loaded, given an inbound of its own: the update carries its tag. */
  lemma ReopenedGroup(db: Database, user: UserObject, m: UserGroup) returns (other: UserObject)
    requires Reflects(db, user) && user.groups.Some? && Served(user.status) && Reopened(db, user, m)
    ensures !UpdateIsRight(db, user, {GroupInbound(m.group, 0)}, map[0 := "inbound"], other)
  {
    var link := GroupInbound(m.group, 0);
    var db' := db.(groupInbounds := {link}, inbounds := map[0 := "inbound"]);
    var groups := WithOneTag(user.groups.value, m.group);
    other := user.(groups := Some(groups));
    OneTagReflects(db, user, m.group);
    assert m.group in MemberGroups(db, user.id) && m.group in GroupIds(user.groups.value);
    var i :| 0 <= i < |user.groups.value| && user.groups.value[i].id == m.group;
    assert ReflectsGroup(db, user.groups.value[i]);
    assert groups[i] in groups && IsOpen(other, groups[i]) && "inbound" in groups[i].inbounds.value;
    assert "inbound" in LoadedTags(other, groups);
    assert m.group !in OpenGroups(db', user.id) by {
      assert forall x <- db'.memberships :: x.user == user.id && x.group == m.group ==> x == m;
    }
    assert "inbound" !in TagsVia(db', OpenGroups(db', user.id));
  }

  lemma OneTagReflects(db: Database, user: UserObject, id: int)
    requires Reflects(db, user) && user.groups.Some?
    ensures var db' := db.(groupInbounds := {GroupInbound(id, 0)}, inbounds := map[0 := "inbound"]);
            var other := user.(groups := Some(WithOneTag(user.groups.value, id)));
            SameButInbounds(user, other) && Reflects(db', other) && InboundsLoaded(other, other.groups.value)
  {
    var db' := db.(groupInbounds := {GroupInbound(id, 0)}, inbounds := map[0 := "inbound"]);
    var groups, groups' := user.groups.value, WithOneTag(user.groups.value, id);
    forall g | g in groups' ensures ReflectsGroup(db', g) {
      var i :| 0 <= i < |groups'| && groups'[i] == g;
      assert groups[i] in groups && ReflectsGroup(db, groups[i]);
      if g.id == id {
        assert GroupInbound(id, 0) in db'.groupInbounds;
        assert TagSet(["inbound"]) == {"inbound"} == TagsVia(db', {g.id});
      } else {
        assert TagSet([]) == {} == TagsVia(db', {g.id});
      }
    }
    forall k ensures k in GroupIds(groups') <==> k in GroupIds(groups) {
      if k in GroupIds(groups) {
        var i :| 0 <= i < |groups| && groups[i].id == k;
        assert groups'[i] in groups' && groups'[i].id == k;
      }
      if k in GroupIds(groups') {
        var i :| 0 <= i < |groups'| && groups'[i].id == k;
        assert groups[i] in groups && groups[i].id == k;
      }
    }
    assert GroupIds(groups') == MemberGroups(db', user.id);
  }

  /** Updates of a loaded user are right, whatever inbounds its groups have, exactly when the quota of every
      enabled group that a quota has closed is loaded. */
  lemma UnloadedQuotasReopenGroups(db: Database, user: UserObject)
    requires Reflects(db, user) && user.groups.Some? && Served(user.status)
    ensures (forall links, inbounds, other :: UpdateIsRight(db, user, links, inbounds, other)) <==>
            QuotasLoaded(db, user)
  {
    if QuotasLoaded(db, user) {
      forall links, inbounds, other ensures UpdateIsRight(db, user, links, inbounds, other) {
        OtherIsRight(db, user, links, inbounds, other);
      }
    } else {
      var m :| m in db.memberships && Reopened(db, user, m);
      var other := ReopenedGroup(db, user, m);
    }
  }

  /** With no quota loaded, that is when no quota has closed an enabled group of the user. */
  lemma NoQuotaLoaded(db: Database, user: UserObject)
    requires user.groupQuotas == None || user.groupQuotas == Some([])
    ensures QuotasLoaded(db, user) <==> !exists m <- db.memberships :: m.user == user.id && ClosedInTables(db, m)
  {
  }

  /** A user whose only group is closed, loaded without quotas: the update carries the group's tag. */
  lemma ReopenedByNoload() returns (db: Database, user: UserObject)
    ensures Reflects(db, user) && user.groups.Some? && InboundsLoaded(user, user.groups.value)
    ensures user.groupQuotas == Some([]) && SerializedTags(db, user) == {"inbound"} && UserTags(db, user.id) == {}
  {
    db := Database(map[1 := User(Active, None)], {UserGroup(1, 2)}, map[2 := false], {GroupInbound(2, 3)},
                   map[3 := "inbound"], map[UserGroup(1, 2) := Quota(Some(10), 10)], map[], map[]);
    user := UserObject(1, Active, None, None, Some([LoadedGroup(2, false, Some(["inbound"]))]), Some([]), true);
    assert TagsVia(db, {2}) == {"inbound"} by { assert GroupInbound(2, 3) in db.groupInbounds; }
    var g := user.groups.value[0];
    assert TagSet(g.inbounds.value) == {"inbound"};
    assert UserGroup(1, 2) in db.memberships;
    assert OpenGroups(db, 1) == {};
  }
}
