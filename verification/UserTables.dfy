/** The tables user synchronisation reads, SQL's three truth values, and who may use which inbound. */
module UserTables {
  import opened Wrappers

  datatype UserStatus = Active | Disabled | Limited | Expired | OnHold

  datatype AdminStatus = AdminActive | AdminDisabled | AdminLimited

  datatype User = User(status: UserStatus, adminId: Option<int>)

  datatype Quota = Quota(dataLimit: Option<int>, usedTraffic: int)

  datatype Admin = Admin(status: AdminStatus, roleId: int)

  datatype Role = Role(disconnectWhenLimited: bool, disconnectWhenDisabled: bool)

  datatype UserGroup = UserGroup(user: int, group: int)

  datatype GroupInbound = GroupInbound(group: int, inbound: int)

  /** Primary keys are map keys; `groups` holds is_disabled and `inbounds` the tag.  References may
      dangle, as they may in SQLite. */
  datatype Database = Database(
    users: map<int, User>,
    memberships: set<UserGroup>,
    groups: map<int, bool>,
    groupInbounds: set<GroupInbound>,
    inbounds: map<int, string>,
    quotas: map<UserGroup, Quota>,
    admins: map<int, Admin>,
    roles: map<int, Role>)

  // ----- Three-valued logic -----

  datatype Truth = True | False | Unknown

  function Of(b: bool): Truth {
    if b then True else False
  }

  function Or(a: Truth, b: Truth): Truth {
    if a == True || b == True then True
    else if a == False && b == False then False
    else Unknown
  }

  function And(a: Truth, b: Truth): Truth {
    if a == False || b == False then False
    else if a == True && b == True then True
    else Unknown
  }

  /** Comparisons with NULL are unknown. */
  function Compare(a: Option<int>, b: Option<int>, op: (int, int) -> bool): Truth {
    if a.Some? && b.Some? then Of(op(a.value, b.value)) else Unknown
  }

  // ----- Who may use what -----

  /** `UserGroupQuota.is_limited`. */
  predicate IsLimited(q: Quota) {
    q.dataLimit.Some? && q.dataLimit.value != 0 && q.dataLimit.value > 0 && q.usedTraffic >= q.dataLimit.value
  }

  /** The enabled groups of a user that the user's quota has not closed. */
  function OpenGroups(db: Database, u: int): set<int> {
    set m <- db.memberships |
      && m.user == u && m.group in db.groups && !db.groups[m.group]
      && !(m in db.quotas && IsLimited(db.quotas[m])) :: m.group
  }

  function TagsVia(db: Database, groups: set<int>): set<string> {
    set link <- db.groupInbounds | link.group in groups && link.inbound in db.inbounds :: db.inbounds[link.inbound]
  }

  predicate Served(status: UserStatus) {
    status == Active || status == OnHold
  }

  /** The tags of the inbounds a user may use, the admin aside. */
  function UserTags(db: Database, u: int): set<string>
    requires u in db.users
  {
    if Served(db.users[u].status) then TagsVia(db, OpenGroups(db, u)) else {}
  }

  /** `Admin.users_sync_blocked`. */
  predicate UsersSyncBlocked(status: AdminStatus, role: Role) {
    match status
    case AdminLimited => role.disconnectWhenLimited
    case AdminDisabled => role.disconnectWhenDisabled
    case AdminActive => false
  }

  /** The admin's users are to be kept off the nodes; an admin without a role blocks nobody. */
  predicate AdminBlocked(db: Database, a: int) {
    a in db.admins && db.admins[a].roleId in db.roles &&
      UsersSyncBlocked(db.admins[a].status, db.roles[db.admins[a].roleId])
  }

  predicate UserBlocked(db: Database, u: int)
    requires u in db.users
  {
    db.users[u].adminId.Some? && AdminBlocked(db, db.users[u].adminId.value)
  }

  /** What a node that serves the tags of `filter` needs of a set of tags; no filter means all. */
  function Cut(tags: set<string>, filter: set<string>): set<string> {
    if filter == {} then tags else tags * filter
  }
}
