/** Users, roles, positions and department policies: what the registry grants, and how the
    stored registry is completed and repaired each time it is read. */
module AccessControl {
  import opened PythonText
  import opened Wrappers
  import opened DepartmentForest

  datatype Role = Role(id: string, name: string, level: int, permissions: seq<string>)

  datatype User = User(id: string, displayName: string, title: string, roleId: string, active: bool,
                       department: string, positionId: string)

  datatype Position = Position(id: string, name: string, level: int, description: string, permissionRoleId: string,
                               permissions: seq<string>, displayOrder: int, restrictTitleAssignment: bool)

  datatype Policy = Policy(departmentId: string, positionId: string, permissions: seq<string>)

  datatype Registry = Registry(roles: seq<Role>, users: seq<User>, departments: seq<Department>,
                               positions: seq<Position>, policies: seq<Policy>)

  const ALL_PERMISSIONS: set<string> := {
    "admin:api_keys", "admin:users", "admin:local_llm", "admin:hr_evaluation", "admin:mcp", "admin:integrations",
    "admin:token_limits", "memory:write", "llm:chat", "documents:write", "documents:read", "uploads:write",
    "work:read", "patch_records:read", "patch_records:write"}

  predicate Allowed(permission: string) {
    permission == "*" || permission in ALL_PERMISSIONS
  }

  function OnlyAllowed(permissions: seq<string>): seq<string> {
    if permissions == [] then []
    else
      var last := permissions[|permissions| - 1];
      OnlyAllowed(permissions[..|permissions| - 1]) + if Allowed(last) then [last] else []
  }

  // ----- Defaults -----

  function DefaultRoles(): seq<Role> {
    [Role("owner", "대표/관리자", 100, ["*"]),
     Role("manager", "매니저", 70, ["memory:write", "llm:chat", "documents:write", "documents:read", "uploads:write",
                                  "work:read", "patch_records:read", "patch_records:write"]),
     Role("staff", "직원", 40, ["llm:chat", "uploads:write", "work:read", "documents:read", "patch_records:read"]),
     Role("viewer", "조회자", 10, ["work:read", "documents:read", "patch_records:read"])]
  }

  function DefaultRegistry(): Registry {
    Registry(DefaultRoles(), [], [], [], [])
  }

  function FindRole(roles: seq<Role>, id: string): Option<Role> {
    if roles == [] then None else if roles[0].id == id then Some(roles[0]) else FindRole(roles[1..], id)
  }

  function FindUser(users: seq<User>, id: string): Option<User> {
    if users == [] then None else if users[0].id == id then Some(users[0]) else FindUser(users[1..], id)
  }

  function FindPosition(positions: seq<Position>, id: string): Option<Position> {
    if positions == [] then None
    else if positions[0].id == id then Some(positions[0]) else FindPosition(positions[1..], id)
  }

  function FindPolicy(policies: seq<Policy>, department: string, position: string): Option<Policy> {
    if policies == [] then None
    else if policies[0].departmentId == department && policies[0].positionId == position then Some(policies[0])
    else FindPolicy(policies[1..], department, position)
  }

  /** The roles with each missing default role added at the end. */
  function TopUp(roles: seq<Role>, defaults: seq<Role>): seq<Role> {
    if defaults == [] then roles
    else
      var before, role := TopUp(roles, defaults[..|defaults| - 1]), defaults[|defaults| - 1];
      if FindRole(before, role.id).None? then before + [role] else before
  }

  // ----- Hydration of positions -----

  function RoleFromLevel(level: int): string {
    if level >= 60 then "manager" else if level >= 40 then "staff" else "viewer"
  }

  function RoleFromPositionId(id: string): string {
    var normalized := Lower(Strip(id));
    if normalized in {"owner", "founder", "ceo", "admin", "administrator"} then "owner"
    else if normalized in {"lead", "leader", "manager", "team_lead", "director"} then "manager"
    else if normalized in {"staff", "employee", "member"} then "staff"
    else if normalized in {"viewer", "guest"} then "viewer"
    else ""
  }

  function OrderFromRole(roleId: string): int {
    if roleId == "owner" then 100
    else if roleId == "manager" then 70
    else if roleId == "staff" then 40
    else if roleId == "viewer" then 10
    else 0
  }

  /** The role a position falls back on when it names none itself. */
  function LegacyRoleId(p: Position): string {
    if p.level != 0 then RoleFromLevel(p.level) else RoleFromPositionId(p.id)
  }

  function RoleIdOf(p: Position): string {
    if p.permissionRoleId != "" then p.permissionRoleId else LegacyRoleId(p)
  }

  function RolePermissions(roles: seq<Role>, id: string): seq<string> {
    match FindRole(roles, id)
    case Some(role) => role.permissions
    case None => []
  }

  function Hydrate(p: Position, roles: seq<Role>): Position {
    var roleId := RoleIdOf(p);
    var permissions := if p.permissions != [] then p.permissions else RolePermissions(roles, roleId);
    p.(permissionRoleId := "",
       permissions := OnlyAllowed(permissions),
       displayOrder := if p.displayOrder != 0 then p.displayOrder
                       else if p.level != 0 then p.level else OrderFromRole(roleId))
  }

  function HydrateAll(positions: seq<Position>, roles: seq<Role>): (r: seq<Position>)
    ensures |r| == |positions| && forall i | 0 <= i < |r| :: r[i] == Hydrate(positions[i], roles)
  {
    seq(|positions|, i requires 0 <= i < |positions| => Hydrate(positions[i], roles))
  }

  // ----- Users -----

  /** What loading a user record fills in, and the renaming of the original owner account. */
  function LoadUser(u: User): User {
    var user := if u.roleId == "" then u.(roleId := "viewer") else u;
    if user.id == "owner" && user.displayName == "Local Owner"
    then User(user.id, "시스템 관리자", "시스템 관리자", user.roleId, user.active, "", "")
    else user
  }

  function LoadUsers(users: seq<User>): (r: seq<User>)
    ensures |r| == |users| && forall i | 0 <= i < |r| :: r[i] == LoadUser(users[i])
  {
    seq(|users|, i requires 0 <= i < |users| => LoadUser(users[i]))
  }

  predicate GrantsAdmin(permissions: seq<string>) {
    "*" in permissions || "admin:users" in permissions
  }

  predicate HasActiveAdmin(users: seq<User>, roles: seq<Role>) {
    exists u | u in users :: u.active && exists r | r in roles :: r.id == u.roleId && GrantsAdmin(r.permissions)
  }

  function RestoreOwner(u: User): User {
    u.(displayName := if u.displayName != "" then u.displayName else "시스템 관리자",
       title := if u.title != "" then u.title else "대표",
       roleId := "owner", active := true)
  }

  function RestoreOwners(users: seq<User>): (r: seq<User>)
    ensures |r| == |users|
        && forall i | 0 <= i < |r| :: r[i] == if users[i].id == "owner" then RestoreOwner(users[i]) else users[i]
  {
    seq(|users|, i requires 0 <= i < |users| => if users[i].id == "owner" then RestoreOwner(users[i]) else users[i])
  }

  /** Lockout recovery: owners are restored when no active user holds an admin role. */
  function Recover(users: seq<User>, roles: seq<Role>): seq<User> {
    if HasActiveAdmin(users, roles) then users else RestoreOwners(users)
  }

  // ----- Reading and writing the stored document -----

  /** The registry that reading a stored document yields. */
  function Read(stored: Option<Registry>): Registry {
    if stored.None? || stored.value.roles == [] then DefaultRegistry()
    else
      var raw := stored.value;
      var roles := TopUp(raw.roles, DefaultRoles());
      Registry(roles, Recover(LoadUsers(raw.users), roles), raw.departments, HydrateAll(raw.positions, roles),
          raw.policies)
  }

  /** What is stored of a registry: a position's role reference is not written. */
  function Write(reg: Registry): Registry {
    reg.(positions := seq(|reg.positions|,
        i requires 0 <= i < |reg.positions| => reg.positions[i].(permissionRoleId := "")))
  }

  // ----- What a user may do -----

  /** A policy for the user's department and position decides alone, even when it is empty; then
      the position's own permissions; then the role's. */
  function EffectivePermissions(reg: Registry, user: User): seq<string> {
    match FindPosition(reg.positions, user.positionId)
    case None => RolePermissions(reg.roles, user.roleId)
    case Some(position) =>
      match FindPolicy(reg.policies, user.department, position.id)
      case Some(policy) => policy.permissions
      case None => if position.permissions != [] then position.permissions else RolePermissions(reg.roles, user.roleId)
  }

  predicate HasPermission(reg: Registry, userId: Option<string>, permission: string) {
    userId.Some? && userId.value != "" &&
    match FindUser(reg.users, userId.value)
    case None => false
    case Some(user) =>
      user.active && var granted := EffectivePermissions(reg, user); "*" in granted || permission in granted
  }
}
