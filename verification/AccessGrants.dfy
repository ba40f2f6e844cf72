/** What the registry grants, spelled out: the tables of permissions and roles, what a position or a
    user without a role falls back on, and how the three levels decide. */
module AccessGrants {
  import opened PythonText
  import opened Wrappers
  import opened Sublists
  import opened AccessControl
  import opened AccessRules

  // ----- The tables -----

  lemma AllowedIs(q: string)
    ensures Allowed(q) <==>
      || q == "*" || q == "admin:api_keys" || q == "admin:users" || q == "admin:local_llm"
      || q == "admin:hr_evaluation" || q == "admin:mcp" || q == "admin:integrations" || q == "admin:token_limits"
      || q == "memory:write" || q == "llm:chat" || q == "documents:write" || q == "documents:read"
      || q == "uploads:write" || q == "work:read" || q == "patch_records:read" || q == "patch_records:write"
  {
  }

  /** The registry that a missing or role-less document stands for. */
  lemma DefaultRegistryIs(stored: Option<Registry>)
    requires stored.Some? ==> stored.value.roles == []
    ensures var viewer := ["work:read", "documents:read", "patch_records:read"];
            var staff := ["llm:chat", "uploads:write", "work:read", "documents:read", "patch_records:read"];
            var manager := ["memory:write", "llm:chat", "documents:write", "documents:read", "uploads:write",
                "work:read",
                            "patch_records:read", "patch_records:write"];
            Read(stored) == Registry([Role("owner", "대표/관리자", 100, ["*"]), Role("manager", "매니저", 70, manager),
                                      Role("staff", "직원", 40, staff), Role("viewer", "조회자", 10, viewer)], [], [], [],
                                          [])
  {
  }

  // ----- Finding -----

  lemma {:induction false} FindRoleMeaning(roles: seq<Role>, id: string)
    ensures FindRole(roles, id).None? <==> forall r | r in roles :: r.id != id
    ensures forall k | 0 <= k < |roles| && roles[k].id == id && (forall j | 0 <= j < k :: roles[j].id != id) ::
      FindRole(roles, id) == Some(roles[k])
    decreases |roles|
  {
    if roles != [] {
      assert roles == [roles[0]] + roles[1..];
      FindRoleMeaning(roles[1..], id);
      forall k | 0 <= k < |roles| && roles[k].id == id && (forall j | 0 <= j < k :: roles[j].id != id)
        ensures FindRole(roles, id) == Some(roles[k])
      {
        if k > 0 { assert roles[1..][k - 1] == roles[k] && forall j | 0 <= j < k - 1 :: roles[1..][j] == roles[j + 1]; }
      }
    }
  }

  lemma {:induction false} FindUserMeaning(users: seq<User>, id: string)
    ensures FindUser(users, id).None? <==> forall u | u in users :: u.id != id
    ensures forall k | 0 <= k < |users| && users[k].id == id && (forall j | 0 <= j < k :: users[j].id != id) ::
      FindUser(users, id) == Some(users[k])
    decreases |users|
  {
    if users != [] {
      assert users == [users[0]] + users[1..];
      FindUserMeaning(users[1..], id);
      forall k | 0 <= k < |users| && users[k].id == id && (forall j | 0 <= j < k :: users[j].id != id)
        ensures FindUser(users, id) == Some(users[k])
      {
        if k > 0 { assert users[1..][k - 1] == users[k] && forall j | 0 <= j < k - 1 :: users[1..][j] == users[j + 1]; }
      }
    }
  }

  lemma {:induction false} FindPositionMeaning(positions: seq<Position>, id: string)
    ensures FindPosition(positions, id).None? <==> forall p | p in positions :: p.id != id
    ensures forall k | 0 <= k < |positions| && positions[k].id == id
        && (forall j | 0 <= j < k :: positions[j].id != id) ::
      FindPosition(positions, id) == Some(positions[k])
    decreases |positions|
  {
    if positions != [] {
      assert positions == [positions[0]] + positions[1..];
      FindPositionMeaning(positions[1..], id);
      forall k | 0 <= k < |positions| && positions[k].id == id && (forall j | 0 <= j < k :: positions[j].id != id)
        ensures FindPosition(positions, id) == Some(positions[k])
      {
        if k > 0 {
          assert positions[1..][k - 1] == positions[k]
              && forall j | 0 <= j < k - 1 :: positions[1..][j] == positions[j + 1];
        }
      }
    }
  }

  ghost predicate For(policy: Policy, department: string, position: string) {
    policy.departmentId == department && policy.positionId == position
  }

  lemma {:induction false} FindPolicyMeaning(policies: seq<Policy>, department: string, position: string)
    ensures FindPolicy(policies, department, position).None? <==>
        forall p | p in policies :: !For(p, department, position)
    ensures forall k | 0 <= k < |policies| && For(policies[k], department, position)
        && (forall j | 0 <= j < k :: !For(policies[j], department, position)) ::
      FindPolicy(policies, department, position) == Some(policies[k])
    decreases |policies|
  {
    if policies != [] {
      assert policies == [policies[0]] + policies[1..];
      assert For(policies[0], department, position)
        <==> policies[0].departmentId == department && policies[0].positionId == position;
      FindPolicyMeaning(policies[1..], department, position);
      forall k | 0 <= k < |policies| && For(policies[k], department, position)
          && (forall j | 0 <= j < k :: !For(policies[j], department, position))
        ensures FindPolicy(policies, department, position) == Some(policies[k])
      {
        if k > 0 {
          assert policies[1..][k - 1] == policies[k]
              && forall j | 0 <= j < k - 1 :: policies[1..][j] == policies[j + 1];
        }
      }
    }
  }

  // ----- Falling back -----

  lemma {:induction false} OnlyAllowedKeeps(permissions: seq<string>)
    ensures Keeps(permissions, OnlyAllowed(permissions), q => Allowed(q))
    decreases |permissions|
  {
    hide Allowed, Keeps;
    if permissions == [] {
      KeepsNothing(q => Allowed(q));
    } else {
      var front, last := permissions[..|permissions| - 1], permissions[|permissions| - 1];
      OnlyAllowedKeeps(front);
      KeepsSnoc(front, OnlyAllowed(front), q => Allowed(q), last);
      assert permissions == front + [last];
    }
  }

  /** The role a position stands for: the one it names, else by its level, else by its name. */
  lemma FallbackRole(p: Position)
    ensures p.permissionRoleId != "" ==> RoleIdOf(p) == p.permissionRoleId
    ensures p.permissionRoleId == "" && p.level >= 60 ==> RoleIdOf(p) == "manager"
    ensures p.permissionRoleId == "" && 40 <= p.level < 60 ==> RoleIdOf(p) == "staff"
    ensures p.permissionRoleId == "" && p.level < 40 && p.level != 0 ==> RoleIdOf(p) == "viewer"
    ensures p.permissionRoleId == "" && p.level == 0 ==>
      var name := Lower(Strip(p.id));
      && (RoleIdOf(p) == "owner" <==>
          name == "owner" || name == "founder" || name == "ceo" || name == "admin" || name == "administrator")
      && (RoleIdOf(p) == "manager" <==>
          name == "lead" || name == "leader" || name == "manager" || name == "team_lead" || name == "director")
      && (RoleIdOf(p) == "staff" <==> name == "staff" || name == "employee" || name == "member")
      && (RoleIdOf(p) == "viewer" <==> name == "viewer" || name == "guest")
      && RoleIdOf(p) in {"owner", "manager", "staff", "viewer", ""}
  {
    hide Strip, Lower;
    assert "owner"[0] != "manager"[0] && "owner"[0] != "staff"[0] && "owner"[0] != "viewer"[0]
        && "manager"[0] != "staff"[0]
      && "manager"[0] != "viewer"[0] && "staff"[0] != "viewer"[0];
  }

  /** A position as a read leaves it: its own known permissions, or those of the role it stands
      for; its order, else its level, else the order of the role. */
  lemma HydrateMeaning(p: Position, roles: seq<Role>)
    ensures var h, asked := Hydrate(p, roles), if p.permissions != [] then p.permissions
                                               else match FindRole(roles, RoleIdOf(p)) case Some(r) => r.permissions
                                                   case None => [];
            && h == Position(p.id, p.name, p.level, p.description, "", h.permissions, h.displayOrder,
                p.restrictTitleAssignment)
            && Keeps(asked, h.permissions, q => Allowed(q))
            && (p.displayOrder != 0 ==> h.displayOrder == p.displayOrder)
            && (p.displayOrder == 0 && p.level != 0 ==> h.displayOrder == p.level)
            && (p.displayOrder == 0 && p.level == 0 ==>
                  && (RoleIdOf(p) == "owner" ==> h.displayOrder == 100)
                  && (RoleIdOf(p) == "manager" ==> h.displayOrder == 70)
                  && (RoleIdOf(p) == "staff" ==> h.displayOrder == 40)
                  && (RoleIdOf(p) == "viewer" ==> h.displayOrder == 10)
                  && (RoleIdOf(p) !in {"owner", "manager", "staff", "viewer"} ==> h.displayOrder == 0))
  {
    hide RoleIdOf, Allowed, OnlyAllowed, FindRole, Keeps;
    OnlyAllowedKeeps(if p.permissions != [] then p.permissions else RolePermissions(roles, RoleIdOf(p)));
    assert "owner"[0] != "manager"[0] && "owner"[0] != "staff"[0] && "owner"[0] != "viewer"[0]
        && "manager"[0] != "staff"[0]
      && "manager"[0] != "viewer"[0] && "staff"[0] != "viewer"[0];
  }

  // ----- Users -----

  /** A user as loaded: without a role a viewer; the account that was set up first is renamed. */
  lemma LoadMeaning(u: User)
    ensures var role := if u.roleId == "" then "viewer" else u.roleId;
            LoadUser(u) == if u.id == "owner" && u.displayName == "Local Owner"
                           then User("owner", "시스템 관리자", "시스템 관리자", role, u.active, "", "")
                           else User(u.id, u.displayName, u.title, role, u.active, u.department, u.positionId)
  {
  }

  /** A restored owner: active, with the owner role, and named if it had no name or title. */
  lemma RestoreMeaning(u: User)
    ensures var r := RestoreOwner(u);
            && r.id == u.id && r.department == u.department && r.positionId == u.positionId
            && r.roleId == "owner" && r.active
            && (u.displayName != "" ==> r.displayName == u.displayName)
            && (u.displayName == "" ==> r.displayName == "시스템 관리자")
            && (u.title != "" ==> r.title == u.title)
            && (u.title == "" ==> r.title == "대표")
  {
  }

  /** Users after a read: as loaded, but that owners are restored where nobody active holds a
      role that grants everything or the administration of users. */
  lemma ReadUsers(raw: Registry)
    requires raw.roles != []
    ensures var was, now := Loaded(raw).users, Read(Some(raw)).users;
            var admin := exists u, r | u in was && r in Read(Some(raw)).roles ::
                           u.active && r.id == u.roleId && ("*" in r.permissions || "admin:users" in r.permissions);
            && |now| == |was| == |raw.users|
            && (forall i | 0 <= i < |was| :: was[i] == LoadUser(raw.users[i]))
            && (forall i | 0 <= i < |was| ::
                now[i] == if !admin && was[i].id == "owner" then RestoreOwner(was[i]) else was[i])
  {
    hide LoadUser, RestoreOwner, TopUp, DefaultRoles, HydrateAll;
    var reg := Loaded(raw);
    assert HasActiveAdmin(reg.users, reg.roles) <==> exists u, r | u in reg.users && r in reg.roles ::
      u.active && r.id == u.roleId && ("*" in r.permissions || "admin:users" in r.permissions);
  }

  /** Everything else after a read: roles topped up, positions hydrated, the rest as stored. */
  lemma ReadRest(raw: Registry)
    requires raw.roles != []
    ensures var reg := Read(Some(raw));
            && reg.departments == raw.departments && reg.policies == raw.policies
            && raw.roles <= reg.roles
            && |reg.positions| == |raw.positions|
            && forall i | 0 <= i < |raw.positions| :: reg.positions[i] == Hydrate(raw.positions[i], reg.roles)
  {
    hide LoadUsers, Recover, Hydrate;
    TopUpIsPrefix(raw.roles, DefaultRoles());
  }

  lemma {:induction false} TopUpIsPrefix(roles: seq<Role>, defaults: seq<Role>)
    ensures roles <= TopUp(roles, defaults)
    ensures forall r | r in TopUp(roles, defaults)[|roles|..] :: r in defaults
    decreases |defaults|
  {
    hide FindRole;
    if defaults != [] { TopUpIsPrefix(roles, defaults[..|defaults| - 1]); }
  }

  /** Writing forgets which role a position refers to, and nothing else. */
  lemma WriteMeaning(reg: Registry)
    ensures var w := Write(reg);
            && w.roles == reg.roles && w.users == reg.users && w.departments == reg.departments
                && w.policies == reg.policies
            && |w.positions| == |reg.positions|
            && forall i | 0 <= i < |w.positions| ::
                 var p, q := reg.positions[i], w.positions[i];
                 q == Position(p.id, p.name, p.level, p.description, "", p.permissions, p.displayOrder,
                     p.restrictTitleAssignment)
  {
  }

  // ----- The three levels -----

  /** Who may do what: only an active known user; a policy for department and position decides
      alone, then what the position grants, then the role. */
  lemma GrantedMeaning(reg: Registry, id: string, permission: string)
    ensures HasPermission(reg, Some(id), permission) ==>
      id != "" && FindUser(reg.users, id).Some? && FindUser(reg.users, id).value.active
    ensures !HasPermission(reg, None, permission)
    ensures id != "" && FindUser(reg.users, id).Some? && FindUser(reg.users, id).value.active ==>
      var user := FindUser(reg.users, id).value;
      var position := FindPosition(reg.positions, user.positionId);
      && (position.Some? && FindPolicy(reg.policies, user.department, user.positionId).Some? ==>
            var granted := FindPolicy(reg.policies, user.department, user.positionId).value.permissions;
            HasPermission(reg, Some(id), permission) <==> permission in granted || "*" in granted)
      && (position.Some? && FindPolicy(reg.policies, user.department, user.positionId).None?
          && position.value.permissions != [] ==>
            (HasPermission(reg, Some(id), permission) <==>
             permission in position.value.permissions || "*" in position.value.permissions))
      && (position.None? || (FindPolicy(reg.policies, user.department, user.positionId).None?
          && position.value.permissions == []) ==>
            (HasPermission(reg, Some(id), permission) <==>
             exists r :: FindRole(reg.roles, user.roleId) == Some(r)
                 && (permission in r.permissions || "*" in r.permissions)))
  {
    hide FindUser, FindPosition, FindPolicy, FindRole;
    if FindUser(reg.users, id).Some? {
      FoundPosition(reg.positions, FindUser(reg.users, id).value.positionId);
    }
  }

  /** A user without a role, position and policy may do after a read what the viewer role, as
      stored or by default, lets a viewer do. */
  lemma RolelessIsViewer(raw: Registry, id: string, permission: string)
    requires raw.roles != [] && FindUser(Loaded(raw).users, id).Some? && id != "" && id != "owner"
    requires var user := FindUser(Loaded(raw).users, id).value;
             user.active && user.roleId == "viewer" && FindPosition(Read(Some(raw)).positions, user.positionId).None?
    ensures FindRole(raw.roles, "viewer").None? ==>
      (HasPermission(Read(Some(raw)), Some(id), permission) <==>
       permission == "work:read" || permission == "documents:read" || permission == "patch_records:read")
    ensures FindRole(raw.roles, "viewer").Some? ==>
      var viewer := FindRole(raw.roles, "viewer").value;
      (HasPermission(Read(Some(raw)), Some(id), permission) <==>
          permission in viewer.permissions || "*" in viewer.permissions)
  {
    hide FindUser, FindPosition, FindPolicy, FindRole, HasPermission;
    hide Recover, HydrateAll, TopUp, LoadUsers, DefaultRoles;
    var reg := Read(Some(raw));
    FindRestored(Loaded(raw).users, id);
    assert FindUser(reg.users, id) ==
        FindUser(Loaded(raw).users, id) by { RecoverFinds(Loaded(raw).users, reg.roles, id); }
    GrantedMeaning(reg, id, permission);
    ViewerTopsUp(raw.roles);
  }

  lemma RecoverFinds(users: seq<User>, roles: seq<Role>, id: string)
    requires id != "owner"
    ensures FindUser(Recover(users, roles), id) == FindUser(users, id)
  {
    hide HasActiveAdmin;
    FindRestored(users, id);
    FoundUserHasId(users, id);
  }

  lemma {:induction false} FoundUserHasId(users: seq<User>, id: string)
    ensures FindUser(users, id).Some? ==> FindUser(users, id).value.id == id
    decreases |users|
  {
    if users != [] { FoundUserHasId(users[1..], id); }
  }

  lemma ViewerTopsUp(roles: seq<Role>)
    ensures FindRole(roles, "viewer").Some? ==>
        FindRole(TopUp(roles, DefaultRoles()), "viewer") == FindRole(roles, "viewer")
    ensures FindRole(roles, "viewer").None? ==>
      FindRole(TopUp(roles, DefaultRoles()), "viewer")
        == Some(Role("viewer", "조회자", 10, ["work:read", "documents:read", "patch_records:read"]))
  {
    hide FindRole, TopUp;
    var defaults := DefaultRoles();
    TopUpMeaning(roles, defaults, "viewer");
    var front, viewer := defaults[..3], defaults[3];
    assert "owner"[0] != "viewer"[0] && "manager"[0] != "viewer"[0] && "staff"[0] != "viewer"[0];
    assert defaults[0].id != "viewer" && defaults[1].id != "viewer" && defaults[2].id != "viewer"
        && viewer.id == "viewer";
    assert TopUp(roles, defaults) == TopUpLast(roles, defaults) by { TopUpSnoc(roles, defaults); }
    TopUpAddsNone(roles, front, "viewer");
    FindRoleSnoc(TopUp(roles, front), viewer, "viewer");
  }

  function TopUpLast(roles: seq<Role>, defaults: seq<Role>): seq<Role>
    requires defaults != []
  {
    var before, role := TopUp(roles, defaults[..|defaults| - 1]), defaults[|defaults| - 1];
    if FindRole(before, role.id).None? then before + [role] else before
  }

  lemma TopUpSnoc(roles: seq<Role>, defaults: seq<Role>)
    requires defaults != []
    ensures TopUp(roles, defaults) == TopUpLast(roles, defaults)
  {
  }

  lemma {:induction false} TopUpAddsNone(roles: seq<Role>, defaults: seq<Role>, id: string)
    requires forall d | d in defaults :: d.id != id
    ensures FindRole(TopUp(roles, defaults), id) == FindRole(roles, id)
    decreases |defaults|
  {
    if defaults != [] {
      var front, last := defaults[..|defaults| - 1], defaults[|defaults| - 1];
      assert last in defaults;
      TopUpAddsNone(roles, front, id);
      FindRoleSnoc(TopUp(roles, front), last, id);
    }
  }
}
