/** What holds of the access-control registry across reads, writes and checks. */
module AccessRules {
  import opened Wrappers
  import opened DepartmentForest
  import opened AccessControl

  // ----- Roles -----

  lemma {:induction false} FindRoleSnoc(roles: seq<Role>, role: Role, id: string)
    ensures FindRole(roles + [role], id) ==
            if FindRole(roles, id).Some? then FindRole(roles, id) else if role.id == id then Some(role) else None
    decreases |roles|
  {
    if roles == [] {
      assert [] + [role] == [role];
    } else {
      assert (roles + [role])[1..] == roles[1..] + [role];
      FindRoleSnoc(roles[1..], role, id);
    }
  }

  /** Topping up keeps the roles that are there, and adds every default role that is not. */
  lemma {:induction false} TopUpMeaning(roles: seq<Role>, defaults: seq<Role>, id: string)
    ensures FindRole(roles, id).Some? ==> FindRole(TopUp(roles, defaults), id) == FindRole(roles, id)
    ensures (exists d :: d in defaults && d.id == id) ==> FindRole(TopUp(roles, defaults), id).Some?
    decreases |defaults|
  {
    if defaults != [] {
      var front, last := defaults[..|defaults| - 1], defaults[|defaults| - 1];
      TopUpMeaning(roles, front, id);
      FindRoleSnoc(TopUp(roles, front), last, id);
      assert defaults == front + [last];
    }
  }

  lemma {:induction false} NothingToTopUp(roles: seq<Role>, defaults: seq<Role>)
    requires forall d | d in defaults :: FindRole(roles, d.id).Some?
    ensures TopUp(roles, defaults) == roles
    decreases |defaults|
  {
    if defaults != [] {
      assert defaults[|defaults| - 1] in defaults;
      NothingToTopUp(roles, defaults[..|defaults| - 1]);
    }
  }

  lemma TopUpTwice(roles: seq<Role>, defaults: seq<Role>)
    ensures TopUp(TopUp(roles, defaults), defaults) == TopUp(roles, defaults)
    ensures defaults != [] ==> TopUp(roles, defaults) != []
  {
    forall d | d in defaults ensures FindRole(TopUp(roles, defaults), d.id).Some? {
      TopUpMeaning(roles, defaults, d.id);
    }
    NothingToTopUp(TopUp(roles, defaults), defaults);
    assert defaults != [] ==> defaults[0] in defaults;
  }

  // ----- Users -----

  lemma LoadTwice(users: seq<User>)
    ensures LoadUsers(LoadUsers(users)) == LoadUsers(users)
    ensures LoadUsers(RestoreOwners(LoadUsers(users))) == RestoreOwners(LoadUsers(users))
    ensures RestoreOwners(RestoreOwners(users)) == RestoreOwners(users)
  {
  }

  /** Loading and recovering again changes nothing, whether or not recovery found an admin role. */
  lemma RecoverTwice(users: seq<User>, roles: seq<Role>)
    ensures var once := Recover(LoadUsers(users), roles); Recover(LoadUsers(once), roles) == once
  {
    hide HasActiveAdmin, LoadUsers, RestoreOwners;
    LoadTwice(users);
    LoadTwice(LoadUsers(users));
  }

  /** Recovery leaves an active admin role holder exactly when there was one, or there is an
      owner account and the owner role, as stored, still grants administration. */
  lemma RecoveryMeaning(users: seq<User>, roles: seq<Role>)
    ensures HasActiveAdmin(Recover(users, roles), roles) <==>
      || HasActiveAdmin(users, roles)
      || ((exists u :: u in users && u.id == "owner")
          && exists r :: r in roles && r.id == "owner" && GrantsAdmin(r.permissions))
  {
    if !HasActiveAdmin(users, roles) {
      var after := RestoreOwners(users);
      if HasActiveAdmin(after, roles) {
        var u :| u in after && u.active && exists r | r in roles :: r.id == u.roleId && GrantsAdmin(r.permissions);
        var i :| 0 <= i < |after| && after[i] == u;
        assert users[i] in users;
        assert users[i].id == "owner";
      } else if exists u :: u in users && u.id == "owner" {
        var u :| u in users && u.id == "owner";
        var i :| 0 <= i < |users| && users[i] == u;
        assert after[i] in after && after[i].active && after[i].roleId == "owner";
      }
    }
  }

  // ----- Positions -----

  lemma {:induction false} OnlyAllowedMeaning(permissions: seq<string>)
    ensures forall p :: p in OnlyAllowed(permissions) <==> p in permissions && Allowed(p)
    ensures (forall p | p in permissions :: Allowed(p)) ==> OnlyAllowed(permissions) == permissions
    decreases |permissions|
  {
    hide Allowed;
    if permissions != [] {
      var front, last := permissions[..|permissions| - 1], permissions[|permissions| - 1];
      OnlyAllowedMeaning(front);
      assert permissions == front + [last];
    }
  }

  lemma OnlyAllowedTwice(permissions: seq<string>)
    ensures OnlyAllowed(OnlyAllowed(permissions)) == OnlyAllowed(permissions)
  {
    OnlyAllowedMeaning(permissions);
    OnlyAllowedMeaning(OnlyAllowed(permissions));
  }

  predicate SomeAllowed(permissions: seq<string>) {
    exists q | q in permissions :: Allowed(q)
  }

  lemma SomeAllowedIsKept(permissions: seq<string>)
    ensures SomeAllowed(permissions) <==> OnlyAllowed(permissions) != []
  {
    hide Allowed, OnlyAllowed;
    OnlyAllowedMeaning(permissions);
    var kept := OnlyAllowed(permissions);
    assert kept != [] ==> kept[0] in kept;
  }

  /** The permissions a position asks for: its own, or else those of the role it names. */
  function Asked(p: Position, roles: seq<Role>): seq<string> {
    if p.permissions != [] then p.permissions else RolePermissions(roles, RoleIdOf(p))
  }

  /** A position whose stored form leaves nothing to hydrate: it asks for a known permission or
      the role it would fall back on has none, and it has an order or that role gives none. */
  predicate Settled(p: Position, roles: seq<Role>) {
    && (SomeAllowed(Asked(p, roles)) || !SomeAllowed(RolePermissions(roles, LegacyRoleId(p))))
    && (p.displayOrder != 0 || p.level != 0 || OrderFromRole(RoleIdOf(p)) != 0 || OrderFromRole(LegacyRoleId(p)) == 0)
  }

  /** Hydrating a position twice is hydrating it once exactly when it is settled. */
  lemma HydrateTwice(p: Position, roles: seq<Role>)
    ensures Hydrate(Hydrate(p, roles), roles) == Hydrate(p, roles) <==> Settled(p, roles)
  {
    hide OrderFromRole, RoleFromPositionId, RoleFromLevel, RolePermissions, OnlyAllowed, SomeAllowed;
    var once := Hydrate(p, roles);
    OnlyAllowedTwice(Asked(p, roles));
    SomeAllowedIsKept(Asked(p, roles));
    SomeAllowedIsKept(RolePermissions(roles, LegacyRoleId(p)));
    assert LegacyRoleId(once) == LegacyRoleId(p) == RoleIdOf(once);
  }

  lemma {:induction false} NoneAllowed(permissions: seq<string>)
    requires forall q | q in permissions :: !Allowed(q)
    ensures OnlyAllowed(permissions) == []
    decreases |permissions|
  {
    hide Allowed;
    if permissions != [] {
      assert permissions[|permissions| - 1] in permissions;
      NoneAllowed(permissions[..|permissions| - 1]);
    }
  }

  /** A position whose requested permissions are all unknown is granted nothing on the first
      read and its fallback role's permissions on the second, unless that role grants nothing. */
  lemma UnknownPermissionsAreUnsettled(p: Position, roles: seq<Role>)
    requires p.permissions != [] && forall q | q in p.permissions :: !Allowed(q)
    requires OnlyAllowed(RolePermissions(roles, LegacyRoleId(p))) != []
    ensures Hydrate(p, roles).permissions == []
    ensures Hydrate(Hydrate(p, roles), roles).permissions == OnlyAllowed(RolePermissions(roles, LegacyRoleId(p)))
  {
    hide Allowed, OrderFromRole, RoleFromPositionId, RoleFromLevel, RolePermissions;
    NoneAllowed(p.permissions);
  }

  /** A position as the store's own methods leave it. */
  predicate StoredPosition(p: Position) {
    p.permissionRoleId == "" && forall q | q in p.permissions :: Allowed(q)
  }

  lemma StoredPositionIsSettled(p: Position, roles: seq<Role>)
    requires StoredPosition(p)
    ensures Settled(p, roles)
  {
    hide Allowed, OrderFromRole, RoleFromPositionId, RoleFromLevel, RolePermissions;
    assert p.permissions != [] ==> p.permissions[0] in p.permissions;
  }

  lemma HydratedIsStored(p: Position, roles: seq<Role>)
    ensures StoredPosition(Hydrate(p, roles))
  {
    hide Allowed, OrderFromRole, LegacyRoleId, RolePermissions;
    OnlyAllowedMeaning(p.permissions);
    OnlyAllowedMeaning(RolePermissions(roles, RoleIdOf(p)));
  }

  // ----- Reading -----

  lemma ReadHasRoles(stored: Option<Registry>)
    ensures Read(stored).roles != [] && TopUp(Read(stored).roles, DefaultRoles()) == Read(stored).roles
  {
    hide FindRole;
    if stored.Some? && stored.value.roles != [] { TopUpTwice(stored.value.roles, DefaultRoles()); }
    else { TopUpTwice([], DefaultRoles()); DefaultsAreToppedUp(); }
  }

  lemma DefaultsAreToppedUp()
    ensures TopUp(DefaultRoles(), DefaultRoles()) == DefaultRoles()
  {
    var roles := DefaultRoles();
    forall i | 0 <= i < |roles| ensures FindRole(roles, roles[i].id).Some? { Finds(roles, i); }
    NothingToTopUp(roles, roles);
  }

  lemma {:induction false} Finds(roles: seq<Role>, i: nat)
    requires i < |roles|
    ensures FindRole(roles, roles[i].id).Some?
    decreases |roles|
  {
    if roles[0].id != roles[i].id { Finds(roles[1..], i - 1); }
  }

  /** Read, write back, read again: the same registry, exactly when every stored position is settled. */
  lemma ReadIsStable(raw: Registry)
    requires raw.roles != []
    ensures Read(Some(Write(Read(Some(raw))))) == Read(Some(raw)) <==>
            forall p | p in raw.positions :: Settled(p, TopUp(raw.roles, DefaultRoles()))
  {
    hide HasActiveAdmin, LoadUsers, Recover, Hydrate, Settled, TopUp, DefaultRoles;
    var once := Read(Some(raw));
    var roles, n := once.roles, |raw.positions|;
    ReadHasRoles(Some(raw));
    RecoverTwice(raw.users, roles);
    var twice := Read(Some(Write(once)));
    assert twice.roles == roles && twice.users == once.users;
    forall i | 0 <= i < n
      ensures twice.positions[i] == Hydrate(once.positions[i], roles)
          && once.positions[i] == Hydrate(raw.positions[i], roles)
    {
      HydratedIsStored(raw.positions[i], roles);
      assert Write(once).positions[i] == once.positions[i];
    }
    forall i | 0 <= i < n ensures twice.positions[i] == once.positions[i] <==> Settled(raw.positions[i], roles) {
      HydrateTwice(raw.positions[i], roles);
    }
    assert forall i | 0 <= i < n :: raw.positions[i] in raw.positions;
    if forall p | p in raw.positions :: Settled(p, roles) {
      assert twice.positions == once.positions;
    }
    if twice == once {
      forall p | p in raw.positions ensures Settled(p, roles) {
        var i :| 0 <= i < n && raw.positions[i] == p;
      }
    }
  }

  /** The stored documents that the store's own methods can leave behind. */
  ghost predicate Reachable(stored: Option<Registry>) {
    stored.Some? ==>
      && stored.value.roles != [] && Forest(stored.value.departments)
      && forall p | p in stored.value.positions :: StoredPosition(p)
  }

  /** On every document the store can leave behind, reading is stable under writing back. */
  lemma ReachableReadIsStable(stored: Option<Registry>)
    requires Reachable(stored)
    ensures Read(Some(Write(Read(stored)))) == Read(stored)
  {
    hide Settled, StoredPosition, TopUp, Read, Write, Forest;
    if stored.Some? {
      forall p | p in stored.value.positions ensures Settled(p, TopUp(stored.value.roles, DefaultRoles())) {
        StoredPositionIsSettled(p, TopUp(stored.value.roles, DefaultRoles()));
      }
      ReadIsStable(stored.value);
    } else {
      DefaultIsStable();
    }
  }

  lemma DefaultIsStable()
    ensures Read(Some(Write(Read(None)))) == Read(None)
  {
    hide TopUp, Hydrate;
    DefaultsAreToppedUp();
    assert Write(DefaultRegistry()).positions == [];
  }

  lemma ReadKeepsForest(stored: Option<Registry>)
    requires Reachable(stored)
    ensures Forest(Read(stored).departments)
    ensures forall p | p in Read(stored).positions :: StoredPosition(p)
  {
    hide StoredPosition, TopUp, Recover, Hydrate, LoadUsers;
    EmptyIsForest();
    if stored.Some? {
      var roles := TopUp(stored.value.roles, DefaultRoles());
      forall i | 0 <= i < |stored.value.positions|
          ensures StoredPosition(HydrateAll(stored.value.positions, roles)[i]) {
        HydratedIsStored(stored.value.positions[i], roles);
      }
    }
  }

  /** Writing any registry with roles, a forest and stored-form positions is reachable. */
  lemma WriteIsReachable(reg: Registry)
    requires reg.roles != [] && Forest(reg.departments)
    requires forall p | p in reg.positions :: forall q | q in p.permissions :: Allowed(q)
    ensures Reachable(Some(Write(reg)))
  {
    hide Allowed, Forest;
    var positions := Write(reg).positions;
    forall p | p in positions ensures StoredPosition(p) {
      var i :| 0 <= i < |positions| && positions[i] == p;
      assert reg.positions[i] in reg.positions;
    }
  }

  // ----- Policies -----

  function WithoutPolicy(policies: seq<Policy>, department: string, position: string): seq<Policy> {
    if policies == [] then []
    else
      var last := policies[|policies| - 1];
      WithoutPolicy(policies[..|policies| - 1], department, position) +
      if last.departmentId == department && last.positionId == position then [] else [last]
  }

  function SetPolicy(policies: seq<Policy>, policy: Policy): seq<Policy> {
    WithoutPolicy(policies, policy.departmentId, policy.positionId)
        + [policy.(permissions := OnlyAllowed(policy.permissions))]
  }

  lemma {:induction false} FindPolicySnoc(policies: seq<Policy>, last: Policy, department: string, position: string)
    ensures FindPolicy(policies + [last], department, position) ==
      if FindPolicy(policies, department, position).Some? then FindPolicy(policies, department, position)
      else if last.departmentId == department && last.positionId == position then Some(last) else None
    decreases |policies|
  {
    if policies == [] {
      assert [] + [last] == [last];
    } else {
      assert (policies + [last])[1..] == policies[1..] + [last];
      FindPolicySnoc(policies[1..], last, department, position);
    }
  }

  lemma {:induction false} FindWithoutPolicy(policies: seq<Policy>, d: string, p: string, department: string,
                                             position: string)
    ensures FindPolicy(WithoutPolicy(policies, d, p), department, position) ==
            if department == d && position == p then None else FindPolicy(policies, department, position)
    decreases |policies|
  {
    if policies != [] {
      var front, last := policies[..|policies| - 1], policies[|policies| - 1];
      FindWithoutPolicy(front, d, p, department, position);
      FindPolicySnoc(front, last, department, position);
      assert policies == front + [last];
      FindPolicySnoc(WithoutPolicy(front, d, p), last, department, position);
      assert WithoutPolicy(front, d, p) + [] == WithoutPolicy(front, d, p);
    }
  }

  /** A department policy, once set, decides alone for the users it covers, whatever their role
      and position grant, and changes nothing for anyone else. */
  lemma PolicyDecides(reg: Registry, policy: Policy, userId: string, permission: string)
    requires FindUser(reg.users, userId).Some?
    ensures var after := reg.(policies := SetPolicy(reg.policies, policy));
            var user := FindUser(reg.users, userId).value;
            HasPermission(after, Some(userId), permission) <==>
              if user.department == policy.departmentId && user.positionId == policy.positionId
                 && FindPosition(reg.positions, user.positionId).Some?
              then userId != "" && user.active
                && ("*" in policy.permissions || (permission in policy.permissions && Allowed(permission)))
              else HasPermission(reg, Some(userId), permission)
  {
    hide Allowed, FindUser, FindPosition, FindPolicy, OnlyAllowed, WithoutPolicy;
    var user := FindUser(reg.users, userId).value;
    FoundPosition(reg.positions, user.positionId);
    OnlyAllowedMeaning(policy.permissions);
    assert Allowed("*") by { StarIsAllowed(); }
    FindWithoutPolicy(reg.policies, policy.departmentId, policy.positionId, user.department, user.positionId);
    FindPolicySnoc(WithoutPolicy(reg.policies, policy.departmentId, policy.positionId),
                   policy.(permissions := OnlyAllowed(policy.permissions)), user.department, user.positionId);
  }

  /** Each level hides those below it: under a policy neither roles nor what positions grant
      matter; under a position that grants anything roles do not; and for a user without a
      position in the registry only the roles do. */
  lemma LevelsOverride(reg: Registry, other: Registry, userId: string, permission: string)
    requires other.users == reg.users && FindUser(reg.users, userId).Some?
    ensures var user := FindUser(reg.users, userId).value;
            var here, there := FindPosition(reg.positions, user.positionId),
                FindPosition(other.positions, user.positionId);
            (|| (here.Some? && there.Some? && other.policies == reg.policies
                 && FindPolicy(reg.policies, user.department, user.positionId).Some?)
             || (here.Some? && here == there && other.policies == reg.policies && here.value.permissions != [])
             || (here.None? && there.None? && other.roles == reg.roles))
            ==> (HasPermission(reg, Some(userId), permission) <==> HasPermission(other, Some(userId), permission))
  {
    hide FindUser, FindPosition, FindPolicy, FindRole;
    var user := FindUser(reg.users, userId).value;
    FoundPosition(reg.positions, user.positionId);
    FoundPosition(other.positions, user.positionId);
  }

  lemma StarIsAllowed()
    ensures Allowed("*")
  {
  }

  lemma {:induction false} FoundPosition(positions: seq<Position>, id: string)
    ensures FindPosition(positions, id).Some? ==> FindPosition(positions, id).value.id == id
    decreases |positions|
  {
    if positions != [] { FoundPosition(positions[1..], id); }
  }

  // ----- Who can administer after a read -----

  /** The permissions that policy and position give, if they decide at all. */
  function Override(reg: Registry, user: User): Option<seq<string>> {
    match FindPosition(reg.positions, user.positionId)
    case None => None
    case Some(position) =>
      match FindPolicy(reg.policies, user.department, position.id)
      case Some(policy) => Some(policy.permissions)
      case None => if position.permissions != [] then Some(position.permissions) else None
  }

  /** Whether a user of a registry as loaded, before recovery, can administer users once recovery
      has run: an owner account is rescued exactly when no active user holds an admin role, and
      then still needs the owner role to count and to grant it. */
  predicate AdminOnceRead(reg: Registry, user: User) {
    var rescued := user.id == "owner" && !HasActiveAdmin(reg.users, reg.roles);
    && (user.active || rescued)
    && match Override(reg, user)
       case Some(permissions) => GrantsAdmin(permissions)
       case None => GrantsAdmin(RolePermissions(reg.roles, if rescued then "owner" else user.roleId))
  }

  /** Reading a document before recovery. */
  function Loaded(raw: Registry): Registry {
    var roles := TopUp(raw.roles, DefaultRoles());
    Registry(roles, LoadUsers(raw.users), raw.departments, HydrateAll(raw.positions, roles), raw.policies)
  }

  lemma {:induction false} FindRestored(users: seq<User>, id: string)
    ensures FindUser(RestoreOwners(users), id) == match FindUser(users, id)
      case None => None
      case Some(user) => Some(if user.id == "owner" then RestoreOwner(user) else user)
    decreases |users|
  {
    if users != [] {
      FindRestored(users[1..], id);
      assert RestoreOwners(users)[1..] == RestoreOwners(users[1..]);
    }
  }

  /** After a read a user passes the check for administering users exactly under that condition;
      so the registry is locked exactly when no loaded user meets it. */
  lemma AdminAfterRead(raw: Registry, id: string)
    requires raw.roles != []
    ensures HasPermission(Read(Some(raw)), Some(id), "admin:users") <==>
      var found := FindUser(Loaded(raw).users, id); id != "" && found.Some? && AdminOnceRead(Loaded(raw), found.value)
  {
    hide HasActiveAdmin, FindUser, FindPosition, FindPolicy, RolePermissions;
    hide TopUp, DefaultRoles, LoadUsers, HydrateAll, RestoreOwners;
    var reg := Loaded(raw);
    assert Read(Some(raw)) == reg.(users := Recover(reg.users, reg.roles));
    FindRestored(reg.users, id);
  }

  /** Recovery asks for roles only: an active user whose admin role a policy overrides keeps it
      from running, and nobody can administer. */
  lemma OverriddenAdminLocksOut(raw: Registry, admin: User)
    requires raw.roles != [] && Loaded(raw).users == [admin] && admin.active && admin.id != ""
    requires exists r :: r in Loaded(raw).roles && r.id == admin.roleId && GrantsAdmin(r.permissions)
    requires Override(Loaded(raw), admin).Some? && !GrantsAdmin(Override(Loaded(raw), admin).value)
    ensures forall id :: !HasPermission(Read(Some(raw)), Some(id), "admin:users")
    ensures HasActiveAdmin(Read(Some(raw)).users, Read(Some(raw)).roles)
  {
    hide FindPosition, FindPolicy, RolePermissions, TopUp, DefaultRoles, LoadUsers, HydrateAll, GrantsAdmin, Override;
    var reg := Loaded(raw);
    assert admin in reg.users && [admin][1..] == [];
    assert HasActiveAdmin(reg.users, reg.roles);
    forall id ensures !HasPermission(Read(Some(raw)), Some(id), "admin:users") {
      AdminAfterRead(raw, id);
      FoundAlone(admin, id);
    }
  }

  lemma FoundAlone(user: User, id: string)
    ensures FindUser([user], id) == if user.id == id then Some(user) else None
  {
    assert [user][1..] == [];
  }
}
