/** The registry store: every method reads the stored document, changes it and writes it back. */
module AccessStore {
  import opened PythonText
  import opened Wrappers
  import opened Sublists
  import opened DepartmentForest
  import opened AccessControl
  import opened AccessRules
  import opened AccessGrants

  function WithoutRole(roles: seq<Role>, id: string): seq<Role> {
    if roles == [] then []
    else WithoutRole(roles[..|roles| - 1], id) + if roles[|roles| - 1].id != id then [roles[|roles| - 1]] else []
  }

  function WithoutUser(users: seq<User>, id: string): seq<User> {
    if users == [] then []
    else WithoutUser(users[..|users| - 1], id) + if users[|users| - 1].id != id then [users[|users| - 1]] else []
  }

  function WithoutPosition(positions: seq<Position>, id: string): (r: seq<Position>)
    ensures forall p :: p in r <==> p in positions && p.id != id
  {
    if positions == [] then []
    else
      var last := positions[|positions| - 1];
      assert positions == positions[..|positions| - 1] + [last];
      WithoutPosition(positions[..|positions| - 1], id) + if last.id != id then [last] else []
  }

  predicate DefaultRoleId(id: string) {
    id in {"owner", "manager", "staff", "viewer"}
  }

  /** `{dept.id: dept for dept in departments if dept.id != id}`. */
  function Others(ds: seq<Department>, id: string): map<string, Department> {
    if ds == [] then map[]
    else
      var last := ds[|ds| - 1];
      if last.id == id then Others(ds[..|ds| - 1], id) else Others(ds[..|ds| - 1], id)[last.id := last]
  }

  lemma {:induction false} OthersMeaning(ds: seq<Department>, id: string)
    ensures ParentOf(Others(ds, id)) == Parents(ds) - {id} && id !in Others(ds, id)
    ensures forall e | e in Others(ds, id) :: Others(ds, id)[e].id == e
    decreases |ds|
  {
    if ds != [] {
      var front, last := ds[..|ds| - 1], ds[|ds| - 1];
      OthersMeaning(front, id);
      if last.id == id {
        assert Parents(front)[id := last.parentId] - {id} == Parents(front) - {id};
      } else {
        assert ParentOf(Others(front, id)[last.id := last]) == ParentOf(Others(front, id))[last.id := last.parentId];
        assert Parents(front)[last.id := last.parentId] - {id} == (Parents(front) - {id})[last.id := last.parentId];
      }
    }
  }

  lemma OthersKeys(ds: seq<Department>, id: string, other: string)
    ensures other in Others(ds, id) <==> other != id && exists d :: d in ds && d.id == other
  {
    hide Others, Parents;
    OthersMeaning(ds, id);
    ParentsKeys(ds);
    assert other in Others(ds, id) <==> other in ParentOf(Others(ds, id));
  }

  lemma {:induction false} WithoutRoleKeeps(roles: seq<Role>, id: string, other: string)
    requires other != id
    ensures FindRole(WithoutRole(roles, id), other) == FindRole(roles, other)
    decreases |roles|
  {
    if roles != [] {
      var front, last := roles[..|roles| - 1], roles[|roles| - 1];
      WithoutRoleKeeps(front, id, other);
      FindRoleSnoc(front, last, other);
      assert roles == front + [last];
      FindRoleSnoc(WithoutRole(front, id), last, other);
      assert WithoutRole(front, id) + [] == WithoutRole(front, id);
    }
  }

  lemma {:induction false} WithoutRoleMeaning(roles: seq<Role>, id: string)
    ensures Keeps(roles, WithoutRole(roles, id), (r: Role) => r.id != id)
    ensures forall other :: FindRole(WithoutRole(roles, id), other) == if other == id then None
        else FindRole(roles, other)
    decreases |roles|
  {
    hide Keeps;
    if roles == [] {
      KeepsNothing((r: Role) => r.id != id);
    } else {
      var front, last := roles[..|roles| - 1], roles[|roles| - 1];
      WithoutRoleMeaning(front, id);
      KeepsSnoc(front, WithoutRole(front, id), (r: Role) => r.id != id, last);
      assert roles == front + [last] && WithoutRole(front, id) + [] == WithoutRole(front, id);
      forall other ensures FindRole(WithoutRole(roles, id), other) == if other == id then None
          else FindRole(roles, other) {
        FindRoleSnoc(front, last, other);
        FindRoleSnoc(WithoutRole(front, id), last, other);
      }
    }
  }

  lemma {:induction false} FindUserSnoc(users: seq<User>, user: User, id: string)
    ensures FindUser(users + [user], id) ==
            if FindUser(users, id).Some? then FindUser(users, id) else if user.id == id then Some(user) else None
    decreases |users|
  {
    if users == [] {
      assert [] + [user] == [user];
    } else {
      assert (users + [user])[1..] == users[1..] + [user];
      FindUserSnoc(users[1..], user, id);
    }
  }

  lemma {:induction false} WithoutUserMeaning(users: seq<User>, id: string)
    ensures Keeps(users, WithoutUser(users, id), (u: User) => u.id != id)
    ensures forall other :: FindUser(WithoutUser(users, id), other) == if other == id then None
        else FindUser(users, other)
    decreases |users|
  {
    hide Keeps;
    if users == [] {
      KeepsNothing((u: User) => u.id != id);
    } else {
      var front, last := users[..|users| - 1], users[|users| - 1];
      WithoutUserMeaning(front, id);
      KeepsSnoc(front, WithoutUser(front, id), (u: User) => u.id != id, last);
      assert users == front + [last] && WithoutUser(front, id) + [] == WithoutUser(front, id);
      forall other ensures FindUser(WithoutUser(users, id), other) == if other == id then None
          else FindUser(users, other) {
        FindUserSnoc(front, last, other);
        FindUserSnoc(WithoutUser(front, id), last, other);
      }
    }
  }

  lemma {:induction false} WithoutPositionMeaning(positions: seq<Position>, id: string)
    ensures Keeps(positions, WithoutPosition(positions, id), (p: Position) => p.id != id)
    decreases |positions|
  {
    hide Keeps;
    if positions == [] {
      KeepsNothing((p: Position) => p.id != id);
    } else {
      var front, last := positions[..|positions| - 1], positions[|positions| - 1];
      WithoutPositionMeaning(front, id);
      KeepsSnoc(front, WithoutPosition(front, id), (p: Position) => p.id != id, last);
      assert positions == front + [last];
    }
  }

  /** The policies that are not for this department and position. */
  function NotFor(department: string, position: string): Policy -> bool {
    (p: Policy) => p.departmentId != department || p.positionId != position
  }

  lemma {:induction false} WithoutPolicyMeaning(policies: seq<Policy>, department: string, position: string)
    ensures Keeps(policies, WithoutPolicy(policies, department, position), NotFor(department, position))
    decreases |policies|
  {
    hide Keeps;
    if policies == [] {
      KeepsNothing(NotFor(department, position));
    } else {
      var front, last := policies[..|policies| - 1], policies[|policies| - 1];
      WithoutPolicyMeaning(front, department, position);
      KeepsSnoc(front, WithoutPolicy(front, department, position), NotFor(department, position), last);
      assert policies == front + [last];
    }
  }

  lemma {:induction false} WithoutDepartmentMeaning(ds: seq<Department>, id: string)
    ensures Keeps(ds, Without(ds, id), (d: Department) => d.id != id)
    decreases |ds|
  {
    hide Keeps;
    if ds == [] {
      KeepsNothing((d: Department) => d.id != id);
    } else {
      var front, last := ds[..|ds| - 1], ds[|ds| - 1];
      WithoutDepartmentMeaning(front, id);
      KeepsSnoc(front, Without(front, id), (d: Department) => d.id != id, last);
      assert ds == front + [last];
    }
  }

  /** The department that is left of this one when `id` is deleted: a child becomes a root. */
  ghost predicate LeftOf(d: Department, id: string, after: Department) {
    after == Department(d.id, d.name, d.description, d.leadUserId, if d.parentId == id then "" else d.parentId)
  }

  /** Deletion keeps the order of the others. */
  ghost predicate DeletedInOrder(before: seq<Department>, after: seq<Department>, id: string) {
    exists kept :: Keeps(before, kept, (d: Department) => d.id != id) && |kept| == |after|
      && forall k | 0 <= k < |kept| :: LeftOf(kept[k], id, after[k])
  }

  lemma {:induction false} DeletedOneByOne(ds: seq<Department>, id: string)
    ensures var kept, after := Without(ds, id), Deleted(ds, id);
            |kept| == |after| && forall k | 0 <= k < |kept| :: LeftOf(kept[k], id, after[k])
    decreases |ds|
  {
    if ds != [] { DeletedOneByOne(ds[..|ds| - 1], id); }
  }

  lemma DeletedMeaning(ds: seq<Department>, id: string)
    ensures DeletedInOrder(ds, Deleted(ds, id), id)
  {
    hide Keeps, Without, Deleted, LeftOf;
    WithoutDepartmentMeaning(ds, id);
    DeletedOneByOne(ds, id);
  }

  /** There is only one such list. */
  lemma DeletedOnlyOne(before: seq<Department>, a: seq<Department>, b: seq<Department>, id: string)
    requires DeletedInOrder(before, a, id) && DeletedInOrder(before, b, id)
    ensures a == b
  {
    hide Keeps;
    var keep := (d: Department) => d.id != id;
    var k :| Keeps(before, k, keep) && |k| == |a| && forall i | 0 <= i < |k| :: LeftOf(k[i], id, a[i]);
    var l :| Keeps(before, l, keep) && |l| == |b| && forall i | 0 <= i < |l| :: LeftOf(l[i], id, b[i]);
    KeepsOnlyOne(before, k, l, keep);
  }

  /** Where the written department's parent is, and whether its chain ends. */
  lemma UpsertCondition(ds: seq<Department>, d: Department)
    requires Forest(ds) && NonBlank(d.id)
    ensures "" !in Others(ds, d.id) && d.id != ""
    ensures Forest(Upserted(ds, d)) <==>
      d.parentId == "" || (d.parentId != d.id && d.parentId in Others(ds, d.id)
                           && EndsAtRoot(ParentOf(Others(ds, d.id))[d.id := d.parentId], d.id))
  {
    hide Upserted, Parents, Others, NonBlank;
    var p := ParentOf(Others(ds, d.id))[d.id := d.parentId];
    NonBlankIsNotEmpty(d.id);
    OthersMeaning(ds, d.id);
    UpsertedParents(ds, d);
    UpsertKeepsForest(ds, d);
    BlankIsNotAnId(ds);
    assert forall id :: id in Others(ds, d.id) <==> id in ParentOf(Others(ds, d.id));
    if d.parentId == "" {
      assert Up(p, d.id, 0) == d.id;
      assert Up(p, d.id, 1) == "";
    }
    if d.parentId == d.id {
      assert Up(p, d.id, 0) == d.id && Up(p, d.id, 1) == d.id;
      forall n: nat ensures Up(p, d.id, n) != "" { RepeatedNeverEnds(p, d.id, 0, 1, n); }
    }
  }

  lemma NonBlankIsNotEmpty(id: string)
    requires NonBlank(id)
    ensures id != ""
  {
  }

  class AccessControlStore {
    var stored: Option<Registry>

    /** What reading yields is a forest of departments, and reading is stable under writing back. */
    ghost predicate Valid()
      reads this
    {
      Reachable(stored)
    }

    constructor ()
      ensures Valid() && stored == None
    {
      stored := None;
    }

    method ReadPayload() returns (payload: Registry)
      ensures payload == Read(stored)
    {
      hide HasActiveAdmin;
      if stored.None? || |stored.value.roles| == 0 { return DefaultRegistry(); }
      var raw := stored.value;
      var roles, defaults := raw.roles, DefaultRoles();
      for n := 0 to |defaults|
        invariant roles == TopUp(raw.roles, defaults[..n])
      {
        assert defaults[..n + 1][..n] == defaults[..n];
        if FindRole(roles, defaults[n].id).None? { roles := roles + [defaults[n]]; }
      }
      assert defaults[..|defaults|] == defaults;
      payload := Registry(roles, Recover(LoadUsers(raw.users), roles), raw.departments,
          HydrateAll(raw.positions, roles), raw.policies);
    }

    /** `_write_payload`: what the methods write they read back as it is. */
    method WritePayload(payload: Registry)
      requires payload.roles != [] && Forest(payload.departments)
      requires forall p | p in payload.positions :: StoredPosition(p)
      modifies this
      ensures Valid() && stored == Some(Write(payload)) == Some(payload)
    {
      hide Forest, Allowed;
      WriteIsReachable(payload);
      WriteMeaning(payload);
      assert forall i | 0 <= i < |payload.positions| :: payload.positions[i] in payload.positions;
      assert Write(payload).positions == payload.positions;
      stored := Some(Write(payload));
    }

    method UpsertRole(role: Role)
      requires Valid()
      modifies this
      ensures Valid()
      ensures var was := Read(old(stored)); stored == Some(was.(roles := WithoutRole(was.roles, role.id) + [role]))
      ensures var was, now := Read(old(stored)).roles, stored.value.roles;
              && Replaces(was, now, (r: Role) => r.id != role.id, role)
              && forall id :: FindRole(now, id) == if id == role.id then Some(role) else FindRole(was, id)
    {
      hide Read, Write, Forest, Keeps, Replaces, StoredPosition, FindRole;
      var payload := ReadPayload();
      ReadKeepsForest(stored);
      var others := WithoutRole(payload.roles, role.id);
      WithoutRoleMeaning(payload.roles, role.id);
      AppendReplaces(payload.roles, others, (r: Role) => r.id != role.id, role);
      forall id { FindRoleSnoc(others, role, id); }
      WritePayload(payload.(roles := others + [role]));
    }

    method DeleteRole(roleId: string) returns (r: Result<()>)
      requires Valid()
      modifies this
      ensures Valid()
      ensures r.Err? ==> r.message == "default roles cannot be deleted"
      ensures r.Ok? <==> roleId != "owner" && roleId != "manager" && roleId != "staff" && roleId != "viewer"
      ensures var was := Read(old(stored));
              stored == if r.Ok? then Some(was.(roles := WithoutRole(was.roles, roleId))) else old(stored)
      ensures r.Ok? ==>
        var was, now := Read(old(stored)).roles, stored.value.roles;
        && Keeps(was, now, (e: Role) => e.id != roleId)
        && forall id :: FindRole(now, id) == if id == roleId then None else FindRole(was, id)
    {
      hide Write, Forest, Recover, HydrateAll, Keeps, StoredPosition, FindRole, TopUp;
      var payload := ReadPayload();
      if DefaultRoleId(roleId) { return Err("default roles cannot be deleted"); }
      ReadKeepsForest(stored);
      OwnerStays(stored, roleId);
      WithoutRoleMeaning(payload.roles, roleId);
      WritePayload(payload.(roles := WithoutRole(payload.roles, roleId)));
      r := Ok(());
    }

    method UpsertUser(user: User)
      requires Valid()
      modifies this
      ensures Valid()
      ensures var was := Read(old(stored)); stored == Some(was.(users := WithoutUser(was.users, user.id) + [user]))
      ensures var was, now := Read(old(stored)).users, stored.value.users;
              && Replaces(was, now, (u: User) => u.id != user.id, user)
              && forall id :: FindUser(now, id) == if id == user.id then Some(user) else FindUser(was, id)
    {
      hide Read, Write, Forest, Keeps, Replaces, StoredPosition, FindUser;
      var payload := ReadPayload();
      ReadKeepsForest(stored);
      ReadHasRoles(stored);
      var others := WithoutUser(payload.users, user.id);
      WithoutUserMeaning(payload.users, user.id);
      AppendReplaces(payload.users, others, (u: User) => u.id != user.id, user);
      forall id { FindUserSnoc(others, user, id); }
      WritePayload(payload.(users := others + [user]));
    }

    method DeleteUser(userId: string)
      requires Valid()
      modifies this
      ensures Valid()
      ensures var was := Read(old(stored)); stored == Some(was.(users := WithoutUser(was.users, userId)))
      ensures var was, now := Read(old(stored)).users, stored.value.users;
              && Keeps(was, now, (u: User) => u.id != userId)
              && forall id :: FindUser(now, id) == if id == userId then None else FindUser(was, id)
    {
      hide Read, Write, Forest, Keeps, StoredPosition, FindUser;
      var payload := ReadPayload();
      ReadKeepsForest(stored);
      ReadHasRoles(stored);
      WithoutUserMeaning(payload.users, userId);
      WritePayload(payload.(users := WithoutUser(payload.users, userId)));
    }

    /** A non-blank department is accepted exactly when the result is still a forest. */
    method UpsertDepartment(d: Department) returns (r: Result<()>)
      requires Valid()
      modifies this
      ensures Valid()
      ensures r.Ok? <==> Strip(d.id) != "" && Forest(Upserted(Read(old(stored)).departments, d))
      ensures r.Err? ==>
        r.message == if Strip(d.id) == "" then "department id is required"
                     else if d.parentId == d.id then "department cannot be its own parent"
                     else if forall e | e in Read(old(stored)).departments :: e.id != d.parentId
                     then "parent department does not exist" else "department hierarchy cannot contain a cycle"
      ensures var was := Read(old(stored));
              stored == if r.Ok? then Some(was.(departments := Upserted(was.departments, d))) else old(stored)
      ensures r.Ok? ==>
        Replaces(Read(old(stored)).departments, stored.value.departments, (e: Department) => e.id != d.id, d)
    {
      hide Read, Write, Forest, Strip, Others, Keeps, Replaces, StoredPosition, Without;
      if !NonBlank(d.id) { return Err("department id is required"); }
      var payload := ReadPayload();
      ReadKeepsForest(stored);
      ReadHasRoles(stored);
      UpsertCondition(payload.departments, d);
      if d.parentId != "" {
        if d.parentId == d.id { return Err("department cannot be its own parent"); }
        var others := Others(payload.departments, d.id);
        OthersMeaning(payload.departments, d.id);
        OthersKeys(payload.departments, d.id, d.parentId);
        if d.parentId !in others { return Err("parent department does not exist"); }
        var ends := ChainEnds(others, d);
        if !ends { return Err("department hierarchy cannot contain a cycle"); }
      }
      WithoutDepartmentMeaning(payload.departments, d.id);
      AppendReplaces(payload.departments, Without(payload.departments, d.id), (e: Department) => e.id != d.id, d);
      WritePayload(payload.(departments := Upserted(payload.departments, d)));
      r := Ok(());
    }

    /** The children of a deleted department become roots. */
    method DeleteDepartment(departmentId: string)
      requires Valid()
      modifies this
      ensures Valid()
      ensures var was := Read(old(stored)); stored == Some(was.(departments := Deleted(was.departments, departmentId)))
      ensures DeletedInOrder(Read(old(stored)).departments, stored.value.departments, departmentId)
    {
      hide Read, Write, Forest, DeletedInOrder, StoredPosition;
      var payload := ReadPayload();
      ReadKeepsForest(stored);
      ReadHasRoles(stored);
      var ds := payload.departments;
      var remaining: seq<Department> := [];
      for n := 0 to |ds|
        invariant remaining == Deleted(ds[..n], departmentId)
      {
        assert ds[..n + 1][..n] == ds[..n];
        if ds[n].id != departmentId {
          remaining := remaining + if ds[n].parentId == departmentId then [ds[n].(parentId := "")] else [ds[n]];
        }
      }
      assert ds[..|ds|] == ds;
      DeleteKeepsForest(ds, departmentId);
      DeletedMeaning(ds, departmentId);
      WritePayload(payload.(departments := remaining));
    }

    method UpsertPosition(position: Position) returns (r: Result<()>)
      requires Valid()
      modifies this
      ensures Valid()
      ensures r.Ok? <==> Strip(position.id) != ""
      ensures r.Err? ==> r.message == "position id is required"
      ensures var was := Read(old(stored));
              stored == if r.Ok?
                        then Some(was.(positions := WithoutPosition(was.positions, position.id)
                            + [Hydrate(position, was.roles)]))
                        else old(stored)
      ensures r.Ok? ==>
        var was := Read(old(stored));
        Replaces(was.positions, stored.value.positions, (p: Position) => p.id != position.id,
            Hydrate(position, was.roles))
    {
      hide Read, Write, Forest, Hydrate, Strip, StoredPosition, Keeps, Replaces;
      if !NonBlank(position.id) { return Err("position id is required"); }
      var payload := ReadPayload();
      ReadKeepsForest(stored);
      ReadHasRoles(stored);
      HydratedIsStored(position, payload.roles);
      var others, hydrated := WithoutPosition(payload.positions, position.id), Hydrate(position, payload.roles);
      WithoutPositionMeaning(payload.positions, position.id);
      AppendReplaces(payload.positions, others, (p: Position) => p.id != position.id, hydrated);
      WritePayload(payload.(positions := others + [hydrated]));
      r := Ok(());
    }

    method DeletePosition(positionId: string)
      requires Valid()
      modifies this
      ensures Valid()
      ensures var was := Read(old(stored));
              stored == Some(was.(positions := WithoutPosition(was.positions, positionId)))
      ensures Keeps(Read(old(stored)).positions, stored.value.positions, (p: Position) => p.id != positionId)
    {
      hide Read, Write, Forest, StoredPosition, Keeps;
      var payload := ReadPayload();
      ReadKeepsForest(stored);
      ReadHasRoles(stored);
      WithoutPositionMeaning(payload.positions, positionId);
      WritePayload(payload.(positions := WithoutPosition(payload.positions, positionId)));
    }

    method UpsertDepartmentPermission(policy: Policy) returns (r: Result<()>)
      requires Valid()
      modifies this
      ensures Valid()
      ensures r.Ok? <==> Strip(policy.departmentId) != "" && Strip(policy.positionId) != ""
      ensures r.Err? ==> r.message == "department_id and position_id are required"
      ensures var was := Read(old(stored));
              stored == if r.Ok? then Some(was.(policies := SetPolicy(was.policies, policy))) else old(stored)
      ensures r.Ok? ==>
        exists granted ::
          && Keeps(policy.permissions, granted, (q: string) => Allowed(q))
          && Replaces(Read(old(stored)).policies, stored.value.policies, NotFor(policy.departmentId, policy.positionId),
                      Policy(policy.departmentId, policy.positionId, granted))
    {
      hide Read, Write, Forest, Strip, StoredPosition, Keeps, Replaces, Allowed, OnlyAllowed, WithoutPolicy;
      if !NonBlank(policy.departmentId) || !NonBlank(policy.positionId) {
        return Err("department_id and position_id are required");
      }
      var payload := ReadPayload();
      ReadKeepsForest(stored);
      ReadHasRoles(stored);
      var others := WithoutPolicy(payload.policies, policy.departmentId, policy.positionId);
      var normalized := Policy(policy.departmentId, policy.positionId, OnlyAllowed(policy.permissions));
      OnlyAllowedKeeps(policy.permissions);
      WithoutPolicyMeaning(payload.policies, policy.departmentId, policy.positionId);
      AppendReplaces(payload.policies, others, NotFor(policy.departmentId, policy.positionId), normalized);
      WritePayload(payload.(policies := SetPolicy(payload.policies, policy)));
      r := Ok(());
    }

    method CheckPermission(userId: Option<string>, permission: string) returns (granted: bool)
      ensures granted == HasPermission(Read(stored), userId, permission)
    {
      hide Read;
      var payload := ReadPayload();
      granted := HasPermission(payload, userId, permission);
    }
  }

  lemma {:induction false} OwnerStays(stored: Option<Registry>, roleId: string)
    requires !DefaultRoleId(roleId)
    ensures WithoutRole(Read(stored).roles, roleId) != []
  {
    hide WithoutRole, Recover, HydrateAll;
    var roles := Read(stored).roles;
    var owner := DefaultRoles()[0];
    if stored.Some? && stored.value.roles != [] { TopUpMeaning(stored.value.roles, DefaultRoles(), owner.id); }
    WithoutRoleKeeps(roles, roleId, owner.id);
    assert FindRole(WithoutRole(roles, roleId), owner.id).Some?;
  }
}
