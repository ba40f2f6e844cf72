/** Accounts, sessions and account requests: what a token resolves to over any run of the store. */
module AuthSessions {
  import opened PythonText
  import opened Sublists
  import opened Wrappers

  datatype User = User(id: string, displayName: string, passwordHash: string, active: bool)

  /** A token is known by its hash; hashes of different tokens differ. */
  datatype Session = Session(tokenHash: string, userId: string, expiresAt: int)

  datatype Status = Pending | Approved | Rejected

  datatype Request = Request(id: string, userId: string, displayName: string, title: string, passwordHash: string,
                             status: Status, createdAt: int, decidedAt: int, decidedBy: string)

  datatype Payload = Payload(users: seq<User>, sessions: seq<Session>, requests: seq<Request>)

  /** Twelve hours, in seconds. */
  const SESSION_TTL: int := 43200

  // ----- What the methods compute -----

  function FindUser(users: seq<User>, id: string): Option<User> {
    if users == [] then None else if users[0].id == id then Some(users[0]) else FindUser(users[1..], id)
  }

  function WithoutUser(users: seq<User>, id: string): seq<User> {
    if users == [] then []
    else WithoutUser(users[..|users| - 1], id) + if users[|users| - 1].id != id then [users[|users| - 1]] else []
  }

  function WithoutSessionsOf(sessions: seq<Session>, userId: string): seq<Session> {
    if sessions == [] then []
    else
      var last := sessions[|sessions| - 1];
      WithoutSessionsOf(sessions[..|sessions| - 1], userId) + if last.userId != userId then [last] else []
  }

  function WithoutToken(sessions: seq<Session>, tokenHash: string): seq<Session> {
    if sessions == [] then []
    else
      var last := sessions[|sessions| - 1];
      WithoutToken(sessions[..|sessions| - 1], tokenHash) + if last.tokenHash != tokenHash then [last] else []
  }

  /** `_active_sessions`. */
  function ActiveSessions(sessions: seq<Session>, now: int): seq<Session> {
    if sessions == [] then []
    else
      var last := sessions[|sessions| - 1];
      ActiveSessions(sessions[..|sessions| - 1], now) + if last.expiresAt > now then [last] else []
  }

  function FindSession(sessions: seq<Session>, tokenHash: string): Option<Session> {
    if sessions == [] then None
    else if sessions[0].tokenHash == tokenHash then Some(sessions[0])
    else FindSession(sessions[1..], tokenHash)
  }

  /** The user a token stands for. */
  function Resolve(p: Payload, tokenHash: string, now: int): Option<string> {
    match FindSession(ActiveSessions(p.sessions, now), tokenHash)
    case None => None
    case Some(session) =>
      match FindUser(p.users, session.userId)
      case None => None
      case Some(user) => if user.active then Some(user.id) else None
  }

  /** What Python's `isalnum` says of a character. */
  type AlphaNumeric = char -> bool

  predicate ValidUserId(isalnum: AlphaNumeric, id: string) {
    id != "" && forall i | 0 <= i < |id| :: isalnum(id[i]) || id[i] in {'.', '_', '-'}
  }

  const BAD_ID := "user id may contain only letters, numbers, dot, underscore, and hyphen"
  const NO_NAME := "display name is required"
  const ID_TAKEN := "user id already exists"
  const ID_WAITING := "account request is already pending"
  const SHORT_PASSWORD := "password must be at least 8 characters"

  lemma ValidIds(isalnum: AlphaNumeric, id: string)
    ensures ValidUserId(isalnum, id) <==>
      |id| > 0 && forall c: char :: c in id ==> c == '.' || c == '_' || c == '-' || isalnum(c)
  {
    assert forall i | 0 <= i < |id| :: id[i] in id;
  }

  // ----- What the lists hold -----

  lemma {:induction false} WithoutUserKeeps(users: seq<User>, id: string)
    ensures Keeps(users, WithoutUser(users, id), (u: User) => u.id != id)
    decreases |users|
  {
    hide Keeps;
    var keep := (u: User) => u.id != id;
    if users == [] {
      KeepsNothing(keep);
    } else {
      var front, last := users[..|users| - 1], users[|users| - 1];
      WithoutUserKeeps(front, id);
      KeepsSnoc(front, WithoutUser(front, id), keep, last);
      assert users == front + [last];
    }
  }

  lemma {:induction false} WithoutTokenKeeps(sessions: seq<Session>, tokenHash: string)
    ensures Keeps(sessions, WithoutToken(sessions, tokenHash), (s: Session) => s.tokenHash != tokenHash)
    decreases |sessions|
  {
    hide Keeps;
    var keep := (s: Session) => s.tokenHash != tokenHash;
    if sessions == [] {
      KeepsNothing(keep);
    } else {
      var front, last := sessions[..|sessions| - 1], sessions[|sessions| - 1];
      WithoutTokenKeeps(front, tokenHash);
      KeepsSnoc(front, WithoutToken(front, tokenHash), keep, last);
      assert sessions == front + [last];
    }
  }

  lemma {:induction false} WithoutSessionsKeeps(sessions: seq<Session>, userId: string)
    ensures Keeps(sessions, WithoutSessionsOf(sessions, userId), (s: Session) => s.userId != userId)
    decreases |sessions|
  {
    hide Keeps;
    var keep := (s: Session) => s.userId != userId;
    if sessions == [] {
      KeepsNothing(keep);
    } else {
      var front, last := sessions[..|sessions| - 1], sessions[|sessions| - 1];
      WithoutSessionsKeeps(front, userId);
      KeepsSnoc(front, WithoutSessionsOf(front, userId), keep, last);
      assert sessions == front + [last];
    }
  }

  lemma {:induction false} ActiveKeeps(sessions: seq<Session>, now: int)
    ensures Keeps(sessions, ActiveSessions(sessions, now), (s: Session) => now < s.expiresAt)
    decreases |sessions|
  {
    hide Keeps;
    var keep := (s: Session) => now < s.expiresAt;
    if sessions == [] {
      KeepsNothing(keep);
    } else {
      var front, last := sessions[..|sessions| - 1], sessions[|sessions| - 1];
      ActiveKeeps(front, now);
      KeepsSnoc(front, ActiveSessions(front, now), keep, last);
      assert sessions == front + [last];
    }
  }

  lemma {:induction false} ActiveMembers(sessions: seq<Session>, now: int)
    ensures forall s :: s in ActiveSessions(sessions, now) <==> s in sessions && s.expiresAt > now
    decreases |sessions|
  {
    if sessions != [] {
      ActiveMembers(sessions[..|sessions| - 1], now);
      assert sessions == sessions[..|sessions| - 1] + [sessions[|sessions| - 1]];
    }
  }

  lemma {:induction false} ActiveLength(sessions: seq<Session>, now: int)
    ensures |ActiveSessions(sessions, now)| <= |sessions|
    ensures |ActiveSessions(sessions, now)| == |sessions| ==> ActiveSessions(sessions, now) == sessions
    decreases |sessions|
  {
    if sessions != [] {
      ActiveLength(sessions[..|sessions| - 1], now);
      assert sessions == sessions[..|sessions| - 1] + [sessions[|sessions| - 1]];
    }
  }

  lemma {:induction false} WithoutTokenMembers(sessions: seq<Session>, tokenHash: string)
    ensures forall s :: s in WithoutToken(sessions, tokenHash) <==> s in sessions && s.tokenHash != tokenHash
    decreases |sessions|
  {
    if sessions != [] {
      WithoutTokenMembers(sessions[..|sessions| - 1], tokenHash);
      assert sessions == sessions[..|sessions| - 1] + [sessions[|sessions| - 1]];
    }
  }

  lemma {:induction false} WithoutSessionsMembers(sessions: seq<Session>, userId: string)
    ensures forall s :: s in WithoutSessionsOf(sessions, userId) <==> s in sessions && s.userId != userId
    decreases |sessions|
  {
    if sessions != [] {
      WithoutSessionsMembers(sessions[..|sessions| - 1], userId);
      assert sessions == sessions[..|sessions| - 1] + [sessions[|sessions| - 1]];
    }
  }

  lemma {:induction false} WithoutUserMembers(users: seq<User>, id: string)
    ensures forall u :: u in WithoutUser(users, id) <==> u in users && u.id != id
    ensures |WithoutUser(users, id)| <= |users|
    ensures |WithoutUser(users, id)| == |users| <==> FindUser(users, id).None?
    decreases |users|
  {
    if users != [] {
      var front, last := users[..|users| - 1], users[|users| - 1];
      WithoutUserMembers(front, id);
      assert users == front + [last];
      FoundUser(users, id);
      FoundUser(front, id);
    }
  }

  lemma {:induction false} SameLength(users: seq<User>, id: string)
    requires |WithoutUser(users, id)| == |users|
    ensures WithoutUser(users, id) == users
    decreases |users|
  {
    if users != [] {
      var front := users[..|users| - 1];
      WithoutUserMembers(front, id);
      SameLength(front, id);
    }
  }

  lemma {:induction false} FoundUser(users: seq<User>, id: string)
    ensures FindUser(users, id).Some? <==> exists u :: u in users && u.id == id
    ensures FindUser(users, id).Some? ==> FindUser(users, id).value in users && FindUser(users, id).value.id == id
    decreases |users|
  {
    if users != [] {
      FoundUser(users[1..], id);
      assert users == [users[0]] + users[1..];
    }
  }

  lemma {:induction false} FoundSession(sessions: seq<Session>, tokenHash: string)
    ensures FindSession(sessions, tokenHash).Some? <==> exists s :: s in sessions && s.tokenHash == tokenHash
    ensures FindSession(sessions, tokenHash).Some? ==>
      FindSession(sessions, tokenHash).value in sessions
          && FindSession(sessions, tokenHash).value.tokenHash == tokenHash
    decreases |sessions|
  {
    if sessions != [] {
      FoundSession(sessions[1..], tokenHash);
      assert sessions == [sessions[0]] + sessions[1..];
    }
  }

  // ----- History -----

  /** The events of a run that sessions depend on. */
  datatype Event =
    | Issued(tokenHash: string, userId: string, at: int)
    | Revoked(tokenHash: string)
    | Deleted(userId: string)

  /** Event i issued this session, and nothing since has revoked the token or deleted the user. */
  predicate StandsSince(log: seq<Event>, i: nat, s: Session) {
    && i < |log| && log[i] == Issued(s.tokenHash, s.userId, s.expiresAt - SESSION_TTL)
    && forall j | i < j < |log| :: log[j] != Revoked(s.tokenHash) && log[j] != Deleted(s.userId)
  }

  ghost predicate Stands(log: seq<Event>, s: Session) {
    exists i: nat :: StandsSince(log, i, s)
  }

  /** Tokens are issued once. */
  ghost predicate FreshTokens(log: seq<Event>) {
    forall i, j | 0 <= i < j < |log| && log[i].Issued? && log[j].Issued? :: log[i].tokenHash != log[j].tokenHash
  }

  /** The stored sessions are the standing ones, save some that have expired by `clock`. */
  ghost predicate SessionsAgree(sessions: seq<Session>, log: seq<Event>, clock: int) {
    && (forall s | s in sessions :: Stands(log, s))
    && (forall s | Stands(log, s) && s.expiresAt > clock :: s in sessions)
  }

  ghost predicate SessionUsersExist(p: Payload) {
    forall s | s in p.sessions :: FindUser(p.users, s.userId).Some?
  }

  ghost predicate UniqueUsers(users: seq<User>) {
    forall u, v | u in users && v in users && u.id == v.id :: u == v
  }

  /** No user id has two requests waiting, and request ids are distinct. */
  ghost predicate RequestsOk(requests: seq<Request>) {
    && (forall i, j | 0 <= i < j < |requests| :: requests[i].id != requests[j].id)
    && (forall i, j | 0 <= i < j < |requests| && requests[i].status.Pending? && requests[j].status.Pending? ::
          requests[i].userId != requests[j].userId)
  }

  ghost predicate Inv(p: Payload, log: seq<Event>, clock: int) {
    && FreshTokens(log) && SessionsAgree(p.sessions, log, clock)
    && SessionUsersExist(p) && UniqueUsers(p.users) && RequestsOk(p.requests)
  }

  lemma StandsNext(log: seq<Event>, e: Event, s: Session)
    ensures Stands(log + [e], s) <==>
      || (Stands(log, s) && e != Revoked(s.tokenHash) && e != Deleted(s.userId))
      || e == Issued(s.tokenHash, s.userId, s.expiresAt - SESSION_TTL)
  {
    var next := log + [e];
    if Stands(next, s) {
      var i: nat :| StandsSince(next, i, s);
      if i < |log| {
        assert next[|log|] == e;
        assert forall j | i < j < |log| :: next[j] == log[j];
        assert StandsSince(log, i, s);
      }
    }
    if Stands(log, s) && e != Revoked(s.tokenHash) && e != Deleted(s.userId) {
      var i: nat :| StandsSince(log, i, s);
      assert StandsSince(next, i, s);
    }
    if e == Issued(s.tokenHash, s.userId, s.expiresAt - SESSION_TTL) { assert StandsSince(next, |log|, s); }
  }

  /** One token, one session. */
  lemma StandingIsUnique(log: seq<Event>, s: Session, t: Session)
    requires FreshTokens(log) && Stands(log, s) && Stands(log, t) && s.tokenHash == t.tokenHash
    ensures s == t
  {
    var i: nat :| StandsSince(log, i, s);
    var j: nat :| StandsSince(log, j, t);
    assert i == j;
  }

  /** A token resolves to u exactly when it was issued to u less than twelve hours ago, neither
      revoked nor its user deleted since, and u is active now. */
  lemma ResolveMeaning(p: Payload, log: seq<Event>, clock: int, tokenHash: string, now: int, u: string)
    requires Inv(p, log, clock) && clock <= now
    ensures Resolve(p, tokenHash, now) == Some(u) <==>
      && (exists expiresAt: int :: Stands(log, Session(tokenHash, u, expiresAt)) && now < expiresAt)
      && FindUser(p.users, u).Some? && FindUser(p.users, u).value.active
  {
    hide FindUser, FindSession, ActiveSessions, Stands;
    ActiveMembers(p.sessions, now);
    FoundSession(ActiveSessions(p.sessions, now), tokenHash);
    var found := FindSession(ActiveSessions(p.sessions, now), tokenHash);
    if exists expiresAt: int :: Stands(log, Session(tokenHash, u, expiresAt)) && now < expiresAt {
      var expiresAt: int :| Stands(log, Session(tokenHash, u, expiresAt)) && now < expiresAt;
      var s := Session(tokenHash, u, expiresAt);
      assert s in p.sessions;
      assert found.Some?;
      StandingIsUnique(log, s, found.value);
      FoundUser(p.users, u);
    } else if found.Some? {
      FoundUser(p.users, found.value.userId);
      assert Session(tokenHash, found.value.userId, found.value.expiresAt) == found.value;
    }
  }

  /** The same said of the events themselves. */
  lemma StandingIsIssued(log: seq<Event>, tokenHash: string, u: string, now: int)
    ensures (exists expiresAt: int :: Stands(log, Session(tokenHash, u, expiresAt)) && now < expiresAt) <==>
      exists i: nat ::
        && i < |log| && log[i].Issued? && log[i].tokenHash == tokenHash && log[i].userId == u
        && now < log[i].at + 43200
        && forall j | i < j < |log| :: log[j] != Revoked(tokenHash) && log[j] != Deleted(u)
  {
    if exists expiresAt: int :: Stands(log, Session(tokenHash, u, expiresAt)) && now < expiresAt {
      var expiresAt: int :| Stands(log, Session(tokenHash, u, expiresAt)) && now < expiresAt;
      var i: nat :| StandsSince(log, i, Session(tokenHash, u, expiresAt));
      assert log[i] == Issued(tokenHash, u, expiresAt - 43200);
    }
    if i: nat :| i < |log| && log[i].Issued? && log[i].tokenHash == tokenHash && log[i].userId == u &&
                 now < log[i].at + 43200 &&
                 forall j | i < j < |log| :: log[j] != Revoked(tokenHash) && log[j] != Deleted(u)
    {
      assert StandsSince(log, i, Session(tokenHash, u, log[i].at + 43200));
      assert Stands(log, Session(tokenHash, u, log[i].at + 43200));
    }
  }

  lemma ResolvedByLog(p: Payload, log: seq<Event>, clock: int, tokenHash: string, now: int, u: string)
    requires Inv(p, log, clock) && clock <= now
    ensures Resolve(p, tokenHash, now) == Some(u) <==>
      && (exists i: nat ::
            && i < |log| && log[i].Issued? && log[i].tokenHash == tokenHash && log[i].userId == u
            && now < log[i].at + 43200
            && forall j | i < j < |log| :: log[j] != Revoked(tokenHash) && log[j] != Deleted(u))
      && exists account | account in p.users :: account.id == u && account.active
  {
    hide Resolve, FindUser, Stands, SessionsAgree;
    ResolveMeaning(p, log, clock, tokenHash, now, u);
    StandingIsIssued(log, tokenHash, u, now);
    FoundUser(p.users, u);
  }

  /** Dropping expired sessions never changes what any token resolves to, now or later. */
  lemma PruningIsInvisible(p: Payload, tokenHash: string, now: int, later: int)
    requires now <= later
    ensures Resolve(p.(sessions := ActiveSessions(p.sessions, now)), tokenHash, later) == Resolve(p, tokenHash, later)
  {
    ActiveOfActive(p.sessions, now, later);
  }

  lemma {:induction false} ActiveOfActive(sessions: seq<Session>, now: int, later: int)
    requires now <= later
    ensures ActiveSessions(ActiveSessions(sessions, now), later) == ActiveSessions(sessions, later)
    decreases |sessions|
  {
    if sessions != [] {
      var front, last := sessions[..|sessions| - 1], sessions[|sessions| - 1];
      ActiveOfActive(front, now, later);
      var kept := ActiveSessions(front, now);
      assert (kept + [last])[..|kept|] == kept;
      assert kept + [] == kept;
    }
  }

  // ----- Steps keep the invariant -----

  lemma PrunedAgrees(sessions: seq<Session>, log: seq<Event>, clock: int, now: int)
    requires SessionsAgree(sessions, log, clock) && clock <= now
    ensures SessionsAgree(ActiveSessions(sessions, now), log, now) && SessionsAgree(sessions, log, now)
  {
    hide Stands;
    ActiveMembers(sessions, now);
  }

  lemma IssueAgrees(sessions: seq<Session>, log: seq<Event>, now: int, s: Session)
    requires SessionsAgree(sessions, log, now) && s.expiresAt == now + SESSION_TTL
    ensures SessionsAgree(sessions + [s], log + [Issued(s.tokenHash, s.userId, now)], now)
  {
    hide Stands;
    var e := Issued(s.tokenHash, s.userId, now);
    forall t ensures Stands(log + [e], t) <==> Stands(log, t) || t == s { StandsNext(log, e, t); }
    assert forall t :: t in sessions + [s] <==> t in sessions || t == s;
  }

  lemma RevokeAgrees(sessions: seq<Session>, log: seq<Event>, now: int, tokenHash: string)
    requires SessionsAgree(sessions, log, now)
    ensures SessionsAgree(WithoutToken(sessions, tokenHash), log + [Revoked(tokenHash)], now)
  {
    hide Stands, WithoutToken;
    WithoutTokenMembers(sessions, tokenHash);
    forall t ensures Stands(log + [Revoked(tokenHash)], t) <==> Stands(log, t) && t.tokenHash != tokenHash {
      StandsNext(log, Revoked(tokenHash), t);
    }
  }

  lemma DeleteAgrees(sessions: seq<Session>, log: seq<Event>, now: int, userId: string)
    requires SessionsAgree(sessions, log, now)
    ensures SessionsAgree(WithoutSessionsOf(sessions, userId), log + [Deleted(userId)], now)
  {
    hide Stands, WithoutSessionsOf;
    WithoutSessionsMembers(sessions, userId);
    forall t ensures Stands(log + [Deleted(userId)], t) <==> Stands(log, t) && t.userId != userId {
      StandsNext(log, Deleted(userId), t);
    }
  }

  lemma WithoutUserFind(users: seq<User>, id: string, other: string)
    requires UniqueUsers(users)
    ensures UniqueUsers(WithoutUser(users, id))
    ensures FindUser(WithoutUser(users, id), other) == if other == id then None else FindUser(users, other)
  {
    hide WithoutUser, FindUser;
    WithoutUserMembers(users, id);
    FoundUser(users, other);
    FoundUser(WithoutUser(users, id), other);
  }

  lemma AddUserFind(users: seq<User>, user: User, other: string)
    requires UniqueUsers(users) && FindUser(users, user.id).None?
    ensures UniqueUsers(users + [user])
    ensures FindUser(users + [user], other) == if other == user.id then Some(user) else FindUser(users, other)
  {
    hide FindUser;
    FoundUser(users, user.id);
    FoundUser(users, other);
    FoundUser(users + [user], other);
    assert user in users + [user];
    assert forall u :: u in users + [user] <==> u in users || u == user;
  }

  function Decided(requests: seq<Request>, id: string, status: Status, at: int, decider: string): (r: seq<Request>)
    ensures |r| == |requests|
    ensures forall i | 0 <= i < |requests| ::
      r[i] == if requests[i].id == id then requests[i].(status := status, decidedAt := at, decidedBy := decider)
          else requests[i]
  {
    seq(|requests|, i requires 0 <= i < |requests| =>
      if requests[i].id == id then requests[i].(status := status, decidedAt := at, decidedBy := decider)
          else requests[i])
  }

  /** Every request that was decided before is still there, unchanged. */
  ghost predicate DecidedUnchanged(before: seq<Request>, after: seq<Request>) {
    && |before| <= |after|
    && forall i | 0 <= i < |before| :: !before[i].status.Pending? ==> after[i] == before[i]
  }

  class AuthStore {
    var p: Payload
    ghost var log: seq<Event>
    ghost var clock: int

    ghost predicate Valid()
      reads this
    {
      Inv(p, log, clock)
    }

    constructor ()
      ensures Valid() && p == Payload([], [], []) && log == []
    {
      p := Payload([], [], []);
      log, clock := [], 0;
    }

    method DeleteUser(userId: string) returns (deleted: bool)
      requires Valid()
      modifies this
      ensures Valid() && clock == old(clock)
      ensures deleted <==> FindUser(old(p).users, userId).Some?
      ensures log == if deleted then old(log) + [Deleted(userId)] else old(log)
      ensures p == if deleted
                   then Payload(WithoutUser(old(p).users, userId), WithoutSessionsOf(old(p).sessions, userId),
                       old(p).requests)
                   else old(p)
      ensures Keeps(old(p).users, p.users, (u: User) => u.id != userId)
      ensures deleted ==> Keeps(old(p).sessions, p.sessions, (s: Session) => s.userId != userId)
      ensures deleted <==> exists u | u in old(p).users :: u.id == userId
    {
      hide Stands, FindUser, WithoutUser, WithoutSessionsOf, RequestsOk, UniqueUsers, Keeps;
      var users, sessions := WithoutUser(p.users, userId), WithoutSessionsOf(p.sessions, userId);
      WithoutUserMembers(p.users, userId);
      FoundUser(p.users, userId);
      WithoutUserKeeps(p.users, userId);
      WithoutSessionsKeeps(p.sessions, userId);
      deleted := |users| != |p.users|;
      if !deleted { SameLength(p.users, userId); }
      if deleted {
        DeleteAgrees(p.sessions, log, clock, userId);
        WithoutSessionsMembers(p.sessions, userId);
        forall s | s in sessions ensures FindUser(users, s.userId).Some? { WithoutUserFind(p.users, userId, s.userId); }
        WithoutUserFind(p.users, userId, userId);
        p := Payload(users, sessions, p.requests);
        log := log + [Deleted(userId)];
      }
    }

    /** Creates or replaces an account; its sessions stay. */
    method CreateUserWithHash(isalnum: AlphaNumeric, userId: string, displayName: string, passwordHash: string,
                              active: bool)
      returns (r: Result<()>)
      requires Valid()
      modifies this
      ensures Valid() && clock == old(clock) && log == old(log)
      ensures r.Ok? <==> ValidUserId(isalnum, userId) && Strip(displayName) != ""
      ensures r.Err? ==> r.message == if !ValidUserId(isalnum, userId)
                                      then "user id may contain only letters, numbers, dot, underscore, and hyphen"
                                      else "display name is required"
      ensures p == if r.Ok?
                   then old(p).(users := WithoutUser(old(p).users, userId)
                       + [User(userId, Strip(displayName), passwordHash, active)])
                   else old(p)
      ensures r.Ok? ==> Replaces(old(p).users, p.users, (u: User) => u.id != userId,
                                 User(userId, Strip(displayName), passwordHash, active))
    {
      hide Stands, FindUser, WithoutUser, RequestsOk, UniqueUsers, Strip, Keeps, Replaces;
      if !ValidUserId(isalnum, userId) { return Err(BAD_ID); }
      if Strip(displayName) == "" { return Err(NO_NAME); }
      var others, user := WithoutUser(p.users, userId), User(userId, Strip(displayName), passwordHash, active);
      WithoutUserFind(p.users, userId, userId);
      WithoutUserKeeps(p.users, userId);
      AppendReplaces(p.users, others, (u: User) => u.id != userId, user);
      AddUserFind(others, user, userId);
      forall s | s in p.sessions ensures FindUser(others + [user], s.userId).Some? {
        WithoutUserFind(p.users, userId, s.userId);
        AddUserFind(others, user, s.userId);
      }
      p := p.(users := others + [user]);
      r := Ok(());
    }

    /** `_active_sessions`, as the loop builds it. */
    method CollectActive(sessions: seq<Session>, now: int) returns (active: seq<Session>)
      ensures active == ActiveSessions(sessions, now)
      ensures Keeps(sessions, active, (s: Session) => now < s.expiresAt)
    {
      active := [];
      for n := 0 to |sessions|
        invariant active == ActiveSessions(sessions[..n], now)
      {
        assert sessions[..n + 1][..n] == sessions[..n];
        if sessions[n].expiresAt > now { active := active + [sessions[n]]; }
      }
      assert sessions[..|sessions|] == sessions;
      ActiveKeeps(sessions, now);
    }

    /** Issues a token to an active user whose password verifies; expired sessions are dropped. */
    method Authenticate(userId: string, password: string, verify: (string, string) -> bool, tokenHash: string, now: int)
      returns (issued: bool)
      requires Valid() && clock <= now
      requires forall e | e in log :: e.Issued? ==> e.tokenHash != tokenHash
      modifies this
      ensures Valid() && clock == now
      ensures issued <==> var user := FindUser(old(p).users, userId);
                          user.Some? && user.value.active && verify(password, user.value.passwordHash)
      ensures log == if issued then old(log) + [Issued(tokenHash, userId, now)] else old(log)
      ensures p == if issued
                   then old(p).(sessions := ActiveSessions(old(p).sessions, now)
                       + [Session(tokenHash, userId, now + 43200)])
                   else old(p)
      ensures issued ==> Replaces(old(p).sessions, p.sessions, (s: Session) => now < s.expiresAt,
                                  Session(tokenHash, userId, now + 43200))
    {
      hide Stands, FindUser, ActiveSessions, RequestsOk, UniqueUsers, Keeps, Replaces;
      PrunedAgrees(p.sessions, log, clock, now);
      clock := now;
      var user := FindUser(p.users, userId);
      if user.None? || !user.value.active || !verify(password, user.value.passwordHash) { return false; }
      FoundUser(p.users, userId);
      ActiveMembers(p.sessions, now);
      var sessions := CollectActive(p.sessions, now);
      var session := Session(tokenHash, user.value.id, now + SESSION_TTL);
      IssueAgrees(sessions, log, now, session);
      AppendReplaces(p.sessions, sessions, (s: Session) => now < s.expiresAt, session);
      p := p.(sessions := sessions + [session]);
      assert forall i | 0 <= i < |log| :: log[i] in log;
      log := log + [Issued(tokenHash, userId, now)];
      return true;
    }

    /** Looks a token up, dropping expired sessions on the way. */
    method ResolveToken(tokenHash: string, now: int) returns (user: Option<string>)
      requires Valid() && clock <= now
      modifies this
      ensures Valid() && clock == now && log == old(log)
      ensures p == old(p).(sessions := p.sessions)
      ensures Keeps(old(p).sessions, p.sessions, (s: Session) => now < s.expiresAt)
      ensures user == Resolve(old(p), tokenHash, now)
      ensures forall u :: user == Some(u) <==>
        && (exists i: nat ::
              && i < |log| && log[i].Issued? && log[i].tokenHash == tokenHash && log[i].userId == u
              && now < log[i].at + 43200
              && forall j | i < j < |log| :: log[j] != Revoked(tokenHash) && log[j] != Deleted(u))
        && exists account | account in p.users :: account.id == u && account.active
    {
      hide Stands, FindUser, FindSession, ActiveSessions, RequestsOk, UniqueUsers, Keeps;
      PrunedAgrees(p.sessions, log, clock, now);
      ActiveMembers(p.sessions, now);
      forall u ensures Resolve(p, tokenHash, now) == Some(u) <==>
        && (exists i: nat ::
              && i < |log| && log[i].Issued? && log[i].tokenHash == tokenHash && log[i].userId == u
              && now < log[i].at + 43200
              && forall j | i < j < |log| :: log[j] != Revoked(tokenHash) && log[j] != Deleted(u))
        && exists account | account in p.users :: account.id == u && account.active
      {
        ResolvedByLog(p, log, clock, tokenHash, now, u);
      }
      var sessions := CollectActive(p.sessions, now);
      ActiveLength(p.sessions, now);
      var changed := |sessions| != |p.sessions|;
      var session := FindSession(sessions, tokenHash);
      if changed { p := p.(sessions := sessions); }
      clock := now;
      if session.None? { return None; }
      FoundUser(p.users, session.value.userId);
      var found := FindUser(p.users, session.value.userId);
      if found.None? || !found.value.active { return None; }
      return Some(found.value.id);
    }

    method RevokeToken(tokenHash: string)
      requires Valid()
      modifies this
      ensures Valid() && clock == old(clock) && log == old(log) + [Revoked(tokenHash)]
      ensures p == old(p).(sessions := p.sessions)
      ensures Keeps(old(p).sessions, p.sessions, (s: Session) => s.tokenHash != tokenHash)
    {
      hide Stands, FindUser, WithoutToken, RequestsOk, UniqueUsers, Keeps;
      RevokeAgrees(p.sessions, log, clock, tokenHash);
      WithoutTokenMembers(p.sessions, tokenHash);
      WithoutTokenKeeps(p.sessions, tokenHash);
      p := p.(sessions := WithoutToken(p.sessions, tokenHash));
      log := log + [Revoked(tokenHash)];
    }

    /** At most one request per user id waits; request ids are generated. */
    method RequestAccount(isalnum: AlphaNumeric, id: string, userId: string, displayName: string, title: string,
                          password: string,
                          passwordHash: string, now: int)
      returns (r: Result<Request>)
      requires Valid() && forall q | q in p.requests :: q.id != id
      modifies this
      ensures Valid() && clock == old(clock) && log == old(log)
      ensures r.Ok? <==>
        && ValidUserId(isalnum, userId) && Strip(displayName) != "" && (forall u | u in old(p).users :: u.id != userId)
        && (forall q | q in old(p).requests :: !(q.userId == userId && q.status.Pending?)) && |password| >= 8
      ensures r.Err? ==>
        r.message == (if !ValidUserId(isalnum, userId)
                      then "user id may contain only letters, numbers, dot, underscore, and hyphen"
                      else if Strip(displayName) == "" then "display name is required"
                      else if exists u | u in old(p).users :: u.id == userId then "user id already exists"
                      else if exists q | q in old(p).requests :: q.userId == userId && q.status.Pending?
                      then "account request is already pending"
                      else "password must be at least 8 characters")
      ensures r.Ok? ==>
          r.value == Request(id, userId, Strip(displayName), Strip(title), passwordHash, Pending, now, 0, "")
      ensures p == if r.Ok? then old(p).(requests := old(p).requests + [r.value]) else old(p)
      ensures DecidedUnchanged(old(p).requests, p.requests)
    {
      hide Stands, FindUser, UniqueUsers, Strip, SessionsAgree;
      FoundUser(p.users, userId);
      if !ValidUserId(isalnum, userId) { return Err(BAD_ID); }
      if Strip(displayName) == "" { return Err(NO_NAME); }
      if FindUser(p.users, userId).Some? { return Err(ID_TAKEN); }
      if exists q | q in p.requests :: q.userId == userId && q.status.Pending? {
        return Err(ID_WAITING);
      }
      if |password| < 8 { return Err(SHORT_PASSWORD); }
      var request := Request(id, userId, Strip(displayName), Strip(title), passwordHash, Pending, now, 0, "");
      assert forall i | 0 <= i < |p.requests| :: p.requests[i] in p.requests;
      p := p.(requests := p.requests + [request]);
      r := Ok(request);
    }

    /** Decides a waiting request, once. */
    method DecideRequest(requestId: string, approve: bool, decidedBy: string, now: int) returns (r: Result<()>)
      requires Valid()
      modifies this
      ensures Valid() && clock == old(clock) && log == old(log)
      ensures r.Ok? <==> exists q | q in old(p).requests :: q.id == requestId && q.status.Pending?
      ensures r.Err? ==> r.message == if exists q | q in old(p).requests :: q.id == requestId
                                      then "account request is already decided"
                                      else "account request not found"
      ensures p == if r.Ok?
                   then old(p).(requests := p.requests)
                   else old(p)
      ensures |p.requests| == |old(p).requests|
      ensures forall k | 0 <= k < |p.requests| ::
        p.requests[k] == if r.Ok? && old(p).requests[k].id == requestId
                         then old(p).requests[k].(status := if approve then Approved else Rejected,
                                                  decidedAt := now, decidedBy := decidedBy)
                         else old(p).requests[k]
      ensures DecidedUnchanged(old(p).requests, p.requests)
    {
      hide Stands, FindUser, UniqueUsers, SessionsAgree;
      var n := 0;
      while n < |p.requests| && p.requests[n].id != requestId
        invariant n <= |p.requests| && forall i | 0 <= i < n :: p.requests[i].id != requestId
      {
        n := n + 1;
      }
      if n == |p.requests| { return Err("account request not found"); }
      assert p.requests[n] in p.requests;
      if !p.requests[n].status.Pending? { return Err("account request is already decided"); }
      p := p.(requests := Decided(p.requests, requestId, if approve then Approved else Rejected, now, decidedBy));
      r := Ok(());
    }
  }
}
