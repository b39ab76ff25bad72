/** The authentication tables and the service operations on them. */
module AuthStore {
  import opened Wrappers

  /** A user row, identified by its position.  `password` is what the stored hash verifies. */
  datatype User = User(email: string, password: string, active: bool)

  /** A refresh-token row, identified by its position.  `secret` stands for the stored digest:
      equal digests are equal secrets. */
  datatype RefreshToken = RefreshToken(
    user: nat,
    family: nat,
    secret: string,
    expiresAt: int,
    revokedAt: Option<int>,
    rotatedFrom: Option<nat>)

  datatype ResetToken = ResetToken(user: nat, secret: string, expiresAt: int, usedAt: Option<int>)

  datatype Store = Store(users: seq<User>, tokens: seq<RefreshToken>, resets: seq<ResetToken>)

  datatype ErrorCode =
    | InvalidCredentials | InvalidRefreshToken | RefreshTokenReused | RefreshTokenExpired
    | InactiveUser | WeakPassword | SamePassword | InvalidResetToken | RegistrationFailed

  datatype Outcome =
    | Done
    | Revoked(count: nat)
    | Issued(token: nat)
    | Requested(shown: Option<string>)
    | Failed(code: ErrorCode)

  /** `development` is set in development and testing, where reset secrets are shown. */
  datatype Settings = Settings(refreshTtl: int, resetTtl: int, development: bool)

  const MIN_PASSWORD_LENGTH := 8

  predicate StrongPassword(password: string) { |password| >= MIN_PASSWORD_LENGTH }

  predicate Verifies(plain: string, user: User) { plain != "" && plain == user.password }

  // --------------------------------------------------------------------------- queries

  function FindUser(users: seq<User>, email: string): (r: Option<nat>)
    ensures r.Some? ==> r.value < |users| && users[r.value].email == email
    ensures r.None? ==> forall i :: 0 <= i < |users| ==> users[i].email != email
  {
    if users == [] then None
    else if users[|users| - 1].email == email then Some(|users| - 1)
    else FindUser(users[..|users| - 1], email)
  }

  function FindToken(tokens: seq<RefreshToken>, secret: string): (r: Option<nat>)
    ensures r.Some? ==> r.value < |tokens| && tokens[r.value].secret == secret
    ensures r.None? ==> forall i :: 0 <= i < |tokens| ==> tokens[i].secret != secret
  {
    if tokens == [] then None
    else if tokens[|tokens| - 1].secret == secret then Some(|tokens| - 1)
    else FindToken(tokens[..|tokens| - 1], secret)
  }

  /** An unused, unexpired reset token. */
  function FindReset(resets: seq<ResetToken>, secret: string, now: int): (r: Option<nat>)
    ensures r.Some? ==> r.value < |resets| && resets[r.value].secret == secret &&
                        resets[r.value].usedAt.None? && resets[r.value].expiresAt > now
    ensures r.None? ==> forall i :: 0 <= i < |resets| ==>
              resets[i].secret != secret || resets[i].usedAt.Some? || resets[i].expiresAt <= now
  {
    if resets == [] then None
    else
      var last := resets[|resets| - 1];
      if last.secret == secret && last.usedAt.None? && last.expiresAt > now then Some(|resets| - 1)
      else FindReset(resets[..|resets| - 1], secret, now)
  }

  // --------------------------------------------------------------------- mass revocation

  datatype Scope = OfFamily(family: nat) | OfUser(user: nat)

  predicate InScope(t: RefreshToken, scope: Scope)
  {
    match scope
    case OfFamily(f) => t.family == f
    case OfUser(u) => t.user == u
  }

  function RevokeOne(t: RefreshToken, now: int): (r: RefreshToken)
  {
    if t.revokedAt.None? then t.(revokedAt := Some(now)) else t
  }

  /** The token table after revoking the still active tokens in scope. */
  function RevokeAll(tokens: seq<RefreshToken>, scope: Scope, now: int): (r: seq<RefreshToken>)
    ensures |r| == |tokens|
    ensures forall i :: 0 <= i < |r| ==>
      r[i] == if InScope(tokens[i], scope) then RevokeOne(tokens[i], now) else tokens[i]
  {
    if tokens == [] then []
    else
      [if InScope(tokens[0], scope) then RevokeOne(tokens[0], now) else tokens[0]] +
      RevokeAll(tokens[1..], scope, now)
  }

  function ActiveIn(tokens: seq<RefreshToken>, scope: Scope): (n: nat)
  {
    if tokens == [] then 0
    else (if InScope(tokens[0], scope) && tokens[0].revokedAt.None? then 1 else 0) +
         ActiveIn(tokens[1..], scope)
  }

  // ------------------------------------------------------------------ the steps, as functions

  function RegisterStep(s: Store, email: string, password: string): (r: (Store, Outcome))
  {
    if !StrongPassword(password) then (s, Failed(WeakPassword))
    else if FindUser(s.users, email).Some? then (s, Failed(RegistrationFailed))
    else (s.(users := s.users + [User(email, password, true)]), Done)
  }

  function LoginStep(
      cfg: Settings, s: Store, email: string, password: string, now: int, secret: string, family: nat)
    : (r: (Store, Outcome))
  {
    var u := FindUser(s.users, email);
    if u.None? || !s.users[u.value].active || !Verifies(password, s.users[u.value]) then
      (s, Failed(InvalidCredentials))
    else
      var t := RefreshToken(u.value, family, secret, now + cfg.refreshTtl, None, None);
      (s.(tokens := s.tokens + [t]), Issued(|s.tokens|))
  }

  function RefreshStep(cfg: Settings, s: Store, presented: string, now: int, secret: string)
    : (r: (Store, Outcome))
  {
    var found := FindToken(s.tokens, presented);
    if found.None? then (s, Failed(InvalidRefreshToken))
    else
      var t := s.tokens[found.value];
      if t.revokedAt.Some? then
        (s.(tokens := RevokeAll(s.tokens, OfFamily(t.family), now)), Failed(RefreshTokenReused))
      else if t.expiresAt <= now then (s, Failed(RefreshTokenExpired))
      else if t.user >= |s.users| || !s.users[t.user].active then (s, Failed(InactiveUser))
      else
        var child := RefreshToken(t.user, t.family, secret, now + cfg.refreshTtl, None, Some(found.value));
        (s.(tokens := s.tokens[found.value := t.(revokedAt := Some(now))] + [child]), Issued(|s.tokens|))
  }

  function LogoutStep(s: Store, presented: Option<string>, now: int): (r: (Store, Outcome))
  {
    if presented.None? || presented.value == "" then (s, Done)
    else
      var found := FindToken(s.tokens, presented.value);
      if found.Some? && s.tokens[found.value].revokedAt.None? then
        (s.(tokens := s.tokens[found.value := s.tokens[found.value].(revokedAt := Some(now))]), Done)
      else (s, Done)
  }

  function LogoutAllStep(s: Store, user: nat, now: int): (r: (Store, Outcome))
  {
    (s.(tokens := RevokeAll(s.tokens, OfUser(user), now)), Revoked(ActiveIn(s.tokens, OfUser(user))))
  }

  function SetPassword(users: seq<User>, user: nat, password: string): (r: seq<User>)
    requires user < |users|
  {
    users[user := users[user].(password := password)]
  }

  function ChangePasswordStep(s: Store, user: nat, current: string, new_: string, now: int)
    : (r: (Store, Outcome))
    requires user < |s.users|
  {
    if !Verifies(current, s.users[user]) then (s, Failed(InvalidCredentials))
    else if !StrongPassword(new_) then (s, Failed(WeakPassword))
    else if new_ == current then (s, Failed(SamePassword))
    else
      (s.(users := SetPassword(s.users, user, new_),
          tokens := RevokeAll(s.tokens, OfUser(user), now)), Done)
  }

  function ForgotPasswordStep(cfg: Settings, s: Store, email: string, now: int, secret: string)
    : (r: (Store, Outcome))
  {
    var u := FindUser(s.users, email);
    if u.Some? && s.users[u.value].active then
      (s.(resets := s.resets + [ResetToken(u.value, secret, now + cfg.resetTtl, None)]),
       Requested(if cfg.development then Some(secret) else None))
    else (s, Requested(None))
  }

  function ResetPasswordStep(s: Store, presented: string, new_: string, now: int): (r: (Store, Outcome))
  {
    var found := FindReset(s.resets, presented, now);
    if found.None? then (s, Failed(InvalidResetToken))
    else
      var t := s.resets[found.value];
      if t.user >= |s.users| || !s.users[t.user].active then (s, Failed(InactiveUser))
      else if !StrongPassword(new_) then (s, Failed(WeakPassword))
      else
        (Store(SetPassword(s.users, t.user, new_),
               RevokeAll(s.tokens, OfUser(t.user), now),
               s.resets[found.value := t.(usedAt := Some(now))]), Done)
  }

  // ------------------------------------------------------------------------ the repository

  class AuthRepository {
    var users: seq<User>
    var tokens: seq<RefreshToken>
    var resets: seq<ResetToken>

    constructor ()
      ensures State() == Store([], [], [])
    {
      users, tokens, resets := [], [], [];
    }

    ghost function State(): (s: Store)
      reads this
    {
      Store(users, tokens, resets)
    }

    method CreateUser(email: string, password: string)
      modifies this
      ensures State() == old(State()).(users := old(users) + [User(email, password, true)])
    {
      users := users + [User(email, password, true)];
    }

    method UpdateUserPassword(user: nat, password: string)
      requires user < |users|
      modifies this
      ensures State() == old(State()).(users := SetPassword(old(users), user, password))
    {
      users := users[user := users[user].(password := password)];
    }

    method CreateRefreshToken(
        user: nat, secret: string, expiresAt: int, family: nat, rotatedFrom: Option<nat>)
      returns (id: nat)
      modifies this
      ensures id == old(|tokens|)
      ensures State() == old(State()).(tokens :=
                old(tokens) + [RefreshToken(user, family, secret, expiresAt, None, rotatedFrom)])
    {
      id := |tokens|;
      tokens := tokens + [RefreshToken(user, family, secret, expiresAt, None, rotatedFrom)];
    }

    method RevokeRefreshToken(id: nat, now: int)
      requires id < |tokens|
      modifies this
      ensures State() == old(State()).(tokens := old(tokens)[id := old(tokens)[id].(revokedAt := Some(now))])
    {
      tokens := tokens[id := tokens[id].(revokedAt := Some(now))];
    }

    /** Revoke every active token in scope, row by row, and count the rows changed. */
    method RevokeTokens(scope: Scope, now: int) returns (count: nat)
      modifies this
      ensures State() == old(State()).(tokens := RevokeAll(old(tokens), scope, now))
      ensures count == ActiveIn(old(tokens), scope)
    {
      count := 0;
      ghost var before := tokens;
      ghost var goal := RevokeAll(tokens, scope, now);
      assert before[0..] == before;
      for i := 0 to |tokens|
        invariant |tokens| == |before| && users == old(users) && resets == old(resets)
        invariant forall j :: 0 <= j < i ==> tokens[j] == goal[j]
        invariant forall j :: i <= j < |tokens| ==> tokens[j] == before[j]
        invariant count + ActiveIn(before[i..], scope) == ActiveIn(before, scope)
      {
        assert before[i..][1..] == before[i + 1..];
        if InScope(tokens[i], scope) && tokens[i].revokedAt.None? {
          tokens := tokens[i := tokens[i].(revokedAt := Some(now))];
          count := count + 1;
        }
      }
      assert tokens == goal;
    }

    method CreatePasswordResetToken(user: nat, secret: string, expiresAt: int)
      modifies this
      ensures State() == old(State()).(resets := old(resets) + [ResetToken(user, secret, expiresAt, None)])
    {
      resets := resets + [ResetToken(user, secret, expiresAt, None)];
    }

    method ConsumePasswordResetToken(id: nat, now: int)
      requires id < |resets|
      modifies this
      ensures State() == old(State()).(resets := old(resets)[id := old(resets)[id].(usedAt := Some(now))])
    {
      resets := resets[id := resets[id].(usedAt := Some(now))];
    }
  }

  // --------------------------------------------------------------------------- the service

  class AuthService {
    const repo: AuthRepository
    const cfg: Settings

    constructor (repo: AuthRepository, cfg: Settings)
      ensures this.repo == repo && this.cfg == cfg
    {
      this.repo := repo;
      this.cfg := cfg;
    }

    method Register(email: string, password: string) returns (outcome: Outcome)
      modifies repo
      ensures (repo.State(), outcome) == RegisterStep(old(repo.State()), email, password)
    {
      if !StrongPassword(password) {
        return Failed(WeakPassword);
      }
      if FindUser(repo.users, email).Some? {
        return Failed(RegistrationFailed);
      }
      repo.CreateUser(email, password);
      return Done;
    }

    method Login(email: string, password: string, now: int, secret: string, family: nat)
      returns (outcome: Outcome)
      modifies repo
      ensures (repo.State(), outcome) ==
              LoginStep(cfg, old(repo.State()), email, password, now, secret, family)
    {
      var u := FindUser(repo.users, email);
      if u.None? || !repo.users[u.value].active {
        return Failed(InvalidCredentials);
      }
      if !Verifies(password, repo.users[u.value]) {
        return Failed(InvalidCredentials);
      }
      var id := repo.CreateRefreshToken(u.value, secret, now + cfg.refreshTtl, family, None);
      return Issued(id);
    }

    method Refresh(presented: string, now: int, secret: string) returns (outcome: Outcome)
      modifies repo
      ensures (repo.State(), outcome) == RefreshStep(cfg, old(repo.State()), presented, now, secret)
    {
      var found := FindToken(repo.tokens, presented);
      if found.None? {
        return Failed(InvalidRefreshToken);
      }
      var t := repo.tokens[found.value];
      if t.revokedAt.Some? {
        var _ := repo.RevokeTokens(OfFamily(t.family), now);
        return Failed(RefreshTokenReused);
      }
      if t.expiresAt <= now {
        return Failed(RefreshTokenExpired);
      }
      if t.user >= |repo.users| || !repo.users[t.user].active {
        return Failed(InactiveUser);
      }
      repo.RevokeRefreshToken(found.value, now);
      var id := repo.CreateRefreshToken(t.user, secret, now + cfg.refreshTtl, t.family, Some(found.value));
      return Issued(id);
    }

    method Logout(presented: Option<string>, now: int) returns (outcome: Outcome)
      modifies repo
      ensures (repo.State(), outcome) == LogoutStep(old(repo.State()), presented, now)
    {
      if presented.Some? && presented.value != "" {
        var found := FindToken(repo.tokens, presented.value);
        if found.Some? && repo.tokens[found.value].revokedAt.None? {
          repo.RevokeRefreshToken(found.value, now);
          return Done;
        }
      }
      return Done;
    }

    method LogoutAll(user: nat, now: int) returns (outcome: Outcome)
      modifies repo
      ensures (repo.State(), outcome) == LogoutAllStep(old(repo.State()), user, now)
    {
      var count := repo.RevokeTokens(OfUser(user), now);
      return Revoked(count);
    }

    method ChangePassword(user: nat, current: string, new_: string, now: int) returns (outcome: Outcome)
      requires user < |repo.users|
      modifies repo
      ensures (repo.State(), outcome) == ChangePasswordStep(old(repo.State()), user, current, new_, now)
    {
      if !Verifies(current, repo.users[user]) {
        return Failed(InvalidCredentials);
      }
      if !StrongPassword(new_) {
        return Failed(WeakPassword);
      }
      if new_ == current {
        return Failed(SamePassword);
      }
      repo.UpdateUserPassword(user, new_);
      var _ := repo.RevokeTokens(OfUser(user), now);
      return Done;
    }

    method ForgotPassword(email: string, now: int, secret: string) returns (outcome: Outcome)
      modifies repo
      ensures (repo.State(), outcome) == ForgotPasswordStep(cfg, old(repo.State()), email, now, secret)
    {
      var u := FindUser(repo.users, email);
      if u.Some? && repo.users[u.value].active {
        repo.CreatePasswordResetToken(u.value, secret, now + cfg.resetTtl);
        if cfg.development {
          return Requested(Some(secret));
        }
      }
      return Requested(None);
    }

    method ResetPassword(presented: string, new_: string, now: int) returns (outcome: Outcome)
      modifies repo
      ensures (repo.State(), outcome) == ResetPasswordStep(old(repo.State()), presented, new_, now)
    {
      var found := FindReset(repo.resets, presented, now);
      if found.None? {
        return Failed(InvalidResetToken);
      }
      var t := repo.resets[found.value];
      if t.user >= |repo.users| || !repo.users[t.user].active {
        return Failed(InactiveUser);
      }
      if !StrongPassword(new_) {
        return Failed(WeakPassword);
      }
      repo.UpdateUserPassword(t.user, new_);
      repo.ConsumePasswordResetToken(found.value, now);
      var _ := repo.RevokeTokens(OfUser(t.user), now);
      return Done;
    }
  }
}
