/** What every call of the service answers, and exactly what it changes, by the rows of the
    tables. */
module AuthAnswers {
  import opened Wrappers
  import opened AuthStore
  import opened AuthRuns
  import opened AuthCredentials

  // ------------------------------------------------------------------------------- rows

  ghost predicate DistinctEmails(users: seq<User>)
  {
    forall i, j :: 0 <= i < j < |users| ==> users[i].email != users[j].email
  }

  /** A user who may use the service. */
  predicate CanAct(s: Store, user: nat) { user < |s.users| && s.users[user].active }

  /** The token rows after revoking the still active ones among those chosen. */
  ghost predicate RevokedWhere(before: seq<RefreshToken>, after: seq<RefreshToken>, chosen: set<nat>, now: int)
  {
    |after| == |before| && forall k :: 0 <= k < |before| ==>
      after[k] == if k in chosen && before[k].revokedAt.None? then before[k].(revokedAt := Some(now)) else before[k]
  }

  function RowsOfUser(ts: seq<RefreshToken>, user: nat): (r: set<nat>)
  {
    set k: nat | k < |ts| && ts[k].user == user
  }

  function RowsOfFamily(ts: seq<RefreshToken>, family: nat): (r: set<nat>)
  {
    set k: nat | k < |ts| && ts[k].family == family
  }

  lemma {:induction false} UserFound(users: seq<User>, u: nat)
    requires DistinctEmails(users) && u < |users|
    ensures FindUser(users, users[u].email) == Some(u)
  {
    hide FindUser;
  }

  lemma {:induction false} NoUserFound(users: seq<User>, email: string)
    requires forall i :: 0 <= i < |users| ==> users[i].email != email
    ensures FindUser(users, email) == None
  {
    hide FindUser;
  }

  lemma {:induction false} NoTokenFound(ts: seq<RefreshToken>, secret: string)
    requires forall i :: 0 <= i < |ts| ==> ts[i].secret != secret
    ensures FindToken(ts, secret) == None
  {
    hide FindToken;
  }

  // ----------------------------------------------------------------------------- refresh

  /** Refreshing with the secret of a stored token is answered with a new pair if and only if the
      token is unrevoked and unexpired and its user exists and is active; each other answer has
      its own cause, and only a reuse changes the store, by ending the token's family. */
  lemma {:induction false} RefreshExactly(cfg: Settings, s: Store, i: nat, now: int, secret: string)
    requires DistinctSecrets(s.tokens) && i < |s.tokens|
    ensures var t := s.tokens[i];
      var (after, answer) := RefreshStep(cfg, s, t.secret, now, secret);
      (answer.Issued? <==> t.revokedAt.None? && now < t.expiresAt && CanAct(s, t.user)) &&
      (answer == Failed(RefreshTokenReused) <==> t.revokedAt.Some?) &&
      (answer == Failed(RefreshTokenExpired) <==> t.revokedAt.None? && t.expiresAt <= now) &&
      (answer == Failed(InactiveUser) <==> t.revokedAt.None? && now < t.expiresAt && !CanAct(s, t.user)) &&
      after.users == s.users && after.resets == s.resets &&
      if answer.Issued? then
        answer == Issued(|s.tokens|) && |after.tokens| == |s.tokens| + 1 &&
        (forall k :: 0 <= k < |s.tokens| && k != i ==> after.tokens[k] == s.tokens[k]) &&
        after.tokens[i] == t.(revokedAt := Some(now)) &&
        after.tokens[|s.tokens|] == RefreshToken(t.user, t.family, secret, now + cfg.refreshTtl, None, Some(i))
      else if t.revokedAt.Some? then
        RevokedWhere(s.tokens, after.tokens, RowsOfFamily(s.tokens, t.family), now)
      else after == s
  {
    SecretFound(s, i);
  }

  /** Any other secret is unknown. */
  lemma {:induction false} UnknownRefresh(cfg: Settings, s: Store, presented: string, now: int, secret: string)
    requires forall i :: 0 <= i < |s.tokens| ==> s.tokens[i].secret != presented
    ensures RefreshStep(cfg, s, presented, now, secret) == (s, Failed(InvalidRefreshToken))
  {
    NoTokenFound(s.tokens, presented);
  }

  // ------------------------------------------------------------------- accounts and login

  /** Registration adds one active user if and only if the password has eight characters or more
      and nobody has the address. */
  lemma {:induction false} RegisterExactly(s: Store, email: string, password: string)
    ensures var (after, answer) := RegisterStep(s, email, password);
      var known := exists i :: 0 <= i < |s.users| && s.users[i].email == email;
      if |password| >= 8 && !known then
        answer == Done && after == s.(users := s.users + [User(email, password, true)])
      else after == s && answer == Failed(if |password| < 8 then WeakPassword else RegistrationFailed)
  {
    hide FindUser;
  }

  /** A user logs in if and only if the account is active and the password, which is not empty, is
      the user's own; the new token is the first of its family. */
  lemma {:induction false} LoginExactly(
      cfg: Settings, s: Store, u: nat, password: string, now: int, secret: string, family: nat)
    requires DistinctEmails(s.users) && u < |s.users|
    ensures var (after, answer) := LoginStep(cfg, s, s.users[u].email, password, now, secret, family);
      if s.users[u].active && password != "" && password == s.users[u].password then
        answer == Issued(|s.tokens|) &&
        after == s.(tokens := s.tokens + [RefreshToken(u, family, secret, now + cfg.refreshTtl, None, None)])
      else after == s && answer == Failed(InvalidCredentials)
  {
    UserFound(s.users, u);
  }

  lemma {:induction false} UnknownLogin(
      cfg: Settings, s: Store, email: string, password: string, now: int, secret: string, family: nat)
    requires forall i :: 0 <= i < |s.users| ==> s.users[i].email != email
    ensures LoginStep(cfg, s, email, password, now, secret, family) == (s, Failed(InvalidCredentials))
  {
    NoUserFound(s.users, email);
  }

  // ------------------------------------------------------------------------------ logout

  /** Logging out revokes the presented token if it is active, and nothing else. */
  lemma {:induction false} LogoutExactly(s: Store, i: nat, now: int)
    requires DistinctSecrets(s.tokens) && i < |s.tokens| && s.tokens[i].secret != ""
    ensures var (after, answer) := LogoutStep(s, Some(s.tokens[i].secret), now);
      answer == Done && after == s.(tokens := after.tokens) && RevokedWhere(s.tokens, after.tokens, {i}, now)
  {
    SecretFound(s, i);
  }

  /** Without a token, with an empty one or with an unknown one, nothing changes. */
  lemma {:induction false} UnknownLogout(s: Store, presented: Option<string>, now: int)
    requires presented.None? || presented.value == "" ||
      forall i :: 0 <= i < |s.tokens| ==> s.tokens[i].secret != presented.value
    ensures LogoutStep(s, presented, now) == (s, Done)
  {
    if presented.Some? && presented.value != "" {
      NoTokenFound(s.tokens, presented.value);
    }
  }

  lemma {:induction false} ActiveSnoc(ts: seq<RefreshToken>, t: RefreshToken, scope: Scope)
    ensures ActiveIn(ts + [t], scope) ==
            ActiveIn(ts, scope) + if InScope(t, scope) && t.revokedAt.None? then 1 else 0
  {
    if ts == [] {
      assert (ts + [t])[1..] == [];
    } else {
      assert (ts + [t])[1..] == ts[1..] + [t];
      ActiveSnoc(ts[1..], t, scope);
    }
  }

  function ActiveRows(ts: seq<RefreshToken>, scope: Scope): (r: set<nat>)
  {
    set k: nat | k < |ts| && InScope(ts[k], scope) && ts[k].revokedAt.None?
  }

  lemma {:induction false} ActiveCounted(ts: seq<RefreshToken>, scope: Scope)
    ensures ActiveIn(ts, scope) == |ActiveRows(ts, scope)|
  {
    if ts == [] {
      assert ActiveRows(ts, scope) == {};
    } else {
      var n := |ts| - 1;
      assert ts == ts[..n] + [ts[n]];
      ActiveSnoc(ts[..n], ts[n], scope);
      ActiveCounted(ts[..n], scope);
      ActiveRowsSnoc(ts[..n], ts[n], scope);
    }
  }

  lemma {:induction false} ActiveRowsSnoc(ts: seq<RefreshToken>, t: RefreshToken, scope: Scope)
    ensures |ActiveRows(ts + [t], scope)| ==
            |ActiveRows(ts, scope)| + if InScope(t, scope) && t.revokedAt.None? then 1 else 0
  {
    hide InScope;
    var last: set<nat> := if InScope(t, scope) && t.revokedAt.None? then {|ts|} else {};
    assert ActiveRows(ts + [t], scope) == ActiveRows(ts, scope) + last;
  }

  /** Logging out everywhere revokes exactly the user's active tokens and reports how many. */
  lemma {:induction false} LogoutAllExactly(s: Store, user: nat, now: int)
    ensures var (after, answer) := LogoutAllStep(s, user, now);
      after == s.(tokens := after.tokens) &&
      RevokedWhere(s.tokens, after.tokens, RowsOfUser(s.tokens, user), now) &&
      answer == Revoked(|set k: nat | k < |s.tokens| && s.tokens[k].user == user && s.tokens[k].revokedAt.None?|)
  {
    ActiveCounted(s.tokens, OfUser(user));
    assert ActiveRows(s.tokens, OfUser(user)) ==
           set k: nat | k < |s.tokens| && s.tokens[k].user == user && s.tokens[k].revokedAt.None?;
  }

  // --------------------------------------------------------------------------- passwords

  /** Only the password of this user is replaced. */
  ghost predicate PasswordSet(before: seq<User>, after: seq<User>, user: nat, password: string)
  {
    |after| == |before| && forall k :: 0 <= k < |before| ==>
      after[k] == if k == user then before[k].(password := password) else before[k]
  }

  /** A password changes if and only if the current one is given and is not empty, and the new one
      has eight characters or more and differs from it; then the user's sessions end. */
  lemma {:induction false} ChangePasswordExactly(s: Store, user: nat, current: string, new_: string, now: int)
    requires user < |s.users|
    ensures var (after, answer) := ChangePasswordStep(s, user, current, new_, now);
      if current != "" && current == s.users[user].password && |new_| >= 8 && new_ != current then
        answer == Done && after.resets == s.resets && PasswordSet(s.users, after.users, user, new_) &&
        RevokedWhere(s.tokens, after.tokens, RowsOfUser(s.tokens, user), now)
      else
        after == s &&
        answer == Failed(
          if current == "" || current != s.users[user].password then InvalidCredentials
          else if |new_| < 8 then WeakPassword
          else SamePassword)
  {
  }

  /** A reset link is filed exactly for an active user with the address; the answer shows its secret
      only in development and testing, and is otherwise the same as for an unknown address. */
  lemma {:induction false} ForgotPasswordExactly(cfg: Settings, s: Store, email: string, now: int, secret: string)
    requires DistinctEmails(s.users)
    ensures var (after, answer) := ForgotPasswordStep(cfg, s, email, now, secret);
      (forall u: nat :: u < |s.users| && s.users[u].email == email && s.users[u].active ==>
        after == s.(resets := s.resets + [ResetToken(u, secret, now + cfg.resetTtl, None)]) &&
        answer == Requested(if cfg.development then Some(secret) else None)) &&
      ((forall u :: 0 <= u < |s.users| && s.users[u].email == email ==> !s.users[u].active) ==>
        after == s && answer == Requested(None))
  {
    forall u: nat | u < |s.users| && s.users[u].email == email ensures FindUser(s.users, email) == Some(u) {
      UserFound(s.users, u);
    }
  }

  lemma {:induction false} ResetFound(resets: seq<ResetToken>, i: nat, now: int)
    requires DistinctResets(resets) && i < |resets|
    ensures FindReset(resets, resets[i].secret, now) ==
            if resets[i].usedAt.None? && now < resets[i].expiresAt then Some(i) else None
  {
    hide FindReset;
  }

  /** A reset link works if and only if it is unused and unexpired, its user exists and is active,
      and the new password has eight characters or more; then it is used up, the password is
      replaced and the user's sessions end. */
  lemma {:induction false} ResetPasswordExactly(s: Store, i: nat, new_: string, now: int)
    requires DistinctResets(s.resets) && i < |s.resets|
    ensures var t := s.resets[i];
      var (after, answer) := ResetPasswordStep(s, t.secret, new_, now);
      var live := t.usedAt.None? && now < t.expiresAt;
      if live && CanAct(s, t.user) && |new_| >= 8 then
        answer == Done && PasswordSet(s.users, after.users, t.user, new_) &&
        RevokedWhere(s.tokens, after.tokens, RowsOfUser(s.tokens, t.user), now) &&
        after.resets == s.resets[i := t.(usedAt := Some(now))]
      else
        after == s &&
        answer == Failed(
          if !live then InvalidResetToken else if !CanAct(s, t.user) then InactiveUser else WeakPassword)
  {
    ResetFound(s.resets, i, now);
  }

  lemma {:induction false} UnknownReset(s: Store, presented: string, new_: string, now: int)
    requires forall i :: 0 <= i < |s.resets| ==> s.resets[i].secret != presented
    ensures ResetPasswordStep(s, presented, new_, now) == (s, Failed(InvalidResetToken))
  {
    hide FindReset;
  }

  // ------------------------------------------------------------------------- over all runs

  /** The tables that the answers above are about. */
  ghost predicate Sound(s: Store)
  {
    Inv(s) && DistinctEmails(s.users) && DistinctResets(s.resets)
  }

  lemma {:induction false} StepKeepsEmails(cfg: Settings, s: Store, e: Event)
    requires Possible(s, e) && DistinctEmails(s.users)
    ensures DistinctEmails(Step(cfg, s, e).0.users)
  {
    hide FindUser, FindToken, FindReset;
  }

  /** In every store that a run from the empty one reaches, secrets, reset links and addresses
      identify their rows. */
  lemma {:induction false} RunsStaySound(cfg: Settings, stores: seq<Store>, events: seq<Event>, k: nat)
    requires Run(cfg, stores, events) && stores[0] == EMPTY && k < |stores|
    ensures Sound(stores[k])
  {
    hide Step, Inv, Possible;
    if k == 0 {
      LineagesStayLinear(cfg, stores, events, 0);
    } else {
      RunsStaySound(cfg, stores, events, k - 1);
      LineagesStayLinear(cfg, stores, events, k);
      StepKeepsEmails(cfg, stores[k - 1], events[k - 1]);
      ResetsStep(cfg, stores[k - 1], events[k - 1]);
    }
  }

  /** A user whose account is switched off cannot refresh any more. */
  lemma {:induction false} DisabledCannotRefresh(cfg: Settings, s: Store, i: nat, now: int, secret: string)
    requires DistinctSecrets(s.tokens) && i < |s.tokens| && s.tokens[i].user < |s.users|
    ensures var off := Step(cfg, s, SetActive(s.tokens[i].user, false)).0;
      off.tokens == s.tokens && !RefreshStep(cfg, off, s.tokens[i].secret, now, secret).1.Issued?
  {
    RefreshExactly(cfg, Step(cfg, s, SetActive(s.tokens[i].user, false)).0, i, now, secret);
  }
}
