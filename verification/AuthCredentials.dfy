/** What single calls promise about credentials: which token, password or reset link works
    afterwards and which no longer does. */
module AuthCredentials {
  import opened Wrappers
  import opened AuthStore
  import opened AuthRuns

  // -------------------------------------------------------------------------- new tokens

  /** A token just issued, by login or by rotation, is redeemable exactly until it expires. */
  lemma IssuedTokenIsRedeemable(cfg: Settings, s: Store, e: Event, now: int, secret: string)
    requires Possible(s, e) && (e.Login? || e.Refresh?) && Step(cfg, s, e).1.Issued?
    ensures RefreshStep(cfg, Step(cfg, s, e).0, e.secret, now, secret).1.Issued? <==>
            now < e.now + cfg.refreshTtl
  {
    var after := Step(cfg, s, e).0.tokens;
    assert after[|after| - 1].secret == e.secret;
    assert FindToken(after, e.secret) == Some(|after| - 1);
  }

  // ------------------------------------------------------------------------------ logout

  /** Logging out ends the whole lineage of the presented token exactly when that token is
      still active (or the lineage was over already).  A token that has been rotated away
      ends nothing: its successor stays active. */
  lemma LogoutEndsLineage(cfg: Settings, s: Store, e: Event, i: nat)
    requires Inv(s) && e.Logout? && e.presentedOpt.Some? && e.presentedOpt.value != ""
    requires FindToken(s.tokens, e.presentedOpt.value) == Some(i)
    ensures Dead(Step(cfg, s, e).0.tokens, s.tokens[i].family) <==>
            s.tokens[i].revokedAt.None? || Dead(s.tokens, s.tokens[i].family)
  {
    var after := Step(cfg, s, e).0.tokens;
    if s.tokens[i].revokedAt.None? {
      assert after[i].family == s.tokens[i].family;
      forall j | 0 <= j < |after| && after[j].family == s.tokens[i].family
        ensures after[j].revokedAt.Some?
      {
        assert s.tokens[j].family == s.tokens[i].family;
      }
    }
  }

  /** After a logout with an active token, no token of its lineage, old or later, is ever
      active or redeemable again. */
  lemma LogoutIsFinal(
      cfg: Settings, stores: seq<Store>, events: seq<Event>, m: nat, k: nat, i: nat, j: nat)
    requires Run(cfg, stores, events) && AuthRuns.Inv(stores[0]) && m < k < |stores| && events[m].Logout?
    requires events[m].presentedOpt.Some? && events[m].presentedOpt.value != ""
    requires FindToken(stores[m].tokens, events[m].presentedOpt.value) == Some(i)
    requires stores[m].tokens[i].revokedAt.None?
    requires j < |stores[k].tokens| && stores[k].tokens[j].family == stores[m].tokens[i].family
    ensures stores[k].tokens[j].revokedAt.Some?
    ensures k < |events| ==> !Redeems(cfg, stores[k], events[k], stores[k].tokens[j].secret)
  {
    RunKeepsInv(cfg, stores, events, m);
    LogoutEndsLineage(cfg, stores[m], events[m], i);
    assert stores[m + 1] == Step(cfg, stores[m], events[m]).0;
    DeadIsFinal(cfg, stores, events, m + 1, k, stores[k].tokens[j].family, j);
  }

  // A run in which logging out ends nothing.

  const USERS := [User("a@b.c", "password", true)]
  const LOGS_IN := Login("a@b.c", "password", 1, "first", 7)
  const ROTATES := Refresh("first", 2, "second")
  const LOGS_OUT := Logout(Some("first"), 3)
  const ROTATES_AGAIN := Refresh("second", 4, "third")

  function First(cfg: Settings): RefreshToken { RefreshToken(0, 7, "first", 1 + cfg.refreshTtl, None, None) }

  /** The token table after the rotation of `first`. */
  function Rotated(cfg: Settings): seq<RefreshToken>
  {
    [First(cfg).(revokedAt := Some(2)), RefreshToken(0, 7, "second", 2 + cfg.refreshTtl, None, Some(0))]
  }

  lemma FindRotated(cfg: Settings)
    ensures FindToken([First(cfg)], "first") == Some(0)
    ensures FindToken(Rotated(cfg), "first") == Some(0) && FindToken(Rotated(cfg), "second") == Some(1)
    ensures FindUser(USERS, "a@b.c") == Some(0)
  {
    assert Rotated(cfg)[..1] == [Rotated(cfg)[0]];
  }

  lemma LogoutRunStarts(cfg: Settings)
    requires cfg.refreshTtl > 4
    ensures Step(cfg, EMPTY, Register("a@b.c", "password")).0 == Store(USERS, [], [])
    ensures Step(cfg, Store(USERS, [], []), LOGS_IN).0 == Store(USERS, [First(cfg)], [])
    ensures Redeems(cfg, Store(USERS, [First(cfg)], []), ROTATES, "first")
    ensures Step(cfg, Store(USERS, [First(cfg)], []), ROTATES).0 == Store(USERS, Rotated(cfg), [])
  {
    FindRotated(cfg);
  }

  lemma LogoutRunEnds(cfg: Settings)
    requires cfg.refreshTtl > 4
    ensures Step(cfg, Store(USERS, Rotated(cfg), []), LOGS_OUT).0 == Store(USERS, Rotated(cfg), [])
    ensures Redeems(cfg, Store(USERS, Rotated(cfg), []), ROTATES_AGAIN, "second")
  {
    FindRotated(cfg);
  }

  /** The token presented at logout has already been rotated away, and the one that replaced it
      is redeemed afterwards. */
  lemma RotatedLogoutLeavesSuccessor(cfg: Settings) returns (stores: seq<Store>, events: seq<Event>)
    requires cfg.refreshTtl > 4
    ensures Run(cfg, stores, events) && stores[0] == EMPTY && |events| == 5
    ensures Redeems(cfg, stores[2], events[2], "first") && Redeems(cfg, stores[4], events[4], "second")
    ensures events[3] == Logout(Some("first"), 3)
  {
    hide Step, Redeems;
    LogoutRunStarts(cfg);
    LogoutRunEnds(cfg);
    events := [Register("a@b.c", "password"), LOGS_IN, ROTATES, LOGS_OUT, ROTATES_AGAIN];
    var rotated := Store(USERS, Rotated(cfg), []);
    stores := [EMPTY, Store(USERS, [], []), Store(USERS, [First(cfg)], []), rotated, rotated,
               Step(cfg, rotated, ROTATES_AGAIN).0];
  }

  // --------------------------------------------------------------------------- passwords

  lemma {:induction false} FindUserKept(users: seq<User>, u: nat, password: string, email: string)
    requires u < |users|
    ensures FindUser(SetPassword(users, u, password), email) == FindUser(users, email)
  {
    var after, n := SetPassword(users, u, password), |users| - 1;
    if u < n {
      assert after[..n] == SetPassword(users[..n], u, password);
      FindUserKept(users[..n], u, password, email);
    } else {
      assert after[..n] == users[..n];
    }
  }

  /** After a successful password change or reset, the user can log in with the new password
      and with no other; every other user logs in as before. */
  lemma PasswordReplaced(
      cfg: Settings, s: Store, e: Event, u: nat, other: nat, email: string, password: string, now: int,
      secret: string, family: nat)
    requires Possible(s, e) && (e.ChangePassword? || e.ResetPassword?)
    requires SignedOut(cfg, s, e) == Some(u) && FindUser(s.users, email) == Some(other)
    ensures var after := Step(cfg, s, e).0;
      LoginStep(cfg, after, email, password, now, secret, family).1.Issued? <==>
      if other == u then s.users[u].active && password == e.newPassword
      else LoginStep(cfg, s, email, password, now, secret, family).1.Issued?
  {
    FindUserKept(s.users, u, e.newPassword, email);
  }

  // ------------------------------------------------------------------------- reset links

  ghost predicate DistinctResets(resets: seq<ResetToken>)
  {
    forall i, j :: 0 <= i < j < |resets| ==> resets[i].secret != resets[j].secret
  }

  /** Reset rows are only ever added, or marked used once. */
  ghost predicate OnlyUsesUp(before: seq<ResetToken>, after: seq<ResetToken>)
  {
    |before| <= |after| &&
    forall i :: 0 <= i < |before| ==>
      after[i] == before[i] || (before[i].usedAt.None? && after[i] == before[i].(usedAt := after[i].usedAt))
  }

  lemma ResetsStep(cfg: Settings, s: Store, e: Event)
    requires Possible(s, e) && DistinctResets(s.resets)
    ensures DistinctResets(Step(cfg, s, e).0.resets)
    ensures OnlyUsesUp(s.resets, Step(cfg, s, e).0.resets)
  {
  }

  lemma {:induction false} ResetsPersist(
      cfg: Settings, stores: seq<Store>, events: seq<Event>, m: nat, k: nat, i: nat)
    requires Run(cfg, stores, events) && m <= k < |stores|
    requires DistinctResets(stores[m].resets) && i < |stores[m].resets| && stores[m].resets[i].usedAt.Some?
    ensures DistinctResets(stores[k].resets)
    ensures i < |stores[k].resets| && stores[k].resets[i] == stores[m].resets[i]
  {
    hide Step;
    if k > m {
      ResetsPersist(cfg, stores, events, m, k - 1, i);
      ResetsStep(cfg, stores[k - 1], events[k - 1]);
    }
  }

  lemma {:induction false} ResetsStayDistinct(cfg: Settings, stores: seq<Store>, events: seq<Event>, k: nat)
    requires Run(cfg, stores, events) && DistinctResets(stores[0].resets) && k < |stores|
    ensures DistinctResets(stores[k].resets)
  {
    hide Step;
    if k > 0 {
      ResetsStayDistinct(cfg, stores, events, k - 1);
      ResetsStep(cfg, stores[k - 1], events[k - 1]);
    }
  }

  /** An event in which a reset link was answered with a new password. */
  predicate ResetsBy(s: Store, e: Event, secret: string)
  {
    e.ResetPassword? && e.presented == secret && ResetPasswordStep(s, secret, e.newPassword, e.now).1 == Done
  }

  /** In any run, each password reset token works at most once. */
  lemma ResetOnce(cfg: Settings, stores: seq<Store>, events: seq<Event>, m: nat, k: nat, secret: string)
    requires Run(cfg, stores, events) && DistinctResets(stores[0].resets) && m < k < |events|
    requires ResetsBy(stores[m], events[m], secret)
    ensures !ResetsBy(stores[k], events[k], secret)
  {
    ResetsStayDistinct(cfg, stores, events, m);
    var i := FindReset(stores[m].resets, secret, events[m].now).value;
    ResetsStep(cfg, stores[m], events[m]);
    assert stores[m + 1] == Step(cfg, stores[m], events[m]).0;
    ResetsPersist(cfg, stores, events, m + 1, k, i);
  }
}
