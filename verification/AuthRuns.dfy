/** Refresh-token lineages over every run of the authentication service. */
module AuthRuns {
  import opened Wrappers
  import opened AuthStore

  /** A call to the service, with the values the clock and the random source supply.
      `SetActive` stands for an administrator enabling or disabling an account. */
  datatype Event =
    | Register(email: string, password: string)
    | Login(email: string, password: string, now: int, secret: string, family: nat)
    | Refresh(presented: string, now: int, secret: string)
    | Logout(presentedOpt: Option<string>, now: int)
    | LogoutAll(user: nat, now: int)
    | ChangePassword(user: nat, current: string, newPassword: string, now: int)
    | ForgotPassword(email: string, now: int, secret: string)
    | ResetPassword(presented: string, newPassword: string, now: int)
    | SetActive(user: nat, active: bool)

  /** What the random source guarantees (new secrets and families are unused), and that
      authenticated calls name an existing user. */
  ghost predicate Possible(s: Store, e: Event)
  {
    match e
    case Login(_, _, _, secret, family) =>
      forall i :: 0 <= i < |s.tokens| ==> s.tokens[i].secret != secret && s.tokens[i].family != family
    case Refresh(_, _, secret) =>
      forall i :: 0 <= i < |s.tokens| ==> s.tokens[i].secret != secret
    case ForgotPassword(_, _, secret) =>
      forall i :: 0 <= i < |s.resets| ==> s.resets[i].secret != secret
    case LogoutAll(u, _) => u < |s.users|
    case ChangePassword(u, _, _, _) => u < |s.users|
    case SetActive(u, _) => u < |s.users|
    case _ => true
  }

  function Step(cfg: Settings, s: Store, e: Event): (r: (Store, Outcome))
    requires e.ChangePassword? || e.SetActive? ==> e.user < |s.users|
  {
    match e
    case Register(email, password) => RegisterStep(s, email, password)
    case Login(email, password, now, secret, family) =>
      LoginStep(cfg, s, email, password, now, secret, family)
    case Refresh(presented, now, secret) => RefreshStep(cfg, s, presented, now, secret)
    case Logout(presented, now) => LogoutStep(s, presented, now)
    case LogoutAll(user, now) => LogoutAllStep(s, user, now)
    case ChangePassword(user, current, new_, now) => ChangePasswordStep(s, user, current, new_, now)
    case ForgotPassword(email, now, secret) => ForgotPasswordStep(cfg, s, email, now, secret)
    case ResetPassword(presented, new_, now) => ResetPasswordStep(s, presented, new_, now)
    case SetActive(user, active) =>
      (s.(users := s.users[user := s.users[user].(active := active)]), Done)
  }

  /** The stores a run passes through: `stores[0]` is the start and each event leads from one
      store to the next. */
  ghost predicate Run(cfg: Settings, stores: seq<Store>, events: seq<Event>)
  {
    |stores| == |events| + 1 &&
    forall k :: 0 <= k < |events| ==>
      Possible(stores[k], events[k]) && stores[k + 1] == Step(cfg, stores[k], events[k]).0
  }

  const EMPTY := Store([], [], [])

  // -------------------------------------------------------------------------- lineages

  /** Every token's predecessor link is exactly the previous token of its family, if any. */
  ghost predicate LinkedAt(ts: seq<RefreshToken>, j: nat)
    requires j < |ts|
  {
    match ts[j].rotatedFrom
    case None => forall i :: 0 <= i < j ==> ts[i].family != ts[j].family
    case Some(p) =>
      p < j && ts[p].family == ts[j].family &&
      forall i :: p < i < j ==> ts[i].family != ts[j].family
  }

  ghost predicate Linear(ts: seq<RefreshToken>) { forall j :: 0 <= j < |ts| ==> LinkedAt(ts, j) }

  ghost predicate OneUserPerFamily(ts: seq<RefreshToken>)
  {
    forall i, j :: 0 <= i < j < |ts| && ts[i].family == ts[j].family ==> ts[i].user == ts[j].user
  }

  /** Within a family, only the newest token can be unrevoked. */
  ghost predicate OnlyNewestActive(ts: seq<RefreshToken>)
  {
    forall i, j :: 0 <= i < j < |ts| && ts[i].family == ts[j].family ==> ts[i].revokedAt.Some?
  }

  ghost predicate DistinctSecrets(ts: seq<RefreshToken>)
  {
    forall i, j :: 0 <= i < j < |ts| ==> ts[i].secret != ts[j].secret
  }

  ghost predicate Inv(s: Store)
  {
    Linear(s.tokens) && OneUserPerFamily(s.tokens) && OnlyNewestActive(s.tokens) &&
    DistinctSecrets(s.tokens)
  }

  /** `after` has the rows of `before`, at most newly revoked, and perhaps more rows. */
  ghost predicate OnlyRevokes(before: seq<RefreshToken>, after: seq<RefreshToken>)
  {
    |before| <= |after| &&
    forall i :: 0 <= i < |before| ==>
      after[i] == before[i] || (before[i].revokedAt.None? && after[i] == before[i].(revokedAt := after[i].revokedAt))
  }

  /** Rows agree in everything but revocation, and nothing is un-revoked. */
  lemma RevokingKeepsInv(a: seq<RefreshToken>, b: seq<RefreshToken>)
    requires |a| == |b| && OnlyRevokes(a, b)
    requires Linear(a) && OneUserPerFamily(a) && OnlyNewestActive(a) && DistinctSecrets(a)
    ensures Linear(b) && OneUserPerFamily(b) && OnlyNewestActive(b) && DistinctSecrets(b)
  {
    forall j | 0 <= j < |b| ensures LinkedAt(b, j) {
      assert LinkedAt(a, j);
    }
  }

  /** Appending a token keeps the lineages in order if it starts a new family, or follows the
      newest token of its family and that one is revoked. */
  lemma AppendKeepsInv(a: seq<RefreshToken>, t: RefreshToken)
    requires Linear(a) && OneUserPerFamily(a) && OnlyNewestActive(a) && DistinctSecrets(a)
    requires forall i :: 0 <= i < |a| ==> a[i].secret != t.secret
    requires LinkedAt(a + [t], |a|)
    requires t.rotatedFrom.Some? ==>
      a[t.rotatedFrom.value].user == t.user && a[t.rotatedFrom.value].revokedAt.Some?
    ensures var b := a + [t];
      Linear(b) && OneUserPerFamily(b) && OnlyNewestActive(b) && DistinctSecrets(b)
  {
    var b := a + [t];
    forall j | 0 <= j < |b| ensures LinkedAt(b, j) {
      if j < |a| {
        assert LinkedAt(a, j);
      }
    }
    forall i | 0 <= i < |a| && b[i].family == t.family
      ensures b[i].user == t.user && b[i].revokedAt.Some?
    {
      var p := t.rotatedFrom.value;
      assert i <= p;
    }
  }

  lemma RefreshKeepsInv(cfg: Settings, s: Store, e: Event)
    requires Inv(s) && e.Refresh? && Possible(s, e)
    ensures Inv(Step(cfg, s, e).0)
    ensures OnlyRevokes(s.tokens, Step(cfg, s, e).0.tokens)
  {
    hide Linear, OneUserPerFamily, OnlyNewestActive, DistinctSecrets;
    var after := Step(cfg, s, e).0.tokens;
    if |after| == |s.tokens| {
      RevokingKeepsInv(s.tokens, after);
    } else {
      var p := FindToken(s.tokens, e.presented).value;
      RotationKeepsInv(s.tokens, p, e.now, after[|s.tokens|]);
    }
  }

  /** Revoking an active token and appending its successor. */
  lemma RotationKeepsInv(ts: seq<RefreshToken>, p: nat, now: int, child: RefreshToken)
    requires Linear(ts) && OneUserPerFamily(ts) && OnlyNewestActive(ts) && DistinctSecrets(ts)
    requires p < |ts| && ts[p].revokedAt.None? && child.rotatedFrom == Some(p)
    requires child.user == ts[p].user && child.family == ts[p].family
    requires forall i :: 0 <= i < |ts| ==> ts[i].secret != child.secret
    ensures var after := ts[p := ts[p].(revokedAt := Some(now))] + [child];
      Linear(after) && OneUserPerFamily(after) && OnlyNewestActive(after) && DistinctSecrets(after) &&
      OnlyRevokes(ts, after)
  {
    hide Linear, OneUserPerFamily, DistinctSecrets;
    var mid := ts[p := ts[p].(revokedAt := Some(now))];
    RevokingKeepsInv(ts, mid);
    assert forall i :: p < i < |mid| ==> mid[i].family != child.family;
    AppendKeepsInv(mid, child);
  }

  /** Every step keeps every lineage in order and never un-revokes or edits a token row. */
  lemma StepKeepsInv(cfg: Settings, s: Store, e: Event)
    requires Inv(s) && Possible(s, e)
    ensures Inv(Step(cfg, s, e).0)
    ensures OnlyRevokes(s.tokens, Step(cfg, s, e).0.tokens)
  {
    var after := Step(cfg, s, e).0.tokens;
    if e.Refresh? {
      RefreshKeepsInv(cfg, s, e);
    } else if e.Login? && |after| > |s.tokens| {
      AppendKeepsInv(s.tokens, after[|s.tokens|]);
    } else {
      RevokingKeepsInv(s.tokens, after);
    }
  }

  lemma {:induction false} RunKeepsInv(cfg: Settings, stores: seq<Store>, events: seq<Event>, k: nat)
    requires Run(cfg, stores, events) && Inv(stores[0]) && k < |stores|
    ensures Inv(stores[k])
  {
    if k > 0 {
      RunKeepsInv(cfg, stores, events, k - 1);
      StepKeepsInv(cfg, stores[k - 1], events[k - 1]);
    }
  }

  /** Over every run from the empty store: each family has one user and is a single linear
      chain of rotations in which only the newest token can be unrevoked. */
  lemma LineagesStayLinear(cfg: Settings, stores: seq<Store>, events: seq<Event>, k: nat)
    requires Run(cfg, stores, events) && stores[0] == EMPTY && k < |stores|
    ensures Inv(stores[k])
  {
    RunKeepsInv(cfg, stores, events, k);
  }

  /** No token is rotated into two: a token has at most one successor. */
  lemma AtMostOneSuccessor(s: Store, i: nat, j: nat, p: nat)
    requires Inv(s) && i < |s.tokens| && j < |s.tokens|
    requires s.tokens[i].rotatedFrom == Some(p) == s.tokens[j].rotatedFrom
    ensures i == j
  {
    assert LinkedAt(s.tokens, i) && LinkedAt(s.tokens, j);
  }

  // --------------------------------------------------------------------- single use

  /** An event in which presenting `secret` was answered with a new token pair. */
  predicate Redeems(cfg: Settings, s: Store, e: Event, secret: string)
  {
    e.Refresh? && e.presented == secret && RefreshStep(cfg, s, secret, e.now, e.secret).1.Issued?
  }

  lemma SecretFound(s: Store, i: nat)
    requires DistinctSecrets(s.tokens) && i < |s.tokens|
    ensures FindToken(s.tokens, s.tokens[i].secret) == Some(i)
  {
  }

  lemma {:induction false} RowsPersist(cfg: Settings, stores: seq<Store>, events: seq<Event>, m: nat, k: nat, i: nat)
    requires Run(cfg, stores, events) && Inv(stores[0]) && m <= k < |stores| && i < |stores[m].tokens|
    ensures i < |stores[k].tokens|
    ensures stores[k].tokens[i] == stores[m].tokens[i].(revokedAt := stores[k].tokens[i].revokedAt)
    ensures stores[m].tokens[i].revokedAt.Some? ==> stores[k].tokens[i] == stores[m].tokens[i]
  {
    if k > m {
      RowsPersist(cfg, stores, events, m, k - 1, i);
      RunKeepsInv(cfg, stores, events, k - 1);
      StepKeepsInv(cfg, stores[k - 1], events[k - 1]);
    }
  }

  lemma {:induction false} RedeemRevokes(cfg: Settings, s: Store, e: Event, secret: string)
    requires Inv(s) && Possible(s, e) && Redeems(cfg, s, e, secret)
    ensures var i := FindToken(s.tokens, secret);
      i.Some? && s.tokens[i.value].revokedAt.None? &&
      Step(cfg, s, e).0.tokens[i.value].revokedAt.Some?
  {
  }

  /** In any run, each refresh token is redeemed at most once. */
  lemma RedeemedOnce(cfg: Settings, stores: seq<Store>, events: seq<Event>, m: nat, k: nat, secret: string)
    requires Run(cfg, stores, events) && Inv(stores[0]) && m < k < |events|
    requires Redeems(cfg, stores[m], events[m], secret)
    ensures !Redeems(cfg, stores[k], events[k], secret)
  {
    RunKeepsInv(cfg, stores, events, m);
    RunKeepsInv(cfg, stores, events, k);
    RedeemRevokes(cfg, stores[m], events[m], secret);
    var i := FindToken(stores[m].tokens, secret).value;
    StepKeepsInv(cfg, stores[m], events[m]);
    assert stores[m + 1] == Step(cfg, stores[m], events[m]).0;
    RowsPersist(cfg, stores, events, m + 1, k, i);
    SecretFound(stores[k], i);
  }

  // -------------------------------------------------------------------- dead families

  /** The family exists and none of its tokens is active. */
  ghost predicate Dead(ts: seq<RefreshToken>, family: nat)
  {
    (exists i :: 0 <= i < |ts| && ts[i].family == family) &&
    forall i :: 0 <= i < |ts| && ts[i].family == family ==> ts[i].revokedAt.Some?
  }

  /** A new row starts an unused family or continues that of an active token. */
  lemma {:induction false} NewRow(cfg: Settings, s: Store, e: Event, i: nat)
    requires Possible(s, e) && |s.tokens| <= i < |Step(cfg, s, e).0.tokens|
    ensures var family := Step(cfg, s, e).0.tokens[i].family;
      (forall p :: 0 <= p < |s.tokens| ==> s.tokens[p].family != family) ||
      exists p :: 0 <= p < |s.tokens| && s.tokens[p].family == family && s.tokens[p].revokedAt.None?
  {
    if e.Refresh? {
      var p := FindToken(s.tokens, e.presented).value;
      assert s.tokens[p].family == Step(cfg, s, e).0.tokens[i].family;
    }
  }

  lemma DeadStaysDead(cfg: Settings, s: Store, e: Event, family: nat)
    requires Inv(s) && Possible(s, e) && Dead(s.tokens, family)
    ensures Dead(Step(cfg, s, e).0.tokens, family)
  {
    hide Step, Inv;
    var after := Step(cfg, s, e).0.tokens;
    StepKeepsInv(cfg, s, e);
    var w :| 0 <= w < |s.tokens| && s.tokens[w].family == family;
    assert after[w].family == family;
    forall i | 0 <= i < |after| && after[i].family == family ensures after[i].revokedAt.Some? {
      if i < |s.tokens| {
        assert s.tokens[i].revokedAt.Some?;
      } else {
        NewRow(cfg, s, e, i);
      }
    }
  }

  lemma {:induction false} DeadForever(
      cfg: Settings, stores: seq<Store>, events: seq<Event>, m: nat, k: nat, family: nat)
    requires Run(cfg, stores, events) && Inv(stores[0]) && m <= k < |stores|
    requires Dead(stores[m].tokens, family)
    ensures Dead(stores[k].tokens, family)
  {
    hide Dead, Inv, Step;
    if k > m {
      DeadForever(cfg, stores, events, m, k - 1, family);
      RunKeepsInv(cfg, stores, events, k - 1);
      DeadStaysDead(cfg, stores[k - 1], events[k - 1], family);
    }
  }

  /** Once a family is dead it never has an active token again, and no refresh that presents
      one of its tokens, old or later, is ever answered with a new pair. */
  lemma DeadIsFinal(
      cfg: Settings, stores: seq<Store>, events: seq<Event>, m: nat, k: nat, family: nat, i: nat)
    requires Run(cfg, stores, events) && Inv(stores[0]) && m <= k < |stores|
    requires Dead(stores[m].tokens, family)
    requires i < |stores[k].tokens| && stores[k].tokens[i].family == family
    ensures stores[k].tokens[i].revokedAt.Some?
    ensures k < |events| ==> !Redeems(cfg, stores[k], events[k], stores[k].tokens[i].secret)
  {
    DeadForever(cfg, stores, events, m, k, family);
    RunKeepsInv(cfg, stores, events, k);
    SecretFound(stores[k], i);
  }

  /** Presenting a revoked token kills its whole family. */
  lemma {:induction false} ReuseKillsFamily(cfg: Settings, s: Store, e: Event)
    requires Inv(s) && Possible(s, e) && e.Refresh?
    requires Step(cfg, s, e).1 == Failed(RefreshTokenReused)
    ensures FindToken(s.tokens, e.presented).Some?
    ensures Dead(Step(cfg, s, e).0.tokens, s.tokens[FindToken(s.tokens, e.presented).value].family)
  {
    var p := FindToken(s.tokens, e.presented).value;
    var after := Step(cfg, s, e).0.tokens;
    assert after[p].family == s.tokens[p].family;
  }

  /** Detected reuse is final: from then on, through any further events, no token of the
      family is active or redeemable. */
  lemma ReuseIsFinal(cfg: Settings, stores: seq<Store>, events: seq<Event>, m: nat, k: nat, i: nat)
    requires Run(cfg, stores, events) && Inv(stores[0]) && m < k < |stores| && events[m].Refresh?
    requires Step(cfg, stores[m], events[m]).1 == Failed(RefreshTokenReused)
    requires i < |stores[k].tokens|
    requires
      var p := FindToken(stores[m].tokens, events[m].presented);
      p.Some? && stores[k].tokens[i].family == stores[m].tokens[p.value].family
    ensures stores[k].tokens[i].revokedAt.Some?
    ensures k < |events| ==> !Redeems(cfg, stores[k], events[k], stores[k].tokens[i].secret)
  {
    RunKeepsInv(cfg, stores, events, m);
    ReuseKillsFamily(cfg, stores[m], events[m]);
    assert stores[m + 1] == Step(cfg, stores[m], events[m]).0;
    DeadIsFinal(cfg, stores, events, m + 1, k, stores[k].tokens[i].family, i);
  }

  // ----------------------------------------------------------------- user-wide revocation

  /** The user whose sessions an event ends, if it succeeds in doing so. */
  function SignedOut(cfg: Settings, s: Store, e: Event): (u: Option<nat>)
    requires e.ChangePassword? || e.SetActive? ==> e.user < |s.users|
  {
    match e
    case LogoutAll(user, _) => Some(user)
    case ChangePassword(user, _, _, _) => if Step(cfg, s, e).1 == Done then Some(user) else None
    case ResetPassword(presented, _, now) =>
      if Step(cfg, s, e).1 == Done then Some(s.resets[FindReset(s.resets, presented, now).value].user)
      else None
    case _ => None
  }

  lemma {:induction false} SignOutKillsFamilies(cfg: Settings, s: Store, e: Event, i: nat)
    requires Inv(s) && Possible(s, e) && i < |s.tokens|
    requires SignedOut(cfg, s, e) == Some(s.tokens[i].user)
    ensures Dead(Step(cfg, s, e).0.tokens, s.tokens[i].family)
  {
    hide Step, SignedOut, Linear, OnlyNewestActive, DistinctSecrets;
    var after := Step(cfg, s, e).0.tokens;
    SignOutRevokes(cfg, s, e, s.tokens[i].user);
    forall j | 0 <= j < |after| && after[j].family == s.tokens[i].family
      ensures after[j].revokedAt.Some?
    {
      assert s.tokens[j].user == s.tokens[i].user;
    }
  }

  lemma {:induction false} SignOutRevokes(cfg: Settings, s: Store, e: Event, u: nat)
    requires Possible(s, e) && SignedOut(cfg, s, e) == Some(u)
    ensures var after := Step(cfg, s, e).0.tokens;
      |after| == |s.tokens| && forall j :: 0 <= j < |after| ==>
        after[j].family == s.tokens[j].family && (s.tokens[j].user == u ==> after[j].revokedAt.Some?)
  {
  }

  /** Logging out everywhere, changing the password and resetting the password end every
      lineage the user had: no token that existed then, and no descendant of one, is ever
      active or redeemable again. */
  lemma SignOutIsFinal(
      cfg: Settings, stores: seq<Store>, events: seq<Event>, m: nat, k: nat, i: nat, j: nat)
    requires Run(cfg, stores, events) && Inv(stores[0]) && m < k < |stores|
    requires i < |stores[m].tokens| && j < |stores[k].tokens|
    requires Possible(stores[m], events[m])
    requires SignedOut(cfg, stores[m], events[m]) == Some(stores[m].tokens[i].user)
    requires stores[k].tokens[j].family == stores[m].tokens[i].family
    ensures stores[k].tokens[j].revokedAt.Some?
    ensures k < |events| ==> !Redeems(cfg, stores[k], events[k], stores[k].tokens[j].secret)
  {
    RunKeepsInv(cfg, stores, events, m);
    SignOutKillsFamilies(cfg, stores[m], events[m], i);
    assert stores[m + 1] == Step(cfg, stores[m], events[m]).0;
    DeadIsFinal(cfg, stores, events, m + 1, k, stores[k].tokens[j].family, j);
  }

  /** Descent stays inside the family, so the family is the whole lineage. */
  ghost predicate DescendsFrom(ts: seq<RefreshToken>, j: nat, i: nat)
    requires j < |ts| && Linear(ts)
    decreases j
  {
    assert LinkedAt(ts, j);
    j == i || (ts[j].rotatedFrom.Some? && DescendsFrom(ts, ts[j].rotatedFrom.value, i))
  }

  /** Two tokens of a family, the later one always descends from the earlier one, and
      descendants are always of the same family. */
  lemma {:induction false} FamilyIsLineage(ts: seq<RefreshToken>, i: nat, j: nat)
    requires Linear(ts) && i <= j < |ts|
    ensures DescendsFrom(ts, j, i) <==> ts[i].family == ts[j].family
    decreases j
  {
    assert LinkedAt(ts, j);
    if i < j && ts[j].rotatedFrom.Some? {
      var p := ts[j].rotatedFrom.value;
      if i <= p {
        FamilyIsLineage(ts, i, p);
      } else {
        NotEarlier(ts, p, i);
      }
    }
  }

  lemma {:induction false} NotEarlier(ts: seq<RefreshToken>, j: nat, i: nat)
    requires Linear(ts) && j < i && j < |ts|
    ensures !DescendsFrom(ts, j, i)
    decreases j
  {
    assert LinkedAt(ts, j);
    if ts[j].rotatedFrom.Some? {
      NotEarlier(ts, ts[j].rotatedFrom.value, i);
    }
  }
}
