/** How long tokens are accepted, in every interleaving, counted from the moment they are minted. */
module SessionLifetimes {
  import opened SessionFinality
  import opened SessionRevocation
  import opened SessionRuns
  import opened Sessions
  import opened Wrappers

  // ---------- versions are positive ----------

  ghost predicate VersionsOk(s: System) {
    && (forall u :: u in s.world.users ==> s.world.users[u].version > 0)
    && (forall sid :: sid in s.world.owners ==> s.world.owners[sid].version > 0)
    && (forall id :: id in s.calls && s.calls[id].Opening? ==> s.calls[id].user.version > 0)
  }

  lemma AdvanceVersions(cfg: Config, w: World, call: Call)
    requires (forall u :: u in w.users ==> w.users[u].version > 0) && (call.Opening? ==> call.user.version > 0)
    ensures var (w', call') := Advance(cfg, w, call);
            && (forall sid :: sid in w'.owners ==> (sid in w.owners && w'.owners[sid] == w.owners[sid]) || w'.owners[sid].version > 0)
            && (call'.Opening? ==> call'.user.version > 0)
  {}

  lemma ApplyVersions(cfg: Config, s: System, a: Action)
    requires Enabled(s, a) && VersionsOk(s)
    ensures VersionsOk(Apply(cfg, s, a))
  {
    hide Advance, BeginRotate, BeginLogout;
    if a.Step? {
      AdvanceLeavesRows(cfg, s.world, s.calls[a.id]);
      AdvanceVersions(cfg, s.world, s.calls[a.id]);
    } else {
      NoneBeginOpening(cfg, s.world, a);
    }
  }

  lemma {:induction false} RunVersions(cfg: Config, states: seq<System>, actions: seq<Action>, i: nat)
    requires Run(cfg, states, actions) && i < |states|
    ensures VersionsOk(states[i])
  {
    hide Apply;
    if i > 0 {
      hide VersionsOk;
      RunVersions(cfg, states, actions, i - 1);
      ApplyVersions(cfg, states[i - 1], actions[i - 1]);
    }
  }

  // ---------- what changes the user rows ----------

  /** A row starts active at version 1; only a password update changes its version, by one, and only if it is not deleted. */
  lemma RowsChangeAsAsked(cfg: Config, s: System, a: Action, u: string)
    requires Enabled(s, a)
    ensures var before, after := s.world.users, Apply(cfg, s, a).world.users;
            && (u in after <==> u in before || (a.StartSignUp? && a.subject == u))
            && (a.StartSignUp? && a.subject == u ==> u !in before && after[u] == User(1, true, false))
            && (u in before ==>
                  && after[u].version == before[u].version + (if a == ChangePassword(u) && !before[u].deleted then 1 else 0)
                  && after[u].active == (if a.SetActive? && a.subject == u then a.active else before[u].active)
                  && after[u].deleted == (before[u].deleted || a == RemoveUser(u)))
  {
    hide Advance, BeginRotate, BeginLogout;
    if a.Step? { AdvanceLeavesRows(cfg, s.world, s.calls[a.id]); }
  }

  // ---------- what is minted, and when ----------

  lemma AdvanceMints(cfg: Config, w: World, call: Call, c: Claims)
    requires c in Advance(cfg, w, call).0.minted && c !in w.minted
    ensures c.kind == Access ==> IsToken(c, Access, c.subject, c.sid, c.version, w.now, cfg.accessTtl)
    ensures c.kind == Refresh ==> IsToken(c, Refresh, c.subject, c.sid, c.version, w.now, cfg.refreshTtl)
  {
    hide NewToken, IsToken;
    if call.MintingAccess? || call.MintingRefresh? {
      NewTokensAre(cfg, w.nextJti, call.subject, call.sid, call.user.version, w.now);
      MintedContents(cfg, w, if call.MintingAccess? then Access else Refresh, call.subject, call.user, call.sid);
    }
  }

  lemma MintedContents(cfg: Config, w: World, kind: Kind, subject: string, user: User, sid: nat)
    ensures var c := MintToken(cfg, w, kind, subject, user, sid).1;
            c.kind == kind && c.subject == subject && c.sid == sid && c.version == user.version
  {}

  lemma StepMints(cfg: Config, s: System, a: Action, c: Claims)
    requires Enabled(s, a) && c in Apply(cfg, s, a).world.minted && c !in s.world.minted
    ensures c.kind == Access ==> IsToken(c, Access, c.subject, c.sid, c.version, s.world.now, cfg.accessTtl)
    ensures c.kind == Refresh ==> IsToken(c, Refresh, c.subject, c.sid, c.version, s.world.now, cfg.refreshTtl)
  {
    hide Advance, BeginRotate, BeginLogout, IsToken;
    if a.Step? { AdvanceMints(cfg, s.world, s.calls[a.id], c); }
  }

  // ---------- how long it is accepted ----------

  /** Action i mints the token. */
  ghost predicate Mints(states: seq<System>, actions: seq<Action>, i: nat, c: Claims) {
    i < |actions| < |states| && c in states[i + 1].world.minted && c !in states[i].world.minted
  }

  lemma MintedStays(cfg: Config, states: seq<System>, actions: seq<Action>, i: nat, j: nat, c: Claims)
    requires ValidConfig(cfg) && Run(cfg, states, actions) && Mints(states, actions, i, c) && i < j < |states|
    ensures c in states[j].world.minted && c.version > 0 && states[i].world.now <= states[j].world.now
  {
    hide Apply, Enabled, Inv;
    RunGrows(cfg, states, actions, i + 1, j);
    TimeGrows(cfg, states, actions, i, j);
    RunKeeps(cfg, states, actions, j);
    RunVersions(cfg, states, actions, j);
    assert TokensOk(states[j].world) by { InvTokens(states[j]); }
  }

  lemma InvTokens(s: System)
    requires Inv(s)
    ensures TokensOk(s.world)
  {}

  /**
   * In every interleaving, an access token is accepted from its minting on, as long as the user's row is there,
   * active and at the token's version, until its own lifetime and 30 seconds have passed - up to the full
   * second - and is refused from then on.
   */
  lemma AccessTokenLifetime(cfg: Config, states: seq<System>, actions: seq<Action>, i: nat, j: nat, c: Claims)
    requires ValidConfig(cfg) && Run(cfg, states, actions) && Mints(states, actions, i, c) && i < j < |states|
    requires c.kind == Access
    ensures var m, w := states[i].world.now, states[j].world;
            && (w.now >= m + cfg.accessTtl + 30_000 ==> !AccessAllowed(cfg, w, c))
            && (w.now < m + cfg.accessTtl - 1000 + 30_000 ==>
                  (AccessAllowed(cfg, w, c)
                   <==> && c.subject in w.users && !w.users[c.subject].deleted && w.users[c.subject].active
                        && w.users[c.subject].version == c.version))
  {
    hide Apply;
    MintedStays(cfg, states, actions, i, j, c);
    StepMints(cfg, states[i], actions[i], c);
  }

  /** A refresh token is no access token, and is rotated at no time past its own lifetime. */
  lemma RefreshTokenLifetime(cfg: Config, states: seq<System>, actions: seq<Action>, i: nat, j: nat, c: Claims, user: User)
    requires ValidConfig(cfg) && Run(cfg, states, actions) && Mints(states, actions, i, c) && i < j < |states|
    requires c.kind == Refresh
    ensures var m, w := states[i].world.now, states[j].world;
            && !AccessAllowed(cfg, w, c)
            && (w.now >= m + cfg.refreshTtl ==> Advance(cfg, w, Timing(c, user)).1 == Done(InvalidToken))
            && (w.now <= m + cfg.refreshTtl - 1000 ==>
                  && BeginRotate(cfg, w, Signed(c)) == Checking(c)
                  && Advance(cfg, w, Timing(c, user)).1 == Consuming(c, user, c.expiresAt - w.now))
  {
    hide Apply;
    MintedStays(cfg, states, actions, i, j, c);
    StepMints(cfg, states[i], actions[i], c);
  }
}
