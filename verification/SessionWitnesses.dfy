/** Runs, for every configuration, that show what the laws of interleaved sessions have to exclude, or need not. */
module SessionWitnesses {
  import opened SessionFinality
  import opened SessionRevocation
  import opened SessionRuns
  import opened Sessions
  import opened Wrappers

  /** The runs start just before a full second, so that the first refresh token has a lifetime left however short it is. */
  const T0: int := 999

  /** The refresh token of the first session. */
  function First(cfg: Config): (r: Claims) {
    NewToken(cfg, Refresh, 1, "u", 0, 1, T0)
  }

  /** The refresh token minted by a rotation that is delayed by a second. */
  function Late(cfg: Config): (r: Claims) {
    NewToken(cfg, Refresh, 3, "u", 0, 1, T0 + 1000)
  }

  lemma FirstLives(cfg: Config, kind: Kind)
    requires ValidConfig(cfg)
    ensures T0 < First(cfg).expiresAt <= T0 + cfg.refreshTtl
    ensures Accepts(cfg, First(cfg), kind, T0) <==> kind == Refresh
  {
    FreshTokensParse(cfg, Refresh, kind, 1, "u", 0, 1, T0, T0);
  }

  lemma LateOutlivesMarker(cfg: Config, now: int)
    requires ValidConfig(cfg) && now == (if cfg.refreshTtl < 1000 then T0 + 1000 else T0 + cfg.refreshTtl)
    ensures T0 + cfg.refreshTtl <= now < Late(cfg).expiresAt
    ensures Accepts(cfg, Late(cfg), Refresh, now)
  {
    FreshTokensParse(cfg, Refresh, Refresh, 3, "u", 0, 1, T0 + 1000, now);
  }

  // ---------- taking steps ----------

  lemma StepCall(cfg: Config, states: seq<System>, actions: seq<Action>, id: nat)
      returns (states': seq<System>, actions': seq<Action>)
    requires Run(cfg, states, actions) && id in states[|states| - 1].calls
    ensures Run(cfg, states', actions') && |states'| == |states| + 1 && states <= states' && actions' == actions + [Step(id)]
    ensures var s := states[|states| - 1];
            var (w, call) := Advance(cfg, s.world, s.calls[id]);
            states'[|states|] == System(w, s.calls[id := call])
  {
    hide Advance;
    states', actions' := Extend(cfg, states, actions, Step(id));
  }

  lemma OpenSession(cfg: Config) returns (states: seq<System>, actions: seq<Action>)
    ensures Run(cfg, states, actions)
    ensures states[|states| - 1]
            == System(Start(T0).world.(users := map["u" := NEW_USER], nextSid := 1, owners := map[0 := Session("u", 1)]),
                      map[0 := MintingAccess("u", NEW_USER, 0, None)])
  {
    states, actions := [Start(T0)], [];
    states, actions := Extend(cfg, states, actions, StartSignUp(0, "u"));
    states, actions := Extend(cfg, states, actions, Step(0));
  }

  /** A pair being minted for the user's session is issued, whatever the other calls do. */
  lemma IssuePair(cfg: Config, states: seq<System>, actions: seq<Action>, id: nat, origin: Option<nat>)
      returns (states': seq<System>, actions': seq<Action>)
    requires Run(cfg, states, actions) && id in states[|states| - 1].calls
    requires states[|states| - 1].calls[id] == MintingAccess("u", NEW_USER, 0, origin)
    ensures Run(cfg, states', actions') && |states| < |states'| && states <= states' && actions <= actions'
    ensures var s, s' := states[|states| - 1], states'[|states'| - 1];
            var w, w' := s.world, s'.world;
            var refresh := NewToken(cfg, Refresh, w.nextJti + 1, "u", 0, 1, w.now);
            && w' == w.(minted := w'.minted, nextJti := w.nextJti + 2, issued := w.issued + [Issue(refresh, origin)])
            && w.minted <= w'.minted && refresh in w'.minted
            && s'.calls == s.calls[id := Done(Issued(refresh))]
  {
    hide NewToken;
    states', actions' := StepCall(cfg, states, actions, id);
    assert states'[|states'| - 1].calls[id] == MintingRefresh("u", NEW_USER, 0, origin);
    states', actions' := StepCall(cfg, states', actions', id);
  }

  /** After the registration. */
  ghost predicate SignedUp(cfg: Config, s: System) {
    var w := s.world;
    && w.now == T0 && w.users == map["u" := NEW_USER] && w.used == map[] && w.revoked == map[] && w.consumed == []
    && First(cfg) in w.minted && w.nextJti == 2 && w.issued == [Issue(First(cfg), None)]
    && s.calls == map[0 := Done(Issued(First(cfg)))]
  }

  lemma SignUpRun(cfg: Config) returns (states: seq<System>, actions: seq<Action>)
    ensures Run(cfg, states, actions) && SignedUp(cfg, states[|states| - 1])
  {
    hide NewToken;
    states, actions := OpenSession(cfg);
    states, actions := IssuePair(cfg, states, actions, 0, None);
  }

  /** A rotation that has checked everything and measured the remaining lifetime, but not yet consumed. */
  lemma PrepareRotation(cfg: Config, states: seq<System>, actions: seq<Action>, id: nat, c: Claims)
      returns (states': seq<System>, actions': seq<Action>)
    requires Run(cfg, states, actions)
    requires var s := states[|states| - 1];
             && c in s.world.minted && id !in s.calls && c.subject == "u" && c.version == 1
             && Accepts(cfg, c, Refresh, s.world.now) && s.world.now < c.expiresAt
             && s.world.users == map["u" := NEW_USER] && !Present(s.world.revoked, c.sid, s.world.now)
    ensures Run(cfg, states', actions') && |states| < |states'| && states <= states' && actions <= actions'
    ensures var s, s' := states[|states| - 1], states'[|states'| - 1];
            s' == System(s.world, s.calls[id := Consuming(c, NEW_USER, c.expiresAt - s.world.now)])
  {
    hide Accepts;
    var s := states[|states| - 1];
    states', actions' := Extend(cfg, states, actions, StartRotate(id, Signed(c)));
    states', actions' := StepCall(cfg, states', actions', id);
    assert states'[|states'| - 1] == System(s.world, s.calls[id := Reading(c)]);
    states', actions' := StepCall(cfg, states', actions', id);
    assert states'[|states'| - 1] == System(s.world, s.calls[id := Timing(c, NEW_USER)]);
    states', actions' := StepCall(cfg, states', actions', id);
  }

  lemma Consume(cfg: Config, states: seq<System>, actions: seq<Action>, id: nat, c: Claims, ttl: int)
      returns (states': seq<System>, actions': seq<Action>)
    requires Run(cfg, states, actions) && c.subject == "u" && c.sid == 0
    requires var s := states[|states| - 1];
             id in s.calls && s.calls[id] == Consuming(c, NEW_USER, ttl) && !Present(s.world.used, c.jti, s.world.now)
    ensures Run(cfg, states', actions') && |states| < |states'| && states <= states' && actions <= actions'
    ensures var s, s' := states[|states| - 1], states'[|states'| - 1];
            s' == System(Mark(s.world, c, ttl), s.calls[id := MintingAccess("u", NEW_USER, 0, Some(|s.world.consumed|))])
  {
    states', actions' := StepCall(cfg, states, actions, id);
  }

  lemma Pass(cfg: Config, states: seq<System>, actions: seq<Action>, to: int) returns (states': seq<System>, actions': seq<Action>)
    requires Run(cfg, states, actions) && states[|states| - 1].world.now <= to
    ensures Run(cfg, states', actions') && |states| < |states'| && states <= states' && actions <= actions'
    ensures var s := states[|states| - 1]; states'[|states'| - 1] == s.(world := s.world.(now := to))
  {
    states', actions' := Extend(cfg, states, actions, Tick(to));
  }

  // ---------- one token, two pairs ----------

  /**
   * Without the bound on when markers are written, one pair per token fails, in every configuration: two
   * rotations measure the remaining lifetime, one consumes at once, the other only once the token has expired.
   */
  lemma DelayedRotationIssuesASecondPair(cfg: Config) returns (states: seq<System>, actions: seq<Action>)
    requires ValidConfig(cfg)
    ensures Run(cfg, states, actions)
    ensures var w := states[|states| - 1].world;
            && |w.issued| == 3 && w.issued[1].origin == Some(0) && w.issued[2].origin == Some(1)
            && |w.consumed| == 2 && w.consumed[0].token == w.consumed[1].token == First(cfg)
  {
    hide NewToken, Accepts;
    var c := First(cfg);
    var ttl := c.expiresAt - T0;
    FirstLives(cfg, Refresh);
    FirstClaims(cfg);
    hide First;
    states, actions := SignUpRun(cfg);
    states, actions := PrepareRotation(cfg, states, actions, 1, c);
    states, actions := PrepareRotation(cfg, states, actions, 2, c);
    states, actions := Consume(cfg, states, actions, 1, c, ttl);
    states, actions := IssuePair(cfg, states, actions, 1, Some(0));
    states, actions := Pass(cfg, states, actions, c.expiresAt);
    states, actions := Consume(cfg, states, actions, 2, c, ttl);
    states, actions := IssuePair(cfg, states, actions, 2, Some(1));
  }

  lemma FirstClaims(cfg: Config)
    ensures var c := First(cfg); c.kind == Refresh && c.jti == 1 && c.subject == "u" && c.sid == 0 && c.version == 1
  {}

  lemma LateClaims(cfg: Config)
    ensures var c := Late(cfg); c.kind == Refresh && c.jti == 3 && c.subject == "u" && c.sid == 0 && c.version == 1
    ensures Late(cfg) == NewToken(cfg, Refresh, 3, "u", 0, 1, T0 + 1000)
  {}

  // ---------- a revoked session that rotates again ----------

  lemma Logout(cfg: Config, states: seq<System>, actions: seq<Action>, id: nat, c: Claims)
      returns (states': seq<System>, actions': seq<Action>)
    requires Run(cfg, states, actions)
    requires var s := states[|states| - 1];
             c in s.world.minted && id !in s.calls && Accepts(cfg, c, Refresh, s.world.now)
    ensures Run(cfg, states', actions') && |states'| == |states| + 2 && states <= states' && actions <= actions'
    ensures states'[|states|].world == states[|states| - 1].world && Revokes(states', actions', |states|, c.sid)
    ensures forall k :: k in states[|states| - 1].calls ==>
              k in states'[|states|].calls && states'[|states|].calls[k] == states[|states| - 1].calls[k]
    ensures var s, s' := states[|states| - 1], states'[|states'| - 1];
            s' == System(s.world.(revoked := s.world.revoked[c.sid := s.world.now + cfg.refreshTtl]), s.calls[id := Done(LoggedOut)])
  {
    hide Accepts;
    var s := states[|states| - 1];
    states', actions' := Extend(cfg, states, actions, StartLogout(id, Nothing, Signed(c)));
    assert states'[|states'| - 1] == System(s.world, s.calls[id := Revoking(c.sid, LoggedOut)]);
    states', actions' := StepCall(cfg, states', actions', id);
    assert actions'[|states|] == Step(id);
  }

  ghost predicate Overtaken(cfg: Config, s: System) {
    var w := s.world;
    && w.now == T0 && w.users == map["u" := NEW_USER] && w.used.Keys == {1} && w.revoked == map[0 := T0 + cfg.refreshTtl]
    && |w.consumed| == 1 && w.nextJti == 2 && |w.issued| == 1
    && s.calls.Keys == {0, 1, 2} && s.calls[1] == MintingAccess("u", NEW_USER, 0, Some(0))
  }

  /** A rotation that has consumed the first token is overtaken by a logout. */
  lemma OvertakenRun(cfg: Config) returns (states: seq<System>, actions: seq<Action>, i: nat)
    requires ValidConfig(cfg)
    ensures Run(cfg, states, actions) && Revokes(states, actions, i, 0) && |states[i].world.consumed| == 1
    ensures !Quiet(states[i], 0)
    ensures Overtaken(cfg, states[|states| - 1])
  {
    hide NewToken, Accepts;
    var c := First(cfg);
    FirstLives(cfg, Refresh);
    FirstClaims(cfg);
    hide First;
    states, actions := SignUpRun(cfg);
    states, actions := PrepareRotation(cfg, states, actions, 1, c);
    states, actions := Consume(cfg, states, actions, 1, c, c.expiresAt - T0);
    i := |states|;
    states, actions := Logout(cfg, states, actions, 2, c);
    assert MintsFor(states[i].calls[1], 0);
  }

  /**
   * A revocation that is not quiet need not be final, in every configuration: a rotation that had consumed its
   * token before the logout mints its pair a second later, the new token outlives the marker, and is rotated.
   */
  lemma RevokedSessionRotatesAgain(cfg: Config) returns (states: seq<System>, actions: seq<Action>, i: nat)
    requires ValidConfig(cfg)
    ensures Run(cfg, states, actions) && Revokes(states, actions, i, 0) && !Quiet(states[i], 0)
    ensures var w := states[|states| - 1].world;
            && |states[i].world.consumed| == 1 && |w.consumed| == 2 && w.consumed[1].token.sid == 0
            && |w.issued| == 3 && w.issued[2].origin == Some(1) && w.issued[2].refresh.sid == 0
  {
    hide NewToken, Accepts, Late;
    var before, before';
    before, before', i := OvertakenRun(cfg);
    states, actions := LateRun(cfg, before, before');
    var c, now := Late(cfg), states[|states| - 1].world.now;
    LateOutlivesMarker(cfg, now);
    LateClaims(cfg);
    states, actions := PrepareRotation(cfg, states, actions, 3, c);
    states, actions := Consume(cfg, states, actions, 3, c, c.expiresAt - now);
    states, actions := IssuePair(cfg, states, actions, 3, Some(1));
    RevokesStays(before, before', states, actions, i);
    NewTokenSession(cfg, 5, now);
  }

  /** The overtaken rotation mints its pair a second later, and the marker lapses. */
  lemma LateRun(cfg: Config, before: seq<System>, before': seq<Action>) returns (states: seq<System>, actions: seq<Action>)
    requires ValidConfig(cfg) && Run(cfg, before, before') && Overtaken(cfg, before[|before| - 1])
    ensures Run(cfg, states, actions) && |before| < |states| && before <= states && before' <= actions
    ensures var s := states[|states| - 1];
            var w := s.world;
            && w.now == (if cfg.refreshTtl < 1000 then T0 + 1000 else T0 + cfg.refreshTtl)
            && w.users == map["u" := NEW_USER] && w.used.Keys == {1} && w.revoked == map[0 := T0 + cfg.refreshTtl]
            && |w.consumed| == 1 && w.nextJti == 4 && |w.issued| == 2 && Late(cfg) in w.minted && s.calls.Keys == {0, 1, 2}
  {
    hide NewToken, Late;
    LateClaims(cfg);
    states, actions := Pass(cfg, before, before', T0 + 1000);
    states, actions := IssuePair(cfg, states, actions, 1, Some(0));
    states, actions := Pass(cfg, states, actions, if cfg.refreshTtl < 1000 then T0 + 1000 else T0 + cfg.refreshTtl);
  }

  lemma NewTokenSession(cfg: Config, jti: nat, now: int)
    ensures NewToken(cfg, Refresh, jti, "u", 0, 1, now).sid == 0
  {}

  lemma RevokesStays(states: seq<System>, actions: seq<Action>, states': seq<System>, actions': seq<Action>, i: nat)
    requires Revokes(states, actions, i, 0) && states <= states' && actions <= actions' && |actions'| < |states'|
    ensures Revokes(states', actions', i, 0) && states'[i] == states[i]
  {}

  // ---------- a revocation that is final without being quiet ----------

  /** A rotation that has passed its check, and then a password update. */
  lemma OutdatedRun(cfg: Config) returns (states: seq<System>, actions: seq<Action>)
    requires ValidConfig(cfg)
    ensures Run(cfg, states, actions)
    ensures var s := states[|states| - 1];
            && s.world.now == T0 && s.world.users == map["u" := NEW_USER.(version := 2)] && First(cfg) in s.world.minted
            && s.calls == map[0 := Done(Issued(First(cfg))), 1 := Reading(First(cfg))]
  {
    hide NewToken, Accepts;
    var c := First(cfg);
    FirstLives(cfg, Refresh);
    FirstClaims(cfg);
    hide First;
    states, actions := SignUpRun(cfg);
    states, actions := Extend(cfg, states, actions, StartRotate(1, Signed(c)));
    states, actions := StepCall(cfg, states, actions, 1);
    states, actions := Extend(cfg, states, actions, ChangePassword("u"));
  }

  /**
   * A revocation that is not quiet can be final all the same, in every configuration: the rotation that is past
   * its check has yet to read a row that a password update has moved on.
   */
  lemma UnquietRevocationCanBeFinal(cfg: Config) returns (states: seq<System>, actions: seq<Action>)
    requires ValidConfig(cfg)
    ensures Run(cfg, states, actions) && actions != [] && Revokes(states, actions, |actions| - 1, 0)
    ensures !Quiet(states[|actions| - 1], 0) && Final(cfg, states, actions, 0)
  {
    hide NewToken, Accepts;
    var c := First(cfg);
    FirstLives(cfg, Refresh);
    FirstClaims(cfg);
    hide First;
    var before, before' := OutdatedRun(cfg);
    states, actions := Logout(cfg, before, before', 2, c);
    assert |actions| == |before| + 1;
    assert Under(states[|before|].calls[1], 0);
    hide Run, Revokes;
    RevocationIsFinalIff(cfg, states, actions, 0);
  }
}
