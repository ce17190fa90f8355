/** What revoking a session does in an interleaving: how long it is in force, and which tokens can still be consumed. */
module SessionRevocation {
  import opened SessionRuns
  import opened Sessions

  // ---------- expiry times and markers in every interleaving ----------

  /** No token and no revocation marker lasts longer than a refresh lifetime from now. */
  ghost predicate ExpiriesOk(cfg: Config, w: World) {
    && (forall c :: c in w.minted ==> c.expiresAt <= w.now + cfg.refreshTtl)
    && (forall sid :: sid in w.revoked ==> w.revoked[sid] <= w.now + cfg.refreshTtl)
  }

  lemma AdvanceExpiries(cfg: Config, w: World, call: Call)
    requires ValidConfig(cfg) && ExpiriesOk(cfg, w)
    ensures ExpiriesOk(cfg, Advance(cfg, w, call).0) && MarkersGrow(w, Advance(cfg, w, call).0)
  {}

  lemma ApplyExpiries(cfg: Config, s: System, a: Action)
    requires ValidConfig(cfg) && Enabled(s, a) && ExpiriesOk(cfg, s.world)
    ensures ExpiriesOk(cfg, Apply(cfg, s, a).world) && MarkersGrow(s.world, Apply(cfg, s, a).world)
  {
    hide Advance, BeginRotate, BeginLogout;
    if a.Step? { AdvanceExpiries(cfg, s.world, s.calls[a.id]); }
  }

  lemma {:induction false} RunExpiries(cfg: Config, states: seq<System>, actions: seq<Action>, i: nat)
    requires ValidConfig(cfg) && Run(cfg, states, actions) && i < |states|
    ensures ExpiriesOk(cfg, states[i].world)
  {
    hide Apply;
    if i > 0 {
      hide ExpiriesOk;
      RunExpiries(cfg, states, actions, i - 1);
      ApplyExpiries(cfg, states[i - 1], actions[i - 1]);
    }
  }

  /** Markers are never shortened, in any interleaving. */
  lemma {:induction false} RunMarkers(cfg: Config, states: seq<System>, actions: seq<Action>, i: nat, j: nat)
    requires ValidConfig(cfg) && Run(cfg, states, actions) && i <= j < |states|
    ensures MarkersGrow(states[i].world, states[j].world)
  {
    hide Apply, ExpiriesOk;
    if i < j {
      RunMarkers(cfg, states, actions, i, j - 1);
      RunExpiries(cfg, states, actions, j - 1);
      ApplyExpiries(cfg, states[j - 1], actions[j - 1]);
    }
  }

  // ---------- the check that a rotation passed ----------

  /** The call has checked the token's session and has not consumed the token yet. */
  predicate PastCheck(call: Call, c: Claims) {
    (call.Reading? || call.Timing? || call.Consuming?) && call.token == c
  }

  /** At h, the call checked the token's session, when no revocation was in force. */
  ghost predicate Checks(states: seq<System>, actions: seq<Action>, h: nat, id: nat, c: Claims) {
    && h < |actions| < |states| && actions[h] == Step(id) && id in states[h].calls && states[h].calls[id] == Checking(c)
    && !Present(states[h].world.revoked, c.sid, states[h].world.now)
  }

  lemma OneStepBack(cfg: Config, s: System, a: Action, id: nat, c: Claims)
    requires Enabled(s, a) && id in Apply(cfg, s, a).calls && PastCheck(Apply(cfg, s, a).calls[id], c)
    ensures id in s.calls
    ensures var call, call' := s.calls[id], Apply(cfg, s, a).calls[id];
            || (PastCheck(call, c) && (call'.Consuming? && !call.Consuming? ==> s.world.now < c.expiresAt))
            || (a == Step(id) && call == Checking(c) && !Present(s.world.revoked, c.sid, s.world.now) && call'.Reading?)
  {}

  /** Every rotation that is past its check made it, before its token expired if it has measured the remaining lifetime. */
  lemma {:induction false} CheckedBefore(cfg: Config, states: seq<System>, actions: seq<Action>, j: nat, id: nat, c: Claims)
      returns (h: nat)
    requires Run(cfg, states, actions) && j < |states| && id in states[j].calls && PastCheck(states[j].calls[id], c)
    ensures h < j && Checks(states, actions, h, id, c)
    ensures states[j].calls[id].Consuming? ==> states[h].world.now < c.expiresAt
  {
    hide Apply, Enabled, Grows;
    assert j > 0;
    var s, a := states[j - 1], actions[j - 1];
    OneStepBack(cfg, s, a, id, c);
    if PastCheck(s.calls[id], c) {
      h := CheckedBefore(cfg, states, actions, j - 1, id, c);
      TimeGrows(cfg, states, actions, h, j - 1);
    } else {
      h := j - 1;
    }
  }

  lemma TimeGrows(cfg: Config, states: seq<System>, actions: seq<Action>, i: nat, j: nat)
    requires Run(cfg, states, actions) && i <= j < |states|
    ensures states[i].world.now <= states[j].world.now
  {
    RunGrows(cfg, states, actions, i, j);
  }

  // ---------- what can be consumed after a revocation ----------

  /** Action i sets the revocation marker of a session. */
  ghost predicate Revokes(states: seq<System>, actions: seq<Action>, i: nat, sid: nat) {
    && i < |actions| < |states| && actions[i].Step? && actions[i].id in states[i].calls
    && states[i].calls[actions[i].id].Revoking? && states[i].calls[actions[i].id].sid == sid
  }

  lemma MarkerSet(cfg: Config, states: seq<System>, actions: seq<Action>, i: nat, sid: nat)
    requires Run(cfg, states, actions) && Revokes(states, actions, i, sid)
    ensures var w, w' := states[i].world, states[i + 1].world;
            sid in w'.revoked && w'.revoked[sid] == w.now + cfg.refreshTtl && w'.minted == w.minted && w'.now == w.now
  {}

  /**
   * In every interleaving, once a session has been revoked, a token of it is tried for consumption only by a
   * rotation that had checked the session before, or one that checked it after the marker had lapsed, with a
   * token that was minted after the revocation.
   */
  lemma ConsumedAfterRevocation(cfg: Config, states: seq<System>, actions: seq<Action>, i: nat, j: nat, id: nat, c: Claims)
      returns (h: nat)
    requires ValidConfig(cfg) && Run(cfg, states, actions) && i < j < |actions| && Revokes(states, actions, i, c.sid)
    requires actions[j] == Step(id) && id in states[j].calls && states[j].calls[id].Consuming? && states[j].calls[id].token == c
    ensures h < j && Checks(states, actions, h, id, c)
    ensures h < i || (states[i].world.now + cfg.refreshTtl <= states[h].world.now && c !in states[i + 1].world.minted)
  {
    hide Apply, Advance;
    h := CheckedBefore(cfg, states, actions, j, id, c);
    assert h != i;
    if h > i {
      MarkerSet(cfg, states, actions, i, c.sid);
      RunMarkers(cfg, states, actions, i + 1, h);
      RunExpiries(cfg, states, actions, i);
    }
  }

  // ---------- calls on their way to a new token ----------

  predicate MintsFor(call: Call, sid: nat) {
    (call.MintingAccess? || call.MintingRefresh?) && call.sid == sid
  }
}
