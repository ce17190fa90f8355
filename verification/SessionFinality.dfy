/** Exactly when the revocation of a session is final, in every interleaving. */
module SessionFinality {
  import opened SessionRevocation
  import opened SessionRuns
  import opened Sessions
  import opened Wrappers

  // ---------- user rows never fall behind ----------

  /** The subject has a row, at the version or past it. */
  ghost predicate HasRow(w: World, subject: string, version: int) {
    subject in w.users && version <= w.users[subject].version
  }

  /** The row of every session, and of every session about to be opened. */
  ghost predicate RowsOk(s: System) {
    && (forall sid :: sid in s.world.owners ==> HasRow(s.world, s.world.owners[sid].subject, s.world.owners[sid].version))
    && (forall id :: id in s.calls && s.calls[id].Opening? ==> HasRow(s.world, s.calls[id].subject, s.calls[id].user.version))
  }

  /** Time goes on, versions only grow, and a deleted row stays deleted. */
  ghost predicate RowsAge(w: World, w': World) {
    && w.now <= w'.now
    && forall u :: u in w.users ==>
         && u in w'.users && w.users[u].version <= w'.users[u].version
         && (w.users[u].deleted ==> w'.users[u].deleted)
  }

  lemma AdvanceLeavesRows(cfg: Config, w: World, call: Call)
    ensures Advance(cfg, w, call).0.users == w.users && Advance(cfg, w, call).0.now == w.now
  {}

  lemma AdvanceRows(cfg: Config, w: World, call: Call)
    requires call.Opening? ==> HasRow(w, call.subject, call.user.version)
    ensures var (w', call') := Advance(cfg, w, call);
            && (forall sid :: sid in w'.owners ==>
                  (sid in w.owners && w'.owners[sid] == w.owners[sid])
                  || HasRow(w, w'.owners[sid].subject, w'.owners[sid].version))
            && (call'.Opening? ==> HasRow(w, call'.subject, call'.user.version))
  {}

  lemma ApplyAges(cfg: Config, s: System, a: Action)
    requires Enabled(s, a)
    ensures RowsAge(s.world, Apply(cfg, s, a).world)
  {
    hide Advance, BeginRotate, BeginLogout;
    if a.Step? { AdvanceLeavesRows(cfg, s.world, s.calls[a.id]); }
  }

  lemma NoneBeginOpening(cfg: Config, w: World, a: Action)
    ensures a.StartRotate? ==> !BeginRotate(cfg, w, a.token).Opening?
    ensures a.StartLogout? ==> !BeginLogout(cfg, w, a.access, a.refresh).Opening?
  {}

  lemma ApplyRows(cfg: Config, s: System, a: Action)
    requires Enabled(s, a) && RowsOk(s)
    ensures RowsOk(Apply(cfg, s, a))
  {
    hide Advance, BeginRotate, BeginLogout;
    ApplyAges(cfg, s, a);
    if a.Step? {
      AdvanceLeavesRows(cfg, s.world, s.calls[a.id]);
      AdvanceRows(cfg, s.world, s.calls[a.id]);
    } else {
      NoneBeginOpening(cfg, s.world, a);
    }
  }

  lemma {:induction false} RunRows(cfg: Config, states: seq<System>, actions: seq<Action>, i: nat)
    requires Run(cfg, states, actions) && i < |states|
    ensures RowsOk(states[i])
  {
    hide Apply;
    if i > 0 {
      hide RowsOk;
      RunRows(cfg, states, actions, i - 1);
      ApplyRows(cfg, states[i - 1], actions[i - 1]);
    }
  }

  // ---------- the calls that can still get somewhere ----------

  /** The row the token would be checked against can be found, at the token's version. */
  predicate AtVersion(w: World, c: Claims) {
    FindUser(w, c.subject).Some? && FindUser(w, c.subject).value.version == c.version
  }

  /** The call can still consume or mint a token of the session, whatever the revocation. */
  predicate Able(w: World, call: Call, sid: nat) {
    match call
    case Reading(c) => c.sid == sid && w.now < c.expiresAt && AtVersion(w, c)
    case Timing(c, _) => c.sid == sid && w.now < c.expiresAt
    case Consuming(c, _, _) => c.sid == sid
    case _ => MintsFor(call, sid)
  }

  predicate NoneAble(s: System, sid: nat) {
    forall id :: id in s.calls ==> !Able(s.world, s.calls[id], sid)
  }

  /** From one state to a later one, nothing of the session was minted or consumed. */
  ghost predicate Idle(w: World, w': World, sid: nat) {
    && (forall c :: c in w'.minted && c.sid == sid ==> c in w.minted)
    && (forall k :: |w.consumed| <= k < |w'.consumed| ==> w'.consumed[k].token.sid != sid)
  }

  /** However the run goes on, nothing of the session is minted or consumed any more. */
  ghost predicate Final(cfg: Config, states: seq<System>, actions: seq<Action>, sid: nat)
    requires Run(cfg, states, actions)
  {
    forall states': seq<System>, actions': seq<Action> :: Run(cfg, states', actions') && states <= states' && actions <= actions' ==>
      Idle(states[|states| - 1].world, states'[|states'| - 1].world, sid)
  }

  /** The session is at its end: its tokens expire with the first marker, and no call can get anywhere. */
  ghost predicate Dead(cfg: Config, s: System, sid: nat, until: int) {
    var w := s.world;
    && sid in w.owners && sid in w.revoked && w.revoked[sid] >= until && until <= w.now + cfg.refreshTtl
    && (forall c :: c in w.minted && c.sid == sid ==> c.expiresAt <= until)
    && NoneAble(s, sid)
  }

  // ---------- if no call is able, the revocation is final ----------

  lemma AdvanceStaysDead(cfg: Config, s: System, id: nat, sid: nat, until: int)
    requires ValidConfig(cfg) && TokensOk(s.world) && Dead(cfg, s, sid, until) && id in s.calls && CallOk(s.world, s.calls[id])
    ensures var (w', call') := Advance(cfg, s.world, s.calls[id]);
            && sid in w'.owners && sid in w'.revoked && w'.revoked[sid] >= until && w'.now == s.world.now
            && (forall c :: c in w'.minted && c.sid == sid ==> c in s.world.minted)
            && !Able(w', call', sid)
  {
    assert !Able(s.world, s.calls[id], sid);
    hide Accepts;
  }

  /** A call that cannot get anywhere now cannot later, while it waits. */
  lemma StaysUnable(w: World, w': World, call: Call, sid: nat)
    requires RowsAge(w, w') && !Able(w, call, sid)
    requires call.Reading? ==> HasRow(w, call.token.subject, call.token.version)
    ensures !Able(w', call, sid)
  {}

  /** What the action does to the call it is about. */
  lemma TouchedIsUnable(cfg: Config, s: System, a: Action, id: nat, sid: nat, until: int)
    requires ValidConfig(cfg) && TokensOk(s.world) && Dead(cfg, s, sid, until) && Enabled(s, a)
    requires id in s.calls ==> CallOk(s.world, s.calls[id])
    requires var t := Apply(cfg, s, a); id in t.calls && (id !in s.calls || t.calls[id] != s.calls[id])
    ensures !Able(Apply(cfg, s, a).world, Apply(cfg, s, a).calls[id], sid)
  {
    hide Advance, Dead, TokensOk, Able, CallOk;
    if a.Step? {
      AdvanceStaysDead(cfg, s, a.id, sid, until);
    } else {
      BeginsUnable(cfg, s.world, Apply(cfg, s, a).world, a, sid);
    }
  }

  lemma BeginsUnable(cfg: Config, w: World, w': World, a: Action, sid: nat)
    ensures a.StartRotate? ==> !Able(w', BeginRotate(cfg, w, a.token), sid)
    ensures a.StartLogout? ==> !Able(w', BeginLogout(cfg, w, a.access, a.refresh), sid)
    ensures a.StartLogin? ==> !Able(w', LoggingIn(a.subject, a.matches), sid)
    ensures a.StartSignUp? ==> !Able(w', Opening(a.subject, NEW_USER), sid)
    ensures !Able(w', Done(StoreFailure), sid)
  {}

  lemma ApplyIdle(cfg: Config, s: System, a: Action, sid: nat, until: int)
    requires ValidConfig(cfg) && Inv(s) && Enabled(s, a) && Dead(cfg, s, sid, until)
    ensures Idle(s.world, Apply(cfg, s, a).world, sid)
    ensures var w := Apply(cfg, s, a).world; sid in w.owners && sid in w.revoked && w.revoked[sid] >= until
  {
    hide Advance, MarkersOk, UsedOk, SingleUse, AtVersion, BeginRotate, BeginLogout;
    ConsumesOnlyWhenConsuming(cfg, s, a);
    if a.Step? {
      assert CallOk(s.world, s.calls[a.id]) && !Able(s.world, s.calls[a.id], sid);
      AdvanceStaysDead(cfg, s, a.id, sid, until);
    }
  }

  lemma ApplyStaysDead(cfg: Config, s: System, a: Action, sid: nat, until: int)
    requires ValidConfig(cfg) && Inv(s) && RowsOk(s) && Enabled(s, a) && Dead(cfg, s, sid, until)
    ensures Dead(cfg, Apply(cfg, s, a), sid, until) && Idle(s.world, Apply(cfg, s, a).world, sid)
  {
    hide Apply, Enabled, MarkersOk, UsedOk, SingleUse, Able;
    var t := Apply(cfg, s, a);
    ApplyAges(cfg, s, a);
    ApplyIdle(cfg, s, a, sid, until);
    forall id | id in t.calls ensures !Able(t.world, t.calls[id], sid) {
      assert id in s.calls ==> CallOk(s.world, s.calls[id]);
      if id in s.calls && t.calls[id] == s.calls[id] {
        StaysUnable(s.world, t.world, s.calls[id], sid);
      } else {
        TouchedIsUnable(cfg, s, a, id, sid, until);
      }
    }
  }

  lemma RevocationIsDead(cfg: Config, states: seq<System>, actions: seq<Action>, i: nat, sid: nat)
    requires ValidConfig(cfg) && Run(cfg, states, actions) && Revokes(states, actions, i, sid)
    requires NoneAble(states[i + 1], sid)
    ensures Dead(cfg, states[i + 1], sid, states[i].world.now + cfg.refreshTtl)
  {
    RunKeeps(cfg, states, actions, i);
    RunExpiries(cfg, states, actions, i);
    assert CallOk(states[i].world, states[i].calls[actions[i].id]);
    hide Inv, Able;
  }

  lemma {:induction false} StaysDead(cfg: Config, states: seq<System>, actions: seq<Action>, i: nat, j: nat, sid: nat, until: int)
    requires ValidConfig(cfg) && Run(cfg, states, actions) && i <= j < |states| && Dead(cfg, states[i], sid, until)
    ensures Dead(cfg, states[j], sid, until) && Idle(states[i].world, states[j].world, sid)
  {
    hide Apply, Dead, Inv, RowsOk;
    if i < j {
      StaysDead(cfg, states, actions, i, j - 1, sid, until);
      RunKeeps(cfg, states, actions, j - 1);
      RunRows(cfg, states, actions, j - 1);
      ApplyStaysDead(cfg, states[j - 1], actions[j - 1], sid, until);
      ConsumesOnlyWhenConsuming(cfg, states[j - 1], actions[j - 1]);
    }
  }

  // ---------- if some call is able, the run can go on with it ----------

  /** The call's next access to the shared state. */
  lemma GoOn(cfg: Config, states: seq<System>, actions: seq<Action>, id: nat) returns (states': seq<System>, actions': seq<Action>)
    requires Run(cfg, states, actions) && id in states[|states| - 1].calls
    ensures Run(cfg, states', actions') && states <= states' && actions <= actions'
    ensures var s, s' := states[|states| - 1], states'[|states'| - 1];
            s' == System(Advance(cfg, s.world, s.calls[id]).0, s.calls[id := Advance(cfg, s.world, s.calls[id]).1])
  {
    hide Advance;
    states', actions' := Extend(cfg, states, actions, Step(id));
  }

  lemma MintingGoesOn(cfg: Config, states: seq<System>, actions: seq<Action>, id: nat, sid: nat)
      returns (states': seq<System>, actions': seq<Action>)
    requires Run(cfg, states, actions) && id in states[|states| - 1].calls && MintsFor(states[|states| - 1].calls[id], sid)
    ensures Run(cfg, states', actions') && states <= states' && actions <= actions'
    ensures !Idle(states[|states| - 1].world, states'[|states'| - 1].world, sid)
  {
    var w, call := states[|states| - 1].world, states[|states| - 1].calls[id];
    RunKeeps(cfg, states, actions, |states| - 1);
    states', actions' := GoOn(cfg, states, actions, id);
    var c := MintToken(cfg, w, if call.MintingAccess? then Access else Refresh, call.subject, call.user, sid).1;
    assert c in states'[|states'| - 1].world.minted && c.sid == sid && c.jti == w.nextJti;
  }

  /** A rotation that has measured the remaining lifetime consumes at the latest once the used-marker has lapsed. */
  lemma ConsumingGoesOn(cfg: Config, states: seq<System>, actions: seq<Action>, id: nat, c: Claims)
      returns (states': seq<System>, actions': seq<Action>)
    requires Run(cfg, states, actions) && id in states[|states| - 1].calls
    requires states[|states| - 1].calls[id].Consuming? && states[|states| - 1].calls[id].token == c
    ensures Run(cfg, states', actions') && states <= states' && actions <= actions'
    ensures !Idle(states[|states| - 1].world, states'[|states'| - 1].world, c.sid)
  {
    var s := states[|states| - 1];
    var lapse := if Present(s.world.used, c.jti, s.world.now) then s.world.used[c.jti] else s.world.now;
    states', actions' := Extend(cfg, states, actions, Tick(lapse));
    assert states'[|states'| - 1] == s.(world := s.world.(now := lapse));
    states', actions' := GoOn(cfg, states', actions', id);
    assert states'[|states'| - 1].world.consumed[|s.world.consumed|].token == c;
  }

  lemma TimingGoesOn(cfg: Config, states: seq<System>, actions: seq<Action>, id: nat, c: Claims)
      returns (states': seq<System>, actions': seq<Action>)
    requires Run(cfg, states, actions) && id in states[|states| - 1].calls
    requires states[|states| - 1].calls[id].Timing? && states[|states| - 1].calls[id].token == c
    requires states[|states| - 1].world.now < c.expiresAt
    ensures Run(cfg, states', actions') && states <= states' && actions <= actions'
    ensures !Idle(states[|states| - 1].world, states'[|states'| - 1].world, c.sid)
  {
    states', actions' := GoOn(cfg, states, actions, id);
    hide Idle;
    states', actions' := ConsumingGoesOn(cfg, states', actions', id, c);
  }

  /** A row at the token's version lets the rotation past, once it is active. */
  lemma ReadingGoesOn(cfg: Config, states: seq<System>, actions: seq<Action>, id: nat, c: Claims)
      returns (states': seq<System>, actions': seq<Action>)
    requires Run(cfg, states, actions) && id in states[|states| - 1].calls && states[|states| - 1].calls[id] == Reading(c)
    requires states[|states| - 1].world.now < c.expiresAt && AtVersion(states[|states| - 1].world, c)
    ensures Run(cfg, states', actions') && states <= states' && actions <= actions'
    ensures !Idle(states[|states| - 1].world, states'[|states'| - 1].world, c.sid)
  {
    var w := states[|states| - 1].world;
    states', actions' := Extend(cfg, states, actions, SetActive(c.subject, true));
    var w' := states'[|states'| - 1].world;
    assert w'.minted == w.minted && w'.consumed == w.consumed && w'.now == w.now;
    states', actions' := GoOn(cfg, states', actions', id);
    hide Idle;
    states', actions' := TimingGoesOn(cfg, states', actions', id, c);
    SameHistoryIdle(w, states'[|states'| - 1].world, w', c.sid);
  }

  lemma SameHistoryIdle(w: World, w'': World, w': World, sid: nat)
    requires w'.minted == w.minted && w'.consumed == w.consumed
    ensures Idle(w, w'', sid) <==> Idle(w', w'', sid)
  {}

  lemma AbleGoesOn(cfg: Config, states: seq<System>, actions: seq<Action>, id: nat, sid: nat)
      returns (states': seq<System>, actions': seq<Action>)
    requires Run(cfg, states, actions) && id in states[|states| - 1].calls
    requires Able(states[|states| - 1].world, states[|states| - 1].calls[id], sid)
    ensures Run(cfg, states', actions') && states <= states' && actions <= actions'
    ensures !Idle(states[|states| - 1].world, states'[|states'| - 1].world, sid)
  {
    var call := states[|states| - 1].calls[id];
    hide Run, Idle;
    match call
    case Reading(c) => states', actions' := ReadingGoesOn(cfg, states, actions, id, c);
    case Timing(c, _) => states', actions' := TimingGoesOn(cfg, states, actions, id, c);
    case Consuming(c, _, _) => states', actions' := ConsumingGoesOn(cfg, states, actions, id, c);
    case _ => states', actions' := MintingGoesOn(cfg, states, actions, id, sid);
  }

  // ---------- the exact condition ----------

  /**
   * At the moment a session is revoked, in any interleaving, the revocation is final - no continuation mints
   * or consumes a token of the session - exactly if no call in flight is able to: none is minting for it or
   * about to consume, none is about to measure the lifetime of an unexpired token, and none is about to read
   * a row that is still at the version of one.
   */
  lemma RevocationIsFinalIff(cfg: Config, states: seq<System>, actions: seq<Action>, sid: nat)
    requires ValidConfig(cfg) && Run(cfg, states, actions) && actions != [] && Revokes(states, actions, |actions| - 1, sid)
    ensures Final(cfg, states, actions, sid) <==> NoneAble(states[|states| - 1], sid)
  {
    hide Run, Able, Idle, Dead, Revokes;
    var last := |actions|;
    LengthOf(cfg, states, actions);
    var s := states[last];
    if NoneAble(s, sid) {
      var until := states[last - 1].world.now + cfg.refreshTtl;
      RevocationIsDead(cfg, states, actions, last - 1, sid);
      forall states': seq<System>, actions': seq<Action> | Run(cfg, states', actions') && states <= states' && actions <= actions'
        ensures Idle(s.world, states'[|states'| - 1].world, sid)
      {
        LengthOf(cfg, states', actions');
        StaysDead(cfg, states', actions', last, |states'| - 1, sid, until);
      }
    } else {
      var id :| id in s.calls && Able(s.world, s.calls[id], sid);
      var states', actions' := AbleGoesOn(cfg, states, actions, id, sid);
    }
  }

  lemma LengthOf(cfg: Config, states: seq<System>, actions: seq<Action>)
    requires Run(cfg, states, actions)
    ensures |states| == |actions| + 1
  {}

  // ---------- a condition on the moment before ----------

  predicate Under(call: Call, sid: nat) {
    (call.Reading? || call.Timing? || call.Consuming?) && call.token.sid == sid
  }

  /** No rotation of the session is past its check, and no pair is being minted for it. */
  predicate Quiet(s: System, sid: nat) {
    forall id :: id in s.calls ==> !Under(s.calls[id], sid) && !MintsFor(s.calls[id], sid)
  }

  /**
   * In particular, a revocation is final if no rotation of the session is past its check and none is minting
   * at that moment: no token of the session is ever consumed again, and none is minted.
   */
  lemma QuietRevocationIsFinal(cfg: Config, states: seq<System>, actions: seq<Action>, i: nat, j: nat, sid: nat)
    requires ValidConfig(cfg) && Run(cfg, states, actions) && i < j < |states|
    requires Revokes(states, actions, i, sid) && Quiet(states[i], sid)
    ensures Idle(states[i].world, states[j].world, sid)
    ensures forall id :: id in states[j].calls && states[j].calls[id].Consuming? ==> states[j].calls[id].token.sid != sid
  {
    var s, t := states[i], states[i + 1];
    forall id | id in t.calls ensures !Able(t.world, t.calls[id], sid) {
      assert id in s.calls && !Under(s.calls[id], sid) && !MintsFor(s.calls[id], sid);
    }
    assert t.world.minted == s.world.minted && t.world.consumed == s.world.consumed;
    hide Apply, Advance;
    RevocationIsDead(cfg, states, actions, i, sid);
    StaysDead(cfg, states, actions, i + 1, j, sid, states[i].world.now + cfg.refreshTtl);
    SameHistoryIdle(s.world, states[j].world, t.world, sid);
    forall id | id in states[j].calls && states[j].calls[id].Consuming? ensures states[j].calls[id].token.sid != sid {
      assert !Able(states[j].world, states[j].calls[id], sid);
    }
  }
}
