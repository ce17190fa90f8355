/** The authentication service with each call taken as one unit: families of refresh tokens over whole runs. */
module AuthService {
  import opened Sessions
  import opened SessionRuns
  import opened Wrappers

  // ---------- a call run to its end ----------

  function Rank(call: Call): (r: nat) {
    match call
    case Checking(_) => 7
    case Reading(_) => 6
    case Timing(_, _) => 5
    case Consuming(_, _, _) => 4
    case LoggingIn(_, _) => 5
    case Opening(_, _) => 4
    case MintingAccess(_, _, _, _) => 3
    case MintingRefresh(_, _, _, _) => 2
    case Revoking(_, _) => 1
    case Done(_) => 0
  }

  function Settle(cfg: Config, w: World, call: Call): (r: (World, Outcome))
    decreases Rank(call)
  {
    if call.Done? then (w, call.outcome)
    else
      var (w', call') := Advance(cfg, w, call);
      Settle(cfg, w', call')
  }

  lemma SettleStep(cfg: Config, w: World, call: Call)
    requires !call.Done?
    ensures Settle(cfg, w, call) == Settle(cfg, Advance(cfg, w, call).0, Advance(cfg, w, call).1)
  {
    hide Advance;
    AdvanceLowersRank(cfg, w, call);
  }

  lemma SettleDone(cfg: Config, w: World, outcome: Outcome)
    ensures Settle(cfg, w, Done(outcome)) == (w, outcome)
  {}

  lemma RevokingSettles(cfg: Config, w: World, sid: nat, after: Outcome)
    ensures Settle(cfg, w, Revoking(sid, after)) == (w.(revoked := w.revoked[sid := w.now + cfg.refreshTtl]), after)
  {
    hide Settle;
    SettleStep(cfg, w, Revoking(sid, after));
    SettleDone(cfg, w.(revoked := w.revoked[sid := w.now + cfg.refreshTtl]), after);
  }

  /** A call taken as one unit is one of the interleavings: the one in which nothing else moves. */
  lemma {:induction false} SettleIsARun(cfg: Config, states: seq<System>, actions: seq<Action>, id: nat)
      returns (states': seq<System>, actions': seq<Action>)
    requires Run(cfg, states, actions) && id in states[|states| - 1].calls
    ensures Run(cfg, states', actions') && states <= states'
    ensures var s := states[|states| - 1];
            var (w, outcome) := Settle(cfg, s.world, s.calls[id]);
            states'[|states'| - 1] == System(w, s.calls[id := Done(outcome)])
    decreases Rank(states[|states| - 1].calls[id])
  {
    hide Advance, Enabled;
    var s := states[|states| - 1];
    if s.calls[id].Done? {
      states', actions' := states, actions;
      assert s.calls[id := s.calls[id]] == s.calls;
    } else {
      StepEnabled(s, id);
      var more, moreActions := Extend(cfg, states, actions, Step(id));
      AdvanceLowersRank(cfg, s.world, s.calls[id]);
      assert Apply(cfg, s, Step(id)) == System(Advance(cfg, s.world, s.calls[id]).0, s.calls[id := Advance(cfg, s.world, s.calls[id]).1]);
      states', actions' := SettleIsARun(cfg, more, moreActions, id);
      var (w', call') := Advance(cfg, s.world, s.calls[id]);
      var outcome := Settle(cfg, w', call').1;
      assert Settle(cfg, s.world, s.calls[id]) == Settle(cfg, w', call');
      assert s.calls[id := call'][id := Done(outcome)] == s.calls[id := Done(outcome)];
    }
  }

  lemma StepEnabled(s: System, id: nat)
    requires id in s.calls
    ensures Enabled(s, Step(id))
  {}

  lemma AdvanceLowersRank(cfg: Config, w: World, call: Call)
    requires !call.Done?
    ensures Rank(Advance(cfg, w, call).1) < Rank(call)
  {}

  // ---------- the invariant of calls taken as units ----------

  ghost predicate Consumed(w: World, c: Claims) {
    exists i :: 0 <= i < |w.consumed| && w.consumed[i].token == c
  }

  /** Versions are positive, and every token has the dates of its minting. */
  ghost predicate DatesOk(cfg: Config, w: World) {
    && (forall u :: u in w.users ==> w.users[u].version > 0)
    && (forall sid :: sid in w.owners ==> w.owners[sid].version > 0)
    && (forall c :: c in w.minted ==> c.issuedAt <= w.now && c.expiresAt - c.issuedAt <= Lifetime(cfg, c.kind) + SKEW)
  }

  /** No token outlives a refresh lifetime from now, and a revocation marker outlives every token of its session. */
  ghost predicate LifetimesOk(cfg: Config, w: World) {
    && DatesOk(cfg, w)
    && (forall c :: c in w.minted ==> c.expiresAt <= w.now + cfg.refreshTtl)
    && (forall sid :: sid in w.revoked ==> sid in w.owners && w.revoked[sid] <= w.now + cfg.refreshTtl)
    && (forall c :: c in w.minted && c.sid in w.revoked ==> c.expiresAt <= w.revoked[c.sid])
  }

  /** A session has at most one refresh token that was not consumed. */
  ghost predicate OneUnconsumed(w: World) {
    forall c, d ::
      (&& c in w.minted && d in w.minted && c.kind == d.kind == Refresh && c.sid == d.sid
       && !Consumed(w, c) && !Consumed(w, d))
      ==> c == d
  }

  ghost predicate NoneUnconsumed(w: World, sid: nat) {
    forall c :: c in w.minted && c.kind == Refresh && c.sid == sid ==> Consumed(w, c)
  }

  ghost predicate FamiliesOk(cfg: Config, w: World) {
    WorldOk(w) && LifetimesOk(cfg, w) && OneUnconsumed(w)
  }

  /** What a call taken as a unit knows at each of its points. */
  ghost predicate UnitOk(cfg: Config, w: World, call: Call) {
    CallOk(w, call) &&
    match call
    case Checking(c) => c.kind == Refresh
    case Reading(c) => c.kind == Refresh && (c.sid in w.revoked ==> c.expiresAt <= w.now)
    case Timing(c, u) => c.kind == Refresh && (c.sid in w.revoked ==> c.expiresAt <= w.now)
    case Consuming(c, u, ttl) => c.kind == Refresh && c.sid !in w.revoked && ttl == c.expiresAt - w.now && ttl > 0
    case MintingAccess(subject, u, sid, origin) => sid !in w.revoked && NoneUnconsumed(w, sid)
    case MintingRefresh(subject, u, sid, origin) => sid !in w.revoked && NoneUnconsumed(w, sid)
    case Revoking(sid, after) => sid in w.owners && !after.Issued?
    case Opening(subject, u) => u.version > 0
    case _ => true
  }

  lemma ConsumedAfter(w: World, e: Consumption, c: Claims)
    ensures Consumed(w.(consumed := w.consumed + [e]), c) <==> Consumed(w, c) || c == e.token
  {
    var w' := w.(consumed := w.consumed + [e]);
    if i :| 0 <= i < |w.consumed| && w.consumed[i].token == c { assert w'.consumed[i].token == c; }
    if c == e.token { assert w'.consumed[|w.consumed|].token == c; }
    if i :| 0 <= i < |w'.consumed| && w'.consumed[i].token == c { if i < |w.consumed| { assert w.consumed[i].token == c; } }
  }

  /** A consumed token still has its marker until it expires: consuming succeeds only on unconsumed tokens. */
  lemma OnlyUnconsumedWin(w: World, c: Claims)
    requires MarkersOk(w) && !Present(w.used, c.jti, w.now) && w.now < c.expiresAt
    ensures !Consumed(w, c)
  {}

  lemma ConsumeKeepsFamilies(cfg: Config, w: World, c: Claims, u: User, ttl: int)
    requires FamiliesOk(cfg, w) && UnitOk(cfg, w, Consuming(c, u, ttl)) && !Present(w.used, c.jti, w.now)
    ensures var w' := Mark(w, c, ttl); LifetimesOk(cfg, w') && OneUnconsumed(w') && NoneUnconsumed(w', c.sid)
  {
    var w' := Mark(w, c, ttl);
    OnlyUnconsumedWin(w, c);
    forall d: Claims ensures Consumed(w', d) <==> Consumed(w, d) || d == c {
      ConsumedAfter(w, Consumption(c, w.now, w.now + ttl), d);
    }
    hide Consumed;
  }

  lemma MintKeepsFamilies(cfg: Config, w: World, kind: Kind, subject: string, u: User, sid: nat)
    requires ValidConfig(cfg) && FamiliesOk(cfg, w)
    requires sid in w.owners && w.owners[sid] == Session(subject, u.version) && sid !in w.revoked && NoneUnconsumed(w, sid)
    ensures var w' := MintToken(cfg, w, kind, subject, u, sid).0;
            LifetimesOk(cfg, w') && OneUnconsumed(w') && (kind == Access ==> NoneUnconsumed(w', sid))
  {
    var (w', n) := MintToken(cfg, w, kind, subject, u, sid);
    assert n.expiresAt <= w.now + cfg.refreshTtl;
    forall d: Claims ensures Consumed(w', d) <==> Consumed(w, d) {}
    hide Consumed, NewToken, WorldOk;
  }

  lemma UnitWorldKeeps(cfg: Config, w: World, call: Call)
    requires ValidConfig(cfg) && FamiliesOk(cfg, w) && UnitOk(cfg, w, call)
    ensures FamiliesOk(cfg, Advance(cfg, w, call).0)
  {
    AdvanceKeeps(cfg, w, call);
    hide Advance, UnitOk, CallOk, WorldOk, LifetimesOk, OneUnconsumed;
    match call
    case Consuming(_, _, _) => ConsumingKeepsFamilies(cfg, w, call);
    case Opening(_, _) => OpeningKeepsFamilies(cfg, w, call);
    case MintingAccess(_, _, _, _) => MintingKeepsFamilies(cfg, w, call);
    case MintingRefresh(_, _, _, _) => IssueKeepsFamilies(cfg, w, call);
    case Revoking(_, _) => RevokingKeepsFamilies(cfg, w, call);
    case _ => ReadingChangesNothing(cfg, w, call);
  }

  lemma ReadingChangesNothing(cfg: Config, w: World, call: Call)
    requires call.Checking? || call.Reading? || call.Timing? || call.LoggingIn? || call.Done?
    ensures Advance(cfg, w, call).0 == w
  {}

  lemma ConsumingKeepsFamilies(cfg: Config, w: World, call: Call)
    requires FamiliesOk(cfg, w) && UnitOk(cfg, w, call) && call.Consuming?
    ensures var w' := Advance(cfg, w, call).0; LifetimesOk(cfg, w') && OneUnconsumed(w')
  {
    hide LifetimesOk, OneUnconsumed, WorldOk;
    if !Present(w.used, call.token.jti, w.now) { ConsumeKeepsFamilies(cfg, w, call.token, call.user, call.ttl); }
  }

  lemma MintingKeepsFamilies(cfg: Config, w: World, call: Call)
    requires ValidConfig(cfg) && FamiliesOk(cfg, w) && UnitOk(cfg, w, call) && call.MintingAccess?
    ensures var w' := Advance(cfg, w, call).0; LifetimesOk(cfg, w') && OneUnconsumed(w')
  {
    hide LifetimesOk, OneUnconsumed, WorldOk, NewToken;
    MintKeepsFamilies(cfg, w, Access, call.subject, call.user, call.sid);
  }

  lemma RevokingKeepsFamilies(cfg: Config, w: World, call: Call)
    requires FamiliesOk(cfg, w) && UnitOk(cfg, w, call) && call.Revoking?
    ensures var w' := Advance(cfg, w, call).0; LifetimesOk(cfg, w') && OneUnconsumed(w')
  {
    hide LifetimesOk, OneUnconsumed, WorldOk;
    RevokeKeepsFamilies(cfg, w, call.sid);
  }

  lemma OpeningKeepsFamilies(cfg: Config, w: World, call: Call)
    requires FamiliesOk(cfg, w) && UnitOk(cfg, w, call) && call.Opening?
    ensures var w' := Advance(cfg, w, call).0; LifetimesOk(cfg, w') && OneUnconsumed(w')
  {
    var w' := Advance(cfg, w, call).0;
    forall d: Claims ensures Consumed(w', d) <==> Consumed(w, d) {}
    hide Consumed;
  }

  lemma IssueKeepsFamilies(cfg: Config, w: World, call: Call)
    requires ValidConfig(cfg) && FamiliesOk(cfg, w) && UnitOk(cfg, w, call) && call.MintingRefresh?
    ensures var w' := Advance(cfg, w, call).0; LifetimesOk(cfg, w') && OneUnconsumed(w')
  {
    MintKeepsFamilies(cfg, w, Refresh, call.subject, call.user, call.sid);
    var w1 := MintToken(cfg, w, Refresh, call.subject, call.user, call.sid).0;
    var w' := Advance(cfg, w, call).0;
    assert w' == w1.(issued := w'.issued);
    forall d: Claims ensures Consumed(w', d) <==> Consumed(w1, d) {}
    hide Consumed, NewToken, MintToken, Advance;
  }

  lemma RevokeKeepsFamilies(cfg: Config, w: World, sid: nat)
    requires FamiliesOk(cfg, w) && sid in w.owners
    ensures var w' := w.(revoked := w.revoked[sid := w.now + cfg.refreshTtl]); LifetimesOk(cfg, w') && OneUnconsumed(w')
  {
    var w' := w.(revoked := w.revoked[sid := w.now + cfg.refreshTtl]);
    forall d: Claims ensures Consumed(w', d) <==> Consumed(w, d) {}
    hide Consumed;
  }

  lemma UnitCallKeeps(cfg: Config, w: World, call: Call)
    requires ValidConfig(cfg) && FamiliesOk(cfg, w) && UnitOk(cfg, w, call)
    ensures var (w', call') := Advance(cfg, w, call); UnitOk(cfg, w', call')
  {
    AdvanceCallOk(cfg, w, call);
    match call
    case Consuming(c, u, ttl) =>
      if !Present(w.used, c.jti, w.now) { ConsumeKeepsFamilies(cfg, w, c, u, ttl); }
    case MintingAccess(subject, u, sid, origin) => MintKeepsFamilies(cfg, w, Access, subject, u, sid);
    case _ =>
  }

  lemma {:induction false} SettleKeeps(cfg: Config, w: World, call: Call)
    requires ValidConfig(cfg) && FamiliesOk(cfg, w) && UnitOk(cfg, w, call)
    ensures FamiliesOk(cfg, Settle(cfg, w, call).0)
    decreases Rank(call)
  {
    hide Advance, FamiliesOk, UnitOk;
    if !call.Done? {
      AdvanceLowersRank(cfg, w, call);
      UnitWorldKeeps(cfg, w, call);
      UnitCallKeeps(cfg, w, call);
      var (w', call') := Advance(cfg, w, call);
      SettleKeeps(cfg, w', call');
    }
  }

  // ---------- whole requests ----------

  datatype Request =
    | Wait(until: int)
    | SignUp(subject: string)
    | Activate(subject: string, active: bool)
    | Drop(subject: string)
    | NewPassword(subject: string)
    | Login(subject: string, matches: bool)
    | Rotate(token: Presented)
    | Logout(access: Presented, refresh: Presented)

  predicate Possible(w: World, q: Request) {
    match q
    case Wait(until) => w.now <= until
    case SignUp(subject) => subject !in w.users
    case Activate(subject, _) => subject in w.users
    case Drop(subject) => subject in w.users
    case NewPassword(subject) => subject in w.users
    case Login(_, _) => true
    case Rotate(p) => Known(w, p)
    case Logout(access, refresh) => Known(w, access) && Known(w, refresh)
  }

  function Rotated(cfg: Config, w: World, p: Presented): (r: (World, Outcome)) {
    Settle(cfg, w, BeginRotate(cfg, w, p))
  }

  function Handle(cfg: Config, w: World, q: Request): (r: World)
    requires Possible(w, q)
  {
    match q
    case Wait(until) => w.(now := until)
    case SignUp(subject) => Settle(cfg, UpdateUser(w, subject, NEW_USER), Opening(subject, NEW_USER)).0
    case Activate(subject, active) => UpdateUser(w, subject, w.users[subject].(active := active))
    case Drop(subject) => UpdateUser(w, subject, w.users[subject].(deleted := true))
    case NewPassword(subject) =>
      if w.users[subject].deleted then w
      else UpdateUser(w, subject, w.users[subject].(version := w.users[subject].version + 1))
    case Login(subject, matches) => Settle(cfg, w, LoggingIn(subject, matches)).0
    case Rotate(c) => Rotated(cfg, w, c).0
    case Logout(access, refresh) => Settle(cfg, w, BeginLogout(cfg, w, access, refresh)).0
  }

  ghost predicate Served(cfg: Config, worlds: seq<World>, requests: seq<Request>) {
    && |worlds| == |requests| + 1 && worlds[0] == Start(worlds[0].now).world
    && forall i :: 0 <= i < |requests| ==> Possible(worlds[i], requests[i]) && worlds[i + 1] == Handle(cfg, worlds[i], requests[i])
  }

  lemma StartIsOk(cfg: Config, now: int)
    ensures FamiliesOk(cfg, Start(now).world)
  {}

  lemma BeginUnitOk(cfg: Config, w: World, q: Request)
    requires FamiliesOk(cfg, w) && Possible(w, q)
    ensures q.Rotate? ==> UnitOk(cfg, w, BeginRotate(cfg, w, q.token))
    ensures q.Login? ==> UnitOk(cfg, w, LoggingIn(q.subject, q.matches))
    ensures q.SignUp? ==> UnitOk(cfg, UpdateUser(w, q.subject, NEW_USER), Opening(q.subject, NEW_USER))
    ensures q.Logout? ==> UnitOk(cfg, w, BeginLogout(cfg, w, q.access, q.refresh))
  {}

  /** User rows and the clock are no part of the invariant, except that the clock must not go back. */
  lemma RowsKeepFamilies(cfg: Config, w: World, w': World)
    requires FamiliesOk(cfg, w) && w.now <= w'.now && w' == w.(now := w'.now, users := w'.users)
    requires forall u :: u in w'.users ==> w'.users[u].version > 0
    ensures FamiliesOk(cfg, w')
  {
    forall d: Claims ensures Consumed(w', d) <==> Consumed(w, d) {}
    hide Consumed;
  }

  lemma InsertKeepsFamilies(cfg: Config, w: World, subject: string)
    requires FamiliesOk(cfg, w)
    ensures FamiliesOk(cfg, UpdateUser(w, subject, NEW_USER)) && MarkersGrow(w, UpdateUser(w, subject, NEW_USER))
  {
    RowsKeepFamilies(cfg, w, UpdateUser(w, subject, NEW_USER));
  }

  lemma VersionsPositive(cfg: Config, w: World, q: Request)
    requires FamiliesOk(cfg, w) && Possible(w, q) && !q.SignUp? && !q.Login? && !q.Rotate? && !q.Logout?
    ensures var users := Handle(cfg, w, q).users; forall u :: u in users ==> users[u].version > 0
  {}

  lemma HandleKeeps(cfg: Config, w: World, q: Request)
    requires ValidConfig(cfg) && FamiliesOk(cfg, w) && Possible(w, q)
    ensures FamiliesOk(cfg, Handle(cfg, w, q))
  {
    hide FamiliesOk, UnitOk, Settle, BeginRotate, BeginLogout;
    BeginUnitOk(cfg, w, q);
    match q
    case SignUp(subject) =>
      InsertKeepsFamilies(cfg, w, subject);
      SettleKeeps(cfg, UpdateUser(w, subject, NEW_USER), Opening(subject, NEW_USER));
    case Login(subject, matches) => SettleKeeps(cfg, w, LoggingIn(subject, matches));
    case Rotate(c) => SettleKeeps(cfg, w, BeginRotate(cfg, w, c));
    case Logout(access, refresh) => SettleKeeps(cfg, w, BeginLogout(cfg, w, access, refresh));
    case _ =>
      VersionsPositive(cfg, w, q);
      RowsKeepFamilies(cfg, w, Handle(cfg, w, q));
  }

  lemma {:induction false} ServedKeeps(cfg: Config, worlds: seq<World>, requests: seq<Request>, i: nat)
    requires ValidConfig(cfg) && Served(cfg, worlds, requests) && i < |worlds|
    ensures FamiliesOk(cfg, worlds[i])
  {
    hide FamiliesOk, Handle;
    if i == 0 {
      StartIsOk(cfg, worlds[0].now);
    } else {
      ServedKeeps(cfg, worlds, requests, i - 1);
      HandleKeeps(cfg, worlds[i - 1], requests[i - 1]);
    }
  }

  /** In every run of whole requests, a session never has two refresh tokens that were not consumed. */
  lemma OneLiveTokenPerSession(cfg: Config, worlds: seq<World>, requests: seq<Request>, i: nat, c: Claims, d: Claims)
    requires ValidConfig(cfg) && Served(cfg, worlds, requests) && i < |worlds|
    requires c in worlds[i].minted && d in worlds[i].minted && c.kind == d.kind == Refresh && c.sid == d.sid
    requires !Consumed(worlds[i], c) && !Consumed(worlds[i], d)
    ensures c == d
  {
    ServedKeeps(cfg, worlds, requests, i);
  }

  // ---------- revocation ----------

  lemma AdvanceMarkers(cfg: Config, w: World, call: Call)
    requires LifetimesOk(cfg, w)
    ensures MarkersGrow(w, Advance(cfg, w, call).0)
  {}

  lemma {:induction false} SettleMarkers(cfg: Config, w: World, call: Call)
    requires ValidConfig(cfg) && FamiliesOk(cfg, w) && UnitOk(cfg, w, call)
    ensures MarkersGrow(w, Settle(cfg, w, call).0)
    decreases Rank(call)
  {
    hide Advance, UnitOk, WorldOk, OneUnconsumed, LifetimesOk;
    if !call.Done? {
      AdvanceLowersRank(cfg, w, call);
      UnitWorldKeeps(cfg, w, call);
      UnitCallKeeps(cfg, w, call);
      AdvanceMarkers(cfg, w, call);
      var (w', call') := Advance(cfg, w, call);
      SettleMarkers(cfg, w', call');
    }
  }

  lemma {:induction false} ServedMarkers(cfg: Config, worlds: seq<World>, requests: seq<Request>, i: nat, j: nat)
    requires ValidConfig(cfg) && Served(cfg, worlds, requests) && i <= j < |worlds|
    ensures MarkersGrow(worlds[i], worlds[j])
  {
    hide FamiliesOk, UnitOk, Settle, BeginRotate, BeginLogout;
    if i < j {
      ServedMarkers(cfg, worlds, requests, i, j - 1);
      ServedKeeps(cfg, worlds, requests, j - 1);
      var w, q := worlds[j - 1], requests[j - 1];
      BeginUnitOk(cfg, w, q);
      match q
      case SignUp(subject) =>
        InsertKeepsFamilies(cfg, w, subject);
        SettleMarkers(cfg, UpdateUser(w, subject, NEW_USER), Opening(subject, NEW_USER));
      case Login(subject, matches) => SettleMarkers(cfg, w, LoggingIn(subject, matches));
      case Rotate(c) => SettleMarkers(cfg, w, BeginRotate(cfg, w, c));
      case Logout(access, refresh) => SettleMarkers(cfg, w, BeginLogout(cfg, w, access, refresh));
      case _ =>
    }
  }

  /** Past the revocation check, a token of a revoked session has expired, and the lifetime check stops it. */
  lemma {:induction false} RevokedGoesNowhere(cfg: Config, w: World, call: Call)
    requires ValidConfig(cfg) && FamiliesOk(cfg, w) && UnitOk(cfg, w, call)
    requires (call.Checking? || call.Reading? || call.Timing?) && call.token.sid in w.revoked
    ensures !Settle(cfg, w, call).1.Issued?
    decreases Rank(call)
  {
    AdvanceLowersRank(cfg, w, call);
    UnitCallKeeps(cfg, w, call);
    var (w', call') := Advance(cfg, w, call);
    assert w' == w;
    if call'.Reading? || call'.Timing? {
      RevokedGoesNowhere(cfg, w, call');
    } else if call'.Revoking? {
      assert Settle(cfg, w, call').1 == call'.after;
    }
  }

  /** Once a session has been revoked, no token of it, whenever minted, is ever rotated again. */
  lemma RevokedNeverRotates(cfg: Config, worlds: seq<World>, requests: seq<Request>, i: nat, j: nat, c: Claims)
    requires ValidConfig(cfg) && Served(cfg, worlds, requests) && i <= j < |worlds|
    requires c.sid in worlds[i].revoked && c in worlds[j].minted
    ensures !Rotated(cfg, worlds[j], Signed(c)).1.Issued?
  {
    ServedMarkers(cfg, worlds, requests, i, j);
    ServedKeeps(cfg, worlds, requests, j);
    BeginUnitOk(cfg, worlds[j], Rotate(Signed(c)));
    hide FamiliesOk, UnitOk;
    if BeginRotate(cfg, worlds[j], Signed(c)).Checking? { RevokedGoesNowhere(cfg, worlds[j], Checking(c)); }
  }

  // ---------- what a rotation answers ----------

  function Revoke(cfg: Config, w: World, sid: nat): (r: World) {
    w.(revoked := w.revoked[sid := w.now + cfg.refreshTtl])
  }

  /** Consuming a token and minting the pair it pays for. */
  function PairFor(cfg: Config, w: World, c: Claims, user: User): (r: (World, Outcome)) {
    var marked := Mark(w, c, c.expiresAt - w.now);
    var withAccess := MintToken(cfg, marked, Access, c.subject, user, c.sid).0;
    var (minted, refresh) := MintToken(cfg, withAccess, Refresh, c.subject, user, c.sid);
    (minted.(issued := minted.issued + [Issue(refresh, Some(|w.consumed|))]), Issued(refresh))
  }

  lemma MintingSettles(cfg: Config, w: World, subject: string, user: User, sid: nat, origin: Option<nat>)
    ensures var withAccess := MintToken(cfg, w, Access, subject, user, sid).0;
            var (minted, refresh) := MintToken(cfg, withAccess, Refresh, subject, user, sid);
            Settle(cfg, w, MintingAccess(subject, user, sid, origin))
            == (minted.(issued := minted.issued + [Issue(refresh, origin)]), Issued(refresh))
  {
    hide Settle, MintToken;
    var withAccess := MintToken(cfg, w, Access, subject, user, sid).0;
    var (minted, refresh) := MintToken(cfg, withAccess, Refresh, subject, user, sid);
    SettleStep(cfg, w, MintingAccess(subject, user, sid, origin));
    SettleStep(cfg, withAccess, MintingRefresh(subject, user, sid, origin));
    SettleDone(cfg, minted.(issued := minted.issued + [Issue(refresh, origin)]), Issued(refresh));
  }

  /** One access and one refresh token were minted, with ids not used before, and nothing else was. */
  ghost predicate PairMinted(cfg: Config, w: World, w': World, subject: string, sid: nat, version: int, refresh: Claims) {
    exists access: Claims ::
      && IsToken(access, Access, subject, sid, version, w.now, cfg.accessTtl)
      && IsToken(refresh, Refresh, subject, sid, version, w.now, cfg.refreshTtl)
      && w.nextJti <= access.jti < refresh.jti < w'.nextJti
      && w'.minted == w.minted + {access, refresh}
  }

  lemma MintsPair(cfg: Config, w: World, subject: string, user: User, sid: nat, origin: Option<nat>)
    ensures var (w', outcome) := Settle(cfg, w, MintingAccess(subject, user, sid, origin));
            outcome.Issued? && PairMinted(cfg, w, w', subject, sid, user.version, outcome.refresh)
  {
    hide Settle, NewToken, IsToken;
    MintingSettles(cfg, w, subject, user, sid, origin);
    NewTokensAre(cfg, w.nextJti, subject, sid, user.version, w.now);
    NewTokensAre(cfg, w.nextJti + 1, subject, sid, user.version, w.now);
    NewTokenIds(cfg, w.nextJti, subject, sid, user.version, w.now);
    NewTokenIds(cfg, w.nextJti + 1, subject, sid, user.version, w.now);
    assert w.minted + {NewToken(cfg, Access, w.nextJti, subject, sid, user.version, w.now)}
           + {NewToken(cfg, Refresh, w.nextJti + 1, subject, sid, user.version, w.now)}
           == w.minted + {NewToken(cfg, Access, w.nextJti, subject, sid, user.version, w.now),
                          NewToken(cfg, Refresh, w.nextJti + 1, subject, sid, user.version, w.now)};
  }

  lemma FirstPairIsMinted(cfg: Config, w: World, subject: string, user: User)
    ensures var (w', outcome) := FirstPair(cfg, w, subject, user);
            outcome.Issued? && PairMinted(cfg, w, w', subject, w.nextSid, user.version, outcome.refresh)
  {
    hide Settle, PairMinted;
    MintingSettles(cfg, Opened(w, subject, user), subject, user, w.nextSid, None);
    MintsPair(cfg, Opened(w, subject, user), subject, user, w.nextSid, None);
    SamePair(cfg, Opened(w, subject, user), w, FirstPair(cfg, w, subject, user).0, subject, w.nextSid, user.version,
             FirstPair(cfg, w, subject, user).1.refresh);
  }

  lemma SamePair(cfg: Config, v: World, w: World, w': World, subject: string, sid: nat, version: int, refresh: Claims)
    requires v.now == w.now && v.minted == w.minted && v.nextJti == w.nextJti
    ensures PairMinted(cfg, v, w', subject, sid, version, refresh) <==> PairMinted(cfg, w, w', subject, sid, version, refresh)
  {
    hide IsToken;
  }

  lemma ExchangedIsMinted(cfg: Config, w: World, c: Claims, user: User)
    ensures var (w', outcome) := PairFor(cfg, w, c, user);
            outcome.Issued? && PairMinted(cfg, w, w', c.subject, c.sid, user.version, outcome.refresh)
  {
    hide Settle, PairMinted, NewToken;
    var marked := Mark(w, c, c.expiresAt - w.now);
    MintingSettles(cfg, marked, c.subject, user, c.sid, Some(|w.consumed|));
    MintsPair(cfg, marked, c.subject, user, c.sid, Some(|w.consumed|));
    SamePair(cfg, marked, w, PairFor(cfg, w, c, user).0, c.subject, c.sid, user.version, PairFor(cfg, w, c, user).1.refresh);
  }

  lemma NewTokenIds(cfg: Config, jti: nat, subject: string, sid: nat, version: int, now: int)
    ensures forall kind :: NewToken(cfg, kind, jti, subject, sid, version, now).jti == jti
  {}

  /** A session opened for a user row, with its first pair. */
  function FirstPair(cfg: Config, w: World, subject: string, user: User): (r: (World, Outcome)) {
    var withAccess := MintToken(cfg, Opened(w, subject, user), Access, subject, user, w.nextSid).0;
    var (minted, refresh) := MintToken(cfg, withAccess, Refresh, subject, user, w.nextSid);
    (minted.(issued := minted.issued + [Issue(refresh, None)]), Issued(refresh))
  }

  lemma OpeningSettles(cfg: Config, w: World, subject: string, user: User)
    ensures Settle(cfg, w, Opening(subject, user)) == FirstPair(cfg, w, subject, user)
  {
    hide Settle, MintToken;
    SettleStep(cfg, w, Opening(subject, user));
    MintingSettles(cfg, Opened(w, subject, user), subject, user, w.nextSid, None);
  }

  /** The answer to a login, in the order in which the reasons to refuse are found; an unknown user is not told apart. */
  lemma LoginAnswers(cfg: Config, w: World, subject: string, matches: bool)
    ensures Settle(cfg, w, LoggingIn(subject, matches))
            == match FindUser(w, subject)
               case None => (w, InvalidCredentials)
               case Some(u) =>
                 if !matches then (w, InvalidCredentials)
                 else if !u.active then (w, AccountInactive)
                 else FirstPair(cfg, w, subject, u)
  {
    hide Settle, FirstPair;
    var user := FindUser(w, subject);
    SettleStep(cfg, w, LoggingIn(subject, matches));
    if user == None || !matches {
      SettleDone(cfg, w, InvalidCredentials);
    } else if !user.value.active {
      SettleDone(cfg, w, AccountInactive);
    } else {
      OpeningSettles(cfg, w, subject, user.value);
    }
  }

  lemma ConsumingSettles(cfg: Config, w: World, c: Claims, user: User)
    ensures Settle(cfg, w, Timing(c, user))
            == if c.expiresAt <= w.now then (w, InvalidToken)
               else if Present(w.used, c.jti, w.now) then (Revoke(cfg, w, c.sid), SessionRevoked)
               else PairFor(cfg, w, c, user)
  {
    hide Settle, MintToken;
    SettleStep(cfg, w, Timing(c, user));
    if c.expiresAt <= w.now {
      SettleDone(cfg, w, InvalidToken);
    } else {
      SettleStep(cfg, w, Consuming(c, user, c.expiresAt - w.now));
      if Present(w.used, c.jti, w.now) {
        RevokingSettles(cfg, w, c.sid, SessionRevoked);
      } else {
        MintingSettles(cfg, Mark(w, c, c.expiresAt - w.now), c.subject, user, c.sid, Some(|w.consumed|));
      }
    }
  }

  /** The answer to a token that parses, in the order in which the reasons to refuse are found. */
  lemma RotationAnswers(cfg: Config, w: World, c: Claims)
    requires Accepts(cfg, c, Refresh, w.now)
    ensures Rotated(cfg, w, Signed(c))
            == if Present(w.revoked, c.sid, w.now) then (w, SessionRevoked)
               else match FindUser(w, c.subject)
                 case None => (w, UserNotFound)
                 case Some(u) =>
                   if !u.active then (Revoke(cfg, w, c.sid), AccountInactive)
                   else if u.version != c.version then (Revoke(cfg, w, c.sid), SessionRevoked)
                   else if c.expiresAt <= w.now then (w, InvalidToken)
                   else if Present(w.used, c.jti, w.now) then (Revoke(cfg, w, c.sid), SessionRevoked)
                   else PairFor(cfg, w, c, u)
  {
    hide Settle, PairFor, Accepts;
    var user := FindUser(w, c.subject);
    SettleStep(cfg, w, Checking(c));
    if Present(w.revoked, c.sid, w.now) {
      SettleDone(cfg, w, SessionRevoked);
    } else {
      SettleStep(cfg, w, Reading(c));
      if user == None {
        SettleDone(cfg, w, UserNotFound);
      } else if !user.value.active {
        RevokingSettles(cfg, w, c.sid, AccountInactive);
      } else if user.value.version != c.version {
        RevokingSettles(cfg, w, c.sid, SessionRevoked);
      } else {
        ConsumingSettles(cfg, w, c, user.value);
      }
    }
  }

  /** What a presented token must fulfil to be rotated, in terms of the rows, the clock and the history. */
  ghost predicate Rotatable(cfg: Config, w: World, p: Presented) {
    p.Signed? &&
    var c := p.claims;
    && c.kind == Refresh && w.now < c.expiresAt && !Present(w.revoked, c.sid, w.now) && !Consumed(w, c)
    && FindUser(w, c.subject).Some? && FindUser(w, c.subject).value.active
    && FindUser(w, c.subject).value.version == c.version
  }

  /** A token that was never consumed has no used-marker, one that was still has it until it expires. */
  lemma PresentIffConsumed(w: World, c: Claims)
    requires WorldOk(w) && c in w.minted && w.now < c.expiresAt
    ensures Present(w.used, c.jti, w.now) <==> Consumed(w, c)
  {
    if c.jti in w.used {
      assert MarkedBy(w, c.jti);
      var i :| 0 <= i < |w.consumed| && w.consumed[i].token.jti == c.jti && w.consumed[i].until == w.used[c.jti];
      assert w.consumed[i].token == c;
    }
    if Consumed(w, c) { var i :| 0 <= i < |w.consumed| && w.consumed[i].token == c; }
  }

  /** Until it expires, a minted token parses as its own kind, and as no other. */
  lemma LiveTokenParses(cfg: Config, w: World, c: Claims)
    requires FamiliesOk(cfg, w) && c in w.minted && w.now < c.expiresAt
    ensures forall kind :: Accepts(cfg, c, kind, w.now) <==> c.kind == kind
  {
    assert w.owners[c.sid].version > 0 && w.owners[c.sid] == Session(c.subject, c.version);
  }

  /** A presented token is rotated exactly if it is a live, unconsumed refresh token of an active session and user. */
  lemma RotatesIff(cfg: Config, w: World, p: Presented)
    requires FamiliesOk(cfg, w) && Known(w, p)
    ensures Rotated(cfg, w, p).1.Issued? <==> Rotatable(cfg, w, p)
    ensures Rotatable(cfg, w, p) ==> Rotated(cfg, w, p) == PairFor(cfg, w, p.claims, FindUser(w, p.claims.subject).value)
  {
    hide FamiliesOk, Settle, PairFor, Accepts, Consumed;
    if Parse(cfg, p, Refresh, w.now) == None {
      SettleDone(cfg, w, InvalidToken);
      if p.Signed? && w.now < p.claims.expiresAt { LiveTokenParses(cfg, w, p.claims); }
    } else {
      var c := p.claims;
      RotationAnswers(cfg, w, c);
      FamiliesAreWorlds(cfg, w);
      if w.now < c.expiresAt {
        LiveTokenParses(cfg, w, c);
        PresentIffConsumed(w, c);
      }
      PairIsIssued(cfg, w, c);
    }
  }

  lemma FamiliesAreWorlds(cfg: Config, w: World)
    requires FamiliesOk(cfg, w)
    ensures WorldOk(w)
  {}

  lemma PairIsIssued(cfg: Config, w: World, c: Claims)
    ensures forall u :: PairFor(cfg, w, c, u).1.Issued?
  {}

  /** A pair costs one consumption and is one access and one refresh token of the same user, session and version. */
  ghost predicate Exchanged(cfg: Config, w: World, w': World, c: Claims, refresh: Claims) {
    var access := NewToken(cfg, Access, w.nextJti, c.subject, c.sid, c.version, w.now);
    && refresh == NewToken(cfg, Refresh, w.nextJti + 1, c.subject, c.sid, c.version, w.now)
    && w'.minted == w.minted + {access, refresh}
    && w'.consumed == w.consumed + [Consumption(c, w.now, c.expiresAt)]
    && w'.issued == w.issued + [Issue(refresh, Some(|w.consumed|))]
    && w'.users == w.users && w'.revoked == w.revoked && w'.owners == w.owners
    && Consumed(w', c)
  }

  lemma PairIsExchanged(cfg: Config, w: World, c: Claims, user: User)
    requires user.version == c.version
    ensures var (w', outcome) := PairFor(cfg, w, c, user);
            outcome.Issued? && Exchanged(cfg, w, w', c, outcome.refresh)
  {
    hide Consumed;
    ConsumedAfter(w, Consumption(c, w.now, c.expiresAt), c);
    SameHistory(w.(consumed := w.consumed + [Consumption(c, w.now, c.expiresAt)]), PairFor(cfg, w, c, user).0, c);
  }

  lemma SameHistory(w: World, w': World, c: Claims)
    requires w.consumed == w'.consumed
    ensures Consumed(w, c) <==> Consumed(w', c)
  {}

  /**
   * Presenting a consumed token that has not expired never yields a pair, and leaves its session revoked
   * exactly when the session was revoked already or the user row is still there.
   */
  lemma ReplayRevokesIff(cfg: Config, w: World, c: Claims)
    requires ValidConfig(cfg) && FamiliesOk(cfg, w)
    requires c in w.minted && c.kind == Refresh && Consumed(w, c) && w.now < c.expiresAt
    ensures !Rotated(cfg, w, Signed(c)).1.Issued?
    ensures Present(Rotated(cfg, w, Signed(c)).0.revoked, c.sid, w.now)
            <==> Present(w.revoked, c.sid, w.now) || FindUser(w, c.subject).Some?
  {
    hide FamiliesOk, Accepts, PairFor, Settle, Consumed;
    FamiliesAreWorlds(cfg, w);
    LiveTokenParses(cfg, w, c);
    PresentIffConsumed(w, c);
    RotationAnswers(cfg, w, c);
  }
}
