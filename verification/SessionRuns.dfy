/** What holds in every interleaving of session calls. */
module SessionRuns {
  import opened Sessions
  import opened Wrappers

  // ---------- the invariant ----------

  ghost predicate TokensOk(w: World) {
    && (forall c :: c in w.minted ==> c.jti < w.nextJti && c.sid in w.owners && w.owners[c.sid] == Session(c.subject, c.version))
    && (forall c, d :: c in w.minted && d in w.minted && c.jti == d.jti ==> c == d)
    && (forall sid :: sid in w.owners ==> sid < w.nextSid)
  }

  /** Every used-marker lasts at least until its token expires, and is never shortened. */
  ghost predicate MarkersOk(w: World) {
    forall i :: 0 <= i < |w.consumed| ==>
      var c := w.consumed[i].token;
      c in w.minted && c.jti in w.used && w.used[c.jti] >= w.consumed[i].until >= c.expiresAt
  }

  /** Every used-marker was set by a consumption, and lasts as long as that one made it. */
  ghost predicate UsedOk(w: World) {
    forall jti :: jti in w.used ==> MarkedBy(w, jti)
  }

  ghost predicate MarkedBy(w: World, jti: nat)
    requires jti in w.used
  {
    exists i :: 0 <= i < |w.consumed| && w.consumed[i].token.jti == jti && w.consumed[i].until == w.used[jti]
  }

  /** A second consumption of one token happened only once the marker of the first had lapsed. */
  ghost predicate SingleUse(w: World) {
    forall i, j :: 0 <= i < j < |w.consumed| && w.consumed[i].token.jti == w.consumed[j].token.jti ==>
      w.consumed[i].until <= w.consumed[j].at
  }

  ghost predicate OriginOk(w: World, origin: Option<nat>, subject: string, sid: nat) {
    origin.Some? ==>
      origin.value < |w.consumed| && w.consumed[origin.value].token.sid == sid && w.consumed[origin.value].token.subject == subject
  }

  ghost predicate CallOk(w: World, call: Call) {
    match call
    case Checking(c) => c in w.minted && c.kind == Refresh
    case Reading(c) => c in w.minted && c.kind == Refresh
    case Timing(c, u) => c in w.minted && c.kind == Refresh && u.version == c.version
    case Consuming(c, u, ttl) => c in w.minted && c.kind == Refresh && u.version == c.version && 0 < ttl && c.expiresAt - w.now <= ttl
    case MintingAccess(subject, u, sid, origin) =>
      sid in w.owners && w.owners[sid] == Session(subject, u.version) && OriginOk(w, origin, subject, sid)
    case MintingRefresh(subject, u, sid, origin) =>
      sid in w.owners && w.owners[sid] == Session(subject, u.version) && OriginOk(w, origin, subject, sid)
    case Revoking(sid, _) => sid in w.owners
    case _ => true
  }

  ghost predicate WorldOk(w: World) {
    TokensOk(w) && MarkersOk(w) && UsedOk(w) && SingleUse(w)
  }

  ghost predicate Inv(s: System) {
    WorldOk(s.world) && forall id :: id in s.calls ==> CallOk(s.world, s.calls[id])
  }

  /** What a step may do to the world: time goes on, histories grow, sessions and versions stay what they were. */
  ghost predicate Grows(w: World, w': World) {
    && w.now <= w'.now && w.minted <= w'.minted
    && (forall sid :: sid in w.owners ==> sid in w'.owners && w'.owners[sid] == w.owners[sid])
    && |w.consumed| <= |w'.consumed| && w'.consumed[..|w.consumed|] == w.consumed
    && (forall u :: u in w.users ==> u in w'.users && w.users[u].version <= w'.users[u].version)
  }

  /** Revocation markers are only ever added or pushed into the future. */
  ghost predicate MarkersGrow(w: World, w': World) {
    forall sid :: sid in w.revoked ==> sid in w'.revoked && w.revoked[sid] <= w'.revoked[sid]
  }

  lemma GrowsTransitive(w: World, w': World, w'': World)
    requires Grows(w, w') && Grows(w', w'')
    ensures Grows(w, w'')
  {
    forall i | 0 <= i < |w.consumed| ensures w''.consumed[i] == w.consumed[i] {
      assert w'.consumed[..|w.consumed|][i] == w'.consumed[i] && w''.consumed[..|w'.consumed|][i] == w''.consumed[i];
    }
    assert w''.consumed[..|w.consumed|] == w.consumed;
    forall u | u in w.users ensures u in w''.users && w.users[u].version <= w''.users[u].version {
      assert u in w'.users;
    }
  }

  lemma CallOkStable(w: World, w': World, call: Call)
    requires Grows(w, w') && CallOk(w, call)
    ensures CallOk(w', call)
  {
    if i: nat :| i < |w.consumed| && Some(i) == match call case MintingAccess(_, _, _, o) => o case MintingRefresh(_, _, _, o) => o case _ => None {
      assert w'.consumed[..|w.consumed|][i] == w'.consumed[i];
    }
  }

  lemma MintKeeps(cfg: Config, w: World, kind: Kind, subject: string, user: User, sid: nat)
    requires WorldOk(w) && sid in w.owners && w.owners[sid] == Session(subject, user.version)
    ensures var w' := MintToken(cfg, w, kind, subject, user, sid).0; WorldOk(w') && Grows(w, w')
  {}

  lemma ConsumeKeepsMarkers(w: World, c: Claims, ttl: int)
    requires TokensOk(w) && MarkersOk(w) && c in w.minted
    requires 0 < ttl && c.expiresAt - w.now <= ttl && !Present(w.used, c.jti, w.now)
    ensures MarkersOk(Mark(w, c, ttl))
  {
    var w' := Mark(w, c, ttl);
    forall i | 0 <= i < |w'.consumed|
      ensures w'.consumed[i].token in w'.minted && w'.consumed[i].token.jti in w'.used
      ensures w'.used[w'.consumed[i].token.jti] >= w'.consumed[i].until >= w'.consumed[i].token.expiresAt
    {
      if i < |w.consumed| { assert w'.consumed[i] == w.consumed[i]; }
    }
  }

  lemma ConsumeKeepsUsed(w: World, c: Claims, ttl: int)
    requires UsedOk(w)
    ensures UsedOk(Mark(w, c, ttl))
  {
    var w' := Mark(w, c, ttl);
    forall jti | jti in w'.used ensures MarkedBy(w', jti) {
      if jti == c.jti {
        assert w'.consumed[|w.consumed|].token.jti == jti;
      } else {
        assert MarkedBy(w, jti);
        var i :| 0 <= i < |w.consumed| && w.consumed[i].token.jti == jti && w.consumed[i].until == w.used[jti];
        assert w'.consumed[i] == w.consumed[i];
      }
    }
  }

  lemma ConsumeKeepsSingle(w: World, c: Claims, ttl: int)
    requires TokensOk(w) && MarkersOk(w) && SingleUse(w) && c in w.minted && !Present(w.used, c.jti, w.now)
    ensures SingleUse(Mark(w, c, ttl))
  {
    forall i | 0 <= i < |w.consumed| && w.consumed[i].token.jti == c.jti ensures w.consumed[i].until <= w.now {
      assert w.consumed[i].token == c;
    }
  }

  lemma ConsumeKeeps(w: World, c: Claims, ttl: int)
    requires WorldOk(w) && c in w.minted && 0 < ttl && c.expiresAt - w.now <= ttl && !Present(w.used, c.jti, w.now)
    ensures WorldOk(Mark(w, c, ttl)) && Grows(w, Mark(w, c, ttl))
  {
    hide MarkersOk, UsedOk, SingleUse;
    ConsumeKeepsMarkers(w, c, ttl);
    ConsumeKeepsUsed(w, c, ttl);
    ConsumeKeepsSingle(w, c, ttl);
  }

  lemma OpenKeeps(w: World, subject: string, u: User)
    requires WorldOk(w)
    ensures WorldOk(Opened(w, subject, u)) && Grows(w, Opened(w, subject, u))
  {}

  lemma RevokeKeeps(w: World, sid: nat, until: int)
    requires WorldOk(w)
    ensures WorldOk(w.(revoked := w.revoked[sid := until])) && Grows(w, w.(revoked := w.revoked[sid := until]))
  {}

  lemma IssueKeeps(w: World, issue: Issue)
    requires WorldOk(w)
    ensures WorldOk(w.(issued := w.issued + [issue])) && Grows(w, w.(issued := w.issued + [issue]))
  {}

  lemma UnchangedKeeps(w: World)
    ensures Grows(w, w)
  {}

  lemma AdvanceWorldKeeps(cfg: Config, w: World, call: Call)
    requires WorldOk(w) && CallOk(w, call)
    ensures var w' := Advance(cfg, w, call).0; WorldOk(w') && Grows(w, w')
  {
    hide WorldOk, Grows, NewToken;
    UnchangedKeeps(w);
    match call
    case Consuming(c, u, ttl) =>
      if !Present(w.used, c.jti, w.now) { ConsumeKeeps(w, c, ttl); }
    case Opening(subject, u) => OpenKeeps(w, subject, u);
    case MintingAccess(subject, u, sid, origin) => MintKeeps(cfg, w, Access, subject, u, sid);
    case MintingRefresh(subject, u, sid, origin) =>
      MintKeeps(cfg, w, Refresh, subject, u, sid);
      var (w', c) := MintToken(cfg, w, Refresh, subject, u, sid);
      IssueKeeps(w', Issue(c, origin));
      GrowsTransitive(w, w', w'.(issued := w'.issued + [Issue(c, origin)]));
    case Revoking(sid, after) => RevokeKeeps(w, sid, w.now + cfg.refreshTtl);
    case _ =>
  }

  lemma AdvanceCallOk(cfg: Config, w: World, call: Call)
    requires TokensOk(w) && CallOk(w, call)
    ensures var (w', call') := Advance(cfg, w, call); CallOk(w', call')
  {}

  lemma AdvanceKeeps(cfg: Config, w: World, call: Call)
    requires WorldOk(w) && CallOk(w, call)
    ensures var (w', call') := Advance(cfg, w, call); WorldOk(w') && CallOk(w', call') && Grows(w, w')
  {
    hide Advance, CallOk, Grows, TokensOk, MarkersOk, SingleUse;
    AdvanceWorldKeeps(cfg, w, call);
    AdvanceCallOk(cfg, w, call);
  }

  /** User rows and the clock are no part of the invariant. */
  lemma RowsKeep(w: World, w': World)
    requires WorldOk(w) && w.now <= w'.now && w' == w.(now := w'.now, users := w'.users)
    requires forall u :: u in w.users ==> u in w'.users && w.users[u].version <= w'.users[u].version
    ensures WorldOk(w') && Grows(w, w')
  {
    forall jti | jti in w'.used ensures MarkedBy(w', jti) { assert MarkedBy(w, jti); }
    hide MarkedBy;
  }

  lemma ApplyGrows(cfg: Config, s: System, a: Action)
    requires Inv(s) && Enabled(s, a)
    ensures Grows(s.world, Apply(cfg, s, a).world) && WorldOk(Apply(cfg, s, a).world)
  {
    hide Advance, CallOk, BeginRotate, BeginLogout, WorldOk, Grows;
    if a.Step? {
      AdvanceKeeps(cfg, s.world, s.calls[a.id]);
    } else {
      RowsKeep(s.world, Apply(cfg, s, a).world);
    }
  }

  lemma BeginOk(cfg: Config, w: World, a: Action)
    requires TokensOk(w) && (a.StartRotate? ==> Known(w, a.token))
    requires a.StartLogout? ==> Known(w, a.access) && Known(w, a.refresh)
    ensures a.StartRotate? ==> CallOk(w, BeginRotate(cfg, w, a.token))
    ensures a.StartLogin? ==> CallOk(w, LoggingIn(a.subject, a.matches))
    ensures a.StartSignUp? ==> CallOk(w, Opening(a.subject, NEW_USER))
    ensures a.StartLogout? ==> CallOk(w, BeginLogout(cfg, w, a.access, a.refresh))
    ensures CallOk(w, Done(StoreFailure))
  {}

  lemma ApplyKeeps(cfg: Config, s: System, a: Action)
    requires Inv(s) && Enabled(s, a)
    ensures Inv(Apply(cfg, s, a)) && Grows(s.world, Apply(cfg, s, a).world)
  {
    var t := Apply(cfg, s, a);
    hide Advance, CallOk, Grows, WorldOk, BeginRotate, BeginLogout;
    ApplyGrows(cfg, s, a);
    BeginOk(cfg, s.world, a);
    forall id | id in t.calls ensures CallOk(t.world, t.calls[id]) {
      if id in s.calls { CallOkStable(s.world, t.world, s.calls[id]); }
      if a.Step? && id == a.id { AdvanceKeeps(cfg, s.world, s.calls[id]); }
    }
  }

  lemma {:induction false} RunKeeps(cfg: Config, states: seq<System>, actions: seq<Action>, i: nat)
    requires Run(cfg, states, actions) && i < |states|
    ensures Inv(states[i])
  {
    hide Apply, Grows;
    if i > 0 {
      RunKeeps(cfg, states, actions, i - 1);
      ApplyKeeps(cfg, states[i - 1], actions[i - 1]);
    }
  }

  lemma {:induction false} RunGrows(cfg: Config, states: seq<System>, actions: seq<Action>, i: nat, j: nat)
    requires Run(cfg, states, actions) && i <= j < |states|
    ensures Grows(states[i].world, states[j].world)
  {
    hide Grows, Inv, Apply;
    UnchangedKeeps(states[i].world);
    if i < j {
      RunGrows(cfg, states, actions, i, j - 1);
      RunKeeps(cfg, states, actions, j - 1);
      ApplyKeeps(cfg, states[j - 1], actions[j - 1]);
      GrowsTransitive(states[i].world, states[j - 1].world, states[j].world);
    }
  }

  /** A run goes on with any enabled action. */
  lemma Extend(cfg: Config, states: seq<System>, actions: seq<Action>, a: Action)
      returns (states': seq<System>, actions': seq<Action>)
    requires Run(cfg, states, actions) && Enabled(states[|states| - 1], a)
    ensures Run(cfg, states', actions')
    ensures states' == states + [Apply(cfg, states[|states| - 1], a)] && actions' == actions + [a]
  {
    states', actions' := states + [Apply(cfg, states[|states| - 1], a)], actions + [a];
  }

  // ---------- one pair per refresh token ----------

  function OriginOf(call: Call): (r: Option<nat>) {
    match call
    case MintingAccess(_, _, _, origin) => origin
    case MintingRefresh(_, _, _, origin) => origin
    case _ => None
  }

  /** Each consumption pays for one pair: issued already, or being minted by one call. */
  ghost predicate PairsOk(s: System) {
    var w := s.world;
    && (forall i :: 0 <= i < |w.issued| && w.issued[i].origin.Some? ==>
          var o := w.issued[i].origin.value;
          o < |w.consumed| && w.consumed[o].token.sid == w.issued[i].refresh.sid)
    && (forall i, j :: 0 <= i < j < |w.issued| && w.issued[i].origin.Some? ==> w.issued[i].origin != w.issued[j].origin)
    && (forall id, i :: id in s.calls && 0 <= i < |w.issued| && w.issued[i].origin.Some? ==>
          OriginOf(s.calls[id]) != w.issued[i].origin)
    && (forall id, other :: id in s.calls && other in s.calls && id != other && OriginOf(s.calls[id]).Some? ==>
          OriginOf(s.calls[id]) != OriginOf(s.calls[other]))
  }

  /** A call has no origin before it consumes, takes the next consumption's number, and gives it up with its pair. */
  lemma AdvanceOrigin(cfg: Config, w: World, call: Call)
    requires CallOk(w, call)
    ensures var (w', call') := Advance(cfg, w, call);
            && (OriginOf(call').Some? ==>
                  OriginOf(call') == OriginOf(call) || (call.Consuming? && OriginOf(call') == Some(|w.consumed|)))
            && (w'.issued == w.issued
                || (call.MintingRefresh? && OriginOf(call') == None
                    && exists c :: w'.issued == w.issued + [Issue(c, OriginOf(call))] && c.sid == call.sid))
            && |w'.consumed| >= |w.consumed| && w'.consumed[..|w.consumed|] == w.consumed
    ensures call.MintingRefresh? && call.origin.Some? ==>
              call.origin.value < |w.consumed| && w.consumed[call.origin.value].token.sid == call.sid
  {
    if call.MintingRefresh? {
      var (w1, c) := MintToken(cfg, w, Refresh, call.subject, call.user, call.sid);
      assert Advance(cfg, w, call).0.issued == w.issued + [Issue(c, OriginOf(call))];
    }
  }

  ghost predicate OriginsBounded(s: System) {
    && (forall id :: id in s.calls && OriginOf(s.calls[id]).Some? ==> OriginOf(s.calls[id]).value < |s.world.consumed|)
  }

  lemma CallsBounded(s: System)
    requires Inv(s)
    ensures OriginsBounded(s)
  {
    forall id | id in s.calls && OriginOf(s.calls[id]).Some? ensures OriginOf(s.calls[id]).value < |s.world.consumed| {
      assert CallOk(s.world, s.calls[id]);
    }
  }

  lemma StepKeepsPairs(cfg: Config, s: System, id: nat)
    requires Inv(s) && PairsOk(s) && id in s.calls
    ensures PairsOk(Apply(cfg, s, Step(id)))
  {
    hide Advance, CallOk, Grows, WorldOk, PairsOk;
    var w, call := s.world, s.calls[id];
    var (w', call') := Advance(cfg, w, call);
    var t := Apply(cfg, s, Step(id));
    assert CallOk(w, call);
    AdvanceOrigin(cfg, w, call);
    CallsBounded(s);
    hide Inv;
    assert t == System(w', s.calls[id := call']);
    assert forall o :: 0 <= o < |w.consumed| ==> w'.consumed[o] == w.consumed[o] by {
      assert forall o :: 0 <= o < |w.consumed| ==> w'.consumed[..|w.consumed|][o] == w'.consumed[o];
    }
    if w'.issued == w.issued {
      OriginMoves(s, t, id);
    } else {
      PairIssued(s, t, id);
    }
  }

  /** No pair issued: the call's origin is kept, dropped, or the newest consumption. */
  lemma OriginMoves(s: System, t: System, id: nat)
    requires PairsOk(s) && OriginsBounded(s) && id in s.calls
    requires t.calls.Keys == s.calls.Keys && forall k :: k in s.calls && k != id ==> t.calls[k] == s.calls[k]
    requires t.world.issued == s.world.issued
    requires |s.world.consumed| <= |t.world.consumed|
    requires forall o :: 0 <= o < |s.world.consumed| ==> t.world.consumed[o] == s.world.consumed[o]
    requires OriginOf(t.calls[id]).Some? ==>
               OriginOf(t.calls[id]) == OriginOf(s.calls[id]) || OriginOf(t.calls[id]) == Some(|s.world.consumed|)
    ensures PairsOk(t)
  {
    hide OriginOf;
  }

  /** A pair issued: its origin moves from the call to the list of pairs. */
  lemma PairIssued(s: System, t: System, id: nat)
    requires PairsOk(s) && OriginsBounded(s) && id in s.calls
    requires t.calls.Keys == s.calls.Keys && forall k :: k in s.calls && k != id ==> t.calls[k] == s.calls[k]
    requires |s.world.consumed| <= |t.world.consumed|
    requires forall o :: 0 <= o < |s.world.consumed| ==> t.world.consumed[o] == s.world.consumed[o]
    requires OriginOf(t.calls[id]) == None
    requires exists c :: t.world.issued == s.world.issued + [Issue(c, OriginOf(s.calls[id]))]
               && (OriginOf(s.calls[id]).Some? ==> s.world.consumed[OriginOf(s.calls[id]).value].token.sid == c.sid)
    ensures PairsOk(t)
  {
    hide OriginOf;
    assert forall i :: 0 <= i < |s.world.issued| ==> t.world.issued[i] == s.world.issued[i];
  }

  lemma ApplyKeepsPairs(cfg: Config, s: System, a: Action)
    requires Inv(s) && PairsOk(s) && Enabled(s, a)
    ensures PairsOk(Apply(cfg, s, a))
  {
    if a.Step? {
      StepKeepsPairs(cfg, s, a.id);
    } else {
      hide Advance;
      var t := Apply(cfg, s, a);
      assert forall id :: id in t.calls ==> OriginOf(t.calls[id]) == None || (id in s.calls && t.calls[id] == s.calls[id]);
      OtherCallsKeepPairs(s, t);
    }
  }

  lemma OtherCallsKeepPairs(s: System, t: System)
    requires PairsOk(s)
    requires t.world.issued == s.world.issued && t.world.consumed == s.world.consumed
    requires forall id :: id in t.calls ==> OriginOf(t.calls[id]) == None || (id in s.calls && t.calls[id] == s.calls[id])
    ensures PairsOk(t)
  {
    hide OriginOf;
  }

  lemma {:induction false} RunKeepsPairs(cfg: Config, states: seq<System>, actions: seq<Action>, i: nat)
    requires Run(cfg, states, actions) && i < |states|
    ensures PairsOk(states[i])
  {
    hide Apply, Grows, Inv;
    if i > 0 {
      RunKeepsPairs(cfg, states, actions, i - 1);
      RunKeeps(cfg, states, actions, i - 1);
      ApplyKeepsPairs(cfg, states[i - 1], actions[i - 1]);
    }
  }

  /**
   * In every interleaving, two different pairs issued for one refresh token mean that the second used-marker
   * was written once the first had lapsed, so at or after the token's expiry. In particular a token all of
   * whose marker writes happen before it expires yields at most one pair.
   */
  lemma OnePairPerToken(cfg: Config, states: seq<System>, actions: seq<Action>, k: nat, a: nat, b: nat)
    requires Run(cfg, states, actions) && k < |states|
    requires a < b < |states[k].world.issued|
    requires states[k].world.issued[a].origin.Some? && states[k].world.issued[b].origin.Some?
    ensures var w := states[k].world;
            var oa, ob := w.issued[a].origin.value, w.issued[b].origin.value;
            && oa < |w.consumed| && ob < |w.consumed| && oa != ob
            && (w.consumed[oa].token.jti == w.consumed[ob].token.jti ==>
                  var earlier, later := if oa < ob then oa else ob, if oa < ob then ob else oa;
                  w.consumed[earlier].token == w.consumed[later].token
                  && w.consumed[later].at >= w.consumed[earlier].until >= w.consumed[later].token.expiresAt)
  {
    RunKeepsPairs(cfg, states, actions, k);
    RunKeeps(cfg, states, actions, k);
  }

  /** Every marker is written at the instant its time to live was measured: the two accesses taken as one. */
  ghost predicate MarksAtOnce(states: seq<System>, actions: seq<Action>)
    requires |states| == |actions| + 1
  {
    forall i :: 0 <= i < |actions| && actions[i].Step? && actions[i].id in states[i].calls ==>
      var call := states[i].calls[actions[i].id];
      call.Consuming? ==> call.ttl == call.token.expiresAt - states[i].world.now
  }

  ghost predicate MarkedInTime(w: World) {
    forall o :: 0 <= o < |w.consumed| ==> w.consumed[o].at < w.consumed[o].token.expiresAt
  }

  lemma ConsumesOnlyWhenConsuming(cfg: Config, s: System, a: Action)
    requires Enabled(s, a)
    ensures Apply(cfg, s, a).world.consumed
            == if a.Step? && s.calls[a.id].Consuming? && !Present(s.world.used, s.calls[a.id].token.jti, s.world.now)
               then s.world.consumed
                    + [Consumption(s.calls[a.id].token, s.world.now, s.world.now + s.calls[a.id].ttl)]
               else s.world.consumed
  {}

  lemma {:induction false} RunMarksInTime(cfg: Config, states: seq<System>, actions: seq<Action>, i: nat)
    requires Run(cfg, states, actions) && MarksAtOnce(states, actions) && i < |states|
    ensures MarkedInTime(states[i].world)
  {
    if i > 0 {
      var s, a := states[i - 1], actions[i - 1];
      RunMarksInTime(cfg, states, actions, i - 1);
      RunKeeps(cfg, states, actions, i - 1);
      assert a.Step? ==> CallOk(s.world, s.calls[a.id]);
      ConsumesOnlyWhenConsuming(cfg, s, a);
      hide Apply, Advance;
    }
  }

  /** With measuring and marking taken as one access, every interleaving issues at most one pair for a refresh token. */
  lemma AtMostOnePairPerToken(cfg: Config, states: seq<System>, actions: seq<Action>, k: nat, a: nat, b: nat)
    requires Run(cfg, states, actions) && MarksAtOnce(states, actions) && k < |states|
    requires a < b < |states[k].world.issued|
    requires states[k].world.issued[a].origin.Some? && states[k].world.issued[b].origin.Some?
    ensures var w := states[k].world;
            var oa, ob := w.issued[a].origin.value, w.issued[b].origin.value;
            oa < |w.consumed| && ob < |w.consumed| && w.consumed[oa].token.jti != w.consumed[ob].token.jti
  {
    OnePairPerToken(cfg, states, actions, k, a, b);
    RunMarksInTime(cfg, states, actions, k);
  }

  /** A used-marker is absent exactly when every consumption of its token has lapsed. */
  lemma AbsentIffLapsed(w: World, c: Claims)
    requires TokensOk(w) && MarkersOk(w) && UsedOk(w) && c in w.minted
    ensures !Present(w.used, c.jti, w.now)
            <==> forall o :: 0 <= o < |w.consumed| && w.consumed[o].token == c ==> w.consumed[o].until <= w.now
  {
    if c.jti in w.used {
      assert MarkedBy(w, c.jti);
      var o :| 0 <= o < |w.consumed| && w.consumed[o].token.jti == c.jti && w.consumed[o].until == w.used[c.jti];
      assert w.consumed[o].token == c;
    }
  }

  /**
   * In every interleaving, the step that tries to consume a token succeeds exactly when every earlier
   * consumption of it has lapsed, which none does before the token expires; otherwise it ends the session.
   */
  lemma ConsumesIff(cfg: Config, states: seq<System>, actions: seq<Action>, n: nat, id: nat)
    requires Run(cfg, states, actions) && n < |actions| && actions[n] == Step(id) && states[n].calls[id].Consuming?
    ensures var w, w', c := states[n].world, states[n + 1].world, states[n].calls[id].token;
            && (forall o :: 0 <= o < |w.consumed| && w.consumed[o].token == c ==> w.consumed[o].until >= c.expiresAt)
            && if forall o :: 0 <= o < |w.consumed| && w.consumed[o].token == c ==> w.consumed[o].until <= w.now
               then w'.consumed == w.consumed + [Consumption(c, w.now, w.now + states[n].calls[id].ttl)]
               else w'.consumed == w.consumed && states[n + 1].calls[id] == Revoking(c.sid, SessionRevoked)
  {
    RunKeeps(cfg, states, actions, n);
    assert CallOk(states[n].world, states[n].calls[id]);
    hide UsedOk, TokensOk, SingleUse;
    AbsentIffLapsed(states[n].world, states[n].calls[id].token);
  }

  // ---------- session versions ----------

  /** All tokens of one session carry the user and the version read by the login that opened it. */
  lemma SessionVersionsAgree(cfg: Config, states: seq<System>, actions: seq<Action>, k: nat, c: Claims, d: Claims)
    requires Run(cfg, states, actions) && k < |states|
    requires c in states[k].world.minted && d in states[k].world.minted && c.sid == d.sid
    ensures c.subject == d.subject && c.version == d.version
    ensures c.sid in states[k].world.owners && states[k].world.owners[c.sid] == Session(c.subject, c.version)
  {
    RunKeeps(cfg, states, actions, k);
  }

  /**
   * Once a user row has reached a version, no later check that reads the row accepts a token of an earlier
   * version, however late that token was minted: access is refused and a rotation never gets past the row.
   */
  lemma OldVersionsAreRefused(cfg: Config, states: seq<System>, actions: seq<Action>, i: nat, j: nat, c: Claims)
    requires Run(cfg, states, actions) && i <= j < |states|
    requires c.subject in states[i].world.users && c.version < states[i].world.users[c.subject].version
    ensures !AccessAllowed(cfg, states[j].world, c)
    ensures !Advance(cfg, states[j].world, Reading(c)).1.Timing?
  {
    RunGrows(cfg, states, actions, i, j);
  }

  /** A committed password update refuses every token of the version before it, from the next state on. */
  lemma PasswordUpdateRefusesOldTokens(cfg: Config, states: seq<System>, actions: seq<Action>, i: nat, j: nat, c: Claims)
    requires Run(cfg, states, actions) && i < |actions| && i < j < |states|
    requires actions[i] == ChangePassword(c.subject) && !states[i].world.users[c.subject].deleted
    requires c.version <= states[i].world.users[c.subject].version
    ensures !AccessAllowed(cfg, states[j].world, c)
    ensures !Advance(cfg, states[j].world, Reading(c)).1.Timing?
  {
    OldVersionsAreRefused(cfg, states, actions, i + 1, j, c);
  }
}
