/** A session is in one place at a time: its one unconsumed refresh token, or the one call that is minting the next. */
module SessionSlots {
  import opened AuthService
  import opened SessionRevocation
  import opened SessionRuns
  import opened Sessions
  import opened Wrappers

  ghost predicate SlotsOk(s: System) {
    && OneUnconsumed(s.world)
    && (forall id, sid :: id in s.calls && MintsFor(s.calls[id], sid) ==> NoneUnconsumed(s.world, sid))
    && (forall id, other, sid ::
          id in s.calls && other in s.calls && MintsFor(s.calls[id], sid) && MintsFor(s.calls[other], sid) ==> id == other)
  }

  ghost predicate SameUnconsumed(w: World, w': World) {
    forall c :: c in w'.minted && c.kind == Refresh && !Consumed(w', c) ==> c in w.minted && !Consumed(w, c)
  }

  lemma StaysNone(w: World, w': World)
    requires SameUnconsumed(w, w')
    ensures forall sid :: NoneUnconsumed(w, sid) ==> NoneUnconsumed(w', sid)
  {
    hide Consumed;
    forall sid | NoneUnconsumed(w, sid) ensures NoneUnconsumed(w', sid) {
      forall c | c in w'.minted && c.kind == Refresh && c.sid == sid ensures Consumed(w', c) {
        assert c in w.minted ==> Consumed(w, c);
      }
    }
  }

  /** No new refresh token, and no new minting: nothing to do. */
  lemma NothingMoves(s: System, t: System)
    requires SlotsOk(s) && SameUnconsumed(s.world, t.world)
    requires forall id, sid :: id in t.calls && MintsFor(t.calls[id], sid) ==> id in s.calls && MintsFor(s.calls[id], sid)
    ensures SlotsOk(t)
  {
    hide Consumed, MintsFor;
    StaysNone(s.world, t.world);
  }

  /** A consumed token gives its session's place to the call that consumed it. */
  lemma TokenToCall(s: System, t: System, id: nat, c: Claims)
    requires SlotsOk(s) && id in s.calls && c in s.world.minted && c.kind == Refresh && !Consumed(s.world, c)
    requires SameUnconsumed(s.world, t.world) && Consumed(t.world, c)
    requires t.calls.Keys == s.calls.Keys && forall k :: k in s.calls && k != id ==> t.calls[k] == s.calls[k]
    requires forall sid :: MintsFor(t.calls[id], sid) ==> sid == c.sid
    ensures SlotsOk(t)
  {
    hide Consumed, MintsFor;
    StaysNone(s.world, t.world);
    assert !NoneUnconsumed(s.world, c.sid);
    forall d | d in t.world.minted && d.kind == Refresh && d.sid == c.sid ensures Consumed(t.world, d) {
      assert d in s.world.minted && !Consumed(s.world, d) ==> d == c;
    }
    assert NoneUnconsumed(t.world, c.sid);
  }

  /** A minted refresh token takes its session's place over from the call that minted it. */
  lemma CallToToken(s: System, t: System, id: nat, n: Claims)
    requires SlotsOk(s) && id in s.calls && MintsFor(s.calls[id], n.sid)
    requires t.world.minted == s.world.minted + {n} && t.world.consumed == s.world.consumed
    requires t.calls.Keys == s.calls.Keys && forall k :: k in s.calls && k != id ==> t.calls[k] == s.calls[k]
    requires forall sid :: !MintsFor(t.calls[id], sid)
    ensures SlotsOk(t)
  {
    forall c: Claims ensures Consumed(t.world, c) <==> Consumed(s.world, c) {}
    hide Consumed, MintsFor;
    assert NoneUnconsumed(s.world, n.sid);
    forall k, sid | k in t.calls && MintsFor(t.calls[k], sid) ensures NoneUnconsumed(t.world, sid) {
      assert k != id && k in s.calls && MintsFor(s.calls[k], sid) && NoneUnconsumed(s.world, sid);
    }
  }

  /** A login or a registration opens a session that nobody has a token of, and nobody mints for. */
  lemma SessionOpens(s: System, t: System, id: nat, sid: nat)
    requires SlotsOk(s) && id in s.calls && SameUnconsumed(s.world, t.world)
    requires forall c :: c in t.world.minted ==> c.sid != sid
    requires forall k :: k in s.calls ==> !MintsFor(s.calls[k], sid)
    requires t.calls.Keys == s.calls.Keys && forall k :: k in s.calls && k != id ==> t.calls[k] == s.calls[k]
    requires forall other :: MintsFor(t.calls[id], other) ==> other == sid
    ensures SlotsOk(t)
  {
    hide Consumed, MintsFor;
    StaysNone(s.world, t.world);
    assert NoneUnconsumed(t.world, sid);
  }

  lemma SameHistorySameUnconsumed(w: World, w': World)
    requires w'.consumed == w.consumed
    requires forall c :: c in w'.minted && c.kind == Refresh ==> c in w.minted
    ensures SameUnconsumed(w, w')
  {}

  lemma MarkUnconsumed(w: World, c: Claims, ttl: int)
    ensures SameUnconsumed(w, Mark(w, c, ttl)) && Consumed(Mark(w, c, ttl), c)
  {
    forall d: Claims ensures Consumed(Mark(w, c, ttl), d) <==> Consumed(w, d) || d == c {
      ConsumedAfter(w, Consumption(c, w.now, w.now + ttl), d);
    }
    hide Consumed;
  }

  // ---------- the steps ----------

  lemma ConsumingStep(cfg: Config, s: System, id: nat)
    requires Inv(s) && SlotsOk(s) && id in s.calls && s.calls[id].Consuming?
    requires s.calls[id].ttl == s.calls[id].token.expiresAt - s.world.now
    ensures SlotsOk(Apply(cfg, s, Step(id)))
  {
    var w, call := s.world, s.calls[id];
    assert CallOk(w, call);
    var t := Apply(cfg, s, Step(id));
    if Present(w.used, call.token.jti, w.now) {
      SameHistorySameUnconsumed(w, t.world);
      NothingMoves(s, t);
    } else {
      OnlyUnconsumedWin(w, call.token);
      MarkUnconsumed(w, call.token, call.ttl);
      hide Inv, SlotsOk, Consumed;
      TokenToCall(s, t, id, call.token);
    }
  }

  lemma OpeningStep(cfg: Config, s: System, id: nat)
    requires Inv(s) && SlotsOk(s) && id in s.calls && s.calls[id].Opening?
    ensures SlotsOk(Apply(cfg, s, Step(id)))
  {
    var t := Apply(cfg, s, Step(id));
    SameHistorySameUnconsumed(s.world, t.world);
    forall k | k in s.calls ensures !MintsFor(s.calls[k], s.world.nextSid) { assert CallOk(s.world, s.calls[k]); }
    hide SlotsOk, Consumed, MarkersOk, UsedOk, SingleUse;
    SessionOpens(s, t, id, s.world.nextSid);
  }

  lemma MintingStep(cfg: Config, s: System, id: nat)
    requires SlotsOk(s) && id in s.calls && (s.calls[id].MintingAccess? || s.calls[id].MintingRefresh?)
    ensures SlotsOk(Apply(cfg, s, Step(id)))
  {
    var w, call, t := s.world, s.calls[id], Apply(cfg, s, Step(id));
    hide SlotsOk, Consumed;
    if call.MintingAccess? {
      SameHistorySameUnconsumed(w, t.world);
      NothingMoves(s, t);
    } else {
      CallToToken(s, t, id, MintToken(cfg, w, Refresh, call.subject, call.user, call.sid).1);
    }
  }

  lemma OtherStep(cfg: Config, s: System, id: nat)
    requires SlotsOk(s) && id in s.calls
    requires var call := s.calls[id]; call.Checking? || call.Reading? || call.Timing? || call.LoggingIn? || call.Revoking? || call.Done?
    ensures SlotsOk(Apply(cfg, s, Step(id)))
  {
    hide SlotsOk, Consumed;
    SameHistorySameUnconsumed(s.world, Apply(cfg, s, Step(id)).world);
    NothingMoves(s, Apply(cfg, s, Step(id)));
  }

  lemma OtherAction(cfg: Config, s: System, a: Action)
    requires SlotsOk(s) && Enabled(s, a) && !a.Step?
    ensures SlotsOk(Apply(cfg, s, a))
  {
    hide SlotsOk, Consumed, Accepts;
    SameHistorySameUnconsumed(s.world, Apply(cfg, s, a).world);
    NothingMoves(s, Apply(cfg, s, a));
  }

  lemma {:induction false} RunKeepsSlots(cfg: Config, states: seq<System>, actions: seq<Action>, i: nat)
    requires Run(cfg, states, actions) && MarksAtOnce(states, actions) && i < |states|
    ensures SlotsOk(states[i])
  {
    hide Apply, Inv, SlotsOk;
    if i == 0 {
      NothingYet(states[0].world.now);
    } else {
      var s, a := states[i - 1], actions[i - 1];
      RunKeepsSlots(cfg, states, actions, i - 1);
      RunKeeps(cfg, states, actions, i - 1);
      if !a.Step? {
        OtherAction(cfg, s, a);
      } else {
        match s.calls[a.id]
        case Consuming(_, _, _) => ConsumingStep(cfg, s, a.id);
        case Opening(_, _) => OpeningStep(cfg, s, a.id);
        case MintingAccess(_, _, _, _) => MintingStep(cfg, s, a.id);
        case MintingRefresh(_, _, _, _) => MintingStep(cfg, s, a.id);
        case _ => OtherStep(cfg, s, a.id);
      }
    }
  }

  lemma NothingYet(now: int)
    ensures SlotsOk(Start(now))
  {}

  // ---------- counting ----------

  ghost function LiveTokens(w: World, sid: nat): (r: set<Claims>) {
    set c | c in w.minted && c.kind == Refresh && c.sid == sid && !Consumed(w, c)
  }

  ghost function Minting(s: System, sid: nat): (r: set<nat>) {
    set id | id in s.calls && MintsFor(s.calls[id], sid)
  }

  lemma AtMostOne<T>(a: set<T>)
    requires forall x, y :: x in a && y in a ==> x == y
    ensures |a| <= 1
  {
    if a != {} {
      var x :| x in a;
      assert a == {x};
    }
  }

  /**
   * In every interleaving in which measuring and marking are one access, the unconsumed refresh tokens of a
   * session and the calls minting for it number at most one together.
   */
  lemma OnePlacePerSession(cfg: Config, states: seq<System>, actions: seq<Action>, k: nat, sid: nat)
    requires Run(cfg, states, actions) && MarksAtOnce(states, actions) && k < |states|
    ensures |LiveTokens(states[k].world, sid)| + |Minting(states[k], sid)| <= 1
  {
    RunKeepsSlots(cfg, states, actions, k);
    hide Consumed, MintsFor;
    var live, minting := LiveTokens(states[k].world, sid), Minting(states[k], sid);
    AtMostOne(live);
    AtMostOne(minting);
    if id :| id in minting {
      assert NoneUnconsumed(states[k].world, sid);
      assert live == {};
    } else {
      assert minting == {};
    }
  }
}
