/** Which session a logout ends, said in terms of what is presented, and that it ends for good. */
module SessionLogout {
  import opened AuthService
  import opened Sessions
  import opened Wrappers

  /** The presented string is a token that parses as the kind. */
  predicate ParsesAs(cfg: Config, w: World, p: Presented, kind: Kind) {
    p.Signed? && Accepts(cfg, p.claims, kind, w.now)
  }

  /**
   * The session is that of a refresh token that parses and is not contradicted by an access token that parses
   * too, or, if no refresh token is presented, that of an access token that parses.
   */
  predicate EndsSession(cfg: Config, w: World, access: Presented, refresh: Presented, sid: nat) {
    || (&& ParsesAs(cfg, w, refresh, Refresh) && refresh.claims.sid == sid
        && (ParsesAs(cfg, w, access, Access) ==>
              access.claims.sid == refresh.claims.sid && access.claims.subject == refresh.claims.subject))
    || (refresh == Nothing && ParsesAs(cfg, w, access, Access) && access.claims.sid == sid)
  }

  /** The marker of the session is set for one refresh lifetime, and nothing else happens. */
  predicate EndedOnly(cfg: Config, w: World, w': World, sid: nat) {
    w' == w.(revoked := w.revoked[sid := w.now + cfg.refreshTtl])
  }

  lemma LogoutAnswers(cfg: Config, w: World, access: Presented, refresh: Presented)
    ensures var (w', outcome) := Settle(cfg, w, BeginLogout(cfg, w, access, refresh));
            && (forall sid :: EndsSession(cfg, w, access, refresh, sid) ==> EndedOnly(cfg, w, w', sid) && outcome == LoggedOut)
            && ((forall sid :: !EndsSession(cfg, w, access, refresh, sid)) ==>
                  w' == w && outcome == if access == Nothing && refresh == Nothing then LoggedOut else InvalidToken)
  {
    hide Settle, Accepts;
    if ParsesAs(cfg, w, refresh, Refresh) && EndsSession(cfg, w, access, refresh, refresh.claims.sid) {
      RevokingSettles(cfg, w, refresh.claims.sid, LoggedOut);
    } else if refresh == Nothing && ParsesAs(cfg, w, access, Access) {
      assert EndsSession(cfg, w, access, refresh, access.claims.sid);
      RevokingSettles(cfg, w, access.claims.sid, LoggedOut);
    } else {
      SettleDone(cfg, w, InvalidToken);
      SettleDone(cfg, w, LoggedOut);
    }
  }

  /** In every run of whole requests, once a logout has ended a session, no token of it is ever rotated again. */
  lemma LogoutIsFinal(cfg: Config, worlds: seq<World>, requests: seq<Request>, i: nat, j: nat, access: Presented, refresh: Presented,
                      c: Claims)
    requires ValidConfig(cfg) && Served(cfg, worlds, requests) && i < j < |worlds|
    requires requests[i] == Logout(access, refresh) && EndsSession(cfg, worlds[i], access, refresh, c.sid)
    requires c in worlds[j].minted
    ensures !Rotated(cfg, worlds[j], Signed(c)).1.Issued?
  {
    hide EndsSession, Rotated, BeginLogout;
    LogoutAnswers(cfg, worlds[i], access, refresh);
    RevokedNeverRotates(cfg, worlds, requests, i + 1, j, c);
  }
}
