/** The authentication service as an object that its calls change: rows and keys in place, one call at a time. */
module AuthStore {
  import opened Sessions
  import opened AuthService
  import opened SessionLogout
  import opened Wrappers

  class Service {
    const cfg: Config
    var now: int
    var users: map<string, User>
    var used: map<nat, int>
    var revoked: map<nat, int>
    var nextJti: nat
    var nextSid: nat
    ghost var minted: set<Claims>
    ghost var consumed: seq<Consumption>
    ghost var issued: seq<Issue>
    ghost var owners: map<nat, Session>

    ghost function State(): (r: World)
      reads this
    {
      World(now, users, used, revoked, minted, nextJti, nextSid, consumed, issued, owners)
    }

    ghost predicate Valid()
      reads this
    {
      ValidConfig(cfg) && FamiliesOk(cfg, State())
    }

    constructor (cfg: Config, now: int)
      requires ValidConfig(cfg)
      ensures Valid() && State() == Start(now).world && this.cfg == cfg
    {
      this.cfg, this.now := cfg, now;
      users, used, revoked, nextJti, nextSid := map[], map[], map[], 0, 0;
      minted, consumed, issued, owners := {}, [], [], map[];
      new;
      StartIsOk(cfg, now);
    }

    method EnsureSessionActive(sid: nat) returns (ok: bool)
      ensures ok <==> !Present(revoked, sid, now)
    {
      ok := !(sid in revoked && now < revoked[sid]);
    }

    method RevokeSession(sid: nat)
      modifies this`revoked
      ensures revoked == old(revoked)[sid := now + cfg.refreshTtl]
    {
      revoked := revoked[sid := now + cfg.refreshTtl];
    }

    /** SETNX: set the marker unless it is present, and say whether it was set. */
    method ConsumeRefresh(c: Claims, ttl: int) returns (won: bool)
      modifies this`used, this`consumed
      ensures won <==> !Present(old(used), c.jti, now)
      ensures State() == if won then Mark(old(State()), c, ttl) else old(State())
    {
      won := !(c.jti in used && now < used[c.jti]);
      if won {
        used := used[c.jti := now + ttl];
        consumed := consumed + [Consumption(c, now, now + ttl)];
      }
    }

    method GenerateToken(kind: Kind, subject: string, user: User, sid: nat) returns (c: Claims)
      modifies this`minted, this`nextJti
      ensures (State(), c) == MintToken(cfg, old(State()), kind, subject, user, sid)
    {
      c := Claims(kind, nextJti, subject, sid, user.version, Seconds(now), Seconds(now + Lifetime(cfg, kind)));
      minted := minted + {c};
      nextJti := nextJti + 1;
    }

    method IssueTokenPair(subject: string, user: User, sid: nat, ghost origin: Option<nat>) returns (outcome: Outcome)
      modifies this`minted, this`nextJti, this`issued
      ensures (State(), outcome) == Settle(cfg, old(State()), MintingAccess(subject, user, sid, origin))
      ensures outcome.Issued? && PairMinted(cfg, old(State()), State(), subject, sid, user.version, outcome.refresh)
    {
      MintsPair(cfg, State(), subject, user, sid, origin);
      hide Settle, MintToken, PairMinted;
      SettleStep(cfg, State(), MintingAccess(subject, user, sid, origin));
      var access := GenerateToken(Access, subject, user, sid);
      SettleStep(cfg, State(), MintingRefresh(subject, user, sid, origin));
      var refresh := GenerateToken(Refresh, subject, user, sid);
      issued := issued + [Issue(refresh, origin)];
      SettleDone(cfg, State(), Issued(refresh));
      return Issued(refresh);
    }

    /** Find the user row by id, unless deleted. */
    method FindByID(subject: string) returns (user: Option<User>)
      ensures user == FindUser(State(), subject)
    {
      user := if subject in users && !users[subject].deleted then Some(users[subject]) else None;
    }

    /** A token is exchanged for a pair exactly if it is live, unconsumed, and of an active session and user. */
    method RotateSession(token: Presented) returns (outcome: Outcome)
      requires Valid() && Known(State(), token)
      modifies this
      ensures Valid() && (State(), outcome) == Rotated(cfg, old(State()), token)
      ensures outcome.Issued? <==> Rotatable(cfg, old(State()), token)
      ensures outcome.Issued? ==> Exchanged(cfg, old(State()), State(), token.claims, outcome.refresh)
      ensures outcome.Issued? ==> PairMinted(cfg, old(State()), State(), token.claims.subject, token.claims.sid,
                                             token.claims.version, outcome.refresh)
    {
      HandleKeeps(cfg, State(), Rotate(token));
      RotatesIff(cfg, State(), token);
      ghost var w := State();
      if Rotatable(cfg, w, token) {
        PairIsExchanged(cfg, w, token.claims, FindUser(w, token.claims.subject).value);
        ExchangedIsMinted(cfg, w, token.claims, FindUser(w, token.claims.subject).value);
      }
      hide FamiliesOk, Rotated, Rotatable, Exchanged, PairFor, PairMinted;
      outcome := Rotation(token);
    }

    method Rotation(token: Presented) returns (outcome: Outcome)
      modifies this`used, this`consumed, this`revoked, this`minted, this`nextJti, this`issued
      ensures (State(), outcome) == Rotated(cfg, old(State()), token)
    {
      hide Settle;
      ghost var w := State();
      var parsed := Parse(cfg, token, Refresh, now);
      if parsed == None {
        SettleDone(cfg, w, InvalidToken);
        return InvalidToken;
      }
      var c := parsed.value;
      SettleStep(cfg, w, Checking(c));
      var active := EnsureSessionActive(c.sid);
      if !active {
        SettleDone(cfg, w, SessionRevoked);
        return SessionRevoked;
      }
      SettleStep(cfg, w, Reading(c));
      var user := FindByID(c.subject);
      if user == None {
        SettleDone(cfg, w, UserNotFound);
        return UserNotFound;
      }
      if !user.value.active {
        RevokingSettles(cfg, w, c.sid, AccountInactive);
        RevokeSession(c.sid);
        return AccountInactive;
      }
      if user.value.version != c.version {
        RevokingSettles(cfg, w, c.sid, SessionRevoked);
        RevokeSession(c.sid);
        return SessionRevoked;
      }
      outcome := ConsumeAndIssue(c, user.value);
    }

    /** The end of rotateSession: measure the remaining lifetime, consume the token, and issue a pair. */
    method ConsumeAndIssue(c: Claims, user: User) returns (outcome: Outcome)
      modifies this`used, this`consumed, this`revoked, this`minted, this`nextJti, this`issued
      ensures (State(), outcome) == Settle(cfg, old(State()), Timing(c, user))
    {
      hide Settle;
      ghost var w := State();
      var refreshTtl := c.expiresAt - now;
      SettleStep(cfg, w, Timing(c, user));
      if refreshTtl <= 0 {
        SettleDone(cfg, w, InvalidToken);
        return InvalidToken;
      }
      SettleStep(cfg, w, Consuming(c, user, refreshTtl));
      var won := ConsumeRefresh(c, refreshTtl);
      if !won {
        RevokingSettles(cfg, w, c.sid, SessionRevoked);
        RevokeSession(c.sid);
        return SessionRevoked;
      }
      outcome := IssueTokenPair(c.subject, user, c.sid, Some(|w.consumed|));
    }

    /** A login: read the row, look at the outcome of the password comparison, open a session, issue its first pair. */
    method Login(subject: string, matches: bool) returns (outcome: Outcome)
      requires Valid()
      modifies this
      ensures Valid() && (State(), outcome) == Settle(cfg, old(State()), LoggingIn(subject, matches))
      ensures outcome.Issued?
              <==> matches && FindUser(old(State()), subject).Some? && FindUser(old(State()), subject).value.active
    {
      HandleKeeps(cfg, State(), AuthService.Login(subject, matches));
      LoginAnswers(cfg, State(), subject, matches);
      hide FamiliesOk, Settle;
      outcome := Authenticate(subject, matches);
    }

    method Authenticate(subject: string, matches: bool) returns (outcome: Outcome)
      modifies this`minted, this`nextJti, this`nextSid, this`issued, this`owners
      ensures (State(), outcome) == Settle(cfg, old(State()), LoggingIn(subject, matches))
    {
      hide Settle, FirstPair;
      LoginAnswers(cfg, State(), subject, matches);
      var user := FindByID(subject);
      if user == None || !matches {
        return InvalidCredentials;
      }
      if !user.value.active {
        return AccountInactive;
      }
      outcome := OpenSession(subject, user.value);
    }

    /** A fresh session for a row, whatever it says, and its first pair. */
    method OpenSession(subject: string, user: User) returns (outcome: Outcome)
      modifies this`minted, this`nextJti, this`nextSid, this`issued, this`owners
      ensures (State(), outcome) == FirstPair(cfg, old(State()), subject, user)
      ensures outcome.Issued? && PairMinted(cfg, old(State()), State(), subject, old(nextSid), user.version, outcome.refresh)
      ensures owners == old(owners)[old(nextSid) := Session(subject, user.version)] && nextSid == old(nextSid) + 1
    {
      FirstPairIsMinted(cfg, State(), subject, user);
      hide Settle, PairMinted;
      ghost var w := State();
      OpeningSettles(cfg, w, subject, user);
      SettleStep(cfg, w, Opening(subject, user));
      var sid := nextSid;
      owners := owners[sid := Session(subject, user.version)];
      nextSid := nextSid + 1;
      outcome := IssueTokenPair(subject, user, sid, None);
    }

    /** The end of VerifyOTP: insert the row and open a session from it, with no check of the row. */
    method SignUp(subject: string) returns (outcome: Outcome)
      requires Valid() && subject !in users
      modifies this
      ensures Valid()
      ensures users == old(users)[subject := NEW_USER] && outcome.Issued?
      ensures (State(), outcome) == FirstPair(cfg, UpdateUser(old(State()), subject, NEW_USER), subject, NEW_USER)
    {
      HandleKeeps(cfg, State(), AuthService.SignUp(subject));
      OpeningSettles(cfg, UpdateUser(State(), subject, NEW_USER), subject, NEW_USER);
      hide FamiliesOk, Settle;
      users := users[subject := NEW_USER];
      outcome := OpenSession(subject, NEW_USER);
    }

    /** revokeSessionFromTokens. */
    method RevokeSessionFromTokens(access: Presented, refresh: Presented) returns (outcome: Outcome)
      requires Valid() && Known(State(), access) && Known(State(), refresh)
      modifies this
      ensures Valid()
      ensures (State(), outcome) == Settle(cfg, old(State()), BeginLogout(cfg, old(State()), access, refresh))
      ensures forall sid :: EndsSession(cfg, old(State()), access, refresh, sid) ==>
                EndedOnly(cfg, old(State()), State(), sid) && outcome == LoggedOut
      ensures (forall sid :: !EndsSession(cfg, old(State()), access, refresh, sid)) ==>
                State() == old(State()) && outcome == if access == Nothing && refresh == Nothing then LoggedOut else InvalidToken
    {
      HandleKeeps(cfg, State(), Logout(access, refresh));
      LogoutAnswers(cfg, State(), access, refresh);
      hide FamiliesOk, Settle, BeginLogout, EndsSession, EndedOnly;
      outcome := EndSession(access, refresh);
    }

    method EndSession(access: Presented, refresh: Presented) returns (outcome: Outcome)
      modifies this`revoked
      ensures (State(), outcome) == Settle(cfg, old(State()), BeginLogout(cfg, old(State()), access, refresh))
    {
      hide Settle, BeginLogout;
      ghost var w := State();
      var sid;
      sid, outcome := SessionToEnd(access, refresh);
      if sid.Some? {
        RevokingSettles(cfg, w, sid.value, outcome);
        RevokeSession(sid.value);
      } else {
        SettleDone(cfg, w, outcome);
      }
    }

    /** Which session the tokens let the caller end, and what the caller is told. */
    method SessionToEnd(access: Presented, refresh: Presented) returns (sid: Option<nat>, outcome: Outcome)
      ensures BeginLogout(cfg, State(), access, refresh) == if sid.Some? then Revoking(sid.value, outcome) else Done(outcome)
    {
      hide Accepts;
      if access.Nothing? && refresh.Nothing? {
        return None, LoggedOut;
      }
      var refreshClaims: Option<Claims> := None;
      if !refresh.Nothing? {
        refreshClaims := Parse(cfg, refresh, Refresh, now);
        if refreshClaims == None {
          return None, InvalidToken;
        }
      }
      var accessClaims: Option<Claims> := None;
      if !access.Nothing? {
        accessClaims := Parse(cfg, access, Access, now);
        if accessClaims == None && refreshClaims == None {
          return None, InvalidToken;
        }
      }
      if accessClaims.Some? && refreshClaims.Some?
         && (accessClaims.value.sid != refreshClaims.value.sid || accessClaims.value.subject != refreshClaims.value.subject) {
        return None, InvalidToken;
      }
      if refreshClaims.Some? {
        return Some(refreshClaims.value.sid), LoggedOut;
      }
      return Some(accessClaims.value.sid), LoggedOut;
    }

    /** UpdatePasswordAndIncrementSessionVersion: one statement on the row, if it is there. */
    method UpdatePassword(subject: string) returns (found: bool)
      requires Valid()
      modifies this`users
      ensures Valid() && (found <==> FindUser(old(State()), subject).Some?)
      ensures found ==> State() == Handle(cfg, old(State()), NewPassword(subject))
      ensures found ==>
                users == old(users)[subject := User(old(users)[subject].version + 1, old(users)[subject].active, false)]
      ensures !found ==> State() == old(State())
    {
      found := subject in users && !users[subject].deleted;
      if found {
        HandleKeeps(cfg, State(), NewPassword(subject));
        users := users[subject := users[subject].(version := users[subject].version + 1)];
      }
    }

    /** ValidateAccessToken. */
    method ValidateAccessToken(token: Presented) returns (allowed: bool)
      ensures allowed <==> token.Signed? && AccessAllowed(cfg, State(), token.claims)
      ensures allowed ==> token.claims.kind == Access && now < token.claims.expiresAt + 30_000
      ensures allowed ==>
                && token.claims.subject in users && !users[token.claims.subject].deleted
                && users[token.claims.subject].active && users[token.claims.subject].version == token.claims.version
    {
      var parsed := Parse(cfg, token, Access, now);
      if parsed == None {
        return false;
      }
      var user := FindByID(parsed.value.subject);
      if user == None {
        return false;
      }
      if !user.value.active {
        return false;
      }
      return user.value.version == parsed.value.version;
    }
  }
}
