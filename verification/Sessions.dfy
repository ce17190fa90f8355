/**
 * Refresh-token sessions, one shared-store access at a time: the steps of rotateSession, of a login
 * and of a logout, over a clock, the user rows and the two kinds of Redis keys.
 * Time is counted in milliseconds, the unit of Redis key expiry.
 */
module Sessions {
  import opened Wrappers

  // ---------- tokens ----------

  datatype Config = Config(accessTtl: int, refreshTtl: int)

  const SKEW: int := 30_000

  predicate ValidConfig(cfg: Config) {
    0 < cfg.accessTtl <= 300_000 && cfg.accessTtl < cfg.refreshTtl
  }

  datatype Kind = Access | Refresh

  datatype Claims = Claims(kind: Kind, jti: nat, subject: string, sid: nat, version: int, issuedAt: int, expiresAt: int)

  /** Numeric dates in a token are whole seconds. */
  function Seconds(t: int): (r: int) {
    t - t % 1000
  }

  function Lifetime(cfg: Config, kind: Kind): (r: int) {
    if kind == Refresh then cfg.refreshTtl else cfg.accessTtl
  }

  function NewToken(cfg: Config, kind: Kind, jti: nat, subject: string, sid: nat, version: int, now: int): (r: Claims) {
    Claims(kind, jti, subject, sid, version, Seconds(now), Seconds(now + Lifetime(cfg, kind)))
  }

  /** A token with the given contents, minted at some moment to live for lifetime, up to full seconds. */
  ghost predicate IsToken(c: Claims, kind: Kind, subject: string, sid: nat, version: int, minted: int, lifetime: int) {
    && c.kind == kind && c.subject == subject && c.sid == sid && c.version == version
    && minted - 1000 < c.issuedAt <= minted && minted + lifetime - 1000 < c.expiresAt <= minted + lifetime
  }

  /** Access tokens live for one configured time, refresh tokens for another. */
  lemma NewTokensAre(cfg: Config, jti: nat, subject: string, sid: nat, version: int, now: int)
    ensures IsToken(NewToken(cfg, Access, jti, subject, sid, version, now), Access, subject, sid, version, now, cfg.accessTtl)
    ensures IsToken(NewToken(cfg, Refresh, jti, subject, sid, version, now), Refresh, subject, sid, version, now, cfg.refreshTtl)
  {}

  /** The time checks of parsing, with leeway, and the token's type, version and lifetime. */
  predicate Accepts(cfg: Config, c: Claims, kind: Kind, now: int) {
    && now < c.expiresAt + SKEW && c.issuedAt - SKEW <= now
    && c.version > 0 && c.kind == kind
    && c.expiresAt - c.issuedAt <= Lifetime(cfg, kind) + SKEW
  }

  /** What parsing as an access token, or as a refresh token, demands of the dates, the kind and the version of any claims. */
  lemma ParsingDemands(cfg: Config, c: Claims, now: int)
    ensures Accepts(cfg, c, Access, now)
            <==> && c.kind == Access && c.version >= 1 && c.issuedAt <= now + 30_000 && now < c.expiresAt + 30_000
                 && c.expiresAt - c.issuedAt <= cfg.accessTtl + 30_000
    ensures Accepts(cfg, c, Refresh, now)
            <==> && c.kind == Refresh && c.version >= 1 && c.issuedAt <= now + 30_000 && now < c.expiresAt + 30_000
                 && c.expiresAt - c.issuedAt <= cfg.refreshTtl + 30_000
  {}

  /** From its minting on, a token of a live version parses as its own kind exactly until 30 seconds past its expiry. */
  lemma FreshTokensParse(cfg: Config, kind: Kind, want: Kind, jti: nat, subject: string, sid: nat, version: int, minted: int, now: int)
    requires minted <= now && version > 0
    ensures var c := NewToken(cfg, kind, jti, subject, sid, version, minted);
            Accepts(cfg, c, want, now) <==> kind == want && now < c.expiresAt + 30_000
    ensures minted + Lifetime(cfg, kind) - 1000 < NewToken(cfg, kind, jti, subject, sid, version, minted).expiresAt
            <= minted + Lifetime(cfg, kind)
  {}

  // ---------- the shared state ----------

  datatype User = User(version: int, active: bool, deleted: bool)

  /** The row that a confirmed registration inserts. */
  const NEW_USER: User := User(1, true, false)

  /** What a caller hands in: nothing, a string that no key of the service signed, or a token. */
  datatype Presented = Nothing | Unsigned | Signed(claims: Claims)

  /** The claims of a presented token that parses as the wanted kind. */
  function Parse(cfg: Config, p: Presented, kind: Kind, now: int): (r: Option<Claims>) {
    if p.Signed? && Accepts(cfg, p.claims, kind, now) then Some(p.claims) else None
  }

  /** A won SETNX on the used-marker of a refresh token, and how long the marker lasts. */
  datatype Consumption = Consumption(token: Claims, at: int, until: int)

  /** An issued pair: its refresh token, and the consumption that paid for it, if it came from a rotation. */
  datatype Issue = Issue(refresh: Claims, origin: Option<nat>)

  datatype Session = Session(subject: string, version: int)

  /**
   * Rows and keys, and the history that statements are made about: every token minted, every
   * consumption, every pair issued, and who opened which session with which version.
   * A key with an expiry time is present until then.
   */
  datatype World = World(now: int, users: map<string, User>, used: map<nat, int>, revoked: map<nat, int>,
                         minted: set<Claims>, nextJti: nat, nextSid: nat,
                         consumed: seq<Consumption>, issued: seq<Issue>, owners: map<nat, Session>)

  predicate Present(keys: map<nat, int>, key: nat, now: int) {
    key in keys && now < keys[key]
  }

  function FindUser(w: World, subject: string): (r: Option<User>) {
    if subject in w.users && !w.users[subject].deleted then Some(w.users[subject]) else None
  }

  datatype Outcome =
    | Issued(refresh: Claims) | LoggedOut
    | InvalidCredentials | InvalidToken | SessionRevoked | AccountInactive | UserNotFound | StoreFailure

  // ---------- one call, step by step ----------

  /** Where a call stands: what it knows and which access to the shared state comes next. */
  datatype Call =
    | Checking(token: Claims)
    | Reading(token: Claims)
    | Timing(token: Claims, user: User)
    | Consuming(token: Claims, user: User, ttl: int)
    | LoggingIn(subject: string, matches: bool)
    | Opening(subject: string, user: User)
    | MintingAccess(subject: string, user: User, sid: nat, origin: Option<nat>)
    | MintingRefresh(subject: string, user: User, sid: nat, origin: Option<nat>)
    | Revoking(sid: nat, after: Outcome)
    | Done(outcome: Outcome)

  function MintToken(cfg: Config, w: World, kind: Kind, subject: string, user: User, sid: nat): (r: (World, Claims)) {
    var c := NewToken(cfg, kind, w.nextJti, subject, sid, user.version, w.now);
    (w.(minted := w.minted + {c}, nextJti := w.nextJti + 1), c)
  }

  /** A won SETNX. */
  function Mark(w: World, c: Claims, ttl: int): (r: World) {
    w.(used := w.used[c.jti := w.now + ttl], consumed := w.consumed + [Consumption(c, w.now, w.now + ttl)])
  }

  /** A fresh session id, for a user row that was read or inserted before. */
  function Opened(w: World, subject: string, u: User): (r: World) {
    w.(owners := w.owners[w.nextSid := Session(subject, u.version)], nextSid := w.nextSid + 1)
  }

  /** The next access of a call to the shared state, and the local decisions that follow it. */
  function Advance(cfg: Config, w: World, call: Call): (r: (World, Call)) {
    match call
    case Checking(c) =>
      (w, if Present(w.revoked, c.sid, w.now) then Done(SessionRevoked) else Reading(c))
    case Reading(c) =>
      (w, match FindUser(w, c.subject)
          case None => Done(UserNotFound)
          case Some(u) =>
            if !u.active then Revoking(c.sid, AccountInactive)
            else if u.version != c.version then Revoking(c.sid, SessionRevoked)
            else Timing(c, u))
    case Timing(c, u) =>
      (w, if c.expiresAt - w.now <= 0 then Done(InvalidToken) else Consuming(c, u, c.expiresAt - w.now))
    case Consuming(c, u, ttl) =>
      if Present(w.used, c.jti, w.now) then (w, Revoking(c.sid, SessionRevoked))
      else
        (Mark(w, c, ttl),
         MintingAccess(c.subject, u, c.sid, Some(|w.consumed|)))
    case LoggingIn(subject, matches) =>
      (w, match FindUser(w, subject)
          case None => Done(InvalidCredentials)
          case Some(u) =>
            if !matches then Done(InvalidCredentials)
            else if !u.active then Done(AccountInactive)
            else Opening(subject, u))
    case Opening(subject, u) =>
      (Opened(w, subject, u), MintingAccess(subject, u, w.nextSid, None))
    case MintingAccess(subject, u, sid, origin) =>
      (MintToken(cfg, w, Access, subject, u, sid).0, MintingRefresh(subject, u, sid, origin))
    case MintingRefresh(subject, u, sid, origin) =>
      var (w', c) := MintToken(cfg, w, Refresh, subject, u, sid);
      (w'.(issued := w'.issued + [Issue(c, origin)]), Done(Issued(c)))
    case Revoking(sid, after) =>
      (w.(revoked := w.revoked[sid := w.now + cfg.refreshTtl]), Done(after))
    case Done(_) =>
      (w, call)
  }

  /** rotateSession begins by parsing the token. */
  function BeginRotate(cfg: Config, w: World, p: Presented): (r: Call) {
    match Parse(cfg, p, Refresh, w.now)
    case Some(c) => Checking(c)
    case None => Done(InvalidToken)
  }

  /** revokeSessionFromTokens: which session the presented tokens let the caller end. */
  function BeginLogout(cfg: Config, w: World, access: Presented, refresh: Presented): (r: Call) {
    var refreshClaims, accessClaims := Parse(cfg, refresh, Refresh, w.now), Parse(cfg, access, Access, w.now);
    if access.Nothing? && refresh.Nothing? then Done(LoggedOut)
    else if !refresh.Nothing? && refreshClaims == None then Done(InvalidToken)
    else if accessClaims == None && refreshClaims == None then Done(InvalidToken)
    else if accessClaims.Some? && refreshClaims.Some?
            && (accessClaims.value.sid != refreshClaims.value.sid || accessClaims.value.subject != refreshClaims.value.subject)
    then Done(InvalidToken)
    else if refreshClaims.Some? then Revoking(refreshClaims.value.sid, LoggedOut)
    else Revoking(accessClaims.value.sid, LoggedOut)
  }

  /** ValidateAccessToken: the parsed token against the user row as it is now. */
  predicate AccessAllowed(cfg: Config, w: World, c: Claims) {
    && Accepts(cfg, c, Access, w.now)
    && match FindUser(w, c.subject)
       case None => false
       case Some(u) => u.active && u.version == c.version
  }

  // ---------- the system: any number of calls in flight ----------

  datatype System = System(world: World, calls: map<nat, Call>)

  datatype Action =
    | Tick(to: int)
    | StartSignUp(id: nat, subject: string)
    | SetActive(subject: string, active: bool)
    | RemoveUser(subject: string)
    | ChangePassword(subject: string)
    | StartRotate(id: nat, token: Presented)
    | StartLogin(id: nat, subject: string, matches: bool)
    | StartLogout(id: nat, access: Presented, refresh: Presented)
    | Step(id: nat)
    | Fail(id: nat)

  /** A string that a key of the service signed is a token that was minted. */
  predicate Known(w: World, p: Presented) {
    p.Signed? ==> p.claims in w.minted
  }

  /** Tokens are unforgeable, the clock never goes back, and call ids are not reused. */
  predicate Enabled(s: System, a: Action) {
    match a
    case Tick(to) => s.world.now <= to
    case StartSignUp(id, subject) => id !in s.calls && subject !in s.world.users
    case SetActive(subject, _) => subject in s.world.users
    case RemoveUser(subject) => subject in s.world.users
    case ChangePassword(subject) => subject in s.world.users
    case StartRotate(id, p) => id !in s.calls && Known(s.world, p)
    case StartLogin(id, _, _) => id !in s.calls
    case StartLogout(id, access, refresh) =>
      id !in s.calls && Known(s.world, access) && Known(s.world, refresh)
    case Step(id) => id in s.calls
    case Fail(id) => id in s.calls && !s.calls[id].Done?
  }

  /** The row updates; only a password update changes a version. */
  function UpdateUser(w: World, subject: string, u: User): (r: World) {
    w.(users := w.users[subject := u])
  }

  function Apply(cfg: Config, s: System, a: Action): (r: System)
    requires Enabled(s, a)
  {
    var w := s.world;
    match a
    case Tick(to) => s.(world := w.(now := to))
    case StartSignUp(id, subject) => System(UpdateUser(w, subject, NEW_USER), s.calls[id := Opening(subject, NEW_USER)])
    case SetActive(subject, active) => s.(world := UpdateUser(w, subject, w.users[subject].(active := active)))
    case RemoveUser(subject) => s.(world := UpdateUser(w, subject, w.users[subject].(deleted := true)))
    case ChangePassword(subject) =>
      if w.users[subject].deleted then s
      else s.(world := UpdateUser(w, subject, w.users[subject].(version := w.users[subject].version + 1)))
    case StartRotate(id, p) => s.(calls := s.calls[id := BeginRotate(cfg, w, p)])
    case StartLogin(id, subject, matches) => s.(calls := s.calls[id := LoggingIn(subject, matches)])
    case StartLogout(id, access, refresh) => s.(calls := s.calls[id := BeginLogout(cfg, w, access, refresh)])
    case Step(id) =>
      var (w', call) := Advance(cfg, w, s.calls[id]);
      System(w', s.calls[id := call])
    case Fail(id) => s.(calls := s.calls[id := Done(StoreFailure)])
  }

  function Start(now: int): (r: System) {
    System(World(now, map[], map[], map[], {}, 0, 0, [], [], map[]), map[])
  }

  ghost predicate Run(cfg: Config, states: seq<System>, actions: seq<Action>) {
    && |states| == |actions| + 1
    && states[0] == Start(states[0].world.now)
    && forall i :: 0 <= i < |actions| ==> Enabled(states[i], actions[i]) && states[i + 1] == Apply(cfg, states[i], actions[i])
  }
}
