/**
 * Login, refresh and logout as interleaved requests (apps/api/auth/refresh.ts,
 * apps/api/auth/service.ts, apps/api/auth/logout.ts).
 *
 * A request is a sequence of steps with one database statement or one signing in
 * each; any number of requests interleave, and any of them may fail between steps.
 * Signatures are taken to be unforgeable and ids drawn at random to be fresh.
 */
module Rotation {
  import opened Options
  import opened AuthTables
  import opened JwtExpiry

  datatype Phase =
    | LoginArrived(profile: Profile)
    | LoginHasUser(userId: Id)
    | LoginSigned(userId: Id, minted: Token, expiresAt: int)
    | LoginAnswered(userId: Id, minted: Token)
    | RefreshArrived(presented: Token)
    | RefreshVerified(presented: Token, userId: Id)
    | RefreshFound(presented: Token, userId: Id, row: Id)
    | RefreshHasUser(presented: Token, userId: Id, row: Id)
    | RefreshSigned(presented: Token, userId: Id, row: Id, minted: Token, expiresAt: int)
    | RefreshInserted(presented: Token, userId: Id, row: Id, minted: Token)
    | RefreshAnswered(presented: Token, minted: Token)
    | RefreshDenied(presented: Token)
    | LogoutArrived(presented: Token)
    | LogoutFound(presented: Token, row: Id)
    | LogoutAnswered(presented: Token)
    | Failed(betweenInsertAndRevoke: bool)

  predicate IsArrival(p: Phase) {
    p.LoginArrived? || p.RefreshArrived? || p.LogoutArrived?
  }

  predicate IsOver(p: Phase) {
    p.LoginAnswered? || p.RefreshAnswered? || p.RefreshDenied? || p.LogoutAnswered? || p.Failed?
  }

  /** A refresh that has stored its new token and not yet revoked the old one, or failed there. */
  predicate IsBetween(p: Phase) {
    p.RefreshInserted? || p == Failed(true)
  }

  /** What the statements did, in the order they took effect. */
  datatype Entry =
    | LoginStored
    | RefreshStored
    | RefreshRevoked(wasUnrevoked: bool)
    | LoggedOut(rows: nat)

  datatype State = State(
    tables: Tables, minted: set<Token>, now: int, requests: map<nat, Phase>, log: seq<Entry>)

  datatype Action =
    | Arrive(r: nat, phase: Phase)
    | Advance(r: nat, newId: Id, jti: nat, lag: nat)
    | Fail(r: nat)
    | RevokeUser(userId: Id)
    | Tick(us: nat)

  const Initial: State := State(Tables(map[], map[], map[], map[]), {}, 0, map[], [])

  /** A request can go on, with ids and a `jti` nothing else uses. */
  ghost predicate Enabled(s: State, a: Action) {
    match a
    case Arrive(r, phase) => r !in s.requests && IsArrival(phase)
    case Advance(r, newId, jti, _) =>
      && r in s.requests && !IsOver(s.requests[r])
      && newId !in s.tables.users && newId !in s.tables.tokens
      && (forall t :: t in s.minted ==> t.jti != jti)
    case Fail(r) => r in s.requests && !IsOver(s.requests[r])
    case RevokeUser(_) => true
    case Tick(_) => true
  }

  function To(s: State, r: nat, p: Phase): State {
    s.(requests := s.requests[r := p])
  }

  /** `signRefreshToken`: two clock readings, `lag` apart. */
  function Signed(s: State, userId: Id, jti: nat, lag: nat): (State, Token, int) {
    var token := Token(userId, jti, ExpClaim(s.now));
    (s.(minted := s.minted + {token}, now := s.now + lag), token, RowExpiry(s.now + lag))
  }

  /** The next step of the login handler, service.ts. */
  function LoginStep(s: State, r: nat, p: Phase, newId: Id, jti: nat, lag: nat): State {
    match p
    case LoginArrived(profile) =>
      var (tables, id) := UpsertUser(s.tables, profile, newId);
      To(s.(tables := tables), r, LoginHasUser(id))
    case LoginHasUser(userId) =>
      var (signed, token, expiresAt) := Signed(s, userId, jti, lag);
      To(signed, r, LoginSigned(userId, token, expiresAt))
    case LoginSigned(userId, token, expiresAt) =>
      (match StoreToken(s.tables, userId, token, expiresAt, newId)
       case None => To(s, r, Failed(false))
       case Some(tables) =>
         To(s.(tables := tables, log := s.log + [LoginStored]), r, LoginAnswered(userId, token)))
    case _ => s
  }

  /** The next step of the refresh handler, refresh.ts. */
  function RefreshStep(s: State, r: nat, p: Phase, newId: Id, jti: nat, lag: nat): State {
    match p
    case RefreshArrived(presented) =>
      if presented in s.minted && Accepts(presented.exp, s.now)
      then To(s, r, RefreshVerified(presented, presented.sub))
      else To(s, r, RefreshDenied(presented))
    case RefreshVerified(presented, userId) =>
      (match FindActive(s.tables, presented, s.now)
       case None => To(s, r, RefreshDenied(presented))
       case Some(row) => To(s, r, RefreshFound(presented, userId, row)))
    case RefreshFound(presented, userId, row) =>
      if userId in s.tables.users then To(s, r, RefreshHasUser(presented, userId, row))
      else To(s, r, RefreshDenied(presented))
    case RefreshHasUser(presented, userId, row) =>
      var (signed, token, expiresAt) := Signed(s, userId, jti, lag);
      To(signed, r, RefreshSigned(presented, userId, row, token, expiresAt))
    case RefreshSigned(presented, userId, row, token, expiresAt) =>
      (match StoreToken(s.tables, userId, token, expiresAt, newId)
       case None => To(s, r, Failed(false))
       case Some(tables) =>
         To(s.(tables := tables, log := s.log + [RefreshStored]), r, RefreshInserted(presented, userId, row, token)))
    case RefreshInserted(presented, _, row, token) =>
      To(s.(tables := Revoke(s.tables, row, None, s.now),
            log := s.log + [RefreshRevoked(IsUnrevoked(s.tables, row))]), r, RefreshAnswered(presented, token))
    case _ => s
  }

  /** The next step of the logout handler, logout.ts. */
  function LogoutStep(s: State, r: nat, p: Phase): State {
    match p
    case LogoutArrived(presented) =>
      (match FindActive(s.tables, presented, s.now)
       case None => To(s, r, LogoutAnswered(presented))
       case Some(row) => To(s, r, LogoutFound(presented, row)))
    case LogoutFound(presented, row) =>
      To(s.(tables := Revoke(s.tables, row, None, s.now),
            log := s.log + [LoggedOut(if IsUnrevoked(s.tables, row) then 1 else 0)]), r, LogoutAnswered(presented))
    case _ => s
  }

  ghost function Step(s: State, a: Action): State {
    match a
    case Arrive(r, phase) => To(s, r, phase)
    case Advance(r, newId, jti, lag) =>
      if r !in s.requests then s
      else
        var p := s.requests[r];
        if p.LoginArrived? || p.LoginHasUser? || p.LoginSigned? then LoginStep(s, r, p, newId, jti, lag)
        else if p.LogoutArrived? || p.LogoutFound? then LogoutStep(s, r, p)
        else RefreshStep(s, r, p, newId, jti, lag)
    case Fail(r) =>
      if r !in s.requests then s else To(s, r, Failed(s.requests[r].RefreshInserted?))
    case RevokeUser(userId) =>
      s.(tables := RevokeAll(s.tables, userId, s.now),
         log := s.log + [LoggedOut(|Unrevoked(s.tables) - Unrevoked(RevokeAll(s.tables, userId, s.now))|)])
    case Tick(us) => s.(now := s.now + us)
  }

  /** Some interleaving leads from `s` to `s'`. */
  ghost predicate Leads(s: State, actions: seq<Action>, s': State)
    decreases |actions|
  {
    if actions == [] then s' == s
    else Enabled(s, actions[0]) && Leads(Step(s, actions[0]), actions[1..], s')
  }

  // ---- Counting ----

  function LoginsStored(log: seq<Entry>): nat {
    if log == [] then 0
    else LoginsStored(log[..|log| - 1]) + if log[|log| - 1].LoginStored? then 1 else 0
  }

  function RefreshesStored(log: seq<Entry>): nat {
    if log == [] then 0
    else RefreshesStored(log[..|log| - 1]) + if log[|log| - 1].RefreshStored? then 1 else 0
  }

  /** Refreshes whose revoke found the row unrevoked (`hit`) or already revoked. */
  function Revocations(log: seq<Entry>, hit: bool): nat {
    if log == [] then 0
    else Revocations(log[..|log| - 1], hit) + if log[|log| - 1] == RefreshRevoked(hit) then 1 else 0
  }

  function RowsLoggedOut(log: seq<Entry>): nat {
    if log == [] then 0
    else
      var last := log[|log| - 1];
      RowsLoggedOut(log[..|log| - 1]) + if last.LoggedOut? then last.rows else 0
  }

  ghost function Between(requests: map<nat, Phase>): set<nat> {
    set r | r in requests && IsBetween(requests[r])
  }

  /**
   * Unrevoked rows = logins stored + refreshes between insert and revoke
   * + refreshes whose revoke came too late - rows logged out.
   */
  ghost predicate Balanced(s: State) {
    && |Unrevoked(s.tables)| + RowsLoggedOut(s.log)
       == LoginsStored(s.log) + |Between(s.requests)| + Revocations(s.log, false)
    && RefreshesStored(s.log)
       == |Between(s.requests)| + Revocations(s.log, true) + Revocations(s.log, false)
  }

  // ---- The invariant ----

  /** `token` is stored for `userId`, and was minted for it. */
  predicate IsStoredFor(t: Tables, token: Token, userId: Id) {
    && token.sub == userId
    && Sha256(token) in t.hashes && t.hashes[Sha256(token)] in t.tokens
    && t.tokens[t.hashes[Sha256(token)]].userId == userId
  }

  predicate IsRowOf(t: Tables, row: Id, token: Token) {
    row in t.tokens && t.tokens[row].hash == Sha256(token)
  }

  predicate IsSpent(t: Tables, token: Token) {
    && Sha256(token) in t.hashes && t.hashes[Sha256(token)] in t.tokens
    && t.tokens[t.hashes[Sha256(token)]].revokedAt.Some?
  }

  predicate IsReadyToStore(t: Tables, minted: set<Token>, userId: Id, token: Token, expiresAt: int) {
    && userId in t.users && token in minted && token.sub == userId
    && token.exp * 1_000_000 <= expiresAt
  }

  ghost predicate PhaseOk(t: Tables, minted: set<Token>, p: Phase) {
    match p
    case LoginHasUser(userId) => userId in t.users
    case LoginSigned(userId, token, expiresAt) => IsReadyToStore(t, minted, userId, token, expiresAt)
    case LoginAnswered(userId, token) => IsStoredFor(t, token, userId)
    case RefreshVerified(presented, userId) => userId == presented.sub
    case RefreshFound(presented, userId, row) => userId == presented.sub && IsRowOf(t, row, presented)
    case RefreshHasUser(presented, userId, row) =>
      userId == presented.sub && IsRowOf(t, row, presented) && userId in t.users
    case RefreshSigned(presented, userId, row, token, expiresAt) =>
      && userId == presented.sub && IsRowOf(t, row, presented)
      && IsReadyToStore(t, minted, userId, token, expiresAt)
    case RefreshInserted(presented, userId, row, token) =>
      && userId == presented.sub && IsRowOf(t, row, presented)
      && IsStoredFor(t, token, userId)
    case RefreshAnswered(presented, token) =>
      IsSpent(t, presented) && IsStoredFor(t, token, presented.sub)
    case LogoutFound(presented, row) => IsRowOf(t, row, presented)
    case _ => true
  }

  ghost predicate PhasesOk(s: State) {
    forall r :: r in s.requests ==> PhaseOk(s.tables, s.minted, s.requests[r])
  }

  /** Each row holds the hash of a minted token of its own user, unlinked, and outlives that token. */
  ghost predicate RowsMinted(t: Tables, minted: set<Token>) {
    forall id :: id in t.tokens ==>
      var row := t.tokens[id];
      && row.hash.token in minted && row.hash.token.sub == row.userId
      && row.hash.token.exp * 1_000_000 <= row.expiresAt
      && row.replacedBy.None?
  }

  ghost predicate Inv(s: State) {
    && Consistent(s.tables) && RowsMinted(s.tables, s.minted)
    && PhasesOk(s) && Balanced(s)
  }

  /** Nothing a request relies on is ever taken back. */
  ghost predicate Later(s: State, s': State) {
    MayBecome(s.tables, s'.tables) && s.minted <= s'.minted && s.now <= s'.now
  }

  lemma PhasesStable(s: State, s': State)
    requires Later(s, s') && PhasesOk(s) && s'.requests == s.requests
    ensures PhasesOk(s')
  {}

  lemma PhaseSet(s: State, r: nat, p: Phase)
    requires PhasesOk(s) && PhaseOk(s.tables, s.minted, p)
    ensures PhasesOk(To(s, r, p))
  {}

  lemma BetweenAfter(requests: map<nat, Phase>, r: nat, p: Phase)
    ensures Between(requests[r := p]) == if IsBetween(p) then Between(requests) + {r} else Between(requests) - {r}
    ensures r in Between(requests) <==> r in requests && IsBetween(requests[r])
  {}

  lemma LogAfter(log: seq<Entry>, e: Entry)
    ensures LoginsStored(log + [e]) == LoginsStored(log) + if e.LoginStored? then 1 else 0
    ensures RefreshesStored(log + [e]) == RefreshesStored(log) + if e.RefreshStored? then 1 else 0
    ensures forall hit :: Revocations(log + [e], hit) == Revocations(log, hit) + if e == RefreshRevoked(hit) then 1 else 0
    ensures RowsLoggedOut(log + [e]) == RowsLoggedOut(log) + if e.LoggedOut? then e.rows else 0
  {}

  // ---- Every step keeps it ----

  lemma StoreKeepsMinted(s: State, userId: Id, token: Token, expiresAt: int, newId: Id)
    requires Consistent(s.tables) && RowsMinted(s.tables, s.minted)
    requires IsReadyToStore(s.tables, s.minted, userId, token, expiresAt)
    requires StoreToken(s.tables, userId, token, expiresAt, newId).Some?
    ensures RowsMinted(StoreToken(s.tables, userId, token, expiresAt, newId).value, s.minted)
  {}

  lemma NothingChanges(t: Tables)
    ensures MayBecome(t, t)
  {}

  lemma StayBalanced(s: State, r: nat, p: Phase)
    requires Balanced(s) && (IsBetween(p) <==> r in s.requests && IsBetween(s.requests[r]))
    ensures Balanced(To(s, r, p))
  {
    BetweenAfter(s.requests, r, p);
    assert Between(To(s, r, p).requests) == Between(s.requests);
  }

  /** A step that only moves one request on. */
  lemma Stay(s: State, r: nat, p: Phase)
    requires Inv(s) && PhaseOk(s.tables, s.minted, p)
    requires IsBetween(p) <==> r in s.requests && IsBetween(s.requests[r])
    ensures Later(s, To(s, r, p)) && Inv(To(s, r, p))
  {
    NothingChanges(s.tables);
    StayBalanced(s, r, p);
    PhaseSet(s, r, p);
  }

  /** A step that also changes the tables, balanced by its log entry. */
  lemma Change(s: State, r: nat, p: Phase, tables: Tables, e: Entry)
    requires Inv(s) && MayBecome(s.tables, tables)
    requires var s' := To(s.(tables := tables, log := s.log + [e]), r, p);
             Consistent(tables) && RowsMinted(tables, s.minted) && Balanced(s') && PhaseOk(tables, s.minted, p)
    ensures var s' := To(s.(tables := tables, log := s.log + [e]), r, p);
            Later(s, s') && Inv(s')
  {
    var mid := s.(tables := tables, log := s.log + [e]);
    PhasesStable(s, mid);
    PhaseSet(mid, r, p);
  }

  lemma UpsertStep(s: State, r: nat, profile: Profile, newId: Id)
    requires Inv(s) && r in s.requests && !IsBetween(s.requests[r]) && newId !in s.tables.users
    ensures var (tables, id) := UpsertUser(s.tables, profile, newId);
            var s' := To(s.(tables := tables), r, LoginHasUser(id));
            Later(s, s') && Inv(s')
  {
    var (tables, id) := UpsertUser(s.tables, profile, newId);
    UpsertKeeps(s.tables, profile, newId);
    var mid := s.(tables := tables);
    UpsertQuiet(s, mid);
    Stay(mid, r, LoginHasUser(id));
  }

  lemma UpsertQuiet(s: State, s': State)
    requires Inv(s) && s' == s.(tables := s'.tables) && Later(s, s') && Consistent(s'.tables)
    requires s'.tables.tokens == s.tables.tokens
    ensures Inv(s')
  {
    assert Unrevoked(s'.tables) == Unrevoked(s.tables);
    PhasesStable(s, s');
  }

  /** Signing mints a token that is ready to be stored. */
  lemma SignStep(s: State, userId: Id, jti: nat, lag: nat)
    requires Inv(s) && userId in s.tables.users
    ensures var (s', token, expiresAt) := Signed(s, userId, jti, lag);
            Later(s, s') && Inv(s') && IsReadyToStore(s'.tables, s'.minted, userId, token, expiresAt)
  {}

  lemma StoreBalances(s: State, r: nat, p: Phase, e: Entry, tables: Tables, newId: Id)
    requires Balanced(s) && r in s.requests && !IsBetween(s.requests[r])
    requires e.LoginStored? || e.RefreshStored?
    requires IsBetween(p) <==> e.RefreshStored?
    requires Unrevoked(tables) == Unrevoked(s.tables) + {newId} && newId !in Unrevoked(s.tables)
    ensures Balanced(To(s.(tables := tables, log := s.log + [e]), r, p))
  {
    BetweenAfter(s.requests, r, p);
    LogAfter(s.log, e);
  }

  lemma StoreStep(s: State, r: nat, p: Phase, e: Entry, userId: Id, token: Token, expiresAt: int, newId: Id)
    requires Inv(s) && r in s.requests && !IsBetween(s.requests[r])
    requires IsReadyToStore(s.tables, s.minted, userId, token, expiresAt) && newId !in s.tables.tokens
    requires StoreToken(s.tables, userId, token, expiresAt, newId).Some?
    requires match p
             case LoginAnswered(u, t) => e == LoginStored && u == userId && t == token
             case RefreshInserted(presented, u, row, t) =>
               e == RefreshStored && u == userId == presented.sub && t == token && IsRowOf(s.tables, row, presented)
             case _ => false
    ensures var s' := To(s.(tables := StoreToken(s.tables, userId, token, expiresAt, newId).value, log := s.log + [e]), r, p);
            Later(s, s') && Inv(s')
  {
    var tables := StoreToken(s.tables, userId, token, expiresAt, newId).value;
    StoreKeepsMinted(s, userId, token, expiresAt, newId);
    StoreKeeps(s.tables, userId, token, expiresAt, newId);
    StoreBalances(s, r, p, e, tables, newId);
    assert tables.hashes[Sha256(token)] == newId;
    Change(s, r, p, tables, e);
  }

  lemma RevokeBalances(s: State, r: nat, p: Phase, e: Entry, tables: Tables, row: Id)
    requires Balanced(s) && r in s.requests && !IsBetween(p)
    requires if s.requests[r].RefreshInserted? then e == RefreshRevoked(IsUnrevoked(s.tables, row))
             else !IsBetween(s.requests[r]) && e == LoggedOut(if IsUnrevoked(s.tables, row) then 1 else 0)
    requires Unrevoked(tables) == Unrevoked(s.tables) - {row}
    ensures Balanced(To(s.(tables := tables, log := s.log + [e]), r, p))
  {
    BetweenAfter(s.requests, r, p);
    LogAfter(s.log, e);
    assert row in Unrevoked(s.tables) <==> IsUnrevoked(s.tables, row);
  }

  lemma RevokeKeepsMinted(s: State, row: Id)
    requires RowsMinted(s.tables, s.minted)
    ensures RowsMinted(Revoke(s.tables, row, None, s.now), s.minted)
  {}

  lemma RevokeStep(s: State, r: nat, p: Phase, e: Entry, row: Id)
    requires Inv(s) && r in s.requests && row in s.tables.tokens
    requires if s.requests[r].RefreshInserted? then e == RefreshRevoked(IsUnrevoked(s.tables, row))
             else !IsBetween(s.requests[r]) && e == LoggedOut(if IsUnrevoked(s.tables, row) then 1 else 0)
    requires p.LogoutAnswered? || (p.RefreshAnswered? && IsRowOf(s.tables, row, p.presented)
                                     && IsStoredFor(s.tables, p.minted, p.presented.sub))
    ensures var s' := To(s.(tables := Revoke(s.tables, row, None, s.now), log := s.log + [e]), r, p);
            Later(s, s') && Inv(s')
  {
    var tables := Revoke(s.tables, row, None, s.now);
    RevokeKeeps(s.tables, row, None, s.now);
    RevokeBalances(s, r, p, e, tables, row);
    RevokeKeepsMinted(s, row);
    Change(s, r, p, tables, e);
  }

  lemma LoginStepKeeps(s: State, r: nat, newId: Id, jti: nat, lag: nat)
    requires Inv(s) && Enabled(s, Advance(r, newId, jti, lag))
    requires s.requests[r].LoginArrived? || s.requests[r].LoginHasUser? || s.requests[r].LoginSigned?
    ensures var s' := LoginStep(s, r, s.requests[r], newId, jti, lag); Later(s, s') && Inv(s')
  {
    match s.requests[r]
    case LoginArrived(profile) => UpsertStep(s, r, profile, newId);
    case LoginHasUser(userId) => LoginSigns(s, r, userId, jti, lag);
    case LoginSigned(userId, token, expiresAt) => LoginStores(s, r, userId, token, expiresAt, newId, jti, lag);
  }

  lemma LoginSigns(s: State, r: nat, userId: Id, jti: nat, lag: nat)
    requires Inv(s) && r in s.requests && s.requests[r] == LoginHasUser(userId)
    ensures var (signed, token, expiresAt) := Signed(s, userId, jti, lag);
            var s' := To(signed, r, LoginSigned(userId, token, expiresAt));
            Later(s, s') && Inv(s')
  {
    SignStep(s, userId, jti, lag);
    var (signed, token, expiresAt) := Signed(s, userId, jti, lag);
    Stay(signed, r, LoginSigned(userId, token, expiresAt));
  }

  lemma LoginStores(s: State, r: nat, userId: Id, token: Token, expiresAt: int, newId: Id, jti: nat, lag: nat)
    requires Inv(s) && r in s.requests && s.requests[r] == LoginSigned(userId, token, expiresAt)
    requires newId !in s.tables.tokens
    ensures var s' := LoginStep(s, r, LoginSigned(userId, token, expiresAt), newId, jti, lag);
            Later(s, s') && Inv(s')
  {
    if StoreToken(s.tables, userId, token, expiresAt, newId).Some? {
      StoreStep(s, r, LoginAnswered(userId, token), LoginStored, userId, token, expiresAt, newId);
    } else {
      Stay(s, r, Failed(false));
    }
  }

  lemma LogoutFinds(s: State, r: nat, presented: Token)
    requires Inv(s) && r in s.requests && s.requests[r] == LogoutArrived(presented)
    ensures var s' := LogoutStep(s, r, LogoutArrived(presented)); Later(s, s') && Inv(s')
  {
    FindActiveFindsIt(s.tables, presented, s.now);
    match FindActive(s.tables, presented, s.now)
    case None => Stay(s, r, LogoutAnswered(presented));
    case Some(row) => Stay(s, r, LogoutFound(presented, row));
  }

  lemma LogoutRevokes(s: State, r: nat, presented: Token, row: Id)
    requires Inv(s) && r in s.requests && s.requests[r] == LogoutFound(presented, row)
    ensures var s' := LogoutStep(s, r, LogoutFound(presented, row)); Later(s, s') && Inv(s')
  {
    RevokeStep(s, r, LogoutAnswered(presented), LoggedOut(if IsUnrevoked(s.tables, row) then 1 else 0), row);
  }

  lemma LogoutStepKeeps(s: State, r: nat)
    requires Inv(s) && r in s.requests && (s.requests[r].LogoutArrived? || s.requests[r].LogoutFound?)
    ensures var s' := LogoutStep(s, r, s.requests[r]); Later(s, s') && Inv(s')
  {
    match s.requests[r]
    case LogoutArrived(presented) => LogoutFinds(s, r, presented);
    case LogoutFound(presented, row) => LogoutRevokes(s, r, presented, row);
  }

  lemma RefreshVerifies(s: State, r: nat, presented: Token, newId: Id, jti: nat, lag: nat)
    requires Inv(s) && r in s.requests && s.requests[r] == RefreshArrived(presented)
    ensures var s' := RefreshStep(s, r, RefreshArrived(presented), newId, jti, lag); Later(s, s') && Inv(s')
  {
    if presented in s.minted && Accepts(presented.exp, s.now) {
      Stay(s, r, RefreshVerified(presented, presented.sub));
    } else {
      Stay(s, r, RefreshDenied(presented));
    }
  }

  lemma RefreshFinds(s: State, r: nat, presented: Token, userId: Id, newId: Id, jti: nat, lag: nat)
    requires Inv(s) && r in s.requests && s.requests[r] == RefreshVerified(presented, userId)
    ensures var s' := RefreshStep(s, r, RefreshVerified(presented, userId), newId, jti, lag); Later(s, s') && Inv(s')
  {
    FindActiveFindsIt(s.tables, presented, s.now);
    match FindActive(s.tables, presented, s.now)
    case None => Stay(s, r, RefreshDenied(presented));
    case Some(row) => Stay(s, r, RefreshFound(presented, userId, row));
  }

  lemma RefreshReadsUser(s: State, r: nat, presented: Token, userId: Id, row: Id, newId: Id, jti: nat, lag: nat)
    requires Inv(s) && r in s.requests && s.requests[r] == RefreshFound(presented, userId, row)
    ensures var s' := RefreshStep(s, r, RefreshFound(presented, userId, row), newId, jti, lag); Later(s, s') && Inv(s')
  {
    if userId in s.tables.users {
      Stay(s, r, RefreshHasUser(presented, userId, row));
    } else {
      Stay(s, r, RefreshDenied(presented));
    }
  }

  lemma RefreshSigns(s: State, r: nat, presented: Token, userId: Id, row: Id, newId: Id, jti: nat, lag: nat)
    requires Inv(s) && r in s.requests && s.requests[r] == RefreshHasUser(presented, userId, row)
    ensures var s' := RefreshStep(s, r, RefreshHasUser(presented, userId, row), newId, jti, lag); Later(s, s') && Inv(s')
  {
    SignStep(s, userId, jti, lag);
    var (signed, token, expiresAt) := Signed(s, userId, jti, lag);
    Stay(signed, r, RefreshSigned(presented, userId, row, token, expiresAt));
  }

  lemma RefreshStores(s: State, r: nat, p: Phase, newId: Id, jti: nat, lag: nat)
    requires Inv(s) && r in s.requests && s.requests[r] == p && p.RefreshSigned?
    requires newId !in s.tables.tokens
    ensures var s' := RefreshStep(s, r, p, newId, jti, lag); Later(s, s') && Inv(s')
  {
    var next := RefreshInserted(p.presented, p.userId, p.row, p.minted);
    if StoreToken(s.tables, p.userId, p.minted, p.expiresAt, newId).Some? {
      StoreStep(s, r, next, RefreshStored, p.userId, p.minted, p.expiresAt, newId);
    } else {
      Stay(s, r, Failed(false));
    }
  }

  lemma RefreshRevokes(s: State, r: nat, p: Phase, newId: Id, jti: nat, lag: nat)
    requires Inv(s) && r in s.requests && s.requests[r] == p && p.RefreshInserted?
    ensures var s' := RefreshStep(s, r, p, newId, jti, lag); Later(s, s') && Inv(s')
  {
    RevokeStep(s, r, RefreshAnswered(p.presented, p.minted), RefreshRevoked(IsUnrevoked(s.tables, p.row)), p.row);
  }

  lemma RefreshReadsKeep(s: State, r: nat, newId: Id, jti: nat, lag: nat)
    requires Inv(s) && r in s.requests
    requires s.requests[r].RefreshArrived? || s.requests[r].RefreshVerified? || s.requests[r].RefreshFound?
    ensures var s' := RefreshStep(s, r, s.requests[r], newId, jti, lag); Later(s, s') && Inv(s')
  {
    match s.requests[r]
    case RefreshArrived(presented) => RefreshVerifies(s, r, presented, newId, jti, lag);
    case RefreshVerified(presented, userId) => RefreshFinds(s, r, presented, userId, newId, jti, lag);
    case RefreshFound(presented, userId, row) => RefreshReadsUser(s, r, presented, userId, row, newId, jti, lag);
  }

  lemma RefreshWritesKeep(s: State, r: nat, newId: Id, jti: nat, lag: nat)
    requires Inv(s) && Enabled(s, Advance(r, newId, jti, lag))
    requires s.requests[r].RefreshHasUser? || s.requests[r].RefreshSigned? || s.requests[r].RefreshInserted?
    ensures var s' := RefreshStep(s, r, s.requests[r], newId, jti, lag); Later(s, s') && Inv(s')
  {
    match s.requests[r]
    case RefreshHasUser(presented, userId, row) => RefreshSigns(s, r, presented, userId, row, newId, jti, lag);
    case RefreshSigned(_, _, _, _, _) => RefreshStores(s, r, s.requests[r], newId, jti, lag);
    case RefreshInserted(_, _, _, _) => RefreshRevokes(s, r, s.requests[r], newId, jti, lag);
  }

  lemma RevokeUserBalances(s: State, userId: Id)
    requires Balanced(s) && Consistent(s.tables)
    ensures Balanced(Step(s, RevokeUser(userId)))
  {
    var before, after := Unrevoked(s.tables), Unrevoked(RevokeAll(s.tables, userId, s.now));
    RevokeAllShrinks(s.tables, userId, s.now);
    SplitSet(before, after);
    LoggingOutBalances(s, RevokeAll(s.tables, userId, s.now), |before - after|);
  }

  lemma RevokeAllShrinks(t: Tables, userId: Id, now: int)
    requires Consistent(t)
    ensures Unrevoked(RevokeAll(t, userId, now)) <= Unrevoked(t)
  {
    RevokeAllKeeps(t, userId, now);
  }

  /** Rows that leave the unrevoked ones are logged as logged out. */
  lemma LoggingOutBalances(s: State, tables: Tables, rows: nat)
    requires Balanced(s) && |Unrevoked(tables)| + rows == |Unrevoked(s.tables)|
    ensures Balanced(s.(tables := tables, log := s.log + [LoggedOut(rows)]))
  {
    LogAfter(s.log, LoggedOut(rows));
  }

  lemma SplitSet(whole: set<Id>, part: set<Id>)
    requires part <= whole
    ensures |part| + |whole - part| == |whole|
  {}

  lemma RevokeUserKeeps(s: State, userId: Id)
    requires Inv(s)
    ensures var s' := Step(s, RevokeUser(userId)); Later(s, s') && Inv(s')
  {
    var s' := Step(s, RevokeUser(userId));
    RevokeAllKeeps(s.tables, userId, s.now);
    RevokeUserBalances(s, userId);
    PhasesStable(s, s');
  }

  lemma TickKeeps(s: State, us: nat)
    requires Inv(s)
    ensures var s' := Step(s, Tick(us)); Later(s, s') && Inv(s')
  {
    NothingChanges(s.tables);
  }

  lemma AdvanceKeeps(s: State, r: nat, newId: Id, jti: nat, lag: nat)
    requires Inv(s) && Enabled(s, Advance(r, newId, jti, lag))
    ensures var s' := Step(s, Advance(r, newId, jti, lag)); Later(s, s') && Inv(s')
  {
    var p := s.requests[r];
    if p.LoginArrived? || p.LoginHasUser? || p.LoginSigned? { LoginStepKeeps(s, r, newId, jti, lag); }
    else if p.LogoutArrived? || p.LogoutFound? { LogoutStepKeeps(s, r); }
    else if p.RefreshArrived? || p.RefreshVerified? || p.RefreshFound? { RefreshReadsKeep(s, r, newId, jti, lag); }
    else { RefreshWritesKeep(s, r, newId, jti, lag); }
  }

  /** One step of anything keeps the invariant and takes nothing back. */
  lemma StepKeeps(s: State, a: Action)
    requires Inv(s) && Enabled(s, a)
    ensures Later(s, Step(s, a)) && Inv(Step(s, a))
  {
    match a
    case Arrive(r, phase) => Stay(s, r, phase);
    case Advance(r, newId, jti, lag) => AdvanceKeeps(s, r, newId, jti, lag);
    case Fail(r) => Stay(s, r, Failed(s.requests[r].RefreshInserted?));
    case RevokeUser(userId) => RevokeUserKeeps(s, userId);
    case Tick(us) => TickKeeps(s, us);
  }

  lemma {:induction false} RunKeeps(s: State, actions: seq<Action>, s': State)
    requires Inv(s) && Leads(s, actions, s')
    ensures Inv(s') && Later(s, s')
    decreases |actions|
  {
    if actions == [] {
      NothingChanges(s.tables);
    } else {
      var mid := Step(s, actions[0]);
      StepKeeps(s, actions[0]);
      RunKeeps(mid, actions[1..], s');
      MayBecomeTransitive(s.tables, mid.tables, s'.tables);
    }
  }
}
