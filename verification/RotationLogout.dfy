/** What a logout or a revoke-all leaves behind, in every interleaving (apps/api/auth/logout.ts). */
module RotationLogout {
  import opened Options
  import opened AuthTables
  import opened Rotation
  import opened RotationRace
  import opened RotationRuns

  predicate IsStored(t: Tables, token: Token) {
    Sha256(token) in t.hashes && t.hashes[Sha256(token)] in t.tokens
  }

  /** Stored, and revoked or expired. */
  predicate IsDead(t: Tables, token: Token, now: int) {
    && IsStored(t, token)
    && var row := t.tokens[t.hashes[Sha256(token)]]; row.revokedAt.Some? || row.expiresAt <= now
  }

  lemma DeadStaysDead(s: State, s': State, token: Token)
    requires IsDead(s.tables, token, s.now) && Later(s, s')
    ensures IsDead(s'.tables, token, s'.now)
  {}

  lemma DeadIsNotFound(t: Tables, token: Token, now: int)
    requires IsStored(t, token)
    ensures FindActive(t, token, now).None? <==> IsDead(t, token, now)
  {}

  ghost predicate IsLoggedOut(s: State, r: nat, token: Token) {
    r in s.requests && s.requests[r] == LogoutAnswered(token)
  }

  /** The token is stored, and dead once logout `r` of it has been answered. */
  ghost predicate LogoutTakes(s: State, r: nat, token: Token) {
    && IsStored(s.tables, token)
    && (IsLoggedOut(s, r, token) ==> IsDead(s.tables, token, s.now))
  }

  lemma LogoutAnswers(s: State, r: nat, token: Token)
    requires Inv(s) && IsStored(s.tables, token) && r in s.requests
    requires s.requests[r].LogoutArrived? || s.requests[r].LogoutFound?
    ensures LogoutTakes(LogoutStep(s, r, s.requests[r]), r, token)
  {
    assert PhaseOk(s.tables, s.minted, s.requests[r]);
    DeadIsNotFound(s.tables, token, s.now);
  }

  /** Only a step of the logout itself answers it. */
  lemma OnlyLogoutAnswers(s: State, a: Action, r: nat, token: Token)
    requires Enabled(s, a) && !IsLoggedOut(s, r, token) && IsLoggedOut(Step(s, a), r, token)
    ensures a.Advance? && a.r == r && (s.requests[r].LogoutArrived? || s.requests[r].LogoutFound?)
    ensures Step(s, a) == LogoutStep(s, r, s.requests[r])
  {}

  lemma LogoutTakesStep(s: State, a: Action, r: nat, token: Token)
    requires Inv(s) && Enabled(s, a) && LogoutTakes(s, r, token)
    ensures LogoutTakes(Step(s, a), r, token)
  {
    if IsLoggedOut(s, r, token) || !IsLoggedOut(Step(s, a), r, token) {
      StepKeeps(s, a);
      TakenStaysTaken(s, Step(s, a), r, token);
    } else {
      OnlyLogoutAnswers(s, a, r, token);
      LogoutAnswers(s, r, token);
    }
  }

  lemma TakenStaysTaken(s: State, s': State, r: nat, token: Token)
    requires LogoutTakes(s, r, token) && Later(s, s')
    requires IsLoggedOut(s, r, token) || !IsLoggedOut(s', r, token)
    ensures LogoutTakes(s', r, token)
  {}

  lemma {:induction false} LogoutTakesRun(s: State, actions: seq<Action>, s': State, r: nat, token: Token)
    requires Inv(s) && Leads(s, actions, s') && LogoutTakes(s, r, token)
    ensures LogoutTakes(s', r, token)
    decreases |actions|
  {
    if actions != [] {
      StepKeeps(s, actions[0]);
      LogoutTakesStep(s, actions[0], r, token);
      LogoutTakesRun(Step(s, actions[0]), actions[1..], s', r, token);
    }
  }

  lemma DeadRun(s: State, actions: seq<Action>, s': State, token: Token)
    requires Inv(s) && Leads(s, actions, s') && IsDead(s.tables, token, s.now)
    ensures IsDead(s'.tables, token, s'.now)
  {
    RunKeeps(s, actions, s');
    DeadStaysDead(s, s', token);
  }

  /** A lookup of the token by a refresh or a logout finds nothing. */
  ghost predicate LookupFails(s: State, q: nat, token: Token)
    requires q in s.requests
  {
    forall newId, jti, lag :: Step(s, Advance(q, newId, jti, lag)) ==
      To(s, q, if s.requests[q].RefreshVerified? then RefreshDenied(token) else LogoutAnswered(token))
  }

  lemma DeadIsRefused(s: State, q: nat, token: Token)
    requires IsDead(s.tables, token, s.now) && q in s.requests
    requires s.requests[q] == LogoutArrived(token) || s.requests[q] == RefreshVerified(token, token.sub)
    ensures LookupFails(s, q, token)
  {
    DeadIsNotFound(s.tables, token, s.now);
  }

  /**
   * Once a logout of a stored token has been answered, every lookup of that token from
   * then on finds nothing, whatever runs in between.
   */
  lemma LoggedOutTokenIsRefused(s: State, before: seq<Action>, answered: State, after: seq<Action>, s': State,
                                r: nat, q: nat, token: Token)
    requires Reachable(s) && Leads(s, before, answered) && Leads(answered, after, s')
    requires IsStored(s.tables, token) && !IsLoggedOut(s, r, token) && IsLoggedOut(answered, r, token)
    requires q in s'.requests
    requires s'.requests[q] == LogoutArrived(token) || s'.requests[q] == RefreshVerified(token, token.sub)
    ensures LookupFails(s', q, token)
  {
    ReachableKeeps(s);
    RunKeeps(s, before, answered);
    LogoutTakesRun(s, before, answered, r, token);
    DeadRun(answered, after, s', token);
    DeadIsRefused(s', q, token);
  }

  lemma LogoutRevokesRow(s: State, r: nat, token: Token, row: Id)
    requires Consistent(s.tables) && IsRowOf(s.tables, row, token)
    ensures var s' := LogoutStep(s, r, LogoutFound(token, row));
            var rows := if IsSpent(s.tables, token) then 0 else 1;
            && s' == State(s'.tables, s.minted, s.now, s.requests[r := LogoutAnswered(token)], s.log + [LoggedOut(rows)])
            && IsSpent(s'.tables, token) && |Unrevoked(s'.tables)| == |Unrevoked(s.tables)| - rows
            && s'.tables.users == s.tables.users
  {
    RevokingCounts(s.tables, row, token, s.now);
    assert s.tables.hashes[Sha256(token)] == row;
  }

  /** A logout that has found its row takes it away and logs one row, unless somebody else has revoked it since. */
  lemma LogoutTakesOneRow(s: State, r: nat, newId: Id, jti: nat, lag: nat)
    requires Reachable(s) && Enabled(s, Advance(r, newId, jti, lag)) && s.requests[r].LogoutFound?
    ensures var s', token := Step(s, Advance(r, newId, jti, lag)), s.requests[r].presented;
            var rows := if IsSpent(s.tables, token) then 0 else 1;
            && s'.requests == s.requests[r := LogoutAnswered(token)] && IsSpent(s'.tables, token)
            && s'.log == s.log + [LoggedOut(rows)]
            && |Unrevoked(s'.tables)| == |Unrevoked(s.tables)| - rows
            && s'.tables.users == s.tables.users && s'.minted == s.minted && s'.now == s.now
  {
    ReachableKeeps(s);
    assert PhaseOk(s.tables, s.minted, s.requests[r]);
    LogoutRevokesRow(s, r, s.requests[r].presented, s.requests[r].row);
  }

  /** The token's row, as long as a lookup finds it. */
  ghost function LiveRows(t: Tables, token: Token, now: int): set<Id> {
    set id | id in Unrevoked(t) && t.tokens[id].hash == Sha256(token) && t.tokens[id].expiresAt > now
  }

  lemma LiveRow(t: Tables, token: Token, now: int)
    requires Consistent(t)
    ensures LiveRows(t, token, now) == match FindActive(t, token, now) case None => {} case Some(id) => {id}
  {
    FindActiveFindsIt(t, token, now);
  }

  /** A logout looks for the presented token's live row, and is over at once where there is none. */
  lemma LogoutLooksUp(s: State, r: nat, newId: Id, jti: nat, lag: nat)
    requires Reachable(s) && Enabled(s, Advance(r, newId, jti, lag)) && s.requests[r].LogoutArrived?
    ensures var s', token := Step(s, Advance(r, newId, jti, lag)), s.requests[r].presented;
            if LiveRows(s.tables, token, s.now) == {} then s' == To(s, r, LogoutAnswered(token))
            else exists row :: LiveRows(s.tables, token, s.now) == {row} && s' == To(s, r, LogoutFound(token, row))
  {
    ReachableKeeps(s);
    LiveRow(s.tables, s.requests[r].presented, s.now);
  }

  /** All of a user's tokens are out for good after a revoke-all, and nobody else's. */
  lemma RevokedUserIsOut(s: State, userId: Id, after: seq<Action>, s': State, token: Token)
    requires Reachable(s) && Leads(Step(s, RevokeUser(userId)), after, s') && IsStored(s.tables, token)
    ensures Unrevoked(Step(s, RevokeUser(userId)).tables) ==
            set id | id in Unrevoked(s.tables) && s.tables.tokens[id].userId != userId
    ensures token.sub == userId ==> FindActive(s'.tables, token, s'.now) == None
  {
    ReachableKeeps(s);
    var revoked := Step(s, RevokeUser(userId));
    RevokeAllKeeps(s.tables, userId, s.now);
    StepKeeps(s, RevokeUser(userId));
    if token.sub == userId {
      assert IsDead(revoked.tables, token, revoked.now);
      DeadRun(revoked, after, s', token);
      DeadIsNotFound(s'.tables, token, s'.now);
    }
  }
}
