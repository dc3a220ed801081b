/** Login, refresh and logout one request at a time (apps/api/auth/refresh.ts, service.ts, logout.ts). */
module RotationSerial {
  import opened Options
  import opened AuthTables
  import opened Rotation

  ghost predicate Idle(s: State) {
    forall r :: r in s.requests ==> IsOver(s.requests[r])
  }

  ghost predicate LeadsSerially(s: State, actions: seq<Action>, s': State)
    decreases |actions|
  {
    if actions == [] then s' == s
    else
      && Enabled(s, actions[0])
      && (actions[0].Arrive? || actions[0].RevokeUser? ==> Idle(s))
      && LeadsSerially(Step(s, actions[0]), actions[1..], s')
  }

  /** The row a request has found and relies on. */
  function RowInHand(p: Phase): Option<Id> {
    match p
    case RefreshFound(_, _, row) => Some(row)
    case RefreshHasUser(_, _, row) => Some(row)
    case RefreshSigned(_, _, row, _, _) => Some(row)
    case RefreshInserted(_, _, row, _) => Some(row)
    case LogoutFound(_, row) => Some(row)
    case _ => None
  }

  ghost predicate Alone(s: State) {
    && (forall r, q :: r in s.requests && q in s.requests && !IsOver(s.requests[r]) && !IsOver(s.requests[q]) ==> r == q)
    && (forall r :: r in s.requests && RowInHand(s.requests[r]).Some? ==> IsUnrevoked(s.tables, RowInHand(s.requests[r]).value))
    && Revocations(s.log, false) == 0
  }

  lemma AloneMoves(s: State, s': State, r: nat)
    requires Alone(s) && r in s'.requests && s'.requests == s.requests[r := s'.requests[r]]
    requires if r in s.requests then !IsOver(s.requests[r]) else Idle(s)
    requires RowInHand(s'.requests[r]).Some? ==> IsUnrevoked(s'.tables, RowInHand(s'.requests[r]).value)
    requires Revocations(s'.log, false) == 0
    ensures Alone(s')
  {}

  /** The revoke of a lone refresh finds its row unrevoked. */
  lemma AloneRevokes(s: State, r: nat, p: Phase, row: Id, e: Entry)
    requires Alone(s) && r in s.requests && RowInHand(s.requests[r]) == Some(row)
    requires e == RefreshRevoked(IsUnrevoked(s.tables, row)) || e.LoggedOut?
    requires IsOver(p)
    ensures Alone(To(s.(tables := Revoke(s.tables, row, None, s.now), log := s.log + [e]), r, p))
  {
    LogAfter(s.log, e);
    AloneMoves(s, To(s.(tables := Revoke(s.tables, row, None, s.now), log := s.log + [e]), r, p), r);
  }

  lemma AloneStores(s: State, r: nat, p: Phase, tables: Tables, e: Entry)
    requires Alone(s) && r in s.requests && !IsOver(s.requests[r])
    requires e.LoginStored? || e.RefreshStored?
    requires RowInHand(p) == RowInHand(s.requests[r])
    requires forall id :: IsUnrevoked(s.tables, id) ==> IsUnrevoked(tables, id)
    ensures Alone(To(s.(tables := tables, log := s.log + [e]), r, p))
  {}

  lemma AloneLogsIn(s: State, r: nat, newId: Id, jti: nat, lag: nat)
    requires Alone(s) && r in s.requests && !IsOver(s.requests[r]) && newId !in s.tables.tokens
    requires s.requests[r].LoginArrived? || s.requests[r].LoginHasUser? || s.requests[r].LoginSigned?
    ensures Alone(LoginStep(s, r, s.requests[r], newId, jti, lag))
  {
    var p := s.requests[r];
    var s' := LoginStep(s, r, p, newId, jti, lag);
    if p.LoginSigned? && StoreToken(s.tables, p.userId, p.minted, p.expiresAt, newId).Some? {
      AloneStores(s, r, LoginAnswered(p.userId, p.minted), s'.tables, LoginStored);
    } else {
      AloneMoves(s, s', r);
    }
  }

  lemma AloneLogsOut(s: State, r: nat)
    requires Alone(s) && r in s.requests && (s.requests[r].LogoutArrived? || s.requests[r].LogoutFound?)
    ensures Alone(LogoutStep(s, r, s.requests[r]))
  {
    var p := s.requests[r];
    if p.LogoutFound? {
      AloneRevokes(s, r, LogoutAnswered(p.presented), p.row, LoggedOut(if IsUnrevoked(s.tables, p.row) then 1 else 0));
    } else if FindActive(s.tables, p.presented, s.now).None? {
      AloneMoves(s, To(s, r, LogoutAnswered(p.presented)), r);
    } else {
      AloneMoves(s, To(s, r, LogoutFound(p.presented, FindActive(s.tables, p.presented, s.now).value)), r);
    }
  }

  lemma AloneReads(s: State, r: nat, newId: Id, jti: nat, lag: nat)
    requires Alone(s) && r in s.requests
    requires s.requests[r].RefreshArrived? || s.requests[r].RefreshVerified?
             || s.requests[r].RefreshFound? || s.requests[r].RefreshHasUser?
    ensures Alone(RefreshStep(s, r, s.requests[r], newId, jti, lag))
  {
    AloneMoves(s, RefreshStep(s, r, s.requests[r], newId, jti, lag), r);
  }

  lemma AloneWrites(s: State, r: nat, newId: Id, jti: nat, lag: nat)
    requires Alone(s) && r in s.requests && newId !in s.tables.tokens
    requires s.requests[r].RefreshSigned? || s.requests[r].RefreshInserted?
    ensures Alone(RefreshStep(s, r, s.requests[r], newId, jti, lag))
  {
    var p := s.requests[r];
    if p.RefreshInserted? {
      AloneRevokes(s, r, RefreshAnswered(p.presented, p.minted), p.row, RefreshRevoked(IsUnrevoked(s.tables, p.row)));
    } else if StoreToken(s.tables, p.userId, p.minted, p.expiresAt, newId).Some? {
      AloneStores(s, r, RefreshInserted(p.presented, p.userId, p.row, p.minted),
                  StoreToken(s.tables, p.userId, p.minted, p.expiresAt, newId).value, RefreshStored);
    } else {
      AloneMoves(s, To(s, r, Failed(false)), r);
    }
  }

  lemma AloneAdvances(s: State, r: nat, newId: Id, jti: nat, lag: nat)
    requires Alone(s) && r in s.requests && !IsOver(s.requests[r]) && newId !in s.tables.tokens
    ensures Alone(Step(s, Advance(r, newId, jti, lag)))
  {
    var p := s.requests[r];
    if p.LoginArrived? || p.LoginHasUser? || p.LoginSigned? { AloneLogsIn(s, r, newId, jti, lag); }
    else if p.LogoutArrived? || p.LogoutFound? { AloneLogsOut(s, r); }
    else if p.RefreshSigned? || p.RefreshInserted? { AloneWrites(s, r, newId, jti, lag); }
    else { AloneReads(s, r, newId, jti, lag); }
  }

  lemma AloneRevokesUser(s: State, userId: Id)
    requires Alone(s) && Idle(s)
    ensures Alone(Step(s, RevokeUser(userId)))
  {
    var s' := Step(s, RevokeUser(userId));
    LogAfter(s.log, s'.log[|s.log|]);
    forall r | r in s.requests ensures RowInHand(s.requests[r]).None? { assert IsOver(s.requests[r]); }
  }

  lemma AloneSteps(s: State, a: Action)
    requires Alone(s) && Enabled(s, a)
    requires a.Arrive? || a.RevokeUser? ==> Idle(s)
    ensures Alone(Step(s, a))
  {
    match a
    case Arrive(r, phase) => AloneMoves(s, To(s, r, phase), r);
    case Advance(r, newId, jti, lag) => AloneAdvances(s, r, newId, jti, lag);
    case Fail(r) => AloneMoves(s, Step(s, a), r);
    case RevokeUser(userId) => AloneRevokesUser(s, userId);
    case Tick(_) =>
  }

  lemma {:induction false} SerialRunKeeps(s: State, actions: seq<Action>, s': State)
    requires Inv(s) && Alone(s) && LeadsSerially(s, actions, s')
    ensures Inv(s') && Alone(s')
    decreases |actions|
  {
    if actions != [] {
      StepKeeps(s, actions[0]);
      AloneSteps(s, actions[0]);
      SerialRunKeeps(Step(s, actions[0]), actions[1..], s');
    }
  }

  /**
   * One request at a time, no revoke comes too late: apart from refreshes that broke
   * off between insert and revoke there is at most one unrevoked token per login.
   */
  lemma SerialRotation(actions: seq<Action>, s: State)
    requires LeadsSerially(Initial, actions, s)
    ensures Revocations(s.log, false) == 0
    ensures |Unrevoked(s.tables)| <= LoginsStored(s.log) + |Between(s.requests)|
    ensures (forall r :: r in s.requests ==> !IsBetween(s.requests[r])) ==>
            |Unrevoked(s.tables)| == LoginsStored(s.log) - RowsLoggedOut(s.log)
  {
    SerialRunKeeps(Initial, actions, s);
    if forall r :: r in s.requests ==> !IsBetween(s.requests[r]) {
      assert Between(s.requests) == {};
    }
  }
}
