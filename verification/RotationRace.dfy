/**
 * When two refreshes of one token are both answered (apps/api/auth/refresh.ts): exactly
 * when each has looked the token up before the other revokes it.
 */
module RotationRace {
  import opened Options
  import opened AuthTables
  import opened JwtExpiry
  import opened Rotation
  import opened RotationRuns

  // ---- A signed token is not stored yet ----

  function SignedToken(p: Phase): Option<Token> {
    if p.LoginSigned? || p.RefreshSigned? then Some(p.minted) else None
  }

  /** The tokens about to be stored are new to the table and to each other. */
  ghost predicate Unstored(s: State) {
    && (forall r :: r in s.requests && SignedToken(s.requests[r]).Some? ==>
          Sha256(SignedToken(s.requests[r]).value) !in s.tables.hashes)
    && (forall r, q :: r in s.requests && q in s.requests && r != q && SignedToken(s.requests[r]).Some? ==>
          SignedToken(s.requests[r]) != SignedToken(s.requests[q]))
  }

  lemma StoredIsMinted(s: State, h: Hash)
    requires Inv(s) && h in s.tables.hashes
    ensures h.token in s.minted
  {
    assert s.tables.tokens[s.tables.hashes[h]].hash == h;
  }

  lemma SignedIsMinted(s: State, r: nat)
    requires Inv(s) && r in s.requests && SignedToken(s.requests[r]).Some?
    ensures SignedToken(s.requests[r]).value in s.minted
    ensures StoreToken(s.tables, s.requests[r].userId, s.requests[r].minted, s.requests[r].expiresAt, 0).None?
            <==> Sha256(s.requests[r].minted) in s.tables.hashes
  {
    assert PhaseOk(s.tables, s.minted, s.requests[r]);
  }

  /** One request moves to a phase that has signed nothing. */
  lemma MovesUnsigned(s: State, s': State, r: nat)
    requires Unstored(s) && r in s'.requests && s'.requests == s.requests[r := s'.requests[r]]
    requires SignedToken(s'.requests[r]).None?
    requires forall h :: h in s'.tables.hashes && h !in s.tables.hashes ==>
               r in s.requests && SignedToken(s.requests[r]).Some? && h == Sha256(SignedToken(s.requests[r]).value)
    ensures Unstored(s')
  {}

  lemma Signs(s: State, s': State, r: nat, token: Token)
    requires Unstored(s) && Inv(s) && r in s'.requests && s'.requests == s.requests[r := s'.requests[r]]
    requires SignedToken(s'.requests[r]) == Some(token) && token !in s.minted && s'.tables == s.tables
    ensures Unstored(s')
  {
    if Sha256(token) in s.tables.hashes { StoredIsMinted(s, Sha256(token)); }
    forall q | q in s.requests && q != r && SignedToken(s.requests[q]).Some?
      ensures SignedToken(s.requests[q]) != Some(token)
    {
      SignedIsMinted(s, q);
    }
  }

  lemma AdvanceKeepsUnstored(s: State, r: nat, newId: Id, jti: nat, lag: nat)
    requires Inv(s) && Unstored(s) && Enabled(s, Advance(r, newId, jti, lag))
    ensures Unstored(Step(s, Advance(r, newId, jti, lag)))
  {
    var p := s.requests[r];
    if p.LoginHasUser? || p.RefreshHasUser? {
      Signs(s, Step(s, Advance(r, newId, jti, lag)), r, Token(p.userId, jti, ExpClaim(s.now)));
    } else {
      UnsignedStep(s, r, newId, jti, lag);
    }
  }

  lemma UnsignedStep(s: State, r: nat, newId: Id, jti: nat, lag: nat)
    requires Unstored(s) && r in s.requests && !IsOver(s.requests[r])
    requires !s.requests[r].LoginHasUser? && !s.requests[r].RefreshHasUser?
    ensures Unstored(Step(s, Advance(r, newId, jti, lag)))
  {
    var p := s.requests[r];
    if p.LoginArrived? || p.LoginSigned? {
      MovesUnsigned(s, LoginStep(s, r, p, newId, jti, lag), r);
    } else if p.LogoutArrived? || p.LogoutFound? {
      MovesUnsigned(s, LogoutStep(s, r, p), r);
    } else {
      MovesUnsigned(s, RefreshStep(s, r, p, newId, jti, lag), r);
    }
  }

  lemma StepKeepsUnstored(s: State, a: Action)
    requires Inv(s) && Unstored(s) && Enabled(s, a)
    ensures Unstored(Step(s, a))
  {
    match a
    case Arrive(r, _) => MovesUnsigned(s, Step(s, a), r);
    case Advance(r, newId, jti, lag) => AdvanceKeepsUnstored(s, r, newId, jti, lag);
    case Fail(r) => MovesUnsigned(s, Step(s, a), r);
    case _ =>
  }

  lemma {:induction false} UnstoredRun(s: State, actions: seq<Action>, s': State)
    requires Inv(s) && Unstored(s) && Leads(s, actions, s')
    ensures Unstored(s')
    decreases |actions|
  {
    if actions != [] {
      StepKeeps(s, actions[0]);
      StepKeepsUnstored(s, actions[0]);
      UnstoredRun(Step(s, actions[0]), actions[1..], s');
    }
  }

  lemma ReachableIsUnstored(s: State)
    requires Reachable(s)
    ensures Inv(s) && Unstored(s)
  {
    ReachableKeeps(s);
    ReachableKeeps(Initial) by { assert Leads(Initial, [], Initial); }
    var actions :| Leads(Initial, actions, s);
    UnstoredRun(Initial, actions, s);
  }

  // ---- A refresh that has found its row goes through ----

  predicate HasFound(p: Phase) {
    p.RefreshFound? || p.RefreshHasUser? || p.RefreshSigned? || p.RefreshInserted?
  }

  /** How far a refresh has come since its lookup. */
  function Progress(p: Phase): nat {
    match p
    case RefreshFound(_, _, _) => 1
    case RefreshHasUser(_, _, _) => 2
    case RefreshSigned(_, _, _, _, _) => 3
    case RefreshInserted(_, _, _, _) => 4
    case RefreshAnswered(_, _) => 5
    case _ => 0
  }

  /** Whatever others did since, the next step of a refresh that has found its row is neither denial nor failure. */
  lemma FoundGoesOn(s: State, r: nat, newId: Id, jti: nat, lag: nat)
    requires Reachable(s) && Enabled(s, Advance(r, newId, jti, lag)) && HasFound(s.requests[r])
    ensures var s' := Step(s, Advance(r, newId, jti, lag));
            && Progress(s'.requests[r]) == Progress(s.requests[r]) + 1
            && s'.requests[r].presented == s.requests[r].presented
            && s'.requests == s.requests[r := s'.requests[r]]
  {
    ReachableIsUnstored(s);
    NothingCanFail(s, r);
    FoundAdvances(s, r, newId, jti, lag);
    FoundSteps(s, r, newId, jti, lag);
  }

  /** The user and the uniqueness that the remaining steps ask for. */
  lemma NothingCanFail(s: State, r: nat)
    requires Inv(s) && Unstored(s) && r in s.requests && HasFound(s.requests[r])
    ensures s.requests[r].userId in s.tables.users
    ensures s.requests[r].RefreshSigned? ==> Sha256(s.requests[r].minted) !in s.tables.hashes
  {
    assert PhaseOk(s.tables, s.minted, s.requests[r]);
    var p := s.requests[r];
    if p.RefreshSigned? { assert SignedToken(p) == Some(p.minted); }
  }

  lemma FoundAdvances(s: State, r: nat, newId: Id, jti: nat, lag: nat)
    requires r in s.requests && HasFound(s.requests[r])
    ensures Step(s, Advance(r, newId, jti, lag)) == RefreshStep(s, r, s.requests[r], newId, jti, lag)
  {}

  lemma FoundSteps(s: State, r: nat, newId: Id, jti: nat, lag: nat)
    requires r in s.requests && HasFound(s.requests[r]) && s.requests[r].userId in s.tables.users
    requires s.requests[r].RefreshSigned? ==> Sha256(s.requests[r].minted) !in s.tables.hashes
    ensures var s' := RefreshStep(s, r, s.requests[r], newId, jti, lag);
            && s'.requests == s.requests[r := s'.requests[r]]
            && Progress(s'.requests[r]) == Progress(s.requests[r]) + 1
            && s'.requests[r].presented == s.requests[r].presented
  {}

  /** How many unrevoked rows there will be when refresh `r` has run to its end from here. */
  ghost function RowsAfter(s: State, r: nat): int
    requires r in s.requests && Progress(s.requests[r]) > 0
  {
    var p := s.requests[r];
    |Unrevoked(s.tables)|
    + (if Progress(p) < 4 then 1 else 0)
    - (if Progress(p) < 5 && !IsSpent(s.tables, p.presented) then 1 else 0)
  }

  /** A refresh adds its row, and takes the presented one away only if nobody else has. */
  lemma FoundCounts(s: State, r: nat, newId: Id, jti: nat, lag: nat)
    requires Reachable(s) && Enabled(s, Advance(r, newId, jti, lag)) && HasFound(s.requests[r])
    ensures var s' := Step(s, Advance(r, newId, jti, lag));
            r in s'.requests && Progress(s'.requests[r]) > 0 && RowsAfter(s', r) == RowsAfter(s, r)
  {
    ReachableIsUnstored(s);
    NothingCanFail(s, r);
    FoundAdvances(s, r, newId, jti, lag);
    RowIsStored(s, r);
    FoundStepCounts(s, r, newId, jti, lag);
  }

  lemma FoundStepCounts(s: State, r: nat, newId: Id, jti: nat, lag: nat)
    requires Consistent(s.tables) && r in s.requests && HasFound(s.requests[r]) && newId !in s.tables.tokens
    requires s.requests[r].userId in s.tables.users && IsRowOf(s.tables, s.requests[r].row, s.requests[r].presented)
    requires s.requests[r].RefreshSigned? ==> Sha256(s.requests[r].minted) !in s.tables.hashes
    ensures var s' := RefreshStep(s, r, s.requests[r], newId, jti, lag);
            r in s'.requests && Progress(s'.requests[r]) > 0 && RowsAfter(s', r) == RowsAfter(s, r)
  {
    var p := s.requests[r];
    if p.RefreshSigned? {
      StoringCounts(s.tables, p.userId, p.minted, p.expiresAt, newId, p.presented);
    } else if p.RefreshInserted? {
      RevokingCounts(s.tables, p.row, p.presented, s.now);
    }
  }

  lemma RowIsStored(s: State, r: nat)
    requires Inv(s) && r in s.requests && HasFound(s.requests[r])
    ensures IsRowOf(s.tables, s.requests[r].row, s.requests[r].presented)
  {
    assert PhaseOk(s.tables, s.minted, s.requests[r]);
  }

  lemma StoringCounts(t: Tables, userId: Id, token: Token, expiresAt: int, newId: Id, presented: Token)
    requires Consistent(t) && newId !in t.tokens && StoreToken(t, userId, token, expiresAt, newId).Some?
    requires Sha256(presented) in t.hashes
    ensures var t' := StoreToken(t, userId, token, expiresAt, newId).value;
            |Unrevoked(t')| == |Unrevoked(t)| + 1 && (IsSpent(t', presented) <==> IsSpent(t, presented))
  {
    StoreKeeps(t, userId, token, expiresAt, newId);
  }

  lemma RevokingCounts(t: Tables, row: Id, presented: Token, now: int)
    requires Consistent(t) && IsRowOf(t, row, presented)
    ensures |Unrevoked(Revoke(t, row, None, now))| == |Unrevoked(t)| - if IsSpent(t, presented) then 0 else 1
  {
    RevokeKeeps(t, row, None, now);
    assert t.hashes[Sha256(presented)] == row;
    assert IsSpent(t, presented) ==> row !in Unrevoked(t);
  }

  lemma {:induction false} Above(used: set<nat>) returns (n: nat)
    ensures forall m :: m in used ==> m < n
    decreases |used|
  {
    if used == {} {
      n := 0;
    } else {
      var m :| m in used;
      var k := Above(used - {m});
      n := if k > m then k else m + 1;
      assert used == (used - {m}) + {m};
    }
  }

  /** Ids and a `jti` nothing else uses. */
  lemma FreshDraw(s: State) returns (newId: Id, jti: nat)
    ensures newId !in s.tables.users && newId !in s.tables.tokens
    ensures forall t :: t in s.minted ==> t.jti != jti
  {
    newId := Above(s.tables.users.Keys + s.tables.tokens.Keys);
    var jtis := set t | t in s.minted :: t.jti;
    jti := Above(jtis);
    forall t | t in s.minted ensures t.jti != jti { assert t.jti in jtis; }
  }

  lemma AnsweredIsSpent(s: State, r: nat)
    requires Reachable(s) && r in s.requests && s.requests[r].RefreshAnswered?
    ensures IsSpent(s.tables, s.requests[r].presented)
  {
    ReachableKeeps(s);
    assert PhaseOk(s.tables, s.minted, s.requests[r]);
  }

  lemma {:induction false} FoundCanBeAnswered(s: State, r: nat) returns (actions: seq<Action>, s': State)
    requires Reachable(s) && r in s.requests && HasFound(s.requests[r])
    ensures Leads(s, actions, s') && Reachable(s') && r in s'.requests
    ensures s'.requests[r].RefreshAnswered? && s'.requests[r].presented == s.requests[r].presented
    ensures s'.requests == s.requests[r := s'.requests[r]]
    ensures |Unrevoked(s'.tables)| == RowsAfter(s, r) && IsSpent(s'.tables, s.requests[r].presented)
    decreases 5 - Progress(s.requests[r])
  {
    var newId, jti := FreshDraw(s);
    var a := Advance(r, newId, jti, 0);
    FoundGoesOn(s, r, newId, jti, 0);
    FoundCounts(s, r, newId, jti, 0);
    ReachOneMore(s, a);
    var next := Step(s, a);
    if next.requests[r].RefreshAnswered? {
      actions, s' := [a], next;
      assert [a][1..] == [] && Leads(next, [], next);
      AnsweredIsSpent(next, r);
    } else {
      var rest;
      rest, s' := FoundCanBeAnswered(next, r);
      actions := [a] + rest;
      assert ([a] + rest)[1..] == rest;
    }
  }

  // ---- A refresh that has not is refused once the token is revoked ----

  /** The refresh of `token` has found the token's row, or has got through. */
  predicate IsPastLookup(p: Phase, token: Token) {
    (HasFound(p) || p.RefreshAnswered?) && p.presented == token
  }

  ghost predicate IsLate(s: State, q: nat, token: Token) {
    q in s.requests ==> !IsPastLookup(s.requests[q], token)
  }

  lemma LateStaysLate(s: State, a: Action, q: nat, token: Token)
    requires Enabled(s, a) && IsSpent(s.tables, token) && IsLate(s, q, token)
    ensures IsLate(Step(s, a), q, token)
  {}

  lemma {:induction false} LateRun(s: State, actions: seq<Action>, s': State, q: nat, token: Token)
    requires Inv(s) && Leads(s, actions, s') && IsSpent(s.tables, token) && IsLate(s, q, token)
    ensures IsLate(s', q, token)
    decreases |actions|
  {
    if actions != [] {
      StepKeeps(s, actions[0]);
      LateStaysLate(s, actions[0], q, token);
      LateRun(Step(s, actions[0]), actions[1..], s', q, token);
    }
  }

  /** Refresh `q` of `token` has answered 200. */
  predicate IsAnswered(s: State, q: nat, token: Token) {
    q in s.requests && s.requests[q].RefreshAnswered? && s.requests[q].presented == token
  }

  ghost predicate CanBeAnswered(s: State, q: nat, token: Token) {
    exists actions, s' :: Leads(s, actions, s') && IsAnswered(s', q, token)
  }

  /**
   * Once one refresh of a token has been answered, another can still be answered exactly
   * when it has looked the token up already.
   */
  lemma SecondRefreshIsAnswered(s: State, r: nat, q: nat)
    requires Reachable(s) && r in s.requests && s.requests[r].RefreshAnswered?
    requires q in s.requests && !IsOver(s.requests[q])
    requires s.requests[q].RefreshArrived? || s.requests[q].RefreshVerified? || HasFound(s.requests[q])
    requires s.requests[q].presented == s.requests[r].presented
    ensures CanBeAnswered(s, q, s.requests[r].presented) <==> HasFound(s.requests[q])
  {
    var token := s.requests[r].presented;
    ReachableKeeps(s);
    assert PhaseOk(s.tables, s.minted, s.requests[r]);
    if HasFound(s.requests[q]) {
      var actions, s' := FoundCanBeAnswered(s, q);
      assert IsAnswered(s', q, token);
    } else {
      forall actions, s' | Leads(s, actions, s') ensures !IsAnswered(s', q, token) {
        LateRun(s, actions, s', q, token);
      }
    }
  }

  /**
   * Two refreshes that have both looked a token up can both be answered. The second leaves
   * what the first leaves and its own row, counted already if it has stored it.
   */
  lemma BothCanBeAnswered(s: State, r: nat, q: nat, token: Token) returns (actions: seq<Action>, s': State)
    requires Reachable(s) && r != q && r in s.requests && q in s.requests
    requires HasFound(s.requests[r]) && s.requests[r].presented == token
    requires HasFound(s.requests[q]) && s.requests[q].presented == token
    ensures Leads(s, actions, s') && Reachable(s') && IsAnswered(s', r, token) && IsAnswered(s', q, token)
    ensures s'.requests == s.requests[r := s'.requests[r]][q := s'.requests[q]]
    ensures |Unrevoked(s'.tables)| == RowsAfter(s, r) + if s.requests[q].RefreshInserted? then 0 else 1
  {
    var first, s1 := FoundCanBeAnswered(s, r);
    var second;
    second, s' := FoundCanBeAnswered(s1, q);
    actions := first + second;
    LeadsOn(s, first, s1, second, s');
  }

  lemma {:induction false} LeadsOn(a: State, first: seq<Action>, b: State, second: seq<Action>, c: State)
    requires Leads(a, first, b) && Leads(b, second, c)
    ensures Leads(a, first + second, c)
    decreases |first|
  {
    if first == [] {
      assert first + second == second;
    } else {
      LeadsOn(Step(a, first[0]), first[1..], b, second, c);
      assert (first + second)[1..] == first[1..] + second;
    }
  }
}
