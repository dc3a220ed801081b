/**
 * A run that shows why single use is not promised: two overlapping refreshes of one
 * token are both answered (apps/api/auth/refresh.ts).
 */
module RotationOverlap {
  import opened Options
  import opened AuthTables
  import opened JwtExpiry
  import opened Rotation
  import opened RotationRace
  import opened RotationRuns

  const Alice: Profile := Profile("a", "Alice", [])
  const First: Token := Token(7, 0, REFRESH_TTL_SECONDS)

  lemma Arrives(s: State, r: nat, p: Phase)
    requires Reachable(s) && r !in s.requests && IsArrival(p)
    ensures Reachable(To(s, r, p))
  {
    ReachOneMore(s, Arrive(r, p));
  }

  lemma LoginGoesOn(s: State, r: nat, newId: Id, jti: nat)
    requires Reachable(s) && Enabled(s, Advance(r, newId, jti, 0))
    requires s.requests[r].LoginArrived? || s.requests[r].LoginHasUser? || s.requests[r].LoginSigned?
    ensures Reachable(LoginStep(s, r, s.requests[r], newId, jti, 0))
  {
    ReachOneMore(s, Advance(r, newId, jti, 0));
  }

  lemma RefreshGoesOn(s: State, r: nat, newId: Id, jti: nat)
    requires Reachable(s) && Enabled(s, Advance(r, newId, jti, 0))
    requires !(s.requests[r].LoginArrived? || s.requests[r].LoginHasUser? || s.requests[r].LoginSigned?)
    requires !(s.requests[r].LogoutArrived? || s.requests[r].LogoutFound?)
    ensures Reachable(RefreshStep(s, r, s.requests[r], newId, jti, 0))
  {
    ReachOneMore(s, Advance(r, newId, jti, 0));
  }

  /** One user, one stored token of hers. */
  function LoggedIn(requests: map<nat, Phase>): State {
    State(Tables(map[7 := User("a", "Alice", [])], map[Lower("a") := 7],
                 map[8 := TokenRow(7, Sha256(First), RowExpiry(0), None, None)], map[Sha256(First) := 8]),
          {First}, 0, requests, [LoginStored])
  }

  ghost predicate AreFree(s: State, newId: Id, jti: nat) {
    && newId !in s.tables.users && newId !in s.tables.tokens
    && forall t :: t in s.minted ==> t.jti != jti
  }

  /** The state in which she has her account and no token yet. */
  function Registered(minted: set<Token>, p: Phase): State {
    State(LoggedIn(map[]).tables.(tokens := map[], hashes := map[]), minted, 0, map[0 := p], [])
  }

  lemma SomeoneRegisters()
    ensures Reachable(Registered({}, LoginHasUser(7)))
  {
    assert Leads(Initial, [], Initial);
    Arrives(Initial, 0, LoginArrived(Alice));
    var s := To(Initial, 0, LoginArrived(Alice));
    LoginGoesOn(s, 0, 7, 0);
    assert LoginStep(s, 0, s.requests[0], 7, 0, 0) == Registered({}, LoginHasUser(7));
  }

  lemma SomeoneSigns()
    ensures Reachable(Registered({First}, LoginSigned(7, First, RowExpiry(0))))
  {
    SomeoneRegisters();
    var s := Registered({}, LoginHasUser(7));
    LoginGoesOn(s, 0, 8, 0);
    assert LoginStep(s, 0, s.requests[0], 8, 0, 0) == Registered({First}, LoginSigned(7, First, RowExpiry(0)));
  }

  lemma SomeoneLogsIn()
    ensures Reachable(LoggedIn(map[0 := LoginAnswered(7, First)]))
  {
    SomeoneSigns();
    var s2 := Registered({First}, LoginSigned(7, First, RowExpiry(0)));
    LoginGoesOn(s2, 0, 8, 1);
    assert LoginStep(s2, 0, s2.requests[0], 8, 1, 0) == LoggedIn(map[0 := LoginAnswered(7, First)]);
  }

  lemma Verifies(s: State, r: nat, token: Token, newId: Id, jti: nat)
    requires Reachable(s) && AreFree(s, newId, jti)
    requires r in s.requests && s.requests[r] == RefreshArrived(token)
    requires token in s.minted && Accepts(token.exp, s.now)
    ensures Reachable(To(s, r, RefreshVerified(token, token.sub)))
  {
    RefreshGoesOn(s, r, newId, jti);
  }

  lemma Finds(s: State, r: nat, token: Token, row: Id, newId: Id, jti: nat)
    requires Reachable(s) && AreFree(s, newId, jti)
    requires r in s.requests && s.requests[r] == RefreshVerified(token, token.sub)
    requires FindActive(s.tables, token, s.now) == Some(row)
    ensures Reachable(To(s, r, RefreshFound(token, token.sub, row)))
  {
    RefreshGoesOn(s, r, newId, jti);
  }

  lemma ReadsUser(s: State, r: nat, token: Token, row: Id, newId: Id, jti: nat)
    requires Reachable(s) && AreFree(s, newId, jti)
    requires r in s.requests && s.requests[r] == RefreshFound(token, token.sub, row) && token.sub in s.tables.users
    ensures Reachable(To(s, r, RefreshHasUser(token, token.sub, row)))
  {
    RefreshGoesOn(s, r, newId, jti);
  }

  /** A refresh of `First` runs up to and including its lookup and its reading of the user. */
  lemma RefreshBegins(requests: map<nat, Phase>, r: nat)
    requires Reachable(LoggedIn(requests)) && r !in requests
    ensures Reachable(LoggedIn(requests[r := RefreshHasUser(First, 7, 8)]))
  {
    var s := LoggedIn(requests);
    Arrives(s, r, RefreshArrived(First));
    Verifies(LoggedIn(requests[r := RefreshArrived(First)]), r, First, 9, 5);
    BeginsTo(requests, r, RefreshArrived(First), RefreshVerified(First, 7));
    Finds(LoggedIn(requests[r := RefreshVerified(First, 7)]), r, First, 8, 9, 5);
    BeginsTo(requests, r, RefreshVerified(First, 7), RefreshFound(First, 7, 8));
    ReadsUser(LoggedIn(requests[r := RefreshFound(First, 7, 8)]), r, First, 8, 9, 5);
    BeginsTo(requests, r, RefreshFound(First, 7, 8), RefreshHasUser(First, 7, 8));
  }

  lemma BeginsTo(requests: map<nat, Phase>, r: nat, p: Phase, q: Phase)
    ensures To(LoggedIn(requests[r := p]), r, q) == LoggedIn(requests[r := q])
  {}

  /**
   * One login, its token presented twice in overlapping requests: both are answered, and
   * the one login has two unrevoked tokens.
   */
  lemma OverlappingRefreshesBothSucceed()
    ensures exists s :: Reachable(s) && s.requests.Keys == {0, 1, 2} && s.requests[0] == LoginAnswered(7, First)
              && IsAnswered(s, 1, First) && IsAnswered(s, 2, First) && |Unrevoked(s.tables)| == 2
  {
    SomeoneLogsIn();
    var busy := RefreshHasUser(First, 7, 8);
    RefreshBegins(map[0 := LoginAnswered(7, First)], 1);
    RefreshBegins(map[0 := LoginAnswered(7, First)][1 := busy], 2);
    var s := LoggedIn(map[0 := LoginAnswered(7, First)][1 := busy][2 := busy]);
    assert Unrevoked(s.tables) == {8};
    var actions, s' := BothCanBeAnswered(s, 1, 2, First);
  }
}
