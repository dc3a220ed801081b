/**
 * What a login and a refresh come to from any reachable state, and what tells tokens
 * from accounts apart over whole runs (apps/api/auth/service.ts, refresh.ts, lib/jwt.ts).
 */
module RotationProgress {
  import opened Options
  import opened AuthTables
  import opened JwtExpiry
  import opened Rotation
  import opened RotationLogout
  import opened RotationRace
  import opened RotationRuns

  // ---- What a refresh is refused for ----

  /** The token was signed here, and its `exp` second has not begun. */
  predicate IsAccepted(s: State, token: Token) {
    token in s.minted && s.now / 1_000_000 < token.exp
  }

  /**
   * A refresh that has not found its row yet is denied exactly where the signature check
   * or the lookup fails, and denied or not it changes nothing else.
   */
  lemma RefreshIsDecided(s: State, r: nat, newId: Id, jti: nat, lag: nat)
    requires Reachable(s) && Enabled(s, Advance(r, newId, jti, lag))
    requires s.requests[r].RefreshArrived? || s.requests[r].RefreshVerified?
    ensures var s', token := Step(s, Advance(r, newId, jti, lag)), s.requests[r].presented;
            if s.requests[r].RefreshArrived? then
              s' == To(s, r, if IsAccepted(s, token) then RefreshVerified(token, token.sub) else RefreshDenied(token))
            else if LiveRows(s.tables, token, s.now) == {} then s' == To(s, r, RefreshDenied(token))
            else exists row :: LiveRows(s.tables, token, s.now) == {row} && s' == To(s, r, RefreshFound(token, token.sub, row))
  {
    ReachableKeeps(s);
    assert PhaseOk(s.tables, s.minted, s.requests[r]);
    LiveRow(s.tables, s.requests[r].presented, s.now);
  }

  /** A minted token's `exp` and its row's expiry are seven days from the moments they are computed at. */
  lemma SigningIsForAWeek(s: State, r: nat, newId: Id, jti: nat, lag: nat)
    requires Enabled(s, Advance(r, newId, jti, lag)) && (s.requests[r].LoginHasUser? || s.requests[r].RefreshHasUser?)
    ensures var s', p := Step(s, Advance(r, newId, jti, lag)), s.requests[r];
            var signed := s'.requests[r];
            && s'.tables == s.tables && s'.log == s.log && s'.requests == s.requests[r := signed]
            && (signed.LoginSigned? <==> p.LoginHasUser?) && (signed.RefreshSigned? <==> p.RefreshHasUser?)
            && signed.userId == p.userId
            && (p.RefreshHasUser? ==> signed.presented == p.presented && signed.row == p.row)
            && signed.minted == Token(p.userId, jti, s.now / 1_000_000 + 604_800)
            && signed.expiresAt == ((s.now + lag) / 1_000 + 604_800_000) * 1_000
            && s'.minted == s.minted + {signed.minted} && signed.minted !in s.minted && s'.now == s.now + lag
  {}

  // ---- A refresh goes through ----

  lemma DrawIsEnabled(s: State, r: nat) returns (a: Action)
    requires r in s.requests && !IsOver(s.requests[r])
    ensures a.Advance? && a.r == r && a.lag == 0 && Enabled(s, a)
  {
    var newId, jti := FreshDraw(s);
    a := Advance(r, newId, jti, 0);
  }

  lemma LeadsByOne(s: State, a: Action)
    requires Enabled(s, a)
    ensures Leads(s, [a], Step(s, a))
  {
    assert [a][1..] == [] && Leads(Step(s, a), [], Step(s, a));
  }

  /** In every reachable state a refresh of an accepted token with a live row can find that row. */
  lemma LiveTokenIsFound(s: State, r: nat, token: Token, row: Id) returns (actions: seq<Action>, s': State)
    requires Reachable(s) && r in s.requests && s.requests[r] == RefreshArrived(token)
    requires IsAccepted(s, token) && LiveRows(s.tables, token, s.now) == {row}
    ensures Leads(s, actions, s') && Reachable(s') && s' == To(s, r, RefreshFound(token, token.sub, row))
  {
    var first := DrawIsEnabled(s, r);
    RefreshIsDecided(s, r, first.newId, first.jti, 0);
    ReachOneMore(s, first);
    LeadsByOne(s, first);
    var mid := Step(s, first);
    var second := DrawIsEnabled(mid, r);
    RefreshIsDecided(mid, r, second.newId, second.jti, 0);
    ReachOneMore(mid, second);
    LeadsByOne(mid, second);
    actions, s' := [first] + [second], Step(mid, second);
    LeadsOn(s, [first], mid, [second], s');
    assert row in LiveRows(s.tables, token, s.now);
  }

  lemma LiveIsNotSpent(t: Tables, token: Token, now: int, row: Id)
    requires Consistent(t) && row in LiveRows(t, token, now)
    ensures IsRowOf(t, row, token) && !IsSpent(t, token)
  {}

  /** And it can be answered: the row is revoked, and there are as many unrevoked rows as before. */
  lemma LiveTokenIsAnswered(s: State, r: nat, token: Token, row: Id) returns (actions: seq<Action>, s': State)
    requires Reachable(s) && r in s.requests && s.requests[r] == RefreshArrived(token)
    requires IsAccepted(s, token) && LiveRows(s.tables, token, s.now) == {row}
    ensures Leads(s, actions, s') && Reachable(s') && IsAnswered(s', r, token)
    ensures s'.requests == s.requests[r := s'.requests[r]]
    ensures IsSpent(s'.tables, token) && |Unrevoked(s'.tables)| == |Unrevoked(s.tables)|
  {
    ReachableKeeps(s);
    assert row in LiveRows(s.tables, token, s.now);
    LiveIsNotSpent(s.tables, token, s.now, row);
    var first, found := LiveTokenIsFound(s, r, token, row);
    var second;
    second, s' := FoundCanBeAnswered(found, r);
    actions := first + second;
    LeadsOn(s, first, found, second, s');
  }

  // ---- A login goes through ----

  lemma LoginUpserts(s: State, r: nat, p: Profile, newId: Id, jti: nat, lag: nat)
    requires Reachable(s) && Enabled(s, Advance(r, newId, jti, lag)) && s.requests[r] == LoginArrived(p)
    ensures var s' := Step(s, Advance(r, newId, jti, lag));
            && s'.requests[r].LoginHasUser?
            && s' == To(s.(tables := s'.tables), r, s'.requests[r])
            && IsLoginOf(s.tables, s'.tables, p, s'.requests[r].userId)
            && s'.tables.tokens == s.tables.tokens
  {
    ReachableKeeps(s);
    UpsertKeeps(s.tables, p, newId);
    LowerMeans(UpsertUser(s.tables, p, newId).0.users[UpsertUser(s.tables, p, newId).1].email, p.email);
  }

  /** The login of `p` has changed the account `id` and no other. */
  ghost predicate IsLoginOf(t: Tables, t': Tables, p: Profile, id: Id) {
    && OthersStay(t.users, t'.users, id)
    && t'.users[id].name == p.name && t'.users[id].roles == p.roles
    && SameIgnoringCase(t'.users[id].email, p.email)
    && (id in t.users ==> t'.users[id].email == t.users[id].email)
    && (id !in t.users ==> t'.users[id].email == p.email)
  }

  lemma LoginStoresRow(s: State, r: nat, newId: Id, jti: nat, lag: nat)
    requires Reachable(s) && Enabled(s, Advance(r, newId, jti, lag)) && s.requests[r].LoginSigned?
    ensures var s', p := Step(s, Advance(r, newId, jti, lag)), s.requests[r];
            && s' == To(s.(tables := s'.tables, log := s.log + [LoginStored]), r, LoginAnswered(p.userId, p.minted))
            && s'.tables.users == s.tables.users
            && OthersStay(s.tables.tokens, s'.tables.tokens, newId) && newId !in s.tables.tokens
            && s'.tables.tokens[newId] == TokenRow(p.userId, Sha256(p.minted), p.expiresAt, None, None)
  {
    ReachableIsUnstored(s);
    var p := s.requests[r];
    assert PhaseOk(s.tables, s.minted, p) && SignedToken(p) == Some(p.minted);
    StoreKeeps(s.tables, p.userId, p.minted, p.expiresAt, newId);
  }

  /**
   * In every reachable state a login can be answered: its account and no other takes name
   * and roles from the profile, and it has one unrevoked row more, good for seven days.
   */
  lemma LoginIsAnswered(s: State, r: nat, p: Profile) returns (actions: seq<Action>, s': State, id: Id, row: Id)
    requires Reachable(s) && r in s.requests && s.requests[r] == LoginArrived(p)
    ensures Leads(s, actions, s') && Reachable(s') && IsLoginOf(s.tables, s'.tables, p, id)
    ensures r in s'.requests && s'.requests[r].LoginAnswered? && s'.requests == s.requests[r := s'.requests[r]]
    ensures var minted := s'.requests[r].minted;
            && minted.sub == id && minted !in s.minted && minted.exp == s.now / 1_000_000 + 604_800
            && row !in s.tables.tokens && OthersStay(s.tables.tokens, s'.tables.tokens, row)
            && s'.tables.tokens[row] ==
               TokenRow(id, Sha256(minted), (s.now / 1_000 + 604_800_000) * 1_000, None, None)
  {
    var first := DrawIsEnabled(s, r);
    LoginUpserts(s, r, p, first.newId, first.jti, 0);
    ReachOneMore(s, first);
    LeadsByOne(s, first);
    var s1 := Step(s, first);
    id := s1.requests[r].userId;
    var second := DrawIsEnabled(s1, r);
    SigningIsForAWeek(s1, r, second.newId, second.jti, 0);
    ReachOneMore(s1, second);
    LeadsByOne(s1, second);
    var s2 := Step(s1, second);
    LeadsOn(s, [first], s1, [second], s2);
    var third := DrawIsEnabled(s2, r);
    LoginStoresRow(s2, r, third.newId, third.jti, 0);
    ReachOneMore(s2, third);
    LeadsByOne(s2, third);
    row, s', actions := third.newId, Step(s2, third), [first] + [second] + [third];
    LeadsOn(s, [first] + [second], s2, [third], s');
  }

  /**
   * A request can break off before any of its steps, and leaves what it has written: a
   * refresh that breaks off between insert and revoke leaves both rows.
   */
  lemma AnyRequestCanBreakOff(s: State, r: nat)
    requires Reachable(s) && r in s.requests && !IsOver(s.requests[r])
    ensures Enabled(s, Fail(r)) && Reachable(Step(s, Fail(r))) && IsOver(Step(s, Fail(r)).requests[r])
    ensures Step(s, Fail(r)).tables == s.tables
    ensures s.requests[r].RefreshInserted? && !IsSpent(s.tables, s.requests[r].presented) ==>
              IsStored(s.tables, s.requests[r].presented) && IsStored(s.tables, s.requests[r].minted)
  {
    ReachableKeeps(s);
    ReachOneMore(s, Fail(r));
    assert PhaseOk(s.tables, s.minted, s.requests[r]);
  }

  // ---- Accounts over whole runs ----

  predicate IsLoginArrival(a: Action) {
    a.Arrive? && a.phase.LoginArrived?
  }

  /** The profiles of all logins that arrive in a run. */
  ghost function ProfilesIn(actions: seq<Action>): set<Profile> {
    set i | 0 <= i < |actions| && IsLoginArrival(actions[i]) :: actions[i].phase.profile
  }

  predicate IsTakenFrom(u: User, p: Profile) {
    SameIgnoringCase(u.email, p.email) && u.name == p.name && u.roles == p.roles
  }

  ghost predicate AccountsFrom(s: State, profiles: set<Profile>) {
    && (forall id :: id in s.tables.users ==> exists p :: p in profiles && IsTakenFrom(s.tables.users[id], p))
    && (forall r :: r in s.requests && s.requests[r].LoginArrived? ==> s.requests[r].profile in profiles)
  }

  /** Accounts change by the first step of a login, and by nothing else. */
  lemma OnlyLoginsChangeAccounts(s: State, a: Action)
    requires Enabled(s, a)
    ensures Step(s, a).tables.users != s.tables.users ==> a.Advance? && s.requests[a.r].LoginArrived?
    ensures forall r :: r in Step(s, a).requests && Step(s, a).requests[r].LoginArrived? ==>
              (r in s.requests && s.requests[r] == Step(s, a).requests[r]) || a == Arrive(r, Step(s, a).requests[r])
  {}

  lemma AccountsStep(s: State, a: Action, profiles: set<Profile>)
    requires Reachable(s) && Enabled(s, a) && AccountsFrom(s, profiles)
    ensures AccountsFrom(Step(s, a), if IsLoginArrival(a) then profiles + {a.phase.profile} else profiles)
  {
    OnlyLoginsChangeAccounts(s, a);
    if a.Advance? && s.requests[a.r].LoginArrived? {
      LoginUpserts(s, a.r, s.requests[a.r].profile, a.newId, a.jti, a.lag);
      AccountTaken(s.tables, Step(s, a).tables, s.requests[a.r].profile, Step(s, a).requests[a.r].userId, profiles);
    }
  }

  lemma AccountTaken(t: Tables, t': Tables, p: Profile, id: Id, profiles: set<Profile>)
    requires p in profiles && IsLoginOf(t, t', p, id)
    requires forall u :: u in t.users ==> exists q :: q in profiles && IsTakenFrom(t.users[u], q)
    ensures forall u :: u in t'.users ==> exists q :: q in profiles && IsTakenFrom(t'.users[u], q)
  {
    assert IsTakenFrom(t'.users[id], p);
  }

  lemma {:induction false} AccountsRun(s: State, actions: seq<Action>, s': State, profiles: set<Profile>)
    requires Reachable(s) && Leads(s, actions, s') && AccountsFrom(s, profiles)
    ensures AccountsFrom(s', profiles + ProfilesIn(actions))
    decreases |actions|
  {
    if actions == [] {
      assert profiles + ProfilesIn(actions) == profiles;
    } else {
      var a := actions[0];
      var grown := if IsLoginArrival(a) then profiles + {a.phase.profile} else profiles;
      AccountsStep(s, a, profiles);
      ReachOneMore(s, a);
      AccountsRun(Step(s, a), actions[1..], s', grown);
      ProfilesOfRest(actions, profiles);
    }
  }

  lemma ProfilesOfRest(actions: seq<Action>, profiles: set<Profile>)
    requires actions != []
    ensures var grown := if IsLoginArrival(actions[0]) then profiles + {actions[0].phase.profile} else profiles;
            grown + ProfilesIn(actions[1..]) == profiles + ProfilesIn(actions)
  {
    forall p | p in ProfilesIn(actions[1..]) ensures p in ProfilesIn(actions) {
      var i :| 0 <= i < |actions[1..]| && IsLoginArrival(actions[1..][i]) && actions[1..][i].phase.profile == p;
      assert actions[i + 1] == actions[1..][i];
    }
    forall p | p in ProfilesIn(actions)
      ensures p in ProfilesIn(actions[1..]) || (IsLoginArrival(actions[0]) && actions[0].phase.profile == p)
    {
      var i :| 0 <= i < |actions| && IsLoginArrival(actions[i]) && actions[i].phase.profile == p;
      if i > 0 { assert actions[1..][i - 1] == actions[i]; }
    }
  }

  /** In every run each account has its name and roles from a login with its own email. */
  lemma AccountsComeFromLogins(actions: seq<Action>, s: State, id: Id)
    requires Leads(Initial, actions, s) && id in s.tables.users
    ensures exists r, p :: Arrive(r, LoginArrived(p)) in actions && IsTakenFrom(s.tables.users[id], p)
  {
    assert Leads(Initial, [], Initial);
    AccountsRun(Initial, actions, s, {});
    var p :| p in {} + ProfilesIn(actions) && IsTakenFrom(s.tables.users[id], p);
    var i :| 0 <= i < |actions| && IsLoginArrival(actions[i]) && actions[i].phase.profile == p;
    assert actions[i] == Arrive(actions[i].r, LoginArrived(p));
  }

  // ---- Time over whole runs ----

  function Ticked(actions: seq<Action>): nat {
    if actions == [] then 0
    else (if actions[0].Tick? then actions[0].us else 0) + Ticked(actions[1..])
  }

  ghost predicate MintedSince(s: State) {
    forall t :: t in s.minted ==> t.exp <= s.now / 1_000_000 + 604_800
  }

  lemma MintedStep(s: State, a: Action)
    requires Enabled(s, a) && MintedSince(s)
    ensures MintedSince(Step(s, a))
    ensures Step(s, a).now >= s.now + if a.Tick? then a.us else 0
  {
    if a.Advance? && (s.requests[a.r].LoginHasUser? || s.requests[a.r].RefreshHasUser?) {
      SigningIsForAWeek(s, a.r, a.newId, a.jti, a.lag);
    }
  }

  lemma {:induction false} TimeRun(s: State, actions: seq<Action>, s': State)
    requires Leads(s, actions, s') && MintedSince(s)
    ensures MintedSince(s') && s'.now >= s.now + Ticked(actions)
    decreases |actions|
  {
    if actions != [] {
      MintedStep(s, actions[0]);
      TimeRun(Step(s, actions[0]), actions[1..], s');
    }
  }

  /** Seven days after it was there, whatever happened meanwhile, a token is refused by the signature check. */
  lemma TokenOfAWeekAgoIsRefused(
      s: State, token: Token, actions: seq<Action>, s': State, r: nat, newId: Id, jti: nat, lag: nat)
    requires Reachable(s) && token in s.minted && Leads(s, actions, s') && Ticked(actions) >= 604_800_000_000
    requires r in s'.requests && s'.requests[r] == RefreshArrived(token)
    ensures Step(s', Advance(r, newId, jti, lag)) == To(s', r, RefreshDenied(token))
  {
    var earlier :| Leads(Initial, earlier, s);
    TimeRun(Initial, earlier, s);
    TimeRun(s, actions, s');
  }
}
