/**
 * Requests one at a time: each login has at most one unrevoked token in the chain of
 * rotations it started (apps/api/auth/refresh.ts, apps/api/auth/service.ts).
 */
module RotationChains {
  import opened Options
  import opened AuthTables
  import opened Rotation
  import opened RotationSerial

  /**
   * For each row the row of the login its chain goes back to, and the chains in which a
   * refresh failed between storing its new token and revoking the old one.
   */
  datatype Chains = Chains(of: map<Id, Id>, broken: set<Id>)

  const NoChains: Chains := Chains(map[], {})

  function ChainStep(s: State, a: Action, c: Chains): Chains {
    match a
    case Advance(r, newId, _, _) =>
      if r !in s.requests then c
      else
        (match s.requests[r]
         case LoginSigned(userId, token, expiresAt) =>
           if StoreToken(s.tables, userId, token, expiresAt, newId).Some? then c.(of := c.of[newId := newId]) else c
         case RefreshSigned(_, userId, row, token, expiresAt) =>
           if StoreToken(s.tables, userId, token, expiresAt, newId).Some? && row in c.of
           then c.(of := c.of[newId := c.of[row]]) else c
         case _ => c)
    case Fail(r) =>
      if r in s.requests && s.requests[r].RefreshInserted? && s.requests[r].row in c.of
      then c.(broken := c.broken + {c.of[s.requests[r].row]}) else c
    case _ => c
  }

  ghost predicate LeadsSeriallyWith(s: State, c: Chains, actions: seq<Action>, s': State, c': Chains)
    decreases |actions|
  {
    if actions == [] then s' == s && c' == c
    else
      && Enabled(s, actions[0])
      && (actions[0].Arrive? || actions[0].RevokeUser? ==> Idle(s))
      && LeadsSeriallyWith(Step(s, actions[0]), ChainStep(s, actions[0], c), actions[1..], s', c')
  }

  /** Every row has its chain, and a chain is named by its own first row. */
  ghost predicate Rooted(t: Tables, c: Chains) {
    && c.of.Keys == t.tokens.Keys
    && forall id :: id in c.of ==> c.of[id] in c.of && c.of[c.of[id]] == c.of[id]
  }

  ghost function Roots(c: Chains): set<Id> {
    set id | id in c.of && c.of[id] == id
  }

  ghost predicate ArePair(t: Tables, c: Chains, a: Id, b: Id) {
    a != b && IsUnrevoked(t, a) && IsUnrevoked(t, b) && a in c.of && b in c.of && c.of[a] == c.of[b]
    && c.of[a] !in c.broken
  }

  /** The old and the new row of a refresh between insert and revoke. */
  predicate AreInHand(t: Tables, p: Phase, a: Id, b: Id) {
    p.RefreshInserted? && Sha256(p.minted) in t.hashes && {a, b} == {p.row, t.hashes[Sha256(p.minted)]}
  }

  /** Two unrevoked rows of a chain are those a refresh has in hand. */
  ghost predicate Single(s: State, c: Chains) {
    forall a: Id, b: Id :: ArePair(s.tables, c, a, b) ==>
      exists r :: r in s.requests && AreInHand(s.tables, s.requests[r], a, b)
  }

  /** Nothing is stored, and whoever had rows in hand still has them. */
  lemma SingleStays(s: State, s': State, c: Chains)
    requires Single(s, c) && Extends(s.tables.hashes, s'.tables.hashes)
    requires forall id :: IsUnrevoked(s'.tables, id) ==> IsUnrevoked(s.tables, id)
    requires forall r :: r in s.requests && s.requests[r].RefreshInserted? ==> r in s'.requests && s'.requests[r] == s.requests[r]
    ensures Single(s', c)
  {
    forall a: Id, b: Id | ArePair(s'.tables, c, a, b)
      ensures exists r :: r in s'.requests && AreInHand(s'.tables, s'.requests[r], a, b)
    {
      assert ArePair(s.tables, c, a, b);
      var r :| r in s.requests && AreInHand(s.tables, s.requests[r], a, b);
      assert AreInHand(s'.tables, s'.requests[r], a, b);
    }
  }

  /** Without a refresh between insert and revoke no chain has two. */
  lemma NoPairs(s: State, c: Chains)
    requires Single(s, c) && forall r :: r in s.requests ==> !s.requests[r].RefreshInserted?
    ensures forall a: Id, b: Id :: !ArePair(s.tables, c, a, b)
  {}

  lemma OthersAreOver(s: State, r: nat)
    requires Alone(s) && r in s.requests && !IsOver(s.requests[r])
    ensures forall q :: q in s.requests && q != r ==> IsOver(s.requests[q])
  {}

  /** The tables after a row has been stored. */
  predicate HasStored(t: Tables, t': Tables, newId: Id, token: Token) {
    && newId !in t.tokens && newId in t'.tokens && t'.tokens == t.tokens[newId := t'.tokens[newId]]
    && t'.hashes == t.hashes[Sha256(token) := newId]
  }

  /** A pair of stored rows was one before, or the new row is in it. */
  lemma PairAfterStore(t: Tables, t': Tables, c: Chains, newId: Id, token: Token, chain: Id, a: Id, b: Id)
    requires HasStored(t, t', newId, token)
    ensures ArePair(t', c.(of := c.of[newId := chain]), a, b) ==>
              ArePair(t, c, a, b) || (a == newId && IsInChain(t, c, b, chain)) || (b == newId && IsInChain(t, c, a, chain))
  {}

  predicate IsInChain(t: Tables, c: Chains, id: Id, chain: Id) {
    IsUnrevoked(t, id) && id in c.of && c.of[id] == chain && chain !in c.broken
  }

  lemma RootedAfterStore(t: Tables, t': Tables, c: Chains, newId: Id, token: Token, chain: Id)
    requires Rooted(t, c) && HasStored(t, t', newId, token) && (chain == newId || (chain in c.of && c.of[chain] == chain))
    ensures Rooted(t', c.(of := c.of[newId := chain]))
  {}

  /** A login starts a chain of its own. */
  lemma LoginStores(s: State, c: Chains, s': State, newId: Id, token: Token)
    requires Rooted(s.tables, c) && HasStored(s.tables, s'.tables, newId, token)
    requires forall a: Id, b: Id :: !ArePair(s.tables, c, a, b)
    ensures Rooted(s'.tables, c.(of := c.of[newId := newId])) && Single(s', c.(of := c.of[newId := newId]))
  {
    var c' := c.(of := c.of[newId := newId]);
    RootedAfterStore(s.tables, s'.tables, c, newId, token, newId);
    forall a: Id, b: Id ensures !ArePair(s'.tables, c', a, b) {
      PairAfterStore(s.tables, s'.tables, c, newId, token, newId, a, b);
    }
  }

  lemma OnlyRow(t: Tables, c: Chains, row: Id, x: Id)
    requires forall a: Id, b: Id :: !ArePair(t, c, a, b)
    requires IsUnrevoked(t, row) && row in c.of && IsInChain(t, c, x, c.of[row])
    ensures x == row
  {
    assert !ArePair(t, c, row, x);
  }

  lemma NewPair(t: Tables, t': Tables, c: Chains, newId: Id, token: Token, row: Id, a: Id, b: Id)
    requires forall x: Id, y: Id :: !ArePair(t, c, x, y)
    requires HasStored(t, t', newId, token) && IsUnrevoked(t, row) && row in c.of
    requires ArePair(t', c.(of := c.of[newId := c.of[row]]), a, b)
    ensures {a, b} == {row, newId}
  {
    PairAfterStore(t, t', c, newId, token, c.of[row], a, b);
    OnlyRow(t, c, row, if a == newId then b else a);
  }

  /** A refresh puts its new row beside the one unrevoked row of the chain. */
  lemma RefreshStoresRow(s: State, c: Chains, s': State, r: nat, newId: Id, token: Token, row: Id)
    requires Rooted(s.tables, c) && HasStored(s.tables, s'.tables, newId, token)
    requires IsUnrevoked(s.tables, row) && row in c.of
    requires forall a: Id, b: Id :: !ArePair(s.tables, c, a, b)
    requires r in s'.requests && s'.requests[r].RefreshInserted?
    requires s'.requests[r].row == row && s'.requests[r].minted == token
    ensures Rooted(s'.tables, c.(of := c.of[newId := c.of[row]])) && Single(s', c.(of := c.of[newId := c.of[row]]))
  {
    var c' := c.(of := c.of[newId := c.of[row]]);
    RootedAfterStore(s.tables, s'.tables, c, newId, token, c.of[row]);
    forall a: Id, b: Id | ArePair(s'.tables, c', a, b)
      ensures AreInHand(s'.tables, s'.requests[r], a, b)
    {
      NewPair(s.tables, s'.tables, c, newId, token, row, a, b);
    }
  }

  lemma PairHasRow(s: State, c: Chains, r: nat, a: Id, b: Id)
    requires Alone(s) && Single(s, c) && r in s.requests && s.requests[r].RefreshInserted? && ArePair(s.tables, c, a, b)
    ensures s.requests[r].row in {a, b}
  {
    OthersAreOver(s, r);
    var q :| q in s.requests && AreInHand(s.tables, s.requests[q], a, b);
    assert s.requests[q].row in {a, b};
  }

  lemma RefreshRevokesRow(s: State, c: Chains, r: nat)
    requires Alone(s) && Single(s, c) && r in s.requests && s.requests[r].RefreshInserted?
    ensures var p := s.requests[r];
            Single(To(s.(tables := Revoke(s.tables, p.row, None, s.now),
                         log := s.log + [RefreshRevoked(IsUnrevoked(s.tables, p.row))]), r,
                      RefreshAnswered(p.presented, p.minted)), c)
  {
    var p := s.requests[r];
    var t := Revoke(s.tables, p.row, None, s.now);
    OthersAreOver(s, r);
    assert !IsUnrevoked(t, p.row);
    forall a: Id, b: Id ensures !ArePair(t, c, a, b) {
      if ArePair(s.tables, c, a, b) { PairHasRow(s, c, r, a, b); }
    }
  }

  lemma FailBreaksChain(s: State, c: Chains, r: nat)
    requires Alone(s) && Rooted(s.tables, c) && Single(s, c)
    requires r in s.requests && s.requests[r].RefreshInserted? && s.requests[r].row in s.tables.tokens
    ensures Single(To(s, r, Failed(true)), c.(broken := c.broken + {c.of[s.requests[r].row]}))
  {
    var p := s.requests[r];
    var c' := c.(broken := c.broken + {c.of[p.row]});
    OthersAreOver(s, r);
    forall a: Id, b: Id ensures !ArePair(s.tables, c', a, b) {
      if ArePair(s.tables, c, a, b) { PairHasRow(s, c, r, a, b); }
    }
  }

  // ---- Serial runs ----

  lemma NobodyInserted(s: State, c: Chains, r: nat)
    requires Alone(s) && Single(s, c) && r in s.requests && !IsOver(s.requests[r]) && !s.requests[r].RefreshInserted?
    ensures forall a: Id, b: Id :: !ArePair(s.tables, c, a, b)
  {
    OthersAreOver(s, r);
    forall q | q in s.requests ensures !s.requests[q].RefreshInserted? { assert q != r ==> IsOver(s.requests[q]); }
    NoPairs(s, c);
  }

  lemma StoresAre(t: Tables, userId: Id, token: Token, expiresAt: int, newId: Id)
    requires newId !in t.tokens && StoreToken(t, userId, token, expiresAt, newId).Some?
    ensures HasStored(t, StoreToken(t, userId, token, expiresAt, newId).value, newId, token)
  {}

  lemma LoginStoringStep(s: State, c: Chains, r: nat, newId: Id, jti: nat, lag: nat)
    requires Alone(s) && Rooted(s.tables, c) && Single(s, c) && Enabled(s, Advance(r, newId, jti, lag))
    requires s.requests[r].LoginSigned?
    ensures var a := Advance(r, newId, jti, lag);
            Rooted(Step(s, a).tables, ChainStep(s, a, c)) && Single(Step(s, a), ChainStep(s, a, c))
  {
    var p := s.requests[r];
    var s' := Step(s, Advance(r, newId, jti, lag));
    if StoreToken(s.tables, p.userId, p.minted, p.expiresAt, newId).Some? {
      NobodyInserted(s, c, r);
      StoresAre(s.tables, p.userId, p.minted, p.expiresAt, newId);
      LoginStores(s, c, s', newId, p.minted);
    } else {
      SingleStays(s, s', c);
    }
  }

  lemma RefreshStoringStep(s: State, c: Chains, r: nat, newId: Id, jti: nat, lag: nat)
    requires Alone(s) && Rooted(s.tables, c) && Single(s, c) && Enabled(s, Advance(r, newId, jti, lag))
    requires s.requests[r].RefreshSigned?
    ensures var a := Advance(r, newId, jti, lag);
            Rooted(Step(s, a).tables, ChainStep(s, a, c)) && Single(Step(s, a), ChainStep(s, a, c))
  {
    var p := s.requests[r];
    var s' := Step(s, Advance(r, newId, jti, lag));
    assert RowInHand(p) == Some(p.row);
    if StoreToken(s.tables, p.userId, p.minted, p.expiresAt, newId).Some? {
      NobodyInserted(s, c, r);
      StoresAre(s.tables, p.userId, p.minted, p.expiresAt, newId);
      RefreshStoresRow(s, c, s', r, newId, p.minted, p.row);
    } else {
      SingleStays(s, s', c);
    }
  }

  /** A step that stores nothing, revokes nothing for a refresh and breaks no chain. */
  lemma QuietAdvance(s: State, a: Action, c: Chains)
    requires Rooted(s.tables, c) && Single(s, c) && Enabled(s, a) && a.Advance?
    requires var p := s.requests[a.r]; !p.LoginSigned? && !p.RefreshSigned? && !p.RefreshInserted?
    ensures ChainStep(s, a, c) == c && Rooted(Step(s, a).tables, c) && Single(Step(s, a), c)
  {
    var p := s.requests[a.r];
    if p.LoginArrived? || p.LoginHasUser? {
      SingleStays(s, LoginStep(s, a.r, p, a.newId, a.jti, a.lag), c);
    } else if p.LogoutArrived? || p.LogoutFound? {
      SingleStays(s, LogoutStep(s, a.r, p), c);
    } else {
      SingleStays(s, RefreshStep(s, a.r, p, a.newId, a.jti, a.lag), c);
    }
  }

  lemma QuietStep(s: State, a: Action, c: Chains)
    requires Rooted(s.tables, c) && Single(s, c) && Enabled(s, a) && !a.Advance?
    requires a.Fail? ==> !s.requests[a.r].RefreshInserted?
    ensures ChainStep(s, a, c) == c && Rooted(Step(s, a).tables, c) && Single(Step(s, a), c)
  {
    SingleStays(s, Step(s, a), c);
  }

  lemma RevokingStep(s: State, a: Action, c: Chains)
    requires Alone(s) && Rooted(s.tables, c) && Single(s, c) && Enabled(s, a) && a.Advance?
    requires s.requests[a.r].RefreshInserted?
    ensures Rooted(Step(s, a).tables, ChainStep(s, a, c)) && Single(Step(s, a), ChainStep(s, a, c))
  {
    RefreshRevokesRow(s, c, a.r);
  }

  lemma BreakingStep(s: State, a: Action, c: Chains)
    requires Alone(s) && Rooted(s.tables, c) && Single(s, c) && Enabled(s, a) && a.Fail?
    requires s.requests[a.r].RefreshInserted? && s.requests[a.r].row in s.tables.tokens
    ensures Rooted(Step(s, a).tables, ChainStep(s, a, c)) && Single(Step(s, a), ChainStep(s, a, c))
  {
    FailBreaksChain(s, c, a.r);
  }

  lemma ChainStepKeeps(s: State, a: Action, c: Chains)
    requires Inv(s) && Alone(s) && Rooted(s.tables, c) && Single(s, c) && Enabled(s, a)
    ensures Rooted(Step(s, a).tables, ChainStep(s, a, c)) && Single(Step(s, a), ChainStep(s, a, c))
  {
    if a.Advance? && s.requests[a.r].LoginSigned? {
      LoginStoringStep(s, c, a.r, a.newId, a.jti, a.lag);
    } else if a.Advance? && s.requests[a.r].RefreshSigned? {
      RefreshStoringStep(s, c, a.r, a.newId, a.jti, a.lag);
    } else if a.Advance? && s.requests[a.r].RefreshInserted? {
      RevokingStep(s, a, c);
    } else if a.Fail? && s.requests[a.r].RefreshInserted? {
      assert PhaseOk(s.tables, s.minted, s.requests[a.r]);
      BreakingStep(s, a, c);
    } else if a.Advance? {
      QuietAdvance(s, a, c);
    } else {
      QuietStep(s, a, c);
    }
  }

  // ---- Chains are logins ----

  predicate StoresLogin(s: State, a: Action) {
    a.Advance? && a.r in s.requests && s.requests[a.r].LoginSigned? &&
    StoreToken(s.tables, s.requests[a.r].userId, s.requests[a.r].minted, s.requests[a.r].expiresAt, a.newId).Some?
  }

  lemma LoginsAfter(s: State, a: Action)
    requires Enabled(s, a)
    ensures LoginsStored(Step(s, a).log) == LoginsStored(s.log) + if StoresLogin(s, a) then 1 else 0
  {
    var entries := EntriesOf(s, a);
    if entries == [] {
      assert s.log + [] == s.log;
    } else {
      LogAfter(s.log, entries[0]);
    }
  }

  /** What a step logs: at most one entry, and a login's exactly if one is stored. */
  lemma EntriesOf(s: State, a: Action) returns (entries: seq<Entry>)
    requires Enabled(s, a)
    ensures Step(s, a).log == s.log + entries
    ensures entries == [] || (exists e :: entries == [e] && (e.LoginStored? <==> StoresLogin(s, a)))
    ensures StoresLogin(s, a) ==> entries != []
  {
    if a.Advance? {
      entries := EntriesOfAdvance(s, a.r, a.newId, a.jti, a.lag);
    } else {
      entries := Step(s, a).log[|s.log|..];
      assert entries == [] || entries == [entries[0]];
    }
  }

  lemma EntriesOfAdvance(s: State, r: nat, newId: Id, jti: nat, lag: nat) returns (entries: seq<Entry>)
    requires r in s.requests
    ensures var a := Advance(r, newId, jti, lag);
            && Step(s, a).log == s.log + entries
            && (entries == [] || (exists e :: entries == [e] && (e.LoginStored? <==> StoresLogin(s, a))))
            && (StoresLogin(s, a) ==> entries != [])
  {
    var p := s.requests[r];
    var log := if p.LoginArrived? || p.LoginHasUser? || p.LoginSigned? then LoginStep(s, r, p, newId, jti, lag).log
               else if p.LogoutArrived? || p.LogoutFound? then LogoutStep(s, r, p).log
               else RefreshStep(s, r, p, newId, jti, lag).log;
    entries := log[|s.log|..];
    assert entries == [] || entries == [entries[0]];
  }

  lemma RootsAfter(s: State, a: Action, c: Chains)
    requires Rooted(s.tables, c) && Enabled(s, a)
    ensures Roots(ChainStep(s, a, c)) == if StoresLogin(s, a) then Roots(c) + {a.newId} else Roots(c)
    ensures StoresLogin(s, a) ==> a.newId !in Roots(c)
  {}

  /** What holds of the chains along a serial run. */
  ghost predicate ChainsOk(s: State, c: Chains) {
    Rooted(s.tables, c) && Single(s, c) && |Roots(c)| == LoginsStored(s.log)
  }

  lemma RootsAreCounted(s: State, a: Action, c: Chains)
    requires Rooted(s.tables, c) && Enabled(s, a) && |Roots(c)| == LoginsStored(s.log)
    ensures |Roots(ChainStep(s, a, c))| == LoginsStored(Step(s, a).log)
  {
    LoginsAfter(s, a);
    RootsAfter(s, a, c);
  }

  lemma ChainsStayOk(s: State, a: Action, c: Chains)
    requires Inv(s) && Alone(s) && ChainsOk(s, c) && Enabled(s, a)
    ensures ChainsOk(Step(s, a), ChainStep(s, a, c))
  {
    ChainStepKeeps(s, a, c);
    RootsAreCounted(s, a, c);
  }

  lemma {:induction false} ChainRun(s: State, c: Chains, actions: seq<Action>, s': State, c': Chains)
    requires Inv(s) && Alone(s) && ChainsOk(s, c) && LeadsSeriallyWith(s, c, actions, s', c')
    ensures ChainsOk(s', c')
    decreases |actions|
  {
    if actions != [] {
      StepKeeps(s, actions[0]);
      AloneSteps(s, actions[0]);
      ChainsStayOk(s, actions[0], c);
      ChainRun(Step(s, actions[0]), ChainStep(s, actions[0], c), actions[1..], s', c');
    }
  }

  /** The chains are as many as the logins, and every row's chain goes back to one's first row. */
  lemma ChainsAreLogins(actions: seq<Action>, s: State, c: Chains)
    requires LeadsSeriallyWith(Initial, NoChains, actions, s, c)
    ensures |Roots(c)| == LoginsStored(s.log)
    ensures forall id :: id in s.tables.tokens ==> id in c.of && c.of[id] in Roots(c)
  {
    assert Roots(NoChains) == {};
    ChainRun(Initial, NoChains, actions, s, c);
  }

  /**
   * Every row belongs to the chain of one login, and while no refresh is between insert
   * and revoke a chain has at most one unrevoked row, unless a refresh in it broke off there.
   */
  lemma OneTokenPerLogin(actions: seq<Action>, s: State, c: Chains, a: Id, b: Id)
    requires LeadsSeriallyWith(Initial, NoChains, actions, s, c)
    requires forall r :: r in s.requests ==> !s.requests[r].RefreshInserted?
    requires IsUnrevoked(s.tables, a) && IsUnrevoked(s.tables, b)
    ensures a in c.of && b in c.of
    ensures c.of[a] == c.of[b] && c.of[a] !in c.broken ==> a == b
  {
    assert Roots(NoChains) == {};
    ChainRun(Initial, NoChains, actions, s, c);
    assert !ArePair(s.tables, c, a, b);
  }
}
