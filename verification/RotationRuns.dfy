/** What holds in every interleaving of logins, refreshes, logouts and revocations. */
module RotationRuns {
  import opened Options
  import opened AuthTables
  import opened JwtExpiry
  import opened Rotation

  ghost predicate Reachable(s: State) {
    exists actions :: Leads(Initial, actions, s)
  }

  lemma {:induction false} LeadsOneMore(s: State, actions: seq<Action>, s': State, a: Action)
    requires Leads(s, actions, s') && Enabled(s', a)
    ensures Leads(s, actions + [a], Step(s', a))
    decreases |actions|
  {
    if actions == [] {
      assert [a][1..] == [];
      assert Leads(Step(s', a), [], Step(s', a));
    } else {
      LeadsOneMore(Step(s, actions[0]), actions[1..], s', a);
      assert (actions + [a])[1..] == actions[1..] + [a];
    }
  }

  lemma ReachOneMore(s: State, a: Action)
    requires Reachable(s) && Enabled(s, a)
    ensures Reachable(Step(s, a))
  {
    var actions :| Leads(Initial, actions, s);
    LeadsOneMore(Initial, actions, s, a);
  }

  lemma ReachableKeeps(s: State)
    requires Reachable(s)
    ensures Inv(s)
  {
    var actions :| Leads(Initial, actions, s);
    RunKeeps(Initial, actions, s);
  }

  /** Unrevoked tokens are conserved. */
  lemma Conservation(s: State)
    requires Reachable(s)
    ensures |Unrevoked(s.tables)| == LoginsStored(s.log) + |Between(s.requests)|
                                     + Revocations(s.log, false) - RowsLoggedOut(s.log)
    ensures RefreshesStored(s.log) == |Between(s.requests)| + Revocations(s.log, true) + Revocations(s.log, false)
  {
    ReachableKeeps(s);
  }

  /** A revoked row never changes again, and no row is ever linked to a replacement. */
  lemma RevocationIsFinal(s: State, actions: seq<Action>, s': State, id: Id)
    requires Reachable(s) && Leads(s, actions, s') && id in s.tables.tokens
    ensures id in s'.tables.tokens && s'.tables.tokens[id].replacedBy.None?
    ensures s.tables.tokens[id].revokedAt.Some? ==> s'.tables.tokens[id] == s.tables.tokens[id]
  {
    ReachableKeeps(s);
    RunKeeps(s, actions, s');
  }

  /** The row holding a token's hash. */
  function RowFor(t: Tables, token: Token): Option<TokenRow> {
    if Sha256(token) in t.hashes && t.hashes[Sha256(token)] in t.tokens
    then Some(t.tokens[t.hashes[Sha256(token)]])
    else None
  }

  lemma SpentStaysSpent(t: Tables, t': Tables, presented: Token, now: int)
    requires IsSpent(t, presented) && MayBecome(t, t')
    ensures FindActive(t', presented, now) == None
  {}

  lemma SpentAndLater(s: State, actions: seq<Action>, s': State, r: nat)
    requires Reachable(s) && Leads(s, actions, s') && r in s.requests && s.requests[r].RefreshAnswered?
    ensures IsSpent(s.tables, s.requests[r].presented) && MayBecome(s.tables, s'.tables)
  {
    ReachableKeeps(s);
    RunKeeps(s, actions, s');
    assert PhaseOk(s.tables, s.minted, s.requests[r]);
  }

  /** Once a refresh of a token has been answered, every lookup of that token from then on is refused. */
  lemma SpentTokenIsRefused(s: State, actions: seq<Action>, s': State, r: nat, q: nat, presented: Token)
    requires Reachable(s) && Leads(s, actions, s')
    requires r in s.requests && s.requests[r].RefreshAnswered? && s.requests[r].presented == presented
    requires q in s'.requests && s'.requests[q].RefreshVerified? && s'.requests[q].presented == presented
    ensures forall newId, jti, lag ::
              Step(s', Advance(q, newId, jti, lag)) == To(s', q, RefreshDenied(presented))
  {
    SpentAndLater(s, actions, s', r);
    SpentStaysSpent(s.tables, s'.tables, presented, s'.now);
  }

  /** The new token of an answered refresh belongs to the user of the old one, and that user exists. */
  lemma RotationStaysWithUser(s: State, r: nat)
    requires Reachable(s) && r in s.requests && s.requests[r].RefreshAnswered?
    ensures var before, after := RowFor(s.tables, s.requests[r].presented), RowFor(s.tables, s.requests[r].minted);
            && before.Some? && before.value.revokedAt.Some?
            && after.Some? && after.value.userId == before.value.userId
            && before.value.userId in s.tables.users
            && s.requests[r].presented.sub == s.requests[r].minted.sub == before.value.userId
  {
    ReachableKeeps(s);
    assert PhaseOk(s.tables, s.minted, s.requests[r]);
  }

  /** While the signature check accepts a stored token, its row is its subject's and is unexpired. */
  lemma AcceptedTokenHasLiveRow(s: State, token: Token)
    requires Reachable(s) && Accepts(token.exp, s.now) && RowFor(s.tables, token).Some?
    ensures var row := RowFor(s.tables, token).value;
            && row.userId == token.sub && token.sub in s.tables.users && row.expiresAt > s.now
            && token in s.minted
  {
    ReachableKeeps(s);
  }

  /** Two accounts never have emails that differ in case only, and an email keeps its account for good. */
  lemma OneAccountPerEmail(s: State, actions: seq<Action>, s': State, a: Id, b: Id)
    requires Reachable(s) && Leads(s, actions, s') && a in s.tables.users && b in s'.tables.users
    ensures a in s'.tables.users && s'.tables.users[a].email == s.tables.users[a].email
    ensures SameIgnoringCase(s.tables.users[a].email, s'.tables.users[b].email) ==> a == b
  {
    LowerMeans(s.tables.users[a].email, s'.tables.users[b].email);
    ReachableKeeps(s);
    RunKeeps(s, actions, s');
  }
}
