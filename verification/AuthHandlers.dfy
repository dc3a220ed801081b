/**
 * The statements as methods on one database, and the three handlers run on their own
 * (apps/api/auth/refresh-token-model.ts, user-model.ts, service.ts, refresh.ts, logout.ts).
 * Ids, the clock, `jti` and the outcome of the signature check are inputs.
 */
module AuthHandlers {
  import opened Options
  import opened AuthTables
  import opened JwtExpiry

  datatype Answer = Granted(minted: Token) | Unauthenticated | ServerError

  /** What a request draws: its time, the `jti` it signs and the ids of the rows it inserts. */
  datatype Draw = Draw(now: int, jti: nat, userId: Id, rowId: Id)

  function MintedFor(userId: Id, d: Draw): Token {
    Token(userId, d.jti, ExpClaim(d.now))
  }

  /** A token stored and an active one revoked: one row for the other. */
  lemma TradeKeeps(t: Tables, userId: Id, token: Token, expiresAt: int, newId: Id, presented: Token, now: int)
    requires Consistent(t) && newId !in t.tokens && StoreToken(t, userId, token, expiresAt, newId).Some?
    requires FindActive(t, presented, now).Some?
    ensures var id := FindActive(t, presented, now).value;
            var t' := Revoke(StoreToken(t, userId, token, expiresAt, newId).value, id, None, now);
            && Consistent(t') && MayBecome(t, t')
            && Unrevoked(t') == Unrevoked(t) - {id} + {newId} && newId in t'.tokens
            && t'.tokens[newId] == TokenRow(userId, Sha256(token), expiresAt, None, None)
            && t'.users == t.users && t'.emailKeys == t.emailKeys
            && FindActive(t', presented, now).None?
  {
    var id := FindActive(t, presented, now).value;
    var mid := StoreToken(t, userId, token, expiresAt, newId).value;
    FindActiveFindsIt(t, presented, now);
    StoreKeeps(t, userId, token, expiresAt, newId);
    RevokeKeeps(mid, id, None, now);
    MayBecomeTransitive(t, mid, Revoke(mid, id, None, now));
  }

  /** The token and its row, drawn at `d`: both good for seven days, the row for its subject. */
  ghost predicate IsGoodForAWeek(minted: Token, tokens: map<Id, TokenRow>, d: Draw) {
    && minted.exp == d.now / 1_000_000 + 604_800
    && d.rowId in tokens
    && tokens[d.rowId] == TokenRow(minted.sub, Sha256(minted), (d.now / 1_000 + 604_800_000) * 1_000, None, None)
  }

  class AuthDatabase {
    var tables: Tables

    method UpsertUserFromProfile(p: Profile, newId: Id) returns (id: Id)
      modifies this
      ensures (tables, id) == UpsertUser(old(tables), p, newId)
    {
      var key := Lower(p.email);
      if key in tables.emailKeys && tables.emailKeys[key] in tables.users {
        id := tables.emailKeys[key];
        tables := tables.(users := tables.users[id := User(tables.users[id].email, p.name, p.roles)]);
      } else {
        id := newId;
        tables := tables.(users := tables.users[newId := User(p.email, p.name, p.roles)],
                          emailKeys := tables.emailKeys[key := newId]);
      }
    }

    /** False where the insert violates a constraint. */
    method StoreRefreshToken(userId: Id, token: Token, expiresAt: int, newId: Id) returns (ok: bool)
      modifies this
      ensures match StoreToken(old(tables), userId, token, expiresAt, newId)
              case None => !ok && tables == old(tables)
              case Some(t) => ok && tables == t
    {
      if Sha256(token) in tables.hashes || userId !in tables.users { return false; }
      tables := tables.(tokens := tables.tokens[newId := TokenRow(userId, Sha256(token), expiresAt, None, None)],
                        hashes := tables.hashes[Sha256(token) := newId]);
      return true;
    }

    method FindActiveRefreshToken(token: Token, now: int) returns (row: Option<Id>)
      ensures row == FindActive(tables, token, now)
    {
      var hash := Sha256(token);
      if hash !in tables.hashes || tables.hashes[hash] !in tables.tokens { return None; }
      var id := tables.hashes[hash];
      if tables.tokens[id].revokedAt.Some? || tables.tokens[id].expiresAt <= now { return None; }
      return Some(id);
    }

    method RevokeRefreshToken(id: Id, replacedBy: Option<Id>, now: int)
      modifies this
      ensures tables == Revoke(old(tables), id, replacedBy, now)
    {
      if IsUnrevoked(tables, id) {
        var row := tables.tokens[id].(revokedAt := Some(now), replacedBy := replacedBy);
        tables := tables.(tokens := tables.tokens[id := row]);
      }
    }

    method RevokeAllUserTokens(userId: Id, now: int)
      modifies this
      ensures tables == RevokeAll(old(tables), userId, now)
    {
      var rows := map id | id in tables.tokens ::
        var row := tables.tokens[id];
        if row.userId == userId && row.revokedAt.None? then row.(revokedAt := Some(now)) else row;
      tables := tables.(tokens := rows);
    }

    /** `issueTokenPair`: the refresh token signed and stored, or an error. */
    method IssueTokenPair(userId: Id, d: Draw) returns (minted: Option<Token>)
      modifies this
      ensures match StoreToken(old(tables), userId, MintedFor(userId, d), RowExpiry(d.now), d.rowId)
              case None => minted == None && tables == old(tables)
              case Some(t) => minted == Some(MintedFor(userId, d)) && tables == t
    {
      var token := MintedFor(userId, d);
      var ok := StoreRefreshToken(userId, token, RowExpiry(d.now), d.rowId);
      return if ok then Some(token) else None;
    }

    /**
     * A login: the email's one account takes name and roles from the profile, one token of
     * it that is good for seven days is stored, and nothing else is touched. The account is
     * there even where the token is refused because it is stored already.
     */
    method FinalizeLogin(p: Profile, d: Draw) returns (answer: Answer)
      requires Consistent(tables) && d.userId !in tables.users && d.rowId !in tables.tokens
      modifies this
      ensures Consistent(tables) && MayBecome(old(tables), tables)
      ensures Lower(p.email) in tables.emailKeys
      ensures var id := tables.emailKeys[Lower(p.email)];
              && OthersStay(old(tables).users, tables.users, id)
              && tables.users[id].name == p.name && tables.users[id].roles == p.roles
              && (id !in old(tables).users ==> id == d.userId && tables.users[id].email == p.email)
              && match answer
                 case Granted(minted) =>
                   && minted.sub == id && minted.jti == d.jti && IsGoodForAWeek(minted, tables.tokens, d)
                   && OthersStay(old(tables).tokens, tables.tokens, d.rowId)
                   && Unrevoked(tables) == Unrevoked(old(tables)) + {d.rowId}
                 case Unauthenticated => false
                 case ServerError =>
                   && tables.tokens == old(tables).tokens
                   && exists row :: row in tables.tokens && tables.tokens[row].hash == Sha256(MintedFor(id, d))
    {
      UpsertKeeps(tables, p, d.userId);
      ghost var before := tables;
      var id := UpsertUserFromProfile(p, d.userId);
      ghost var mid := tables;
      StoreIsRefused(mid, id, MintedFor(id, d), RowExpiry(d.now), d.rowId);
      var minted := IssueTokenPair(id, d);
      if minted.None? { return ServerError; }
      StoreKeeps(mid, id, minted.value, RowExpiry(d.now), d.rowId);
      MayBecomeTransitive(before, mid, tables);
      assert Unrevoked(mid) == Unrevoked(before);
      return Granted(minted.value);
    }

    /**
     * A refresh on its own: granted exactly when the token verifies, is active and its
     * user exists, and then the old token is traded for one new token of that user.
     */
    method Refresh(presented: Option<Token>, verifies: bool, d: Draw) returns (answer: Answer)
      requires Consistent(tables) && d.rowId !in tables.tokens
      modifies this
      ensures Consistent(tables) && MayBecome(old(tables), tables)
      ensures answer.Unauthenticated? <==>
              presented.None? || !verifies || FindActive(old(tables), presented.value, d.now).None?
              || presented.value.sub !in old(tables).users
      ensures !answer.Granted? ==> tables == old(tables)
      ensures answer.ServerError? ==>
                exists row :: row in tables.tokens && tables.tokens[row].hash == Sha256(MintedFor(presented.value.sub, d))
      ensures answer.Granted? ==>
                && answer.minted.sub == presented.value.sub && answer.minted.jti == d.jti
                && IsGoodForAWeek(answer.minted, tables.tokens, d)
                && tables.users == old(tables).users && tables.emailKeys == old(tables).emailKeys
                && FindActive(tables, presented.value, d.now).None?
                && Unrevoked(tables) ==
                   Unrevoked(old(tables)) - {FindActive(old(tables), presented.value, d.now).value} + {d.rowId}
    {
      if presented.None? { return Unauthenticated; }
      if !verifies { return Unauthenticated; }
      var userId := presented.value.sub;
      var active := FindActiveRefreshToken(presented.value, d.now);
      if active.None? { return Unauthenticated; }
      if userId !in tables.users { return Unauthenticated; }
      ghost var before := tables;
      StoreIsRefused(before, userId, MintedFor(userId, d), RowExpiry(d.now), d.rowId);
      var minted := IssueTokenPair(userId, d);
      if minted.None? { return ServerError; }
      TradeKeeps(before, userId, minted.value, RowExpiry(d.now), d.rowId, presented.value, d.now);
      RevokeRefreshToken(active.value, None, d.now);
      return Granted(minted.value);
    }

    /** A logout on its own: the presented token, if active, is the one row it revokes. */
    method Logout(presented: Option<Token>, now: int)
      requires Consistent(tables)
      modifies this
      ensures Consistent(tables) && MayBecome(old(tables), tables)
      ensures tables.users == old(tables).users && tables.emailKeys == old(tables).emailKeys
      ensures presented.Some? ==> FindActive(tables, presented.value, now).None?
      ensures Unrevoked(tables) == Unrevoked(old(tables)) -
              if presented.Some? && FindActive(old(tables), presented.value, now).Some?
              then {FindActive(old(tables), presented.value, now).value} else {}
    {
      if presented.Some? {
        var active := FindActiveRefreshToken(presented.value, now);
        if active.Some? {
          RevokeKeeps(tables, active.value, None, now);
          RevokeRefreshToken(active.value, None, now);
        }
      }
    }
  }
}
