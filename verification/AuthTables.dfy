/**
 * The tables behind login, refresh and logout, one function per SQL statement
 * (apps/api/auth/refresh-token-model.ts, apps/api/auth/user-model.ts,
 * apps/api/db/migrations/3_refresh_token.up.sql, .../6_user_account_email_text.up.sql).
 */
module AuthTables {
  import opened Options

  /** A row id; the database draws a fresh one for each row. */
  type Id = nat

  /** A signed refresh token: its subject, unique id and expiry in seconds. */
  datatype Token = Token(sub: Id, jti: nat, exp: int)

  /** SHA-256, taken to be injective. */
  datatype Hash = Sha256(token: Token)

  datatype Profile = Profile(email: string, name: string, roles: seq<string>)

  datatype User = User(email: string, name: string, roles: seq<string>)

  /** Times are microseconds, the resolution of TIMESTAMPTZ. */
  datatype TokenRow = TokenRow(
    userId: Id, hash: Hash, expiresAt: int, revokedAt: Option<int>, replacedBy: Option<Id>)

  /** `emailKeys` and `hashes` are the unique indexes on lower(email) and token_hash. */
  datatype Tables = Tables(
    users: map<Id, User>, emailKeys: map<string, Id>,
    tokens: map<Id, TokenRow>, hashes: map<Hash, Id>)

  function Lower(s: string): string {
    seq(|s|, i requires 0 <= i < |s| => if 'A' <= s[i] <= 'Z' then (s[i] as int + 32) as char else s[i])
  }

  predicate IsCasePair(upper: char, lower: char) {
    'A' <= upper <= 'Z' && lower as int == upper as int + 32
  }

  predicate SameIgnoringCase(a: string, b: string) {
    |a| == |b| &&
    forall i :: 0 <= i < |a| ==> a[i] == b[i] || IsCasePair(a[i], b[i]) || IsCasePair(b[i], a[i])
  }

  lemma LowerMeans(a: string, b: string)
    ensures Lower(a) == Lower(b) <==> SameIgnoringCase(a, b)
  {
    if Lower(a) == Lower(b) {
      forall i | 0 <= i < |a| ensures a[i] == b[i] || IsCasePair(a[i], b[i]) || IsCasePair(b[i], a[i]) {
        assert |a| == |Lower(a)| == |Lower(b)| == |b| && Lower(a)[i] == Lower(b)[i];
      }
    }
    if SameIgnoringCase(a, b) { assert Lower(a) == Lower(b); }
  }

  // ---- The statements ----

  /** INSERT INTO user_account ... ON CONFLICT (lower(email)) DO UPDATE: the row's id, the email kept. */
  function UpsertUser(t: Tables, p: Profile, newId: Id): (Tables, Id) {
    var key := Lower(p.email);
    if key in t.emailKeys && t.emailKeys[key] in t.users then
      var id := t.emailKeys[key];
      (t.(users := t.users[id := User(t.users[id].email, p.name, p.roles)]), id)
    else
      (t.(users := t.users[newId := User(p.email, p.name, p.roles)], emailKeys := t.emailKeys[key := newId]), newId)
  }

  /** INSERT INTO refresh_token: fails on a duplicate hash or an unknown user. */
  function StoreToken(t: Tables, userId: Id, token: Token, expiresAt: int, newId: Id): Option<Tables> {
    if Sha256(token) in t.hashes || userId !in t.users then None
    else
      Some(t.(tokens := t.tokens[newId := TokenRow(userId, Sha256(token), expiresAt, None, None)],
              hashes := t.hashes[Sha256(token) := newId]))
  }

  /** SELECT id ... WHERE token_hash = ... AND revoked_at IS NULL AND expires_at > now() */
  function FindActive(t: Tables, token: Token, now: int): Option<Id> {
    if Sha256(token) in t.hashes && t.hashes[Sha256(token)] in t.tokens then
      var row := t.tokens[t.hashes[Sha256(token)]];
      if row.revokedAt.None? && row.expiresAt > now then Some(t.hashes[Sha256(token)]) else None
    else None
  }

  predicate IsUnrevoked(t: Tables, id: Id) {
    id in t.tokens && t.tokens[id].revokedAt.None?
  }

  /** UPDATE refresh_token SET revoked_at, replaced_by WHERE id = ... AND revoked_at IS NULL */
  function Revoke(t: Tables, id: Id, replacedBy: Option<Id>, now: int): Tables {
    if IsUnrevoked(t, id) then
      t.(tokens := t.tokens[id := t.tokens[id].(revokedAt := Some(now), replacedBy := replacedBy)])
    else t
  }

  /** UPDATE refresh_token SET revoked_at WHERE user_id = ... AND revoked_at IS NULL */
  function RevokeAll(t: Tables, userId: Id, now: int): Tables {
    t.(tokens := map id | id in t.tokens ::
         if t.tokens[id].userId == userId && t.tokens[id].revokedAt.None?
         then t.tokens[id].(revokedAt := Some(now)) else t.tokens[id])
  }

  ghost function Unrevoked(t: Tables): set<Id> {
    set id | id in t.tokens && t.tokens[id].revokedAt.None?
  }

  // ---- What every statement keeps ----

  /** One account per lower-cased email. */
  ghost predicate UsersIndexed(users: map<Id, User>, emailKeys: map<string, Id>) {
    && (forall key :: key in emailKeys ==> emailKeys[key] in users && Lower(users[emailKeys[key]].email) == key)
    && (forall id :: id in users ==> Lower(users[id].email) in emailKeys && emailKeys[Lower(users[id].email)] == id)
  }

  /** One row per token. */
  ghost predicate TokensIndexed(tokens: map<Id, TokenRow>, hashes: map<Hash, Id>) {
    && (forall h :: h in hashes ==> hashes[h] in tokens && tokens[hashes[h]].hash == h)
    && (forall id :: id in tokens ==> tokens[id].hash in hashes && hashes[tokens[id].hash] == id)
  }

  ghost predicate Owned(tokens: map<Id, TokenRow>, users: map<Id, User>) {
    forall id :: id in tokens ==> tokens[id].userId in users
  }

  /** The indexes name exactly the rows, no key twice, and every token row has its user. */
  ghost predicate Consistent(t: Tables) {
    UsersIndexed(t.users, t.emailKeys) && TokensIndexed(t.tokens, t.hashes) && Owned(t.tokens, t.users)
  }

  /** How a row may change: once revoked never, before that only by being revoked. */
  predicate RowMayBecome(before: TokenRow, after: TokenRow) {
    && (before.revokedAt.Some? ==> after == before)
    && after.userId == before.userId && after.hash == before.hash && after.expiresAt == before.expiresAt
  }

  ghost predicate RowsMayBecome(tokens: map<Id, TokenRow>, tokens': map<Id, TokenRow>) {
    forall id :: id in tokens ==> id in tokens' && RowMayBecome(tokens[id], tokens'[id])
  }

  ghost predicate Extends<K, V>(m: map<K, V>, m': map<K, V>) {
    forall k :: k in m ==> k in m' && m'[k] == m[k]
  }

  /** The map has changed at `k` at most. */
  ghost predicate OthersStay<K, V>(m: map<K, V>, m': map<K, V>, k: K) {
    m'.Keys == m.Keys + {k} && forall x :: x in m && x != k ==> m'[x] == m[x]
  }

  ghost predicate SameEmails(users: map<Id, User>, users': map<Id, User>) {
    forall id :: id in users ==> id in users' && users'[id].email == users[id].email
  }

  /** Rows and users never go away, revocations are final, a user keeps its email and an email its user. */
  ghost predicate MayBecome(t: Tables, t': Tables) {
    && RowsMayBecome(t.tokens, t'.tokens) && Extends(t.hashes, t'.hashes)
    && SameEmails(t.users, t'.users) && Extends(t.emailKeys, t'.emailKeys)
  }

  lemma MayBecomeTransitive(a: Tables, b: Tables, c: Tables)
    requires MayBecome(a, b) && MayBecome(b, c)
    ensures MayBecome(a, c)
  {}

  /**
   * The email's one account takes name and roles from the profile, and no other account
   * changes; where the email is new, so is the account, with the email as it was given.
   */
  lemma UpsertKeeps(t: Tables, p: Profile, newId: Id)
    requires Consistent(t) && newId !in t.users
    ensures var (t', id) := UpsertUser(t, p, newId);
            && Consistent(t') && MayBecome(t, t')
            && OthersStay(t.users, t'.users, id) && OthersStay(t.emailKeys, t'.emailKeys, Lower(p.email))
            && Lower(t'.users[id].email) == Lower(p.email)
            && t'.users[id].name == p.name && t'.users[id].roles == p.roles
            && (id !in t.users ==> id == newId && t'.users[id].email == p.email)
            && t'.tokens == t.tokens && t'.hashes == t.hashes
  {
    var (t', id) := UpsertUser(t, p, newId);
    var key := Lower(p.email);
    if key in t.emailKeys {
      assert Lower(t'.users[id].email) == Lower(t.users[id].email) == key;
      assert SameEmails(t.users, t'.users);
      assert UsersIndexed(t'.users, t'.emailKeys);
    } else {
      assert Lower(t'.users[newId].email) == key;
      forall k | k in t.emailKeys ensures t.emailKeys[k] != newId {}
      forall u | u in t.users ensures Lower(t.users[u].email) != key {}
      assert UsersIndexed(t'.users, t'.emailKeys);
    }
    assert Owned(t'.tokens, t'.users);
  }

  lemma StoreKeeps(t: Tables, userId: Id, token: Token, expiresAt: int, newId: Id)
    requires Consistent(t) && newId !in t.tokens && StoreToken(t, userId, token, expiresAt, newId).Some?
    ensures var t' := StoreToken(t, userId, token, expiresAt, newId).value;
            && Consistent(t') && MayBecome(t, t')
            && Unrevoked(t') == Unrevoked(t) + {newId} && newId !in Unrevoked(t)
            && OthersStay(t.tokens, t'.tokens, newId) && OthersStay(t.hashes, t'.hashes, Sha256(token))
            && t'.tokens[newId].userId == userId && t'.tokens[newId].hash == Sha256(token)
            && t'.tokens[newId].expiresAt == expiresAt && t'.tokens[newId].replacedBy.None?
            && t'.users == t.users && t'.emailKeys == t.emailKeys
  {
    StoreKeepsTables(t, userId, token, expiresAt, newId);
  }

  lemma StoreKeepsTables(t: Tables, userId: Id, token: Token, expiresAt: int, newId: Id)
    requires Consistent(t) && newId !in t.tokens && StoreToken(t, userId, token, expiresAt, newId).Some?
    ensures var t' := StoreToken(t, userId, token, expiresAt, newId).value; Consistent(t') && MayBecome(t, t')
  {}

  /** The insert fails exactly on a token that is stored already or a user that is not. */
  lemma StoreIsRefused(t: Tables, userId: Id, token: Token, expiresAt: int, newId: Id)
    requires Consistent(t)
    ensures StoreToken(t, userId, token, expiresAt, newId).None? <==>
            userId !in t.users || exists id :: id in t.tokens && t.tokens[id].hash == Sha256(token)
  {
    if Sha256(token) in t.hashes { assert t.tokens[t.hashes[Sha256(token)]].hash == Sha256(token); }
  }

  lemma RowReplaced(t: Tables, id: Id, row: TokenRow)
    requires Consistent(t) && id in t.tokens && RowMayBecome(t.tokens[id], row)
    ensures var t' := t.(tokens := t.tokens[id := row]); Consistent(t') && MayBecome(t, t')
  {}

  lemma RevokeKeeps(t: Tables, id: Id, replacedBy: Option<Id>, now: int)
    requires Consistent(t)
    ensures var t' := Revoke(t, id, replacedBy, now);
            && Consistent(t') && MayBecome(t, t')
            && Unrevoked(t') == Unrevoked(t) - {id}
            && (id in t.tokens ==> t'.tokens[id].revokedAt.Some?)
            && (IsUnrevoked(t, id) ==> t'.tokens[id].revokedAt == Some(now) && t'.tokens[id].replacedBy == replacedBy)
            && t'.tokens.Keys == t.tokens.Keys && (forall x :: x in t.tokens && x != id ==> t'.tokens[x] == t.tokens[x])
            && t'.users == t.users && t'.hashes == t.hashes && t'.emailKeys == t.emailKeys
  {
    if IsUnrevoked(t, id) {
      RowReplaced(t, id, t.tokens[id].(revokedAt := Some(now), replacedBy := replacedBy));
    }
  }

  lemma RevokeAllKeeps(t: Tables, userId: Id, now: int)
    requires Consistent(t)
    ensures var t' := RevokeAll(t, userId, now);
            && Consistent(t') && MayBecome(t, t')
            && Unrevoked(t') == (set id | id in Unrevoked(t) && t.tokens[id].userId != userId)
            && t'.tokens.Keys == t.tokens.Keys
            && (forall id :: id in t.tokens && id !in Unrevoked(t) - Unrevoked(t') ==> t'.tokens[id] == t.tokens[id])
            && (forall id :: id in Unrevoked(t) - Unrevoked(t') ==>
                  t'.tokens[id].revokedAt == Some(now) && t'.tokens[id].replacedBy == t.tokens[id].replacedBy)
            && t'.users == t.users && t'.hashes == t.hashes && t'.emailKeys == t.emailKeys
  {}

  /** A stored token is found until it is revoked or expires, and no other token is found. */
  lemma FindActiveFindsIt(t: Tables, token: Token, now: int)
    requires Consistent(t)
    ensures match FindActive(t, token, now)
            case Some(id) => id in Unrevoked(t) && t.tokens[id].hash == Sha256(token) && t.tokens[id].expiresAt > now
            case None => forall id :: id in Unrevoked(t) && t.tokens[id].hash == Sha256(token) ==> t.tokens[id].expiresAt <= now
  {}
}
