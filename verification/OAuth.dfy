/** The token store: authorization codes, token pairs, rotation (RFC 6749, sections 4.1.2, 4.1.3 and 6). */
module OAuth {
  import opened Text
  import opened Scopes

  // ----- tables -------------------------------------------------------------

  datatype Client = Client(secretHash: string, redirects: string, scopes: string)

  datatype Code = Code(clientId: string, userId: string, redirectUri: string, scope: string, state: string,
                       createdAt: int, expiresAt: int, consumedAt: Option<int>)

  datatype Token = Token(refreshHash: Option<string>, clientId: string, userId: string, scope: string,
                         createdAt: int, accessExpiresAt: int, refreshExpiresAt: Option<int>,
                         revokedAt: Option<int>)

  /** Clients by id, codes by code hash, tokens by access-token hash. */
  datatype Db = Db(clients: map<string, Client>, codes: map<string, Code>, tokens: map<string, Token>)

  const EMPTY_DB := Db(map[], map[], map[])

  /** Constraints of the schema that an insert can break; the statement then changes nothing. */
  datatype DbError = NoSuchClient | DuplicateKey

  /** The two tokens of a pair as the caller gets them, by hash. */
  datatype Pair = Pair(accessHash: string, refreshHash: Option<string>, scope: string)

  predicate HoldsRefresh(db: Db, key: string, refreshHash: string) {
    key in db.tokens && db.tokens[key].refreshHash == Some(refreshHash)
  }

  predicate RefreshInUse(db: Db, refreshHash: string) {
    exists k | k in db.tokens :: HoldsRefresh(db, k, refreshHash)
  }

  /** The unique index on refresh hashes. */
  ghost predicate UniqueRefresh(db: Db) {
    forall k, l, h :: HoldsRefresh(db, k, h) && HoldsRefresh(db, l, h) ==> k == l
  }

  // ----- what each operation does to the tables ------------------------------

  function DoUpsertClient(db: Db, clientId: string, secretHash: string, redirects: seq<string>,
                          scopes: seq<string>): Db {
    db.(clients := db.clients[clientId :=
      Client(secretHash, JoinWith(redirects, '\n'), NormalizeScope(JoinWith(scopes, ' ')))])
  }

  function DoIssueCode(db: Db, codeHash: string, clientId: string, userId: string, redirectUri: string,
                       scope: string, state: string, now: int, ttl: int): Result<Db, DbError> {
    if clientId !in db.clients then Err(NoSuchClient)
    else if codeHash in db.codes then Err(DuplicateKey)
    else Ok(db.(codes := db.codes[codeHash :=
      Code(clientId, userId, redirectUri, NormalizeScope(scope), state, now, now + ttl, None)]))
  }

  /** A zero or negative expiry never expires. */
  predicate IsExpired(epoch: int, now: int) {
    epoch > 0 && epoch <= now
  }

  predicate Redeemable(db: Db, codeHash: string, clientId: string, redirectUri: string, now: int) {
    && codeHash in db.codes
    && var c := db.codes[codeHash];
       c.clientId == clientId && c.redirectUri == redirectUri && !IsExpired(c.expiresAt, now) && c.consumedAt == None
  }

  function DoConsumeCode(db: Db, codeHash: string, clientId: string, redirectUri: string, now: int): (Db, Option<Code>) {
    if Redeemable(db, codeHash, clientId, redirectUri, now)
    then (db.(codes := db.codes[codeHash := db.codes[codeHash].(consumedAt := Some(now))]), Some(db.codes[codeHash]))
    else (db, None)
  }

  /** A time to live that is absent or not positive means no refresh token. */
  predicate WantsRefresh(refreshTtl: Option<int>) {
    refreshTtl.Some? && refreshTtl.value > 0
  }

  function InsertToken(db: Db, accessHash: string, t: Token): Result<Db, DbError> {
    if t.clientId !in db.clients then Err(NoSuchClient)
    else if accessHash in db.tokens || (t.refreshHash.Some? && RefreshInUse(db, t.refreshHash.value))
    then Err(DuplicateKey)
    else Ok(db.(tokens := db.tokens[accessHash := t]))
  }

  function NewToken(clientId: string, userId: string, scope: string, refreshHash: Option<string>, now: int,
                    accessTtl: int, refreshTtl: int): Token {
    Token(refreshHash, clientId, userId, NormalizeScope(scope), now, now + accessTtl,
          if refreshHash.Some? then Some(now + refreshTtl) else None, None)
  }

  function DoIssueTokens(db: Db, accessHash: string, refreshHash: string, clientId: string, userId: string,
                         scope: string, now: int, accessTtl: int, refreshTtl: Option<int>): Result<Db, DbError> {
    var refresh := if WantsRefresh(refreshTtl) then Some(refreshHash) else None;
    InsertToken(db, accessHash,
                NewToken(clientId, userId, scope, refresh, now, accessTtl,
                         if refreshTtl.Some? then refreshTtl.value else 0))
  }

  predicate Rotatable(db: Db, key: string, refreshHash: string, now: int, refreshTtl: Option<int>) {
    && HoldsRefresh(db, key, refreshHash)
    && var t := db.tokens[key];
       t.revokedAt == None && (t.refreshExpiresAt.Some? ==> t.refreshExpiresAt.value > now) && WantsRefresh(refreshTtl)
  }

  /** Rotation of the row `key`: revoke it and insert its successor; a failing insert rolls both back. */
  function DoRotate(db: Db, key: string, accessHash: string, newRefresh: string, now: int, accessTtl: int,
                    refreshTtl: int): Result<Db, DbError>
    requires key in db.tokens
  {
    var t := db.tokens[key];
    var revoked := db.(tokens := db.tokens[key := t.(revokedAt := Some(now))]);
    InsertToken(revoked, accessHash,
                NewToken(t.clientId, t.userId, t.scope, Some(newRefresh), now, accessTtl, refreshTtl))
  }

  function DoFindAccess(db: Db, accessHash: string, now: int): Option<Token> {
    if accessHash in db.tokens && db.tokens[accessHash].revokedAt == None && db.tokens[accessHash].accessExpiresAt > now
    then Some(db.tokens[accessHash]) else None
  }

  // ----- the store ----------------------------------------------------------

  /** Hashes of codes and tokens are parameters: the generator and the hash are outside the model. */
  class OAuthStore {
    var clients: map<string, Client>
    var codes: map<string, Code>
    var tokens: map<string, Token>

    ghost function Abs(): Db
      reads this
    {
      Db(clients, codes, tokens)
    }

    /** The unique index holds. */
    ghost predicate Valid()
      reads this
    {
      UniqueRefresh(Abs())
    }

    constructor ()
      ensures Valid() && Abs() == EMPTY_DB
    {
      clients, codes, tokens := map[], map[], map[];
    }

    method UpsertClient(clientId: string, secretHash: string, redirects: seq<string>, scopes: seq<string>)
      modifies this`clients
      ensures Abs() == DoUpsertClient(old(Abs()), clientId, secretHash, redirects, scopes)
    {
      var scopesBlob := NormalizeScope(JoinWith(scopes, ' '));
      clients := clients[clientId := Client(secretHash, JoinWith(redirects, '\n'), scopesBlob)];
    }

    /** The stored lists, split again; `None` for an unknown client. */
    method GetClient(clientId: string) returns (r: Option<(seq<string>, seq<string>)>)
      ensures r == if clientId in clients
                   then Some((Tokens(clients[clientId].redirects, '\n'), Tokens(clients[clientId].scopes, ' ')))
                   else None
    {
      if clientId !in clients {
        return None;
      }
      var redirects := SplitLoop(clients[clientId].redirects, '\n');
      var scopes := SplitLoop(clients[clientId].scopes, ' ');
      r := Some((redirects, scopes));
    }

    method IssueAuthorizationCode(codeHash: string, clientId: string, userId: string, redirectUri: string,
                                  scope: string, state: string, now: int, ttl: int) returns (error: Option<DbError>)
      modifies this`codes
      ensures var r := DoIssueCode(old(Abs()), codeHash, clientId, userId, redirectUri, scope, state, now, ttl);
              if error == None then r == Ok(Abs()) else r == Err(error.value) && Abs() == old(Abs())
    {
      if clientId !in clients {
        return Some(NoSuchClient);
      }
      if codeHash in codes {
        return Some(DuplicateKey);
      }
      codes := codes[codeHash := Code(clientId, userId, redirectUri, NormalizeScope(scope), state, now, now + ttl, None)];
      return None;
    }

    method ConsumeAuthorizationCode(codeHash: string, clientId: string, redirectUri: string, now: int)
      returns (r: Option<Code>)
      modifies this`codes
      ensures (Abs(), r) == DoConsumeCode(old(Abs()), codeHash, clientId, redirectUri, now)
    {
      if codeHash !in codes {
        return None;
      }
      var c := codes[codeHash];
      if c.clientId != clientId || c.redirectUri != redirectUri || IsExpired(c.expiresAt, now) || c.consumedAt.Some? {
        return None;
      }
      codes := codes[codeHash := c.(consumedAt := Some(now))];
      return Some(c);
    }

    method IssueTokens(accessHash: string, refreshHash: string, clientId: string, userId: string, scope: string,
                       now: int, accessTtl: int, refreshTtl: Option<int>) returns (r: Result<Pair, DbError>)
      requires Valid()
      modifies this`tokens
      ensures Valid()
      ensures var d := DoIssueTokens(old(Abs()), accessHash, refreshHash, clientId, userId, scope, now, accessTtl, refreshTtl);
              match r
              case Ok(p) => d == Ok(Abs()) && p == Pair(accessHash, Abs().tokens[accessHash].refreshHash, NormalizeScope(scope))
                            && accessHash in Abs().tokens
              case Err(e) => d == Err(e) && Abs() == old(Abs())
    {
      var refresh := if WantsRefresh(refreshTtl) then Some(refreshHash) else None;
      if clientId !in clients {
        return Err(NoSuchClient);
      }
      if accessHash in tokens || (refresh.Some? && exists k | k in tokens :: tokens[k].refreshHash == refresh) {
        return Err(DuplicateKey);
      }
      ghost var before := Abs();
      tokens := tokens[accessHash := NewToken(clientId, userId, scope, refresh, now, accessTtl,
                                              if refreshTtl.Some? then refreshTtl.value else 0)];
      InsertKeepsUnique(before, accessHash, tokens[accessHash], Abs());
      r := Ok(Pair(accessHash, refresh, NormalizeScope(scope)));
    }

    method FindAccessToken(accessHash: string, now: int) returns (r: Option<Token>)
      ensures r == DoFindAccess(Abs(), accessHash, now)
    {
      if accessHash !in tokens {
        return None;
      }
      if tokens[accessHash].revokedAt.Some? || tokens[accessHash].accessExpiresAt <= now {
        return None;
      }
      r := Some(tokens[accessHash]);
    }

    /** Rotation. `key` tells which row was rotated; an error leaves the tables as they were. */
    method RotateRefreshToken(refreshHash: string, accessHash: string, newRefresh: string, now: int, accessTtl: int,
                              refreshTtl: Option<int>)
      returns (r: Result<Option<Pair>, DbError>, ghost key: string)
      requires Valid()
      modifies this`tokens
      ensures Valid()
      ensures r == Ok(None) ==> Abs() == old(Abs()) && forall k :: !Rotatable(old(Abs()), k, refreshHash, now, refreshTtl)
      ensures r != Ok(None) ==> Rotatable(old(Abs()), key, refreshHash, now, refreshTtl)
      ensures r.Err? ==> (
        && Abs() == old(Abs()) && key in old(Abs()).tokens
        && DoRotate(old(Abs()), key, accessHash, newRefresh, now, accessTtl, refreshTtl.value) == Err(r.error))
      ensures r.Ok? && r.value.Some? ==> (
        && key in old(Abs()).tokens && accessHash in Abs().tokens
        && DoRotate(old(Abs()), key, accessHash, newRefresh, now, accessTtl, refreshTtl.value) == Ok(Abs())
        && r.value.value == Pair(accessHash, Some(newRefresh), Abs().tokens[accessHash].scope))
    {
      key := "";
      ghost var before := Abs();
      if !exists k | k in tokens :: tokens[k].refreshHash == Some(refreshHash) {
        return Ok(None), key;
      }
      var k :| k in tokens && tokens[k].refreshHash == Some(refreshHash);
      var t := tokens[k];
      assert HoldsRefresh(before, k, refreshHash);
      if t.revokedAt.Some? || (t.refreshExpiresAt.Some? && t.refreshExpiresAt.value <= now) || !WantsRefresh(refreshTtl) {
        return Ok(None), key;
      }
      key := k;
      var revoked := tokens[k := t.(revokedAt := Some(now))];
      if t.clientId !in clients {
        return Err(NoSuchClient), key;
      }
      ghost var middle := before.(tokens := revoked);
      RevocationKeepsHashes(before, middle, k);
      if accessHash in revoked || exists l | l in revoked :: revoked[l].refreshHash == Some(newRefresh) {
        return Err(DuplicateKey), key;
      }
      tokens := revoked[accessHash := NewToken(t.clientId, t.userId, t.scope, Some(newRefresh), now, accessTtl,
                                               refreshTtl.value)];
      InsertKeepsUnique(middle, accessHash, tokens[accessHash], Abs());
      r := Ok(Some(Pair(accessHash, Some(newRefresh), NormalizeScope(t.scope))));
    }
  }

  lemma RevocationKeepsHashes(before: Db, after: Db, key: string)
    requires key in before.tokens && after.clients == before.clients && after.codes == before.codes
    requires exists at :: after.tokens == before.tokens[key := before.tokens[key].(revokedAt := at)]
    ensures forall k, h :: HoldsRefresh(after, k, h) <==> HoldsRefresh(before, k, h)
    ensures UniqueRefresh(before) ==> UniqueRefresh(after)
  {
  }

  /** A successful insert respects the unique index. */
  lemma InsertKeepsUnique(before: Db, accessHash: string, t: Token, after: Db)
    requires UniqueRefresh(before) && InsertToken(before, accessHash, t) == Ok(after)
    ensures UniqueRefresh(after)
  {
    forall k, l, h | HoldsRefresh(after, k, h) && HoldsRefresh(after, l, h) ensures k == l {
      assert k != accessHash ==> HoldsRefresh(before, k, h);
      assert l != accessHash ==> HoldsRefresh(before, l, h);
    }
  }
}
