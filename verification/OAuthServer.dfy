/** The authorize, token and bearer checks over the token store, and the scopes they can ever let through. */
module OAuthServer {
  import opened Text
  import opened Scopes
  import opened OAuth
  import opened OAuthRuns

  // ----- requests -----------------------------------------------------------

  /** Requests that reach the store. `redirectOk` is the outcome of the redirect checks, which are not modelled. */
  datatype Request =
    | Upsert(clientId: string, secretHash: string, redirects: seq<string>, scopes: seq<string>, now: int)
    | Authorize(clientId: string, redirectUri: string, redirectOk: bool, scope: string, state: string, userId: string,
                codeHash: string, now: int, ttl: int)
    | Exchange(clientId: string, codeHash: string, redirectUri: string, now: int, accessHash: string,
               refreshHash: string, issuedAt: int, accessTtl: int, refreshTtl: Option<int>)
    | Refresh(clientId: string, key: string, refreshHash: string, accessHash: string, newRefresh: string, now: int,
              accessTtl: int, refreshTtl: Option<int>)

  /** The client's scope list as the store gives it back. */
  function AllowedScopes(db: Db, clientId: string): seq<string>
    requires clientId in db.clients
  {
    Tokens(db.clients[clientId].scopes, ' ')
  }

  /** An empty scope parameter asks for everything the client may have. */
  function EffectiveScope(requested: string, allowed: seq<string>): string {
    if requested == "" then JoinWith(allowed, ' ') else requested
  }

  const MAX_PARAM_LENGTH := 4096

  /** Parameters that are present where they must be, and not too long. */
  predicate FitsLimits(r: Request)
    requires r.Authorize?
  {
    0 < |r.clientId| <= MAX_PARAM_LENGTH && |r.scope| <= MAX_PARAM_LENGTH && |r.state| <= MAX_PARAM_LENGTH
  }

  predicate MayAuthorize(db: Db, r: Request)
    requires r.Authorize?
  {
    && FitsLimits(r) && r.clientId in db.clients && r.redirectOk && r.state != ""
    && var allowed := AllowedScopes(db, r.clientId);
       IsScopeSubset(EffectiveScope(r.scope, allowed), allowed)
  }

  function Grant(db: Db, r: Request): Op
    requires r.Authorize? && r.clientId in db.clients
  {
    IssueCodeOp(r.codeHash, r.clientId, r.userId, r.redirectUri,
                EffectiveScope(r.scope, AllowedScopes(db, r.clientId)), r.state, r.now, r.ttl)
  }

  function Redemption(r: Request): Op
    requires r.Exchange?
  {
    ConsumeOp(r.codeHash, r.clientId, r.redirectUri, r.now)
  }

  function Issue(r: Request, c: Code): Op
    requires r.Exchange?
  {
    IssueTokensOp(r.accessHash, r.refreshHash, r.clientId, c.userId, c.scope, r.issuedAt, r.accessTtl, r.refreshTtl)
  }

  /** The store operations one request performs, in order. */
  function Operations(db: Db, r: Request): seq<Op> {
    match r
    case Upsert(c, s, rs, scopes, now) => [UpsertOp(c, s, rs, scopes, now)]
    case Authorize(_, _, _, _, _, _, _, _, _) => if MayAuthorize(db, r) then [Grant(db, r)] else []
    case Exchange(c, h, uri, now, _, _, _, _, _) =>
      if c !in db.clients then []
      else if Redeemable(db, h, c, uri, now) then [Redemption(r), Issue(r, db.codes[h])]
      else [Redemption(r)]
    case Refresh(c, k, h, a, n, now, ttl, rttl) =>
      if c !in db.clients then [] else [RotateOp(k, h, a, n, now, ttl, rttl)]
  }

  function AfterAll(db: Db, ops: seq<Op>): Db
    decreases |ops|
  {
    if ops == [] then db else AfterAll(After(db, ops[0]), ops[1..])
  }

  function AfterRequest(db: Db, r: Request): Db {
    AfterAll(db, Operations(db, r))
  }

  /** The tables after the first `n` requests. */
  function ServedAt(rs: seq<Request>, n: nat): Db
    requires n <= |rs|
  {
    if n == 0 then EMPTY_DB else AfterRequest(ServedAt(rs, n - 1), rs[n - 1])
  }

  /** Every sequence of requests is a run of store operations, so the run laws of the store apply to the server. */
  function AllOperations(rs: seq<Request>, n: nat): seq<Op>
    requires n <= |rs|
  {
    if n == 0 then [] else AllOperations(rs, n - 1) + Operations(ServedAt(rs, n - 1), rs[n - 1])
  }

  lemma {:induction false} StateAtPrefix(ops: seq<Op>, more: seq<Op>, n: nat)
    requires n <= |ops|
    ensures StateAt(ops + more, n) == StateAt(ops, n)
    decreases n
  {
    hide After;
    if n > 0 {
      StateAtPrefix(ops, more, n - 1);
    }
  }

  lemma {:induction false} StateAfterAll(ops: seq<Op>, more: seq<Op>)
    ensures StateAt(ops + more, |ops + more|) == AfterAll(StateAt(ops, |ops|), more)
    decreases |more|
  {
    hide After;
    if more == [] {
      assert ops + more == ops;
    } else {
      var step := ops + [more[0]];
      assert ops + more == step + more[1..];
      StateAfterAll(step, more[1..]);
      StateAtPrefix(ops, [more[0]], |ops|);
    }
  }

  lemma {:induction false} RequestsAreRuns(rs: seq<Request>, n: nat)
    requires n <= |rs|
    ensures var ops := AllOperations(rs, n); StateAt(ops, |ops|) == ServedAt(rs, n)
    decreases n
  {
    hide After, AfterAll, Operations;
    if n > 0 {
      RequestsAreRuns(rs, n - 1);
      StateAfterAll(AllOperations(rs, n - 1), Operations(ServedAt(rs, n - 1), rs[n - 1]));
    }
  }

  // ----- where a scope comes from -------------------------------------------

  /** Request `r` was authorised on `db` for this client and user, and the scopes are the ones checked there. */
  predicate Granted(db: Db, r: Request, clientId: string, userId: string, scope: string) {
    && r.Authorize? && MayAuthorize(db, r) && r.clientId == clientId && r.userId == userId
    && TokenSet(scope) == TokenSet(EffectiveScope(r.scope, AllowedScopes(db, clientId)))
  }

  predicate HasGrant(rs: seq<Request>, n: nat, clientId: string, userId: string, scope: string)
    requires n <= |rs|
  {
    exists i | 0 <= i < n :: Granted(ServedAt(rs, i), rs[i], clientId, userId, scope)
  }

  ghost predicate CodesHaveGrants(rs: seq<Request>, n: nat, db: Db)
    requires n <= |rs|
  {
    forall h | h in db.codes :: HasGrant(rs, n, db.codes[h].clientId, db.codes[h].userId, db.codes[h].scope)
  }

  ghost predicate TokensHaveGrants(rs: seq<Request>, n: nat, db: Db)
    requires n <= |rs|
  {
    forall k | k in db.tokens :: HasGrant(rs, n, db.tokens[k].clientId, db.tokens[k].userId, db.tokens[k].scope)
  }

  lemma SameScopesShareGrants(rs: seq<Request>, n: nat, clientId: string, userId: string, scope: string, same: string)
    requires n <= |rs| && HasGrant(rs, n, clientId, userId, scope) && TokenSet(same) == TokenSet(scope)
    ensures HasGrant(rs, n, clientId, userId, same)
  {
    hide ServedAt, MayAuthorize, TokenSet;
    var i :| 0 <= i < n && Granted(ServedAt(rs, i), rs[i], clientId, userId, scope);
    assert Granted(ServedAt(rs, i), rs[i], clientId, userId, same);
  }

  /** Grants last. */
  lemma GrantsLast(rs: seq<Request>, n: nat, db: Db)
    requires n < |rs| && CodesHaveGrants(rs, n, db) && TokensHaveGrants(rs, n, db)
    ensures CodesHaveGrants(rs, n + 1, db) && TokensHaveGrants(rs, n + 1, db)
  {
    hide Granted, ServedAt;
  }

  /** An operation that issues nothing new, or issues under a grant, keeps every row under a grant. */
  lemma CodesKeepGrants(rs: seq<Request>, n: nat, db: Db, op: Op)
    requires n <= |rs| && CodesHaveGrants(rs, n, db)
    requires op.IssueCodeOp? ==> HasGrant(rs, n, op.clientId, op.userId, NormalizeScope(op.scope))
    ensures CodesHaveGrants(rs, n, After(db, op))
  {
    hide After, HasGrant, NormalizeScope;
    var next := After(db, op);
    forall h | h in next.codes
      ensures HasGrant(rs, n, next.codes[h].clientId, next.codes[h].userId, next.codes[h].scope)
    {
      StepCodes(db, op, h);
      if !IsIssueOf(op, h, next.codes[h]) {
        SameCodeText(next.codes[h], db.codes[h]);
      } else {
        SameCodeText(next.codes[h], next.codes[h].(consumedAt := None));
      }
    }
  }

  lemma SameCodeText(a: Code, b: Code)
    requires a.(consumedAt := None) == b.(consumedAt := None)
    ensures a.clientId == b.clientId && a.userId == b.userId && a.scope == b.scope
  {
    assert a.(consumedAt := None).clientId == b.(consumedAt := None).clientId;
    assert a.(consumedAt := None).userId == b.(consumedAt := None).userId;
    assert a.(consumedAt := None).scope == b.(consumedAt := None).scope;
  }

  lemma TokensKeepGrants(rs: seq<Request>, n: nat, db: Db, op: Op)
    requires n <= |rs| && TokensHaveGrants(rs, n, db)
    requires op.IssueTokensOp? ==> HasGrant(rs, n, op.clientId, op.userId, NormalizeScope(op.scope))
    ensures TokensHaveGrants(rs, n, After(db, op))
  {
    hide After, HasGrant, NormalizeScope, Issuance, Rotation, InsertToken;
    var next := After(db, op);
    forall k | k in next.tokens
      ensures HasGrant(rs, n, next.tokens[k].clientId, next.tokens[k].userId, next.tokens[k].scope)
    {
      if Issues(db, op) {
        IssuanceInserts(db, op);
      } else if Rotates(db, op) {
        RotationInserts(db, op);
        var t := db.tokens[op.key];
        NormalizeKeepsScopes(t.scope);
        SameScopesShareGrants(rs, n, t.clientId, t.userId, t.scope, NormalizeScope(t.scope));
      } else {
        NothingRegistered(db, op);
      }
    }
  }

  ghost predicate AllHaveGrants(rs: seq<Request>, n: nat, db: Db)
    requires n <= |rs|
  {
    CodesHaveGrants(rs, n, db) && TokensHaveGrants(rs, n, db)
  }

  lemma OperationKeepsGrants(rs: seq<Request>, n: nat, db: Db, op: Op)
    requires n <= |rs| && AllHaveGrants(rs, n, db)
    requires op.IssueCodeOp? || op.IssueTokensOp? ==> HasGrant(rs, n, op.clientId, op.userId, NormalizeScope(op.scope))
    ensures AllHaveGrants(rs, n, After(db, op))
  {
    hide CodesHaveGrants, TokensHaveGrants, HasGrant, After;
    CodesKeepGrants(rs, n, db, op);
    TokensKeepGrants(rs, n, db, op);
  }

  /** The code an authorise request issues is under the grant the request itself makes. */
  lemma AuthorizeMakesGrant(rs: seq<Request>, n: nat)
    requires n < |rs| && rs[n].Authorize? && MayAuthorize(ServedAt(rs, n), rs[n])
    ensures var op := Grant(ServedAt(rs, n), rs[n]);
            HasGrant(rs, n + 1, op.clientId, op.userId, NormalizeScope(op.scope))
  {
    hide ServedAt, TokenSet, EffectiveScope, NormalizeScope, IsScopeSubset;
    var op := Grant(ServedAt(rs, n), rs[n]);
    NormalizeKeepsScopes(op.scope);
    assert Granted(ServedAt(rs, n), rs[n], op.clientId, op.userId, NormalizeScope(op.scope));
  }

  /** The token pair an exchange issues is under the grant of the code it redeems. */
  lemma ExchangeKeepsGrant(rs: seq<Request>, n: nat, db: Db, r: Request)
    requires n <= |rs| && CodesHaveGrants(rs, n, db)
    requires r.Exchange? && Redeemable(db, r.codeHash, r.clientId, r.redirectUri, r.now)
    ensures var op := Issue(r, db.codes[r.codeHash]); HasGrant(rs, n, op.clientId, op.userId, NormalizeScope(op.scope))
  {
    hide HasGrant, NormalizeScope, TokenSet;
    var c := db.codes[r.codeHash];
    NormalizeKeepsScopes(c.scope);
    SameScopesShareGrants(rs, n, c.clientId, c.userId, c.scope, NormalizeScope(c.scope));
  }

  lemma RequestKeepsGrants(rs: seq<Request>, n: nat)
    requires n < |rs| && AllHaveGrants(rs, n, ServedAt(rs, n))
    ensures AllHaveGrants(rs, n + 1, AfterRequest(ServedAt(rs, n), rs[n]))
  {
    hide ServedAt, After, HasGrant, CodesHaveGrants, TokensHaveGrants, MayAuthorize, Redeemable;
    var db, r := ServedAt(rs, n), rs[n];
    GrantsLast(rs, n, db);
    var ops := Operations(db, r);
    AfterAtMostTwo(db, ops);
    match r
    case Authorize(_, _, _, _, _, _, _, _, _) =>
      if MayAuthorize(db, r) {
        AuthorizeMakesGrant(rs, n);
        OperationKeepsGrants(rs, n + 1, db, ops[0]);
      }
    case Exchange(_, h, _, _, _, _, _, _, _) =>
      if ops != [] {
        OperationKeepsGrants(rs, n + 1, db, ops[0]);
        if |ops| == 2 {
          ExchangeKeepsGrant(rs, n + 1, db, r);
          OperationKeepsGrants(rs, n + 1, After(db, ops[0]), ops[1]);
        }
      }
    case _ =>
      if ops != [] {
        OperationKeepsGrants(rs, n + 1, db, ops[0]);
      }
  }

  lemma AfterAtMostTwo(db: Db, ops: seq<Op>)
    requires |ops| <= 2
    ensures AfterAll(db, ops) == if |ops| == 0 then db else if |ops| == 1 then After(db, ops[0])
                                 else After(After(db, ops[0]), ops[1])
  {
    hide After;
    if |ops| == 1 {
      assert ops[1..] == [];
    } else if |ops| == 2 {
      assert ops[1..] == [ops[1]] && [ops[1]][1..] == [];
      assert AfterAll(After(db, ops[0]), [ops[1]]) == AfterAll(After(After(db, ops[0]), ops[1]), []);
    }
  }

  lemma {:induction false} RunKeepsGrants(rs: seq<Request>, n: nat)
    requires n <= |rs|
    ensures AllHaveGrants(rs, n, ServedAt(rs, n))
    decreases n
  {
    hide AfterRequest, AllHaveGrants;
    if n > 0 {
      RunKeepsGrants(rs, n - 1);
      RequestKeepsGrants(rs, n - 1);
    } else {
      NothingToGrant(rs);
    }
  }

  lemma NothingToGrant(rs: seq<Request>)
    ensures AllHaveGrants(rs, 0, EMPTY_DB)
  {
  }

  // ----- the bearer check ---------------------------------------------------

  /** The answer of the bearer check: the token row it lets through. */
  function Bearer(db: Db, accessHash: string, required: string, now: int): Option<Token> {
    var meta := DoFindAccess(db, accessHash, now);
    if meta.Some? && HasScope(meta.value.scope, required) then meta else None
  }

  /** Any scope the bearer check accepts a token for, after any run and any number of rotations, was in the list of
    * the token's client when that client's user authorised it. */
  lemma AcceptedScopesWereAuthorised(rs: seq<Request>, n: nat, accessHash: string, required: string, now: int)
    requires n <= |rs| && required != "" && Bearer(ServedAt(rs, n), accessHash, required, now).Some?
    ensures var t := Bearer(ServedAt(rs, n), accessHash, required, now).value;
            exists i | 0 <= i < n ::
              && rs[i].Authorize? && rs[i].clientId == t.clientId && rs[i].userId == t.userId
              && t.clientId in ServedAt(rs, i).clients
              && required in AllowedScopes(ServedAt(rs, i), t.clientId)
              && (rs[i].scope == "" || required in TokenSet(rs[i].scope))
  {
    hide ServedAt, TokenSet, AllowedScopes, HasScope;
    RunKeepsGrants(rs, n);
    var t := ServedAt(rs, n).tokens[accessHash];
    assert HasGrant(rs, n, t.clientId, t.userId, t.scope);
    var i :| 0 <= i < n && Granted(ServedAt(rs, i), rs[i], t.clientId, t.userId, t.scope);
    HasScopeIsMembership(t.scope, required);
    var allowed := AllowedScopes(ServedAt(rs, i), t.clientId);
    ScopeSubsetIsSubset(EffectiveScope(rs[i].scope, allowed), allowed);
  }

  /** The same check accepts exactly the live tokens that hold the scope. */
  lemma BearerAcceptsExactly(db: Db, accessHash: string, required: string, now: int)
    requires required != ""
    ensures Bearer(db, accessHash, required, now).Some? <==>
            && accessHash in db.tokens && db.tokens[accessHash].revokedAt == None
            && db.tokens[accessHash].accessExpiresAt > now && required in TokenSet(db.tokens[accessHash].scope)
  {
    hide TokenSet, HasScope;
    if accessHash in db.tokens {
      HasScopeIsMembership(db.tokens[accessHash].scope, required);
    }
  }

  // ----- what is granted works ----------------------------------------------

  /** Leaving the scope out asks for exactly the client's list, and that request is allowed. */
  lemma EmptyScopeAsksForAll(blob: string)
    ensures var allowed := Tokens(blob, ' ');
            IsScopeSubset(EffectiveScope("", allowed), allowed) && TokenSet(EffectiveScope("", allowed)) == TokenSet(blob)
  {
    hide Tokens, JoinWith, SplitOn;
    var allowed := Tokens(blob, ' ');
    TokensAreTokens(blob, ' ');
    TokensOfJoin(allowed, ' ');
    ScopeSubsetIsSubset(JoinWith(allowed, ' '), allowed);
  }

  /** The code an allowed request leaves behind. */
  lemma AuthorizeLeavesCode(db: Db, a: Request)
    requires a.Authorize? && MayAuthorize(db, a) && a.codeHash !in db.codes
    ensures var after, scope := AfterRequest(db, a), EffectiveScope(a.scope, AllowedScopes(db, a.clientId));
            && after.clients == db.clients && after.tokens == db.tokens && a.codeHash in after.codes
            && after.codes[a.codeHash] == Code(a.clientId, a.userId, a.redirectUri, NormalizeScope(scope), a.state, a.now,
                                               a.now + a.ttl, None)
  {
    hide NormalizeScope, EffectiveScope, IsScopeSubset;
    AfterAtMostTwo(db, [Grant(db, a)]);
  }

  lemma ExchangeLeavesToken(db: Db, x: Request)
    requires x.Exchange? && x.clientId in db.clients && Redeemable(db, x.codeHash, x.clientId, x.redirectUri, x.now)
    requires x.accessHash !in db.tokens && (WantsRefresh(x.refreshTtl) ==> !RefreshInUse(db, x.refreshHash))
    ensures var after, c := AfterRequest(db, x), db.codes[x.codeHash];
            && x.accessHash in after.tokens
            && var t := after.tokens[x.accessHash];
               && t.clientId == x.clientId && t.userId == c.userId && t.scope == NormalizeScope(c.scope)
               && t.revokedAt == None && t.accessExpiresAt == x.issuedAt + x.accessTtl
  {
    hide NormalizeScope, IsExpired, RefreshInUse;
    var ops := [Redemption(x), Issue(x, db.codes[x.codeHash])];
    AfterAtMostTwo(db, ops);
    SameRefreshUse(db, After(db, ops[0]), x.refreshHash);
  }

  lemma SameRefreshUse(a: Db, b: Db, h: string)
    requires a.tokens == b.tokens
    ensures RefreshInUse(a, h) <==> RefreshInUse(b, h)
  {
    assert forall k :: HoldsRefresh(a, k, h) <==> HoldsRefresh(b, k, h);
  }

  /** The promise that goes with the safety law: a code that is authorised and redeemed in time gives a token that the
    * bearer check accepts, until it expires, for exactly the scopes that were asked for. */
  lemma AuthorisedScopesWork(db: Db, a: Request, x: Request, required: string, now: int)
    requires a.Authorize? && MayAuthorize(db, a) && a.codeHash !in db.codes
    requires x.Exchange? && x.clientId == a.clientId && x.codeHash == a.codeHash && x.redirectUri == a.redirectUri
    requires !IsExpired(a.now + a.ttl, x.now) && now < x.issuedAt + x.accessTtl && required != ""
    requires x.accessHash !in db.tokens && (WantsRefresh(x.refreshTtl) ==> !RefreshInUse(db, x.refreshHash))
    ensures Bearer(AfterRequest(AfterRequest(db, a), x), x.accessHash, required, now).Some? <==>
            required in TokenSet(EffectiveScope(a.scope, AllowedScopes(db, a.clientId)))
  {
    hide NormalizeScope, TokenSet, AfterRequest, EffectiveScope, IsScopeSubset, IsExpired, RefreshInUse, HasScope;
    var scope := EffectiveScope(a.scope, AllowedScopes(db, a.clientId));
    var issued := AfterRequest(db, a);
    AuthorizeLeavesCode(db, a);
    SameRefreshUse(db, issued, x.refreshHash);
    ExchangeLeavesToken(issued, x);
    BearerAcceptsExactly(AfterRequest(issued, x), x.accessHash, required, now);
    NormalizeKeepsScopes(scope);
    NormalizeKeepsScopes(NormalizeScope(scope));
  }

  /** A rotation hands the scopes on: the new token is accepted for exactly those of the old one, which stops working. */
  lemma RefreshHandsScopesOn(db: Db, op: Op, required: string, now: int, later: int)
    requires Rotates(db, op) && required != "" && now < After(db, op).tokens[op.accessHash].accessExpiresAt
    ensures Bearer(After(db, op), op.accessHash, required, now).Some? <==> required in TokenSet(db.tokens[op.key].scope)
    ensures Bearer(After(db, op), op.key, required, later) == None
  {
    hide NormalizeScope, TokenSet, After, Rotation, InsertToken, HasScope;
    RotationInserts(db, op);
    NormalizeKeepsScopes(db.tokens[op.key].scope);
    BearerAcceptsExactly(After(db, op), op.accessHash, required, now);
  }

  // ----- the handlers -------------------------------------------------------

  /** The cutting loop of the subset check. */
  method CheckScopeSubset(requested: string, allowed: seq<string>) returns (ok: bool)
    ensures ok <==> IsScopeSubset(requested, allowed)
  {
    var rest := requested;
    while true
      invariant IsScopeSubset(requested, allowed) <==> IsScopeSubset(rest, allowed)
      decreases |rest|
    {
      var space := IndexOf(rest, ' ');
      var token := rest[..space];
      assert rest[..|rest|] == rest;
      if token != "" && token !in allowed {
        assert token in SplitOn(rest, ' ');
        return false;
      }
      if space == |rest| {
        return true;
      }
      assert SplitOn(rest, ' ') == [token] + SplitOn(rest[space + 1..], ' ');
      rest := rest[space + 1..];
    }
  }

  method HandleAuthorize(store: OAuthStore, r: Request) returns (issued: bool)
    requires store.Valid() && r.Authorize?
    modifies store`codes
    ensures store.Abs() == AfterRequest(old(store.Abs()), r)
    ensures issued <==> MayAuthorize(old(store.Abs()), r) && r.codeHash !in old(store.Abs()).codes
  {
    hide NormalizeScope, IsScopeSubset;
    if r.clientId == "" || |r.clientId| > MAX_PARAM_LENGTH {
      return false;
    }
    var client := store.GetClient(r.clientId);
    if client == None || !r.redirectOk || |r.scope| > MAX_PARAM_LENGTH {
      return false;
    }
    var (_, allowed) := client.value;
    var scope := r.scope;
    if scope == "" {
      scope := JoinWith(allowed, ' ');
    }
    var subset := CheckScopeSubset(scope, allowed);
    if !subset || r.state == "" || |r.state| > MAX_PARAM_LENGTH {
      return false;
    }
    AfterAtMostTwo(store.Abs(), Operations(store.Abs(), r));
    var error := store.IssueAuthorizationCode(r.codeHash, r.clientId, r.userId, r.redirectUri, scope, r.state, r.now, r.ttl);
    issued := error == None;
  }

  method HandleExchange(store: OAuthStore, r: Request) returns (pair: Option<Pair>)
    requires store.Valid() && r.Exchange?
    modifies store`codes, store`tokens
    ensures store.Valid()
    ensures store.Abs() == AfterRequest(old(store.Abs()), r)
    ensures pair.Some? <==>
            var db := old(store.Abs());
            && r.clientId in db.clients && Redeemable(db, r.codeHash, r.clientId, r.redirectUri, r.now)
            && Issues(After(db, Redemption(r)), Issue(r, db.codes[r.codeHash]))
    ensures pair.Some? ==> pair.value.accessHash == r.accessHash &&
                           pair.value.scope == NormalizeScope(old(store.Abs()).codes[r.codeHash].scope)
  {
    hide NormalizeScope, InsertToken, IsExpired;
    ghost var before := store.Abs();
    AfterAtMostTwo(before, Operations(before, r));
    var client := store.GetClient(r.clientId);
    if client == None {
      return None;
    }
    var auth := store.ConsumeAuthorizationCode(r.codeHash, r.clientId, r.redirectUri, r.now);
    SameTokens(before, store.Abs());
    if auth == None {
      return None;
    }
    var tokens := store.IssueTokens(r.accessHash, r.refreshHash, r.clientId, auth.value.userId, auth.value.scope,
                                    r.issuedAt, r.accessTtl, r.refreshTtl);
    pair := if tokens.Ok? then Some(tokens.value) else None;
  }

  method HandleRefresh(store: OAuthStore, r: Request) returns (pair: Option<Pair>, ghost key: string)
    requires store.Valid() && r.Refresh?
    modifies store`tokens
    ensures store.Valid()
    ensures store.Abs() == AfterRequest(old(store.Abs()), r.(key := key))
    ensures pair.Some? ==> (
      && r.clientId in old(store.Abs()).clients
      && Rotates(old(store.Abs()), RotateOp(key, r.refreshHash, r.accessHash, r.newRefresh, r.now, r.accessTtl, r.refreshTtl))
      && pair.value.accessHash == r.accessHash && pair.value.refreshHash == Some(r.newRefresh))
    ensures pair == None && r.clientId in old(store.Abs()).clients ==> forall k ::
              !Rotates(old(store.Abs()), RotateOp(k, r.refreshHash, r.accessHash, r.newRefresh, r.now, r.accessTtl, r.refreshTtl))
  {
    hide NormalizeScope, InsertToken, Operations;
    ghost var before := store.Abs();
    var client := store.GetClient(r.clientId);
    if client == None {
      UnknownClientDoesNothing(before, r);
      return None, r.key;
    }
    var rotated;
    rotated, key := store.RotateRefreshToken(r.refreshHash, r.accessHash, r.newRefresh, r.now, r.accessTtl, r.refreshTtl);
    RefreshIsOneOperation(before, r.(key := key));
    if rotated.Err? {
      OneRotatableRow(before, r, key);
    }
    pair := if rotated.Ok? then rotated.value else None;
  }

  lemma UnknownClientDoesNothing(db: Db, r: Request)
    requires r.Refresh? && r.clientId !in db.clients
    ensures AfterRequest(db, r) == db
  {
  }

  lemma RefreshIsOneOperation(db: Db, r: Request)
    requires r.Refresh? && r.clientId in db.clients
    ensures AfterRequest(db, r) ==
            After(db, RotateOp(r.key, r.refreshHash, r.accessHash, r.newRefresh, r.now, r.accessTtl, r.refreshTtl))
  {
    hide After;
    AfterAtMostTwo(db, Operations(db, r));
  }

  lemma OneRotatableRow(db: Db, r: Request, key: string)
    requires UniqueRefresh(db) && r.Refresh? && Rotatable(db, key, r.refreshHash, r.now, r.refreshTtl)
    ensures forall k :: Rotatable(db, k, r.refreshHash, r.now, r.refreshTtl) ==> k == key
  {
  }

  datatype Answer = Bypassed | Passed(meta: Token) | MissingHeader | NotBearer | InvalidToken | MissingScope

  /** The header is the word `Bearer`, in any case, a blank, and a token. */
  predicate IsBearerHeader(header: string) {
    |header| > 7 && ToLower(header)[..7] == "bearer "
  }

  /** `bypass` says that the address is a loopback one and the configuration lets those in; `hash` is the store's. */
  method RequireBearer(store: OAuthStore, bypass: bool, header: string, hash: string -> string, required: string, now: int)
    returns (answer: Answer)
    ensures answer.Bypassed? <==> bypass
    ensures answer.Passed? <==>
            !bypass && IsBearerHeader(header) && Bearer(store.Abs(), hash(header[7..]), required, now).Some?
    ensures answer.Passed? ==> Some(answer.meta) == Bearer(store.Abs(), hash(header[7..]), required, now)
    ensures answer.MissingHeader? <==> !bypass && header == ""
    ensures answer.NotBearer? <==> !bypass && header != "" && !IsBearerHeader(header)
    ensures answer.InvalidToken? <==>
            !bypass && IsBearerHeader(header) && DoFindAccess(store.Abs(), hash(header[7..]), now) == None
  {
    hide HasScope, ToLower;
    if bypass {
      return Bypassed;
    }
    if header == "" {
      return MissingHeader;
    }
    var lower := ToLower(header);
    if !("bearer " <= lower) || |header| <= 7 {
      return NotBearer;
    }
    var meta := store.FindAccessToken(hash(header[7..]), now);
    if meta == None {
      return InvalidToken;
    }
    var found := FindScope(meta.value.scope, required);
    answer := if found then Passed(meta.value) else MissingScope;
  }
}
