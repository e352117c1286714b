/** Which client a refresh serves: the server authenticates the caller, but rotates whosever token is shown. */
module OAuthBinding {
  import opened Text
  import opened Scopes
  import opened OAuth
  import opened OAuthRuns
  import opened OAuthServer

  // ----- every token row has a client ----------------------------------------

  ghost predicate ClientsExist(db: Db) {
    && (forall h | h in db.codes :: db.codes[h].clientId in db.clients)
    && (forall k | k in db.tokens :: db.tokens[k].clientId in db.clients)
  }

  lemma StepKeepsClients(db: Db, op: Op)
    requires ClientsExist(db)
    ensures ClientsExist(After(db, op))
  {
    hide NormalizeScope, JoinWith, RefreshInUse, IsExpired;
  }

  lemma {:induction false} RunKeepsClients(ops: seq<Op>, n: nat)
    requires n <= |ops|
    ensures ClientsExist(StateAt(ops, n))
    decreases n
  {
    hide After;
    if n > 0 {
      RunKeepsClients(ops, n - 1);
      StepKeepsClients(StateAt(ops, n - 1), ops[n - 1]);
    }
  }

  // ----- when a refresh succeeds ----------------------------------------------

  function RotationOf(r: Request): Op
    requires r.Refresh?
  {
    RotateOp(r.key, r.refreshHash, r.accessHash, r.newRefresh, r.now, r.accessTtl, r.refreshTtl)
  }

  /** The request rotates the row `r.key`. */
  predicate Succeeds(db: Db, r: Request)
    requires r.Refresh?
  {
    r.clientId in db.clients && Rotates(db, RotationOf(r))
  }

  /** The same refresh with another client naming itself. */
  function NamedBy(r: Request, other: string): Request
    requires r.Refresh?
  {
    Refresh(other, r.key, r.refreshHash, r.accessHash, r.newRefresh, r.now, r.accessTtl, r.refreshTtl)
  }

  /** After any requests, a refresh by any registered client succeeds if and only if the row can be rotated and the new
    * hashes are fresh, and its effect is the same whichever client names itself. */
  lemma RefreshIgnoresClient(rs: seq<Request>, n: nat, r: Request, other: string)
    requires n <= |rs| && r.Refresh?
    requires r.clientId in ServedAt(rs, n).clients && other in ServedAt(rs, n).clients
    ensures var db := ServedAt(rs, n);
            && (Succeeds(db, r) <==>
                && Rotatable(db, r.key, r.refreshHash, r.now, r.refreshTtl)
                && r.accessHash !in db.tokens && !RefreshInUse(db, r.newRefresh))
            && AfterRequest(db, NamedBy(r, other)) == AfterRequest(db, r)
  {
    hide ServedAt, After, AfterRequest;
    var db := ServedAt(rs, n);
    RequestsAreRuns(rs, n);
    RunKeepsClients(AllOperations(rs, n), |AllOperations(rs, n)|);
    RotationSucceeds(db, RotationOf(r));
    RefreshIsOneOperation(db, r);
    RefreshIsOneOperation(db, NamedBy(r, other));
  }

  lemma RotationSucceeds(db: Db, op: Op)
    requires op.RotateOp? && ClientsExist(db)
    ensures Rotates(db, op) <==>
            && Rotatable(db, op.key, op.refreshHash, op.now, op.refreshTtl)
            && op.accessHash !in db.tokens && !RefreshInUse(db, op.newRefresh)
  {
    hide NormalizeScope;
    if Rotatable(db, op.key, op.refreshHash, op.now, op.refreshTtl) {
      var t := db.tokens[op.key];
      var revoked := db.(tokens := db.tokens[op.key := t.(revokedAt := Some(op.now))]);
      assert forall k :: HoldsRefresh(revoked, k, op.newRefresh) <==> HoldsRefresh(db, k, op.newRefresh);
    }
  }

  // ----- what binding a refresh to its client would give ------------------------

  /** Every token the request adds belongs to the client that the request names. */
  predicate ServesItsClient(db: Db, r: Request) {
    var after := AfterRequest(db, r);
    forall k | k in after.tokens && k !in db.tokens :: after.tokens[k].clientId == r.clientId
  }

  /** The row that a refresh would rotate belongs to the client it names; section 6 of RFC 6749 asks a server to see to
    * that, and this one does not. */
  predicate IsBound(db: Db, r: Request) {
    r.Refresh? && r.clientId in db.clients && r.key in db.tokens && Rotates(db, RotationOf(r)) ==>
      db.tokens[r.key].clientId == r.clientId
  }

  /** The exact condition: a request serves the client it names if and only if it is no refresh with the token of
    * another. */
  lemma ServesItsClientExactly(db: Db, r: Request)
    ensures ServesItsClient(db, r) <==> IsBound(db, r)
  {
    hide After, Redeemable, Rotatable, MayAuthorize, IsExpired, NormalizeScope;
    var ops := Operations(db, r);
    AfterAtMostTwo(db, ops);
    if r.Refresh? {
      RefreshServes(db, r);
    } else if r.Exchange? {
      ExchangeServes(db, r);
    } else if ops != [] {
      NothingRegistered(db, ops[0]);
    }
  }

  lemma RefreshServes(db: Db, r: Request)
    requires r.Refresh?
    ensures ServesItsClient(db, r) <==> IsBound(db, r)
  {
    hide After, Rotatable, InsertToken, NormalizeScope;
    AfterAtMostTwo(db, Operations(db, r));
    if r.clientId in db.clients {
      var op := RotationOf(r);
      if Rotates(db, op) {
        RotationInserts(db, op);
        RotatesARow(db, op);
      } else {
        NothingRegistered(db, op);
      }
    }
  }

  lemma RotatesARow(db: Db, op: Op)
    requires Rotates(db, op)
    ensures op.key in db.tokens && db.tokens[op.key].refreshHash == Some(op.refreshHash)
  {
  }

  lemma ExchangeServes(db: Db, r: Request)
    requires r.Exchange?
    ensures ServesItsClient(db, r)
  {
    hide After, Redeemable, IsExpired, NormalizeScope, InsertToken;
    AfterAtMostTwo(db, Operations(db, r));
    if r.clientId in db.clients {
      NothingRegistered(db, Redemption(r));
      if Redeemable(db, r.codeHash, r.clientId, r.redirectUri, r.now) {
        var middle := After(db, Redemption(r));
        RedeemableIsCode(db, r);
        var op := Issue(r, db.codes[r.codeHash]);
        if Issues(middle, op) {
          IssuanceInserts(middle, op);
        } else {
          NothingRegistered(middle, op);
        }
      }
    }
  }

  lemma RedeemableIsCode(db: Db, r: Request)
    requires r.Exchange? && Redeemable(db, r.codeHash, r.clientId, r.redirectUri, r.now)
    ensures r.codeHash in db.codes
  {
  }

  /** The request that added the token row named its client. */
  predicate WasServed(rs: seq<Request>, n: nat, key: string)
    requires n <= |rs| && key in ServedAt(rs, n).tokens
  {
    exists i | 0 <= i < n ::
      key !in ServedAt(rs, i).tokens && key in ServedAt(rs, i + 1).tokens &&
      rs[i].clientId == ServedAt(rs, n).tokens[key].clientId
  }

  /** Over every run: if each refresh is bound, every token there is was asked for by its own client. */
  lemma {:induction false} BoundRunsServe(rs: seq<Request>, n: nat, key: string)
    requires n <= |rs| && key in ServedAt(rs, n).tokens
    requires forall i | 0 <= i < n :: IsBound(ServedAt(rs, i), rs[i])
    ensures WasServed(rs, n, key)
    decreases n
  {
    hide ServedAt, AfterRequest, IsBound;
    EmptyServed(rs);
    var before, after := ServedAt(rs, n - 1), ServedAt(rs, n);
    ServedStep(rs, n);
    if key in before.tokens {
      BoundRunsServe(rs, n - 1, key);
      RequestKeepsClient(before, rs[n - 1], key);
      var i :| 0 <= i < n - 1 && key !in ServedAt(rs, i).tokens && key in ServedAt(rs, i + 1).tokens &&
               rs[i].clientId == before.tokens[key].clientId;
    } else {
      ServesItsClientExactly(before, rs[n - 1]);
      assert key !in ServedAt(rs, n - 1).tokens;
    }
  }

  lemma EmptyServed(rs: seq<Request>)
    ensures ServedAt(rs, 0) == EMPTY_DB
  {
  }

  lemma ServedStep(rs: seq<Request>, n: nat)
    requires 0 < n <= |rs|
    ensures ServedAt(rs, n) == AfterRequest(ServedAt(rs, n - 1), rs[n - 1])
  {
  }

  lemma RequestKeepsClient(db: Db, r: Request, key: string)
    requires key in db.tokens
    ensures key in AfterRequest(db, r).tokens && AfterRequest(db, r).tokens[key].clientId == db.tokens[key].clientId
  {
    hide After, Redeemable, MayAuthorize;
    var ops := Operations(db, r);
    AfterAtMostTwo(db, ops);
    if ops != [] {
      OperationKeepsClient(db, ops[0], key);
      if |ops| == 2 {
        OperationKeepsClient(After(db, ops[0]), ops[1], key);
      }
    }
  }

  lemma OperationKeepsClient(db: Db, op: Op, key: string)
    requires key in db.tokens
    ensures key in After(db, op).tokens && After(db, op).tokens[key].clientId == db.tokens[key].clientId
  {
    hide After, InsertToken, NormalizeScope, RefreshInUse, IsExpired;
    if Issues(db, op) {
      IssuanceInserts(db, op);
    } else if Rotates(db, op) {
      RotationInserts(db, op);
    } else {
      NothingRegistered(db, op);
    }
  }

  // ----- runs in which another client refreshes ---------------------------------

  /** For any two clients: one is granted a token, the other refreshes it and obtains a pair for the first one's grant. */
  function CrossedRun(a: string, b: string, user: string, uri: string, scopes: seq<string>): seq<Request> {
    [Upsert(a, "", [uri], scopes, 0), Upsert(b, "", [], [], 0), Authorize(a, uri, true, "", "state", user, "code", 0, 60),
     Exchange(a, "code", uri, 0, "t1", "r1", 0, 60, Some(60)), Refresh(b, "t1", "r1", "t2", "r2", 0, 60, Some(60))]
  }

  lemma AnotherClientRefreshes(a: string, b: string, user: string, uri: string, scopes: seq<string>)
    requires a != b && 0 < |a| <= MAX_PARAM_LENGTH
    ensures var rs := CrossedRun(a, b, user, uri, scopes);
            && Succeeds(ServedAt(rs, 4), rs[4]) && !IsBound(ServedAt(rs, 4), rs[4])
            && rs[4].clientId == b && "t2" in ServedAt(rs, 5).tokens
            && ServedAt(rs, 5).tokens["t2"].clientId == a && ServedAt(rs, 5).tokens["t2"].userId == user
  {
    hide ServedAt, AfterRequest, NormalizeScope, EffectiveScope, IsScopeSubset, Rotates, InsertToken, RefreshInUse;
    var rs := CrossedRun(a, b, user, uri, scopes);
    EmptyServed(rs);
    ServedStep(rs, 1);
    ServedStep(rs, 2);
    ServedStep(rs, 3);
    ServedStep(rs, 4);
    ServedStep(rs, 5);
    UpsertLeaves(EMPTY_DB, rs[0]);
    UpsertLeaves(ServedAt(rs, 1), rs[1]);
    var db := ServedAt(rs, 2);
    assert a in db.clients && db.tokens == map[] && db.codes == map[];
    EmptyScopeAsksForAll(db.clients[a].scopes);
    AuthorizeLeavesCode(db, rs[2]);
    NoneInUse(ServedAt(rs, 3));
    ExchangeLeavesToken(ServedAt(rs, 3), rs[3]);
    FirstExchange(ServedAt(rs, 3), rs[3]);
    LoneTokenRotates(ServedAt(rs, 4), rs[4]);
  }

  lemma UpsertLeaves(db: Db, r: Request)
    requires r.Upsert?
    ensures AfterRequest(db, r).tokens == db.tokens && AfterRequest(db, r).codes == db.codes
    ensures AfterRequest(db, r).clients.Keys == db.clients.Keys + {r.clientId}
  {
    hide NormalizeScope, JoinWith;
    AfterAtMostTwo(db, Operations(db, r));
  }

  lemma NoneInUse(db: Db)
    requires db.tokens == map[]
    ensures forall h :: !RefreshInUse(db, h)
  {
  }

  lemma FirstExchange(db: Db, x: Request)
    requires x.Exchange? && x.clientId in db.clients && Redeemable(db, x.codeHash, x.clientId, x.redirectUri, x.now)
    requires db.tokens == map[] && WantsRefresh(x.refreshTtl)
    ensures var after := AfterRequest(db, x);
            && after.clients == db.clients && after.tokens.Keys == {x.accessHash}
            && after.tokens[x.accessHash].refreshHash == Some(x.refreshHash)
            && after.tokens[x.accessHash].refreshExpiresAt == Some(x.issuedAt + x.refreshTtl.value)
  {
    hide NormalizeScope, IsExpired;
    var ops := [Redemption(x), Issue(x, db.codes[x.codeHash])];
    AfterAtMostTwo(db, ops);
    NoneInUse(After(db, ops[0]));
  }

  lemma LoneTokenRotates(db: Db, r: Request)
    requires r.Refresh? && r.clientId in db.clients && db.tokens.Keys == {r.key}
    requires db.tokens[r.key].clientId in db.clients && db.tokens[r.key].clientId != r.clientId
    requires Rotatable(db, r.key, r.refreshHash, r.now, r.refreshTtl)
    requires r.accessHash != r.key && r.newRefresh != r.refreshHash
    ensures Succeeds(db, r) && !IsBound(db, r)
    ensures r.accessHash in AfterRequest(db, r).tokens
    ensures var t := AfterRequest(db, r).tokens[r.accessHash];
            t.clientId == db.tokens[r.key].clientId && t.userId == db.tokens[r.key].userId
  {
    hide NormalizeScope, After, InsertToken, Rotates;
    var op := RotationOf(r);
    LoneRotation(db, op);
    RotationInserts(db, op);
    RefreshIsOneOperation(db, r);
  }

  lemma LoneRotation(db: Db, op: Op)
    requires op.RotateOp? && db.tokens.Keys == {op.key} && db.tokens[op.key].clientId in db.clients
    requires Rotatable(db, op.key, op.refreshHash, op.now, op.refreshTtl)
    requires op.accessHash != op.key && op.newRefresh != op.refreshHash
    ensures Rotates(db, op)
  {
    hide NormalizeScope;
  }
}
