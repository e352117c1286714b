/** Safety of the token store over every run of its operations. */
module OAuthRuns {
  import opened Text
  import opened Scopes
  import opened OAuth

  // ----- runs ---------------------------------------------------------------

  /** The operations that can change the tables; `key` is the row the unique index finds for a refresh hash. */
  datatype Op =
    | UpsertOp(clientId: string, secretHash: string, redirects: seq<string>, scopes: seq<string>, now: int)
    | IssueCodeOp(codeHash: string, clientId: string, userId: string, redirectUri: string, scope: string,
                  state: string, now: int, ttl: int)
    | ConsumeOp(codeHash: string, clientId: string, redirectUri: string, now: int)
    | IssueTokensOp(accessHash: string, refreshHash: string, clientId: string, userId: string, scope: string,
                    now: int, accessTtl: int, refreshTtl: Option<int>)
    | RotateOp(key: string, refreshHash: string, accessHash: string, newRefresh: string, now: int, accessTtl: int,
               refreshTtl: Option<int>)

  function OrSame(r: Result<Db, DbError>, db: Db): Db {
    if r.Ok? then r.value else db
  }

  function Rotation(db: Db, op: Op): Result<Db, DbError>
    requires op.RotateOp? && Rotatable(db, op.key, op.refreshHash, op.now, op.refreshTtl)
  {
    DoRotate(db, op.key, op.accessHash, op.newRefresh, op.now, op.accessTtl, op.refreshTtl.value)
  }

  function Issuance(db: Db, op: Op): Result<Db, DbError>
    requires op.IssueTokensOp?
  {
    DoIssueTokens(db, op.accessHash, op.refreshHash, op.clientId, op.userId, op.scope, op.now, op.accessTtl, op.refreshTtl)
  }

  function After(db: Db, op: Op): Db {
    match op
    case UpsertOp(c, s, rs, scopes, _) => DoUpsertClient(db, c, s, rs, scopes)
    case IssueCodeOp(h, c, u, r, s, st, now, ttl) => OrSame(DoIssueCode(db, h, c, u, r, s, st, now, ttl), db)
    case ConsumeOp(h, c, r, now) => DoConsumeCode(db, h, c, r, now).0
    case IssueTokensOp(_, _, _, _, _, _, _, _) => OrSame(Issuance(db, op), db)
    case RotateOp(key, h, _, _, now, _, ttl) =>
      if Rotatable(db, key, h, now, ttl) then OrSame(Rotation(db, op), db) else db
  }

  /** The tables after the first `n` operations of a run. */
  function StateAt(ops: seq<Op>, n: nat): Db
    requires n <= |ops|
  {
    if n == 0 then EMPTY_DB else After(StateAt(ops, n - 1), ops[n - 1])
  }

  predicate Redeems(db: Db, op: Op) {
    op.ConsumeOp? && Redeemable(db, op.codeHash, op.clientId, op.redirectUri, op.now)
  }

  predicate Rotates(db: Db, op: Op) {
    op.RotateOp? && Rotatable(db, op.key, op.refreshHash, op.now, op.refreshTtl) && Rotation(db, op).Ok?
  }

  predicate Issues(db: Db, op: Op) {
    op.IssueTokensOp? && Issuance(db, op).Ok?
  }

  // ----- rows only gain marks -----------------------------------------------

  /** Rows stay; only the consumption and revocation marks appear, once. */
  ghost predicate Extends(before: Db, after: Db) {
    && (forall h | h in before.codes ::
          h in after.codes && after.codes[h].(consumedAt := None) == before.codes[h].(consumedAt := None) &&
          (before.codes[h].consumedAt.Some? ==> after.codes[h].consumedAt.Some?))
    && (forall k | k in before.tokens ::
          k in after.tokens && after.tokens[k].(revokedAt := None) == before.tokens[k].(revokedAt := None) &&
          (before.tokens[k].revokedAt.Some? ==> after.tokens[k].revokedAt.Some?))
  }

  lemma StepExtends(db: Db, op: Op)
    ensures Extends(db, After(db, op))
  {
    StepKeepsCodes(db, op);
    StepKeepsTokens(db, op);
    hide After;
  }

  lemma StepKeepsCodes(db: Db, op: Op)
    ensures forall h | h in db.codes ::
              h in After(db, op).codes && After(db, op).codes[h].(consumedAt := None) == db.codes[h].(consumedAt := None) &&
              (db.codes[h].consumedAt.Some? ==> After(db, op).codes[h].consumedAt.Some?)
  {
    hide NormalizeScope, RefreshInUse, JoinWith, IsExpired;
  }

  lemma StepKeepsTokens(db: Db, op: Op)
    ensures forall k | k in db.tokens ::
              k in After(db, op).tokens && After(db, op).tokens[k].(revokedAt := None) == db.tokens[k].(revokedAt := None) &&
              (db.tokens[k].revokedAt.Some? ==> After(db, op).tokens[k].revokedAt.Some?)
  {
    hide After, InsertToken, Issuance, Rotation, NormalizeScope;
    if Issues(db, op) {
      IssuanceInserts(db, op);
    } else if Rotates(db, op) {
      RotationInserts(db, op);
    } else {
      NothingRegistered(db, op);
    }
  }

  lemma {:induction false} RunExtends(ops: seq<Op>, i: nat, j: nat)
    requires i <= j <= |ops|
    ensures Extends(StateAt(ops, i), StateAt(ops, j))
    decreases j
  {
    hide After;
    if i < j {
      RunExtends(ops, i, j - 1);
      StepExtends(StateAt(ops, j - 1), ops[j - 1]);
    }
  }

  // ----- codes --------------------------------------------------------------

  /** Each authorization code is redeemed at most once. */
  lemma CodesAreSingleUse(ops: seq<Op>, i: nat, j: nat)
    requires i < j < |ops| && Redeems(StateAt(ops, i), ops[i]) && Redeems(StateAt(ops, j), ops[j])
    ensures ops[i].codeHash != ops[j].codeHash
  {
    hide After, IsExpired;
    RunExtends(ops, i + 1, j);
    RedeemMarks(StateAt(ops, i), ops[i]);
  }

  lemma RedeemMarks(db: Db, op: Op)
    requires Redeems(db, op)
    ensures op.codeHash in After(db, op).codes && After(db, op).codes[op.codeHash].consumedAt.Some?
  {
  }

  /** The operation that put a code into the table. */
  predicate IsIssueOf(op: Op, h: string, c: Code) {
    && op.IssueCodeOp? && op.codeHash == h
    && c.(consumedAt := None) ==
       Code(op.clientId, op.userId, op.redirectUri, NormalizeScope(op.scope), op.state, op.now, op.now + op.ttl, None)
  }

  lemma StepCodes(db: Db, op: Op, h: string)
    requires h in After(db, op).codes
    ensures IsIssueOf(op, h, After(db, op).codes[h]) ||
            (h in db.codes && After(db, op).codes[h].(consumedAt := None) == db.codes[h].(consumedAt := None))
  {
    hide NormalizeScope, RefreshInUse, JoinWith, IsExpired;
  }

  lemma {:induction false} CodesWereIssued(ops: seq<Op>, n: nat, h: string)
    requires n <= |ops| && h in StateAt(ops, n).codes
    ensures exists i | 0 <= i < n :: IsIssueOf(ops[i], h, StateAt(ops, n).codes[h])
    decreases n
  {
    hide After, NormalizeScope;
    if n > 0 {
      StepCodes(StateAt(ops, n - 1), ops[n - 1], h);
      if !IsIssueOf(ops[n - 1], h, StateAt(ops, n).codes[h]) {
        CodesWereIssued(ops, n - 1, h);
        var i :| 0 <= i < n - 1 && IsIssueOf(ops[i], h, StateAt(ops, n - 1).codes[h]);
        assert IsIssueOf(ops[i], h, StateAt(ops, n).codes[h]);
      }
    }
  }

  /** A code is redeemed only by the client and with the redirect it was issued for, and before it expires. */
  lemma CodesAreBound(ops: seq<Op>, j: nat)
    requires j < |ops| && Redeems(StateAt(ops, j), ops[j])
    ensures exists i | 0 <= i < j ::
      && ops[i].IssueCodeOp? && ops[i].codeHash == ops[j].codeHash
      && ops[i].clientId == ops[j].clientId && ops[i].redirectUri == ops[j].redirectUri
      && !IsExpired(ops[i].now + ops[i].ttl, ops[j].now)
  {
    hide StateAt, NormalizeScope;
    CodesWereIssued(ops, j, ops[j].codeHash);
    var i :| 0 <= i < j && IsIssueOf(ops[i], ops[j].codeHash, StateAt(ops, j).codes[ops[j].codeHash]);
    assert StateAt(ops, j).codes[ops[j].codeHash].(consumedAt := None).expiresAt == ops[i].now + ops[i].ttl;
  }

  // ----- tokens -------------------------------------------------------------

  lemma StepUnique(db: Db, op: Op)
    requires UniqueRefresh(db)
    ensures UniqueRefresh(After(db, op))
  {
    hide NormalizeScope, InsertToken, RefreshInUse, IsExpired;
    match op
    case IssueTokensOp(a, _, _, _, _, _, _, _) =>
      if Issues(db, op) {
        IssuanceInserts(db, op);
        InsertKeepsUnique(db, a, After(db, op).tokens[a], After(db, op));
      }
    case RotateOp(key, h, a, _, now, _, ttl) =>
      if Rotates(db, op) {
        var t := db.tokens[key];
        var middle := db.(tokens := db.tokens[key := t.(revokedAt := Some(now))]);
        RevocationKeepsHashes(db, middle, key);
        RotationInserts(db, op);
        InsertKeepsUnique(middle, a, After(db, op).tokens[a], After(db, op));
      }
    case _ => SameTokens(db, After(db, op));
  }

  lemma SameTokens(a: Db, b: Db)
    requires a.tokens == b.tokens && UniqueRefresh(a)
    ensures UniqueRefresh(b)
  {
    assert forall k, h :: HoldsRefresh(b, k, h) <==> HoldsRefresh(a, k, h);
  }

  lemma NothingRegistered(db: Db, op: Op)
    requires !Issues(db, op) && !Rotates(db, op)
    ensures After(db, op).tokens == db.tokens
  {
    hide NormalizeScope, RefreshInUse, InsertToken, IsExpired;
  }

  lemma IssuanceInserts(db: Db, op: Op)
    requires Issues(db, op)
    ensures op.accessHash in After(db, op).tokens && op.accessHash !in db.tokens
    ensures InsertToken(db, op.accessHash, After(db, op).tokens[op.accessHash]) == Ok(After(db, op))
    ensures After(db, op).tokens == db.tokens[op.accessHash := After(db, op).tokens[op.accessHash]]
    ensures var t := After(db, op).tokens[op.accessHash];
            t.revokedAt == None && t.clientId == op.clientId && t.userId == op.userId && t.scope == NormalizeScope(op.scope)
  {
    hide NormalizeScope, RefreshInUse;
  }

  lemma RotationInserts(db: Db, op: Op)
    requires Rotates(db, op)
    ensures var t := db.tokens[op.key];
            var middle := db.(tokens := db.tokens[op.key := t.(revokedAt := Some(op.now))]);
            && op.accessHash in After(db, op).tokens && op.accessHash !in db.tokens
            && InsertToken(middle, op.accessHash, After(db, op).tokens[op.accessHash]) == Ok(After(db, op))
            && After(db, op).tokens == middle.tokens[op.accessHash := After(db, op).tokens[op.accessHash]]
    ensures var t, n := db.tokens[op.key], After(db, op).tokens[op.accessHash];
            n.revokedAt == None && n.clientId == t.clientId && n.userId == t.userId && n.scope == NormalizeScope(t.scope)
  {
    hide NormalizeScope, RefreshInUse;
  }

  lemma {:induction false} RunUnique(ops: seq<Op>, n: nat)
    requires n <= |ops|
    ensures UniqueRefresh(StateAt(ops, n))
    decreases n
  {
    hide After, UniqueRefresh;
    if n > 0 {
      RunUnique(ops, n - 1);
      StepUnique(StateAt(ops, n - 1), ops[n - 1]);
    } else {
      EmptyIsUnique();
    }
  }

  lemma EmptyIsUnique()
    ensures UniqueRefresh(EMPTY_DB)
  {
  }

  /** Each refresh token is rotated at most once. */
  lemma RefreshTokensAreSingleUse(ops: seq<Op>, i: nat, j: nat)
    requires i < j < |ops| && Rotates(StateAt(ops, i), ops[i]) && Rotates(StateAt(ops, j), ops[j])
    ensures ops[i].refreshHash != ops[j].refreshHash
  {
    hide Rotation, NormalizeScope, InsertToken, UniqueRefresh;
    var a, b, c := StateAt(ops, i), StateAt(ops, i + 1), StateAt(ops, j);
    assert b == After(a, ops[i]);
    RotationInserts(a, ops[i]);
    RunExtends(ops, i + 1, j);
    var key := ops[i].key;
    assert b.tokens[key].revokedAt.Some? && b.tokens[key].refreshHash == Some(ops[i].refreshHash);
    assert c.tokens[key].revokedAt.Some? && c.tokens[key].(revokedAt := None).refreshHash == Some(ops[i].refreshHash);
    RunUnique(ops, j);
    if ops[i].refreshHash == ops[j].refreshHash {
      OneHolder(c, key, ops[j].key, ops[j].refreshHash);
    }
  }

  lemma OneHolder(db: Db, k: string, l: string, h: string)
    requires UniqueRefresh(db) && HoldsRefresh(db, k, h) && HoldsRefresh(db, l, h)
    ensures k == l
  {
  }

  /** With a clock that does not go back, an issued access token that is rejected once is rejected for good. */
  lemma RejectedForGood(ops: seq<Op>, i: nat, j: nat, accessHash: string, earlier: int, later: int)
    requires i <= j <= |ops| && earlier <= later
    requires accessHash in StateAt(ops, i).tokens && DoFindAccess(StateAt(ops, i), accessHash, earlier) == None
    ensures DoFindAccess(StateAt(ops, j), accessHash, later) == None
  {
    RunExtends(ops, i, j);
    var a, b := StateAt(ops, i).tokens[accessHash], StateAt(ops, j).tokens[accessHash];
    assert b.(revokedAt := None).accessExpiresAt == a.accessExpiresAt;
  }

  // ----- families -----------------------------------------------------------

  /** Bookkeeping beside a run: each row's family, named by its first row, and the last row added to each family. */
  datatype Families = Families(root: map<string, string>, newest: map<string, string>)

  function Add(f: Families, key: string, family: string): Families {
    Families(f.root[key := family], f.newest[family := key])
  }

  function Register(f: Families, db: Db, op: Op): Families {
    if Issues(db, op) then Add(f, op.accessHash, op.accessHash)
    else if Rotates(db, op) && op.key in f.root then Add(f, op.accessHash, f.root[op.key])
    else f
  }

  function FamiliesAt(ops: seq<Op>, n: nat): Families
    requires n <= |ops|
  {
    if n == 0 then Families(map[], map[])
    else Register(FamiliesAt(ops, n - 1), StateAt(ops, n - 1), ops[n - 1])
  }

  predicate SameGrant(a: Token, b: Token) {
    a.clientId == b.clientId && a.userId == b.userId && a.scope == b.scope
  }

  /** A row belongs to the family of a first row with the same grant, and it is live exactly when it is the newest. */
  predicate RowInFamily(tokens: map<string, Token>, f: Families, k: string)
    requires k in tokens
  {
    && k in f.root && f.root[k] in tokens && f.root[k] in f.root && f.root[f.root[k]] == f.root[k]
    && SameGrant(tokens[k], tokens[f.root[k]]) && NormalizeScope(tokens[k].scope) == tokens[k].scope
    && f.root[k] in f.newest
    && (tokens[k].revokedAt == None <==> f.newest[f.root[k]] == k)
  }

  predicate NewestInFamily(tokens: map<string, Token>, f: Families, family: string)
    requires family in f.newest
  {
    var k := f.newest[family];
    k in tokens && k in f.root && f.root[k] == family
  }

  ghost predicate FamilyInvariant(tokens: map<string, Token>, f: Families) {
    && (forall k | k in tokens :: RowInFamily(tokens, f, k))
    && (forall k | k in f.newest :: NewestInFamily(tokens, f, k))
  }

  lemma FamilyStepIssue(db: Db, f: Families, op: Op)
    requires FamilyInvariant(db.tokens, f) && Issues(db, op)
    ensures FamilyInvariant(After(db, op).tokens, Register(f, db, op))
  {
    hide After, InsertToken, Issuance, NormalizeScope, Add;
    IssuanceInserts(db, op);
    NormalizeKeepsScopes(op.scope);
    IssueKeeps(db.tokens, f, op.accessHash, After(db, op).tokens[op.accessHash]);
  }

  lemma IssueKeeps(tokens: map<string, Token>, f: Families, key: string, t: Token)
    requires FamilyInvariant(tokens, f) && key !in tokens && t.revokedAt == None && NormalizeScope(t.scope) == t.scope
    ensures FamilyInvariant(tokens[key := t], Add(f, key, key))
  {
    hide NormalizeScope, SameGrant;
    var after, g := tokens[key := t], Add(f, key, key);
    forall k | k in after ensures RowInFamily(after, g, k) {
      if k != key {
        assert RowInFamily(tokens, f, k);
      } else {
        SameGrantReflexive(t);
      }
    }
    forall k | k in g.newest ensures NewestInFamily(after, g, k) {
      if k != key {
        assert NewestInFamily(tokens, f, k);
      }
    }
  }

  lemma SameGrantReflexive(t: Token)
    ensures SameGrant(t, t)
  {
  }

  lemma FamilyStepRotate(db: Db, f: Families, op: Op)
    requires FamilyInvariant(db.tokens, f) && Rotates(db, op)
    ensures FamilyInvariant(After(db, op).tokens, Register(f, db, op))
  {
    hide After, InsertToken, Rotation, NormalizeScope, Add;
    RotationInserts(db, op);
    assert RowInFamily(db.tokens, f, op.key);
    RotateKeeps(db.tokens, f, op.key, op.now, op.accessHash, After(db, op).tokens[op.accessHash]);
  }

  lemma RotateKeeps(tokens: map<string, Token>, f: Families, key: string, now: int, added: string, t: Token)
    requires FamilyInvariant(tokens, f) && key in tokens && added !in tokens && tokens[key].revokedAt == None
    requires t.revokedAt == None && SameGrant(t, tokens[key])
    ensures key in f.root
    ensures FamilyInvariant(tokens[key := tokens[key].(revokedAt := Some(now))][added := t], Add(f, added, f.root[key]))
  {
    hide NormalizeScope;
    assert RowInFamily(tokens, f, key);
    var after, g := tokens[key := tokens[key].(revokedAt := Some(now))][added := t], Add(f, added, f.root[key]);
    forall k | k in after ensures RowInFamily(after, g, k) {
      if k != added {
        assert RowInFamily(tokens, f, k);
      }
    }
    forall k | k in g.newest ensures NewestInFamily(after, g, k) {
      if k != f.root[key] {
        assert NewestInFamily(tokens, f, k);
      }
    }
  }

  lemma {:induction false} RunFamilies(ops: seq<Op>, n: nat)
    requires n <= |ops|
    ensures FamilyInvariant(StateAt(ops, n).tokens, FamiliesAt(ops, n))
    decreases n
  {
    hide FamilyInvariant, After, Issues, Rotates, Add;
    if n > 0 {
      var db, f, op := StateAt(ops, n - 1), FamiliesAt(ops, n - 1), ops[n - 1];
      RunFamilies(ops, n - 1);
      if Issues(db, op) {
        FamilyStepIssue(db, f, op);
      } else if Rotates(db, op) {
        FamilyStepRotate(db, f, op);
      } else {
        NothingRegistered(db, op);
      }
    } else {
      NoFamilies();
    }
  }

  lemma NoFamilies()
    ensures FamilyInvariant(map[], Families(map[], map[]))
  {
  }

  /** In every run, every family has exactly one unrevoked row, its newest, and one client, user and scope. */
  lemma FamiliesHaveOneLiveToken(ops: seq<Op>, n: nat, k: string)
    requires n <= |ops| && k in StateAt(ops, n).tokens
    ensures var tokens, f := StateAt(ops, n).tokens, FamiliesAt(ops, n);
            && tokens.Keys <= f.root.Keys && f.root[k] in f.newest
            && var live := f.newest[f.root[k]];
               && live in tokens && f.root[live] == f.root[k]
               && forall l | l in tokens && f.root[l] == f.root[k] ::
                    (tokens[l].revokedAt == None <==> l == live) && SameGrant(tokens[l], tokens[k])
  {
    hide NormalizeScope, StateAt, FamiliesAt;
    RunFamilies(ops, n);
    var tokens, f := StateAt(ops, n).tokens, FamiliesAt(ops, n);
    assert RowInFamily(tokens, f, k);
    assert NewestInFamily(tokens, f, f.root[k]);
    forall l | l in tokens && f.root[l] == f.root[k]
      ensures (tokens[l].revokedAt == None <==> l == f.newest[f.root[k]]) && SameGrant(tokens[l], tokens[k])
    {
      assert RowInFamily(tokens, f, l);
    }
  }
}
