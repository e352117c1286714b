/** Scope strings: blank-separated tokens (RFC 6749, section 3.3). */
module Scopes {
  import opened Text

  // ----- Split and Join -----------------------------------------------------

  function NonEmpty(parts: seq<string>): seq<string> {
    if parts == [] then []
    else (if parts[0] != "" then [parts[0]] else []) + NonEmpty(parts[1..])
  }

  /** The non-empty fields between separators. */
  function Tokens(s: string, c: char): seq<string> {
    NonEmpty(SplitOn(s, c))
  }

  function TokenSet(s: string): set<string> {
    set t | t in Tokens(s, ' ')
  }

  predicate IsToken(t: string, c: char) {
    t != "" && c !in t
  }

  predicate AreTokens(ts: seq<string>, c: char) {
    forall i | 0 <= i < |ts| :: IsToken(ts[i], c)
  }

  lemma {:induction false} NonEmptyMembers(parts: seq<string>, t: string)
    ensures t in NonEmpty(parts) <==> t in parts && t != ""
    decreases |parts|
  {
    if parts != [] {
      NonEmptyMembers(parts[1..], t);
      assert parts == [parts[0]] + parts[1..];
    }
  }

  lemma {:induction false} NonEmptyOfTokens(ts: seq<string>)
    requires forall i | 0 <= i < |ts| :: ts[i] != ""
    ensures NonEmpty(ts) == ts
    decreases |ts|
  {
    if ts != [] {
      NonEmptyOfTokens(ts[1..]);
    }
  }

  lemma TokensAreTokens(s: string, c: char)
    ensures AreTokens(Tokens(s, c), c)
  {
    var ts := Tokens(s, c);
    forall i | 0 <= i < |ts| ensures IsToken(ts[i], c) {
      assert ts[i] in ts;
      NonEmptyMembers(SplitOn(s, c), ts[i]);
    }
  }

  /** Splitting undoes joining on non-empty tokens without the separator. */
  lemma TokensOfJoin(ts: seq<string>, c: char)
    requires AreTokens(ts, c)
    ensures Tokens(JoinWith(ts, c), c) == ts
  {
    if ts == [] {
      assert SplitOn("", c) == [""];
      assert [""][1..] == [];
    } else {
      forall p | p in ts ensures c !in p {
        var i :| 0 <= i < |ts| && ts[i] == p;
        assert IsToken(ts[i], c);
      }
      SplitOfJoin(ts, c);
      assert forall i | 0 <= i < |ts| :: IsToken(ts[i], c);
      NonEmptyOfTokens(ts);
    }
  }

  /** The character loop of `Split`. */
  method SplitLoop(value: string, delimiter: char) returns (parts: seq<string>)
    ensures parts == Tokens(value, delimiter)
  {
    hide SplitOn, NonEmpty;
    parts := [];
    var current := "";
    assert value[0..] == value && "" + value == value;
    for n := 0 to |value|
      invariant parts + Tokens(current + value[n..], delimiter) == Tokens(value, delimiter)
      invariant delimiter !in current
    {
      var ch := value[n];
      assert current + value[n..] == current + [ch] + value[n + 1..];
      if ch == delimiter {
        TokensSplit(current, delimiter, value[n + 1..]);
        if current != "" {
          parts := parts + [current];
        }
        current := "";
        assert "" + value[n + 1..] == value[n + 1..];
      } else {
        current := current + [ch];
      }
    }
    assert current + value[|value|..] == current;
    TokensOfLast(current, delimiter);
    if current != "" {
      parts := parts + [current];
    }
  }

  lemma TokensSplit(a: string, c: char, b: string)
    requires c !in a
    ensures Tokens(a + [c] + b, c) == (if a != "" then [a] else []) + Tokens(b, c)
  {
    hide NonEmpty;
    var s := a + [c] + b;
    IndexOfPrefix(a, c, b);
    assert s[..|a|] == a && s[|a| + 1..] == b;
    NonEmptyCons(a, SplitOn(b, c));
  }

  lemma NonEmptyCons(a: string, rest: seq<string>)
    ensures NonEmpty([a] + rest) == (if a != "" then [a] else []) + NonEmpty(rest)
  {
    assert ([a] + rest)[1..] == rest;
  }

  lemma TokensOfLast(a: string, c: char)
    requires c !in a
    ensures Tokens(a, c) == if a != "" then [a] else []
  {
    assert [a] + [] == [a];
    NonEmptyCons(a, []);
  }

  // ----- normalisation: sort and unique -------------------------------------

  predicate Ascending(ts: seq<string>) {
    forall i, j | 0 <= i < j < |ts| :: StrLess(ts[i], ts[j])
  }

  function Insert(t: string, ts: seq<string>): seq<string> {
    if ts == [] || StrLess(t, ts[0]) then [t] + ts
    else if t == ts[0] then ts
    else [ts[0]] + Insert(t, ts[1..])
  }

  function SortTokens(ts: seq<string>): seq<string> {
    if ts == [] then [] else Insert(ts[0], SortTokens(ts[1..]))
  }

  function NormalizeScope(scope: string): string {
    JoinWith(SortTokens(Tokens(scope, ' ')), ' ')
  }

  lemma PrependLeast(t: string, ts: seq<string>)
    requires Ascending(ts) && (ts == [] || StrLess(t, ts[0]))
    ensures Ascending([t] + ts)
  {
    hide StrLess;
    forall j | 0 <= j < |ts| ensures StrLess(t, ts[j]) {
      if j > 0 {
        StrLessTransitive(t, ts[0], ts[j]);
      }
    }
  }

  lemma {:induction false} InsertKeeps(t: string, ts: seq<string>)
    requires Ascending(ts)
    ensures Ascending(Insert(t, ts))
    ensures forall x :: x in Insert(t, ts) <==> x == t || x in ts
    ensures Insert(t, ts)[0] == t || (ts != [] && Insert(t, ts)[0] == ts[0])
    decreases |ts|
  {
    hide StrLess;
    if ts == [] || StrLess(t, ts[0]) {
      PrependLeast(t, ts);
    } else if t != ts[0] {
      var rest := ts[1..];
      assert ts == [ts[0]] + rest;
      InsertKeeps(t, rest);
      StrLessTrichotomy(t, ts[0]);
      PrependLeast(ts[0], Insert(t, rest));
    }
  }

  lemma {:induction false} SortTokensKeeps(ts: seq<string>)
    ensures Ascending(SortTokens(ts))
    ensures forall x :: x in SortTokens(ts) <==> x in ts
    decreases |ts|
  {
    if ts != [] {
      SortTokensKeeps(ts[1..]);
      InsertKeeps(ts[0], SortTokens(ts[1..]));
      assert ts == [ts[0]] + ts[1..];
    }
  }

  lemma {:induction false} SortOfAscending(ts: seq<string>)
    requires Ascending(ts)
    ensures SortTokens(ts) == ts
    decreases |ts|
  {
    hide StrLess;
    if ts != [] {
      assert ts == [ts[0]] + ts[1..];
      SortOfAscending(ts[1..]);
      assert |ts| > 1 ==> StrLess(ts[0], ts[1]);
    }
  }

  lemma SortedAreTokens(ts: seq<string>, c: char)
    requires AreTokens(ts, c)
    ensures AreTokens(SortTokens(ts), c)
  {
    hide SortTokens;
    SortTokensKeeps(ts);
    var s := SortTokens(ts);
    forall i | 0 <= i < |s| ensures IsToken(s[i], c) {
      assert s[i] in ts;
      var k :| 0 <= k < |ts| && ts[k] == s[i];
    }
  }

  /** Normalising keeps the set of scopes and is idempotent. */
  lemma NormalizeKeepsScopes(scope: string)
    ensures TokenSet(NormalizeScope(scope)) == TokenSet(scope)
    ensures NormalizeScope(NormalizeScope(scope)) == NormalizeScope(scope)
  {
    hide SortTokens, Tokens, JoinWith;
    var ts := Tokens(scope, ' ');
    TokensAreTokens(scope, ' ');
    SortedAreTokens(ts, ' ');
    TokensOfJoin(SortTokens(ts), ' ');
    SortTokensKeeps(ts);
    SortOfAscending(SortTokens(ts));
  }

  // ----- checks -------------------------------------------------------------

  /** `HasScope`: some field between blanks equals the required scope. */
  predicate HasScope(scopes: string, required: string) {
    required in SplitOn(scopes, ' ')
  }

  lemma HasScopeIsMembership(scopes: string, required: string)
    requires required != ""
    ensures HasScope(scopes, required) <==> required in TokenSet(scopes)
  {
    NonEmptyMembers(SplitOn(scopes, ' '), required);
  }

  predicate IsScopeSubset(requested: string, allowed: seq<string>) {
    forall t | t in SplitOn(requested, ' ') && t != "" :: t in allowed
  }

  lemma ScopeSubsetIsSubset(requested: string, allowed: seq<string>)
    ensures IsScopeSubset(requested, allowed) <==> TokenSet(requested) <= set t | t in allowed
  {
    hide SplitOn;
    forall t ensures t in TokenSet(requested) <==> t in SplitOn(requested, ' ') && t != "" {
      NonEmptyMembers(SplitOn(requested, ' '), t);
    }
  }

  /** The search loop of `HasScope`. */
  method FindScope(scopes: string, required: string) returns (found: bool)
    ensures found <==> HasScope(scopes, required)
  {
    var rest := scopes;
    while true
      invariant required in SplitOn(scopes, ' ') <==> required in SplitOn(rest, ' ')
      decreases |rest|
    {
      var space := IndexOf(rest, ' ');
      assert rest[..|rest|] == rest;
      if rest[..space] == required {
        return true;
      }
      if space == |rest| {
        return false;
      }
      rest := rest[space + 1..];
    }
  }
}
