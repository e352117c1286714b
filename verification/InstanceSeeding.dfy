/** Seeding an instance: one POST for each template row the instance does not have, through the worker pool. */
module InstanceSeeding {
  import opened Text
  import opened WorkerPool

  datatype Row = Row(slugId: string, section: string, procedure: string, action: string, spec: string,
                     instructions: string)

  datatype SeedError = NoPrincipal

  function Slugs(rows: seq<Row>): seq<string> {
    seq(|rows|, i requires 0 <= i < |rows| => rows[i].slugId)
  }

  /** The keys of a map filled in list order: each slug at its first appearance. */
  function Keys(rows: seq<Row>): seq<string> {
    if rows == [] then []
    else
      var n := |rows| - 1;
      var earlier := Keys(rows[..n]);
      if rows[n].slugId in earlier then earlier else earlier + [rows[n].slugId]
  }

  /** The value such a map holds: the last row with the slug. */
  function LastWith(rows: seq<Row>, slug: string): Row
    requires slug in Slugs(rows)
  {
    var n := |rows| - 1;
    if rows[n].slugId == slug then rows[n]
    else
      assert slug in Slugs(rows[..n]) by {
        var i :| 0 <= i < |rows| && Slugs(rows)[i] == slug;
        assert Slugs(rows[..n])[i] == slug;
      }
      LastWith(rows[..n], slug)
  }

  lemma {:induction false} KeysAreSlugs(rows: seq<Row>)
    ensures forall s :: s in Keys(rows) <==> s in Slugs(rows)
    ensures forall i, j | 0 <= i < j < |Keys(rows)| :: Keys(rows)[i] != Keys(rows)[j]
    decreases |rows|
  {
    if rows != [] {
      var n := |rows| - 1;
      KeysAreSlugs(rows[..n]);
      assert Slugs(rows) == Slugs(rows[..n]) + [rows[n].slugId];
    }
  }

  /** The rows to create, in key order. */
  function MissingOf(rows: seq<Row>, keys: seq<string>, have: set<string>): seq<Row>
    requires forall k | k in keys :: k in Slugs(rows)
  {
    if keys == [] then []
    else
      var n := |keys| - 1;
      MissingOf(rows, keys[..n], have) + (if keys[n] in have then [] else [LastWith(rows, keys[n])])
  }

  function Missing(rows: seq<Row>, have: set<string>): seq<Row> {
    KeysAreSlugs(rows);
    MissingOf(rows, Keys(rows), have)
  }

  /** The map says of each slug what the list says. */
  ghost predicate IsIndex(bySlug: map<string, Row>, rows: seq<Row>) {
    forall s :: (s in bySlug <==> s in Slugs(rows)) && (s in bySlug ==> bySlug[s] == LastWith(rows, s))
  }

  lemma IndexGrows(bySlug: map<string, Row>, rows: seq<Row>, row: Row)
    requires IsIndex(bySlug, rows)
    ensures IsIndex(bySlug[row.slugId := row], rows + [row])
  {
    var all := rows + [row];
    assert all[..|rows|] == rows && Slugs(all) == Slugs(rows) + [row.slugId];
    forall s ensures s in bySlug[row.slugId := row] <==> s in Slugs(all) {
      assert s in bySlug <==> s in Slugs(rows);
    }
  }

  method IndexBySlug(rows: seq<Row>) returns (keys: seq<string>, bySlug: map<string, Row>)
    ensures keys == Keys(rows) && IsIndex(bySlug, rows)
  {
    hide IsIndex;
    keys, bySlug := [], map[];
    EmptyIndex();
    for n := 0 to |rows|
      invariant keys == Keys(rows[..n]) && IsIndex(bySlug, rows[..n])
    {
      var row := rows[n];
      SameKeys(bySlug, rows[..n], row.slugId);
      IndexGrows(bySlug, rows[..n], row);
      assert rows[..n + 1] == rows[..n] + [row] && rows[..n + 1][..n] == rows[..n];
      if row.slugId !in bySlug {
        keys := keys + [row.slugId];
      }
      bySlug := bySlug[row.slugId := row];
    }
    assert rows[..|rows|] == rows;
  }

  lemma EmptyIndex()
    ensures IsIndex(map[], [])
  {
  }

  lemma SameKeys(bySlug: map<string, Row>, rows: seq<Row>, slug: string)
    requires IsIndex(bySlug, rows)
    ensures slug in bySlug <==> slug in Keys(rows)
  {
    KeysAreSlugs(rows);
  }

  method FindMissing(rows: seq<Row>, have: set<string>) returns (missing: seq<Row>)
    ensures missing == Missing(rows, have)
  {
    hide LastWith, Keys;
    KeysAreSlugs(rows);
    var keys, bySlug := IndexBySlug(rows);
    missing := [];
    for n := 0 to |keys|
      invariant missing == MissingOf(rows, keys[..n], have)
    {
      assert keys[..n + 1][..n] == keys[..n];
      assert keys[n] in keys;
      if keys[n] !in have {
        missing := missing + [bySlug[keys[n]]];
      }
    }
    assert keys[..|keys|] == keys;
  }

  /** `post` stands for the request and its response. */
  method EnsureInstanceCoverage<C(0)>(rows: seq<Row>, have: set<string>, principal: string, concurrency: int,
                                      post: (Row, nat) -> C) returns (r: Result<seq<C>, SeedError>)
    ensures r.Err? <==> Missing(rows, have) != [] && principal == ""
    ensures r.Ok? ==> |r.value| == |Missing(rows, have)| &&
                      forall i | 0 <= i < |r.value| :: r.value[i] == post(Missing(rows, have)[i], i)
  {
    hide Missing;
    var missing := FindMissing(rows, have);
    if missing == [] {
      return Ok([]);
    }
    if principal == "" {
      return Err(NoPrincipal);
    }
    var created := MapWithConcurrency(missing, concurrency, post);
    r := Ok(created);
  }

  // ----- the laws -----------------------------------------------------------

  lemma {:induction false} LastWithHasSlug(rows: seq<Row>, slug: string)
    requires slug in Slugs(rows)
    ensures LastWith(rows, slug).slugId == slug && LastWith(rows, slug) in rows
    decreases |rows|
  {
    var n := |rows| - 1;
    if rows[n].slugId != slug {
      assert Slugs(rows) == Slugs(rows[..n]) + [rows[n].slugId];
      LastWithHasSlug(rows[..n], slug);
    }
  }

  lemma {:induction false} MissingMembers(rows: seq<Row>, keys: seq<string>, have: set<string>, slug: string)
    requires forall k | k in keys :: k in Slugs(rows)
    requires forall i, j | 0 <= i < j < |keys| :: keys[i] != keys[j]
    ensures multiset(Slugs(MissingOf(rows, keys, have)))[slug] == if slug in keys && slug !in have then 1 else 0
    decreases |keys|
  {
    hide LastWith;
    if keys == [] {
      assert Slugs([]) == [];
    } else {
      var n := |keys| - 1;
      var earlier := MissingOf(rows, keys[..n], have);
      MissingMembers(rows, keys[..n], have, slug);
      LastWithHasSlug(rows, keys[n]);
      assert keys == keys[..n] + [keys[n]];
      assert keys[n] !in keys[..n];
      if keys[n] in have {
        assert earlier + [] == earlier;
      } else {
        assert Slugs(earlier + [LastWith(rows, keys[n])]) == Slugs(earlier) + [keys[n]];
      }
    }
  }

  /** The slugs posted by the worker calls made so far, in call order. */
  function Posted(missing: seq<Row>, calls: seq<nat>): seq<string>
    requires forall i | 0 <= i < |calls| :: calls[i] < |missing|
  {
    seq(|calls|, i requires 0 <= i < |calls| => missing[calls[i]].slugId)
  }

  /** Under every interleaving without a rejection, a finished seeding has posted each template slug that the instance
    * lacks exactly once, and no other. */
  lemma EachMissingSlugPostedOnce<C>(rows: seq<Row>, have: set<string>, concurrency: int, steps: seq<Step<C>>,
                                     slug: string)
    requires var start := Start<C>(|Missing(rows, have)|, concurrency);
             IsRun(start, steps) && Finished(Final(start, steps))
    ensures var p := Final(Start<C>(|Missing(rows, have)|, concurrency), steps);
            && (forall i | 0 <= i < |p.calls| :: p.calls[i] < |Missing(rows, have)|)
            && multiset(Posted(Missing(rows, have), p.calls))[slug] ==
               if slug in Slugs(rows) && slug !in have then 1 else 0
  {
    hide IsRun, Final, Finished, Start;
    var missing := Missing(rows, have);
    FinishedHasAll<C>(|missing|, concurrency, steps);
    KeysAreSlugs(rows);
    MissingMembers(rows, Keys(rows), have, slug);
    var p := Final(Start<C>(|missing|, concurrency), steps);
    assert Posted(missing, p.calls) == Slugs(missing);
  }

  /** While it is still going on, it never posts a slug twice. */
  lemma NoSlugPostedTwice<C>(rows: seq<Row>, have: set<string>, concurrency: int, steps: seq<Step<C>>, i: nat, j: nat)
    requires IsRun(Start<C>(|Missing(rows, have)|, concurrency), steps)
    requires i < j < |Final(Start<C>(|Missing(rows, have)|, concurrency), steps).calls|
    ensures var p, missing := Final(Start<C>(|Missing(rows, have)|, concurrency), steps), Missing(rows, have);
            && p.calls[i] < |missing| && p.calls[j] < |missing|
            && missing[p.calls[i]].slugId != missing[p.calls[j]].slugId
  {
    hide IsRun, Final, Start;
    var missing := Missing(rows, have);
    ClaimsAreOrdered<C>(|missing|, concurrency, steps);
    KeysAreSlugs(rows);
    var slug := missing[i].slugId;
    MissingMembers(rows, Keys(rows), have, slug);
    if missing[j].slugId == slug {
      TwiceCounted(Slugs(missing), i, j);
    }
  }

  lemma TwiceCounted(s: seq<string>, i: nat, j: nat)
    requires i < j < |s| && s[i] == s[j]
    ensures multiset(s)[s[i]] >= 2
  {
    assert s == s[..i] + [s[i]] + s[i + 1..j] + [s[j]] + s[j + 1..];
  }
}
