/** Merging imported relationships with stored lineage: a memoised depth-first closure over predecessors. */
module LineageMerge {
  import opened Text
  import opened Checklist

  // ----- the store's table --------------------------------------------------

  /** The stored predecessors of a row, in table order. */
  function PredecessorList(table: seq<TemplateRel>, id: string): seq<string> {
    if table == [] then []
    else
      (if table[0].subject == id && table[0].predicateName == SLUG_PREDECESSOR then [table[0].target] else []) +
      PredecessorList(table[1..], id)
  }

  lemma {:induction false} PredecessorMembers(table: seq<TemplateRel>, id: string)
    ensures forall p :: p in PredecessorList(table, id) <==> TemplateRel(id, SLUG_PREDECESSOR, p) in table
    decreases |table|
  {
    if table != [] {
      PredecessorMembers(table[1..], id);
      var r := table[0];
      assert table == [r] + table[1..];
      assert forall p :: r == TemplateRel(id, SLUG_PREDECESSOR, p) <==>
                         r.subject == id && r.predicateName == SLUG_PREDECESSOR && r.target == p;
    }
  }

  // ----- reachability -------------------------------------------------------

  /** A chain of predecessors that never visits the subject or a blank id. */
  ghost predicate IsPath(table: seq<TemplateRel>, subject: string, path: seq<string>) {
    && path != []
    && (forall i | 0 <= i < |path| :: path[i] != "" && path[i] != subject)
    && (forall i | 0 <= i < |path| - 1 :: TemplateRel(path[i], SLUG_PREDECESSOR, path[i + 1]) in table)
  }

  ghost predicate ReachesBy(table: seq<TemplateRel>, subject: string, directs: seq<string>, p: string,
                            path: seq<string>) {
    IsPath(table, subject, path) && path[0] in directs && path[|path| - 1] == p
  }

  /** `p` is an ancestor of the subject: a direct predecessor, or any number of stored revisions behind one. */
  ghost predicate IsAncestor(table: seq<TemplateRel>, subject: string, directs: seq<string>, p: string) {
    exists path :: ReachesBy(table, subject, directs, p, path)
  }

  /** A set that holds every usable predecessor of its members, except of those still waiting. */
  ghost predicate ClosedExcept(table: seq<TemplateRel>, subject: string, visited: set<string>, waiting: set<string>) {
    forall v, p | v in visited && v !in waiting && TemplateRel(v, SLUG_PREDECESSOR, p) in table ::
      p == "" || p == subject || p in visited
  }

  lemma {:induction false} ClosedHoldsPaths(table: seq<TemplateRel>, subject: string, visited: set<string>,
                                            path: seq<string>)
    requires ClosedExcept(table, subject, visited, {}) && IsPath(table, subject, path) && path[0] in visited
    ensures path[|path| - 1] in visited
    decreases |path|
  {
    if |path| > 1 {
      assert TemplateRel(path[0], SLUG_PREDECESSOR, path[1]) in table;
      var rest := path[1..];
      forall i | 0 <= i < |rest| - 1 ensures TemplateRel(rest[i], SLUG_PREDECESSOR, rest[i + 1]) in table {
        assert TemplateRel(path[i + 1], SLUG_PREDECESSOR, path[i + 2]) in table;
      }
      ClosedHoldsPaths(table, subject, visited, rest);
    }
  }

  lemma AncestorStep(table: seq<TemplateRel>, subject: string, directs: seq<string>, v: string, p: string)
    requires IsAncestor(table, subject, directs, v)
    requires TemplateRel(v, SLUG_PREDECESSOR, p) in table && p != "" && p != subject
    ensures IsAncestor(table, subject, directs, p)
  {
    var path :| ReachesBy(table, subject, directs, v, path);
    var longer := path + [p];
    forall i | 0 <= i < |longer| - 1 ensures TemplateRel(longer[i], SLUG_PREDECESSOR, longer[i + 1]) in table {
      if i < |path| - 1 {
        assert TemplateRel(path[i], SLUG_PREDECESSOR, path[i + 1]) in table;
      }
    }
    assert ReachesBy(table, subject, directs, p, longer);
  }

  lemma DirectIsAncestor(table: seq<TemplateRel>, subject: string, directs: seq<string>, d: string)
    requires d in directs && d != "" && d != subject
    ensures IsAncestor(table, subject, directs, d)
  {
    assert ReachesBy(table, subject, directs, d, [d]);
  }

  // ----- merged relationships -----------------------------------------------

  /** The key under which a relationship is remembered: its parts joined by the unit separator. */
  function Key(r: TemplateRel): string {
    r.subject + ['\U{1F}'] + r.predicateName + ['\U{1F}'] + r.target
  }

  predicate SeparatorFree(r: TemplateRel) {
    '\U{1F}' !in r.subject && '\U{1F}' !in r.predicateName
  }

  lemma SplitAtSeparator(a: string, b: string, c: string, d: string, sep: char)
    requires sep !in a && sep !in c && a + [sep] + b == c + [sep] + d
    ensures a == c && b == d
  {
    var whole := a + [sep] + b;
    IndexOfPrefix(a, sep, b);
    IndexOfPrefix(c, sep, d);
    assert whole[..|a|] == a && whole[|a| + 1..] == b;
    assert whole[..|c|] == c && whole[|c| + 1..] == d;
  }

  lemma KeyIsInjective(a: TemplateRel, b: TemplateRel)
    requires SeparatorFree(a) && SeparatorFree(b) && Key(a) == Key(b)
    ensures a == b
  {
    var sep := '\U{1F}';
    var restA, restB := a.predicateName + [sep] + a.target, b.predicateName + [sep] + b.target;
    assert Key(a) == a.subject + [sep] + restA && Key(b) == b.subject + [sep] + restB;
    SplitAtSeparator(a.subject, restA, b.subject, restB, sep);
    SplitAtSeparator(a.predicateName, a.target, b.predicateName, b.target, sep);
  }

  predicate Admissible(r: TemplateRel, subjects: set<string>) {
    && r.subject != "" && r.predicateName != "" && r.target != ""
    && (subjects != {} ==> r.subject in subjects)
  }

  predicate IsLineage(r: TemplateRel) {
    r.predicateName == SLUG_PREDECESSOR || r.predicateName == SLUG_SUCCESSOR
  }

  predicate Covers(merged: seq<TemplateRel>, r: TemplateRel) {
    exists m | m in merged :: Key(m) == Key(r)
  }

  predicate DistinctKeys(merged: seq<TemplateRel>) {
    forall i, j | 0 <= i < j < |merged| :: Key(merged[i]) != Key(merged[j])
  }

  /** The direct predecessors an import declares for `subject`, in either spelling and in input order. */
  function DirectList(incoming: seq<TemplateRel>, subject: string): seq<string> {
    if incoming == [] then [] else
      var r := incoming[0];
      (if r.predicateName == SLUG_PREDECESSOR && r.subject == subject then [r.target]
       else if r.predicateName == SLUG_SUCCESSOR && r.target == subject then [r.subject]
       else []) + DirectList(incoming[1..], subject)
  }

  /** What the merge promises. */
  ghost predicate IsMergeOf(merged: seq<TemplateRel>, table: seq<TemplateRel>, existing: seq<TemplateRel>,
                            subjects: set<string>, incoming: seq<TemplateRel>) {
    && DistinctKeys(merged)
    && (forall m | m in merged ::
          Admissible(m, subjects) &&
          (m in incoming || (m in existing && IsLineage(m)) ||
           (m.predicateName == SLUG_PREDECESSOR && m.subject in subjects &&
            IsAncestor(table, m.subject, DirectList(incoming, m.subject), m.target))))
    && (forall r | r in incoming && Admissible(r, subjects) :: Covers(merged, r))
    && (subjects != {} ==> forall r | r in existing && IsLineage(r) && Admissible(r, subjects) :: Covers(merged, r))
    && (forall s, p | s in subjects && IsAncestor(table, s, DirectList(incoming, s), p) ::
          p in DirectList(incoming, s) || Covers(merged, TemplateRel(s, SLUG_PREDECESSOR, p)))
  }

  /** Everything the search can ever visit. */
  function Universe(table: seq<TemplateRel>): set<string> {
    set r | r in table :: r.target
  }

  lemma ExpandKeepsInvariant(table: seq<TemplateRel>, subject: string, directs: seq<string>, current: string,
                             preds: seq<string>, was: set<string>, visited: set<string>, below: seq<string>,
                             stack: seq<string>, marked: set<string>)
    requires preds == PredecessorList(table, current) && current in was
    requires visited == was + set p | p in preds && p != "" && p != subject
    requires below <= stack && (forall v | v in visited && v !in was :: v in stack)
    requires forall v | v in stack[|below|..] :: v in visited && v !in was
    requires visited == was ==> stack == below
    requires forall v | v in below :: v in was
    requires ClosedExcept(table, subject, was, set v | v in below + [current])
    requires forall v | v in was :: IsAncestor(table, subject, directs, v)
    ensures forall v | v in stack :: v in visited
    ensures ClosedExcept(table, subject, visited, set v | v in stack)
    ensures forall v | v in visited :: IsAncestor(table, subject, directs, v)
    ensures visited == was || Universe(table) + marked - visited < Universe(table) + marked - was
  {
    hide IsAncestor;
    PredecessorMembers(table, current);
    assert stack == below + stack[|below|..];
    forall v | v in visited ensures IsAncestor(table, subject, directs, v) {
      if v !in was {
        AncestorStep(table, subject, directs, current, v);
      }
    }
    forall v, p | v in visited && v !in (set x | x in stack) && TemplateRel(v, SLUG_PREDECESSOR, p) in table
      ensures p == "" || p == subject || p in visited
    {
      if v == current {
        assert p in preds;
      } else {
        assert v in was;
        assert v !in (set x | x in below + [current]);
      }
    }
    if visited != was {
      var v :| v in visited && v !in was;
      assert TemplateRel(current, SLUG_PREDECESSOR, v) in table;
      assert v in Universe(table);
    }
  }

  lemma NothingIsClosed(table: seq<TemplateRel>, subject: string)
    ensures ClosedExcept(table, subject, {}, {})
  {
  }

  lemma StillClosed(table: seq<TemplateRel>, subject: string, visited: set<string>, direct: string)
    requires ClosedExcept(table, subject, visited, {})
    ensures ClosedExcept(table, subject, visited + {direct}, {direct})
  {
  }

  lemma WalkIsComplete(table: seq<TemplateRel>, subject: string, directs: seq<string>, visited: set<string>)
    requires ClosedExcept(table, subject, visited, {})
    requires forall d | d in directs && d != "" && d != subject :: d in visited
    ensures forall p | IsAncestor(table, subject, directs, p) :: p in visited
  {
    hide ClosedExcept;
    forall p | IsAncestor(table, subject, directs, p) ensures p in visited {
      var path :| ReachesBy(table, subject, directs, p, path);
      ClosedHoldsPaths(table, subject, visited, path);
    }
  }

  lemma CoversGrows(a: seq<TemplateRel>, b: seq<TemplateRel>)
    requires a <= b
    ensures forall r | Covers(a, r) :: Covers(b, r)
  {
    hide Key;
    forall r | Covers(a, r) ensures Covers(b, r) {
      var m :| m in a && Key(m) == Key(r);
      assert m in b;
    }
  }

  lemma PredecessorStep(table: seq<TemplateRel>, n: nat, id: string)
    requires n < |table|
    ensures var r := table[n];
            PredecessorList(table[n..], id)
            == (if r.subject == id && r.predicateName == SLUG_PREDECESSOR then [r.target] else [])
               + PredecessorList(table[n + 1..], id)
  {
    assert table[n..][1..] == table[n + 1..];
  }

  /** The store query behind the cache. */
  method ReadPredecessors(table: seq<TemplateRel>, id: string) returns (preds: seq<string>)
    ensures preds == PredecessorList(table, id)
  {
    hide PredecessorList;
    preds := [];
    assert table[0..] == table;
    for n := 0 to |table|
      invariant preds + PredecessorList(table[n..], id) == PredecessorList(table, id)
    {
      PredecessorStep(table, n, id);
      if table[n].subject == id && table[n].predicateName == SLUG_PREDECESSOR {
        preds := preds + [table[n].target];
      }
    }
    NoPredecessors(table[|table|..], id);
  }

  lemma NoPredecessors(table: seq<TemplateRel>, id: string)
    requires table == []
    ensures PredecessorList(table, id) == []
  {
  }

  // ----- the merge as it runs -----------------------------------------------

  /** The variables the original's closures share: the seen keys, the output and the predecessor cache. */
  class Merger {
    const table: seq<TemplateRel>
    const subjects: set<string>
    var seen: set<string>
    var merged: seq<TemplateRel>
    var cache: map<string, seq<string>>

    ghost predicate Valid()
      reads this
    {
      && (forall k :: k in seen <==> exists m | m in merged :: Key(m) == k)
      && DistinctKeys(merged)
      && (forall m | m in merged :: Admissible(m, subjects))
      && (forall id | id in cache :: cache[id] == PredecessorList(table, id))
    }

    constructor (table: seq<TemplateRel>, subjects: set<string>)
      ensures this.table == table && this.subjects == subjects && Valid() && merged == []
    {
      this.table, this.subjects := table, subjects;
      seen, merged, cache := {}, [], map[];
    }

    /** Appends a relationship unless it is inadmissible or already there. */
    method AddRel(r: TemplateRel)
      requires Valid()
      modifies this`seen, this`merged
      ensures Valid()
      ensures merged == old(merged) || merged == old(merged) + [r]
      ensures Admissible(r, subjects) ==> Covers(merged, r)
      ensures !Admissible(r, subjects) ==> merged == old(merged)
    {
      hide Key;
      if !Admissible(r, subjects) {
        return;
      }
      var key := Key(r);
      if key !in seen {
        seen := seen + {key};
        merged := merged + [r];
      }
    }

    /** The cached predecessor list. */
    method LoadPredecessors(id: string) returns (preds: seq<string>)
      requires Valid()
      modifies this`cache
      ensures Valid() && preds == PredecessorList(table, id)
    {
      if id in cache {
        return cache[id];
      }
      preds := ReadPredecessors(table, id);
      cache := cache[id := preds];
    }

    /** Handles one popped row: its unseen predecessors are recorded, related to the subject and pushed. */
    method Expand(subject: string, preds: seq<string>, visited: set<string>, stack: seq<string>)
      returns (visited': set<string>, stack': seq<string>)
      requires Valid() && subject in subjects && subject != ""
      modifies this`seen, this`merged
      ensures Valid() && old(merged) <= merged
      ensures visited' == visited + set p | p in preds && p != "" && p != subject
      ensures stack <= stack' && (forall v | v in visited' && v !in visited :: v in stack')
      ensures forall v | v in stack'[|stack|..] :: v in visited' && v !in visited
      ensures visited' == visited ==> stack' == stack
      ensures forall m | m in merged[|old(merged)|..] ::
                m.subject == subject && m.predicateName == SLUG_PREDECESSOR && m.target in visited'
                && m.target !in visited
      ensures forall v | v in visited' && v !in visited :: Covers(merged, TemplateRel(subject, SLUG_PREDECESSOR, v))
    {
      hide Key, Valid, DistinctKeys;
      visited', stack' := visited, stack;
      for n := 0 to |preds|
        invariant Valid() && old(merged) <= merged
        invariant visited' == visited + set p | p in preds[..n] && p != "" && p != subject
        invariant stack <= stack' && forall v | v in visited' && v !in visited :: v in stack'
        invariant forall v | v in stack'[|stack|..] :: v in visited' && v !in visited
        invariant visited' == visited ==> stack' == stack
        invariant forall m | m in merged[|old(merged)|..] ::
                    m.subject == subject && m.predicateName == SLUG_PREDECESSOR && m.target in visited'
                    && m.target !in visited
        invariant forall v | v in visited' && v !in visited :: Covers(merged, TemplateRel(subject, SLUG_PREDECESSOR, v))
      {
        var p := preds[n];
        assert preds[..n + 1] == preds[..n] + [p];
        if p != "" && p != subject && p !in visited' {
          visited' := visited' + {p};
          ghost var before := merged;
          AddRel(TemplateRel(subject, SLUG_PREDECESSOR, p));
          CoversGrows(before, merged);
          stack' := stack' + [p];
        }
      }
      assert preds[..|preds|] == preds;
    }

    /** The search from one direct predecessor that has just been marked as visited. */
    method Search(subject: string, directs: seq<string>, direct: string, marked: set<string>)
      returns (visited: set<string>)
      requires Valid() && subject in subjects && subject != ""
      requires direct in marked && direct in directs && direct != "" && direct != subject
      requires ClosedExcept(table, subject, marked, {direct})
      requires forall v | v in marked :: IsAncestor(table, subject, directs, v)
      modifies this
      ensures Valid() && old(merged) <= merged
      ensures marked <= visited && ClosedExcept(table, subject, visited, {})
      ensures forall v | v in visited :: IsAncestor(table, subject, directs, v)
      ensures forall m | m in merged[|old(merged)|..] :: IsFound(m, subject, directs)
      ensures forall v | v in visited && v !in marked :: Covers(merged, TemplateRel(subject, SLUG_PREDECESSOR, v))
    {
      hide Key, Valid, DistinctKeys, IsAncestor, ClosedExcept, Covers;
      visited := marked;
      var stack := [direct];
      assert (set v | v in stack) == {direct};
      while stack != []
        invariant Valid() && old(merged) <= merged
        invariant marked <= visited && (forall v | v in stack :: v in visited)
        invariant ClosedExcept(table, subject, visited, set v | v in stack)
        invariant forall v | v in visited :: IsAncestor(table, subject, directs, v)
        invariant forall m | m in merged[|old(merged)|..] :: IsFound(m, subject, directs)
        invariant forall v | v in visited && v !in marked :: Covers(merged, TemplateRel(subject, SLUG_PREDECESSOR, v))
        decreases Universe(table) + marked - visited, |stack|
      {
        var current := stack[|stack| - 1];
        ghost var was, before, below := visited, merged, stack[..|stack| - 1];
        assert stack == below + [current];
        stack := stack[..|stack| - 1];
        var preds := LoadPredecessors(current);
        visited, stack := Expand(subject, preds, visited, stack);
        CoversGrows(before, merged);
        ExpandKeepsInvariant(table, subject, directs, current, preds, was, visited, below, stack, marked);
        assert merged[|old(merged)|..] == before[|old(merged)|..] + merged[|before|..];
      }
      assert (set v | v in stack) == {};
    }

    ghost predicate IsFound(m: TemplateRel, subject: string, directs: seq<string>) {
      m.subject == subject && m.predicateName == SLUG_PREDECESSOR && IsAncestor(table, subject, directs, m.target)
    }

    /** The closure for one subject, over all its direct predecessors. */
    method Walk(subject: string, directs: seq<string>)
      requires Valid() && subject in subjects && subject != ""
      modifies this
      ensures Valid() && old(merged) <= merged
      ensures forall m | m in merged[|old(merged)|..] :: IsFound(m, subject, directs)
      ensures forall p | IsAncestor(table, subject, directs, p) ::
                p in directs || Covers(merged, TemplateRel(subject, SLUG_PREDECESSOR, p))
    {
      hide Key, Valid, DistinctKeys, IsAncestor, ClosedExcept, Covers;
      var visited: set<string> := {};
      NothingIsClosed(table, subject);
      for n := 0 to |directs|
        invariant Valid() && old(merged) <= merged
        invariant ClosedExcept(table, subject, visited, {})
        invariant forall v | v in visited :: IsAncestor(table, subject, directs, v)
        invariant forall d | d in directs[..n] && d != "" && d != subject :: d in visited
        invariant forall m | m in merged[|old(merged)|..] :: IsFound(m, subject, directs)
        invariant forall v | v in visited && v !in directs :: Covers(merged, TemplateRel(subject, SLUG_PREDECESSOR, v))
      {
        var direct := directs[n];
        assert directs[..n + 1] == directs[..n] + [direct];
        if direct != "" && direct != subject && direct !in visited {
          ghost var before, was := merged, visited;
          visited := visited + {direct};
          DirectIsAncestor(table, subject, directs, direct);
          StillClosed(table, subject, was, direct);
          visited := Search(subject, directs, direct, visited);
          CoversGrows(before, merged);
          assert merged[|old(merged)|..] == before[|old(merged)|..] + merged[|before|..];
        }
      }
      assert directs[..|directs|] == directs;
      WalkIsComplete(table, subject, directs, visited);
    }
  }

  /** Records the declared direct predecessors of every imported row, whichever spelling declares them. */
  method CollectDirects(incoming: seq<TemplateRel>, subjects: set<string>) returns (directs: map<string, seq<string>>)
    ensures directs.Keys <= subjects
    ensures forall s | s in subjects :: DirectList(incoming, s) == Recorded(directs, s)
  {
    hide DirectList, Recorded, Pushed;
    directs := map[];
    NothingRecorded(incoming[..0]);
    for n := 0 to |incoming|
      invariant directs.Keys <= subjects
      invariant forall s | s in subjects :: DirectList(incoming[..n], s) == Recorded(directs, s)
    {
      var r := incoming[n];
      RecordingStep(incoming[..n], r, directs, subjects);
      assert incoming[..n + 1] == incoming[..n] + [r];
      if r.predicateName == SLUG_PREDECESSOR && r.subject in subjects {
        directs := Pushed(directs, r.subject, r.target);
      } else if r.predicateName == SLUG_SUCCESSOR && r.target in subjects {
        directs := Pushed(directs, r.target, r.subject);
      }
    }
    assert incoming[..|incoming|] == incoming;
  }

  function Recorded(directs: map<string, seq<string>>, key: string): seq<string> {
    if key in directs then directs[key] else []
  }

  function Pushed(m: map<string, seq<string>>, key: string, value: string): map<string, seq<string>> {
    m[key := Recorded(m, key) + [value]]
  }

  /** One relationship is recorded under the imported row it gives a predecessor to. */
  function Recording(directs: map<string, seq<string>>, r: TemplateRel, subjects: set<string>): map<string, seq<string>> {
    if r.predicateName == SLUG_PREDECESSOR && r.subject in subjects then Pushed(directs, r.subject, r.target)
    else if r.predicateName == SLUG_SUCCESSOR && r.target in subjects then Pushed(directs, r.target, r.subject)
    else directs
  }

  lemma NothingRecorded(none: seq<TemplateRel>)
    requires none == []
    ensures forall s :: DirectList(none, s) == Recorded(map[], s)
  {
  }

  lemma RecordingStep(seen: seq<TemplateRel>, r: TemplateRel, directs: map<string, seq<string>>, subjects: set<string>)
    requires directs.Keys <= subjects && forall s | s in subjects :: DirectList(seen, s) == Recorded(directs, s)
    ensures var next := Recording(directs, r, subjects);
            next.Keys <= subjects && forall s | s in subjects :: DirectList(seen + [r], s) == Recorded(next, s)
  {
    hide DirectList;
    forall s | s in subjects ensures DirectList(seen + [r], s) == Recorded(Recording(directs, r, subjects), s) {
      DirectSnoc(seen, r, s);
      assert Recorded(directs, s) + [] == Recorded(directs, s);
    }
  }

  function DirectOf(r: TemplateRel, subject: string): seq<string> {
    if r.predicateName == SLUG_PREDECESSOR && r.subject == subject then [r.target]
    else if r.predicateName == SLUG_SUCCESSOR && r.target == subject then [r.subject]
    else []
  }

  lemma {:induction false} DirectSnoc(incoming: seq<TemplateRel>, r: TemplateRel, subject: string)
    ensures DirectList(incoming + [r], subject) == DirectList(incoming, subject) + DirectOf(r, subject)
    decreases |incoming|
  {
    if incoming == [] {
      assert incoming + [r] == [r];
      assert [r][1..] == [];
    } else {
      assert (incoming + [r])[1..] == incoming[1..] + [r];
      DirectSnoc(incoming[1..], r, subject);
    }
  }

  /** Adds every relationship of a list that passes the filter. */
  method AddAll(merger: Merger, rels: seq<TemplateRel>, lineageOnly: bool)
    requires merger.Valid()
    modifies merger
    ensures merger.Valid() && old(merger.merged) <= merger.merged
    ensures forall m | m in merger.merged[|old(merger.merged)|..] :: m in rels && (lineageOnly ==> IsLineage(m))
    ensures forall r | r in rels && (lineageOnly ==> IsLineage(r)) && Admissible(r, merger.subjects) ::
              Covers(merger.merged, r)
  {
    hide Key, Merger.Valid, Covers, Admissible;
    for n := 0 to |rels|
      invariant merger.Valid() && old(merger.merged) <= merger.merged
      invariant forall m | m in merger.merged[|old(merger.merged)|..] :: m in rels && (lineageOnly ==> IsLineage(m))
      invariant forall r | r in rels[..n] && (lineageOnly ==> IsLineage(r)) && Admissible(r, merger.subjects) ::
                  Covers(merger.merged, r)
    {
      assert rels[..n + 1] == rels[..n] + [rels[n]];
      if !lineageOnly || IsLineage(rels[n]) {
        ghost var before := merger.merged;
        merger.AddRel(rels[n]);
        CoversGrows(before, merger.merged);
        assert merger.merged[|old(merger.merged)|..] == before[|old(merger.merged)|..] + merger.merged[|before|..];
      }
    }
    assert rels[..|rels|] == rels;
  }

  /** The closure for every row with declared predecessors, in whatever order the map yields them. */
  method WalkAll(merger: Merger, incoming: seq<TemplateRel>, directs: map<string, seq<string>>)
    requires merger.Valid() && "" !in merger.subjects && directs.Keys <= merger.subjects
    requires forall s | s in merger.subjects :: DirectList(incoming, s) == Recorded(directs, s)
    modifies merger
    ensures merger.Valid() && old(merger.merged) <= merger.merged
    ensures forall m | m in merger.merged[|old(merger.merged)|..] ::
              m.predicateName == SLUG_PREDECESSOR && m.subject in merger.subjects &&
              IsAncestor(merger.table, m.subject, DirectList(incoming, m.subject), m.target)
    ensures forall s, p | s in merger.subjects && IsAncestor(merger.table, s, DirectList(incoming, s), p) ::
              p in DirectList(incoming, s) || Covers(merger.merged, TemplateRel(s, SLUG_PREDECESSOR, p))
  {
    hide Key, Merger.Valid, Covers, IsAncestor, DirectList;
    var todo := directs.Keys;
    while todo != {}
      invariant merger.Valid() && old(merger.merged) <= merger.merged && todo <= directs.Keys
      invariant forall m | m in merger.merged[|old(merger.merged)|..] ::
                  m.predicateName == SLUG_PREDECESSOR && m.subject in merger.subjects &&
                  IsAncestor(merger.table, m.subject, DirectList(incoming, m.subject), m.target)
      invariant forall s, p | s in directs && s !in todo && IsAncestor(merger.table, s, directs[s], p) ::
                  p in directs[s] || Covers(merger.merged, TemplateRel(s, SLUG_PREDECESSOR, p))
    {
      var s :| s in todo;
      todo := todo - {s};
      ghost var before := merger.merged;
      merger.Walk(s, directs[s]);
      CoversGrows(before, merger.merged);
      assert merger.merged[|old(merger.merged)|..] == before[|old(merger.merged)|..] + merger.merged[|before|..];
    }
    forall s, p | s in merger.subjects && IsAncestor(merger.table, s, DirectList(incoming, s), p)
      ensures p in DirectList(incoming, s) || Covers(merger.merged, TemplateRel(s, SLUG_PREDECESSOR, p))
    {
      if s !in directs {
        NoDirectNoAncestor(merger.table, s, p);
      }
    }
  }

  lemma NoDirectNoAncestor(table: seq<TemplateRel>, subject: string, p: string)
    ensures !IsAncestor(table, subject, [], p)
  {
  }

  /** The merge. Without a checklist name the input is returned as it is. */
  method MergeWithLineage(table: seq<TemplateRel>, existing: seq<TemplateRel>, checklist: string,
                          subjectIds: seq<string>, incoming: seq<TemplateRel>) returns (merged: seq<TemplateRel>)
    ensures checklist == "" ==> merged == incoming
    ensures checklist != "" ==>
      IsMergeOf(merged, table, existing, (set s | s in subjectIds && s != ""), incoming)
  {
    hide Key, Merger.Valid, Covers, IsAncestor, DirectList, Admissible, DistinctKeys;
    if checklist == "" {
      return incoming;
    }
    var subjects := set s | s in subjectIds && s != "";
    var directs := CollectDirects(incoming, subjects);
    var merger := new Merger(table, subjects);
    AddAll(merger, incoming, false);
    ValidMeans(merger);
    if subjects == {} {
      return merger.merged;
    }
    ghost var first := merger.merged;
    AddAll(merger, existing, true);
    ghost var second := merger.merged;
    WalkAll(merger, incoming, directs);
    merged := merger.merged;
    ValidMeans(merger);
    CoversGrows(first, second);
    CoversGrows(second, merged);
    assert merged == first + second[|first|..] + merged[|second|..];
  }

  lemma ValidMeans(merger: Merger)
    requires merger.Valid()
    ensures DistinctKeys(merger.merged) && forall m | m in merger.merged :: Admissible(m, merger.subjects)
  {
  }
}
