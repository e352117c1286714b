/** What merging achieves: exactly the lineage closure, and over any run of imports the whole revision history. */
module LineageHistory {
  import opened Text
  import opened Checklist
  import opened LineageMerge

  predicate NoRepeats(rels: seq<TemplateRel>) {
    forall i, j | 0 <= i < j < |rels| :: rels[i] != rels[j]
  }

  /** Identifiers and predicates without the separator character, as base-32 ids and predicate tokens are. */
  predicate PlainNames(rels: seq<TemplateRel>) {
    forall r | r in rels :: SeparatorFree(r)
  }

  /** Every declared direct predecessor is also given as a predecessor relationship, as the parser writes it. */
  predicate BothDirections(subjects: set<string>, incoming: seq<TemplateRel>) {
    forall s, d | s in subjects && d in DirectList(incoming, s) && d != "" ::
      TemplateRel(s, SLUG_PREDECESSOR, d) in incoming
  }

  /** What belongs into the merged list. */
  ghost predicate Belongs(r: TemplateRel, table: seq<TemplateRel>, existing: seq<TemplateRel>, subjects: set<string>,
                          incoming: seq<TemplateRel>) {
    && Admissible(r, subjects)
    && (|| r in incoming
        || (r in existing && IsLineage(r))
        || (r.predicateName == SLUG_PREDECESSOR &&
            IsAncestor(table, r.subject, DirectList(incoming, r.subject), r.target)))
  }

  lemma CoveredIsThere(merged: seq<TemplateRel>, r: TemplateRel)
    requires PlainNames(merged) && SeparatorFree(r) && Covers(merged, r)
    ensures r in merged
  {
    hide Key;
    var m :| m in merged && Key(m) == Key(r);
    KeyIsInjective(m, r);
  }

  lemma MergedNamesArePlain(merged: seq<TemplateRel>, table: seq<TemplateRel>, existing: seq<TemplateRel>,
                            subjects: set<string>, incoming: seq<TemplateRel>)
    requires IsMergeOf(merged, table, existing, subjects, incoming)
    requires PlainNames(incoming) && PlainNames(existing) && forall s | s in subjects :: '\U{1F}' !in s
    ensures PlainNames(merged)
  {
    hide Key, IsAncestor, DirectList, Covers, DistinctKeys;
  }

  lemma DistinctKeysMeanNoRepeats(merged: seq<TemplateRel>)
    requires DistinctKeys(merged)
    ensures NoRepeats(merged)
  {
    hide Key;
  }

  /** The merged list holds the imported relationships of imported rows, their stored lineage, and one predecessor
      relationship for every ancestor any number of stored revisions back; nothing else, and nothing twice. */
  lemma MergeExactly(merged: seq<TemplateRel>, table: seq<TemplateRel>, existing: seq<TemplateRel>,
                     subjects: set<string>, incoming: seq<TemplateRel>)
    requires IsMergeOf(merged, table, existing, subjects, incoming) && subjects != {}
    requires PlainNames(incoming) && PlainNames(existing) && forall s | s in subjects :: '\U{1F}' !in s
    requires BothDirections(subjects, incoming)
    ensures forall r :: r in merged <==> Belongs(r, table, existing, subjects, incoming)
    ensures NoRepeats(merged)
  {
    hide Key, IsAncestor, DirectList, Covers, DistinctKeys;
    MergedNamesArePlain(merged, table, existing, subjects, incoming);
    DistinctKeysMeanNoRepeats(merged);
    forall r | Belongs(r, table, existing, subjects, incoming) ensures r in merged {
      if r in incoming || (r in existing && IsLineage(r)) {
        CoveredIsThere(merged, r);
      } else {
        assert r == TemplateRel(r.subject, SLUG_PREDECESSOR, r.target);
        assert r.target !in DirectList(incoming, r.subject);
        PredecessorNamesArePlain();
        CoveredIsThere(merged, r);
      }
    }
  }

  lemma PredecessorNamesArePlain()
    ensures '\U{1F}' !in SLUG_PREDECESSOR
  {
  }

  // ----- runs of imports ----------------------------------------------------

  /** The stored relationships of one subject set are replaced by the merged ones. */
  function Replaced(table: seq<TemplateRel>, subjects: set<string>, merged: seq<TemplateRel>): seq<TemplateRel> {
    Filtered(table, subjects, false) + Filtered(merged, subjects, true)
  }

  function Filtered(rels: seq<TemplateRel>, subjects: set<string>, inside: bool): seq<TemplateRel> {
    if rels == [] then []
    else
      (if (inside && Admissible(rels[0], subjects) && rels[0].subject in subjects)
          || (!inside && rels[0].subject !in subjects)
       then [rels[0]] else []) +
      Filtered(rels[1..], subjects, inside)
  }

  lemma {:induction false} FilteredMembers(rels: seq<TemplateRel>, subjects: set<string>, inside: bool)
    ensures forall r :: r in Filtered(rels, subjects, inside) <==>
              r in rels && if inside then Admissible(r, subjects) && r.subject in subjects else r.subject !in subjects
    decreases |rels|
  {
    hide Admissible;
    if rels != [] {
      assert rels == [rels[0]] + rels[1..];
      FilteredMembers(rels[1..], subjects, inside);
    }
  }

  lemma ReplacedMembers(table: seq<TemplateRel>, subjects: set<string>, merged: seq<TemplateRel>, r: TemplateRel)
    ensures r in Replaced(table, subjects, merged) <==>
            if r.subject in subjects then r in merged && Admissible(r, subjects) else r in table
  {
    hide Admissible;
    FilteredMembers(table, subjects, false);
    FilteredMembers(merged, subjects, true);
  }

  /** One import: the imported rows, their parsed relationships, what the store listed as existing, the result. */
  datatype Import = Import(subjects: set<string>, incoming: seq<TemplateRel>, existing: seq<TemplateRel>,
                           merged: seq<TemplateRel>)

  /** A run: each import merges against the table left by the one before and replaces its rows' relationships. */
  ghost predicate IsRun(tables: seq<seq<TemplateRel>>, imports: seq<Import>) {
    && |tables| == |imports| + 1
    && forall k | 0 <= k < |imports| :: IsImport(tables[k], imports[k], tables[k + 1])
  }

  ghost predicate IsImport(table: seq<TemplateRel>, i: Import, next: seq<TemplateRel>) {
    && IsMergeOf(i.merged, table, i.existing, i.subjects, i.incoming)
    && next == Replaced(table, i.subjects, i.merged)
    && (forall r | r in table && r.subject in i.subjects :: r in i.existing)
    && PlainNames(i.incoming) && PlainNames(i.existing) && (forall s | s in i.subjects :: '\U{1F}' !in s)
    && BothDirections(i.subjects, i.incoming)
  }

  /** One row followed through the run: `row[k]` is its id in import `k`. It is either re-imported unchanged, or it
      has a new id and names its former one; ids it has left behind are not imported again. */
  ghost predicate IsFollowed(imports: seq<Import>, row: seq<string>) {
    && |row| == |imports|
    && (forall k | 0 <= k < |row| :: row[k] != "" && row[k] in imports[k].subjects)
    && (forall k | 0 < k < |row| :: row[k] == row[k - 1] || row[k - 1] in DirectList(imports[k].incoming, row[k]))
    && (forall j, k | 0 <= j < k < |row| && row[j] != row[k] :: row[j] !in imports[k].subjects)
  }

  /** After import `k` the stored table relates the row's id to every id it ever had. */
  ghost predicate KnowsHistory(table: seq<TemplateRel>, row: seq<string>, k: nat)
    requires k < |row|
  {
    forall j | 0 <= j < k && row[j] != row[k] :: TemplateRel(row[k], SLUG_PREDECESSOR, row[j]) in table
  }

  lemma AncestorsBehindDirect(table: seq<TemplateRel>, subject: string, directs: seq<string>, d: string, p: string)
    requires d in directs && d != "" && d != subject && p != "" && p != subject
    requires p == d || TemplateRel(d, SLUG_PREDECESSOR, p) in table
    ensures IsAncestor(table, subject, directs, p)
  {
    hide IsAncestor;
    DirectIsAncestor(table, subject, directs, d);
    if p != d {
      AncestorStep(table, subject, directs, d, p);
    }
  }

  /** One import carries the row's whole history over to its current id. */
  lemma ImportKeepsHistory(table: seq<TemplateRel>, i: Import, next: seq<TemplateRel>, former: string,
                           current: string, p: string)
    requires IsImport(table, i, next) && current in i.subjects && current != "" && p != "" && p != current
    requires if former == current then TemplateRel(current, SLUG_PREDECESSOR, p) in table
             else former != "" && former in DirectList(i.incoming, current) &&
                  (p == former || TemplateRel(former, SLUG_PREDECESSOR, p) in table)
    ensures TemplateRel(current, SLUG_PREDECESSOR, p) in i.merged && TemplateRel(current, SLUG_PREDECESSOR, p) in next
  {
    hide Key, IsAncestor, DirectList, Covers, DistinctKeys, IsMergeOf, PlainNames, BothDirections, Replaced;
    var r := TemplateRel(current, SLUG_PREDECESSOR, p);
    MergeExactly(i.merged, table, i.existing, i.subjects, i.incoming);
    if former != current {
      AncestorsBehindDirect(table, current, DirectList(i.incoming, current), former, p);
    }
    assert Belongs(r, table, i.existing, i.subjects, i.incoming);
    ReplacedMembers(table, i.subjects, i.merged, r);
  }

  lemma {:induction false} RunKnowsHistory(tables: seq<seq<TemplateRel>>, imports: seq<Import>, row: seq<string>,
                                           k: nat)
    requires IsRun(tables, imports) && IsFollowed(imports, row) && k < |row|
    ensures KnowsHistory(tables[k + 1], row, k)
    ensures forall j | 0 <= j < k && row[j] != row[k] ::
              TemplateRel(row[k], SLUG_PREDECESSOR, row[j]) in imports[k].merged
    decreases k
  {
    hide IsImport, DirectList;
    if k > 0 {
      RunKnowsHistory(tables, imports, row, k - 1);
      forall j | 0 <= j < k && row[j] != row[k]
        ensures TemplateRel(row[k], SLUG_PREDECESSOR, row[j]) in imports[k].merged
        ensures TemplateRel(row[k], SLUG_PREDECESSOR, row[j]) in tables[k + 1]
      {
        ImportKeepsHistory(tables[k], imports[k], tables[k + 1], row[k - 1], row[k], row[j]);
      }
    }
  }

  /** In every run of imports, the last merge relates the row's current id to every id it had, any number of
      revisions back. */
  lemma WholeHistoryIsMerged(tables: seq<seq<TemplateRel>>, imports: seq<Import>, row: seq<string>)
    requires IsRun(tables, imports) && IsFollowed(imports, row) && row != []
    ensures var n := |row| - 1;
            forall j | 0 <= j < n && row[j] != row[n] ::
              TemplateRel(row[n], SLUG_PREDECESSOR, row[j]) in imports[n].merged
  {
    RunKnowsHistory(tables, imports, row, |row| - 1);
  }
}
