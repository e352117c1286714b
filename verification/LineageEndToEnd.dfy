/** An import from end to end: when, by what is stored and what is imported, every former id leads to the current row. */
module LineageEndToEnd {
  import opened Text
  import opened Checklist
  import opened MarkdownExport
  import opened LineageMerge
  import opened LineageHistory
  import opened LineageAliases
  import opened LineageImport

  // ----- histories ------------------------------------------------------------

  /** `p` is a former id of the imported row `s`: named by the file, listed by the store, or any number of stored
    * revisions behind one that the file names. */
  ghost predicate IsFormer(table: seq<TemplateRel>, i: Import, s: string, p: string) {
    && s in i.subjects && s != "" && p != ""
    && (|| TemplateRel(s, SLUG_PREDECESSOR, p) in i.incoming
        || TemplateRel(s, SLUG_PREDECESSOR, p) in i.existing
        || IsAncestor(table, s, DirectList(i.incoming, s), p))
  }

  /** The file or the store names a successor of the imported row `s`. */
  predicate MovesOn(i: Import, s: string, b: string) {
    && s in i.subjects && s != "" && b != ""
    && (TemplateRel(s, SLUG_SUCCESSOR, b) in i.incoming || TemplateRel(s, SLUG_SUCCESSOR, b) in i.existing)
  }

  /** No two imported rows share a former id, no former id is imported, and no imported row has a successor. */
  ghost predicate HasSeparateHistories(table: seq<TemplateRel>, i: Import) {
    && (forall s, t, p :: IsFormer(table, i, s, p) && IsFormer(table, i, t, p) ==> s == t)
    && (forall s, p :: IsFormer(table, i, s, p) ==> p !in i.subjects)
    && (forall s, b :: !MovesOn(i, s, b))
  }

  ghost predicate Follows(table: seq<TemplateRel>, i: Import, a: string, b: string) {
    IsFormer(table, i, b, a) || MovesOn(i, a, b)
  }

  /** Nothing but its row follows a former id, and nothing follows that row. */
  ghost predicate IsLinearAt(table: seq<TemplateRel>, i: Import, s: string, p: string) {
    forall b :: (Follows(table, i, p, b) <==> b == s) && !Follows(table, i, s, b)
  }

  ghost predicate HasLinearHistories(table: seq<TemplateRel>, i: Import) {
    forall s, p :: IsFormer(table, i, s, p) ==> IsLinearAt(table, i, s, p)
  }

  // ----- from the merged list back to what was given ---------------------------

  /** The merged list states exactly these links. */
  lemma MergedLinks(table: seq<TemplateRel>, i: Import, next: seq<TemplateRel>, a: string, b: string)
    requires IsImport(table, i, next) && i.subjects != {}
    ensures TemplateRel(b, SLUG_PREDECESSOR, a) in i.merged <==> IsFormer(table, i, b, a)
    ensures TemplateRel(a, SLUG_SUCCESSOR, b) in i.merged <==> MovesOn(i, a, b)
    ensures Declares(i.merged, a, b) <==> Follows(table, i, a, b)
  {
    hide IsMergeOf, PlainNames, BothDirections, Replaced, IsAncestor, DirectList;
    MergeExactly(i.merged, table, i.existing, i.subjects, i.incoming);
    var back, ahead := TemplateRel(b, SLUG_PREDECESSOR, a), TemplateRel(a, SLUG_SUCCESSOR, b);
    assert Belongs(back, table, i.existing, i.subjects, i.incoming) <==> IsFormer(table, i, b, a);
    assert Belongs(ahead, table, i.existing, i.subjects, i.incoming) <==> MovesOn(i, a, b);
  }

  lemma LinksOf(table: seq<TemplateRel>, i: Import, next: seq<TemplateRel>, s: string, p: string)
    requires IsImport(table, i, next) && i.subjects != {} && IsFormer(table, i, s, p)
    ensures (Successors(SlugLinks(i.merged), p) == {s} && Successors(SlugLinks(i.merged), s) == {}) <==>
            IsLinearAt(table, i, s, p)
  {
    hide IsImport, IsFormer, MovesOn, Successors, SlugLinks, Declares, Follows;
    var links := SlugLinks(i.merged);
    forall b ensures b in Successors(links, p) <==> Follows(table, i, p, b) {
      SuccessorsOf(i.merged, p, b);
      MergedLinks(table, i, next, p, b);
    }
    forall b ensures b in Successors(links, s) <==> Follows(table, i, s, b) {
      SuccessorsOf(i.merged, s, b);
      MergedLinks(table, i, next, s, b);
    }
  }

  /** The merged list is linear if and only if the histories given to the merge are. */
  lemma LinearExactly(table: seq<TemplateRel>, i: Import, next: seq<TemplateRel>)
    requires IsImport(table, i, next) && i.subjects != {}
    ensures IsLinear(i.merged) <==> HasLinearHistories(table, i)
  {
    hide IsImport, IsFormer, Successors, SlugLinks, IsLinearAt;
    forall s, p ensures TemplateRel(s, SLUG_PREDECESSOR, p) in i.merged <==> IsFormer(table, i, s, p) {
      MergedLinks(table, i, next, p, s);
    }
    forall s, p | IsFormer(table, i, s, p)
      ensures (Successors(SlugLinks(i.merged), p) == {s} && Successors(SlugLinks(i.merged), s) == {}) <==>
              IsLinearAt(table, i, s, p)
    {
      LinksOf(table, i, next, s, p);
    }
    forall r | r in i.merged && r.predicateName == SLUG_PREDECESSOR ensures IsFormer(table, i, r.subject, r.target) {
      assert r == TemplateRel(r.subject, SLUG_PREDECESSOR, r.target);
    }
    if IsLinear(i.merged) {
      forall s, p | IsFormer(table, i, s, p) ensures IsLinearAt(table, i, s, p) {
        assert TemplateRel(s, SLUG_PREDECESSOR, p) in i.merged;
      }
    }
  }

  /** The merged list has separate ancestors if and only if the histories given to the merge are separate. */
  lemma SeparateExactly(table: seq<TemplateRel>, i: Import, next: seq<TemplateRel>)
    requires IsImport(table, i, next) && i.subjects != {}
    ensures HasSeparateAncestors(i.merged, i.subjects) <==> HasSeparateHistories(table, i)
  {
    hide IsImport, IsFormer, MovesOn, Declares, Follows;
    forall s, p
      ensures TemplateRel(s, SLUG_PREDECESSOR, p) in i.merged <==> IsFormer(table, i, s, p)
      ensures TemplateRel(s, SLUG_SUCCESSOR, p) in i.merged <==> MovesOn(i, s, p)
    {
      MergedLinks(table, i, next, p, s);
      MergedLinks(table, i, next, s, p);
    }
    forall r | r in i.merged
      ensures r.predicateName == SLUG_PREDECESSOR ==> IsFormer(table, i, r.subject, r.target)
      ensures r.predicateName == SLUG_SUCCESSOR ==> MovesOn(i, r.subject, r.target)
    {
      assert r == TemplateRel(r.subject, r.predicateName, r.target);
    }
    if HasSeparateAncestors(i.merged, i.subjects) {
      SeparateMeans(table, i);
    }
  }

  lemma SeparateMeans(table: seq<TemplateRel>, i: Import)
    requires HasSeparateAncestors(i.merged, i.subjects)
    requires forall s, p :: TemplateRel(s, SLUG_PREDECESSOR, p) in i.merged <==> IsFormer(table, i, s, p)
    requires forall s, p :: TemplateRel(s, SLUG_SUCCESSOR, p) in i.merged <==> MovesOn(i, s, p)
    ensures HasSeparateHistories(table, i)
  {
    hide IsFormer, MovesOn;
    forall s, t, p | IsFormer(table, i, s, p) && IsFormer(table, i, t, p) ensures s == t {
      var r, q := TemplateRel(s, SLUG_PREDECESSOR, p), TemplateRel(t, SLUG_PREDECESSOR, p);
      assert r in i.merged && q in i.merged && r.target == q.target;
    }
    forall s, p | IsFormer(table, i, s, p) ensures p !in i.subjects {
      assert TemplateRel(s, SLUG_PREDECESSOR, p) in i.merged;
    }
    forall s, b ensures !MovesOn(i, s, b) {
      assert TemplateRel(s, SLUG_SUCCESSOR, b).predicateName == SLUG_SUCCESSOR;
    }
  }

  /** Separate histories are linear. */
  lemma SeparateHistoriesAreLinear(table: seq<TemplateRel>, i: Import)
    requires HasSeparateHistories(table, i)
    ensures HasLinearHistories(table, i)
  {
    hide MovesOn, IsFormer;
    forall s, p | IsFormer(table, i, s, p) ensures IsLinearAt(table, i, s, p) {
      assert s in i.subjects by { FormerIsOfRow(table, i, s, p); }
    }
  }

  lemma FormerIsOfRow(table: seq<TemplateRel>, i: Import, s: string, p: string)
    requires IsFormer(table, i, s, p)
    ensures s in i.subjects
  {
  }

  // ----- end to end ------------------------------------------------------------

  /** The import's context: its rows are stored, and the aliases are those of the merged relationships. */
  ghost predicate IsContextOf(c: Context, i: Import) {
    && IsAliasMap(c.aliases, SlugLinks(i.merged), i.subjects)
    && forall s | s in i.subjects :: c.Address(s) in c.imported && c.Address(s) in c.stored
  }

  lemma MergedSubjects(merged: seq<TemplateRel>, table: seq<TemplateRel>, existing: seq<TemplateRel>,
                       subjects: set<string>, incoming: seq<TemplateRel>)
    requires IsMergeOf(merged, table, existing, subjects, incoming) && subjects != {}
    ensures forall m | m in merged :: m.subject in subjects
  {
    hide IsAncestor, DirectList, Covers, DistinctKeys;
  }

  ghost predicate FormersResolve(table: seq<TemplateRel>, i: Import, aliases: map<string, string>) {
    forall s, p :: IsFormer(table, i, s, p) ==> Get(aliases, p) == Some(s)
  }

  /** The exact condition: every former id, any number of revisions back, is aliased to its one imported row if and only if
    * the histories that the file and the store give are linear. */
  lemma HistoriesResolveExactly(table: seq<TemplateRel>, i: Import, next: seq<TemplateRel>, aliases: map<string, string>)
    requires IsImport(table, i, next) && i.subjects != {} && IsAliasMap(aliases, SlugLinks(i.merged), i.subjects)
    ensures FormersResolve(table, i, aliases) <==> HasLinearHistories(table, i)
  {
    hide IsImport, IsFormer, SlugLinks, IsAliasMap, IsLinear, HasLinearHistories;
    assert forall m | m in i.merged :: m.subject in i.subjects by {
      ImportSubjects(table, i, next);
    }
    AncestorsResolveExactly(i.merged, i.subjects, aliases);
    LinearExactly(table, i, next);
    forall s, p ensures TemplateRel(s, SLUG_PREDECESSOR, p) in i.merged <==> IsFormer(table, i, s, p) {
      MergedLinks(table, i, next, p, s);
    }
    forall r | r in i.merged && r.predicateName == SLUG_PREDECESSOR ensures IsFormer(table, i, r.subject, r.target) {
      assert r == TemplateRel(r.subject, SLUG_PREDECESSOR, r.target);
    }
    if AllResolve(i.merged, aliases) {
      forall s, p | IsFormer(table, i, s, p) ensures Get(aliases, p) == Some(s) {
        assert TemplateRel(s, SLUG_PREDECESSOR, p) in i.merged;
      }
    }
  }

  lemma ImportSubjects(table: seq<TemplateRel>, i: Import, next: seq<TemplateRel>)
    requires IsImport(table, i, next) && i.subjects != {}
    ensures forall m | m in i.merged :: m.subject in i.subjects
  {
    hide IsMergeOf, PlainNames, BothDirections, Replaced;
    MergedSubjects(i.merged, table, i.existing, i.subjects, i.incoming);
  }

  /** One import: an ordinary relationship from an imported row to any former id of a row becomes an edge to that row, once,
    * and no lineage link becomes an edge to the former id. */
  lemma FormersGetTheirEdges(table: seq<TemplateRel>, i: Import, next: seq<TemplateRel>, c: Context,
                             addressRels: seq<AddressRel>, s: string, p: string, r: TemplateRel)
    requires IsImport(table, i, next) && i.subjects != {} && IsContextOf(c, i) && HasLinearHistories(table, i)
    requires IsFormer(table, i, s, p)
    requires r in i.incoming && Admissible(r, i.subjects) && !IsLineage(r) && r.target == p
    ensures Get(c.aliases, p) == Some(s)
    ensures var es := DerivedEdges(c, i.merged, addressRels, c.Address(r.subject));
            Edge(r.predicateName, c.Address(s)) in es && StrictlySorted(es)
    ensures forall a, e | e in TemplateEdges(c, i.merged, a) && e.predicateName in {SLUG_PREDECESSOR, SLUG_SUCCESSOR} ::
              e.target != c.Address(p)
  {
    hide IsMergeOf, SlugLinks, IsAliasMap, HasLinearHistories, IsFormer, StrictlySorted, PlainNames,
         BothDirections, Replaced, DerivedEdges, TemplateEdges, IsAncestor, DirectList;
    HistoriesResolveExactly(table, i, next, c.aliases);
    FormerIsOfRow(table, i, s, p);
    MergeExactly(i.merged, table, i.existing, i.subjects, i.incoming);
    assert Belongs(r, table, i.existing, i.subjects, i.incoming);
    RedirectedEdge(c, i.merged, addressRels, r, s);
    MergedLinks(table, i, next, p, s);
    var past := TemplateRel(s, SLUG_PREDECESSOR, p);
    assert past in i.merged;
    MergedResolve(table, i, next, c.aliases);
    forall a, e | e in TemplateEdges(c, i.merged, a) && e.predicateName in {SLUG_PREDECESSOR, SLUG_SUCCESSOR}
      ensures e.target != c.Address(p)
    {
      AncestorsGetNoEdges(i.merged, c, a, e, past);
    }
  }

  lemma MergedResolve(table: seq<TemplateRel>, i: Import, next: seq<TemplateRel>, aliases: map<string, string>)
    requires IsImport(table, i, next) && i.subjects != {} && FormersResolve(table, i, aliases)
    ensures AllResolve(i.merged, aliases)
  {
    hide IsImport, IsFormer;
    forall r | r in i.merged && r.predicateName == SLUG_PREDECESSOR ensures Get(aliases, r.target) == Some(r.subject) {
      MergedLinks(table, i, next, r.target, r.subject);
      assert r == TemplateRel(r.subject, SLUG_PREDECESSOR, r.target);
    }
  }

  lemma RedirectedEdge(c: Context, merged: seq<TemplateRel>, addressRels: seq<AddressRel>, r: TemplateRel, s: string)
    requires r in merged && !IsLineage(r) && Get(c.aliases, r.target) == Some(s)
    requires c.Address(r.subject) in c.imported && c.Address(r.subject) in c.stored && c.Address(s) in c.stored
    ensures var es := DerivedEdges(c, merged, addressRels, c.Address(r.subject));
            Edge(r.predicateName, c.Address(s)) in es && StrictlySorted(es)
  {
    hide DerivedEdges, TemplateEdges, StrictlySorted;
    var e := Edge(r.predicateName, c.Address(s));
    assert TemplateEdge(c, r) == Some((c.Address(r.subject), e));
    TemplateEdgeMembers(c, merged, c.Address(r.subject), e);
    DerivedMembers(c, merged, addressRels, c.Address(r.subject), e);
  }

  /** End to end over a run of imports: a relationship from an imported row to any id that a row ever had becomes an edge to
    * that row's current address. */
  lemma EveryRevisionResolves(tables: seq<seq<TemplateRel>>, imports: seq<Import>, row: seq<string>, c: Context,
                              addressRels: seq<AddressRel>, j: nat, r: TemplateRel)
    requires IsRun(tables, imports) && IsFollowed(imports, row) && j < |row| - 1 && row[j] != row[|row| - 1]
    requires IsContextOf(c, imports[|row| - 1]) && HasLinearHistories(tables[|row| - 1], imports[|row| - 1])
    requires r in imports[|row| - 1].incoming && Admissible(r, imports[|row| - 1].subjects) && !IsLineage(r)
    requires r.target == row[j]
    ensures Get(c.aliases, row[j]) == Some(row[|row| - 1])
    ensures var es := DerivedEdges(c, imports[|row| - 1].merged, addressRels, c.Address(r.subject));
            Edge(r.predicateName, c.Address(row[|row| - 1])) in es && StrictlySorted(es)
  {
    hide IsImport, SlugLinks, IsAliasMap, HasLinearHistories, IsFormer, Admissible, StrictlySorted, DerivedEdges,
         TemplateEdges, DirectList, Get;
    var n := |row| - 1;
    WholeHistoryIsMerged(tables, imports, row);
    MergedLinks(tables[n], imports[n], tables[n + 1], row[j], row[n]);
    FormersGetTheirEdges(tables[n], imports[n], tables[n + 1], c, addressRels, row[n], row[j], r);
  }
}
