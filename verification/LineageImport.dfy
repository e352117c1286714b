/** The last step of an import: relationships become edges between current rows, whatever revision they name. */
module LineageImport {
  import opened Text
  import opened Checklist
  import opened MarkdownExport
  import opened LineageMerge
  import opened LineageHistory
  import opened LineageAliases

  /** The row an edge should point to; a declared link to a resolved ancestor makes no edge. */
  function ResolveTarget(r: TemplateRel, aliases: map<string, string>): Option<string> {
    if r.target !in aliases then Some(r.target)
    else if IsLineage(r) then None
    else Some(aliases[r.target])
  }

  // ----- derived edges ------------------------------------------------------

  /** What the handler works with: the instance, the addresses being imported, and those the store holds. */
  datatype Context = Context(instanceId: string, imported: set<string>, stored: set<string>,
                             aliases: map<string, string>)
  {
    function Address(slugId: string): string {
      ComposeAddressId(slugId, instanceId)
    }
  }

  function TemplateEdge(c: Context, r: TemplateRel): Option<(string, Edge)> {
    var subject := c.Address(r.subject);
    match ResolveTarget(r, c.aliases)
    case None => None
    case Some(t) =>
      if subject in c.imported && subject in c.stored && c.Address(t) in c.stored
      then Some((subject, Edge(r.predicateName, c.Address(t)))) else None
  }

  function AddressEdge(c: Context, r: AddressRel): Option<(string, Edge)> {
    if IsBase32Id(r.subject, 32) && IsBase32Id(r.target, 32) && r.subject in c.stored && r.target in c.stored
    then Some((r.subject, Edge(r.predicateName, r.target))) else None
  }

  function OwnEdge(e: Option<(string, Edge)>, address: string): seq<Edge> {
    if e.Some? && e.value.0 == address then [e.value.1] else []
  }

  function TemplateEdges(c: Context, rels: seq<TemplateRel>, address: string): seq<Edge> {
    if rels == [] then []
    else TemplateEdges(c, rels[..|rels| - 1], address) + OwnEdge(TemplateEdge(c, rels[|rels| - 1]), address)
  }

  function AddressEdges(c: Context, rels: seq<AddressRel>, address: string): seq<Edge> {
    if rels == [] then []
    else AddressEdges(c, rels[..|rels| - 1], address) + OwnEdge(AddressEdge(c, rels[|rels| - 1]), address)
  }

  /** All edges of one address, as they are stored: sorted and without repetition. */
  function DerivedEdges(c: Context, rels: seq<TemplateRel>, addressRels: seq<AddressRel>, address: string): seq<Edge> {
    SortUnique(TemplateEdges(c, rels, address) + AddressEdges(c, addressRels, address))
  }

  function At(edges: map<string, seq<Edge>>, address: string): seq<Edge> {
    if address in edges then edges[address] else []
  }

  function PushEdge(edges: map<string, seq<Edge>>, e: Option<(string, Edge)>): map<string, seq<Edge>> {
    if e.None? then edges else edges[e.value.0 := At(edges, e.value.0) + [e.value.1]]
  }

  lemma PushedAt(edges: map<string, seq<Edge>>, e: Option<(string, Edge)>, address: string)
    ensures At(PushEdge(edges, e), address) == At(edges, address) + OwnEdge(e, address)
  {
  }

  /** The derivation loops: both kinds of relationship are pushed onto the list of their subject. */
  method DeriveEdges(c: Context, rels: seq<TemplateRel>, addressRels: seq<AddressRel>)
    returns (edges: map<string, seq<Edge>>)
    ensures c.imported <= edges.Keys
    ensures forall a :: At(edges, a) == DerivedEdges(c, rels, addressRels, a)
  {
    hide SortUnique, TemplateEdge, AddressEdge;
    edges := map a | a in c.imported :: [];
    for n := 0 to |rels|
      invariant c.imported <= edges.Keys
      invariant forall a :: At(edges, a) == TemplateEdges(c, rels[..n], a)
    {
      assert rels[..n + 1][..n] == rels[..n];
      forall a ensures At(PushEdge(edges, TemplateEdge(c, rels[n])), a) == TemplateEdges(c, rels[..n + 1], a) {
        PushedAt(edges, TemplateEdge(c, rels[n]), a);
      }
      edges := PushEdge(edges, TemplateEdge(c, rels[n]));
    }
    assert rels[..|rels|] == rels;
    edges := PushAddressEdges(c, rels, addressRels, edges);
    edges := SortAll(edges);
  }

  method PushAddressEdges(c: Context, ghost rels: seq<TemplateRel>, addressRels: seq<AddressRel>,
                          start: map<string, seq<Edge>>) returns (edges: map<string, seq<Edge>>)
    requires forall a :: At(start, a) == TemplateEdges(c, rels, a)
    ensures start.Keys <= edges.Keys
    ensures forall a :: At(edges, a) == TemplateEdges(c, rels, a) + AddressEdges(c, addressRels, a)
  {
    hide TemplateEdges, AddressEdge;
    edges := start;
    for n := 0 to |addressRels|
      invariant start.Keys <= edges.Keys
      invariant forall a :: At(edges, a) == TemplateEdges(c, rels, a) + AddressEdges(c, addressRels[..n], a)
    {
      assert addressRels[..n + 1][..n] == addressRels[..n];
      var e := AddressEdge(c, addressRels[n]);
      forall a ensures At(PushEdge(edges, e), a) == TemplateEdges(c, rels, a) + AddressEdges(c, addressRels[..n + 1], a) {
        PushedAt(edges, e, a);
      }
      edges := PushEdge(edges, e);
    }
    assert addressRels[..|addressRels|] == addressRels;
  }

  method SortAll(start: map<string, seq<Edge>>) returns (edges: map<string, seq<Edge>>)
    ensures edges.Keys == start.Keys && forall a :: At(edges, a) == SortUnique(At(start, a))
  {
    hide InsertEdge;
    edges := start;
    var todo := start.Keys;
    while todo != {}
      invariant edges.Keys == start.Keys && todo <= start.Keys
      invariant forall a | a in start :: edges[a] == if a in todo then start[a] else SortUnique(start[a])
    {
      var a :| a in todo;
      todo := todo - {a};
      edges := edges[a := SortUnique(edges[a])];
    }
  }

  lemma {:induction false} TemplateEdgeMembers(c: Context, rels: seq<TemplateRel>, address: string, e: Edge)
    ensures e in TemplateEdges(c, rels, address) <==> exists r | r in rels :: TemplateEdge(c, r) == Some((address, e))
    decreases |rels|
  {
    hide TemplateEdge;
    if rels != [] {
      var init, last := rels[..|rels| - 1], rels[|rels| - 1];
      TemplateEdgeMembers(c, init, address, e);
      assert rels == init + [last];
    }
  }

  lemma DerivedMembers(c: Context, rels: seq<TemplateRel>, addressRels: seq<AddressRel>, address: string, e: Edge)
    ensures e in DerivedEdges(c, rels, addressRels, address) <==>
            e in TemplateEdges(c, rels, address) || e in AddressEdges(c, addressRels, address)
    ensures StrictlySorted(DerivedEdges(c, rels, addressRels, address))
  {
    hide SortUnique, TemplateEdges, AddressEdges, StrictlySorted;
    var es := TemplateEdges(c, rels, address) + AddressEdges(c, addressRels, address);
    SortUniqueIsSorted(es);
    assert e in EdgeSet(SortUnique(es)) <==> e in EdgeSet(es);
  }

  // ----- when every ancestor resolves ----------------------------------------

  /** No declared step leaves an imported row with ancestors, and every ancestor has that row as only successor. */
  predicate IsLinear(merged: seq<TemplateRel>) {
    forall r | r in merged && r.predicateName == SLUG_PREDECESSOR ::
      Successors(SlugLinks(merged), r.target) == {r.subject} && Successors(SlugLinks(merged), r.subject) == {}
  }

  /** Ancestor sets are disjoint, hold no imported row, and no successor is declared for an imported row. */
  predicate HasSeparateAncestors(merged: seq<TemplateRel>, subjects: set<string>) {
    && (forall r, q | r in merged && q in merged && r.predicateName == SLUG_PREDECESSOR &&
          q.predicateName == SLUG_PREDECESSOR && r.target == q.target :: r.subject == q.subject)
    && (forall r | r in merged && r.predicateName == SLUG_PREDECESSOR :: r.target !in subjects)
    && (forall r | r in merged :: r.predicateName != SLUG_SUCCESSOR)
  }

  lemma SuccessorsOf(merged: seq<TemplateRel>, a: string, b: string)
    ensures b in Successors(SlugLinks(merged), a) <==> Declares(merged, a, b)
  {
    LinkMembers(merged, Link(a, b));
    if b in Successors(SlugLinks(merged), a) {
      var l :| l in SlugLinks(merged) && l.former == a && l.current == b;
      assert l == Link(a, b);
    }
  }

  lemma SeparateIsLinear(merged: seq<TemplateRel>, subjects: set<string>)
    requires HasSeparateAncestors(merged, subjects) && forall r | r in merged :: r.subject in subjects
    ensures IsLinear(merged)
  {
    hide Successors, SlugLinks;
    var links := SlugLinks(merged);
    forall r | r in merged && r.predicateName == SLUG_PREDECESSOR
      ensures Successors(links, r.target) == {r.subject} && Successors(links, r.subject) == {}
    {
      forall b ensures b in Successors(links, r.target) <==> b == r.subject {
        SuccessorsOf(merged, r.target, b);
        assert r == TemplateRel(r.subject, SLUG_PREDECESSOR, r.target);
        if TemplateRel(b, SLUG_PREDECESSOR, r.target) in merged {
          assert TemplateRel(b, SLUG_PREDECESSOR, r.target).subject == r.subject;
        }
        assert TemplateRel(r.target, SLUG_SUCCESSOR, b) !in merged;
      }
      forall b ensures b !in Successors(links, r.subject) {
        SuccessorsOf(merged, r.subject, b);
        assert TemplateRel(r.subject, SLUG_SUCCESSOR, b) !in merged;
        assert TemplateRel(b, SLUG_PREDECESSOR, r.subject) !in merged;
      }
    }
  }

  predicate AllResolve(merged: seq<TemplateRel>, aliases: map<string, string>) {
    forall r | r in merged && r.predicateName == SLUG_PREDECESSOR :: Get(aliases, r.target) == Some(r.subject)
  }

  lemma ResolvedIsLinear(merged: seq<TemplateRel>, subjects: set<string>, aliases: map<string, string>, r: TemplateRel)
    requires IsAliasMap(aliases, SlugLinks(merged), subjects)
    requires r in merged && r.predicateName == SLUG_PREDECESSOR && Get(aliases, r.target) == Some(r.subject)
    ensures Successors(SlugLinks(merged), r.target) == {r.subject} && Successors(SlugLinks(merged), r.subject) == {}
  {
    hide SlugLinks, IsAliasMap, Successors;
    var links := SlugLinks(merged);
    AliasExactly(aliases, links, subjects, r.target, r.subject);
    var path :| ChainTo(links, r.target, r.subject, path);
    assert Successors(links, path[0]) == {path[1]};
    SuccessorsOf(merged, r.target, r.subject);
    assert r == TemplateRel(r.subject, SLUG_PREDECESSOR, r.target);
  }

  lemma LinearResolves(merged: seq<TemplateRel>, subjects: set<string>, aliases: map<string, string>, r: TemplateRel)
    requires IsAliasMap(aliases, SlugLinks(merged), subjects) && r.subject in subjects
    requires r in merged && r.predicateName == SLUG_PREDECESSOR
    requires Successors(SlugLinks(merged), r.target) == {r.subject} && Successors(SlugLinks(merged), r.subject) == {}
    ensures Get(aliases, r.target) == Some(r.subject)
  {
    hide SlugLinks, IsAliasMap, Successors;
    var links := SlugLinks(merged);
    assert ChainTo(links, r.target, r.subject, [r.target, r.subject]);
    LinkMembers(merged, Link(r.target, r.subject));
    assert r == TemplateRel(r.subject, SLUG_PREDECESSOR, r.target);
    LinkIsNode(links, Link(r.target, r.subject));
    AliasExactly(aliases, links, subjects, r.target, r.subject);
  }

  lemma LinkIsNode(links: seq<Link>, l: Link)
    requires l in links
    ensures l.former in Nodes(links) && l.current in Nodes(links)
  {
  }

  /** Every merged ancestor is aliased to its imported descendant if and only if the lineage is linear. */
  lemma AncestorsResolveExactly(merged: seq<TemplateRel>, subjects: set<string>, aliases: map<string, string>)
    requires IsAliasMap(aliases, SlugLinks(merged), subjects) && forall r | r in merged :: r.subject in subjects
    ensures AllResolve(merged, aliases) <==> IsLinear(merged)
  {
    hide SlugLinks, IsAliasMap, Successors, Get;
    if AllResolve(merged, aliases) {
      forall r | r in merged && r.predicateName == SLUG_PREDECESSOR
        ensures Successors(SlugLinks(merged), r.target) == {r.subject} && Successors(SlugLinks(merged), r.subject) == {}
      {
        ResolvedIsLinear(merged, subjects, aliases, r);
      }
    }
    if IsLinear(merged) {
      forall r | r in merged && r.predicateName == SLUG_PREDECESSOR ensures Get(aliases, r.target) == Some(r.subject) {
        LinearResolves(merged, subjects, aliases, r);
      }
    }
  }

  // ----- no edges to ancestors -----------------------------------------------

  lemma AddressIsInjective(c: Context, a: string, b: string)
    requires c.Address(a) == c.Address(b)
    ensures a == b
  {
    assert |c.Address(a)| == |a| + |c.instanceId|;
    assert a == c.Address(a)[..|a|] && b == c.Address(b)[..|b|];
  }

  /** A declared link to a resolved ancestor never turns into an edge to it. */
  lemma AncestorsGetNoEdges(merged: seq<TemplateRel>, c: Context, address: string, e: Edge, past: TemplateRel)
    requires AllResolve(merged, c.aliases) && past in merged && past.predicateName == SLUG_PREDECESSOR
    requires e in TemplateEdges(c, merged, address)
    requires e.predicateName == SLUG_PREDECESSOR || e.predicateName == SLUG_SUCCESSOR
    ensures e.target != c.Address(past.target)
  {
    TemplateEdgeMembers(c, merged, address, e);
    var r :| r in merged && TemplateEdge(c, r) == Some((address, e));
    assert r.target !in c.aliases;
    assert Get(c.aliases, past.target) == Some(past.subject);
    if e.target == c.Address(past.target) {
      AddressIsInjective(c, r.target, past.target);
    }
  }
}
