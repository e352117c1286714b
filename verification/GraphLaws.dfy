/** What the checklist graph promises: degrees add up, and the order of its input does not show. */
module GraphLaws {
  import opened Text
  import opened Checklist
  import opened Sorting
  import opened Graph

  // ----- orders -------------------------------------------------------------

  function AddressOf(row: Slug): string {
    row.addressId
  }

  predicate DistinctAddresses(rows: seq<Slug>) {
    DistinctKeys(AddressOf, rows)
  }

  lemma RowBeforeIsStrictWeakOrder()
    ensures IsStrictWeakOrder(RowBefore)
  {
    hide StrLess;
    forall x: Slug, y: Slug ensures RowBefore(x, y) ==> !RowBefore(y, x) {
      StrLessTotal(x.addressId, y.addressId, y.addressId);
    }
    forall x: Slug, y: Slug, z: Slug | RowBefore(x, y) && !RowBefore(z, y) ensures RowBefore(x, z) {
      StrLessTotal(x.addressId, y.addressId, z.addressId);
    }
  }

  lemma EdgeBeforeIsStrictWeakOrder()
    ensures IsStrictWeakOrder(EdgeBefore)
  {
    hide EdgeBefore;
    forall x: Edge, y: Edge ensures EdgeBefore(x, y) ==> !EdgeBefore(y, x) {
      EdgeBeforeIsTotal(x, y, y);
    }
    forall x: Edge, y: Edge, z: Edge | EdgeBefore(x, y) && !EdgeBefore(z, y) ensures EdgeBefore(x, z) {
      EdgeBeforeIsTotal(x, y, z);
      EdgeBeforeIsTotal(y, z, z);
    }
  }

  lemma SortedEdgesIgnoreOrder(a: seq<Edge>, b: seq<Edge>)
    requires multiset(a) == multiset(b)
    ensures Sort(EdgeBefore, a) == Sort(EdgeBefore, b)
  {
    hide EdgeBefore, Sort;
    EdgeBeforeIsStrictWeakOrder();
    forall i, j | 0 <= i < |a| && 0 <= j < |a|
      ensures a[i] == a[j] || EdgeBefore(a[i], a[j]) || EdgeBefore(a[j], a[i])
    {
      EdgeBeforeIsTotal(a[i], a[j], a[j]);
    }
    SortIgnoresOrder(EdgeBefore, a, b);
  }

  lemma SortedRowsIgnoreOrder(a: seq<Slug>, b: seq<Slug>)
    requires multiset(a) == multiset(b) && DistinctAddresses(a)
    ensures Sort(RowBefore, a) == Sort(RowBefore, b)
  {
    hide Sort, StrLess;
    RowBeforeIsStrictWeakOrder();
    forall i, j | 0 <= i < |a| && 0 <= j < |a|
      ensures a[i] == a[j] || RowBefore(a[i], a[j]) || RowBefore(a[j], a[i])
    {
      StrLessTotal(a[i].addressId, a[j].addressId, a[j].addressId);
      assert i < j ==> AddressOf(a[i]) != AddressOf(a[j]);
      assert j < i ==> AddressOf(a[j]) != AddressOf(a[i]);
    }
    SortIgnoresOrder(RowBefore, a, b);
  }

  // ----- degrees ------------------------------------------------------------

  function TotalOut(nodes: seq<Node>): nat {
    if nodes == [] then 0 else TotalOut(nodes[..|nodes| - 1]) + nodes[|nodes| - 1].outgoing
  }

  function TotalIn(nodes: seq<Node>): nat {
    if nodes == [] then 0 else TotalIn(nodes[..|nodes| - 1]) + nodes[|nodes| - 1].incoming
  }

  function CountRelationships(es: seq<GraphEdge>): nat {
    if es == [] then 0
    else CountRelationships(es[..|es| - 1]) + (if es[|es| - 1].kind == RelationshipEdge then 1 else 0)
  }

  function CountInternal(es: seq<GraphEdge>): nat {
    if es == [] then 0
    else
      var e := es[|es| - 1];
      CountInternal(es[..|es| - 1]) + (if e.kind == RelationshipEdge && !e.isExternal then 1 else 0)
  }

  function SumOut(rows: seq<Slug>, es: seq<GraphEdge>, n: nat): nat {
    if n == 0 then 0 else SumOut(rows, es, n - 1) + OutDegree(rows, es, n - 1)
  }

  function SumIn(rows: seq<Slug>, es: seq<GraphEdge>, n: nat): nat {
    if n == 0 then 0 else SumIn(rows, es, n - 1) + InDegree(rows, es, n - 1)
  }

  /** Every relationship edge starts at a row, and is marked external exactly when its target is no row. */
  ghost predicate AreOf(rows: seq<Slug>, es: seq<GraphEdge>) {
    forall i | 0 <= i < |es| ::
      && Find(rows, es[i].source).Some?
      && (es[i].isExternal <==> Find(rows, es[i].target).None?)
  }

  lemma {:induction false} TotalsAreSums(rows: seq<Slug>, nodes: seq<Node>, es: seq<GraphEdge>, n: nat)
    requires n <= |nodes|
    ensures TotalOut(Counted(rows, nodes, es)[..n]) == SumOut(rows, es, n)
    ensures TotalIn(Counted(rows, nodes, es)[..n]) == SumIn(rows, es, n)
    decreases n
  {
    hide OutDegree, InDegree;
    if n > 0 {
      var c := Counted(rows, nodes, es);
      TotalsAreSums(rows, nodes, es, n - 1);
      assert c[..n][..n - 1] == c[..n - 1];
    }
  }

  lemma {:induction false} SumsOfLast(rows: seq<Slug>, es: seq<GraphEdge>, n: nat)
    requires es != []
    ensures var init, e := es[..|es| - 1], es[|es| - 1];
            && SumOut(rows, es, n) == SumOut(rows, init, n) +
               (if e.kind == RelationshipEdge && Find(rows, e.source).Some? && Find(rows, e.source).value < n then 1 else 0)
            && SumIn(rows, es, n) == SumIn(rows, init, n) +
               (if e.kind == RelationshipEdge && Find(rows, e.target).Some? && Find(rows, e.target).value < n then 1 else 0)
    decreases n
  {
    hide Find;
    if n > 0 {
      SumsOfLast(rows, es, n - 1);
    }
  }

  lemma {:induction false} SumsAreCounts(rows: seq<Slug>, es: seq<GraphEdge>)
    requires AreOf(rows, es)
    ensures SumOut(rows, es, |rows|) == CountRelationships(es)
    ensures SumIn(rows, es, |rows|) == CountInternal(es)
    decreases |es|
  {
    hide Find, SumOut, SumIn;
    if es == [] {
      NoDegrees(rows, es, |rows|);
    } else {
      var e := es[|es| - 1];
      assert AreOf(rows, es[..|es| - 1]);
      SumsAreCounts(rows, es[..|es| - 1]);
      SumsOfLast(rows, es, |rows|);
      FindInRange(rows, e.source);
      FindInRange(rows, e.target);
    }
  }

  lemma {:induction false} NoDegrees(rows: seq<Slug>, es: seq<GraphEdge>, n: nat)
    requires es == []
    ensures SumOut(rows, es, n) == 0 == SumIn(rows, es, n)
  {
    if n > 0 {
      NoDegrees(rows, es, n - 1);
    }
  }

  lemma {:induction false} OrderEdgesAreOf(all: seq<Slug>, rows: seq<Slug>)
    requires forall i | 0 <= i < |rows| :: Find(all, rows[i].addressId).Some?
    ensures AreOf(all, OrderEdges(rows))
    decreases |rows|
  {
    hide Find;
    if |rows| >= 2 {
      OrderEdgesAreOf(all, rows[..|rows| - 1]);
    }
  }

  lemma {:induction false} RelationshipEdgesAreOf(all: seq<Slug>, rows: seq<Slug>)
    requires forall i | 0 <= i < |rows| :: Find(all, rows[i].addressId).Some?
    ensures AreOf(all, RelationshipEdges(all, rows))
    decreases |rows|
  {
    hide Find, Sort, IsLineagePredicate;
    if rows != [] {
      RelationshipEdgesAreOf(all, rows[..|rows| - 1]);
      var s := rows[|rows| - 1];
      assert Find(all, s.addressId).Some?;
      assert AreOf(all, RelationshipsOf(all, s.addressId, Sort(EdgeBefore, s.relationships)));
    }
  }

  lemma EdgesAreOf(rows: seq<Slug>)
    ensures AreOf(rows, EdgesOf(rows))
  {
    hide Find, OrderEdges, RelationshipEdges;
    forall i | 0 <= i < |rows| ensures Find(rows, rows[i].addressId).Some? {
      FindInRange(rows, rows[i].addressId);
    }
    OrderEdgesAreOf(rows, rows);
    RelationshipEdgesAreOf(rows, rows);
  }

  /** Out-degrees add up to the relationship edges, in-degrees to those that stay inside the graph. */
  lemma DegreesAddUp(slugs: seq<Slug>, specKind: string -> string)
    ensures var g := Built(slugs, specKind);
            TotalOut(g.nodes) == CountRelationships(g.edges) && TotalIn(g.nodes) == CountInternal(g.edges)
  {
    hide Find, Sort, EdgesOf, SumOut, SumIn, AreOf, NodesOf;
    var rows := Sort(RowBefore, TakeRows(slugs).rows);
    var g := Built(slugs, specKind);
    EdgesAreOf(rows);
    SumsAreCounts(rows, EdgesOf(rows));
    TotalsAreSums(rows, NodesOf(rows, specKind), EdgesOf(rows), |rows|);
    assert g.nodes[..|rows|] == g.nodes;
  }

  function Leaving(es: seq<GraphEdge>, address: string): nat {
    if es == [] then 0
    else
      var e := es[|es| - 1];
      Leaving(es[..|es| - 1], address) + (if e.kind == RelationshipEdge && e.source == address then 1 else 0)
  }

  function Entering(es: seq<GraphEdge>, address: string): nat {
    if es == [] then 0
    else
      var e := es[|es| - 1];
      Entering(es[..|es| - 1], address) + (if e.kind == RelationshipEdge && e.target == address then 1 else 0)
  }

  lemma FindIsExact(rows: seq<Slug>, address: string, i: nat)
    requires DistinctAddresses(rows) && i < |rows|
    ensures Find(rows, address) == Some(i) <==> rows[i].addressId == address
  {
    hide Find;
    FindInRange(rows, address);
    var k := Find(rows, address);
    if k.Some? {
      assert k.value < i ==> AddressOf(rows[k.value]) != AddressOf(rows[i]);
      assert i < k.value ==> AddressOf(rows[i]) != AddressOf(rows[k.value]);
    }
  }

  lemma {:induction false} DegreesAreIncidence(rows: seq<Slug>, es: seq<GraphEdge>, i: nat)
    requires DistinctAddresses(rows) && i < |rows|
    ensures OutDegree(rows, es, i) == Leaving(es, rows[i].addressId)
    ensures InDegree(rows, es, i) == Entering(es, rows[i].addressId)
    decreases |es|
  {
    hide Find;
    if es != [] {
      var e := es[|es| - 1];
      DegreesAreIncidence(rows, es[..|es| - 1], i);
      FindIsExact(rows, e.source, i);
      FindIsExact(rows, e.target, i);
    }
  }

  /** With distinct addresses each node's counts are the relationship edges at it, a self-edge counting on both sides. */
  lemma NodeDegrees(slugs: seq<Slug>, specKind: string -> string, i: nat)
    requires DistinctAddresses(TakeRows(slugs).rows) && i < |Built(slugs, specKind).nodes|
    ensures var g := Built(slugs, specKind);
            && g.nodes[i].outgoing == Leaving(g.edges, g.nodes[i].row.addressId)
            && g.nodes[i].incoming == Entering(g.edges, g.nodes[i].row.addressId)
  {
    hide Find, Sort, EdgesOf, DistinctKeys, DeriveVisualShape, OutDegree, InDegree;
    var rows := Sort(RowBefore, TakeRows(slugs).rows);
    SortKeepsDistinct(RowBefore, AddressOf, TakeRows(slugs).rows);
    DegreesAreIncidence(rows, EdgesOf(rows), i);
  }

  // ----- determinism --------------------------------------------------------

  /** The same row, its relationships perhaps in another order. */
  ghost predicate SameRow(a: Slug, b: Slug) {
    a.(relationships := []) == b.(relationships := []) && multiset(a.relationships) == multiset(b.relationships)
  }

  ghost predicate SameRows(a: seq<Slug>, b: seq<Slug>) {
    |a| == |b| && forall i | 0 <= i < |a| :: SameRow(a[i], b[i])
  }

  predicate Compatible(slugs: seq<Slug>) {
    forall i, j | 0 <= i < |slugs| && 0 <= j < |slugs| ::
      slugs[i].checklist == slugs[j].checklist && slugs[i].instanceId == slugs[j].instanceId
  }

  lemma SameRowFields(a: Slug, b: Slug)
    requires SameRow(a, b)
    ensures a.checklist == b.checklist && a.instanceId == b.instanceId && a.addressId == b.addressId
    ensures a.addressOrder == b.addressOrder && a.section == b.section && a.procedure == b.procedure
    ensures a.action == b.action && a.spec == b.spec
  {
    var x, y := a.(relationships := []), b.(relationships := []);
    assert x.checklist == a.checklist && x.instanceId == a.instanceId && x.addressId == a.addressId;
    assert x.addressOrder == a.addressOrder && x.section == a.section && x.procedure == a.procedure;
    assert x.action == a.action && x.spec == a.spec;
    assert y.checklist == b.checklist && y.instanceId == b.instanceId && y.addressId == b.addressId;
    assert y.addressOrder == b.addressOrder && y.section == b.section && y.procedure == b.procedure;
    assert y.action == b.action && y.spec == b.spec;
  }

  lemma {:induction false} CompatibleTakesAll(slugs: seq<Slug>)
    requires Compatible(slugs) && slugs != []
    ensures TakeRows(slugs) == Intake(slugs[0].checklist, slugs[0].instanceId, slugs, 0)
    decreases |slugs|
  {
    var n := |slugs| - 1;
    assert slugs == slugs[..n] + [slugs[n]];
    if n == 0 {
      assert slugs[..0] == [] && [] + [slugs[0]] == slugs;
    } else {
      assert slugs[..n][0] == slugs[0];
      CompatibleInit(slugs, n);
      CompatibleTakesAll(slugs[..n]);
    }
  }

  lemma CompatibleInit(slugs: seq<Slug>, n: nat)
    requires Compatible(slugs) && n <= |slugs|
    ensures Compatible(slugs[..n])
  {
  }

  lemma {:induction false} CountConcat(f: Edge -> bool, a: seq<Edge>, b: seq<Edge>)
    ensures Count(f, a + b) == Count(f, a) + Count(f, b)
    decreases |a|
  {
    if a == [] {
      assert a + b == b;
    } else {
      assert (a + b)[1..] == a[1..] + b;
      CountConcat(f, a[1..], b);
    }
  }

  lemma {:induction false} CountIgnoresOrder(f: Edge -> bool, a: seq<Edge>, b: seq<Edge>)
    requires multiset(a) == multiset(b)
    ensures Count(f, a) == Count(f, b)
    decreases |a|
  {
    assert |multiset(a)| == |a| && |multiset(b)| == |b|;
    if a != [] {
      MultisetEqualMembers(a, b, a[0]);
      var k :| 0 <= k < |b| && b[k] == a[0];
      WithoutOne(a, b, k);
      CountIgnoresOrder(f, a[1..], b[..k] + b[k + 1..]);
      CountWithoutOne(f, b, k);
    }
  }

  lemma WithoutOne(a: seq<Edge>, b: seq<Edge>, k: nat)
    requires a != [] && k < |b| && b[k] == a[0] && multiset(a) == multiset(b)
    ensures multiset(a[1..]) == multiset(b[..k] + b[k + 1..])
  {
    assert a == [a[0]] + a[1..];
    assert b == b[..k] + [b[k]] + b[k + 1..];
    assert multiset(a[1..]) == multiset(a) - multiset{a[0]};
    assert multiset(b[..k] + b[k + 1..]) == multiset(b) - multiset{b[k]};
  }

  lemma CountWithoutOne(f: Edge -> bool, b: seq<Edge>, k: nat)
    requires k < |b|
    ensures Count(f, b) == (if f(b[k]) then 1 else 0) + Count(f, b[..k] + b[k + 1..])
  {
    assert b == b[..k] + ([b[k]] + b[k + 1..]);
    CountConcat(f, b[..k], b[k + 1..]);
    CountConcat(f, b[..k], [b[k]] + b[k + 1..]);
    assert ([b[k]] + b[k + 1..])[1..] == b[k + 1..];
  }

  lemma SameNode(a: Slug, b: Slug, specKind: string -> string)
    requires SameRow(a, b)
    ensures NodeOf(a, specKind) == NodeOf(b, specKind)
  {
    hide Contains, IsOperational, IsNonPassBranch, IsGateOrVerify, IsStatusBranch;
    SameRowFields(a, b);
    CountIgnoresOrder(IsOperational, a.relationships, b.relationships);
    CountIgnoresOrder(IsNonPassBranch, a.relationships, b.relationships);
    CountIgnoresOrder(IsGateOrVerify, a.relationships, b.relationships);
    CountIgnoresOrder(IsStatusBranch, a.relationships, b.relationships);
  }

  lemma {:induction false} SameFind(a: seq<Slug>, b: seq<Slug>, address: string)
    requires SameRows(a, b)
    ensures Find(a, address) == Find(b, address)
    decreases |a|
  {
    hide SameRow;
    if a != [] {
      SameFind(a[..|a| - 1], b[..|b| - 1], address);
      SameRowFields(a[|a| - 1], b[|b| - 1]);
    }
  }

  lemma {:induction false} SameOrderEdges(a: seq<Slug>, b: seq<Slug>)
    requires SameRows(a, b)
    ensures OrderEdges(a) == OrderEdges(b)
    decreases |a|
  {
    hide SameRow;
    if |a| >= 2 {
      var n := |a| - 1;
      SameOrderEdges(a[..n], b[..n]);
      SameRowFields(a[n - 1], b[n - 1]);
      SameRowFields(a[n], b[n]);
    }
  }

  lemma SameRelationships(allA: seq<Slug>, allB: seq<Slug>, source: string, es: seq<Edge>)
    requires SameRows(allA, allB)
    ensures RelationshipsOf(allA, source, es) == RelationshipsOf(allB, source, es)
  {
    hide SameRows, Find, IsLineagePredicate;
    forall i | 0 <= i < |es| ensures RelationshipOf(allA, source, es[i]) == RelationshipOf(allB, source, es[i]) {
      SameFind(allA, allB, es[i].target);
    }
  }

  lemma {:induction false} SameRelationshipEdges(allA: seq<Slug>, allB: seq<Slug>, a: seq<Slug>, b: seq<Slug>)
    requires SameRows(allA, allB) && SameRows(a, b)
    ensures RelationshipEdges(allA, a) == RelationshipEdges(allB, b)
    decreases |a|
  {
    hide SameRow, RelationshipsOf, Sort;
    if a != [] {
      var n := |a| - 1;
      SameRelationshipEdges(allA, allB, a[..n], b[..n]);
      SameRowFields(a[n], b[n]);
      SameSortedEdges(a[n], b[n]);
      SameRelationships(allA, allB, a[n].addressId, Sort(EdgeBefore, a[n].relationships));
    }
  }

  lemma SameSortedEdges(a: Slug, b: Slug)
    requires SameRow(a, b)
    ensures Sort(EdgeBefore, a.relationships) == Sort(EdgeBefore, b.relationships)
  {
    SortedEdgesIgnoreOrder(a.relationships, b.relationships);
  }

  lemma {:induction false} SameDegrees(a: seq<Slug>, b: seq<Slug>, es: seq<GraphEdge>, i: nat)
    requires SameRows(a, b)
    ensures OutDegree(a, es, i) == OutDegree(b, es, i) && InDegree(a, es, i) == InDegree(b, es, i)
    decreases |es|
  {
    hide SameRows, Find;
    if es != [] {
      SameDegrees(a, b, es[..|es| - 1], i);
      SameFind(a, b, es[|es| - 1].source);
      SameFind(a, b, es[|es| - 1].target);
    }
  }

  lemma {:induction false} InsertSame(a: Slug, b: Slug, s: seq<Slug>, t: seq<Slug>)
    requires SameRow(a, b) && SameRows(s, t)
    ensures SameRows(Insert(RowBefore, a, s), Insert(RowBefore, b, t))
    decreases |s|
  {
    hide SameRow;
    if s != [] {
      SameRowFields(a, b);
      SameRowFields(s[0], t[0]);
      InsertSame(a, b, s[1..], t[1..]);
    }
  }

  lemma {:induction false} SortSame(a: seq<Slug>, b: seq<Slug>)
    requires SameRows(a, b)
    ensures SameRows(Sort(RowBefore, a), Sort(RowBefore, b))
    decreases |a|
  {
    hide SameRow, Insert;
    if a != [] {
      SortSame(a[1..], b[1..]);
      InsertSame(a[0], b[0], Sort(RowBefore, a[1..]), Sort(RowBefore, b[1..]));
    }
  }

  /** The graph of rows of one checklist and instance, with distinct addresses, depends on neither the order of the rows
    * nor the order of their relationships: `arranged` is the same rows in another order, and `shuffled` those with their
    * relationships reordered. */
  lemma GraphIgnoresOrder(slugs: seq<Slug>, arranged: seq<Slug>, shuffled: seq<Slug>, specKind: string -> string)
    requires Compatible(slugs) && DistinctAddresses(slugs)
    requires multiset(arranged) == multiset(slugs) && SameRows(arranged, shuffled)
    ensures Built(shuffled, specKind) == Built(slugs, specKind)
  {
    hide Sort, RowBefore, SameRow, Counted, DistinctAddresses;
    assert |multiset(arranged)| == |arranged| && |multiset(slugs)| == |slugs|;
    if slugs != [] {
      CompatibleShuffle(slugs, arranged, shuffled);
      CompatibleTakesAll(slugs);
      CompatibleTakesAll(shuffled);
      SortedRowsIgnoreOrder(slugs, arranged);
      SortSame(arranged, shuffled);
      SameGraphParts(Sort(RowBefore, slugs), Sort(RowBefore, shuffled), specKind);
    }
  }

  lemma CompatibleShuffle(slugs: seq<Slug>, arranged: seq<Slug>, shuffled: seq<Slug>)
    requires Compatible(slugs) && slugs != [] && multiset(arranged) == multiset(slugs) && SameRows(arranged, shuffled)
    ensures Compatible(shuffled)
    ensures shuffled != [] ==> shuffled[0].checklist == slugs[0].checklist && shuffled[0].instanceId == slugs[0].instanceId
  {
    hide SameRow;
    forall i | 0 <= i < |shuffled|
      ensures shuffled[i].checklist == slugs[0].checklist && shuffled[i].instanceId == slugs[0].instanceId
    {
      SameRowFields(arranged[i], shuffled[i]);
      MultisetEqualMembers(arranged, slugs, arranged[i]);
      assert arranged[i] in slugs;
    }
  }

  lemma SameGraphParts(a: seq<Slug>, b: seq<Slug>, specKind: string -> string)
    requires SameRows(a, b)
    ensures EdgesOf(a) == EdgesOf(b)
    ensures Counted(a, NodesOf(a, specKind), EdgesOf(a)) == Counted(b, NodesOf(b, specKind), EdgesOf(b))
  {
    hide SameRow, OutDegree, InDegree, OrderEdges, RelationshipEdges, DeriveVisualShape;
    SameOrderEdges(a, b);
    SameRelationshipEdges(a, b, a, b);
    forall i | 0 <= i < |a| ensures NodeOf(a[i], specKind) == NodeOf(b[i], specKind) {
      SameNode(a[i], b[i], specKind);
    }
    assert NodesOf(a, specKind) == NodesOf(b, specKind);
    forall i | 0 <= i < |a|
      ensures OutDegree(a, EdgesOf(a), i) == OutDegree(b, EdgesOf(b), i)
      ensures InDegree(a, EdgesOf(a), i) == InDegree(b, EdgesOf(b), i)
    {
      SameDegrees(a, b, EdgesOf(a), i);
    }
  }
}
