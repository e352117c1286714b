/** Numbering on import and sorting on export put a checklist into a normal form. */
module NormalForm {
  import opened Text
  import opened Checklist
  import opened MarkdownExport
  import opened ImportOrder
  import Sorting

  // ----- stable grouping by section -----------------------------------------

  function Gather(slugs: seq<Slug>, fs: seq<string>): seq<Slug> {
    if fs == [] then [] else InSection(slugs, fs[0]) + Gather(slugs, fs[1..])
  }

  /** Sections in order of first appearance, the rows of each in their old order. */
  function Grouped(slugs: seq<Slug>): seq<Slug> {
    Gather(slugs, Firsts(slugs))
  }

  /** Every section but the last may hold as many rows as fit into its block. */
  predicate WithinCapacity(slugs: seq<Slug>) {
    var fs := Firsts(slugs);
    forall k | 0 <= k < |fs| - 1 :: |InSection(slugs, fs[k])| <= CAPACITY
  }

  predicate Distinct(fs: seq<string>) {
    forall i, j | 0 <= i < j < |fs| :: fs[i] != fs[j]
  }

  lemma {:induction false} FirstsAreDistinct(slugs: seq<Slug>)
    ensures Distinct(Firsts(slugs))
    ensures forall s | s in slugs :: s.section in Firsts(slugs)
  {
    if slugs != [] {
      var init := slugs[..|slugs| - 1];
      FirstsAreDistinct(init);
      assert slugs == init + [slugs[|slugs| - 1]];
    }
  }

  lemma {:induction false} PositionAt(fs: seq<string>, k: nat)
    requires Distinct(fs) && k < |fs|
    ensures Position(fs, fs[k]) == k
  {
    if k > 0 {
      assert fs[0] != fs[k];
      PositionAt(fs[1..], k - 1);
    }
  }

  lemma {:induction false} InSectionMembers(slugs: seq<Slug>, f: string)
    ensures forall s :: s in InSection(slugs, f) <==> s in slugs && s.section == f
  {
    if slugs != [] {
      var init := slugs[..|slugs| - 1];
      InSectionMembers(init, f);
      assert slugs == init + [slugs[|slugs| - 1]];
    }
  }

  // ----- grouping permutes --------------------------------------------------

  lemma GatherCons(slugs: seq<Slug>, fs: seq<string>)
    requires fs != []
    ensures Gather(slugs, fs) == InSection(slugs, fs[0]) + Gather(slugs, fs[1..])
  {
  }

  lemma {:induction false} GatherSnoc(slugs: seq<Slug>, s: Slug, fs: seq<string>)
    requires Distinct(fs)
    ensures multiset(Gather(slugs + [s], fs))
            == multiset(Gather(slugs, fs)) + if s.section in fs then multiset{s} else multiset{}
    decreases |fs|
  {
    hide InSection, Gather;
    var all := slugs + [s];
    if fs == [] {
      GatherOfEmpty(slugs);
      GatherOfEmpty(all);
    } else {
      var f, rest := fs[0], fs[1..];
      FirstsSnoc(slugs, s);
      GatherSnoc(slugs, s, rest);
      GatherCons(slugs, fs);
      GatherCons(all, fs);
      assert s.section in fs <==> s.section == f || s.section in rest;
      assert s.section == f ==> s.section !in rest;
    }
  }

  lemma GatherOfEmpty(slugs: seq<Slug>)
    ensures Gather(slugs, []) == []
  {
  }

  lemma {:induction false} GatherOfNone(fs: seq<string>)
    ensures Gather([], fs) == []
  {
    if fs != [] {
      GatherOfNone(fs[1..]);
    }
  }

  lemma {:induction false} GatherIsPermutation(slugs: seq<Slug>, fs: seq<string>)
    requires Distinct(fs) && forall s | s in slugs :: s.section in fs
    ensures multiset(Gather(slugs, fs)) == multiset(slugs)
    decreases |slugs|
  {
    if slugs == [] {
      GatherOfNone(fs);
    } else {
      var init, last := slugs[..|slugs| - 1], slugs[|slugs| - 1];
      assert slugs == init + [last];
      assert last in slugs;
      assert forall s | s in init :: s in slugs;
      GatherIsPermutation(init, fs);
      GatherSnoc(init, last, fs);
    }
  }

  // ----- the numbers --------------------------------------------------------

  lemma AssignedSnoc(slugs: seq<Slug>, s: Slug)
    ensures Assigned(slugs + [s]) == Assigned(slugs) + [s.(addressOrder := OrderAt(slugs + [s], |slugs|))]
  {
    var all := slugs + [s];
    forall i | 0 <= i < |slugs| ensures OrderAt(all, i) == OrderAt(slugs, i) {
      assert all[..i] == slugs[..i] && all[..i + 1] == slugs[..i + 1];
    }
  }

  /** The number a row gets when it is the `j`-th of section `f`. */
  function Number(fs: seq<string>, f: string, j: nat): int {
    Position(fs, f) * STRIDE + (j + 1) * GAP
  }

  lemma OrderOfLast(slugs: seq<Slug>, s: Slug)
    ensures OrderAt(slugs + [s], |slugs|) == Number(Firsts(slugs + [s]), s.section, |InSection(slugs, s.section)|)
  {
    assert (slugs + [s])[..|slugs| + 1] == slugs + [s];
    assert (slugs + [s])[..|slugs|] == slugs;
  }

  predicate Numbered(numbered: seq<Slug>, fs: seq<string>, f: string) {
    forall j | 0 <= j < |numbered| :: numbered[j].addressOrder == Number(fs, f, j)
  }

  lemma {:induction false} SectionNumbers(slugs: seq<Slug>, f: string)
    ensures Firsts(Assigned(slugs)) == Firsts(slugs)
    ensures |InSection(Assigned(slugs), f)| == |InSection(slugs, f)|
    ensures Numbered(InSection(Assigned(slugs), f), Firsts(slugs), f)
    decreases |slugs|
  {
    if slugs != [] {
      var init, last := slugs[..|slugs| - 1], slugs[|slugs| - 1];
      assert slugs == init + [last];
      SectionNumbers(init, f);
      SectionNumbersSnoc(init, last, f);
    }
  }

  lemma SectionNumbersSnoc(init: seq<Slug>, last: Slug, f: string)
    requires Firsts(Assigned(init)) == Firsts(init)
    requires |InSection(Assigned(init), f)| == |InSection(init, f)|
    requires Numbered(InSection(Assigned(init), f), Firsts(init), f)
    ensures var slugs := init + [last];
            && Firsts(Assigned(slugs)) == Firsts(slugs)
            && |InSection(Assigned(slugs), f)| == |InSection(slugs, f)|
            && Numbered(InSection(Assigned(slugs), f), Firsts(slugs), f)
  {
    hide Position, Firsts, InSection, Assigned, OrderAt;
    var numbered := last.(addressOrder := OrderAt(init + [last], |init|));
    AssignedSnoc(init, last);
    FirstsSnoc(init, last);
    FirstsSnoc(Assigned(init), numbered);
    OrderOfLast(init, last);
    var fs, fs' := Firsts(init), Firsts(init + [last]);
    var old', new' := InSection(Assigned(init), f), InSection(Assigned(init + [last]), f);
    forall j | 0 <= j < |old'| ensures Number(fs', f, j) == Number(fs, f, j) {
      assert old'[j] in old';
      InSectionMembers(Assigned(init), f);
      FirstsAreDistinct(Assigned(init));
      if last.section !in fs {
        PositionOfNew(fs, last.section, f);
      }
    }
  }

  // ----- increasing order ---------------------------------------------------

  predicate Increasing(s: seq<Slug>, above: int) {
    && (forall i | 0 <= i < |s| :: s[i].addressOrder > above)
    && (forall i, j | 0 <= i < j < |s| :: s[i].addressOrder < s[j].addressOrder)
  }

  lemma IncreasingConcat(a: seq<Slug>, b: seq<Slug>, low: int, middle: int)
    requires Increasing(a, low) && Increasing(b, middle) && low <= middle
    requires forall i | 0 <= i < |a| :: a[i].addressOrder <= middle
    ensures Increasing(a + b, low)
  {
  }

  lemma SectionIncreasing(numbered: seq<Slug>, fs: seq<string>, k: nat)
    requires Distinct(fs) && k < |fs| && Numbered(numbered, fs, fs[k])
    ensures Increasing(numbered, k * STRIDE)
    ensures |numbered| <= CAPACITY ==> forall i | 0 <= i < |numbered| :: numbered[i].addressOrder <= (k + 1) * STRIDE
  {
    PositionAt(fs, k);
  }

  lemma {:induction false} GatherIncreasing(slugs: seq<Slug>, k: nat)
    requires WithinCapacity(slugs) && k <= |Firsts(slugs)|
    ensures Increasing(Gather(Assigned(slugs), Firsts(slugs)[k..]), k * STRIDE)
    decreases |Firsts(slugs)| - k
  {
    hide Firsts, InSection, Assigned, Increasing, Numbered;
    var fs := Firsts(slugs);
    if k < |fs| {
      var here, rest := InSection(Assigned(slugs), fs[k]), Gather(Assigned(slugs), fs[k + 1..]);
      FirstsAreDistinct(slugs);
      SectionNumbers(slugs, fs[k]);
      SectionIncreasing(here, fs, k);
      GatherIncreasing(slugs, k + 1);
      assert fs[k..][0] == fs[k] && fs[k..][1..] == fs[k + 1..];
      if k == |fs| - 1 {
        assert fs[k + 1..] == [];
        assert here + rest == here;
      } else {
        IncreasingConcat(here, rest, k * STRIDE, (k + 1) * STRIDE);
      }
    } else {
      NothingIncreases(Assigned(slugs), fs[k..], k * STRIDE);
    }
  }

  lemma NothingIncreases(slugs: seq<Slug>, fs: seq<string>, low: int)
    requires fs == []
    ensures Increasing(Gather(slugs, fs), low)
  {
  }

  lemma SortHead(b: seq<Slug>, a: seq<Slug>)
    requires Increasing(a, 0) && InOrder(b) && multiset(a) == multiset(b) && a != [] && b != []
    ensures a[0] == b[0]
  {
    assert a[0] in multiset(b) && b[0] in multiset(a);
    var k :| 0 <= k < |a| && a[k] == b[0];
    var m :| 0 <= m < |b| && b[m] == a[0];
    assert m == 0 || !Before(b[m], b[0]);
    assert k == 0 || a[0].addressOrder < a[k].addressOrder;
  }

  /** A list of positive increasing numbers is the only thing sorting can make of its rows. */
  lemma {:induction false} SortIsDetermined(b: seq<Slug>, a: seq<Slug>)
    requires Increasing(a, 0) && InOrder(b) && multiset(a) == multiset(b)
    ensures a == b
    decreases |a|
  {
    hide Before;
    assert |multiset(a)| == |a| && |multiset(b)| == |b|;
    if a != [] {
      SortHead(b, a);
      Sorting.TailMembers(a);
      Sorting.TailMembers(b);
      SortIsDetermined(b[1..], a[1..]);
      assert a == [a[0]] + a[1..] && b == [b[0]] + b[1..];
    }
  }

  /** Import numbering followed by export sorting, whatever the sort does with ties, groups the rows by section. */
  lemma SortedImportIsGrouped(slugs: seq<Slug>, ordered: seq<Slug>)
    requires WithinCapacity(slugs) && IsSortOf(ordered, Assigned(slugs))
    ensures ordered == Grouped(Assigned(slugs))
    ensures Increasing(ordered, 0)
  {
    hide Firsts, InSection, Assigned, Increasing, InOrder, WithinCapacity, Gather;
    var a := Assigned(slugs);
    SectionNumbers(slugs, "");
    FirstsAreDistinct(a);
    GatherIsPermutation(a, Firsts(a));
    GatherIncreasing(slugs, 0);
    assert Firsts(slugs)[0..] == Firsts(slugs);
    SortIsDetermined(ordered, Grouped(a));
  }

  // ----- when the numbers are distinct --------------------------------------

  predicate DistinctOrders(slugs: seq<Slug>) {
    forall i, j | 0 <= i < j < |slugs| :: slugs[i].addressOrder != slugs[j].addressOrder
  }

  lemma IncreasingPermutation(a: seq<Slug>, g: seq<Slug>)
    requires multiset(a) == multiset(g) && Increasing(g, 0)
    ensures DistinctOrders(a)
  {
    forall i, j | 0 <= i < j < |a| ensures a[i].addressOrder != a[j].addressOrder {
      assert a == a[..i] + [a[i]] + a[i + 1..j] + [a[j]] + a[j + 1..];
      if a[i] == a[j] {
        assert multiset(a)[a[i]] >= 2;
        NoTwins(g, a[i]);
      } else {
        assert a[i] in multiset(g) && a[j] in multiset(g);
        var p :| 0 <= p < |g| && g[p] == a[i];
        var q :| 0 <= q < |g| && g[q] == a[j];
        assert p != q;
        assert if p < q then g[p].addressOrder < g[q].addressOrder else g[q].addressOrder < g[p].addressOrder;
      }
    }
  }

  lemma {:induction false} NoTwins(g: seq<Slug>, s: Slug)
    requires Increasing(g, 0)
    ensures multiset(g)[s] <= 1
  {
    if g != [] {
      assert g == [g[0]] + g[1..];
      assert g[0] !in g[1..];
      NoTwins(g[1..], s);
    }
  }

  /** The capacity bound is exact: numbers are distinct if and only if no section but the last overflows its block. */
  lemma NumbersAreDistinctExactly(slugs: seq<Slug>)
    ensures DistinctOrders(Assigned(slugs)) <==> WithinCapacity(slugs)
  {
    hide Firsts, InSection, Assigned, Increasing, Gather, Numbered;
    var a, fs := Assigned(slugs), Firsts(slugs);
    FirstsAreDistinct(a);
    SectionNumbers(slugs, "");
    if WithinCapacity(slugs) {
      GatherIsPermutation(a, fs);
      GatherIncreasing(slugs, 0);
      assert fs[0..] == fs;
      IncreasingPermutation(a, Gather(a, fs));
    } else {
      var k :| 0 <= k < |fs| - 1 && |InSection(slugs, fs[k])| > CAPACITY;
      Collision(slugs, k);
    }
  }

  lemma {:induction false} FirstsAreUsed(slugs: seq<Slug>, f: string)
    requires f in Firsts(slugs)
    ensures InSection(slugs, f) != []
    decreases |slugs|
  {
    var init := slugs[..|slugs| - 1];
    if f in Firsts(init) {
      FirstsAreUsed(init, f);
    }
  }

  lemma Collision(slugs: seq<Slug>, k: nat)
    requires k + 1 < |Firsts(slugs)| && |InSection(slugs, Firsts(slugs)[k])| > CAPACITY
    ensures !DistinctOrders(Assigned(slugs))
  {
    hide Firsts, InSection, Assigned, Position;
    var a, fs := Assigned(slugs), Firsts(slugs);
    FirstsAreDistinct(slugs);
    SectionNumbers(slugs, fs[k]);
    SectionNumbers(slugs, fs[k + 1]);
    FirstsAreUsed(slugs, fs[k + 1]);
    PositionAt(fs, k);
    PositionAt(fs, k + 1);
    var full, next := InSection(a, fs[k]), InSection(a, fs[k + 1]);
    assert full[CAPACITY].addressOrder == next[0].addressOrder;
    InSectionMembers(a, fs[k]);
    InSectionMembers(a, fs[k + 1]);
    assert full[CAPACITY] in full && next[0] in next;
    var i :| 0 <= i < |a| && a[i] == full[CAPACITY];
    var j :| 0 <= j < |a| && a[j] == next[0];
    assert fs[k] != fs[k + 1];
    assert i != j;
  }
}
