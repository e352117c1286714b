/** Gapped numbering of imported rows, and the order an export puts them in. */
module ImportOrder {
  import opened Text
  import opened Checklist
  import opened MarkdownExport

  const GAP := 1000
  const STRIDE := 10000000
  const CAPACITY: nat := 10000

  // ----- sections in order of first appearance ------------------------------

  function Position(fs: seq<string>, f: string): (k: nat)
    ensures k <= |fs| && (k < |fs| <==> f in fs) && (k < |fs| ==> fs[k] == f)
  {
    if fs == [] then 0 else if fs[0] == f then 0 else 1 + Position(fs[1..], f)
  }

  function Firsts(slugs: seq<Slug>): seq<string> {
    if slugs == [] then [] else
      var fs, f := Firsts(slugs[..|slugs| - 1]), slugs[|slugs| - 1].section;
      if f in fs then fs else fs + [f]
  }

  /** The rows of one section, in order. */
  function InSection(slugs: seq<Slug>, f: string): seq<Slug> {
    if slugs == [] then []
    else
      var last := slugs[|slugs| - 1];
      InSection(slugs[..|slugs| - 1], f) + if last.section == f then [last] else []
  }

  /** The number given to row `i`: its section's block, then its place in the section. */
  function OrderAt(slugs: seq<Slug>, i: nat): int
    requires i < |slugs|
  {
    var f := slugs[i].section;
    Position(Firsts(slugs[..i + 1]), f) * STRIDE + (|InSection(slugs[..i], f)| + 1) * GAP
  }

  function Assigned(slugs: seq<Slug>): (r: seq<Slug>)
    ensures |r| == |slugs|
  {
    seq(|slugs|, i requires 0 <= i < |slugs| => slugs[i].(addressOrder := OrderAt(slugs, i)))
  }

  lemma FirstsSnoc(slugs: seq<Slug>, s: Slug)
    ensures Firsts(slugs + [s]) == if s.section in Firsts(slugs) then Firsts(slugs) else Firsts(slugs) + [s.section]
    ensures forall f :: InSection(slugs + [s], f) == InSection(slugs, f) + if s.section == f then [s] else []
  {
    assert (slugs + [s])[..|slugs|] == slugs;
  }

  lemma {:induction false} PositionOfNew(fs: seq<string>, f: string, g: string)
    requires f !in fs
    ensures Position(fs + [f], f) == |fs|
    ensures g in fs ==> Position(fs + [f], g) == Position(fs, g)
  {
    if fs != [] {
      assert (fs + [f])[1..] == fs[1..] + [f];
      PositionOfNew(fs[1..], f, g);
    }
  }

  // ----- the numbering loop -------------------------------------------------

  method AssignImportOrder(slugs: array<Slug>)
    modifies slugs
    ensures slugs[..] == Assigned(old(slugs[..]))
  {
    hide Counts, OrderAt;
    ghost var was := slugs[..];
    var sectionIndex: map<string, nat> := map[];
    var rowCounts: map<string, nat> := map[];
    var nextSectionIndex := 0;
    NothingCounted();
    assert was[..0] == [];
    for n := 0 to slugs.Length
      invariant forall j | 0 <= j < n :: slugs[j] == was[j].(addressOrder := OrderAt(was, j))
      invariant forall j | n <= j < slugs.Length :: slugs[j] == was[j]
      invariant Counts(was[..n], sectionIndex, rowCounts, nextSectionIndex)
    {
      var f := slugs[n].section;
      ghost var index, counts, next := sectionIndex, rowCounts, nextSectionIndex;
      CountsStep(was, n, sectionIndex, rowCounts, nextSectionIndex);
      if f !in sectionIndex {
        sectionIndex := sectionIndex[f := nextSectionIndex];
        nextSectionIndex := nextSectionIndex + 1;
        rowCounts := rowCounts[f := 0];
      }
      slugs[n] := slugs[n].(addressOrder := sectionIndex[f] * STRIDE + (rowCounts[f] + 1) * GAP);
      rowCounts := rowCounts[f := rowCounts[f] + 1];
      assert rowCounts == Entered(counts, f, 0)[f := Entered(counts, f, 0)[f] + 1];
    }
  }

  /** The two maps hold each seen section's block number and its row count so far. */
  ghost predicate Counts(seen: seq<Slug>, sectionIndex: map<string, nat>, rowCounts: map<string, nat>, next: nat) {
    && next == |Firsts(seen)|
    && sectionIndex.Keys == rowCounts.Keys == (set f | f in Firsts(seen))
    && (forall f | f in sectionIndex :: sectionIndex[f] == Position(Firsts(seen), f))
    && (forall f | f in rowCounts :: rowCounts[f] == |InSection(seen, f)|)
  }

  lemma NothingCounted()
    ensures Counts([], map[], map[], 0)
  {
  }

  /** A map after its key has been looked up and, when absent, inserted. */
  function Entered(m: map<string, nat>, f: string, initial: nat): map<string, nat> {
    if f in m then m else m[f := initial]
  }

  lemma {:induction false} UnseenIsEmpty(seen: seq<Slug>, f: string)
    requires f !in Firsts(seen)
    ensures InSection(seen, f) == []
  {
    if seen != [] {
      UnseenIsEmpty(seen[..|seen| - 1], f);
    }
  }

  /** One turn of the loop: the number is right, and the maps describe one more row. */
  lemma CountsStep(was: seq<Slug>, n: nat, sectionIndex: map<string, nat>, rowCounts: map<string, nat>, next: nat)
    requires n < |was| && Counts(was[..n], sectionIndex, rowCounts, next)
    ensures var f := was[n].section;
            var index, counts := Entered(sectionIndex, f, next), Entered(rowCounts, f, 0);
            && (f in sectionIndex <==> f in rowCounts)
            && OrderAt(was, n) == index[f] * STRIDE + (counts[f] + 1) * GAP
            && Counts(was[..n + 1], index, counts[f := counts[f] + 1], if f in sectionIndex then next else next + 1)
  {
    hide Position, Firsts, InSection;
    var seen, s := was[..n], was[n];
    var f := s.section;
    assert was[..n + 1] == seen + [s];
    FirstsSnoc(seen, s);
    if f !in sectionIndex {
      UnseenIsEmpty(seen, f);
      PositionsKept(Firsts(seen), f);
    }
  }

  lemma PositionsKept(fs: seq<string>, f: string)
    requires f !in fs
    ensures Position(fs + [f], f) == |fs| && forall g | g in fs :: Position(fs + [f], g) == Position(fs, g)
  {
    PositionOfNew(fs, f, f);
    forall g | g in fs ensures Position(fs + [f], g) == Position(fs, g) {
      PositionOfNew(fs, f, g);
    }
  }
}
