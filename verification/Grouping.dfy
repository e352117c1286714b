/** Grouping by section: idempotent, one heading per section, and nothing to do for contiguous lists. */
module Grouping {
  import opened Text
  import opened Checklist
  import opened MarkdownExport
  import opened MarkdownLaws
  import opened ImportOrder
  import opened NormalForm

  lemma {:induction false} InSectionConcat(a: seq<Slug>, b: seq<Slug>, f: string)
    ensures InSection(a + b, f) == InSection(a, f) + InSection(b, f)
    decreases |b|
  {
    hide InSection, Firsts;
    if b == [] {
      NoRows(f);
      assert a + b == a;
    } else {
      var init, last := b[..|b| - 1], b[|b| - 1];
      InSectionConcat(a, init, f);
      assert a + b == (a + init) + [last];
      assert b == init + [last];
      FirstsSnoc(a + init, last);
      FirstsSnoc(init, last);
    }
  }

  lemma {:induction false} InSectionTwice(slugs: seq<Slug>, g: string, f: string)
    ensures InSection(InSection(slugs, g), f) == if f == g then InSection(slugs, g) else []
    decreases |slugs|
  {
    if slugs != [] {
      var init, last := slugs[..|slugs| - 1], slugs[|slugs| - 1];
      InSectionTwice(init, g, f);
      if last.section == g {
        FirstsSnoc(InSection(init, g), last);
      } else {
        assert InSection(init, g) + [] == InSection(init, g);
      }
    }
  }

  lemma {:induction false} InSectionOfGather(slugs: seq<Slug>, fs: seq<string>, f: string)
    requires Distinct(fs)
    ensures InSection(Gather(slugs, fs), f) == if f in fs then InSection(slugs, f) else []
    decreases |fs|
  {
    hide InSection;
    if fs == [] {
      NoRows(f);
    } else {
      var g, rest := fs[0], fs[1..];
      InSectionConcat(InSection(slugs, g), Gather(slugs, rest), f);
      InSectionTwice(slugs, g, f);
      InSectionOfGather(slugs, rest, f);
      assert fs == [g] + rest;
      assert g !in rest;
    }
  }

  lemma NoRows(f: string)
    ensures InSection([], f) == [] && Firsts([]) == []
  {
  }

  lemma {:induction false} FirstsConcat(a: seq<Slug>, b: seq<Slug>)
    requires forall f | f in Firsts(b) :: f !in Firsts(a)
    ensures Firsts(a + b) == Firsts(a) + Firsts(b)
    decreases |b|
  {
    hide InSection, Firsts;
    if b == [] {
      NoRows("");
      assert a + b == a;
    } else {
      var init, last := b[..|b| - 1], b[|b| - 1];
      FirstsConcatStep(a, init, last, b);
      FirstsConcat(a, init);
      FirstsSnoc(a + init, last);
    }
  }

  lemma FirstsConcatStep(a: seq<Slug>, init: seq<Slug>, last: Slug, b: seq<Slug>)
    requires b == init + [last] && forall f | f in Firsts(b) :: f !in Firsts(a)
    ensures Firsts(b) == if last.section in Firsts(init) then Firsts(init) else Firsts(init) + [last.section]
    ensures forall f | f in Firsts(init) :: f !in Firsts(a)
    ensures last.section !in Firsts(a) && a + b == (a + init) + [last]
  {
    hide InSection, Firsts;
    FirstsSnoc(init, last);
    assert last.section in Firsts(b);
    forall f | f in Firsts(init) ensures f !in Firsts(a) {
      assert f in Firsts(b);
    }
  }

  lemma {:induction false} FirstsOfSection(slugs: seq<Slug>, f: string)
    ensures Firsts(InSection(slugs, f)) == if InSection(slugs, f) == [] then [] else [f]
    decreases |slugs|
  {
    if slugs != [] {
      var init, last := slugs[..|slugs| - 1], slugs[|slugs| - 1];
      FirstsOfSection(init, f);
      if last.section == f {
        FirstsSnoc(InSection(init, f), last);
      } else {
        assert InSection(init, f) + [] == InSection(init, f);
      }
    }
  }

  predicate AllUsed(slugs: seq<Slug>, fs: seq<string>) {
    forall k | 0 <= k < |fs| :: InSection(slugs, fs[k]) != []
  }

  lemma {:induction false} FirstsOfGather(slugs: seq<Slug>, fs: seq<string>)
    requires Distinct(fs) && AllUsed(slugs, fs)
    ensures Firsts(Gather(slugs, fs)) == fs
    decreases |fs|
  {
    hide InSection, Firsts;
    if fs == [] {
      NoRows("");
    } else {
      var g, rest := fs[0], fs[1..];
      FirstsOfSection(slugs, g);
      FirstsOfGather(slugs, rest);
      assert g !in rest;
      FirstsConcat(InSection(slugs, g), Gather(slugs, rest));
      assert [g] + rest == fs;
    }
  }

  lemma FirstsUsed(slugs: seq<Slug>)
    ensures Distinct(Firsts(slugs)) && AllUsed(slugs, Firsts(slugs))
  {
    FirstsAreDistinct(slugs);
    var fs := Firsts(slugs);
    forall k | 0 <= k < |fs| ensures InSection(slugs, fs[k]) != [] {
      FirstsAreUsed(slugs, fs[k]);
    }
  }

  lemma {:induction false} GatherAgrees(a: seq<Slug>, b: seq<Slug>, fs: seq<string>)
    requires forall f | f in fs :: InSection(a, f) == InSection(b, f)
    ensures Gather(a, fs) == Gather(b, fs)
    decreases |fs|
  {
    hide InSection;
    if fs != [] {
      assert fs[0] in fs;
      assert forall f | f in fs[1..] :: f in fs;
      GatherAgrees(a, b, fs[1..]);
    }
  }

  /** Grouping keeps the sections and each section's rows, and is idempotent. */
  lemma GroupedTwice(slugs: seq<Slug>)
    ensures Firsts(Grouped(slugs)) == Firsts(slugs)
    ensures forall f :: InSection(Grouped(slugs), f) == InSection(slugs, f)
    ensures Grouped(Grouped(slugs)) == Grouped(slugs)
  {
    hide InSection, Firsts, Gather, Distinct, AllUsed;
    var fs := Firsts(slugs);
    FirstsUsed(slugs);
    FirstsOfGather(slugs, fs);
    forall f ensures InSection(Grouped(slugs), f) == InSection(slugs, f) {
      InSectionOfGather(slugs, fs, f);
      if f !in fs {
        UnseenIsEmpty(slugs, f);
      }
    }
    GatherAgrees(Grouped(slugs), slugs, fs);
  }

  // ----- headings -----------------------------------------------------------

  /** The section headings an export prints, in order. */
  function Headings(slugs: seq<Slug>, current: string): seq<string> {
    if slugs == [] then []
    else (if slugs[0].section != current then [slugs[0].section] else []) + Headings(slugs[1..], slugs[0].section)
  }

  lemma {:induction false} HeadingsOfBlock(rows: seq<Slug>, rest: seq<Slug>, f: string, current: string)
    requires forall s | s in rows :: s.section == f
    ensures Headings(rows + rest, current) ==
            if rows == [] then Headings(rest, current) else (if f == current then [] else [f]) + Headings(rest, f)
    decreases |rows|
  {
    if rows == [] {
      assert rows + rest == rest;
    } else {
      var more := rows[1..];
      assert rows == [rows[0]] + more;
      assert rows[0] in rows && (rows + rest)[0] == rows[0];
      assert (rows + rest)[1..] == more + rest;
      HeadingsOfBlock(more, rest, f, f);
    }
  }

  lemma {:induction false} HeadingsOfGather(slugs: seq<Slug>, fs: seq<string>, current: string)
    requires Distinct(fs) && AllUsed(slugs, fs) && current !in fs
    ensures Headings(Gather(slugs, fs), current) == fs
    decreases |fs|
  {
    hide InSection;
    if fs != [] {
      var g, rest := fs[0], fs[1..];
      InSectionMembers(slugs, g);
      HeadingsOfBlock(InSection(slugs, g), Gather(slugs, rest), g, current);
      assert g !in rest;
      HeadingsOfGather(slugs, rest, g);
      assert [g] + rest == fs;
    }
  }

  /** A grouped list prints every section heading exactly once, in order of first appearance. */
  lemma HeadingsOnce(slugs: seq<Slug>)
    requires "" !in Firsts(slugs)
    ensures Headings(Grouped(slugs), "") == Firsts(slugs) && Distinct(Firsts(slugs))
  {
    FirstsUsed(slugs);
    HeadingsOfGather(slugs, Firsts(slugs), "");
  }

  // ----- contiguous sections ------------------------------------------------

  /** No section is interrupted by another. */
  predicate Contiguous(slugs: seq<Slug>) {
    forall i, j, k | 0 <= i < j < k < |slugs| && slugs[i].section == slugs[k].section ::
      slugs[j].section == slugs[i].section
  }

  lemma {:induction false} LastFirst(slugs: seq<Slug>)
    requires slugs != [] && Contiguous(slugs)
    ensures var fs := Firsts(slugs); fs != [] && fs[|fs| - 1] == slugs[|slugs| - 1].section
    decreases |slugs|
  {
    var n := |slugs| - 1;
    var init, last := slugs[..n], slugs[n];
    if last.section in Firsts(init) {
      if init != [] {
        LastFirst(init);
      }
      InSectionMembers(init, last.section);
      FirstsAreUsed(init, last.section);
      var rows := InSection(init, last.section);
      assert rows[0] in rows;
      var i :| 0 <= i < n && slugs[i] == rows[0];
      assert i < n - 1 ==> slugs[n - 1].section == last.section;
    }
  }

  lemma {:induction false} GatherAppend(slugs: seq<Slug>, s: Slug, fs: seq<string>)
    requires Distinct(fs) && fs != [] && fs[|fs| - 1] == s.section
    ensures Gather(slugs + [s], fs) == Gather(slugs, fs) + [s]
    decreases |fs|
  {
    hide InSection, Firsts;
    FirstsSnoc(slugs, s);
    if |fs| == 1 {
      GatherOfEmpty(slugs);
      GatherOfEmpty(slugs + [s]);
      assert fs[1..] == [];
    } else {
      assert fs[0] != s.section;
      GatherAppend(slugs, s, fs[1..]);
    }
  }

  lemma {:induction false} GatherExtraSection(slugs: seq<Slug>, fs: seq<string>, f: string)
    requires InSection(slugs, f) == []
    ensures Gather(slugs, fs + [f]) == Gather(slugs, fs)
    decreases |fs|
  {
    hide InSection;
    if fs == [] {
      assert (fs + [f])[1..] == [];
    } else {
      assert (fs + [f])[1..] == fs[1..] + [f];
      GatherExtraSection(slugs, fs[1..], f);
    }
  }

  /** Lists whose sections are already contiguous keep their order. */
  lemma {:induction false} ContiguousIsGrouped(slugs: seq<Slug>)
    requires Contiguous(slugs)
    ensures Grouped(slugs) == slugs
    decreases |slugs|
  {
    hide InSection;
    if slugs != [] {
      var n := |slugs| - 1;
      var init, last := slugs[..n], slugs[n];
      assert slugs == init + [last];
      ContiguousIsGrouped(init);
      FirstsSnoc(init, last);
      FirstsAreDistinct(slugs);
      LastFirst(slugs);
      if last.section !in Firsts(init) {
        UnseenIsEmpty(init, last.section);
        GatherExtraSection(init, Firsts(init), last.section);
      }
      GatherAppend(init, last, Firsts(slugs));
    }
  }

  // ----- numbers do not show ------------------------------------------------

  lemma {:induction false} CoresOfSection(slugs: seq<Slug>, f: string)
    ensures Cores(InSection(Assigned(slugs), f)) == Cores(InSection(slugs, f))
    decreases |slugs|
  {
    hide OrderAt;
    if slugs != [] {
      var init, last := slugs[..|slugs| - 1], slugs[|slugs| - 1];
      assert slugs == init + [last];
      CoresOfSection(init, f);
      AssignedSnoc(init, last);
      var numbered := last.(addressOrder := OrderAt(slugs, |init|));
      FirstsSnoc(Assigned(init), numbered);
      FirstsSnoc(init, last);
      CoresSnoc(InSection(Assigned(init), f), numbered);
      CoresSnoc(InSection(init, f), last);
      if last.section != f {
        assert InSection(init, f) + [] == InSection(init, f);
        assert InSection(Assigned(init), f) + [] == InSection(Assigned(init), f);
      }
    }
  }

  lemma CoresSnoc(slugs: seq<Slug>, s: Slug)
    ensures Cores(slugs + [s]) == Cores(slugs) + [Core(s)]
  {
    hide Core;
  }

  lemma CoresConcat(a: seq<Slug>, b: seq<Slug>)
    ensures Cores(a + b) == Cores(a) + Cores(b)
  {
    hide Core;
  }

  lemma {:induction false} CoresOfGather(slugs: seq<Slug>, fs: seq<string>)
    ensures Cores(Gather(Assigned(slugs), fs)) == Cores(Gather(slugs, fs))
    decreases |fs|
  {
    hide InSection, Assigned, Cores;
    if fs != [] {
      CoresOfSection(slugs, fs[0]);
      CoresOfGather(slugs, fs[1..]);
      CoresConcat(InSection(slugs, fs[0]), Gather(slugs, fs[1..]));
      CoresConcat(InSection(Assigned(slugs), fs[0]), Gather(Assigned(slugs), fs[1..]));
    }
  }

  lemma CoresOfGrouped(slugs: seq<Slug>)
    ensures Cores(Grouped(Assigned(slugs))) == Cores(Grouped(slugs))
  {
    hide Firsts, InSection, Gather, Assigned, Cores, Numbered;
    SectionNumbers(slugs, "");
    CoresOfGather(slugs, Firsts(slugs));
  }
}
