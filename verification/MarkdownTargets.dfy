/** Relationship targets written as a section and a procedure, and the lineage an edited file declares. */
module MarkdownTargets {
  import opened Text
  import opened Checklist
  import opened MarkdownParser
  import opened MarkdownLinks
  import opened MarkdownExport
  import opened MarkdownSteps
  import opened MarkdownOutput
  import opened MarkdownRoundTrip

  // ----- commas and parentheses ---------------------------------------------

  /** The parenthesis depth after a text that starts at depth `d`; none when it has a comma outside parentheses. */
  function DepthAfter(s: string, d: nat): Option<nat> {
    if s == "" then Some(d)
    else if s[0] == '(' then DepthAfter(s[1..], d + 1)
    else if s[0] == ')' && d > 0 then DepthAfter(s[1..], d - 1)
    else if s[0] == ',' && d == 0 then None
    else DepthAfter(s[1..], d)
  }

  /** A text without an outer comma goes into the current field as a whole. */
  lemma {:induction false} SplitThrough(a: string, rest: string, current: string, d: nat)
    requires DepthAfter(a, d).Some?
    ensures SplitTupleFields(a + rest, current, d) == SplitTupleFields(rest, current + a, DepthAfter(a, d).value)
    decreases |a|
  {
    hide Trim;
    if a == "" {
      assert a + rest == rest && current + a == current;
    } else {
      assert (a + rest)[1..] == a[1..] + rest && (a + rest)[0] == a[0];
      assert current + [a[0]] + a[1..] == current + a;
      var next := if a[0] == '(' then d + 1 else if a[0] == ')' && d > 0 then d - 1 else d;
      SplitThrough(a[1..], rest, current + [a[0]], next);
    }
  }

  /** With an outer comma, the text up to the first one is the first field. */
  lemma {:induction false} SplitAtComma(a: string, rest: string, current: string, d: nat) returns (k: nat)
    requires DepthAfter(a, d) == None
    ensures k < |a| && a[k] == ','
    ensures SplitTupleFields(a + rest, current, d) == [Trim(current + a[..k])] + SplitTupleFields(a[k + 1..] + rest, "", 0)
    decreases |a|
  {
    hide Trim;
    assert (a + rest)[1..] == a[1..] + rest && (a + rest)[0] == a[0];
    if a[0] == ',' && d == 0 {
      k := 0;
      assert current + a[..0] == current;
    } else {
      var next := if a[0] == '(' then d + 1 else if a[0] == ')' && d > 0 then d - 1 else d;
      var j := SplitAtComma(a[1..], rest, current + [a[0]], next);
      k := j + 1;
      assert current + [a[0]] + a[1..][..j] == current + a[..k];
      assert a[1..][j + 1..] == a[k + 1..];
    }
  }

  lemma {:induction false} SplitHasField(inner: string, current: string, d: nat)
    ensures var fs := SplitTupleFields(inner, current, d);
            fs != [] && exists x :: x <= inner && fs[0] == Trim(current + x)
    decreases |inner|
  {
    hide Trim;
    if inner == "" || (inner[0] == ',' && d == 0) {
      assert "" <= inner && current + "" == current;
    } else {
      var next := if inner[0] == '(' then d + 1 else if inner[0] == ')' && d > 0 then d - 1 else d;
      SplitHasField(inner[1..], current + [inner[0]], next);
      var x :| x <= inner[1..] && SplitTupleFields(inner, current, d)[0] == Trim(current + [inner[0]] + x);
      assert [inner[0]] + x <= inner && current + [inner[0]] + x == current + ([inner[0]] + x);
    }
  }

  /** Trimming a text that goes on after `s` with a comma does not give `s` back. */
  lemma CommaStays(s: string, x: string)
    requires s != "" && IsTrimmed(s)
    ensures Trim(s + "," + x) != s
  {
    var t := s + "," + x;
    assert t[0] == s[0];
    LastKept(t, |s|);
  }

  lemma {:induction false} LastKept(t: string, k: nat)
    requires k < |t| && !IsSpace(t[k])
    ensures |TrimRight(t)| > k
    decreases |t|
  {
    if IsSpace(t[|t| - 1]) {
      LastKept(t[..|t| - 1], k);
    }
  }

  // ----- tuples -------------------------------------------------------------

  function TupleText(section: string, procedure: string): string {
    "(" + section + ", " + procedure + ")"
  }

  lemma FieldsOfTuple(section: string, procedure: string)
    requires IsTrimmed(section) && section != "" && IsTrimmed(procedure) && procedure != ""
    ensures SplitTupleFields(section + ", " + procedure, "", 0) == [section, procedure] <==>
            DepthAfter(section, 0) == Some(0) && DepthAfter(" " + procedure, 0).Some?
  {
    hide Trim, SplitTupleFields, DepthAfter;
    var rest := " " + procedure;
    assert section + ", " + procedure == section + ([','] + rest);
    if DepthAfter(section, 0) == None {
      var k := SplitAtComma(section, [','] + rest, "", 0);
      var fields := SplitTupleFields(section + ([','] + rest), "", 0);
      assert fields[0] == Trim("" + section[..k]);
      assert |fields[0]| <= |"" + section[..k]| < |section|;
    } else {
      var e := DepthAfter(section, 0).value;
      SplitThrough(section, [','] + rest, "", 0);
      assert "" + section == section;
      if e > 0 {
        CommaInside(rest, section, e);
        SplitHasField(rest, section + ",", e);
        var x :| x <= rest && SplitTupleFields(rest, section + ",", e)[0] == Trim(section + "," + x);
        CommaStays(section, x);
      } else {
        CommaOutside(rest, section);
        LastFields(rest, procedure);
        TrimIsIdentity(section);
        var more := SplitTupleFields(rest, "", 0);
        assert ([section] + more)[1..] == more && [section, procedure][1..] == [procedure];
        assert [section, procedure] == [section] + [procedure];
      }
    }
  }

  lemma CommaInside(rest: string, current: string, d: nat)
    requires d > 0
    ensures SplitTupleFields([','] + rest, current, d) == SplitTupleFields(rest, current + ",", d)
  {
    hide Trim;
    assert ([','] + rest)[1..] == rest;
  }

  lemma CommaOutside(rest: string, current: string)
    ensures SplitTupleFields([','] + rest, current, 0) == [Trim(current)] + SplitTupleFields(rest, "", 0)
  {
    hide Trim;
    assert ([','] + rest)[1..] == rest;
  }

  lemma LastFields(rest: string, procedure: string)
    requires rest == " " + procedure && IsTrimmed(procedure)
    ensures SplitTupleFields(rest, "", 0) == [procedure] <==> DepthAfter(rest, 0).Some?
  {
    hide Trim, SplitTupleFields, DepthAfter;
    assert rest + "" == rest && "" + rest == rest;
    if DepthAfter(rest, 0).Some? {
      SplitThrough(rest, "", "", 0);
      NothingToSplit(rest, DepthAfter(rest, 0).value);
      TrimBlankThen(procedure);
    } else {
      var k := SplitAtComma(rest, "", "", 0);
      SplitHasField(rest[k + 1..] + "", "", 0);
    }
  }

  lemma NothingToSplit(current: string, d: nat)
    ensures SplitTupleFields("", current, d) == [Trim(current)]
  {
  }

  /** A section and a procedure are read back from their tuple exactly when no comma in them stands outside
    * parentheses and the section closes its own. */
  lemma TupleExactly(section: string, procedure: string)
    requires IsTrimmed(section) && section != "" && IsTrimmed(procedure) && procedure != ""
    ensures ParseTuple(TupleText(section, procedure)) == TupleTarget(section, procedure) <==>
            DepthAfter(section, 0) == Some(0) && DepthAfter(" " + procedure, 0).Some?
  {
    hide SplitTupleFields, DepthAfter, Trim;
    var t := TupleText(section, procedure);
    var inner := section + ", " + procedure;
    assert t[1..|t| - 1] == inner && t[|t| - 1] == ')';
    assert inner[0] == section[0] && inner[|inner| - 1] == procedure[|procedure| - 1];
    TrimIsIdentity(inner);
    FieldsOfTuple(section, procedure);
    var fields := SplitTupleFields(inner, "", 0);
    assert |fields| == 2 ==> fields == [fields[0], fields[1]];
  }

  /** Such a target means every row of that section and procedure, and no other. */
  lemma {:induction false} TupleMeansRows(slugs: seq<Slug>, section: string, procedure: string, id: string)
    requires '\n' !in section && forall s | s in slugs :: '\n' !in s.section
    ensures id in RowsAt(slugs, section, procedure) <==>
            exists s | s in slugs :: s.section == section && s.procedure == procedure && s.slugId == id
    decreases |slugs|
  {
    if slugs != [] {
      TupleMeansRows(slugs[1..], section, procedure, id);
      assert slugs == [slugs[0]] + slugs[1..];
      SameKey(slugs[0].section, slugs[0].procedure, section, procedure);
    }
  }

  lemma SameKey(a: string, b: string, c: string, d: string)
    requires '\n' !in a && '\n' !in c
    ensures a + "\n" + b == c + "\n" + d <==> a == c && b == d
  {
    IndexOfPrefix(a, '\n', b);
    IndexOfPrefix(c, '\n', d);
    assert a + "\n" + b == a + ['\n'] + b && c + "\n" + d == c + ['\n'] + d;
    if a + "\n" + b == c + "\n" + d {
      assert (a + "\n" + b)[..|a|] == a && (c + "\n" + d)[..|c|] == c;
      assert (a + "\n" + b)[|a| + 1..] == b && (c + "\n" + d)[|c| + 1..] == d;
    }
  }

  // ----- lineage of an edited file ------------------------------------------

  predicate IsLineageOf(r: TemplateRel, former: string, current: string) {
    r == TemplateRel(former, SLUG_SUCCESSOR, current) || r == TemplateRel(current, SLUG_PREDECESSOR, former)
  }

  /** No row declares lineage among its own edges. */
  predicate NoOwnLineage(rows: seq<DocRow>) {
    forall i | 0 <= i < |rows| :: forall e | e in rows[i].edges ::
      e.predicateName != SLUG_SUCCESSOR && e.predicateName != SLUG_PREDECESSOR
  }

  function CountLineage(rels: seq<TemplateRel>, former: string, current: string): nat {
    if rels == [] then 0
    else (if IsLineageOf(rels[0], former, current) then 1 else 0) + CountLineage(rels[1..], former, current)
  }

  function CountChanged(slugs: seq<Slug>, rows: seq<DocRow>, former: string, current: string): nat
    requires |slugs| == |rows|
  {
    if rows == [] then 0
    else (if former != current && rows[0].source == former && slugs[0].slugId == current then 1 else 0) +
         CountChanged(slugs[1..], rows[1..], former, current)
  }

  lemma {:induction false} CountLineageConcat(a: seq<TemplateRel>, b: seq<TemplateRel>, former: string, current: string)
    ensures CountLineage(a + b, former, current) == CountLineage(a, former, current) + CountLineage(b, former, current)
    decreases |a|
  {
    hide IsLineageOf;
    if a == [] {
      assert a + b == b;
    } else {
      assert (a + b)[1..] == a[1..] + b;
      CountLineageConcat(a[1..], b, former, current);
    }
  }

  lemma {:induction false} NoLineage(subject: string, es: seq<Edge>, former: string, current: string)
    requires forall e | e in es :: e.predicateName != SLUG_SUCCESSOR && e.predicateName != SLUG_PREDECESSOR
    ensures CountLineage(TemplateRels(subject, es), former, current) == 0
    decreases |es|
  {
    if es != [] {
      assert TemplateRels(subject, es)[1..] == TemplateRels(subject, es[1..]);
      assert es[0] in es;
      NoLineage(subject, es[1..], former, current);
    }
  }

  lemma PairCounts(printed: string, computed: string, former: string, current: string)
    ensures CountLineage(LineageRels(printed, computed), former, current) ==
            if former != current && printed == former && computed == current then 2 else 0
  {
    if printed != computed {
      var rels := LineageRels(printed, computed);
      assert rels[1..] == [rels[1]] && rels[1..][1..] == [];
      assert SLUG_SUCCESSOR != SLUG_PREDECESSOR by {
        assert SLUG_SUCCESSOR[4] == 'S' && SLUG_PREDECESSOR[4] == 'P';
      }
      assert CountLineage([rels[1]], former, current) == if IsLineageOf(rels[1], former, current) then 1 else 0;
    }
  }

  /** Re-importing an edited export declares each pair of an old and a new id, in both directions, once for every row
    * whose id changed that way, and no other lineage: unchanged rows declare none. */
  lemma {:induction false} EditedRowsDeclareLineage(slugs: seq<Slug>, rows: seq<DocRow>, former: string, current: string)
    requires |slugs| == |rows| && NoOwnLineage(rows)
    ensures CountLineage(TemplateOutcome(slugs, rows), former, current) == 2 * CountChanged(slugs, rows, former, current)
    decreases |rows|
  {
    hide LineageRels, TemplateRels, CountLineage;
    if rows == [] {
      NoneCounted(former, current);
    } else {
      EditedRowsDeclareLineage(slugs[1..], rows[1..], former, current);
      var own, edges := LineageRels(rows[0].source, slugs[0].slugId), TemplateRels(slugs[0].slugId, rows[0].edges);
      CountLineageConcat(own + edges, TemplateOutcome(slugs[1..], rows[1..]), former, current);
      CountLineageConcat(own, edges, former, current);
      PairCounts(rows[0].source, slugs[0].slugId, former, current);
      NoLineage(slugs[0].slugId, rows[0].edges, former, current);
    }
  }

  lemma NoneCounted(former: string, current: string)
    ensures CountLineage([], former, current) == 0
  {
  }
}
