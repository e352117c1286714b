/** Resolving former identities to the latest one: unique successors are chased, cycles and branches reported. */
module LineageAliases {
  import opened Text
  import opened Checklist

  /** One declared step of lineage. */
  datatype Link = Link(former: string, current: string)

  /** Both spellings say the same. */
  function SlugLink(r: TemplateRel): Option<Link> {
    if r.predicateName == SLUG_SUCCESSOR then Some(Link(r.subject, r.target))
    else if r.predicateName == SLUG_PREDECESSOR then Some(Link(r.target, r.subject))
    else None
  }

  /** The address form keeps only 32-character addresses, of the given instance if one is given. */
  function AddressLink(r: AddressRel, instanceId: string): Option<Link> {
    var link := SlugLink(TemplateRel(r.subject, r.predicateName, r.target));
    if link.Some? && |link.value.former| == 32 && |link.value.current| == 32 &&
       (instanceId == "" || (link.value.former[16..] == instanceId && link.value.current[16..] == instanceId))
    then link else None
  }

  function SlugLinks(rels: seq<TemplateRel>): seq<Link> {
    if rels == [] then []
    else (match SlugLink(rels[0]) case Some(l) => [l] case None => []) + SlugLinks(rels[1..])
  }

  function AddressLinksOf(rels: seq<AddressRel>, instanceId: string): seq<Link> {
    if rels == [] then []
    else (match AddressLink(rels[0], instanceId) case Some(l) => [l] case None => []) +
         AddressLinksOf(rels[1..], instanceId)
  }

  function Successors(links: seq<Link>, id: string): set<string> {
    set l | l in links && l.former == id :: l.current
  }

  function Nodes(links: seq<Link>): set<string> {
    (set l | l in links :: l.former) + (set l | l in links :: l.current)
  }

  // ----- following unique successors ----------------------------------------

  /** A chain in which every step is the only one there is. */
  ghost predicate IsChain(links: seq<Link>, path: seq<string>) {
    path != [] && forall i | 0 <= i < |path| - 1 :: Successors(links, path[i]) == {path[i + 1]}
  }

  ghost predicate ChainTo(links: seq<Link>, start: string, end: string, path: seq<string>) {
    IsChain(links, path) && path[0] == start && path[|path| - 1] == end && |Successors(links, end)| != 1
  }

  /** Unique successors lead from `start` to `end`, and stop there. */
  ghost predicate LeadsTo(links: seq<Link>, start: string, end: string) {
    exists path :: ChainTo(links, start, end, path)
  }

  /** What the chase finds. */
  datatype Latest = Sink(id: string) | Branch(at: string) | Cycle(at: string)

  function Only(s: set<string>): (x: string)
    requires |s| == 1
    ensures s == {x}
  {
    OnlyOne(s);
    var x :| x in s;
    x
  }

  lemma OnlyOne(s: set<string>)
    requires |s| == 1
    ensures exists x :: s == {x}
    ensures forall x, y | x in s && y in s :: x == y
  {
    var x :| x in s;
    assert |s - {x}| == 0;
    assert s == {x};
  }

  function Chase(links: seq<Link>, current: string, seen: set<string>): Latest
    requires current in Nodes(links)
    decreases Nodes(links) - seen
  {
    var next := Successors(links, current);
    if current in seen then Cycle(current)
    else if next == {} then Sink(current)
    else if |next| != 1 then Branch(current)
    else
      assert Only(next) in next;
      Chase(links, Only(next), seen + {current})
  }

  lemma ChainTail(links: seq<Link>, path: seq<string>)
    requires IsChain(links, path) && |path| > 1
    ensures IsChain(links, path[1..])
  {
    forall i | 0 <= i < |path| - 2 ensures Successors(links, path[1..][i]) == {path[1..][i + 1]} {
      assert Successors(links, path[i + 1]) == {path[i + 2]};
    }
  }

  /** From one node there is only one chain that stops. */
  lemma {:induction false} ChainsAgree(links: seq<Link>, start: string, a: string, b: string,
                                       p: seq<string>, q: seq<string>)
    requires ChainTo(links, start, a, p) && ChainTo(links, start, b, q)
    ensures p == q && a == b
    decreases |p|
  {
    assert |p| > 1 ==> Successors(links, p[0]) == {p[1]};
    assert |q| > 1 ==> Successors(links, q[0]) == {q[1]};
    if |p| > 1 {
      assert |q| > 1;
      assert p[1] in {q[1]};
      ChainTail(links, p);
      ChainTail(links, q);
      ChainsAgree(links, p[1], a, b, p[1..], q[1..]);
      assert p == [p[0]] + p[1..] && q == [q[0]] + q[1..];
    } else {
      assert |q| == 1;
    }
  }

  lemma {:induction false} ChainSuffix(links: seq<Link>, start: string, end: string, p: seq<string>, i: nat)
    requires ChainTo(links, start, end, p) && i < |p|
    ensures ChainTo(links, p[i], end, p[i..])
    decreases i
  {
    if i > 0 {
      ChainTail(links, p);
      ChainSuffix(links, p[1], end, p[1..], i - 1);
      assert p[1..][i - 1..] == p[i..];
    } else {
      assert p[0..] == p;
    }
  }

  /** A chain that stops visits no node twice. */
  lemma ChainIsSimple(links: seq<Link>, start: string, end: string, p: seq<string>, i: nat, j: nat)
    requires ChainTo(links, start, end, p) && i < j < |p|
    ensures p[i] != p[j]
  {
    ChainSuffix(links, start, end, p, i);
    ChainSuffix(links, start, end, p, j);
    assert |p[i..]| != |p[j..]|;
    if p[i] == p[j] {
      ChainsAgree(links, p[i], end, end, p[i..], p[j..]);
    }
  }

  lemma {:induction false} ChaseFollowsChain(links: seq<Link>, start: string, end: string, p: seq<string>,
                                             seen: set<string>)
    requires ChainTo(links, start, end, p) && start in Nodes(links)
    requires forall x | x in p :: x !in seen
    ensures Chase(links, start, seen) == if Successors(links, end) == {} then Sink(end) else Branch(end)
    decreases |p|
  {
    assert p[0] in p;
    if |p| > 1 {
      assert Successors(links, p[0]) == {p[1]};
      assert p[1] in Successors(links, p[0]);
      ChainTail(links, p);
      forall x | x in p[1..] ensures x !in seen + {start} {
        var j :| 1 <= j < |p| && p[j] == x;
        ChainIsSimple(links, start, end, p, 0, j);
        assert p[j] in p;
      }
      ChaseFollowsChain(links, p[1], end, p[1..], seen + {start});
    }
  }

  lemma {:induction false} ChaseFindsChain(links: seq<Link>, start: string, seen: set<string>)
    requires start in Nodes(links) && !Chase(links, start, seen).Cycle?
    ensures var r := Chase(links, start, seen);
            LeadsTo(links, start, if r.Sink? then r.id else r.at)
    decreases Nodes(links) - seen
  {
    hide Nodes;
    var next := Successors(links, start);
    if |next| == 1 {
      var n := Only(next);
      assert n in next;
      SuccessorIsNode(links, start, n);
      ChaseFindsChain(links, n, seen + {start});
      var r := Chase(links, n, seen + {start});
      var end := if r.Sink? then r.id else r.at;
      var path :| ChainTo(links, n, end, path);
      ChainPrepend(links, start, n, end, path);
    } else {
      assert ChainTo(links, start, start, [start]);
    }
  }

  lemma SuccessorIsNode(links: seq<Link>, id: string, n: string)
    requires n in Successors(links, id)
    ensures n in Nodes(links)
  {
  }

  lemma ChainPrepend(links: seq<Link>, start: string, n: string, end: string, path: seq<string>)
    requires ChainTo(links, n, end, path) && Successors(links, start) == {n}
    ensures LeadsTo(links, start, end)
  {
    hide Successors;
    var longer := [start] + path;
    forall i | 0 <= i < |longer| - 1 ensures Successors(links, longer[i]) == {longer[i + 1]} {
      if i > 0 {
        assert Successors(links, path[i - 1]) == {path[i]};
      }
    }
    assert ChainTo(links, start, end, longer);
  }

  /** The chase is exact: it finds a sink or a branch if and only if unique successors lead there. */
  lemma ChaseExactly(links: seq<Link>, start: string, end: string)
    requires start in Nodes(links)
    ensures Chase(links, start, {}) == Sink(end) <==> LeadsTo(links, start, end) && Successors(links, end) == {}
    ensures Chase(links, start, {}) == Branch(end) <==> LeadsTo(links, start, end) && |Successors(links, end)| > 1
    ensures Chase(links, start, {}).Cycle? <==> forall e :: !LeadsTo(links, start, e)
  {
    hide IsChain, Nodes;
    forall e | LeadsTo(links, start, e)
      ensures Chase(links, start, {}) == if Successors(links, e) == {} then Sink(e) else Branch(e)
    {
      var path :| ChainTo(links, start, e, path);
      ChaseFollowsChain(links, start, e, path, {});
    }
    if !Chase(links, start, {}).Cycle? {
      ChaseFindsChain(links, start, {});
    }
  }

  // ----- aliases and warnings -----------------------------------------------

  datatype Code = LineageCycle | LineageBranch | MissingLatest

  datatype Warning = Warning(code: Code, node: string)

  function AliasOf(links: seq<Link>, present: set<string>, k: string): Option<string>
    requires k in Nodes(links)
  {
    match Chase(links, k, {})
    case Sink(v) => if v != k && v in present then Some(v) else None
    case _ => None
  }

  function WarningOf(links: seq<Link>, present: set<string>, k: string): Option<Code>
    requires k in Nodes(links)
  {
    match Chase(links, k, {})
    case Sink(v) => if v != k && v !in present then Some(MissingLatest) else None
    case Branch(_) => Some(LineageBranch)
    case Cycle(_) => Some(LineageCycle)
  }

  function Get(aliases: map<string, string>, k: string): Option<string> {
    if k in aliases then Some(aliases[k]) else None
  }

  ghost predicate IsAliasMap(aliases: map<string, string>, links: seq<Link>, present: set<string>) {
    aliases.Keys <= Nodes(links) && forall k | k in Nodes(links) :: Get(aliases, k) == AliasOf(links, present, k)
  }

  /** One warning for each node that has one, and no others. */
  ghost predicate AreWarnings(warnings: seq<Warning>, links: seq<Link>, present: set<string>) {
    && (forall i, j | 0 <= i < j < |warnings| :: warnings[i].node != warnings[j].node)
    && (forall w | w in warnings :: w.node in Nodes(links) && WarningOf(links, present, w.node) == Some(w.code))
    && (forall k | k in Nodes(links) && WarningOf(links, present, k).Some? ::
          Warning(WarningOf(links, present, k).value, k) in warnings)
  }

  /** An alias exists exactly when unique successors lead to a present row that has none and is not the start. */
  lemma AliasExactly(aliases: map<string, string>, links: seq<Link>, present: set<string>, k: string, v: string)
    requires IsAliasMap(aliases, links, present)
    ensures Get(aliases, k) == Some(v) <==>
            k in Nodes(links) && LeadsTo(links, k, v) && Successors(links, v) == {} && v != k && v in present
  {
    hide Chase, LeadsTo, Nodes;
    if k in Nodes(links) {
      ChaseExactly(links, k, v);
    }
  }

  lemma WarnedAs(warnings: seq<Warning>, links: seq<Link>, present: set<string>, k: string, code: Code)
    requires AreWarnings(warnings, links, present) && k in Nodes(links)
    ensures Warning(code, k) in warnings <==> WarningOf(links, present, k) == Some(code)
  {
    hide Nodes, WarningOf;
  }

  /** The warnings are exact: no end in sight, an end with several successors, or an end that is not present. */
  lemma WarningsExactly(warnings: seq<Warning>, links: seq<Link>, present: set<string>, k: string)
    requires AreWarnings(warnings, links, present) && k in Nodes(links)
    ensures Warning(LineageCycle, k) in warnings <==> forall e :: !LeadsTo(links, k, e)
    ensures Warning(LineageBranch, k) in warnings <==>
            exists e :: LeadsTo(links, k, e) && |Successors(links, e)| > 1
    ensures Warning(MissingLatest, k) in warnings <==>
            exists e :: LeadsTo(links, k, e) && Successors(links, e) == {} && e != k && e !in present
  {
    hide LeadsTo, Nodes, Chase, AreWarnings, Successors;
    WarnedAs(warnings, links, present, k, LineageCycle);
    WarnedAs(warnings, links, present, k, LineageBranch);
    WarnedAs(warnings, links, present, k, MissingLatest);
    var r := Chase(links, k, {});
    var end := match r case Sink(e) => e case Branch(e) => e case Cycle(e) => e;
    ChaseExactly(links, k, end);
    forall e | LeadsTo(links, k, e) ensures !r.Cycle? && e == end {
      ChaseExactly(links, k, e);
      EndIsUnique(links, k, e);
    }
  }

  lemma EndIsUnique(links: seq<Link>, k: string, e: string)
    requires LeadsTo(links, k, e) && k in Nodes(links)
    ensures Chase(links, k, {}) == if Successors(links, e) == {} then Sink(e) else Branch(e)
  {
    hide Chase, Nodes;
    var path :| ChainTo(links, k, e, path);
    ChaseFollowsChain(links, k, e, path, {});
  }

  /** Every node of the lineage is exactly one of: its own latest, aliased, warned about. */
  lemma NodesArePartitioned(aliases: map<string, string>, warnings: seq<Warning>, links: seq<Link>,
                            present: set<string>, k: string)
    requires IsAliasMap(aliases, links, present) && AreWarnings(warnings, links, present) && k in Nodes(links)
    ensures var latest, aliased := Successors(links, k) == {}, k in aliases;
            var warned := exists w | w in warnings :: w.node == k;
            && (latest || aliased || warned)
            && !(latest && aliased) && !(latest && warned) && !(aliased && warned)
  {
    hide Nodes, Chase, Successors;
    OwnLatest(links, k);
    assert Get(aliases, k) == AliasOf(links, present, k);
    assert forall w | w in warnings && w.node == k :: WarningOf(links, present, k) == Some(w.code);
    if WarningOf(links, present, k).Some? {
      var w := Warning(WarningOf(links, present, k).value, k);
      assert w in warnings && w.node == k;
    }
  }

  lemma OwnLatest(links: seq<Link>, k: string)
    requires k in Nodes(links)
    ensures Chase(links, k, {}) == Sink(k) <==> Successors(links, k) == {}
  {
    ChaseExactly(links, k, k);
    if Successors(links, k) == {} {
      assert ChainTo(links, k, k, [k]);
    }
  }

  function Apply(aliases: map<string, string>, id: string): string {
    if id in aliases then aliases[id] else id
  }

  /** Applying aliases a second time changes nothing. */
  lemma AliasesAreFinal(aliases: map<string, string>, links: seq<Link>, present: set<string>, id: string)
    requires IsAliasMap(aliases, links, present)
    ensures Apply(aliases, Apply(aliases, id)) == Apply(aliases, id)
  {
    hide LeadsTo, Nodes, AliasOf;
    if id in aliases {
      var v := aliases[id];
      AliasExactly(aliases, links, present, id, v);
      if v in aliases {
        AliasExactly(aliases, links, present, v, aliases[v]);
        SinkLeadsNowhere(links, v, aliases[v]);
      }
    }
  }

  lemma SinkLeadsNowhere(links: seq<Link>, v: string, w: string)
    requires Successors(links, v) == {} && LeadsTo(links, v, w)
    ensures v == w
  {
    var path :| ChainTo(links, v, w, path);
    assert ChainTo(links, v, v, [v]);
    ChainsAgree(links, v, w, v, path, [v]);
  }

  // ----- order and spelling do not matter ------------------------------------

  /** A list of relationships says that `current` follows `former`, in either spelling. */
  predicate Declares(rels: seq<TemplateRel>, former: string, current: string) {
    TemplateRel(former, SLUG_SUCCESSOR, current) in rels || TemplateRel(current, SLUG_PREDECESSOR, former) in rels
  }

  lemma {:induction false} LinkMembers(rels: seq<TemplateRel>, l: Link)
    ensures l in SlugLinks(rels) <==> Declares(rels, l.former, l.current)
    decreases |rels|
  {
    if rels != [] {
      LinkMembers(rels[1..], l);
      var r := rels[0];
      assert rels == [r] + rels[1..];
      assert SlugLink(r) == Some(l) <==>
             r == TemplateRel(l.former, SLUG_SUCCESSOR, l.current) || r == TemplateRel(l.current, SLUG_PREDECESSOR, l.former);
    }
  }

  lemma {:induction false} ChaseDependsOnSuccessors(a: seq<Link>, b: seq<Link>, k: string, seen: set<string>)
    requires Nodes(a) == Nodes(b) && k in Nodes(a) && forall x :: Successors(a, x) == Successors(b, x)
    ensures Chase(a, k, seen) == Chase(b, k, seen)
    decreases Nodes(a) - seen
  {
    hide Nodes, Successors;
    var next := Successors(a, k);
    if k !in seen && |next| == 1 {
      var n := Only(next);
      assert n in next;
      SuccessorIsNode(a, k, n);
      ChaseDependsOnSuccessors(a, b, n, seen + {k});
    }
  }

  lemma SameLinksSameIndex(a: seq<Link>, b: seq<Link>)
    requires forall l :: l in a <==> l in b
    ensures Nodes(a) == Nodes(b) && forall x :: Successors(a, x) == Successors(b, x)
  {
  }

  /** Two lists that declare the same steps, in whatever order and spelling, give the same aliases. */
  lemma AliasesIgnoreOrderAndSpelling(relsA: seq<TemplateRel>, relsB: seq<TemplateRel>, present: set<string>,
                                      a: map<string, string>, b: map<string, string>)
    requires forall o, n :: Declares(relsA, o, n) <==> Declares(relsB, o, n)
    requires IsAliasMap(a, SlugLinks(relsA), present) && IsAliasMap(b, SlugLinks(relsB), present)
    ensures a == b
  {
    hide Nodes, Successors, Chase, Declares;
    var la, lb := SlugLinks(relsA), SlugLinks(relsB);
    forall l ensures l in la <==> l in lb {
      LinkMembers(relsA, l);
      LinkMembers(relsB, l);
    }
    SameLinksSameIndex(la, lb);
    forall k | k in Nodes(la) ensures Get(a, k) == Get(b, k) {
      ChaseDependsOnSuccessors(la, lb, k, {});
    }
    SameGets(a, b, Nodes(la));
  }

  lemma SameGets(a: map<string, string>, b: map<string, string>, keys: set<string>)
    requires a.Keys <= keys && b.Keys <= keys && forall k | k in keys :: Get(a, k) == Get(b, k)
    ensures a == b
  {
    forall k ensures k in a <==> k in b {
      assert k in a || k in b ==> k in keys;
    }
    forall k | k in a ensures a[k] == b[k] {
      assert Get(a, k) == Get(b, k);
    }
  }

  // ----- the loops ----------------------------------------------------------

  ghost predicate IsIndex(successors: map<string, seq<string>>, nodes: set<string>, links: seq<Link>) {
    && nodes == Nodes(links)
    && (forall k :: Successors(links, k) == set v | v in Listed(successors, k))
    && (forall k | k in successors :: Unrepeated(successors[k]))
  }

  function Listed(successors: map<string, seq<string>>, k: string): seq<string> {
    if k in successors then successors[k] else []
  }

  predicate Unrepeated(s: seq<string>) {
    forall i, j | 0 <= i < j < |s| :: s[i] != s[j]
  }

  lemma {:induction false} UnrepeatedSize(s: seq<string>)
    requires Unrepeated(s)
    ensures |set v | v in s| == |s|
    decreases |s|
  {
    if s != [] {
      var init, last := s[..|s| - 1], s[|s| - 1];
      UnrepeatedSize(init);
      assert s == init + [last];
      assert (set v | v in s) == (set v | v in init) + {last};
      assert last !in init;
    }
  }

  lemma IndexStep(seen: seq<Link>, l: Link, successors: map<string, seq<string>>, nodes: set<string>,
                  targets: seq<string>)
    requires IsIndex(successors, nodes, seen)
    requires var before := Listed(successors, l.former);
             targets == if l.current in before then before else before + [l.current]
    ensures IsIndex(successors[l.former := targets], nodes + {l.former, l.current}, seen + [l])
  {
    var more := seen + [l];
    var next := successors[l.former := targets];
    assert forall x :: x in more <==> x in seen || x == l;
    forall k ensures Successors(more, k) == set v | v in Listed(next, k) {
      SuccessorsSnoc(seen, l, k);
      if k == l.former {
        assert (set v | v in targets) == (set v | v in Listed(successors, k)) + {l.current};
      }
    }
  }

  lemma SuccessorsSnoc(seen: seq<Link>, l: Link, k: string)
    ensures Successors(seen + [l], k) == Successors(seen, k) + if k == l.former then {l.current} else {}
  {
    assert forall x :: x in seen + [l] <==> x in seen || x == l;
  }

  method IndexLinks(links: seq<Link>) returns (successors: map<string, seq<string>>, nodes: set<string>)
    ensures IsIndex(successors, nodes, links)
  {
    hide IsIndex;
    successors, nodes := map[], {};
    EmptyIndex(links[..0]);
    for n := 0 to |links|
      invariant IsIndex(successors, nodes, links[..n])
    {
      var l := links[n];
      var targets := Listed(successors, l.former);
      if l.current !in targets {
        targets := targets + [l.current];
      }
      IndexStep(links[..n], l, successors, nodes, targets);
      assert links[..n + 1] == links[..n] + [l];
      nodes := nodes + {l.former, l.current};
      successors := successors[l.former := targets];
    }
    assert links[..|links|] == links;
  }

  lemma EmptyIndex(links: seq<Link>)
    requires links == []
    ensures IsIndex(map[], {}, links)
  {
  }

  lemma IndexedTargets(successors: map<string, seq<string>>, nodes: set<string>, links: seq<Link>, k: string)
    requires IsIndex(successors, nodes, links)
    ensures Successors(links, k) == (set v | v in Listed(successors, k))
    ensures |Successors(links, k)| == |Listed(successors, k)|
    ensures nodes == Nodes(links)
  {
    UnrepeatedSize(Listed(successors, k));
  }

  /** The chase loop; it ends because every turn sees a new node. */
  method ResolveLatest(successors: map<string, seq<string>>, nodes: set<string>, ghost links: seq<Link>, start: string)
    returns (latest: Latest)
    requires IsIndex(successors, nodes, links) && start in nodes
    ensures start in Nodes(links) && latest == Chase(links, start, {})
  {
    hide IsIndex, Nodes, Successors;
    var seen: set<string> := {};
    var current := start;
    IndexedTargets(successors, nodes, links, start);
    while true
      invariant current in Nodes(links)
      invariant Chase(links, current, seen) == Chase(links, start, {})
      decreases Nodes(links) - seen
    {
      if current in seen {
        return Cycle(current);
      }
      var targets := Listed(successors, current);
      IndexedTargets(successors, nodes, links, current);
      if targets == [] {
        return Sink(current);
      }
      if |targets| > 1 {
        return Branch(current);
      }
      assert targets[0] in Successors(links, current);
      SuccessorIsNode(links, current, targets[0]);
      seen := seen + {current};
      current := targets[0];
    }
  }

  ghost predicate Settled(aliases: map<string, string>, warnings: seq<Warning>, links: seq<Link>, present: set<string>,
                          settled: set<string>) {
    && settled <= Nodes(links) && aliases.Keys <= settled
    && (forall k | k in settled :: Get(aliases, k) == AliasOf(links, present, k))
    && (forall i, j | 0 <= i < j < |warnings| :: warnings[i].node != warnings[j].node)
    && (forall w | w in warnings :: w.node in settled && WarningOf(links, present, w.node) == Some(w.code))
    && (forall k | k in settled && WarningOf(links, present, k).Some? ::
          Warning(WarningOf(links, present, k).value, k) in warnings)
  }

  lemma SettleOne(aliases: map<string, string>, warnings: seq<Warning>, links: seq<Link>, present: set<string>,
                  settled: set<string>, k: string)
    requires Settled(aliases, warnings, links, present, settled) && k in Nodes(links) && k !in settled
    ensures var alias, warning := AliasOf(links, present, k), WarningOf(links, present, k);
            Settled(if alias.Some? then aliases[k := alias.value] else aliases,
                    if warning.Some? then warnings + [Warning(warning.value, k)] else warnings,
                    links, present, settled + {k})
  {
    hide Nodes, AliasOf, WarningOf;
  }

  /** The alias map and the warnings, over all nodes in whatever order the set yields them. */
  method BuildAliases(present: set<string>, links: seq<Link>)
    returns (aliases: map<string, string>, warnings: seq<Warning>)
    ensures IsAliasMap(aliases, links, present) && AreWarnings(warnings, links, present)
  {
    hide IsIndex, Settled, Chase;
    var successors, nodes := IndexLinks(links);
    IndexedTargets(successors, nodes, links, "");
    aliases, warnings := map[], [];
    var warned: set<Warning> := {};
    var todo := nodes;
    NothingSettled(links, present);
    assert nodes - todo == {};
    while todo != {}
      invariant todo <= nodes && Settled(aliases, warnings, links, present, nodes - todo)
      invariant forall w | w in warned :: w.node !in todo
    {
      var k :| k in todo;
      SettleOne(aliases, warnings, links, present, nodes - todo, k);
      assert nodes - (todo - {k}) == (nodes - todo) + {k};
      todo := todo - {k};
      var latest := ResolveLatest(successors, nodes, links, k);
      var code := None;
      match latest {
        case Cycle(_) => code := Some(LineageCycle);
        case Branch(_) => code := Some(LineageBranch);
        case Sink(v) =>
          if v != k {
            if v !in present {
              code := Some(MissingLatest);
            } else {
              aliases := aliases[k := v];
            }
          }
      }
      if code.Some? && Warning(code.value, k) !in warned {
        warned := warned + {Warning(code.value, k)};
        warnings := warnings + [Warning(code.value, k)];
      }
    }
    assert nodes - todo == nodes;
    AllSettled(aliases, warnings, links, present);
  }

  lemma NothingSettled(links: seq<Link>, present: set<string>)
    ensures Settled(map[], [], links, present, {})
  {
    hide Chase;
  }

  lemma AllSettled(aliases: map<string, string>, warnings: seq<Warning>, links: seq<Link>, present: set<string>)
    requires Settled(aliases, warnings, links, present, Nodes(links))
    ensures IsAliasMap(aliases, links, present) && AreWarnings(warnings, links, present)
  {
    hide Chase, Nodes;
  }

  /** Collecting the declared steps, in either spelling. */
  method CollectSlugLinks(rels: seq<TemplateRel>) returns (links: seq<Link>)
    ensures links == SlugLinks(rels)
  {
    links := [];
    assert rels[0..] == rels;
    for n := 0 to |rels|
      invariant links + SlugLinks(rels[n..]) == SlugLinks(rels)
    {
      assert rels[n..][1..] == rels[n + 1..];
      var link := SlugLink(rels[n]);
      if link.Some? {
        links := links + [link.value];
      }
    }
  }

  method CollectAddressLinks(rels: seq<AddressRel>, instanceId: string) returns (links: seq<Link>)
    ensures links == AddressLinksOf(rels, instanceId)
  {
    hide AddressLink;
    links := [];
    assert rels[0..] == rels;
    for n := 0 to |rels|
      invariant links + AddressLinksOf(rels[n..], instanceId) == AddressLinksOf(rels, instanceId)
    {
      assert rels[n..][1..] == rels[n + 1..];
      var link := AddressLink(rels[n], instanceId);
      if link.Some? {
        links := links + [link.value];
      }
    }
  }

  method BuildSlugLineageAliases(slugs: seq<Slug>, rels: seq<TemplateRel>)
    returns (aliases: map<string, string>, warnings: seq<Warning>)
    ensures var present := set s | s in slugs :: s.slugId;
            IsAliasMap(aliases, SlugLinks(rels), present) && AreWarnings(warnings, SlugLinks(rels), present)
  {
    hide IsAliasMap, AreWarnings;
    var links := CollectSlugLinks(rels);
    aliases, warnings := BuildAliases(set s | s in slugs :: s.slugId, links);
  }

  method BuildAddressLineageAliases(slugs: seq<Slug>, rels: seq<AddressRel>, instanceId: string)
    returns (aliases: map<string, string>, warnings: seq<Warning>)
    ensures var present := set s | s in slugs && s.addressId != "" :: s.addressId;
            IsAliasMap(aliases, AddressLinksOf(rels, instanceId), present) &&
            AreWarnings(warnings, AddressLinksOf(rels, instanceId), present)
  {
    hide IsAliasMap, AreWarnings;
    var links := CollectAddressLinks(rels, instanceId);
    aliases, warnings := BuildAliases(set s | s in slugs && s.addressId != "" :: s.addressId, links);
  }
}
