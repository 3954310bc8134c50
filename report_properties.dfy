/** What the requirement report means for the two kinds of query: the
    "Quest Point Cape" query that requires the whole catalog, and a quest
    that lies on a prerequisite cycle. */
module ReportProperties {
  import opened Quests
  import opened Merge
  import opened Catalog
  import opened Resolver
  import opened Reachability
  import opened ResolverProperties

  /** `q` is shaped as `quest_point_cape` builds it for `catalog`. */
  ghost predicate PointCapeFor(q: Quest, catalog: Catalog) {
    && q.GetSkillReq() == map[] && q.GetOtherReq() == map[]
    && Elems(q.GetQuestReq()) == catalog.Keys
  }

  /** Started from a query whose direct prerequisites are every catalog key
      and whose name is not in the catalog, the search reaches the whole
      catalog. */
  lemma PointCapeReachesAll(g: Graph, q: Quest)
    requires Elems(q.questReq) == g.Keys && q.name !in g
    ensures Reach(g, {q.name}, Start(g, q.questReq, {q.name})) == g.Keys
  {
    var start := Start(g, q.questReq, {q.name});
    forall y | y in g ensures y in start {
      assert y in Elems(q.questReq);
    }
  }

  /** The aggregate query's merged skill or other map is the pointwise
      maximum over every catalog quest: every quest's own map is bounded by
      it (a missing key counting as 0), and each of its values is one some
      catalog quest declares. The search checks the query and every catalog
      quest. */
  lemma PointCapeMaxRequirements(f: Facet, catalog: Catalog, q: Quest)
    requires WellFormed(GraphOf(catalog))
    requires PointCapeFor(q, catalog) && q.name !in catalog
    ensures var r := MaxVisit(f, GraphOf(catalog), StoreOf(f, catalog), q, {});
      && r.checked == catalog.Keys + {q.name}
      && (forall k :: k in catalog ==> Bounded(GetFacet(f, catalog[k]), r.reqs))
      && (forall x :: x in r.reqs ==>
            && r.reqs[x] > 0
            && exists k :: k in catalog && x in GetFacet(f, catalog[k]) && GetFacet(f, catalog[k])[x] == r.reqs[x])
  {
    var g := GraphOf(catalog);
    var st0 := StoreOf(f, catalog);
    PointCapeReachesAll(g, q);
    MaxSearchClosure(f, g, st0, q, {});
    assert GetFacet(f, q) == map[] by {
      match f
      case Skills =>
      case Other =>
    }
    var r := MaxVisit(f, g, st0, q, {});
    forall k | k in catalog ensures Bounded(GetFacet(f, catalog[k]), r.reqs) {
      StoreAt(f, catalog, k);
    }
    forall x | x in r.reqs
      ensures && r.reqs[x] > 0
              && exists k :: k in catalog && x in GetFacet(f, catalog[k]) && GetFacet(f, catalog[k])[x] == r.reqs[x]
    {
      assert DeclaredBy(st0, catalog.Keys, x, r.reqs[x]);
      var w :| w in catalog.Keys && w in st0 && x in st0[w] && st0[w][x] == r.reqs[x];
      StoreAt(f, catalog, w);
    }
  }

  /** The aggregate query's prerequisite search returns every catalog key
      and every name a catalog quest directly requires. */
  lemma PointCapeQuestRequirements(catalog: Catalog, q: Quest)
    requires WellFormed(GraphOf(catalog))
    requires PointCapeFor(q, catalog) && q.name !in catalog
    ensures var g := GraphOf(catalog);
      var r := QuestVisit(g, q, {});
      r.checked == catalog.Keys + {q.name} && r.reqs == catalog.Keys + DirectNames(g, catalog.Keys)
  {
    PointCapeReachesAll(GraphOf(catalog), q);
    QuestSearchClosure(GraphOf(catalog), q, {});
  }

  /** A quest that lies on a prerequisite cycle is among its own recursive
      prerequisites: when `a` reaches a quest that requires `a`, the search
      from `a` finds `a` itself. */
  lemma CycleIncludesItself(g: Graph, a: string, b: string)
    requires WellFormed(g) && a in g && b in g && a != b
    requires b in g[a].prereqs && a in g[b].prereqs
    ensures a in QuestVisit(g, Quest(a, false, map[], g[a].prereqs, map[]), {}).reqs
  {
    var q := Quest(a, false, map[], g[a].prereqs, map[]);
    QuestSearchClosure(g, q, {});
    var start := Start(g, q.questReq, {a});
    assert b in start;
    assert a in DirectNames(g, {b});
    DirectNamesUnion(g, {b}, Reach(g, {a}, start) - {b});
    assert Reach(g, {a}, start) == {b} + (Reach(g, {a}, start) - {b});
  }

  /** The two-quest cycle A -> B -> A: resolving A yields both names. */
  lemma TwoQuestCycle()
    ensures var cat := map["A" := Quest("A", false, map[], ["B"], map[]),
                           "B" := Quest("B", false, map[], ["A"], map[])];
      QuestVisit(GraphOf(cat), cat["A"], {}).reqs == {"A", "B"}
  {
    var cat := map["A" := Quest("A", false, map[], ["B"], map[]),
                   "B" := Quest("B", false, map[], ["A"], map[])];
    var g := GraphOf(cat);
    GraphAt(cat, "A");
    GraphAt(cat, "B");
    assert g.Keys == {"A", "B"};
    CycleIncludesItself(g, "A", "B");
    QuestSearchClosure(g, cat["A"], {});
    var reach := Reach(g, {"A"}, Start(g, ["B"], {"A"}));
    assert reach <= {"B"} by {
      forall y | y in reach ensures y == "B" {
        ReachOutside(g, {"A"}, Start(g, ["B"], {"A"}));
      }
    }
    assert DirectNames(g, reach) <= {"A"};
  }
}
