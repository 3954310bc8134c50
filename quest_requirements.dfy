/** The requirement resolver as the imperative searches it is made of, the
    synthetic "Quest Point Cape" query and the report that combines the
    searches. Each search takes the `checked` set of quest names explicitly
    and returns it grown; the max-folding searches also return the catalog,
    whose visited quests now hold their merged maps. */
module QuestRequirements {
  import opened Quests
  import opened Merge
  import opened Catalog
  import opened Resolver

  /** `list(s)` for a set `s`: each element once, in no particular order. */
  method ListOf(s: set<string>) returns (l: seq<string>)
    ensures NoDuplicates(l)
    ensures forall x :: x in l <==> x in s
    ensures |l| == |s|
  {
    l := [];
    var rest := s;
    while rest != {}
      invariant rest <= s
      invariant forall x :: x in l <==> x in s && x !in rest
      invariant NoDuplicates(l)
      invariant |l| + |rest| == |s|
      decreases rest
    {
      var x :| x in rest;
      l := l + [x];
      rest := rest - {x};
    }
  }

  /** The name of the synthetic query that requires every quest. */
  const PointCapeName: string := "Quest Point Cape"

  /** `quest_point_cape`: a members' quest named "Quest Point Cape" with no
      skill or other requirements of its own, whose prerequisites are the
      catalog's keys, each once. */
  method QuestPointCape(catalog: Catalog) returns (q: Quest)
    ensures q.name == PointCapeName && !q.f2p
    ensures q.GetSkillReq() == map[] && q.GetOtherReq() == map[]
    ensures Elems(q.GetQuestReq()) == catalog.Keys && NoDuplicates(q.GetQuestReq())
    ensures |q.GetQuestReq()| == |catalog|
  {
    var keys := ListOf(catalog.Keys);
    assert Elems(keys) == catalog.Keys;
    q := NewQuest(PointCapeName, QuestInfo(false, Requirements(map[], keys, map[])));
  }

  /** `get_quest_requirements`: the report for `q`, keyed by its name, with
      its `f2p` flag, the skill and other maps of the two max-folding
      searches (each started with nothing checked) and `q`'s direct
      prerequisite list. The other search runs on the catalog the skill
      search left behind, which has the same graph and other maps. */
  method GetQuestRequirements(q: Quest, catalog: Catalog)
    returns (report: map<string, QuestInfo>, catalog': Catalog)
    ensures var g := GraphOf(catalog);
      var skills := MaxVisit(Skills, g, StoreOf(Skills, catalog), q, {});
      var other := MaxVisit(Other, g, StoreOf(Other, catalog), q, {});
      && report == map[q.name := QuestInfo(q.f2p, Requirements(skills.reqs, q.GetQuestReq(), other.reqs))]
      && catalog' == WriteBack(Other, WriteBack(Skills, catalog, skills.store), other.store)
  {
    var skills, afterSkills, _ := FindRecursiveSkillReqs(q, catalog, {});
    ghost var rs := MaxVisit(Skills, GraphOf(catalog), StoreOf(Skills, catalog), q, {});
    WriteBackReads(Skills, catalog, rs.store);
    var other, afterOther, _ := FindRecursiveOtherReqs(q, afterSkills, {});
    report := map[q.name := QuestInfo(q.f2p, Requirements(skills, q.GetQuestReq(), other))];
    catalog' := afterOther;
  }

  /** The max-folding search that `find_recursive_skill_reqs` and
      `find_recursive_other_reqs` both are, over facet `f`: the merged map,
      the catalog after the merges of the visited quests were written into
      them, and the grown `checked` set are what MaxVisit defines. */
  method FindRecursiveMaxReqs(f: Facet, q: Quest, catalog: Catalog, checked: set<string>)
    returns (reqs: map<string, nat>, catalog': Catalog, checked': set<string>)
    ensures var r := MaxVisit(f, GraphOf(catalog), StoreOf(f, catalog), q, checked);
      reqs == r.reqs && checked' == r.checked && catalog' == WriteBack(f, catalog, r.store)
    decreases |Pending(catalog, checked + {q.name})|, 1
  {
    ghost var st := StoreOf(f, catalog);
    ghost var target := MaxVisit(f, GraphOf(catalog), st, q, checked);
    checked' := checked + {q.name};
    reqs := GetFacet(f, q);
    catalog' := catalog;
    WriteBackOwn(f, catalog);
    for i := 0 to |q.questReq|
      invariant st.Keys == catalog.Keys
      invariant catalog' == WriteBack(f, catalog, st)
      invariant MaxLoop(GraphOf(catalog), st, q.questReq, i, reqs, checked') == target
      invariant checked + {q.name} <= checked'
    {
      reqs, catalog', checked', st := CheckMaxPrereq(f, q.questReq, i, catalog, st, checked + {q.name}, catalog', reqs, checked');
    }
  }

  /** One pass of the loop of the max-folding search, on a catalog that is
      `base` with the maps `st` written back: prerequisite `i` is looked up
      and, when it is in the catalog and unchecked, searched from its own
      map; the result is folded into `reqs` and is that quest's map from
      then on. `entry` is the `checked` set when the enclosing search began;
      it bounds the recursion. */
  method CheckMaxPrereq(f: Facet, prereqs: seq<string>, i: nat, ghost base: Catalog, ghost st: Store,
                        ghost entry: set<string>, catalog: Catalog, reqs: map<string, nat>, checked: set<string>)
    returns (reqs': map<string, nat>, catalog': Catalog, checked': set<string>, ghost st': Store)
    requires i < |prereqs| && st.Keys == base.Keys && catalog == WriteBack(f, base, st)
    requires entry <= checked
    ensures checked <= checked' && st'.Keys == base.Keys && catalog' == WriteBack(f, base, st')
    ensures MaxLoop(GraphOf(base), st, prereqs, i, reqs, checked)
         == MaxLoop(GraphOf(base), st', prereqs, i + 1, reqs', checked')
    decreases |Pending(base, entry)|, 0
  {
    var n := prereqs[i];
    WriteBackReads(f, base, st);
    if n in catalog && catalog[n].name !in checked {
      PendingShrinks(catalog, base, entry, checked, n);
      ghost var r := MaxVisit(f, GraphOf(base), st, catalog[n], checked);
      var sub, found;
      sub, found, checked' := FindRecursiveMaxReqs(f, catalog[n], catalog, checked);
      GraphAt(catalog, n);
      StoreAt(f, catalog, n);
      MaxExplore(f, GraphOf(base), st, prereqs, i, reqs, checked, catalog[n], r);
      WriteBackTwice(f, base, st, r.store);
      WriteBackStore(f, base, r.store, n, sub);
      UpdateKeys(r.store, n, sub, base.Keys);
      catalog' := found[n := SetFacet(f, found[n], sub)];
      st' := r.store[n := sub];
      reqs' := MaxFoldInto(reqs, sub);
    } else {
      MaxSkip(f, base, st, prereqs, i, reqs, checked);
      reqs', catalog', checked', st' := reqs, catalog, checked, st;
    }
  }

  /** `find_recursive_skill_reqs`: the maximum level of every skill needed by
      `q` and the quests it transitively requires. */
  method FindRecursiveSkillReqs(q: Quest, catalog: Catalog, checked: set<string>)
    returns (reqs: map<string, nat>, catalog': Catalog, checked': set<string>)
    ensures var r := MaxVisit(Skills, GraphOf(catalog), StoreOf(Skills, catalog), q, checked);
      reqs == r.reqs && checked' == r.checked && catalog' == WriteBack(Skills, catalog, r.store)
  {
    reqs, catalog', checked' := FindRecursiveMaxReqs(Skills, q, catalog, checked);
  }

  /** `find_recursive_other_reqs`: the maximum value of every other
      requirement of `q` and the quests it transitively requires. */
  method FindRecursiveOtherReqs(q: Quest, catalog: Catalog, checked: set<string>)
    returns (reqs: map<string, nat>, catalog': Catalog, checked': set<string>)
    ensures var r := MaxVisit(Other, GraphOf(catalog), StoreOf(Other, catalog), q, checked);
      reqs == r.reqs && checked' == r.checked && catalog' == WriteBack(Other, catalog, r.store)
  {
    reqs, catalog', checked' := FindRecursiveMaxReqs(Other, q, catalog, checked);
  }

  /** `find_recursive_quest_reqs`: every quest name `q` transitively
      requires, as a list without repetitions. */
  method FindRecursiveQuestReqs(q: Quest, catalog: Catalog, checked: set<string>)
    returns (reqs: seq<string>, checked': set<string>)
    ensures NoDuplicates(reqs)
    ensures Elems(reqs) == QuestVisit(GraphOf(catalog), q, checked).reqs
    ensures checked' == QuestVisit(GraphOf(catalog), q, checked).checked
  {
    var found;
    found, checked' := CollectQuestReqs(q, catalog, checked);
    reqs := ListOf(found);
    assert Elems(reqs) == found;
  }

  /** The search of `find_recursive_quest_reqs` before its result is turned
      into a list: the set of direct prerequisites of `q`, grown by what its
      present, unchecked prerequisites require. A recursive call's list is
      only ever merged into the caller's set, so the recursion can go
      through the set directly. */
  method CollectQuestReqs(q: Quest, catalog: Catalog, checked: set<string>)
    returns (found: set<string>, checked': set<string>)
    ensures found == QuestVisit(GraphOf(catalog), q, checked).reqs
    ensures checked' == QuestVisit(GraphOf(catalog), q, checked).checked
    decreases |Pending(catalog, checked + {q.name})|, 1
  {
    ghost var target := QuestVisit(GraphOf(catalog), q, checked);
    checked' := checked + {q.name};
    found := Elems(q.questReq);
    for i := 0 to |q.questReq|
      invariant QuestLoop(GraphOf(catalog), q.questReq, i, found, checked') == target
      invariant checked + {q.name} <= checked'
    {
      found, checked' := CheckQuestPrereq(q.questReq, i, catalog, checked + {q.name}, found, checked');
    }
  }

  /** One pass of the loop of the prerequisite search: prerequisite `i` is
      looked up and, when it is in the catalog and unchecked, what it
      requires is added to `found`. `entry` is the `checked` set when the
      enclosing search began; it bounds the recursion. */
  method CheckQuestPrereq(prereqs: seq<string>, i: nat, catalog: Catalog, ghost entry: set<string>,
                          found: set<string>, checked: set<string>)
    returns (found': set<string>, checked': set<string>)
    requires i < |prereqs| && entry <= checked
    ensures checked <= checked'
    ensures QuestLoop(GraphOf(catalog), prereqs, i, found, checked)
         == QuestLoop(GraphOf(catalog), prereqs, i + 1, found', checked')
    decreases |Pending(catalog, entry)|, 0
  {
    var n := prereqs[i];
    if n in catalog && catalog[n].name !in checked {
      PendingShrinks(catalog, catalog, entry, checked, n);
      var sub;
      sub, checked' := CollectQuestReqs(catalog[n], catalog, checked);
      QuestExplore(catalog, prereqs, i, found, checked, sub, checked');
      found' := found + sub;
    } else {
      QuestSkip(catalog, prereqs, i, found, checked);
      found', checked' := found, checked;
    }
  }
}
