/** The earlier variant of the skill and prerequisite searches. It differs
    from QuestRequirements in one guard: a prerequisite name that is not a
    catalog key is not skipped. Its lookup yields no quest, that absent
    quest is never among the checked ones, and the search then fails on
    it. The failure is modelled as the outcome `Missing(name)`. */
module ParseJson {
  import opened Quests
  import opened Merge
  import opened Catalog
  import opened Resolver

  /** A search's result, or the prerequisite name whose lookup failed. */
  datatype Outcome<T> = Ok(value: T) | Missing(name: string)

  /** `n` is not a catalog key, and either it is one of `prereqs` or some
      catalog quest whose name is in `c` directly requires it. */
  ghost predicate Dangling(g: Graph, prereqs: seq<string>, c: set<string>, n: string) {
    n !in g && (n in prereqs || exists k :: k in g && g[k].name in c && n in g[k].prereqs)
  }

  /** Every prerequisite of a catalog quest whose name is in `c` is a
      catalog key. */
  ghost predicate NoneMissing(g: Graph, c: set<string>) {
    forall k, y :: k in g && g[k].name in c && y in g[k].prereqs ==> y in g
  }

  /** No name is Dangling for `prereqs` and `c`. */
  ghost predicate Clean(g: Graph, prereqs: seq<string>, c: set<string>) {
    (forall y :: y in prereqs ==> y in g) && NoneMissing(g, c)
  }

  /** Every prerequisite of every catalog quest is a catalog key. */
  ghost predicate ClosedGraph(g: Graph) {
    forall k, y :: k in g && y in g[k].prereqs ==> y in g
  }

  /** `find_recursive_skill_reqs` without the guard. With names as keys,
      it fails exactly when the query, or a quest the guarded search from
      the same state explores, requires a name outside the catalog, and a
      failure names such a prerequisite. `r.checked - (checked + {q.name})`
      is that set of explored quests. When it succeeds, it computes exactly
      what the guarded search computes. */
  method FindRecursiveSkillReqs(q: Quest, catalog: Catalog, checked: set<string>)
    returns (res: Outcome<map<string, nat>>, catalog': Catalog, checked': set<string>)
    ensures var r := MaxVisit(Skills, GraphOf(catalog), StoreOf(Skills, catalog), q, checked);
      res.Ok? ==> res.value == r.reqs && checked' == r.checked && catalog' == WriteBack(Skills, catalog, r.store)
    ensures var r := MaxVisit(Skills, GraphOf(catalog), StoreOf(Skills, catalog), q, checked);
      res.Missing? ==> Dangling(GraphOf(catalog), q.questReq, r.checked - (checked + {q.name}), res.name)
    ensures var r := MaxVisit(Skills, GraphOf(catalog), StoreOf(Skills, catalog), q, checked);
      WellFormed(GraphOf(catalog)) ==>
        (res.Ok? <==> Clean(GraphOf(catalog), q.questReq, r.checked - (checked + {q.name})))
    ensures (exists y :: y in q.questReq && y !in catalog) ==> res.Missing?
    ensures ClosedGraph(GraphOf(catalog)) && (forall y :: y in q.questReq ==> y in catalog) ==> res.Ok?
    decreases |Pending(catalog, checked + {q.name})|, 2
  {
    ghost var r := MaxVisit(Skills, GraphOf(catalog), StoreOf(Skills, catalog), q, checked);
    res, catalog', checked' := SkillLoop(q.questReq, catalog, checked + {q.name}, q.GetSkillReq());
    OutcomeFacts(GraphOf(catalog), q.questReq, r.checked - (checked + {q.name}), res);
  }

  /** The loop of the unguarded skill search over `prereqs`, started with
      `checked` set `entry` and accumulator `reqs0`. */
  method SkillLoop(prereqs: seq<string>, catalog: Catalog, entry: set<string>, reqs0: map<string, nat>)
    returns (res: Outcome<map<string, nat>>, catalog': Catalog, checked': set<string>)
    ensures var r := MaxLoop(GraphOf(catalog), StoreOf(Skills, catalog), prereqs, 0, reqs0, entry);
      res.Ok? ==> res.value == r.reqs && checked' == r.checked && catalog' == WriteBack(Skills, catalog, r.store)
    ensures var r := MaxLoop(GraphOf(catalog), StoreOf(Skills, catalog), prereqs, 0, reqs0, entry);
      res.Missing? ==> Dangling(GraphOf(catalog), prereqs, r.checked - entry, res.name)
    ensures res.Ok? ==>
      && PresentFrom(prereqs, 0, catalog.Keys)
      && (WellFormed(GraphOf(catalog)) ==> NoneMissing(GraphOf(catalog), checked' - entry))
    decreases |Pending(catalog, entry)|, 1
  {
    ghost var st := StoreOf(Skills, catalog);
    ghost var target := MaxLoop(GraphOf(catalog), st, prereqs, 0, reqs0, entry);
    checked' := entry;
    var reqs := reqs0;
    catalog' := catalog;
    WriteBackOwn(Skills, catalog);
    for i := 0 to |prereqs|
      invariant st.Keys == catalog.Keys
      invariant catalog' == WriteBack(Skills, catalog, st)
      invariant MaxLoop(GraphOf(catalog), st, prereqs, i, reqs, checked') == target
      invariant entry <= checked'
      invariant PresentFrom(prereqs, i, catalog.Keys) == PresentFrom(prereqs, 0, catalog.Keys)
      invariant WellFormed(GraphOf(catalog)) ==> NoneMissing(GraphOf(catalog), checked' - entry)
    {
      var step;
      ghost var before := checked';
      step, catalog', checked', st := CheckSkillPrereq(prereqs, i, catalog, st, entry, catalog', reqs, checked');
      if step.Missing? {
        res := Missing(step.name);
        return;
      }
      NoneMissingGrows(GraphOf(catalog), entry, before, checked');
      reqs := step.value;
    }
    res := Ok(reqs);
  }

  /** One pass of the unguarded skill loop, on a catalog that is `base`
      with the skill maps `st` written back. An absent prerequisite fails;
      a failure below an explored prerequisite is passed up. */
  method CheckSkillPrereq(prereqs: seq<string>, i: nat, ghost base: Catalog, ghost st: Store,
                          ghost entry: set<string>, catalog: Catalog, reqs: map<string, nat>, checked: set<string>)
    returns (res: Outcome<map<string, nat>>, catalog': Catalog, checked': set<string>, ghost st': Store)
    requires i < |prereqs| && st.Keys == base.Keys && catalog == WriteBack(Skills, base, st)
    requires entry <= checked
    ensures prereqs[i] !in base ==> res.Missing?
    ensures res.Ok? ==>
      && checked <= checked' && st'.Keys == base.Keys && catalog' == WriteBack(Skills, base, st')
      && MaxLoop(GraphOf(base), st, prereqs, i, reqs, checked)
         == MaxLoop(GraphOf(base), st', prereqs, i + 1, res.value, checked')
      && (WellFormed(GraphOf(base)) ==> NoneMissing(GraphOf(base), checked' - checked))
    ensures res.Missing? ==>
      Dangling(GraphOf(base), prereqs, MaxLoop(GraphOf(base), st, prereqs, i, reqs, checked).checked - entry, res.name)
    decreases |Pending(base, entry)|, 0
  {
    var n := prereqs[i];
    WriteBackReads(Skills, base, st);
    if n !in catalog {
      res, catalog', checked', st' := Missing(n), catalog, checked, st;
    } else if catalog[n].name !in checked {
      PendingShrinks(catalog, base, entry, checked, n);
      ghost var r := MaxVisit(Skills, GraphOf(base), st, catalog[n], checked);
      var sub, found;
      sub, found, checked' := FindRecursiveSkillReqs(catalog[n], catalog, checked);
      GraphAt(catalog, n);
      StoreAt(Skills, catalog, n);
      MaxExplore(Skills, GraphOf(base), st, prereqs, i, reqs, checked, catalog[n], r);
      if sub.Missing? {
        MissingBelow(GraphOf(base), st, prereqs, i, reqs, entry, checked, r, sub.name);
        res, catalog', st' := Missing(sub.name), found, st;
      } else {
        ExploredClean(GraphOf(base), n, checked, checked');
        WriteBackTwice(Skills, base, st, r.store);
        WriteBackStore(Skills, base, r.store, n, sub.value);
        UpdateKeys(r.store, n, sub.value, base.Keys);
        catalog' := found[n := SetFacet(Skills, found[n], sub.value)];
        st' := r.store[n := sub.value];
        var merged := MaxFoldInto(reqs, sub.value);
        res := Ok(merged);
      }
    } else {
      MaxSkip(Skills, base, st, prereqs, i, reqs, checked);
      res, catalog', checked', st' := Ok(reqs), catalog, checked, st;
    }
  }

  /** A missing name below an explored prerequisite is a missing name of
      the loop that explored it. */
  lemma MissingBelow(g: Graph, st: Store, prereqs: seq<string>, i: nat, acc: map<string, nat>,
                     entry: set<string>, c: set<string>, r: MaxSearch, m: string)
    requires st.Keys == g.Keys && i < |prereqs| && prereqs[i] in g && g[prereqs[i]].name !in c
    requires entry <= c
    requires r.store.Keys == g.Keys && c + {g[prereqs[i]].name} <= r.checked
    requires MaxLoop(g, st, prereqs, i, acc, c)
          == MaxLoop(g, r.store[prereqs[i] := r.reqs], prereqs, i + 1, MaxFold(acc, r.reqs), r.checked)
    requires Dangling(g, g[prereqs[i]].prereqs, r.checked - (c + {g[prereqs[i]].name}), m)
    ensures Dangling(g, prereqs, MaxLoop(g, st, prereqs, i, acc, c).checked - entry, m)
  {
    var n := prereqs[i];
    var outer := MaxLoop(g, st, prereqs, i, acc, c).checked;
    if m in g[n].prereqs {
      assert n in g && g[n].name in outer - entry;
    } else {
      var k :| k in g && g[k].name in r.checked - (c + {g[n].name}) && m in g[k].prereqs;
      assert g[k].name in outer - entry;
    }
  }

  /** A Dangling name rules out Clean. */
  lemma DanglingNotClean(g: Graph, prereqs: seq<string>, c: set<string>, n: string)
    requires Dangling(g, prereqs, c, n)
    ensures !Clean(g, prereqs, c)
  {
    if n !in prereqs {
      var k :| k in g && g[k].name in c && n in g[k].prereqs;
    }
  }

  /** NoneMissing over two successive growths of `checked` holds over the
      whole growth. */
  lemma NoneMissingGrows(g: Graph, a: set<string>, b: set<string>, c: set<string>)
    requires a <= b <= c
    requires WellFormed(g) ==> NoneMissing(g, b - a)
    requires WellFormed(g) ==> NoneMissing(g, c - b)
    ensures WellFormed(g) ==> NoneMissing(g, c - a)
  {
    if WellFormed(g) {
      forall k, y | k in g && g[k].name in c - a && y in g[k].prereqs ensures y in g {
        if g[k].name in b {
          assert g[k].name in b - a;
        } else {
          assert g[k].name in c - b;
        }
      }
    }
  }

  /** The prerequisites from index `i` on are all in `keys`. */
  ghost predicate PresentFrom(prereqs: seq<string>, i: nat, keys: set<string>)
    decreases |prereqs| - i
  {
    i >= |prereqs| || (prereqs[i] in keys && PresentFrom(prereqs, i + 1, keys))
  }

  lemma {:induction false} PresentFromAll(prereqs: seq<string>, i: nat, keys: set<string>)
    requires PresentFrom(prereqs, i, keys)
    ensures forall j :: i <= j < |prereqs| ==> prereqs[j] in keys
    decreases |prereqs| - i
  {
    if i < |prereqs| {
      PresentFromAll(prereqs, i + 1, keys);
    }
  }

  /** What a search's outcome says about missing names. A failure names
      a Dangling prerequisite; a success saw every prerequisite present
      and, with names as keys, no explored quest with a missing one. Then
      the search succeeds exactly when nothing is Dangling, fails whenever
      a direct prerequisite is absent, and succeeds on a closed graph. */
  lemma OutcomeFacts<T>(g: Graph, prereqs: seq<string>, c: set<string>, res: Outcome<T>)
    requires res.Missing? ==> Dangling(g, prereqs, c, res.name)
    requires res.Ok? ==>
      && PresentFrom(prereqs, 0, g.Keys)
      && (WellFormed(g) ==> NoneMissing(g, c))
    ensures WellFormed(g) ==> (res.Ok? <==> Clean(g, prereqs, c))
    ensures (exists y :: y in prereqs && y !in g) ==> res.Missing?
    ensures ClosedGraph(g) && (forall y :: y in prereqs ==> y in g) ==> res.Ok?
  {
    if res.Ok? {
      PresentFromAll(prereqs, 0, g.Keys);
    } else {
      DanglingNotClean(g, prereqs, c, res.name);
      if res.name !in prereqs {
        var k :| k in g && g[k].name in c && res.name in g[k].prereqs;
      }
    }
  }

  /** An explored prerequisite `n` whose own search succeeded cleanly leaves
      no missing name among the quests checked in that step: with names as
      keys, the quest named `g[n].name` is `n` itself. */
  lemma ExploredClean(g: Graph, n: string, c: set<string>, c': set<string>)
    requires n in g && g[n].name !in c && c + {g[n].name} <= c'
    requires WellFormed(g) ==> Clean(g, g[n].prereqs, c' - (c + {g[n].name}))
    ensures WellFormed(g) ==> NoneMissing(g, c' - c)
  {
    if WellFormed(g) {
      forall k, y | k in g && g[k].name in c' - c && y in g[k].prereqs ensures y in g {
        if g[k].name == g[n].name {
          assert k == n;
        } else {
          assert g[k].name in c' - (c + {g[n].name});
        }
      }
    }
  }

  /** `find_recursive_quest_reqs` without the guard: the set of every
      quest name `q` transitively requires, with the same failure and
      success guarantees as the skill search. */
  method FindRecursiveQuestReqs(q: Quest, catalog: Catalog, checked: set<string>)
    returns (res: Outcome<set<string>>, checked': set<string>)
    ensures var r := QuestVisit(GraphOf(catalog), q, checked);
      res.Ok? ==> res.value == r.reqs && checked' == r.checked
    ensures var r := QuestVisit(GraphOf(catalog), q, checked);
      res.Missing? ==> Dangling(GraphOf(catalog), q.questReq, r.checked - (checked + {q.name}), res.name)
    ensures var r := QuestVisit(GraphOf(catalog), q, checked);
      WellFormed(GraphOf(catalog)) ==>
        (res.Ok? <==> Clean(GraphOf(catalog), q.questReq, r.checked - (checked + {q.name})))
    ensures (exists y :: y in q.questReq && y !in catalog) ==> res.Missing?
    ensures ClosedGraph(GraphOf(catalog)) && (forall y :: y in q.questReq ==> y in catalog) ==> res.Ok?
    decreases |Pending(catalog, checked + {q.name})|, 2
  {
    ghost var r := QuestVisit(GraphOf(catalog), q, checked);
    res, checked' := QuestLoopOf(q.questReq, catalog, checked + {q.name});
    OutcomeFacts(GraphOf(catalog), q.questReq, r.checked - (checked + {q.name}), res);
  }

  /** The loop of the unguarded prerequisite search over `prereqs`, started
      with `checked` set `entry` and the set of `prereqs` itself. */
  method QuestLoopOf(prereqs: seq<string>, catalog: Catalog, entry: set<string>)
    returns (res: Outcome<set<string>>, checked': set<string>)
    ensures var r := QuestLoop(GraphOf(catalog), prereqs, 0, Elems(prereqs), entry);
      res.Ok? ==> res.value == r.reqs && checked' == r.checked
    ensures var r := QuestLoop(GraphOf(catalog), prereqs, 0, Elems(prereqs), entry);
      res.Missing? ==> Dangling(GraphOf(catalog), prereqs, r.checked - entry, res.name)
    ensures res.Ok? ==>
      && PresentFrom(prereqs, 0, catalog.Keys)
      && (WellFormed(GraphOf(catalog)) ==> NoneMissing(GraphOf(catalog), checked' - entry))
    decreases |Pending(catalog, entry)|, 1
  {
    ghost var target := QuestLoop(GraphOf(catalog), prereqs, 0, Elems(prereqs), entry);
    checked' := entry;
    var found := Elems(prereqs);
    for i := 0 to |prereqs|
      invariant QuestLoop(GraphOf(catalog), prereqs, i, found, checked') == target
      invariant entry <= checked'
      invariant PresentFrom(prereqs, i, catalog.Keys) == PresentFrom(prereqs, 0, catalog.Keys)
      invariant WellFormed(GraphOf(catalog)) ==> NoneMissing(GraphOf(catalog), checked' - entry)
    {
      var step;
      ghost var before := checked';
      step, checked' := CheckQuestPrereq(prereqs, i, catalog, entry, found, checked');
      if step.Missing? {
        res := Missing(step.name);
        return;
      }
      NoneMissingGrows(GraphOf(catalog), entry, before, checked');
      found := step.value;
    }
    res := Ok(found);
  }

  /** One pass of the unguarded prerequisite loop, with the same failure
      behaviour as the skill loop's. */
  method CheckQuestPrereq(prereqs: seq<string>, i: nat, catalog: Catalog, ghost entry: set<string>,
                          found: set<string>, checked: set<string>)
    returns (res: Outcome<set<string>>, checked': set<string>)
    requires i < |prereqs| && entry <= checked
    ensures prereqs[i] !in catalog ==> res.Missing?
    ensures res.Ok? ==>
      && checked <= checked'
      && QuestLoop(GraphOf(catalog), prereqs, i, found, checked)
         == QuestLoop(GraphOf(catalog), prereqs, i + 1, res.value, checked')
      && (WellFormed(GraphOf(catalog)) ==> NoneMissing(GraphOf(catalog), checked' - checked))
    ensures res.Missing? ==>
      Dangling(GraphOf(catalog), prereqs, QuestLoop(GraphOf(catalog), prereqs, i, found, checked).checked - entry, res.name)
    decreases |Pending(catalog, entry)|, 0
  {
    var n := prereqs[i];
    if n !in catalog {
      res, checked' := Missing(n), checked;
    } else if catalog[n].name !in checked {
      PendingShrinks(catalog, catalog, entry, checked, n);
      ghost var r := QuestVisit(GraphOf(catalog), catalog[n], checked);
      var sub;
      sub, checked' := FindRecursiveQuestReqs(catalog[n], catalog, checked);
      GraphAt(catalog, n);
      if sub.Missing? {
        QuestMissingBelow(catalog, prereqs, i, found, entry, checked, r, sub.name);
        res := Missing(sub.name);
      } else {
        ExploredClean(GraphOf(catalog), n, checked, checked');
        QuestExplore(catalog, prereqs, i, found, checked, sub.value, checked');
        res := Ok(found + sub.value);
      }
    } else {
      QuestSkip(catalog, prereqs, i, found, checked);
      res, checked' := Ok(found), checked;
    }
  }

  /** A missing name below an explored prerequisite is a missing name of
      the prerequisite loop that explored it. */
  lemma QuestMissingBelow(catalog: Catalog, prereqs: seq<string>, i: nat, acc: set<string>,
                          entry: set<string>, c: set<string>, r: QuestSearch, m: string)
    requires i < |prereqs| && prereqs[i] in catalog && catalog[prereqs[i]].name !in c
    requires entry <= c
    requires r == QuestVisit(GraphOf(catalog), catalog[prereqs[i]], c)
    requires Dangling(GraphOf(catalog), catalog[prereqs[i]].questReq, r.checked - (c + {catalog[prereqs[i]].name}), m)
    ensures Dangling(GraphOf(catalog), prereqs, QuestLoop(GraphOf(catalog), prereqs, i, acc, c).checked - entry, m)
  {
    var g := GraphOf(catalog);
    var n := prereqs[i];
    GraphAt(catalog, n);
    QuestExplore(catalog, prereqs, i, acc, c, r.reqs, r.checked);
    var outer := QuestLoop(g, prereqs, i, acc, c);
    assert r.checked <= outer.checked;
    if m in g[n].prereqs {
      assert g[n].name in outer.checked - entry;
    } else {
      var k :| k in g && g[k].name in r.checked - (c + {g[n].name}) && m in g[k].prereqs;
      assert g[k].name in outer.checked - entry;
    }
  }
}
