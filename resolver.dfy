/** The meaning of the recursive requirement searches, as functions.

    The searches share one `checked` set of quest names. A quest's name is
    added before its prerequisites are explored, and a prerequisite is
    explored only when it is in the catalog and its name is not yet checked.
    Each search is the loop over one quest's prerequisites in declared
    order; exploring a prerequisite is the same loop, started on that
    quest's own prerequisite list. The searches read the prerequisite graph
    and, for the max-folding searches, a store of one facet's maps that
    they update. The imperative methods of QuestRequirements and ParseJson
    are proved to compute exactly what these functions define, and
    ResolverProperties proves what the functions compute. */
module Resolver {
  import opened Quests
  import opened Merge
  import opened Catalog

  /** The outcome of a max-folding search: the merged map, the store after
      the search wrote merged maps back into the quests it visited, and the
      grown `checked` set. */
  datatype MaxSearch = MaxSearch(reqs: map<string, nat>, store: Store, checked: set<string>)

  /** The outcome of the prerequisite search: the names found and the grown
      `checked` set. */
  datatype QuestSearch = QuestSearch(reqs: set<string>, checked: set<string>)

  /** The max-folding search over facet `f` from quest `q`: check `q`'s
      name, start from its own map and fold in its prerequisites. */
  function MaxVisit(f: Facet, g: Graph, st: Store, q: Quest, checked: set<string>): (s: MaxSearch)
    requires st.Keys == g.Keys
    ensures checked + {q.name} <= s.checked <= checked + {q.name} + Names(g)
    ensures s.store.Keys == g.Keys
  {
    MaxLoop(g, st, q.questReq, 0, GetFacet(f, q), checked + {q.name})
  }

  /** The loop over `prereqs` from position `i` on, with accumulator `acc`.
      A prerequisite that is in the catalog and not yet checked is explored
      from its own stored map; its merged map is folded into `acc` and also
      becomes that quest's stored map, because the accumulator of a quest's
      merge is the quest's own dictionary. */
  function MaxLoop(g: Graph, st: Store, prereqs: seq<string>, i: nat, acc: map<string, nat>, checked: set<string>): (s: MaxSearch)
    requires st.Keys == g.Keys && i <= |prereqs|
    ensures checked <= s.checked <= checked + Names(g)
    ensures s.store.Keys == g.Keys
    decreases |Names(g) - checked|, |prereqs| - i
  {
    if i == |prereqs| then
      MaxSearch(acc, st, checked)
    else
      var n := prereqs[i];
      if n in g && g[n].name !in checked then
        assert g[n].name in Names(g);
        OneMoreChecked(Names(g), checked, g[n].name);
        var sub := MaxLoop(g, st, g[n].prereqs, 0, st[n], checked + {g[n].name});
        FewerUnchecked(Names(g), checked, sub.checked);
        MaxLoop(g, sub.store[n := sub.reqs], prereqs, i + 1, MaxFold(acc, sub.reqs), sub.checked)
      else
        MaxLoop(g, st, prereqs, i + 1, acc, checked)
  }

  /** The prerequisite search from quest `q`: check its name, start from the
      set of its direct prerequisites and add what its prerequisites need. */
  function QuestVisit(g: Graph, q: Quest, checked: set<string>): (s: QuestSearch)
    ensures checked + {q.name} <= s.checked <= checked + {q.name} + Names(g)
    ensures Elems(q.questReq) <= s.reqs
  {
    QuestLoop(g, q.questReq, 0, Elems(q.questReq), checked + {q.name})
  }

  /** The loop over `prereqs` from position `i` on. */
  function QuestLoop(g: Graph, prereqs: seq<string>, i: nat, acc: set<string>, checked: set<string>): (s: QuestSearch)
    requires i <= |prereqs|
    ensures checked <= s.checked <= checked + Names(g)
    ensures acc <= s.reqs
    decreases |Names(g) - checked|, |prereqs| - i
  {
    if i == |prereqs| then
      QuestSearch(acc, checked)
    else
      var n := prereqs[i];
      if n in g && g[n].name !in checked then
        assert g[n].name in Names(g);
        OneMoreChecked(Names(g), checked, g[n].name);
        var sub := QuestLoop(g, g[n].prereqs, 0, Elems(g[n].prereqs), checked + {g[n].name});
        FewerUnchecked(Names(g), checked, sub.checked);
        QuestLoop(g, prereqs, i + 1, acc + sub.reqs, sub.checked)
      else
        QuestLoop(g, prereqs, i + 1, acc, checked)
  }

  /** The elements of a list, as a set (`set(l)`). */
  function Elems(l: seq<string>): set<string> {
    set x | x in l
  }

  /** A list without repeated elements. */
  ghost predicate NoDuplicates(l: seq<string>) {
    forall i, j :: 0 <= i < j < |l| ==> l[i] != l[j]
  }

  /** One explored prerequisite of the prerequisite loop, in terms of the
      catalog the method reads. */
  lemma QuestExplore(catalog: Catalog, prereqs: seq<string>, i: nat, acc: set<string>, c: set<string>,
                     sub: set<string>, c': set<string>)
    requires i < |prereqs| && prereqs[i] in catalog && catalog[prereqs[i]].name !in c
    requires sub == QuestVisit(GraphOf(catalog), catalog[prereqs[i]], c).reqs
    requires c' == QuestVisit(GraphOf(catalog), catalog[prereqs[i]], c).checked
    ensures QuestLoop(GraphOf(catalog), prereqs, i, acc, c) == QuestLoop(GraphOf(catalog), prereqs, i + 1, acc + sub, c')
  {
    var g := GraphOf(catalog);
    var n := prereqs[i];
    assert g[n] == Node(catalog[n].name, catalog[n].questReq);
  }

  /** One skipped prerequisite of the prerequisite loop. */
  lemma QuestSkip(catalog: Catalog, prereqs: seq<string>, i: nat, acc: set<string>, c: set<string>)
    requires i < |prereqs| && !(prereqs[i] in catalog && catalog[prereqs[i]].name !in c)
    ensures QuestLoop(GraphOf(catalog), prereqs, i, acc, c) == QuestLoop(GraphOf(catalog), prereqs, i + 1, acc, c)
  {
    var g := GraphOf(catalog);
    var n := prereqs[i];
    assert n in g ==> g[n].name == catalog[n].name;
  }

  /** One explored prerequisite `n` of the max-folding loop, given the
      search result `r` of `n`: the loop goes on from the store in which
      `n` holds its merged map. */
  lemma MaxExplore(f: Facet, g: Graph, st: Store, prereqs: seq<string>, i: nat,
                   acc: map<string, nat>, c: set<string>, q: Quest, r: MaxSearch)
    requires st.Keys == g.Keys && i < |prereqs| && prereqs[i] in g && g[prereqs[i]].name !in c
    requires g[prereqs[i]] == Node(q.name, q.questReq) && st[prereqs[i]] == GetFacet(f, q)
    requires r == MaxVisit(f, g, st, q, c)
    ensures MaxLoop(g, st, prereqs, i, acc, c)
         == MaxLoop(g, r.store[prereqs[i] := r.reqs], prereqs, i + 1, MaxFold(acc, r.reqs), r.checked)
  {
  }

  /** One skipped prerequisite of the max-folding loop. */
  lemma MaxSkip(f: Facet, base: Catalog, st: Store, prereqs: seq<string>, i: nat,
                acc: map<string, nat>, c: set<string>)
    requires st.Keys == base.Keys && i < |prereqs|
    requires var cat := WriteBack(f, base, st);
      !(prereqs[i] in cat && cat[prereqs[i]].name !in c)
    ensures MaxLoop(GraphOf(base), st, prereqs, i, acc, c) == MaxLoop(GraphOf(base), st, prereqs, i + 1, acc, c)
  {
    var cat := WriteBack(f, base, st);
    var n := prereqs[i];
    var g := GraphOf(base);
    WriteBackReads(f, base, st);
    assert n in g ==> g[n].name == cat[n].name;
  }
}
