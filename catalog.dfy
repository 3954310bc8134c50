/** The quest catalog: quests keyed by name, and the two parts of it that the
    searches see separately. The prerequisite graph (every quest's name and
    prerequisite list) is only read. The maps of one facet (skills or other
    requirements) are updated in place, because each visited quest's own
    map is the accumulator of its merge. */
module Catalog {
  import opened Quests

  /** Quests keyed by name, as the loader builds them. */
  type Catalog = map<string, Quest>

  /** The two requirement maps that are merged by taking maxima. */
  datatype Facet = Skills | Other

  /** The map of facet `f` of quest `q` (`get_skill_req` or `get_other_req`). */
  function GetFacet(f: Facet, q: Quest): map<string, nat> {
    match f
    case Skills => q.GetSkillReq()
    case Other => q.GetOtherReq()
  }

  /** Quest `q` with its facet `f` replaced by `m`; nothing else changes. */
  function SetFacet(f: Facet, q: Quest, m: map<string, nat>): (r: Quest)
    ensures GetFacet(f, r) == m
    ensures r.name == q.name && r.f2p == q.f2p && r.questReq == q.questReq
    ensures forall g :: g != f ==> GetFacet(g, r) == GetFacet(g, q)
  {
    match f
    case Skills => q.(skillReq := m)
    case Other => q.(otherReq := m)
  }

  /** What the searches read of one quest besides its maps. */
  datatype Node = Node(name: string, prereqs: seq<string>)

  /** The prerequisite graph, keyed like the catalog. */
  type Graph = map<string, Node>

  /** The maps of one facet, keyed like the catalog. */
  type Store = map<string, map<string, nat>>

  function GraphOf(cat: Catalog): (g: Graph)
    ensures g.Keys == cat.Keys
  {
    map k | k in cat :: Node(cat[k].name, cat[k].questReq)
  }

  function StoreOf(f: Facet, cat: Catalog): (st: Store)
    ensures st.Keys == cat.Keys
  {
    map k | k in cat :: GetFacet(f, cat[k])
  }

  /** The catalog whose quests hold, as facet `f`, the maps of `st`. */
  function WriteBack(f: Facet, cat: Catalog, st: Store): (r: Catalog)
    ensures r.Keys == cat.Keys
  {
    map k | k in cat :: if k in st then SetFacet(f, cat[k], st[k]) else cat[k]
  }

  /** The names the graph's quests carry. */
  function Names(g: Graph): set<string> {
    set k | k in g :: g[k].name
  }

  /** Every quest is stored under its own name. */
  ghost predicate WellFormed(g: Graph) {
    forall k :: k in g ==> g[k].name == k
  }

  lemma SetFacetTwice(f: Facet, q: Quest, a: map<string, nat>, b: map<string, nat>)
    ensures SetFacet(f, SetFacet(f, q, a), b) == SetFacet(f, q, b)
  {
    match f
    case Skills =>
    case Other =>
  }

  lemma SetFacetSame(f: Facet, q: Quest)
    ensures SetFacet(f, q, GetFacet(f, q)) == q
  {
    match f
    case Skills =>
    case Other =>
  }

  /** Writing back a catalog's own maps changes nothing. */
  lemma WriteBackOwn(f: Facet, cat: Catalog)
    ensures WriteBack(f, cat, StoreOf(f, cat)) == cat
  {
    forall k | k in cat ensures SetFacet(f, cat[k], GetFacet(f, cat[k])) == cat[k] {
      SetFacetSame(f, cat[k]);
    }
  }

  /** Writing back maps changes neither the prerequisite graph nor the
      other facet, and the catalog then holds exactly the maps written. */
  lemma WriteBackReads(f: Facet, cat: Catalog, st: Store)
    requires st.Keys == cat.Keys
    ensures GraphOf(WriteBack(f, cat, st)) == GraphOf(cat)
    ensures StoreOf(f, WriteBack(f, cat, st)) == st
    ensures forall g :: g != f ==> StoreOf(g, WriteBack(f, cat, st)) == StoreOf(g, cat)
  {
  }

  /** A second write-back overrides the first. */
  lemma WriteBackTwice(f: Facet, cat: Catalog, st1: Store, st2: Store)
    requires st1.Keys == cat.Keys && st2.Keys == cat.Keys
    ensures WriteBack(f, WriteBack(f, cat, st1), st2) == WriteBack(f, cat, st2)
  {
    forall k | k in cat
      ensures SetFacet(f, SetFacet(f, cat[k], st1[k]), st2[k]) == SetFacet(f, cat[k], st2[k])
    {
      SetFacetTwice(f, cat[k], st1[k], st2[k]);
    }
  }

  /** Storing map `m` into quest `n` of a written-back catalog is writing
      back the store updated at `n`. */
  lemma WriteBackStore(f: Facet, cat: Catalog, st: Store, n: string, m: map<string, nat>)
    requires st.Keys == cat.Keys && n in cat
    ensures var c := WriteBack(f, cat, st);
      c[n := SetFacet(f, c[n], m)] == WriteBack(f, cat, st[n := m])
  {
    SetFacetTwice(f, cat[n], st[n], m);
  }

  /** Removing more elements leaves fewer: the measure that bounds the
      searches' recursion. */
  lemma FewerUnchecked(names: set<string>, d1: set<string>, d2: set<string>)
    requires d1 <= d2
    ensures |names - d2| <= |names - d1|
  {
    assert names - d2 <= names - d1;
    SubsetCard(names - d2, names - d1);
  }

  lemma SubsetCard(a: set<string>, b: set<string>)
    requires a <= b
    ensures |a| <= |b|
  {
    assert b == a + (b - a);
  }

  /** Checking one more catalog name strictly shrinks the unchecked part. */
  lemma OneMoreChecked(names: set<string>, d: set<string>, x: string)
    requires x in names && x !in d
    ensures |names - (d + {x})| < |names - d|
  {
    assert names - (d + {x}) == (names - d) - {x};
  }

  /** Updating a map at one of its keys keeps its key set. */
  lemma UpdateKeys(st: Store, n: string, m: map<string, nat>, keys: set<string>)
    requires st.Keys == keys && n in keys
    ensures st[n := m].Keys == keys
  {
  }

  lemma GraphAt(cat: Catalog, k: string)
    requires k in cat
    ensures GraphOf(cat)[k] == Node(cat[k].name, cat[k].questReq)
  {
  }

  lemma StoreAt(f: Facet, cat: Catalog, k: string)
    requires k in cat
    ensures StoreOf(f, cat)[k] == GetFacet(f, cat[k])
  {
  }

  /** The catalog keys whose quest's name is not yet checked: what the
      imperative searches still may explore, and so the measure of their
      recursion. */
  function Pending(catalog: Catalog, checked: set<string>): set<string> {
    set k | k in catalog && catalog[k].name !in checked
  }

  /** Exploring an unchecked catalog quest `n` after the `checked` set grew
      from `c0` to `c` leaves fewer pending keys than there were at `c0`, in
      any catalog `base` with the same graph. */
  lemma PendingShrinks(catalog: Catalog, base: Catalog, c0: set<string>, c: set<string>, n: string)
    requires GraphOf(catalog) == GraphOf(base)
    requires c0 <= c && n in catalog && catalog[n].name !in c
    ensures |Pending(catalog, c + {catalog[n].name})| < |Pending(base, c0)|
  {
    assert forall k :: k in catalog ==> GraphOf(catalog)[k].name == catalog[k].name;
    assert forall k :: k in base ==> GraphOf(base)[k].name == base[k].name;
    assert Pending(catalog, c0) == Pending(base, c0);
    assert Pending(catalog, c + {catalog[n].name}) <= Pending(catalog, c0) - {n};
    SubsetCard(Pending(catalog, c + {catalog[n].name}), Pending(catalog, c0) - {n});
  }
}
