/** What the searches compute, proved about the functions of Resolver.

    On a well-formed catalog (every quest stored under its own name), a
    search started at query `q` with `checked` set `C` visits exactly the
    catalog names reachable from `q` without entering `C` or `q` itself; its
    prerequisite result is every name those quests directly require; its
    max-folded result is, key by key, the maximum of the values `q` and the
    visited quests declare. */
module ResolverProperties {
  import opened Quests
  import opened Merge
  import opened Catalog
  import opened Resolver
  import opened Reachability

  /** Every catalog prerequisite of a quest of `v` is in `c`. */
  ghost predicate Saturated(g: Graph, v: set<string>, c: set<string>) {
    forall w, y :: w in v && w in g && y in g[w].prereqs && y in g ==> y in c
  }

  lemma WellFormedNames(g: Graph)
    requires WellFormed(g)
    ensures Names(g) == g.Keys
  {
    forall k | k in g ensures k in Names(g) {
      assert g[k].name == k;
    }
  }

  // ---------------------------------------------------------------------
  // The prerequisite search

  /** What the loop over `prereqs` from position `i` on, with accumulator
      `acc` and `checked` set `d`, returns as `r`, given a set `s` closed
      outside `d` that holds the prerequisites still to be explored: the
      names it newly checks lie in `s`; the prerequisites of everything it
      checks are checked; its result adds the direct prerequisites of what
      it newly checked. */
  ghost predicate QuestFacts(g: Graph, prereqs: seq<string>, i: nat, acc: set<string>, d: set<string>, s: set<string>, r: QuestSearch) {
    && d <= r.checked <= d + g.Keys
    && Saturated(g, r.checked - d, r.checked)
    && (forall j :: i <= j < |prereqs| && prereqs[j] in g ==> prereqs[j] in r.checked)
    && r.checked - d <= s
    && r.reqs == acc + DirectNames(g, r.checked - d)
  }

  lemma {:induction false} QuestLoopFacts(g: Graph, prereqs: seq<string>, i: nat, acc: set<string>, d: set<string>, s: set<string>)
    requires WellFormed(g) && i <= |prereqs|
    requires ClosedOutside(g, d, s)
    requires forall j :: i <= j < |prereqs| && prereqs[j] in g && prereqs[j] !in d ==> prereqs[j] in s
    ensures QuestFacts(g, prereqs, i, acc, d, s, QuestLoop(g, prereqs, i, acc, d))
    decreases |Names(g) - d|, |prereqs| - i, 1
  {
    if i == |prereqs| {
      assert DirectNames(g, {}) == {};
    } else if prereqs[i] in g && prereqs[i] !in d {
      QuestLoopVisitFacts(g, prereqs, i, acc, d, s);
    } else {
      WellFormedNames(g);
      QuestLoopFacts(g, prereqs, i + 1, acc, d, s);
      assert QuestLoop(g, prereqs, i, acc, d) == QuestLoop(g, prereqs, i + 1, acc, d);
    }
  }

  /** QuestLoopFacts when `prereqs[i]` is explored. */
  lemma {:induction false} QuestLoopVisitFacts(g: Graph, prereqs: seq<string>, i: nat, acc: set<string>, d: set<string>, s: set<string>)
    requires WellFormed(g) && i < |prereqs| && prereqs[i] in g && prereqs[i] !in d
    requires ClosedOutside(g, d, s)
    requires forall j :: i <= j < |prereqs| && prereqs[j] in g && prereqs[j] !in d ==> prereqs[j] in s
    ensures QuestFacts(g, prereqs, i, acc, d, s, QuestLoop(g, prereqs, i, acc, d))
    decreases |Names(g) - d|, |prereqs| - i, 0
  {
    var n := prereqs[i];
    WellFormedNames(g);
    assert g[n].name == n;
    OneMoreChecked(Names(g), d, n);
    var d1 := d + {n};
    var sub := QuestLoop(g, g[n].prereqs, 0, Elems(g[n].prereqs), d1);
    QuestLoopFacts(g, g[n].prereqs, 0, Elems(g[n].prereqs), d1, s);
    FewerUnchecked(Names(g), d, sub.checked);
    var r := QuestLoop(g, prereqs, i + 1, acc + sub.reqs, sub.checked);
    QuestLoopFacts(g, prereqs, i + 1, acc + sub.reqs, sub.checked, s);
    assert r == QuestLoop(g, prereqs, i, acc, d);
    QuestStepFacts(g, prereqs, i, acc, d, s, sub, r);
  }

  /** The step that explores `prereqs[i]`: what the exploration returns as
      `sub` and what the rest of the loop returns as `r` combine. */
  lemma QuestStepFacts(g: Graph, prereqs: seq<string>, i: nat, acc: set<string>, d: set<string>, s: set<string>,
                       sub: QuestSearch, r: QuestSearch)
    requires WellFormed(g) && i < |prereqs| && prereqs[i] in g && prereqs[i] !in d
    requires ClosedOutside(g, d, s)
    requires forall j :: i <= j < |prereqs| && prereqs[j] in g && prereqs[j] !in d ==> prereqs[j] in s
    requires var n := prereqs[i];
      QuestFacts(g, g[n].prereqs, 0, Elems(g[n].prereqs), d + {n}, s, sub)
    requires QuestFacts(g, prereqs, i + 1, acc + sub.reqs, sub.checked, s, r)
    ensures QuestFacts(g, prereqs, i, acc, d, s, r)
  {
    var n := prereqs[i];
    var d1 := d + {n};
    var v1 := sub.checked - d;
    assert v1 == {n} + (sub.checked - d1);
    DirectNamesUnion(g, {n}, sub.checked - d1);
    DirectNamesSingle(g, n);
    assert sub.reqs == DirectNames(g, v1);
    assert r.checked - d == v1 + (r.checked - sub.checked);
    DirectNamesUnion(g, v1, r.checked - sub.checked);
    forall w, y | w in r.checked - d && w in g && y in g[w].prereqs && y in g
      ensures y in r.checked
    {
      if w == n {
        var j :| 0 <= j < |g[n].prereqs| && g[n].prereqs[j] == y;
      }
    }
    forall j | i <= j < |prereqs| && prereqs[j] in g ensures prereqs[j] in r.checked {
      if j == i {
        assert n in sub.checked;
      }
    }
  }

  /** The prerequisite search from query `q` with `checked` set `c` checks
      exactly `q` and the catalog names reachable from it (never entering
      `c` or `q`), and returns every name those quests and `q` directly
      require, whether or not the catalog holds it. */
  lemma {:induction false} QuestSearchClosure(g: Graph, q: Quest, c: set<string>)
    requires WellFormed(g)
    ensures var a := c + {q.name};
      var reach := Reach(g, a, Start(g, q.questReq, a));
      var r := QuestVisit(g, q, c);
      r.checked == a + reach && r.reqs == Elems(q.questReq) + DirectNames(g, reach)
  {
    var a := c + {q.name};
    var start := Start(g, q.questReq, a);
    var reach := Reach(g, a, start);
    var r := QuestLoop(g, q.questReq, 0, Elems(q.questReq), a);
    ReachClosed(g, a, start);
    QuestLoopFacts(g, q.questReq, 0, Elems(q.questReq), a, reach);
    var v := r.checked - a;
    assert ClosedOutside(g, a, v);
    forall y | y in start ensures y in v {
      var j :| 0 <= j < |q.questReq| && q.questReq[j] == y;
    }
    ReachLeast(g, a, start, v);
    assert v == reach;
  }

  // ---------------------------------------------------------------------
  // The max-folding searches

  /** A max-folding search checks the same names as the prerequisite search:
      merging maps never changes what is explored. */
  lemma {:induction false} MaxLoopChecked(g: Graph, st: Store, prereqs: seq<string>, i: nat,
                                          acc: map<string, nat>, acc0: set<string>, d: set<string>)
    requires st.Keys == g.Keys && i <= |prereqs|
    ensures MaxLoop(g, st, prereqs, i, acc, d).checked == QuestLoop(g, prereqs, i, acc0, d).checked
    decreases |Names(g) - d|, |prereqs| - i, 1
  {
    if i == |prereqs| {
    } else if prereqs[i] in g && g[prereqs[i]].name !in d {
      MaxLoopVisitChecked(g, st, prereqs, i, acc, acc0, d);
    } else {
      MaxLoopChecked(g, st, prereqs, i + 1, acc, acc0, d);
      assert MaxLoop(g, st, prereqs, i, acc, d) == MaxLoop(g, st, prereqs, i + 1, acc, d);
      assert QuestLoop(g, prereqs, i, acc0, d) == QuestLoop(g, prereqs, i + 1, acc0, d);
    }
  }

  /** MaxLoopChecked when `prereqs[i]` is explored. */
  lemma {:induction false} MaxLoopVisitChecked(g: Graph, st: Store, prereqs: seq<string>, i: nat,
                                              acc: map<string, nat>, acc0: set<string>, d: set<string>)
    requires st.Keys == g.Keys && i < |prereqs| && prereqs[i] in g && g[prereqs[i]].name !in d
    ensures MaxLoop(g, st, prereqs, i, acc, d).checked == QuestLoop(g, prereqs, i, acc0, d).checked
    decreases |Names(g) - d|, |prereqs| - i, 0
  {
    var n := prereqs[i];
    var d1 := d + {g[n].name};
    assert g[n].name in Names(g);
    OneMoreChecked(Names(g), d, g[n].name);
    var sub := MaxLoop(g, st, g[n].prereqs, 0, st[n], d1);
    var sub0 := QuestLoop(g, g[n].prereqs, 0, Elems(g[n].prereqs), d1);
    MaxLoopChecked(g, st, g[n].prereqs, 0, st[n], Elems(g[n].prereqs), d1);
    FewerUnchecked(Names(g), d, sub.checked);
    MaxLoopChecked(g, sub.store[n := sub.reqs], prereqs, i + 1, MaxFold(acc, sub.reqs), acc0 + sub0.reqs, sub.checked);
    assert MaxLoop(g, st, prereqs, i, acc, d) == MaxLoop(g, sub.store[n := sub.reqs], prereqs, i + 1, MaxFold(acc, sub.reqs), sub.checked);
    assert QuestLoop(g, prereqs, i, acc0, d) == QuestLoop(g, prereqs, i + 1, acc0 + sub0.reqs, sub0.checked);
  }

  /** Only the stored maps of quests whose names are in `v` differ. */
  ghost predicate FrameOutside(g: Graph, v: set<string>, st: Store, st': Store) {
    forall k :: k in g && g[k].name !in v ==> k in st && k in st' && st'[k] == st[k]
  }

  /** A max-folding search changes only the stored maps of the quests it
      newly checks. */
  lemma {:induction false} MaxLoopFrame(g: Graph, st: Store, prereqs: seq<string>, i: nat, acc: map<string, nat>, d: set<string>)
    requires st.Keys == g.Keys && i <= |prereqs|
    ensures var r := MaxLoop(g, st, prereqs, i, acc, d);
      FrameOutside(g, r.checked - d, st, r.store)
    decreases |Names(g) - d|, |prereqs| - i, 1
  {
    if i == |prereqs| {
    } else if prereqs[i] in g && g[prereqs[i]].name !in d {
      MaxLoopVisitFrame(g, st, prereqs, i, acc, d);
    } else {
      MaxLoopFrame(g, st, prereqs, i + 1, acc, d);
      assert MaxLoop(g, st, prereqs, i, acc, d) == MaxLoop(g, st, prereqs, i + 1, acc, d);
    }
  }

  /** MaxLoopFrame when `prereqs[i]` is explored. */
  lemma {:induction false} MaxLoopVisitFrame(g: Graph, st: Store, prereqs: seq<string>, i: nat, acc: map<string, nat>, d: set<string>)
    requires st.Keys == g.Keys && i < |prereqs| && prereqs[i] in g && g[prereqs[i]].name !in d
    ensures var r := MaxLoop(g, st, prereqs, i, acc, d);
      FrameOutside(g, r.checked - d, st, r.store)
    decreases |Names(g) - d|, |prereqs| - i, 0
  {
    var n := prereqs[i];
    var d1 := d + {g[n].name};
    assert g[n].name in Names(g);
    OneMoreChecked(Names(g), d, g[n].name);
    var sub := MaxLoop(g, st, g[n].prereqs, 0, st[n], d1);
    MaxLoopFrame(g, st, g[n].prereqs, 0, st[n], d1);
    FewerUnchecked(Names(g), d, sub.checked);
    var st' := sub.store[n := sub.reqs];
    var r := MaxLoop(g, st', prereqs, i + 1, MaxFold(acc, sub.reqs), sub.checked);
    MaxLoopFrame(g, st', prereqs, i + 1, MaxFold(acc, sub.reqs), sub.checked);
    assert r == MaxLoop(g, st, prereqs, i, acc, d);
    FrameStep(g, st, n, d, sub, r);
  }

  lemma FrameStep(g: Graph, st: Store, n: string, d: set<string>, sub: MaxSearch, r: MaxSearch)
    requires n in g && g[n].name !in d && d + {g[n].name} <= sub.checked <= r.checked
    requires FrameOutside(g, sub.checked - (d + {g[n].name}), st, sub.store)
    requires FrameOutside(g, r.checked - sub.checked, sub.store[n := sub.reqs], r.store)
    ensures FrameOutside(g, r.checked - d, st, r.store)
  {
    forall k | k in g && g[k].name !in r.checked - d ensures k in st && k in r.store && r.store[k] == st[k] {
      assert k != n;
    }
  }

  /** Where nothing has been checked (outside `d`), the current store `st`
      still holds the original maps `st0`. */
  ghost predicate Unvisited(g: Graph, st0: Store, st: Store, d: set<string>) {
    forall k :: k in g && k !in d ==> k in st0 && k in st && st[k] == st0[k]
  }

  /** The original map of every quest of `v` is bounded by `m`. */
  ghost predicate BoundsAll(st0: Store, v: set<string>, m: map<string, nat>) {
    forall w :: w in v && w in st0 ==> Bounded(st0[w], m)
  }

  /** Some quest of `v` originally declares value `x` for key `k`. */
  ghost predicate DeclaredBy(st0: Store, v: set<string>, k: string, x: nat) {
    exists w :: w in v && w in st0 && k in st0[w] && st0[w][k] == x
  }

  /** Each value of `m` is the starting map's own value, or a positive value
      some quest of `v` declares. */
  ghost predicate Attained(st0: Store, v: set<string>, base: map<string, nat>, m: map<string, nat>) {
    forall k :: k in m ==> (k in base && m[k] == base[k]) || (m[k] > 0 && DeclaredBy(st0, v, k, m[k]))
  }

  /** The map now stored for each quest of `v` keeps that quest's original
      keys and values or raises them, and stays within `m`. */
  ghost predicate WrittenBack(st0: Store, v: set<string>, st: Store, m: map<string, nat>) {
    forall w :: w in v && w in st0 ==> w in st && Covers(st[w], st0[w]) && Bounded(st[w], m)
  }

  /** What a loop with accumulator `acc` and `checked` set `d` returns as
      `r`: the result keeps `acc`, bounds the original map of everything
      newly checked and takes each value from one of them. */
  ghost predicate MaxValues(st0: Store, acc: map<string, nat>, d: set<string>, r: MaxSearch) {
    && BoundsAll(st0, r.checked - d, r.reqs)
    && Covers(r.reqs, acc)
    && Attained(st0, r.checked - d, acc, r.reqs)
  }

  lemma CoversTrans(a: map<string, nat>, b: map<string, nat>, c: map<string, nat>)
    requires Covers(a, b) && Covers(b, c)
    ensures Covers(a, c)
  {
  }

  lemma BoundedByCover(m: map<string, nat>, b: map<string, nat>, a: map<string, nat>)
    requires Bounded(m, b) && Covers(a, b)
    ensures Bounded(m, a)
  {
    forall k | k in m ensures m[k] <= Get0(a, k) {
      if k in b { assert Get0(b, k) == b[k]; }
    }
  }

  lemma BoundedTrans(m: map<string, nat>, b: map<string, nat>, a: map<string, nat>)
    requires Bounded(m, b) && Bounded(b, a)
    ensures Bounded(m, a)
  {
    forall k | k in m ensures m[k] <= Get0(a, k) {
      if k in b { assert Get0(b, k) == b[k]; }
    }
  }

  lemma CoveredBounded(m: map<string, nat>, a: map<string, nat>)
    requires Covers(a, m)
    ensures Bounded(m, a)
  {
    forall k | k in m ensures m[k] <= Get0(a, k) {
      assert k in a;
    }
  }

  /** Exploring prerequisite `n` with `checked` set `d`, then storing its
      merged map: the store goes on agreeing with the original wherever
      nothing has been checked. */
  lemma AfterExplore(g: Graph, st0: Store, st: Store, n: string, d: set<string>)
    requires WellFormed(g) && st0.Keys == g.Keys && st.Keys == g.Keys && Unvisited(g, st0, st, d)
    requires n in g && n !in d
    ensures var sub := MaxLoop(g, st, g[n].prereqs, 0, st[n], d + {n});
      && g[n].name == n
      && st[n] == st0[n]
      && |Names(g) - (d + {n})| < |Names(g) - d|
      && |Names(g) - sub.checked| <= |Names(g) - d|
      && Unvisited(g, st0, sub.store[n := sub.reqs], sub.checked)
  {
    WellFormedNames(g);
    OneMoreChecked(Names(g), d, n);
    var sub := MaxLoop(g, st, g[n].prereqs, 0, st[n], d + {n});
    MaxLoopFrame(g, st, g[n].prereqs, 0, st[n], d + {n});
    FewerUnchecked(Names(g), d, sub.checked);
    forall k | k in g && k !in sub.checked ensures sub.store[n := sub.reqs][k] == st0[k] {
      assert g[k].name == k;
    }
  }

  /** The loop over `prereqs` from position `i` on, with accumulator `acc`
      and `checked` set `d`, on a store `st` that is still the original
      `st0` outside `d`. */
  lemma {:induction false} MaxLoopValues(g: Graph, st0: Store, st: Store, prereqs: seq<string>, i: nat, acc: map<string, nat>, d: set<string>)
    requires WellFormed(g) && st0.Keys == g.Keys && st.Keys == g.Keys && Unvisited(g, st0, st, d)
    requires i <= |prereqs|
    ensures MaxValues(st0, acc, d, MaxLoop(g, st, prereqs, i, acc, d))
    decreases |Names(g) - d|, |prereqs| - i, 1
  {
    if i == |prereqs| {
    } else if prereqs[i] in g && g[prereqs[i]].name !in d {
      MaxLoopVisitValues(g, st0, st, prereqs, i, acc, d);
    } else {
      MaxLoopValues(g, st0, st, prereqs, i + 1, acc, d);
      assert MaxLoop(g, st, prereqs, i, acc, d) == MaxLoop(g, st, prereqs, i + 1, acc, d);
    }
  }

  /** MaxLoopValues when `prereqs[i]` is explored. */
  lemma {:induction false} MaxLoopVisitValues(g: Graph, st0: Store, st: Store, prereqs: seq<string>, i: nat, acc: map<string, nat>, d: set<string>)
    requires WellFormed(g) && st0.Keys == g.Keys && st.Keys == g.Keys && Unvisited(g, st0, st, d)
    requires i < |prereqs| && prereqs[i] in g && g[prereqs[i]].name !in d
    ensures MaxValues(st0, acc, d, MaxLoop(g, st, prereqs, i, acc, d))
    decreases |Names(g) - d|, |prereqs| - i, 0
  {
    var n := prereqs[i];
    assert g[n].name == n;
    AfterExplore(g, st0, st, n, d);
    var d1 := d + {n};
    var sub := MaxLoop(g, st, g[n].prereqs, 0, st[n], d1);
    MaxLoopValues(g, st0, st, g[n].prereqs, 0, st[n], d1);
    var st' := sub.store[n := sub.reqs];
    var acc1 := MaxFold(acc, sub.reqs);
    var r := MaxLoop(g, st', prereqs, i + 1, acc1, sub.checked);
    MaxLoopValues(g, st0, st', prereqs, i + 1, acc1, sub.checked);
    assert r == MaxLoop(g, st, prereqs, i, acc, d);
    ValuesStep(st0, n, acc, d, sub, r);
  }

  /** The step that explores quest `n`: what the exploration returns as
      `sub` and what the rest of the loop returns as `r` combine. */
  lemma ValuesStep(st0: Store, n: string, acc: map<string, nat>, d: set<string>, sub: MaxSearch, r: MaxSearch)
    requires n in st0 && n !in d && d + {n} <= sub.checked <= r.checked
    requires MaxValues(st0, st0[n], d + {n}, sub)
    requires MaxValues(st0, MaxFold(acc, sub.reqs), sub.checked, r)
    ensures MaxValues(st0, acc, d, r)
  {
    var d1 := d + {n};
    var acc1 := MaxFold(acc, sub.reqs);
    var v1 := sub.checked - d;
    var v2 := r.checked - sub.checked;
    var v := r.checked - d;
    assert v1 == {n} + (sub.checked - d1);
    assert v == v1 + v2;
    CoversTrans(r.reqs, acc1, acc);
    BoundedByCover(sub.reqs, acc1, r.reqs);
    forall w | w in v && w in st0 ensures Bounded(st0[w], r.reqs) {
      if w == n {
        CoveredBounded(st0[n], sub.reqs);
        BoundedTrans(st0[n], sub.reqs, r.reqs);
      } else if w in v1 {
        BoundedTrans(st0[w], sub.reqs, r.reqs);
      }
    }
    forall k | k in r.reqs && !(k in acc && r.reqs[k] == acc[k])
      ensures r.reqs[k] > 0 && DeclaredBy(st0, v, k, r.reqs[k])
    {
      var x := r.reqs[k];
      if k in acc1 && x == acc1[k] {
        assert k in sub.reqs && x == sub.reqs[k] && x > 0;
        if k in st0[n] && x == st0[n][k] {
          assert n in v;
        } else {
          var w :| w in sub.checked - d1 && w in st0 && k in st0[w] && st0[w][k] == x;
          assert w in v;
        }
      } else {
        var w :| w in v2 && w in st0 && k in st0[w] && st0[w][k] == x;
        assert w in v;
      }
    }
  }

  /** The loop leaves each newly checked quest storing a map that keeps its
      original values or raises them and stays within the result. */
  lemma {:induction false} MaxLoopWritten(g: Graph, st0: Store, st: Store, prereqs: seq<string>, i: nat, acc: map<string, nat>, d: set<string>)
    requires WellFormed(g) && st0.Keys == g.Keys && st.Keys == g.Keys && Unvisited(g, st0, st, d)
    requires i <= |prereqs|
    ensures var r := MaxLoop(g, st, prereqs, i, acc, d);
      WrittenBack(st0, r.checked - d, r.store, r.reqs)
    decreases |Names(g) - d|, |prereqs| - i, 1
  {
    if i == |prereqs| {
    } else if prereqs[i] in g && g[prereqs[i]].name !in d {
      MaxLoopVisitWritten(g, st0, st, prereqs, i, acc, d);
    } else {
      MaxLoopWritten(g, st0, st, prereqs, i + 1, acc, d);
      assert MaxLoop(g, st, prereqs, i, acc, d) == MaxLoop(g, st, prereqs, i + 1, acc, d);
    }
  }

  /** MaxLoopWritten when `prereqs[i]` is explored. */
  lemma {:induction false} MaxLoopVisitWritten(g: Graph, st0: Store, st: Store, prereqs: seq<string>, i: nat, acc: map<string, nat>, d: set<string>)
    requires WellFormed(g) && st0.Keys == g.Keys && st.Keys == g.Keys && Unvisited(g, st0, st, d)
    requires i < |prereqs| && prereqs[i] in g && g[prereqs[i]].name !in d
    ensures var r := MaxLoop(g, st, prereqs, i, acc, d);
      WrittenBack(st0, r.checked - d, r.store, r.reqs)
    decreases |Names(g) - d|, |prereqs| - i, 0
  {
    var n := prereqs[i];
    assert g[n].name == n;
    AfterExplore(g, st0, st, n, d);
    var d1 := d + {n};
    var sub := MaxLoop(g, st, g[n].prereqs, 0, st[n], d1);
    MaxLoopValues(g, st0, st, g[n].prereqs, 0, st[n], d1);
    MaxLoopWritten(g, st0, st, g[n].prereqs, 0, st[n], d1);
    var st' := sub.store[n := sub.reqs];
    var acc1 := MaxFold(acc, sub.reqs);
    var r := MaxLoop(g, st', prereqs, i + 1, acc1, sub.checked);
    MaxLoopValues(g, st0, st', prereqs, i + 1, acc1, sub.checked);
    MaxLoopWritten(g, st0, st', prereqs, i + 1, acc1, sub.checked);
    MaxLoopFrame(g, st', prereqs, i + 1, acc1, sub.checked);
    assert r == MaxLoop(g, st, prereqs, i, acc, d);
    WrittenStep(g, st0, n, acc, d, sub, r);
  }

  /** The step that explores quest `n`, for WrittenBack. */
  lemma WrittenStep(g: Graph, st0: Store, n: string, acc: map<string, nat>, d: set<string>, sub: MaxSearch, r: MaxSearch)
    requires WellFormed(g) && st0.Keys == g.Keys && n in g && n !in d && d + {n} <= sub.checked <= r.checked
    requires MaxValues(st0, st0[n], d + {n}, sub)
    requires WrittenBack(st0, sub.checked - (d + {n}), sub.store, sub.reqs)
    requires MaxValues(st0, MaxFold(acc, sub.reqs), sub.checked, r)
    requires WrittenBack(st0, r.checked - sub.checked, r.store, r.reqs)
    requires FrameOutside(g, r.checked - sub.checked, sub.store[n := sub.reqs], r.store)
    ensures WrittenBack(st0, r.checked - d, r.store, r.reqs)
  {
    var st' := sub.store[n := sub.reqs];
    BoundedByCover(sub.reqs, MaxFold(acc, sub.reqs), r.reqs);
    forall w | w in sub.checked - d && w in st0
      ensures w in r.store && Covers(r.store[w], st0[w]) && Bounded(r.store[w], r.reqs)
    {
      assert g[w].name == w;
      assert r.store[w] == st'[w];
      if w != n {
        BoundedTrans(sub.store[w], sub.reqs, r.reqs);
      }
    }
  }

  /** The max-folding search over facet `f` from query `q` with `checked`
      set `c`, on store `st0` (the catalog's maps of facet `f`), checks
      exactly `q` and the catalog names reachable from it (never entering
      `c` or `q`). Its result keeps `q`'s own keys with at least `q`'s
      values, is at least every value a reached quest declares (a missing
      key counting as 0), and each of its values is `q`'s own or a positive
      value some reached quest declares: for every key it holds, the
      maximum over `q` and the reached quests. Only the reached quests'
      maps change, each now keeping its own values or raising them and
      staying within the result. */
  lemma {:induction false} MaxSearchClosure(f: Facet, g: Graph, st0: Store, q: Quest, c: set<string>)
    requires WellFormed(g) && st0.Keys == g.Keys
    ensures var a := c + {q.name};
      var reach := Reach(g, a, Start(g, q.questReq, a));
      var r := MaxVisit(f, g, st0, q, c);
      && r.checked == a + reach
      && MaxValues(st0, GetFacet(f, q), a, r)
      && BoundsAll(st0, reach, r.reqs)
      && Attained(st0, reach, GetFacet(f, q), r.reqs)
      && (forall k :: k in g && k !in reach ==> r.store[k] == st0[k])
      && WrittenBack(st0, reach, r.store, r.reqs)
  {
    var a := c + {q.name};
    var start := Start(g, q.questReq, a);
    var reach := Reach(g, a, start);
    var r := MaxVisit(f, g, st0, q, c);
    assert r == MaxLoop(g, st0, q.questReq, 0, GetFacet(f, q), a);
    MaxLoopChecked(g, st0, q.questReq, 0, GetFacet(f, q), Elems(q.questReq), a);
    QuestSearchClosure(g, q, c);
    ReachOutside(g, a, start);
    MaxLoopValues(g, st0, st0, q.questReq, 0, GetFacet(f, q), a);
    MaxLoopWritten(g, st0, st0, q.questReq, 0, GetFacet(f, q), a);
    MaxLoopFrame(g, st0, q.questReq, 0, GetFacet(f, q), a);
    ClosureOfLoop(g, st0, a, reach, GetFacet(f, q), r);
  }

  /** MaxSearchClosure once the newly checked set is known to be `reach`. */
  lemma ClosureOfLoop(g: Graph, st0: Store, a: set<string>, reach: set<string>, base: map<string, nat>, r: MaxSearch)
    requires WellFormed(g) && st0.Keys == g.Keys
    requires r.checked == a + reach && reach !! a
    requires MaxValues(st0, base, a, r)
    requires WrittenBack(st0, r.checked - a, r.store, r.reqs)
    requires FrameOutside(g, r.checked - a, st0, r.store)
    ensures BoundsAll(st0, reach, r.reqs)
    ensures Attained(st0, reach, base, r.reqs)
    ensures forall k :: k in g && k !in reach ==> r.store[k] == st0[k]
    ensures WrittenBack(st0, reach, r.store, r.reqs)
  {
    assert r.checked - a == reach;
    forall k | k in g && k !in reach ensures r.store[k] == st0[k] {
      assert g[k].name == k;
    }
  }
}
