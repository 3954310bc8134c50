/** Reachability in the prerequisite graph, defined independently of the
    depth-first searches: the catalog names reachable from a start set by
    following prerequisite edges, never entering an avoided name. It is the
    reference the searches' visited sets are proved equal to. */
module Reachability {
  import opened Catalog

  /** Catalog names outside `avoid` that some quest of `s` directly requires. */
  ghost function Step(g: Graph, avoid: set<string>, s: set<string>): set<string> {
    set y | y in g && y !in avoid && exists x :: x in s && x in g && y in g[x].prereqs
  }

  /** `s` is closed under the prerequisite edges that stay in the catalog and
      outside `avoid`. */
  ghost predicate ClosedOutside(g: Graph, avoid: set<string>, s: set<string>) {
    forall x, y :: x in s && x in g && y in g[x].prereqs && y in g && y !in avoid ==> y in s
  }

  /** The names reachable from `s`: `s` grown by Step until nothing new
      appears. */
  ghost function Reach(g: Graph, avoid: set<string>, s: set<string>): (r: set<string>)
    requires s <= g.Keys
    ensures s <= r <= g.Keys
    decreases |g.Keys - s|
  {
    var s' := s + Step(g, avoid, s);
    if s' == s then s
    else
      GrowingShrinksRest(g.Keys, s, s');
      Reach(g, avoid, s')
  }

  lemma GrowingShrinksRest(keys: set<string>, s: set<string>, s': set<string>)
    requires s < s' <= keys
    ensures |keys - s'| < |keys - s|
  {
    assert !(s' <= s);
    var y :| y in s' && y !in s;
    assert keys - s' <= (keys - s) - {y};
    SubsetCard(keys - s', (keys - s) - {y});
  }

  /** What Reach returns is closed. */
  lemma {:induction false} ReachClosed(g: Graph, avoid: set<string>, s: set<string>)
    requires s <= g.Keys
    ensures ClosedOutside(g, avoid, Reach(g, avoid, s))
    decreases |g.Keys - s|
  {
    var s' := s + Step(g, avoid, s);
    if s' == s {
      forall x, y | x in s && x in g && y in g[x].prereqs && y in g && y !in avoid
        ensures y in s
      {
        assert y in Step(g, avoid, s);
      }
    } else {
      GrowingShrinksRest(g.Keys, s, s');
      ReachClosed(g, avoid, s');
    }
  }

  /** Reach never enters the avoided set when the start set does not. */
  lemma {:induction false} ReachOutside(g: Graph, avoid: set<string>, s: set<string>)
    requires s <= g.Keys && s !! avoid
    ensures Reach(g, avoid, s) !! avoid
    decreases |g.Keys - s|
  {
    var s' := s + Step(g, avoid, s);
    if s' != s {
      GrowingShrinksRest(g.Keys, s, s');
      ReachOutside(g, avoid, s');
    }
  }

  /** Reach is the least closed set that contains the start set. */
  lemma {:induction false} ReachLeast(g: Graph, avoid: set<string>, s: set<string>, t: set<string>)
    requires s <= g.Keys && s <= t && ClosedOutside(g, avoid, t)
    ensures Reach(g, avoid, s) <= t
    decreases |g.Keys - s|
  {
    var s' := s + Step(g, avoid, s);
    if s' != s {
      GrowingShrinksRest(g.Keys, s, s');
      forall y | y in Step(g, avoid, s) ensures y in t {
        var x :| x in s && x in g && y in g[x].prereqs;
      }
      ReachLeast(g, avoid, s', t);
    }
  }

  /** Every quest name some quest of `xs` directly requires, whether or not
      the catalog holds it. */
  ghost function DirectNames(g: Graph, xs: set<string>): set<string> {
    set x, y | x in xs && x in g && y in g[x].prereqs :: y
  }

  /** The first step of a search from a prerequisite list: the entries that
      are in the catalog and not avoided. */
  ghost function Start(g: Graph, prereqs: seq<string>, avoid: set<string>): (r: set<string>)
    ensures r <= g.Keys
  {
    set y | y in prereqs && y in g && y !in avoid
  }

  lemma DirectNamesUnion(g: Graph, a: set<string>, b: set<string>)
    ensures DirectNames(g, a + b) == DirectNames(g, a) + DirectNames(g, b)
  {
    forall y | y in DirectNames(g, a + b) ensures y in DirectNames(g, a) + DirectNames(g, b) {
      var x :| x in a + b && x in g && y in g[x].prereqs;
    }
  }

  lemma DirectNamesSingle(g: Graph, n: string)
    requires n in g
    ensures DirectNames(g, {n}) == set y | y in g[n].prereqs
  {
  }
}
