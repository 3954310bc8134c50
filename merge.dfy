/** The max-fold that merges one requirement map into another: for every
    (key, value) of the source map, the value replaces the accumulator's
    when it exceeds the accumulator's value, a missing key counting as 0. */
module Merge {

  /** `m.get(k, 0)`. */
  function Get0(m: map<string, nat>, k: string): nat {
    if k in m then m[k] else 0
  }

  /** Every key of `small` is a key of `big` with at least the same value. */
  ghost predicate Covers(big: map<string, nat>, small: map<string, nat>) {
    forall k :: k in small ==> k in big && small[k] <= big[k]
  }

  /** Every value of `m` is at most what `bound` holds for that key, a missing
      key of `bound` counting as 0 (so a 0 of `m` may be absent from `bound`). */
  ghost predicate Bounded(m: map<string, nat>, bound: map<string, nat>) {
    forall k :: k in m ==> m[k] <= Get0(bound, k)
  }

  /** Each value of `r` is the accumulator's own value for that key or a
      positive value the source map supplied for it. */
  ghost predicate FromEither(r: map<string, nat>, acc: map<string, nat>, sub: map<string, nat>) {
    forall k :: k in r ==>
      (k in acc && r[k] == acc[k]) || (k in sub && r[k] == sub[k] && r[k] > 0)
  }

  /** The accumulator after folding `sub` into `acc`: the accumulator's keys
      are kept, a larger value from `sub` wins, and a key new to the
      accumulator is added only with a positive value. */
  function MaxFold(acc: map<string, nat>, sub: map<string, nat>): (r: map<string, nat>)
    ensures Covers(r, acc)
    ensures Bounded(sub, r)
    ensures FromEither(r, acc, sub)
  {
    map k | k in acc.Keys + sub.Keys && (k in acc || sub[k] > 0)
      :: if k in sub && sub[k] > Get0(acc, k) then sub[k] else acc[k]
  }

  /** The three properties of MaxFold's contract determine its result:
      any map that has them is MaxFold's result. */
  lemma MaxFoldUnique(acc: map<string, nat>, sub: map<string, nat>, r: map<string, nat>)
    requires Covers(r, acc) && Bounded(sub, r) && FromEither(r, acc, sub)
    ensures r == MaxFold(acc, sub)
  {
    var m := MaxFold(acc, sub);
    forall k ensures (k in r <==> k in m) && (k in r ==> r[k] == m[k]) {
      if k in r {
        assert Get0(r, k) == r[k];
      }
      if k in m {
        assert Get0(m, k) == m[k];
      }
    }
  }

  /** For every key, the merged value (a missing key read as 0) is the
      larger of the two inputs' values. */
  lemma MaxFoldGet0(acc: map<string, nat>, sub: map<string, nat>, k: string)
    ensures Get0(MaxFold(acc, sub), k) == if Get0(acc, k) < Get0(sub, k) then Get0(sub, k) else Get0(acc, k)
  {
    var r := MaxFold(acc, sub);
    if k in acc {
      assert k in r;
    }
    if k in sub {
      assert sub[k] <= Get0(r, k);
    }
  }

  /** Folding the same map in twice changes nothing: a prerequisite reached
      along a second path adds nothing once it has been merged. */
  lemma MaxFoldIdempotent(acc: map<string, nat>, sub: map<string, nat>)
    ensures MaxFold(MaxFold(acc, sub), sub) == MaxFold(acc, sub)
  {
    var once := MaxFold(acc, sub);
    MaxFoldUnique(once, sub, once);
  }

  /** The order in which two prerequisites' maps are folded in does not
      matter. */
  lemma MaxFoldCommutes(acc: map<string, nat>, s1: map<string, nat>, s2: map<string, nat>)
    ensures MaxFold(MaxFold(acc, s1), s2) == MaxFold(MaxFold(acc, s2), s1)
  {
    var a := MaxFold(MaxFold(acc, s1), s2);
    var b := MaxFold(MaxFold(acc, s2), s1);
    forall k ensures (k in a <==> k in b) && (k in a ==> a[k] == b[k]) {
      MaxFoldCommutesAt(acc, s1, s2, k);
      if k in a { assert Get0(a, k) == a[k] && Get0(b, k) == b[k]; }
    }
    MapsEqual(a, b);
  }

  lemma MaxFoldCommutesAt(acc: map<string, nat>, s1: map<string, nat>, s2: map<string, nat>, k: string)
    ensures var a := MaxFold(MaxFold(acc, s1), s2);
      var b := MaxFold(MaxFold(acc, s2), s1);
      Get0(a, k) == Get0(b, k) && (k in a <==> k in b)
  {
    MaxFoldGet0(acc, s1, k);
    MaxFoldGet0(MaxFold(acc, s1), s2, k);
    MaxFoldGet0(acc, s2, k);
    MaxFoldGet0(MaxFold(acc, s2), s1, k);
  }

  /** The inner loop over the prerequisite's `(key, value)` items: each item
      whose value exceeds the accumulator's value (0 when missing) is
      written into the accumulator. Items are visited in no fixed order. */
  method MaxFoldInto(acc: map<string, nat>, sub: map<string, nat>) returns (r: map<string, nat>)
    ensures r == MaxFold(acc, sub)
  {
    r := acc;
    var rest := sub.Keys;
    while rest != {}
      invariant rest <= sub.Keys
      invariant r == MaxFold(acc, map k | k in sub && k !in rest :: sub[k])
      decreases rest
    {
      var k :| k in rest;
      ghost var done := map j | j in sub && j !in rest :: sub[j];
      ghost var done' := map j | j in sub && j !in rest - {k} :: sub[j];
      if sub[k] > Get0(r, k) {
        r := r[k := sub[k]];
      }
      MaxFoldStep(acc, done, done', k, sub[k]);
      rest := rest - {k};
    }
    assert (map k | k in sub && k !in rest :: sub[k]) == sub;
  }

  /** One item of the inner loop: folding `done` and then the single item
      (k, v) is folding `done` extended with that item. */
  lemma MaxFoldStep(acc: map<string, nat>, done: map<string, nat>, done': map<string, nat>, k: string, v: nat)
    requires k !in done && done' == done[k := v]
    ensures (if v > Get0(MaxFold(acc, done), k) then MaxFold(acc, done)[k := v] else MaxFold(acc, done))
            == MaxFold(acc, done')
  {
    var before := MaxFold(acc, done);
    var after := if v > Get0(before, k) then before[k := v] else before;
    var r := MaxFold(acc, done');
    forall j ensures (j in after <==> j in r) && (j in after ==> after[j] == r[j]) {
      MaxFoldStepAt(acc, done, done', k, v, j);
    }
    MapsEqual(after, r);
  }

  lemma MapsEqual(a: map<string, nat>, b: map<string, nat>)
    requires forall j :: (j in a <==> j in b) && (j in a ==> a[j] == b[j])
    ensures a == b
  {
  }

  lemma MaxFoldStepAt(acc: map<string, nat>, done: map<string, nat>, done': map<string, nat>, k: string, v: nat, j: string)
    requires k !in done && done' == done[k := v]
    ensures var before := MaxFold(acc, done);
      var after := if v > Get0(before, k) then before[k := v] else before;
      var r := MaxFold(acc, done');
      (j in after <==> j in r) && (j in after ==> after[j] == r[j])
  {
    var before := MaxFold(acc, done);
    var after := if v > Get0(before, k) then before[k := v] else before;
    var r := MaxFold(acc, done');
    MaxFoldGet0(acc, done, j);
    MaxFoldGet0(acc, done', j);
    if j in after { assert Get0(after, j) == after[j]; }
    if j in r { assert Get0(r, j) == r[j]; }
  }
}
