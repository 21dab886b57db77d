/** Counter dictionaries: a `dict` whose values are raised with `d[k] = d.get(k, 0) + 1`. */
module Counting {

  /** `d.get(k, 0)`. */
  function Get(m: map<string, nat>, k: string): nat
  {
    if k in m then m[k] else 0
  }

  /** The counter obtained from a dictionary pre-seeded with the keys of `seed` at 0 after counting
      every element of `xs` once: each key seen or seeded maps to its number of occurrences. */
  function Tally(seed: set<string>, xs: seq<string>): map<string, nat>
  {
    map k | k in seed + (set x | x in xs) :: multiset(xs)[k]
  }

  /** Counting one more element raises exactly its own key by one, adding the key if it was new. */
  lemma TallySnoc(seed: set<string>, xs: seq<string>, x: string)
    ensures Tally(seed, xs + [x]) == Tally(seed, xs)[x := Get(Tally(seed, xs), x) + 1]
  {
    var m, m' := Tally(seed, xs), Tally(seed, xs + [x]);
    assert multiset(xs + [x]) == multiset(xs) + multiset{x};
    assert (set y | y in xs + [x]) == (set y | y in xs) + {x};
    if x !in m {
      assert x !in xs;
    }
    assert m'.Keys == m.Keys + {x};
  }

  /** The sum of the values of a counter. */
  ghost function SumValues(m: map<string, nat>): nat
    decreases |m.Keys|
  {
    if m == map[] then 0
    else
      var k :| k in m;
      assert (m - {k}).Keys < m.Keys;
      m[k] + SumValues(m - {k})
  }

  /** The sum does not depend on which key is taken first. */
  lemma {:induction false} SumValuesRemove(m: map<string, nat>, k: string)
    requires k in m
    ensures SumValues(m) == m[k] + SumValues(m - {k})
    decreases |m.Keys|
  {
    var j :| j in m && SumValues(m) == m[j] + SumValues(m - {j});
    if j != k {
      assert (m - {j}).Keys < m.Keys && (m - {k}).Keys < m.Keys;
      SumValuesRemove(m - {j}, k);
      SumValuesRemove(m - {k}, j);
      assert m - {j} - {k} == m - {k} - {j};
    }
  }

  /** Raising one key by one raises the sum by one. */
  lemma SumValuesBump(m: map<string, nat>, k: string)
    ensures SumValues(m[k := Get(m, k) + 1]) == SumValues(m) + 1
  {
    var m' := m[k := Get(m, k) + 1];
    SumValuesRemove(m', k);
    assert m' - {k} == m - {k};
    if k in m {
      SumValuesRemove(m, k);
    } else {
      assert m - {k} == m;
    }
  }

  /** A counter at zero everywhere sums to zero. */
  lemma {:induction false} SumValuesZero(m: map<string, nat>)
    requires forall k :: k in m ==> m[k] == 0
    ensures SumValues(m) == 0
    decreases |m.Keys|
  {
    if m != map[] {
      var k :| k in m;
      SumValuesRemove(m, k);
      assert (m - {k}).Keys < m.Keys;
      SumValuesZero(m - {k});
    }
  }

  /** Every counted element adds exactly one: the counter sums to the number of elements, whatever
      keys it was seeded with. */
  lemma {:induction false} TallySum(seed: set<string>, xs: seq<string>)
    ensures SumValues(Tally(seed, xs)) == |xs|
    decreases |xs|
  {
    if xs == [] {
      SumValuesZero(Tally(seed, xs));
    } else {
      var init, x := xs[..|xs| - 1], xs[|xs| - 1];
      assert xs == init + [x];
      TallySum(seed, init);
      TallySnoc(seed, init, x);
      SumValuesBump(Tally(seed, init), x);
    }
  }

  /** The keys of a counter are the seeded keys and the counted elements; a key that was counted
      has a positive count, and a seeded key that was not counted stays at zero. */
  lemma TallyKeys(seed: set<string>, xs: seq<string>)
    ensures forall k :: k in Tally(seed, xs) <==> k in seed || k in xs
    ensures forall k :: k in xs ==> Tally(seed, xs)[k] > 0
    ensures forall k :: k in seed && k !in xs ==> Tally(seed, xs)[k] == 0
  {
  }
}
