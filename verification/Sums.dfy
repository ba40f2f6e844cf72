/** Sums over the values of a map, as counters kept per key. */
module Sums {

  function Plus(m: map<string, int>, key: string, amount: int): map<string, int> {
    m[key := (if key in m then m[key] else 0) + amount]
  }

  /** The sum of a map's values. */
  ghost function SumValues(m: map<string, int>): int
    decreases |m|
  {
    if m == map[] then 0
    else
      var k :| k in m;
      m[k] + SumValues(m - {k})
  }

  lemma {:induction false} SumSplits(m: map<string, int>, k: string)
    requires k in m
    ensures SumValues(m) == m[k] + SumValues(m - {k})
    decreases |m|
  {
    var j :| j in m && SumValues(m) == m[j] + SumValues(m - {j});
    if j != k {
      SumSplits(m - {j}, k);
      SumSplits(m - {k}, j);
      assert (m - {j}) - {k} == (m - {k}) - {j};
    }
  }

  /** Counting up under one key counts up the sum. */
  lemma SumOfPlus(m: map<string, int>, key: string, amount: int)
    ensures SumValues(Plus(m, key, amount)) == SumValues(m) + amount
  {
    var after := Plus(m, key, amount);
    SumSplits(after, key);
    if key in m {
      SumSplits(m, key);
      assert after - {key} == m - {key};
    } else {
      assert after - {key} == m;
    }
  }
}
