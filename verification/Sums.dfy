// Sums over the values of a finite map, in no particular order.
module Sums {
  // All that makes the order of the summands irrelevant.
  ghost predicate Swaps<R(!new)>(plus: (R, R) -> R) {
    forall a, b, c :: plus(a, plus(b, c)) == plus(b, plus(a, c))
  }

  ghost function Sum<K, V, R>(m: map<K, V>, weight: V -> R, plus: (R, R) -> R, zero: R): R
    decreases |m|
  {
    if m == map[] then zero
    else
      var k :| k in m;
      assert |m - {k}| < |m| by { Shrinks(m, k); }
      plus(weight(m[k]), Sum(m - {k}, weight, plus, zero))
  }

  lemma Shrinks<K, V>(m: map<K, V>, k: K)
    requires k in m
    ensures |m - {k}| == |m| - 1
  {
    assert (m - {k}).Keys == m.Keys - {k};
    assert |m.Keys| == |m|;
    assert |(m - {k}).Keys| == |m - {k}|;
  }

  lemma RemoveTwo<K, V>(m: map<K, V>, a: K, b: K)
    ensures (m - {a}) - {b} == (m - {b}) - {a} == m - {a, b}
  {
  }

  // Any key can be taken out first.
  lemma {:induction false} SumSplit<K, V, R(!new)>(
      m: map<K, V>, k: K, weight: V -> R, plus: (R, R) -> R, zero: R)
    requires k in m && Swaps(plus)
    ensures Sum(m, weight, plus, zero) == plus(weight(m[k]), Sum(m - {k}, weight, plus, zero))
    decreases |m|
  {
    var first :| first in m &&
                 Sum(m, weight, plus, zero) == plus(weight(m[first]), Sum(m - {first}, weight, plus, zero));
    if first != k {
      Shrinks(m, first);
      Shrinks(m, k);
      RemoveTwo(m, first, k);
      var rest := Sum(m - {first, k}, weight, plus, zero);
      assert Sum(m - {first}, weight, plus, zero) == plus(weight(m[k]), rest) by {
        SumSplit(m - {first}, k, weight, plus, zero);
      }
      assert Sum(m - {k}, weight, plus, zero) == plus(weight(m[first]), rest) by {
        SumSplit(m - {k}, first, weight, plus, zero);
      }
    }
  }

  lemma SumUpdate<K, V, R(!new)>(m: map<K, V>, k: K, v: V, weight: V -> R, plus: (R, R) -> R, zero: R)
    requires Swaps(plus)
    ensures Sum(m[k := v], weight, plus, zero) == plus(weight(v), Sum(m - {k}, weight, plus, zero))
    ensures k in m ==> Sum(m, weight, plus, zero) == plus(weight(m[k]), Sum(m - {k}, weight, plus, zero))
    ensures k !in m ==> m - {k} == m
  {
    SumSplit(m[k := v], k, weight, plus, zero);
    assert m[k := v] - {k} == m - {k};
    if k in m {
      SumSplit(m, k, weight, plus, zero);
    }
  }

  // Sums of numbers

  function Add(x: nat, y: nat): nat {
    x + y
  }

  ghost function Total<K, V>(m: map<K, V>, weight: V -> nat): nat {
    Sum(m, weight, Add, 0)
  }

  lemma TotalUpdate<K, V>(m: map<K, V>, k: K, v: V, weight: V -> nat)
    ensures Total(m[k := v], weight) == weight(v) + Total(m - {k}, weight)
    ensures k in m ==> Total(m, weight) == weight(m[k]) + Total(m - {k}, weight)
    ensures k !in m ==> m - {k} == m
  {
    SumUpdate(m, k, v, weight, Add, 0);
  }

  lemma {:induction false} TotalZero<K, V>(m: map<K, V>, weight: V -> nat)
    requires forall k :: k in m ==> weight(m[k]) == 0
    ensures Total(m, weight) == 0
    decreases |m|
  {
    if m != map[] {
      var k :| k in m;
      Shrinks(m, k);
      TotalUpdate(m, k, m[k], weight);
      TotalZero(m - {k}, weight);
    }
  }
}
