/** Histograms of burst lengths, kept as ordered maps, and their scaled cumulative distributions. */
module Histogram {
  import opened Runs
  import opened Tally

  /** m maps exactly the values that occur to the number of their occurrences. */
  ghost predicate Histograms(m: map<nat, nat>, values: seq<nat>) {
    forall x: nat :: (x in m <==> Count(values, x) > 0) && (x in m ==> m[x] == Count(values, x))
  }

  function AtMost(values: seq<nat>, bound: nat): nat {
    if values == [] then 0
    else AtMost(values[..|values| - 1], bound) + if values[|values| - 1] <= bound then 1 else 0
  }

  function SumAtMost(values: seq<nat>, bound: nat): nat {
    if values == [] then 0
    else
      var last := values[|values| - 1];
      SumAtMost(values[..|values| - 1], bound) + if last <= bound then last else 0
  }

  // ---------- the keys of a map, in the order of iteration ----------

  ghost predicate Ascending(keys: seq<nat>) {
    forall i, j :: 0 <= i < j < |keys| ==> keys[i] < keys[j]
  }

  lemma {:induction false} LeastExists(s: set<nat>, some: nat)
    requires some in s
    ensures exists least :: least in s && forall x :: x in s ==> least <= x
    decreases some
  {
    if x :| x in s && x < some {
      LeastExists(s, x);
    }
  }

  function Least(s: set<nat>): (least: nat)
    requires s != {}
    ensures least in s && forall x :: x in s ==> least <= x
  {
    ghost var some :| some in s;
    LeastExists(s, some);
    var least :| least in s && forall x :: x in s ==> least <= x;
    least
  }

  /** The elements of a set in increasing order. */
  function Sorted(s: set<nat>): (keys: seq<nat>)
    ensures Ascending(keys) && (forall x :: x in keys <==> x in s)
  {
    if s == {} then []
    else
      var least := Least(s);
      [least] + Sorted(s - {least})
  }

  // ---------- cumulative counts ----------

  /** Between two neighbouring keys nothing occurs, so the cumulative counts differ by the larger key's. */
  lemma {:induction false} NeighbourCounts(values: seq<nat>, a: nat, b: nat)
    requires a < b && forall i :: 0 <= i < |values| ==> values[i] <= a || b <= values[i]
    ensures AtMost(values, b) == AtMost(values, a) + Count(values, b)
    ensures SumAtMost(values, b) == SumAtMost(values, a) + b * Count(values, b)
  {
    if values != [] {
      var rest, last := values[..|values| - 1], values[|values| - 1];
      NeighbourCounts(rest, a, b);
      assert b * (Count(rest, b) + 1) == b * Count(rest, b) + b;
    }
  }

  lemma {:induction false} LeastCounts(values: seq<nat>, b: nat)
    requires forall i :: 0 <= i < |values| ==> b <= values[i]
    ensures AtMost(values, b) == Count(values, b)
    ensures SumAtMost(values, b) == b * Count(values, b)
  {
    if values != [] {
      var rest := values[..|values| - 1];
      LeastCounts(rest, b);
      assert b * (Count(rest, b) + 1) == b * Count(rest, b) + b;
    }
  }

  lemma {:induction false} GreatestCounts(values: seq<nat>, b: nat)
    requires forall i :: 0 <= i < |values| ==> values[i] <= b
    ensures AtMost(values, b) == |values| && SumAtMost(values, b) == Sum(values)
  {
    if values != [] {
      GreatestCounts(values[..|values| - 1], b);
    }
  }

  lemma {:induction false} Occurs(values: seq<nat>, i: nat)
    requires i < |values|
    ensures Count(values, values[i]) > 0
  {
    var n := |values| - 1;
    if i < n {
      Occurs(values[..n], i);
      assert values[..n][i] == values[i];
    }
  }

  lemma {:induction false} OccursSomewhere(values: seq<nat>, x: nat) returns (i: nat)
    requires Count(values, x) > 0
    ensures i < |values| && values[i] == x
  {
    var n := |values| - 1;
    if values[n] == x {
      i := n;
    } else {
      i := OccursSomewhere(values[..n], x);
    }
  }

  /** One more occurrence of a value. */
  lemma HistogramAdds(m: map<nat, nat>, values: seq<nat>, x: nat)
    requires Histograms(m, values)
    ensures Histograms(m[x := if x in m then m[x] + 1 else 1], values + [x])
  {
  }

  /** Walking the keys in order adds up the cumulative counts and sums. */
  lemma KeyCounts(m: map<nat, nat>, values: seq<nat>, i: nat)
    requires Histograms(m, values) && i < |Sorted(m.Keys)|
    ensures var keys := Sorted(m.Keys);
            var count := Count(values, keys[i]);
            && keys[i] in m && m[keys[i]] == count
            && AtMost(values, keys[i]) == (if i == 0 then 0 else AtMost(values, keys[i - 1])) + count
            && SumAtMost(values, keys[i]) == (if i == 0 then 0 else SumAtMost(values, keys[i - 1])) + keys[i] * count
            && (i == |keys| - 1 ==> AtMost(values, keys[i]) == |values| && SumAtMost(values, keys[i]) == Sum(values))
  {
    hide Count, AtMost, SumAtMost, Sum;
    var keys := Sorted(m.Keys);
    assert keys[i] in m;
    assert m[keys[i]] == Count(values, keys[i]);
    KeyGap(m, values, i);
    hide Histograms, Sorted;
    if i == 0 {
      LeastCounts(values, keys[0]);
    } else {
      NeighbourCounts(values, keys[i - 1], keys[i]);
    }
    if i == |keys| - 1 {
      GreatestCounts(values, keys[i]);
    }
  }

  lemma KeyGap(m: map<nat, nat>, values: seq<nat>, i: nat)
    requires Histograms(m, values) && i < |Sorted(m.Keys)|
    ensures var keys := Sorted(m.Keys);
            && (i == 0 ==> forall j :: 0 <= j < |values| ==> values[j] >= keys[0])
            && (i > 0 ==> forall j :: 0 <= j < |values| ==> values[j] <= keys[i - 1] || keys[i] <= values[j])
            && (i == |keys| - 1 ==> forall j :: 0 <= j < |values| ==> values[j] <= keys[i])
  {
    hide Histograms, Sorted;
    forall j | 0 <= j < |values|
      ensures values[j] >= Sorted(m.Keys)[i] || (i > 0 && values[j] <= Sorted(m.Keys)[i - 1])
      ensures i == |Sorted(m.Keys)| - 1 ==> values[j] <= Sorted(m.Keys)[i]
    {
      ValueIsKey(m, values, j, i);
    }
  }

  /** Every value is a key, so none lies strictly between two neighbouring keys. */
  lemma ValueIsKey(m: map<nat, nat>, values: seq<nat>, j: nat, i: nat)
    requires Histograms(m, values) && j < |values| && i < |Sorted(m.Keys)|
    ensures var keys := Sorted(m.Keys);
            && (values[j] >= keys[i] || (i > 0 && values[j] <= keys[i - 1]))
            && (i == |keys| - 1 ==> values[j] <= keys[i])
  {
    var keys := Sorted(m.Keys);
    Occurs(values, j);
    assert values[j] in m.Keys && values[j] in keys;
    var k :| 0 <= k < |keys| && keys[k] == values[j];
    hide Histograms, Sorted, Count;
  }

  /** The sum of length times count over the first n keys of a histogram. */
  function Dot(m: map<nat, nat>, keys: seq<nat>, n: nat): nat
    requires n <= |keys| && forall x :: x in keys ==> x in m
  {
    if n == 0 then 0 else Dot(m, keys, n - 1) + keys[n - 1] * m[keys[n - 1]]
  }

  lemma {:induction false} DotUpTo(m: map<nat, nat>, values: seq<nat>, n: nat)
    requires Histograms(m, values) && n <= |Sorted(m.Keys)|
    ensures Dot(m, Sorted(m.Keys), n) == if n == 0 then 0 else SumAtMost(values, Sorted(m.Keys)[n - 1])
  {
    hide Histograms, SumAtMost, AtMost, Count, Sorted;
    if n > 0 {
      DotUpTo(m, values, n - 1);
      KeyCounts(m, values, n - 1);
    }
  }

  /** The sum of length times count over all lengths of a histogram. */
  function TotalLength(m: map<nat, nat>): nat {
    Dot(m, Sorted(m.Keys), |Sorted(m.Keys)|)
  }

  /** The weighted sum of a histogram is the sum of what it counts. */
  lemma DotIsSum(m: map<nat, nat>, values: seq<nat>)
    requires Histograms(m, values)
    ensures TotalLength(m) == Sum(values)
  {
    assert Sum([]) == 0;
    hide SumAtMost, AtMost, Sum, Count, Histograms;
    var keys := Sorted(m.Keys);
    DotUpTo(m, values, |keys|);
    if values != [] {
      KeysOfSome(m, values);
    }
    if keys != [] {
      KeyCounts(m, values, |keys| - 1);
    }
  }

  lemma KeysOfSome(m: map<nat, nat>, values: seq<nat>)
    requires Histograms(m, values) && values != []
    ensures Sorted(m.Keys) != []
  {
    Occurs(values, 0);
    assert values[0] in m;
    assert values[0] in Sorted(m.Keys);
  }

  // ---------- the scaled distribution ----------

  /** The truncation to an integer of count / total * maxRand. */
  function Scaled(count: nat, total: nat, maxRand: nat): int
    requires total > 0
  {
    (count as real / total as real * maxRand as real).Floor
  }

  /** Truncation: total * Scaled is at most count * maxRand, and misses it by less than total. */
  lemma ScaledBounds(count: nat, total: nat, maxRand: nat)
    requires total > 0
    ensures 0 <= total * Scaled(count, total, maxRand) <= count * maxRand
    ensures count * maxRand < total * Scaled(count, total, maxRand) + total
  {
    var c, t, m := count as real, total as real, maxRand as real;
    var scaled := Scaled(count, total, maxRand);
    assert c / t >= 0.0 && c / t * m >= 0.0;
    Cancels(c, t, m);
    Bounds(t, c / t * m, scaled as real, c * m);
    ProductAsReal(total, scaled);
    ProductAsReal(count, maxRand);
    Truncates(count * maxRand, total * scaled, total, c * m, t * scaled as real);
  }

  lemma TimesGrows(m: nat, a: nat, b: nat)
    requires a <= b
    ensures a * m <= b * m
  {
  }

  /** Different numbers differ by at least the total after multiplication with it. */
  lemma LessByTotal(total: nat, x: int, y: int)
    requires total > 0
    ensures x > y ==> total * x >= total * y + total
  {
    if x > y {
      var d := x - y - 1;
      assert total * d >= 0;
      assert total * x == total * y + total * d + total;
    }
  }

  lemma Cancels(c: real, t: real, m: real)
    requires t > 0.0
    ensures t * (c / t * m) == c * m
  {
  }

  lemma Bounds(t: real, x: real, f: real, product: real)
    requires t > 0.0 && f <= x < f + 1.0 && t * x == product
    ensures t * f <= product && product - t * f < t
  {
    var d := x - f;
    Fraction(t, d);
    var whole, part := t * f, t * d;
    assert x == f + d && product == whole + part;
  }

  lemma Truncates(exact: nat, low: nat, total: nat, exact': real, low': real)
    requires exact as real == exact' && low as real == low' && low' <= exact' && exact' - low' < total as real
    ensures low <= exact < low + total
  {
  }

  lemma {:induction false} ProductAsReal(a: nat, b: nat)
    ensures (a * b) as real == a as real * b as real
  {
  }

  lemma Fraction(t: real, d: real)
    requires t > 0.0 && 0.0 <= d < 1.0
    ensures 0.0 <= t * d
    ensures t * d < t
  {
  }

  /** The numbers from low up to but not including high. */
  ghost function Interval(low: int, high: int): (s: set<int>)
    requires low <= high
    ensures |s| == high - low && forall r: int :: r in s <==> low <= r < high
    decreases high - low
  {
    if low == high then {} else {low} + Interval(low + 1, high)
  }
}
