/** Tables of counters against the sequence of keys that they count. */
module Tally {
  import opened Runs

  function Count(keys: seq<nat>, key: nat): nat {
    if keys == [] then 0
    else Count(keys[..|keys| - 1], key) + if keys[|keys| - 1] == key then 1 else 0
  }

  /** The sum of (i + 1) * table[i]. */
  function Weighted(table: seq<nat>): nat {
    if table == [] then 0 else Weighted(table[..|table| - 1]) + |table| * table[|table| - 1]
  }

  ghost predicate Tallies(table: seq<nat>, keys: seq<nat>) {
    && (forall i :: 0 <= i < |table| ==> table[i] == Count(keys, i))
    && (forall i :: 0 <= i < |keys| ==> keys[i] < |table|)
  }

  /** It is the number of positions with this key. */
  lemma {:induction false} CountIsNumber(keys: seq<nat>, key: nat)
    ensures Count(keys, key) == |set i | 0 <= i < |keys| && keys[i] == key|
  {
    if keys != [] {
      var n := |keys| - 1;
      CountIsNumber(keys[..n], key);
      var before := set i | 0 <= i < n && keys[..n][i] == key;
      assert (set i | 0 <= i < |keys| && keys[i] == key) == before + if keys[n] == key then {n} else {};
    }
  }

  lemma CountSnoc(keys: seq<nat>, x: nat, key: nat)
    ensures Count(keys + [x], key) == Count(keys, key) + if x == key then 1 else 0
  {
  }

  lemma TallyMore(table: seq<nat>, keys: seq<nat>, key: nat)
    requires Tallies(table, keys) && key < |table|
    ensures Tallies(table[key := table[key] + 1], keys + [key])
  {
  }

  lemma {:induction false} SumOfZeros(table: seq<nat>)
    requires forall i :: 0 <= i < |table| ==> table[i] == 0
    ensures Sum(table) == 0 && Weighted(table) == 0
  {
    if table != [] {
      SumOfZeros(table[..|table| - 1]);
      assert |table| * table[|table| - 1] == 0;
    }
  }

  /** Raising one counter raises the sum by one and the weighted sum by its position. */
  lemma {:induction false} SumOfBump(table: seq<nat>, bumped: seq<nat>, key: nat)
    requires key < |table| == |bumped|
    requires forall i :: 0 <= i < |table| ==> bumped[i] == table[i] + if i == key then 1 else 0
    ensures Sum(bumped) == Sum(table) + 1
    ensures Weighted(bumped) == Weighted(table) + key + 1
  {
    var n := |table| - 1;
    if key == n {
      assert bumped[..n] == table[..n];
      assert |table| * (table[n] + 1) == |table| * table[n] + |table|;
    } else {
      SumOfBump(table[..n], bumped[..n], key);
    }
  }

  /** A table of counters sums to the number of keys that were counted. */
  lemma {:induction false} TallyTotal(table: seq<nat>, keys: seq<nat>)
    requires Tallies(table, keys)
    ensures Sum(table) == |keys|
    decreases |keys|
  {
    if keys == [] {
      SumOfZeros(table);
    } else {
      var rest, key := keys[..|keys| - 1], keys[|keys| - 1];
      var before := seq(|table|, (i: nat) => Count(rest, i));
      TallyTotal(before, rest);
      SumOfBump(before, table, key);
    }
  }

  /** A table in which entry i counts the value i + 1 has the sum of the values as weighted sum. */
  lemma {:induction false} WeightedTotal(table: seq<nat>, values: seq<nat>)
    requires forall i :: 0 <= i < |table| ==> table[i] == Count(values, i + 1)
    requires forall i :: 0 <= i < |values| ==> 1 <= values[i] <= |table|
    ensures Weighted(table) == Sum(values)
    decreases |values|
  {
    if values == [] {
      SumOfZeros(table);
    } else {
      var rest, value := values[..|values| - 1], values[|values| - 1];
      var before := seq(|table|, (i: nat) => Count(rest, i + 1));
      WeightedTotal(before, rest);
      SumOfBump(before, table, value - 1);
    }
  }
}
