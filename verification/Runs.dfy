/** Maximal runs of equal symbols: what the On-Off model, the MTA model and the joint bursts all count. */
module Runs {
  datatype Run = Run(value: bool, len: nat)

  /** The maximal runs after one more symbol. */
  function Extend(runs: seq<Run>, b: bool): seq<Run> {
    var n := |runs|;
    if n > 0 && runs[n - 1].value == b then runs[..n - 1] + [Run(b, runs[n - 1].len + 1)]
    else runs + [Run(b, 1)]
  }

  function RunsOf(t: seq<bool>): seq<Run> {
    if t == [] then [] else Extend(RunsOf(t[..|t| - 1]), t[|t| - 1])
  }

  function Repeat(b: bool, n: nat): seq<bool> { seq(n, _ => b) }

  function Expand(runs: seq<Run>): seq<bool> {
    if runs == [] then []
    else
      var last := runs[|runs| - 1];
      Expand(runs[..|runs| - 1]) + Repeat(last.value, last.len)
  }

  ghost predicate Alternating(runs: seq<Run>) {
    && (forall i :: 0 <= i < |runs| ==> runs[i].len > 0)
    && (forall i :: 0 <= i < |runs| - 1 ==> runs[i].value != runs[i + 1].value)
  }

  /** The lengths of the runs of one value, in order. */
  function Lengths(runs: seq<Run>, value: bool): seq<nat> {
    if runs == [] then []
    else
      var last := runs[|runs| - 1];
      Lengths(runs[..|runs| - 1], value) + if last.value == value then [last.len] else []
  }

  function Sum(ns: seq<nat>): nat {
    if ns == [] then 0 else Sum(ns[..|ns| - 1]) + ns[|ns| - 1]
  }

  function Occurrences(t: seq<bool>, b: bool): nat {
    if t == [] then 0 else Occurrences(t[..|t| - 1], b) + if t[|t| - 1] == b then 1 else 0
  }

  lemma RunsOfSnoc(t: seq<bool>, b: bool)
    ensures RunsOf(t + [b]) == Extend(RunsOf(t), b)
  {
  }

  lemma ExpandSnoc(runs: seq<Run>, r: Run)
    ensures Expand(runs + [r]) == Expand(runs) + Repeat(r.value, r.len)
  {
  }

  lemma LengthsSnoc(runs: seq<Run>, r: Run, value: bool)
    ensures Lengths(runs + [r], value) == Lengths(runs, value) + if r.value == value then [r.len] else []
  {
  }

  lemma SumSnoc(ns: seq<nat>, n: nat)
    ensures Sum(ns + [n]) == Sum(ns) + n
  {
  }

  predicate EndsWith(runs: seq<Run>, b: bool) {
    runs != [] && runs[|runs| - 1].value == b
  }

  lemma ExtendExpands(runs: seq<Run>, b: bool)
    requires Alternating(runs)
    ensures Alternating(Extend(runs, b)) && Expand(Extend(runs, b)) == Expand(runs) + [b]
    ensures EndsWith(Extend(runs, b), b)
  {
    hide Expand;
    if EndsWith(runs, b) {
      var rest, last := runs[..|runs| - 1], runs[|runs| - 1];
      assert rest + [last] == runs;
      ExpandSnoc(rest, last);
      ExpandSnoc(rest, Run(b, last.len + 1));
      assert Repeat(b, last.len + 1) == Repeat(b, last.len) + [b];
      Associative(Expand(rest), Repeat(b, last.len), [b]);
    } else {
      ExpandSnoc(runs, Run(b, 1));
      assert Repeat(b, 1) == [b];
    }
  }

  lemma Associative<T>(a: seq<T>, b: seq<T>, c: seq<T>)
    ensures (a + b) + c == a + (b + c)
  {
  }

  lemma ExtendLengths(runs: seq<Run>, b: bool, value: bool)
    ensures Sum(Lengths(Extend(runs, b), value)) == Sum(Lengths(runs, value)) + if b == value then 1 else 0
  {
    hide Lengths, Sum;
    if EndsWith(runs, b) {
      var rest, last := runs[..|runs| - 1], runs[|runs| - 1];
      assert rest + [last] == runs;
      LengthsSnoc(rest, last, value);
      LengthsSnoc(rest, Run(b, last.len + 1), value);
      SumSnoc(Lengths(rest, value), last.len);
      SumSnoc(Lengths(rest, value), last.len + 1);
      assert Lengths(rest, value) + [] == Lengths(rest, value);
    } else {
      LengthsSnoc(runs, Run(b, 1), value);
      SumSnoc(Lengths(runs, value), 1);
      assert Lengths(runs, value) + [] == Lengths(runs, value);
    }
  }

  /** The runs alternate, make up the trace, and end with its last symbol. */
  ghost predicate MakesUp(runs: seq<Run>, t: seq<bool>) {
    Alternating(runs) && Expand(runs) == t && (t != [] ==> EndsWith(runs, t[|t| - 1])) && (t == [] ==> runs == [])
  }

  lemma ExtendMakesUp(runs: seq<Run>, u: seq<bool>, b: bool)
    requires MakesUp(runs, u)
    ensures MakesUp(Extend(runs, b), u + [b])
  {
    hide Expand, Alternating, Extend;
    ExtendExpands(runs, b);
  }

  lemma {:induction false} RunsMakeUp(t: seq<bool>)
    ensures MakesUp(RunsOf(t), t)
  {
    if t != [] {
      var u, b := t[..|t| - 1], t[|t| - 1];
      RunsMakeUp(u);
      ExtendMakesUp(RunsOf(u), u, b);
      hide MakesUp, Extend;
      assert t == u + [b];
    }
  }

  lemma ExtendBlock(runs: seq<Run>, b: bool)
    ensures !EndsWith(runs, b) ==> Extend(runs, b) == runs + [Run(b, 1)]
    ensures forall n: nat :: Extend(runs + [Run(b, n)], b) == runs + [Run(b, n + 1)]
  {
  }

  lemma RepeatMore(t: seq<bool>, b: bool, n: nat)
    ensures t + Repeat(b, n + 1) == (t + Repeat(b, n)) + [b]
    ensures t + Repeat(b, 0) == t
  {
  }

  /** Appending n copies of a symbol that differs from the last one adds exactly one run. */
  lemma {:induction false} RunsOfBlock(t: seq<bool>, b: bool, n: nat)
    requires n > 0 && (t == [] || t[|t| - 1] != b)
    ensures RunsOf(t + Repeat(b, n)) == RunsOf(t) + [Run(b, n)]
  {
    RunsMakeUp(t);
    ExtendBlock(RunsOf(t), b);
    assert !EndsWith(RunsOf(t), b);
    hide RunsOf, Extend, MakesUp, Repeat;
    RepeatMore(t, b, n - 1);
    RunsOfSnoc(t + Repeat(b, n - 1), b);
    if n == 1 {
      RepeatMore(t, b, 0);
    } else {
      RunsOfBlock(t, b, n - 1);
    }
  }

  /** A trace has only one decomposition into alternating non-empty runs. */
  lemma {:induction false} RunsUnique(runs: seq<Run>)
    requires Alternating(runs)
    ensures RunsOf(Expand(runs)) == runs
  {
    assert RunsOf([]) == [] && Expand([]) == [];
    hide Expand, RunsOf;
    if runs != [] {
      var rest, last := runs[..|runs| - 1], runs[|runs| - 1];
      assert rest + [last] == runs;
      ExpandSnoc(rest, last);
      RunsUnique(rest);
      RunsMakeUp(Expand(rest));
      RunsOfBlock(Expand(rest), last.value, last.len);
    }
  }

  /** The runs of a value together are as long as the value occurs. */
  lemma {:induction false} LengthsSum(t: seq<bool>, b: bool)
    ensures Sum(Lengths(RunsOf(t), b)) == Occurrences(t, b)
  {
    assert Sum(Lengths([], b)) == 0;
    hide Lengths, Sum, Extend;
    if t != [] {
      LengthsSum(t[..|t| - 1], b);
      ExtendLengths(RunsOf(t[..|t| - 1]), t[|t| - 1], b);
    }
  }

  lemma {:induction false} OccurrencesSum(t: seq<bool>)
    ensures Occurrences(t, true) + Occurrences(t, false) == |t|
  {
    if t != [] {
      OccurrencesSum(t[..|t| - 1]);
    }
  }
}
