/** The On-Off trainer of parameters/basiconoff.cpp: burst length histograms and their distributions. */
module OnOff {
  import opened Runs
  import opened Tally
  import opened Histogram

  /** The cumulative distribution that calculate_values gives for a histogram of these values. */
  ghost function Expected(hist: map<nat, nat>, values: seq<nat>, maxRand: nat): map<nat, int> {
    map k | k in hist :: ScaledAt(values, k, maxRand)
  }

  /** The share of the values that are at most k, on a scale of maxRand. */
  ghost function ScaledAt(values: seq<nat>, k: nat, maxRand: nat): int {
    if values == [] then 0 else Scaled(AtMost(values, k), |values|, maxRand)
  }

  lemma NothingBefore(hist: map<nat, nat>, values: seq<nat>, maxRand: nat)
    ensures Expected(hist, values, maxRand) + map[] == Expected(hist, values, maxRand)
  {
  }

  /** The keys are inserted into `final`, where existing entries stay. */
  ghost predicate Filled(result: map<nat, int>, final: map<nat, int>, keys: seq<nat>, values: seq<nat>, maxRand: nat) {
    && (forall k :: k in result <==> k in final || k in keys)
    && forall k :: k in result ==> result[k] == if k in final then final[k] else ScaledAt(values, k, maxRand)
  }

  lemma NothingFilled(final: map<nat, int>, values: seq<nat>, maxRand: nat)
    ensures Filled(final, final, [], values, maxRand)
  {
  }

  lemma FillOne(result: map<nat, int>, final: map<nat, int>, keys: seq<nat>, key: nat, values: seq<nat>, maxRand: nat)
    requires Filled(result, final, keys, values, maxRand)
    ensures Filled(if key in result then result else result[key := ScaledAt(values, key, maxRand)],
                   final, keys + [key], values, maxRand)
  {
  }

  lemma AllFilled(result: map<nat, int>, final: map<nat, int>, hist: map<nat, nat>, keys: seq<nat>, values: seq<nat>,
                  maxRand: nat)
    requires Filled(result, final, keys, values, maxRand) && forall k :: k in keys <==> k in hist
    ensures result == Expected(hist, values, maxRand) + final
  {
  }

  lemma OccursImpliesSome(hist: map<nat, nat>, values: seq<nat>, k: nat)
    requires Histograms(hist, values) && k in hist
    ensures values != []
  {
  }

  lemma BurstJoins(bursts: seq<Run>, value: bool, len: nat)
    ensures Lengths(bursts + [Run(value, len)], value) == Lengths(bursts, value) + [len]
    ensures Lengths(bursts + [Run(value, len)], !value) == Lengths(bursts, !value)
  {
  }

  lemma {:induction false} LengthsCount(bursts: seq<Run>)
    ensures |Lengths(bursts, true)| + |Lengths(bursts, false)| == |bursts|
  {
    if bursts != [] {
      LengthsCount(bursts[..|bursts| - 1]);
    }
  }

  function PendingRun(state: bool, length: nat): seq<Run> {
    if length > 0 then [Run(state, length)] else []
  }

  /** The registered bursts and the pending one are the maximal runs of the trace. */
  ghost predicate Streams(bursts: seq<Run>, state: bool, length: nat, trace: seq<bool>) {
    && bursts + PendingRun(state, length) == RunsOf(trace)
    && (trace == [] ==> !state) && (trace != [] ==> length > 0)
  }

  lemma StreamsOn(bursts: seq<Run>, state: bool, length: nat, trace: seq<bool>, input: bool)
    requires Streams(bursts, state, length, trace)
    ensures Streams(bursts + (if input == state then [] else PendingRun(state, length)), input,
                    if input == state then length + 1 else 1, trace + [input])
  {
    assert RunsOf([]) == [];
    hide RunsOf, Extend;
    RunsOfSnoc(trace, input);
    ExtendBlock(bursts, input);
    ExtendBlock(RunsOf(trace), input);
    assert bursts + [] == bursts;
  }

  /** ParamBasicOnOff */
  class Trainer {
    var successTotal: nat
    var errorTotal: nat
    var successLength: map<nat, nat>
    var errorLength: map<nat, nat>
    var successFinal: map<nat, int>
    var errorFinal: map<nat, int>
    var currentState: bool
    var length: nat
    ghost var bursts: seq<Run>   // registered since the last init
    ghost var trace: seq<bool>   // given to AddChar since the last init

    /** The histograms and totals are those of the registered bursts. */
    ghost predicate Valid()
      reads this
    {
      && Histograms(successLength, Lengths(bursts, true)) && successTotal == |Lengths(bursts, true)|
      && Histograms(errorLength, Lengths(bursts, false)) && errorTotal == |Lengths(bursts, false)|
    }

    /** The burst that AddChar has not registered yet. */
    ghost function Pending(): seq<Run>
      reads this
    {
      PendingRun(currentState, length)
    }

    ghost predicate Streaming()
      reads this
    {
      Streams(bursts, currentState, length, trace)
    }

    constructor ()
      ensures Valid() && Streaming() && trace == [] && bursts == []
      ensures successFinal == map[] && errorFinal == map[] && length == 0
    {
      successTotal, errorTotal, currentState, length := 0, 0, false, 0;
      successLength, errorLength, successFinal, errorFinal := map[], map[], map[], map[];
      bursts, trace := [], [];
    }

    /** init with two file names: the maps are left as they are, so they must have been cleared before. */
    method Init()
      modifies this
      ensures Valid() <==> old(successLength) == old(errorLength) == map[]
      ensures Streaming() && bursts == [] && trace == [] && length == 0 && successTotal == errorTotal == 0
      ensures successLength == old(successLength) && errorLength == old(errorLength)
      ensures successFinal == old(successFinal) && errorFinal == old(errorFinal)
    {
      successTotal, errorTotal, currentState, length := 0, 0, false, 0;
      bursts, trace := [], [];
    }

    method Clean()
      modifies `successLength, `errorLength, `successFinal, `errorFinal
      ensures successLength == errorLength == map[] && successFinal == errorFinal == map[]
    {
      successLength, errorLength, successFinal, errorFinal := map[], map[], map[], map[];
    }

    method AddChars(input: bool, len: nat)
      requires Valid()
      modifies `successTotal, `errorTotal, `successLength, `errorLength, `bursts
      ensures Valid() && bursts == old(bursts) + [Run(input, len)]
    {
      hide Histograms, Lengths;
      BurstJoins(bursts, input, len);
      if input {
        HistogramAdds(successLength, Lengths(bursts, true), len);
        if len in successLength {
          successLength := successLength[len := successLength[len] + 1];
        } else {
          successLength := successLength[len := 1];
        }
        successTotal := successTotal + 1;
      } else {
        HistogramAdds(errorLength, Lengths(bursts, false), len);
        if len in errorLength {
          errorLength := errorLength[len := errorLength[len] + 1];
        } else {
          errorLength := errorLength[len := 1];
        }
        errorTotal := errorTotal + 1;
      }
      bursts := bursts + [Run(input, len)];
    }

    method AddChar(input: bool)
      requires Valid()
      modifies `successTotal, `errorTotal, `successLength, `errorLength, `currentState, `length, `bursts, `trace
      ensures Valid() && currentState == input && trace == old(trace) + [input]
      ensures length == if input == old(currentState) then old(length) + 1 else 1
      ensures bursts == old(bursts) + if input == old(currentState) then [] else old(Pending())
      ensures old(Streaming()) ==> Streaming()
    {
      hide Histograms, Lengths;
      ghost var streaming := Streaming();
      if streaming {
        StreamsOn(bursts, currentState, length, trace, input);
      }
      hide Streams;
      assert bursts + [] == bursts;
      if input == currentState {
        length := length + 1;
      } else {
        if length != 0 {
          AddChars(currentState, length);
        }
        currentState := input;
        length := 1;
      }
      trace := trace + [input];
    }

    /** calculate_values; std::map iterates in the order of its keys, and insert keeps existing entries. */
    static method CalculateValues(maxRand: nat, hist: map<nat, nat>, total: nat, final: map<nat, int>,
                                  ghost values: seq<nat>)
      returns (result: map<nat, int>)
      requires Histograms(hist, values) && total == |values|
      ensures result == Expected(hist, values, maxRand) + final
    {
      hide Histograms, AtMost, SumAtMost, Sorted, Scaled, Count, Sum, Filled, Expected;
      var keys := Sorted(hist.Keys);
      var tempTotal := 0;
      result := final;
      NothingFilled(final, values, maxRand);
      for i := 0 to |keys|
        invariant tempTotal == if i == 0 then 0 else AtMost(values, keys[i - 1])
        invariant Filled(result, final, keys[..i], values, maxRand)
      {
        KeyCounts(hist, values, i);
        OccursImpliesSome(hist, values, keys[i]);
        FillOne(result, final, keys[..i], keys[i], values, maxRand);
        assert keys[..i] + [keys[i]] == keys[..i + 1];
        tempTotal := tempTotal + hist[keys[i]];
        var scaled := Scaled(tempTotal, total, maxRand);
        if keys[i] !in result {
          result := result[keys[i] := scaled];
        }
      }
      assert keys[..|keys|] == keys;
      AllFilled(result, final, hist, keys, values, maxRand);
    }

    /** finalize: register the pending burst, then build both distributions. */
    method Finalize(maxRand: nat)
      requires Valid()
      modifies this
      ensures Valid() && bursts == old(bursts) + old(Pending())
      ensures old(Streaming()) ==> bursts == RunsOf(old(trace))
      ensures successFinal == Expected(successLength, Lengths(bursts, true), maxRand) + old(successFinal)
      ensures errorFinal == Expected(errorLength, Lengths(bursts, false), maxRand) + old(errorFinal)
    {
      AddChar(!currentState);
      successFinal := CalculateValues(maxRand, successLength, successTotal, successFinal, Lengths(bursts, true));
      errorFinal := CalculateValues(maxRand, errorLength, errorTotal, errorFinal, Lengths(bursts, false));
    }

    /** The histograms and totals left by a flushed trace: together they account for each of its symbols. */
    lemma CoversTrace(t: seq<bool>)
      requires Valid() && bursts == RunsOf(t)
      ensures TotalLength(successLength) == Occurrences(t, true)
      ensures TotalLength(errorLength) == Occurrences(t, false)
      ensures TotalLength(successLength) + TotalLength(errorLength) == |t|
      ensures successTotal + errorTotal == |RunsOf(t)|
    {
      hide Histograms, RunsOf, TotalLength, Sum;
      DotIsSum(successLength, Lengths(bursts, true));
      DotIsSum(errorLength, Lengths(bursts, false));
      LengthsSum(t, true);
      LengthsSum(t, false);
      OccurrencesSum(t);
      LengthsCount(bursts);
    }
  }
}
