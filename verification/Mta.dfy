/** The MTA trainer of parameters/basicmta.cpp: an online split of a trace into error-free and error bursts. */
module Mta {
  import opened Runs
  import opened ShiftRegister
  import OnOff
  import MarkovChain

  // ---------- the split, position by position ----------

  /** Position i lies in a block of more than `threshold` consecutive successes. */
  ghost predicate InFreeBlock(t: seq<bool>, threshold: nat, i: nat) {
    exists low: nat, high: nat ::
      low <= i < high <= |t| && high - low > threshold && AllTrue(t, low, high)
  }

  ghost predicate AllTrue(t: seq<bool>, low: nat, high: nat) {
    forall j :: low <= j < high && j < |t| ==> t[j]
  }

  /** For each position of the trace, whether it is error-free. */
  ghost function Labels(t: seq<bool>, threshold: nat): (labels: seq<bool>)
    ensures |labels| == |t|
  {
    seq(|t|, i requires 0 <= i < |t| => InFreeBlock(t, threshold, i))
  }

  /** The symbols of the trace at the positions that are not error-free. */
  ghost function Errors(t: seq<bool>, labels: seq<bool>): seq<bool>
    requires |labels| == |t|
  {
    if t == [] then []
    else
      var n := |t| - 1;
      Errors(t[..n], labels[..n]) + if labels[n] then [] else [t[n]]
  }

  // ---------- how the labels of a growing trace change ----------

  /** A trace that is empty or ends with an error, followed by successes. */
  ghost predicate EndsInError(u: seq<bool>) { u == [] || !u[|u| - 1] }

  /** Positions before an error keep their label whatever follows. */
  lemma LabelsAreFinal(u: seq<bool>, rest: seq<bool>, threshold: nat, i: nat)
    requires EndsInError(u) && i < |u|
    ensures InFreeBlock(u + rest, threshold, i) == InFreeBlock(u, threshold, i)
  {
    var t := u + rest;
    assert forall j :: 0 <= j < |u| ==> t[j] == u[j];
    assert !t[|u| - 1];
    if InFreeBlock(t, threshold, i) {
      var low: nat, high: nat :| low <= i < high <= |t| && high - low > threshold && AllTrue(t, low, high);
      assert AllTrue(u, low, high);
    }
    if InFreeBlock(u, threshold, i) {
      var low: nat, high: nat :| low <= i < high <= |u| && high - low > threshold && AllTrue(u, low, high);
      assert AllTrue(t, low, high);
    }
  }

  /** An error is never error-free. */
  lemma ErrorLabel(t: seq<bool>, threshold: nat, i: nat)
    requires i < |t| && !t[i]
    ensures !InFreeBlock(t, threshold, i)
  {
  }

  /** The successes behind the last error are error-free exactly if they are more than the threshold. */
  lemma LastRunLabel(u: seq<bool>, n: nat, threshold: nat, i: nat)
    requires EndsInError(u) && |u| <= i < |u| + n
    ensures InFreeBlock(u + Repeat(true, n), threshold, i) <==> n > threshold
  {
    var t := u + Repeat(true, n);
    if InFreeBlock(t, threshold, i) {
      var low: nat, high: nat :| low <= i < high <= |t| && high - low > threshold && AllTrue(t, low, high);
      if low < |u| {
        assert !t[|u| - 1];
      }
    } else if n > threshold {
      assert AllTrue(t, |u|, |t|);
    }
  }

  /** Labels of a trace followed by n successes. */
  lemma LabelsOfSuccesses(u: seq<bool>, n: nat, threshold: nat)
    requires EndsInError(u)
    ensures Labels(u + Repeat(true, n), threshold) == Labels(u, threshold) + Repeat(n > threshold, n)
  {
    var t := u + Repeat(true, n);
    forall i | 0 <= i < |t|
      ensures Labels(t, threshold)[i] == (Labels(u, threshold) + Repeat(n > threshold, n))[i]
    {
      if i < |u| {
        LabelsAreFinal(u, Repeat(true, n), threshold, i);
      } else {
        LastRunLabel(u, n, threshold, i);
      }
    }
  }

  /** Labels of a trace followed by n successes and an error. */
  lemma LabelsOfError(u: seq<bool>, n: nat, threshold: nat)
    requires EndsInError(u)
    ensures Labels(u + Repeat(true, n) + [false], threshold)
         == Labels(u, threshold) + Repeat(n > threshold, n) + [false]
  {
    var s := u + Repeat(true, n);
    var t := s + [false];
    LabelsOfSuccesses(u, n, threshold);
    forall i | 0 <= i < |t|
      ensures Labels(t, threshold)[i] == (Labels(s, threshold) + [false])[i]
    {
      if i < |s| {
        OnlyErrorAdded(s, threshold, i);
      } else {
        ErrorLabel(t, threshold, i);
      }
    }
  }

  /** As many successes as the threshold count as errors, and one more makes all of them error-free. */
  lemma ThresholdIsExceeded(threshold: nat)
    ensures Labels(Repeat(true, threshold) + [false], threshold) == Repeat(false, threshold) + [false]
    ensures Labels(Repeat(true, threshold + 1) + [false], threshold) == Repeat(true, threshold + 1) + [false]
  {
    LabelsOfError([], threshold, threshold);
    LabelsOfError([], threshold + 1, threshold);
    assert Labels([], threshold) == [];
    hide Labels;
    NothingInFront(Repeat(true, threshold));
    NothingInFront(Repeat(true, threshold + 1));
    NothingInFront(Repeat(false, threshold));
  }

  lemma NothingInFront(t: seq<bool>)
    ensures [] + t == t
  {
  }

  /** A block of successes cannot reach over an error that is added at the end. */
  lemma OnlyErrorAdded(s: seq<bool>, threshold: nat, i: nat)
    requires i < |s|
    ensures InFreeBlock(s + [false], threshold, i) == InFreeBlock(s, threshold, i)
  {
    var t := s + [false];
    assert forall j :: 0 <= j < |s| ==> t[j] == s[j];
    assert !t[|s|];
    if InFreeBlock(t, threshold, i) {
      var low: nat, high: nat :| low <= i < high <= |t| && high - low > threshold && AllTrue(t, low, high);
      assert AllTrue(s, low, high);
    }
    if InFreeBlock(s, threshold, i) {
      var low: nat, high: nat :| low <= i < high <= |s| && high - low > threshold && AllTrue(s, low, high);
      assert AllTrue(t, low, high);
    }
  }

  lemma ErrorsSnoc(t: seq<bool>, labels: seq<bool>, b: bool, free: bool)
    requires |labels| == |t|
    ensures Errors(t + [b], labels + [free]) == Errors(t, labels) + if free then [] else [b]
  {
  }

  lemma {:induction false} ErrorsOfSuccesses(t: seq<bool>, labels: seq<bool>, n: nat, free: bool)
    requires |labels| == |t|
    ensures Errors(t + Repeat(true, n), labels + Repeat(free, n))
         == Errors(t, labels) + if free then [] else Repeat(true, n)
  {
    hide Errors;
    if n == 0 {
      RepeatMore(t, true, 0);
      RepeatMore(labels, free, 0);
      assert Errors(t, labels) + [] == Errors(t, labels) && Repeat(true, 0) == [];
    } else {
      ErrorsOfSuccesses(t, labels, n - 1, free);
      RepeatMore(t, true, n - 1);
      RepeatMore(labels, free, n - 1);
      RepeatMore(Errors(t, labels), true, n - 1);
      ErrorsSnoc(t + Repeat(true, n - 1), labels + Repeat(free, n - 1), true, free);
    }
  }

  // ---------- the state of the second round ----------

  /** The variables of the second round: registered bursts, symbols given to the Markov chain, and counters. */
  datatype Round = Round(calls: seq<Run>, fed: seq<bool>, current: bool, length: nat, lengthError: nat)

  /** Registered bursts and pending errors cover the trace u, which ends with an error. */
  ghost predicate Covers(r: Round, u: seq<bool>, pending: nat, threshold: nat) {
    && EndsInError(u)
    && Alternating(r.calls) && (r.calls == [] || EndsWith(r.calls, true))
    && Expand(r.calls) + Repeat(false, pending) == Labels(u, threshold)
    && (pending == 0 ==> r.calls == [])
    && r.fed == Errors(u, Labels(u, threshold))
  }

  /** After the trace t of the second round, whatever current state the first round left. */
  ghost predicate Splits(r: Round, t: seq<bool>, threshold: nat) {
    if t == [] then r.calls == [] && r.fed == [] && r.length == 0 && r.lengthError == 0
    else if r.current then
      && 0 < r.length <= |t| && t == t[..|t| - r.length] + Repeat(true, r.length)
      && Covers(r, t[..|t| - r.length], r.lengthError, threshold)
    else r.length > 0 && Covers(r, t, r.lengthError + r.length, threshold)
  }

  /** addChar in the second round */
  function Step(r: Round, input: bool, threshold: nat): Round {
    if input == r.current then
      r.(fed := r.fed + if input then [] else [false], length := r.length + 1)
    else if r.current then
      if r.length > threshold then
        r.(calls := Registered(r), lengthError := 0, fed := r.fed + [false], current := false, length := 1)
      else
        r.(fed := r.fed + Repeat(true, r.length) + [false], lengthError := r.lengthError + r.length,
           current := false, length := 1)
    else r.(lengthError := r.lengthError + r.length, current := true, length := 1)
  }

  /** The pending error burst, if any, and the error-free one. */
  function Registered(r: Round): seq<Run> {
    r.calls + (if r.lengthError != 0 then [Run(false, r.lengthError)] else []) + [Run(true, r.length)]
  }

  /** finalize before the sub-modules' own ends */
  function Final(r: Round, threshold: nat): Round {
    if r.current && r.length > threshold then r.(calls := Registered(r), length := 0, lengthError := 0)
    else r.(calls := r.calls + [Run(false, r.lengthError + r.length)],
            fed := r.fed + if r.current then Repeat(true, r.length) else [], length := 0, lengthError := 0)
  }

  lemma NoLabels(threshold: nat)
    ensures Labels([], threshold) == [] && Errors([], []) == [] && Expand([]) == []
  {
  }

  lemma RepeatSplits(b: bool, m: nat, n: nat)
    ensures Repeat(b, m + n) == Repeat(b, m) + Repeat(b, n)
    ensures Repeat(b, 1) == [b] && Repeat(b, 0) == []
  {
  }

  /** One more error, directly behind an error or at the start. */
  lemma ErrorJoins(r: Round, u: seq<bool>, pending: nat, threshold: nat)
    requires Covers(r, u, pending, threshold)
    ensures Covers(r.(fed := r.fed + [false]), u + [false], pending + 1, threshold)
  {
    hide Labels, Errors, Expand, InFreeBlock, Alternating;
    LabelsOfError(u, 0, threshold);
    RepeatSplits(false, pending, 1);
    RepeatMore(u, true, 0);
    var labels := Labels(u, threshold);
    RepeatMore(labels, 0 > threshold, 0);
    ErrorsSnoc(u, labels, false, false);
    Associative(Expand(r.calls), Repeat(false, pending), [false]);
  }

  /** A short run of successes joins the errors around it. */
  lemma ShortRunJoins(r: Round, u: seq<bool>, pending: nat, n: nat, threshold: nat)
    requires Covers(r, u, pending, threshold) && n <= threshold
    ensures var r' := r.(fed := r.fed + Repeat(true, n));
            && Expand(r'.calls) + Repeat(false, pending + n) == Labels(u + Repeat(true, n), threshold)
            && r'.fed == Errors(u + Repeat(true, n), Labels(u + Repeat(true, n), threshold))
  {
    LabelsOfSuccesses(u, n, threshold);
    ErrorsOfSuccesses(u, Labels(u, threshold), n, false);
    RepeatSplits(false, pending, n);
    hide Labels, Errors, Expand;
    Associative(Expand(r.calls), Repeat(false, pending), Repeat(false, n));
  }

  /** A long run of successes ends the pending error burst and is registered itself. */
  lemma LongRunEnds(r: Round, u: seq<bool>, n: nat, threshold: nat)
    requires Covers(r, u, r.lengthError, threshold) && n > threshold && r.length == n
    ensures var calls, t := Registered(r), u + Repeat(true, n);
            && Alternating(calls) && EndsWith(calls, true)
            && Expand(calls) == Labels(t, threshold)
            && r.fed == Errors(t, Labels(t, threshold))
  {
    hide Labels, Errors, Expand, InFreeBlock;
    LabelsOfSuccesses(u, n, threshold);
    ErrorsOfSuccesses(u, Labels(u, threshold), n, true);
    assert r.fed + [] == r.fed;
    PendingErrors(r.calls, r.lengthError);
    var errors := r.calls + if r.lengthError != 0 then [Run(false, r.lengthError)] else [];
    ExpandSnoc(errors, Run(true, n));
  }

  lemma PendingErrors(calls: seq<Run>, pending: nat)
    requires Alternating(calls) && (calls == [] || EndsWith(calls, true)) && (pending == 0 ==> calls == [])
    ensures var errors := calls + if pending != 0 then [Run(false, pending)] else [];
            && Alternating(errors) && (errors == [] || EndsWith(errors, false))
            && Expand(errors) == Expand(calls) + Repeat(false, pending)
  {
  }

  lemma StepFromStart(r: Round, input: bool, threshold: nat)
    requires Splits(r, [], threshold)
    ensures Splits(Step(r, input, threshold), [input], threshold)
  {
  }

  /** The trace goes on with the symbol that it ended with. */
  lemma StepSame(r: Round, t: seq<bool>, threshold: nat)
    requires t != [] && Splits(r, t, threshold)
    ensures Splits(Step(r, r.current, threshold), t + [r.current], threshold)
  {
    var next := t + [r.current];
    if r.current {
      var u := t[..|t| - r.length];
      RepeatMore(u, true, r.length);
      assert next[..|next| - (r.length + 1)] == u;
      assert r.fed + [] == r.fed;
      assert Covers(Step(r, true, threshold), u, r.lengthError, threshold);
      hide Covers;
    } else {
      ErrorJoins(r, t, r.lengthError + r.length, threshold);
      hide Covers, Labels, Errors, Expand;
      assert Step(r, false, threshold) == r.(fed := r.fed + [false], length := r.length + 1);
      SameCover(r.(fed := r.fed + [false]), Step(r, false, threshold), next, r.lengthError + r.length + 1, threshold);
    }
  }

  /** Coverage only concerns the registered bursts and the fed symbols. */
  lemma SameCover(a: Round, b: Round, u: seq<bool>, pending: nat, threshold: nat)
    requires Covers(a, u, pending, threshold) && a.calls == b.calls && a.fed == b.fed
    ensures Covers(b, u, pending, threshold)
  {
  }

  /** A success behind an error. */
  lemma StepToSuccess(r: Round, t: seq<bool>, threshold: nat)
    requires t != [] && !r.current && Splits(r, t, threshold)
    ensures Splits(Step(r, true, threshold), t + [true], threshold)
  {
  }

  /** An error behind a run of successes decides what the run was. */
  lemma StepToError(r: Round, t: seq<bool>, threshold: nat)
    requires t != [] && r.current && Splits(r, t, threshold)
    ensures Splits(Step(r, false, threshold), t + [false], threshold)
  {
    var u, n, s := t[..|t| - r.length], r.length, Step(r, false, threshold);
    LabelsOfError(u, n, threshold);
    LabelsOfSuccesses(u, n, threshold);
    ErrorsSnoc(t, Labels(t, threshold), false, false);
    RepeatSplits(false, r.lengthError, n);
    if n > threshold {
      LongRunEnds(r, u, n, threshold);
      hide Labels, Errors, Expand, Alternating, InFreeBlock;
      assert Expand(s.calls) + Repeat(false, 1) == Labels(t, threshold) + [false];
    } else {
      ShortRunJoins(r, u, r.lengthError, n, threshold);
      hide Labels, Errors, Expand, Alternating, InFreeBlock;
      RepeatSplits(false, r.lengthError + n, 1);
      Associative(Expand(s.calls), Repeat(false, r.lengthError + n), [false]);
    }
  }

  lemma StepSplits(r: Round, t: seq<bool>, input: bool, threshold: nat)
    requires Splits(r, t, threshold)
    ensures Splits(Step(r, input, threshold), t + [input], threshold)
  {
    hide Step, Splits;
    if t == [] {
      StepFromStart(r, input, threshold);
      assert [] + [input] == [input];
    } else if input == r.current {
      StepSame(r, t, threshold);
    } else if input {
      StepToSuccess(r, t, threshold);
    } else {
      StepToError(r, t, threshold);
    }
  }

  // ---------- the result ----------

  /** The final registration of a pending error burst. */
  lemma LastErrorBurst(calls: seq<Run>, pending: nat)
    requires Alternating(calls) && (calls == [] || EndsWith(calls, true)) && pending > 0
    ensures Alternating(calls + [Run(false, pending)])
    ensures Expand(calls + [Run(false, pending)]) == Expand(calls) + Repeat(false, pending)
  {
  }

  ghost predicate Complete(f: Round, t: seq<bool>, threshold: nat) {
    && Alternating(f.calls) && Expand(f.calls) == Labels(t, threshold)
    && f.fed == Errors(t, Labels(t, threshold))
  }

  lemma FinalIsComplete(r: Round, t: seq<bool>, threshold: nat)
    requires t != [] && Splits(r, t, threshold)
    ensures Complete(Final(r, threshold), t, threshold)
  {
    hide Labels, Errors, Expand;
    if r.current {
      var u, n := t[..|t| - r.length], r.length;
      if n > threshold {
        LongRunEnds(r, u, n, threshold);
      } else {
        ShortRunJoins(r, u, r.lengthError, n, threshold);
        LastErrorBurst(r.calls, r.lengthError + n);
      }
    } else {
      assert r.fed + [] == r.fed;
      LastErrorBurst(r.calls, r.lengthError + r.length);
    }
  }

  /**
    The bursts registered for a non-empty trace are the maximal runs of its labels: error-free bursts are the
    blocks of more than `threshold` successes, and everything between two of them is one error burst.  The
    Markov chain is given the symbols of the error bursts in order.  An empty trace leaves one error burst of
    length 0.
  */
  lemma FinalSplits(r: Round, t: seq<bool>, threshold: nat)
    requires Splits(r, t, threshold)
    ensures var f := Final(r, threshold);
            && f.calls == (if t == [] then [Run(false, 0)] else RunsOf(Labels(t, threshold)))
            && f.fed == Errors(t, Labels(t, threshold))
  {
    if t == [] {
      NoLabels(threshold);
      assert [] + [Run(false, 0)] == [Run(false, 0)] && Repeat(true, 0) == [];
    } else {
      FinalIsComplete(r, t, threshold);
      hide Labels, Errors, Final, Expand;
      RunsUnique(Final(r, threshold).calls);
    }
  }

  /** ParamBasicMTA */
  class Trainer {
    const onoff: OnOff.Trainer
    const markov: MarkovChain.Trainer
    var currentState: bool
    var length: nat
    var lengthError: nat
    var secondRound: bool
    var C: nat
    ghost var trace: seq<bool>   // of the current round

    ghost predicate Valid()
      reads this, onoff, markov, markov.states
    {
      && onoff.Valid() && markov.Valid()
      && if secondRound then
           onoff.length == 0 && onoff.successFinal == onoff.errorFinal == map[] && Splits(View(), trace, C)
         else
           onoff.Streaming() && onoff.trace == trace && onoff.length >= 0 && markov.fed == []
    }

    ghost function View(): Round
      reads this, onoff, markov
    {
      Round(onoff.bursts, markov.fed, currentState, length, lengthError)
    }

    constructor (onoff: OnOff.Trainer, markov: MarkovChain.Trainer)
      requires onoff.Valid() && onoff.Streaming() && onoff.trace == [] && markov.Valid() && markov.fed == []
      ensures Valid() && trace == [] && !secondRound && this.onoff == onoff && this.markov == markov
    {
      this.onoff, this.markov := onoff, markov;
      currentState, length, lengthError, secondRound, C, trace := false, 0, 0, false, 0, [];
    }

    /** A run of successes that counts as an error is given to the Markov chain symbol by symbol. */
    method FeedSuccesses()
      requires Valid()
      modifies markov, markov.states
      ensures markov.Valid() && markov.fed == old(markov.fed) + Repeat(true, length)
    {
      hide MarkovChain.Trainer.Valid, OnOff.Trainer.Valid, Splits;
      var temp := 0;
      while temp < length
        invariant temp <= length && markov.Valid() && markov.fed == old(markov.fed) + Repeat(true, temp)
      {
        markov.AddChar(true);
        temp := temp + 1;
      }
    }

    method AddChar(input: bool)
      requires Valid()
      modifies this, onoff, markov, markov.states
      ensures Valid() && trace == old(trace) + [input] && currentState == input
      ensures secondRound == old(secondRound) && C == old(C)
      ensures secondRound ==> View() == Step(old(View()), input, C)
      ensures !secondRound ==> View() == old(View()).(calls := onoff.bursts, current := input)
    {
      hide MarkovChain.Trainer.Valid, OnOff.Trainer.Valid, Splits;
      if secondRound {
        StepSplits(View(), trace, input, C);
        if input == currentState {
          if !input {
            markov.AddChar(input);
          }
          length := length + 1;
        } else {
          if currentState {
            if length > C {
              if lengthError != 0 {
                onoff.AddChars(false, lengthError);
              }
              lengthError := 0;
              onoff.AddChars(true, length);
            } else {
              FeedSuccesses();
              lengthError := lengthError + length;
            }
            markov.AddChar(input);
          } else {
            lengthError := lengthError + length;
          }
          length := 1;
        }
      } else {
        onoff.AddChar(input);
      }
      currentState := input;
      trace := trace + [input];
      assert secondRound ==> View() == Step(old(View()), input, C);
    }

    /** nextRound, for any value of the threshold that is computed from the first round's error bursts. */
    method NextRound(threshold: nat)
      requires Valid() && !secondRound
      modifies this, onoff
      ensures Valid() && secondRound && trace == [] && C == threshold
    {
      onoff.AddChar(!currentState);
      C := threshold;
      onoff.Clean();
      onoff.Init();
      length := 0;
      lengthError := 0;
      secondRound := true;
      trace := [];
    }

    /** The start of finalize: what is pending is registered. */
    method Flush()
      requires Valid() && secondRound
      modifies `length, `lengthError, onoff, markov, markov.states
      ensures onoff.Valid() && markov.Valid() && onoff.length == 0
      ensures onoff.successFinal == old(onoff.successFinal) && onoff.errorFinal == old(onoff.errorFinal)
      ensures onoff.bursts == Final(old(View()), C).calls && markov.fed == Final(old(View()), C).fed
    {
      hide MarkovChain.Trainer.Valid, OnOff.Trainer.Valid, Splits;
      if currentState {
        if length > C {
          if lengthError != 0 {
            onoff.AddChars(false, lengthError);
          }
          onoff.AddChars(true, length);
        } else {
          FeedSuccesses();
          lengthError := lengthError + length;
          onoff.AddChars(false, lengthError);
        }
      } else {
        lengthError := lengthError + length;
        onoff.AddChars(false, lengthError);
      }
    }

    /** The sub-modules' own ends. */
    method FinishModules(maxRand: nat)
      requires onoff.Valid() && markov.Valid() && onoff.length == 0 && onoff.successFinal == onoff.errorFinal == map[]
      modifies onoff, markov, markov.transitions
      ensures onoff.Valid() && markov.Counted()
      ensures onoff.bursts == old(onoff.bursts) && markov.fed == old(markov.fed)
      ensures onoff.successFinal == OnOff.Expected(onoff.successLength, Lengths(onoff.bursts, true), maxRand)
      ensures onoff.errorFinal == OnOff.Expected(onoff.errorLength, Lengths(onoff.bursts, false), maxRand)
      ensures forall h :: 0 <= h < markov.stateMod ==>
        MarkovChain.IsShare(markov.transitions[h], markov.states[..], h, maxRand)
    {
      hide MarkovChain.Trainer.Valid, OnOff.Trainer.Valid, OnOff.Expected, MarkovChain.IsShare;
      onoff.Finalize(maxRand);
      OnOff.NothingBefore(onoff.successLength, Lengths(onoff.bursts, true), maxRand);
      OnOff.NothingBefore(onoff.errorLength, Lengths(onoff.bursts, false), maxRand);
      assert onoff.bursts == old(onoff.bursts) + [] == old(onoff.bursts);
      markov.Finalize(maxRand);
    }

    method Finalize(maxRand: nat)
      requires Valid() && secondRound
      modifies `length, `lengthError, onoff, markov, markov.states, markov.transitions
      ensures onoff.Valid() && markov.Counted()
      ensures onoff.bursts == if trace == [] then [Run(false, 0)] else RunsOf(Labels(trace, C))
      ensures markov.fed == Errors(trace, Labels(trace, C))
      ensures onoff.successFinal == OnOff.Expected(onoff.successLength, Lengths(onoff.bursts, true), maxRand)
      ensures onoff.errorFinal == OnOff.Expected(onoff.errorLength, Lengths(onoff.bursts, false), maxRand)
      ensures forall h :: 0 <= h < markov.stateMod ==>
        MarkovChain.IsShare(markov.transitions[h], markov.states[..], h, maxRand)
    {
      FinalSplits(View(), trace, C);
      hide MarkovChain.Trainer.Valid, MarkovChain.Trainer.Counted, MarkovChain.IsShare;
      hide OnOff.Trainer.Valid, OnOff.Expected;
      hide Splits, Final, Labels, Errors;
      Flush();
      FinishModules(maxRand);
    }
  }

  /** The registered bursts alternate as addChars demands, add up to the trace, and the errors to what was fed. */
  lemma SplitAddsUp(t: seq<bool>, threshold: nat)
    ensures var labels := Labels(t, threshold);
            var runs := RunsOf(labels);
            && Alternating(runs)
            && Sum(Lengths(runs, true)) + Sum(Lengths(runs, false)) == |t|
            && |Errors(t, labels)| == Sum(Lengths(runs, false))
  {
    var labels := Labels(t, threshold);
    RunsMakeUp(labels);
    LengthsSum(labels, true);
    LengthsSum(labels, false);
    OccurrencesSum(labels);
    ErrorsCounted(t, labels);
  }

  lemma {:induction false} ErrorsCounted(t: seq<bool>, labels: seq<bool>)
    requires |labels| == |t|
    ensures |Errors(t, labels)| == Occurrences(labels, false)
  {
    if t != [] {
      ErrorsCounted(t[..|t| - 1], labels[..|t| - 1]);
    }
  }

  /** The whole training: the trace is read twice, with a threshold that is known after the first time. */
  method Train(mta: Trainer, input: seq<bool>, threshold: nat, maxRand: nat)
    requires mta.Valid() && !mta.secondRound && mta.trace == []
    modifies mta, mta.onoff, mta.markov, mta.markov.states, mta.markov.transitions
    ensures mta.onoff.bursts == if input == [] then [Run(false, 0)] else RunsOf(Labels(input, threshold))
    ensures mta.markov.fed == Errors(input, Labels(input, threshold)) && mta.markov.Counted()
    ensures mta.onoff.successFinal
         == OnOff.Expected(mta.onoff.successLength, Lengths(mta.onoff.bursts, true), maxRand)
    ensures mta.onoff.errorFinal
         == OnOff.Expected(mta.onoff.errorLength, Lengths(mta.onoff.bursts, false), maxRand)
  {
    hide *;
    for i := 0 to |input|
      invariant mta.Valid() && !mta.secondRound
    {
      mta.AddChar(input[i]);
    }
    mta.NextRound(threshold);
    for i := 0 to |input|
      invariant mta.Valid() && mta.secondRound && mta.trace == input[..i] && mta.C == threshold
    {
      mta.AddChar(input[i]);
    }
    assert input[..|input|] == input;
    mta.Finalize(maxRand);
  }
}
