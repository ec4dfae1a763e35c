/** The joint error bursts that the first pass counts are the maximal runs of joint losses. */
module MergeBursts {
  import opened StreamMerge
  import opened MergeConservation
  import opened Runs

  /** For each slot of a trace, whether both streams lost it. */
  function LossFlags(trace: seq<Slot>): seq<bool> {
    seq(|trace|, i requires 0 <= i < |trace| => trace[i].Lost())
  }

  /** The lengths of the maximal runs of joint losses, in order. */
  function LossRuns(trace: seq<Slot>): seq<int> { Lengths(RunsOf(LossFlags(trace)), true) }

  /** The burst length that a batch of age 0 counts: 0 - 1 in 64 bits. */
  const WRAPPED_BURST: int := TWO_TO_THE_64 - 1

  function Wrapped(k: nat): seq<int> { seq(k, _ => WRAPPED_BURST) }

  /** The counted bursts are the runs of joint losses, and k wrapped ones. */
  ghost predicate Counted(trace: seq<Slot>, bursts: seq<int>, k: nat) {
    && (trace == [] || !trace[|trace| - 1].Lost())
    && multiset(bursts) == multiset(LossRuns(trace)) + multiset(Wrapped(k))
    && (k == 0 ==> bursts == LossRuns(trace))
  }

  /** A batch is one run of joint losses, if it has any, and then a slot that ends it. */
  lemma BatchRuns(sys: Pair, age: int, last: Slot)
    requires !last.Lost() && (sys.trace == [] || !sys.trace[|sys.trace| - 1].Lost())
    ensures LossRuns(EmitBatch(sys, age, last).trace) == LossRuns(sys.trace) + if age > 1 then [age - 1] else []
  {
    hide RunsOf, Lengths, Extend;
    var r := EmitBatch(sys, age, last);
    var flags, runs := LossFlags(sys.trace), RunsOf(LossFlags(sys.trace));
    if age > 1 {
      var block := flags + Repeat(true, age - 1);
      RunsOfBlock(flags, true, age - 1);
      assert LossFlags(r.trace) == block + [false];
      RunsOfSnoc(block, false);
      EndsBurst(runs + [Run(true, age - 1)]);
      LengthsSnoc(runs, Run(true, age - 1), true);
    } else {
      assert LossFlags(r.trace) == flags + [false];
      RunsOfSnoc(flags, false);
      EndsBurst(runs);
      assert LossRuns(sys.trace) + [] == LossRuns(sys.trace);
    }
  }

  lemma BatchIsCounted(sys: Pair, age: int, last: Slot, k: nat)
    requires age >= 0 && !last.Lost() && Counted(sys.trace, sys.bursts, k)
    ensures var r := EmitBatch(sys, age, last);
            Counted(r.trace, r.bursts, k + One(age == 0))
  {
    BatchRuns(sys, age, last);
    BatchIsEmitted(sys, age, last);
    MoreBursts(sys.bursts, LossRuns(sys.trace), k, age - 1);
    hide LossRuns, EmitBatch, Wrapped;
    assert LossRuns(sys.trace) + [] == LossRuns(sys.trace);
  }

  lemma BatchIsEmitted(sys: Pair, age: int, last: Slot)
    requires age >= 0
    ensures var r := EmitBatch(sys, age, last);
            && r.trace != [] && r.trace[|r.trace| - 1] == last
            && r.bursts == sys.bursts + if age == 0 then [WRAPPED_BURST] else if age > 1 then [age - 1] else []
  {
    assert sys.bursts + [] == sys.bursts;
  }

  lemma MoreBursts(bursts: seq<int>, runs: seq<int>, k: nat, burst: int)
    requires multiset(bursts) == multiset(runs) + multiset(Wrapped(k))
    ensures multiset(bursts + [burst]) == multiset(runs + [burst]) + multiset(Wrapped(k))
    ensures multiset(bursts + [WRAPPED_BURST]) == multiset(runs) + multiset(Wrapped(k + 1))
    ensures bursts + [] == bursts && runs + [] == runs
  {
    assert Wrapped(k + 1) == Wrapped(k) + [WRAPPED_BURST];
  }

  /** A slot that is not a joint loss changes no run of joint losses. */
  lemma EndsBurst(runs: seq<Run>)
    ensures Lengths(Extend(runs, false), true) == Lengths(runs, true)
  {
  }

  lemma StepIsCounted(interval: real, sys: Pair, start0: int, start1: int, k: nat)
    requires AtEntry(interval, sys, start0, start1) && Counted(sys.trace, sys.bursts, k)
    ensures var r := FirstPass(interval, sys).0;
            Counted(r.trace, r.bursts, k + One(IsPhantom(sys)))
  {
    hide FirstPass, Counted, EmitBatch, Logged;
    StepKeeps(interval, sys, start0, start1);
    var s0, s1 := sys.streams[0], sys.streams[1];
    if Age(sys, 0) >= 0 && Age(sys, 1) >= 0 {
      if Age(sys, 0) == Age(sys, 1) {
        BatchIsCounted(sys, Age(sys, 0), Slot(true, true, Byte(s0.signalNew), Byte(s1.signalNew)), k);
      } else if Age(sys, 0) < Age(sys, 1) {
        BatchIsCounted(sys, Age(sys, 0), Slot(true, false, Byte(s0.signalNew), NO_SIGNAL), k);
      } else {
        BatchIsCounted(sys, Age(sys, 1), Slot(false, true, NO_SIGNAL, Byte(s1.signalNew)), k);
      }
    }
  }

  lemma {:induction false} RunIsCounted(interval: real, sys: Pair, start0: int, start1: int, n: nat)
    requires AtEntry(interval, sys, start0, start1) && Counted(sys.trace, sys.bursts, 0)
    ensures var r := RunPasses(interval, sys, n).0;
            Counted(r.trace, r.bursts, Phantoms(interval, sys, n))
  {
    hide FirstPass, Counted, AtEntry, IsPhantom;
    if n > 0 {
      RunIsCounted(interval, sys, start0, start1, n - 1);
      RunKeeps(interval, sys, start0, start1, n - 1);
      var (s, o) := RunPasses(interval, sys, n - 1);
      if o == Continue {
        var k := Phantoms(interval, sys, n - 1);
        StepIsCounted(interval, s, start0 - k, start1 - k, k);
      }
    }
  }
}
