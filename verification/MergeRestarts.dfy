/** What happens when a counter restarts at 0 behind the synchronised packets. */
module MergeRestarts {
  import opened StreamMerge
  import opened MergeConservation
  import opened MergeZip
  import opened MergeClock
  import opened MergeBursts
  import opened MergeRuns

  // ---------- which restarts are accepted ----------

  /** The expected date of a packet with counter 0, for which the 64-bit difference of the counters wraps around. */
  ghost function ZeroDue(interval: real, st: Stream): real {
    st.timestampOld + Span(interval, if st.countNew == 0 then 0 else TWO_TO_THE_64 - st.countNew)
  }

  /**
    A packet with counter 0 passes the check of the counters.  It is accepted exactly if there is no reference date
    or its own date is in the window around the expected one: directly behind another counter 0 that is the window
    of the packet before, and otherwise that of almost 2^64 slots later.  It leaves an age of at most 0.
  */
  lemma ZeroIsAccepted(interval: real, st: Stream)
    requires st.input != [] && st.input[0].count == 0 && st.countNew >= 0
    ensures var (r, reading) := ReadInput(interval, st);
            var lateness := st.input[0].ts - ZeroDue(interval, st);
            && (Accepted(reading) <==> st.timestampOld == 0.0 || -(interval / 2.0) <= lateness <= interval)
            && (reading == Malformed <==> st.timestampOld != 0.0 && lateness < -(interval / 2.0))
            && (Accepted(reading) ==> r.countNew == 0 && r.countOld == st.countNew && r.log.restarted)
            && (!Accepted(reading) ==> r.log.restarted == st.log.restarted)
  {
  }

  // ---------- the steps behind an accepted restart ----------

  /** One slot and one burst of almost 2^64 losses, for none of which there is a counter. */
  ghost predicate EmitsPhantom(sys: Pair, r: Pair) {
    && |r.trace| == |sys.trace| + 1 && r.trace[..|sys.trace|] == sys.trace && !r.trace[|sys.trace|].Lost()
    && r.bursts == sys.bursts + [WRAPPED_BURST]
  }

  /** What a phantom step emits.  Two streams of age 0, by contrast, emit nothing. */
  lemma PhantomEmits(interval: real, sys: Pair, start0: int, start1: int)
    requires AtEntry(interval, sys, start0, start1) && Age(sys, 0) >= 0 && Age(sys, 1) >= 0
    ensures var (r, o) := FirstPass(interval, sys);
            && (IsPhantom(sys) ==> EmitsPhantom(sys, r))
            && (Age(sys, 0) == Age(sys, 1) == 0 ==> r.trace == sys.trace && r.bursts == sys.bursts)
            && (!IsPhantom(sys) ==>
                |r.trace| <= |sys.trace| + if Age(sys, 0) <= Age(sys, 1) then Age(sys, 0) else Age(sys, 1))
  {
    hide FirstPass;
    StepKeeps(interval, sys, start0, start1);
    hide Balanced, Standing, JustSynchronised;
  }

  // ---------- over whole runs ----------

  /** Stream p is still at its synchronised counter, which is 0, and lost no slot. */
  ghost predicate StillAtZero(r: Pair, p: nat, start: int)
    requires p < 2
  {
    start == r.streams[p].countOld == r.streams[p].countNew == 0 && r.streams[p].resync == 0
  }

  /**
    Phantom steps come first.  One is possible only while a stream, synchronised at counter 0, has accepted nothing
    but further counters 0, and while each emitted slot is that of a phantom step; so in every run the phantom steps
    emit the first slots of the trace, and behind the first slot of another step there are none.
  */
  lemma PhantomsComeFirst(interval: real, input0: seq<Packet>, input1: seq<Packet>, n: nat)
    requires interval > 0.0 && Program(interval, input0, input1, n).1 == Continue
    ensures var r, k := Program(interval, input0, input1, n).0, PhantomSteps(interval, input0, input1, n);
            && |r.trace| >= k
            && (IsPhantom(r) ==>
                && |r.trace| == k
                && (|| StillAtZero(r, 0, Start(interval, input0, input1, 0))
                    || StillAtZero(r, 1, Start(interval, input0, input1, 1))))
  {
    hide Synchronize, RunPasses, PhantomSteps, BothRest, AllZipped, AllLogged;
    ProgramZips(interval, input0, input1, n);
  }

  const ZERO := Packet(0, 10.0, 0)
  const ONE := Packet(1, 11.0, 0)

  /** Stream 0 has read the same counter 0 again, stream 1 the next packet. */
  lemma ZeroBehindZero()
    ensures var (r, o) := Program(1.0, [ZERO, ZERO, ONE], [ZERO, ONE], 1);
            && o == Continue && r.trace == [] && r.bursts == [] && r.diff == 0
            && var s0, s1 := r.streams[0], r.streams[1];
            && s0.input == [ONE] && s0.countOld == s0.countNew == 0 && s0.timestampOld == 10.0 && s0.lateCount == 0
            && s1.input == [] && s1.countOld == 0 && s1.countNew == 1
    ensures Start(1.0, [ZERO, ZERO, ONE], [ZERO, ONE], 0) == 0
  {
    var input0, input1 := [ZERO, ZERO, ONE], [ZERO, ONE];
    assert input0[1..] == [ZERO, ONE] && [ZERO, ONE][1..] == [ONE] && input1[1..] == [ONE] && [ONE][1..] == [];
    var (s, o) := Synchronize(1.0, input0, input1);
    assert o == Continue && s.streams[0].input == [ZERO, ONE] && s.streams[1].input == [ONE];
    var (a, oa) := NextInput(1.0, s, 0);
    assert oa == Continue && a.streams[0].input == [ONE] && a.streams[1] == s.streams[1];
    RunOn(1.0, s, 0);
  }

  /** A counter 0 behind a counter 0 in one stream: one slot and almost 2^64 losses too many are counted. */
  lemma RestartBreaksAccount()
    ensures var (r, o) := Program(1.0, [ZERO, ZERO, ONE], [ZERO, ONE], 2);
            && o == Continue && |r.trace| == 1 && r.streams[0].countOld == 0 && r.bursts == [WRAPPED_BURST]
            && !AccountHolds(1.0, [ZERO, ZERO, ONE], [ZERO, ONE], 2)
  {
    ZeroBehindZero();
    var s := Synchronize(1.0, [ZERO, ZERO, ONE], [ZERO, ONE]).0;
    RunOn(1.0, s, 1);
    var b := Program(1.0, [ZERO, ZERO, ONE], [ZERO, ONE], 1).0;
    hide Synchronize, RunPasses;
    var e := EmitFirst(b);
    assert e.streams[0] == b.streams[0] && [ONE][1..] == [];
    var (c, oc) := NextInput(1.0, e, 0);
    assert oc == Continue;
    hide Judge, Resynchronise;
  }

  /** Without a reference date a counter 0 is accepted behind a larger one, and then an assertion fails. */
  lemma RestartCanAbort()
    ensures var input0 := [Packet(5, 0.0, 0), Packet(0, 0.0, 0)];
            var input1 := [Packet(5, 0.0, 0), Packet(6, 0.0, 0)];
            Program(1.0, input0, input1, 2).1 == Abort(840)
  {
    var p, q, r := Packet(5, 0.0, 0), Packet(0, 0.0, 0), Packet(6, 0.0, 0);
    var input0, input1 := [p, q], [p, r];
    assert input0[1..] == [q] && input1[1..] == [r];
    var (s, o) := Synchronize(1.0, input0, input1);
    assert o == Continue;
    assert s.streams[0].input == [q] && s.streams[1].input == [r];
    var (a, oa) := NextInput(1.0, s, 0);
    assert oa == Continue;
    assert a.streams[1].input == [r];
    var (b, ob) := NextInput(1.0, a, 1);
    assert ob == Continue;
    assert RunPasses(1.0, s, 0) == (s, Continue);
    assert RunPasses(1.0, s, 1) == (b, Continue);
  }
}
