/** The merger from the opening of both captures on: the main results about whole runs. */
module MergeRuns {
  import opened StreamMerge
  import opened MergeLog
  import opened MergeConservation
  import opened MergeZip
  import opened MergeClock
  import opened MergeBursts
  import opened Runs

  /** Synchronisation followed by n steps of the first pass. */
  function Program(interval: real, input0: seq<Packet>, input1: seq<Packet>, n: nat): (Pair, Outcome) {
    var (s, o) := Synchronize(interval, input0, input1);
    if o == Continue then RunPasses(interval, s, n) else (s, o)
  }

  /** The counter of stream p's synchronised packet. */
  function Start(interval: real, input0: seq<Packet>, input1: seq<Packet>, p: nat): int
    requires p < 2
  {
    Synchronize(interval, input0, input1).0.streams[p].countOld
  }

  /** No packet with counter 0 was accepted behind the synchronised ones in the first n steps. */
  ghost predicate RestartFree(interval: real, input0: seq<Packet>, input1: seq<Packet>, n: nat) {
    Synchronize(interval, input0, input1).1 == Continue ==> Unrestarted(Program(interval, input0, input1, n).0)
  }

  /** Only the first packet of a capture may have counter 0. */
  ghost predicate NeverRestarts(input: seq<Packet>) {
    forall i :: 1 <= i < |input| ==> input[i].count != 0
  }

  // ---------- synchronisation ----------

  /** A stream before synchronisation: no timing decision was ever taken. */
  ghost predicate Untimed(st: Stream) {
    st.countNew >= 0 && st.timestampOld == 0.0 && st.resync == 0 && st.lateCount == 0 && st.lateMin == 0.0
    && st.dropInternal == 0 && st.dropExternal == 0
  }

  /** Before synchronisation every packet is usable, so exactly one is read. */
  lemma AloneReadsOne(interval: real, st: Stream)
    requires Untimed(st)
    ensures var (r, o) := NextAlone(interval, st);
            && !o.Abort?
            && (o == Continue ==> st.input != [] && r.input == st.input[1..] && Untimed(r)
                                  && r.countNew == st.input[0].count)
  {
  }

  /** What synchronisation establishes. */
  ghost predicate Synchronised(interval: real, r: (Pair, Outcome)) {
    && !r.1.Abort?
    && (r.1 == Continue ==>
        var start0, start1 := r.0.streams[0].countOld, r.0.streams[1].countOld;
        && r.0.trace == [] && r.0.bursts == []
        && start0 >= 0 && start1 >= 0 && ZipEntry(interval, r.0, start0, start1, 0) && Unrestarted(r.0)
        && forall p :: 0 <= p < 2 ==> JustAnchored(r.0.streams[p]))
  }

  /** The clock of a stream starts with its synchronised packet. */
  ghost predicate JustAnchored(st: Stream) {
    && st.log == EMPTY_LOG && st.countOld == st.countNew && st.timestampOld == st.timestamp
    && st.lateCount == 0 && st.lateMin == 0.0
  }

  lemma AnchoredSynchronises(interval: real, s0: Stream, s1: Stream)
    requires interval > 0.0 && Untimed(s0) && Untimed(s1)
    requires Abs(s0.timestamp - s1.timestamp) <= interval
    ensures Synchronised(interval, (System([Anchor(s0), Anchor(s1)], s0.countNew - s1.countNew, [], []), Continue))
  {
    var r: Pair := System([Anchor(s0), Anchor(s1)], s0.countNew - s1.countNew, [], []);
    assert JustSynchronised(interval, r, s0.countNew, s1.countNew);
  }

  lemma {:induction false} AlignSynchronises(interval: real, s0: Stream, s1: Stream)
    requires interval > 0.0 && Untimed(s0) && Untimed(s1)
    ensures Synchronised(interval, Align(interval, s0, s1))
    decreases |s0.input| + |s1.input|
  {
    hide Synchronised, Untimed;
    AloneReadsOne(interval, s0);
    AloneReadsOne(interval, s1);
    var ts := s0.timestamp - s1.timestamp;
    var (t0, o0) := NextAlone(interval, s0);
    var (t1, o1) := NextAlone(interval, s1);
    if ts > interval / 2.0 {
      if o1 == Continue {
        AlignSynchronises(interval, s0, t1);
      } else {
        FailureSynchronises(interval, s0, t1, o1);
      }
    } else if ts < -(interval / 2.0) {
      if o0 == Continue {
        AlignSynchronises(interval, t0, s1);
      } else {
        FailureSynchronises(interval, t0, s1, o0);
      }
    } else {
      AnchoredSynchronises(interval, s0, s1);
    }
  }

  lemma FailureSynchronises(interval: real, s0: Stream, s1: Stream, o: Outcome)
    requires o != Continue && !o.Abort?
    ensures Synchronised(interval, (System([s0, s1], 0, [], []), AtSync(o)))
  {
  }

  lemma SynchronizeSynchronises(interval: real, input0: seq<Packet>, input1: seq<Packet>)
    requires interval > 0.0
    ensures Synchronised(interval, Synchronize(interval, input0, input1))
  {
    hide Synchronised;
    AloneReadsOne(interval, Fresh(input0));
    AloneReadsOne(interval, Fresh(input1));
    var (s0, o0) := NextAlone(interval, Fresh(input0));
    var (s1, o1) := NextAlone(interval, Fresh(input1));
    if o0 != Continue {
      FailureSynchronises(interval, s0, Fresh(input1), o0);
    } else if o1 != Continue {
      FailureSynchronises(interval, s0, s1, o1);
    } else {
      AlignSynchronises(interval, s0, s1);
    }
  }

  // ---------- the account of slots ----------

  /** How many of the first n steps were phantoms. */
  ghost function PhantomSteps(interval: real, input0: seq<Packet>, input1: seq<Packet>, n: nat): nat {
    var (s, o) := Synchronize(interval, input0, input1);
    if o == Continue then Phantoms(interval, s, n) else 0
  }

  /** For both streams the emitted and the removed slots together account for the position. */
  ghost predicate AccountHolds(interval: real, input0: seq<Packet>, input1: seq<Packet>, n: nat) {
    Balanced(Program(interval, input0, input1, n).0,
             Start(interval, input0, input1, 0), Start(interval, input0, input1, 1), 0)
  }

  /**
    In every run of any captures, before every step: the emitted and the removed slots of each stream add up to the
    way from its synchronised packet to its position and the number of phantom steps, and the counter difference is
    the initial one corrected by the removals.  Hence the account holds exactly if no step was a phantom.
  */
  lemma Conservation(interval: real, input0: seq<Packet>, input1: seq<Packet>, n: nat)
    requires interval > 0.0 && Program(interval, input0, input1, n).1 == Continue
    ensures var r, k := Program(interval, input0, input1, n).0, PhantomSteps(interval, input0, input1, n);
            var start0, start1 := Start(interval, input0, input1, 0), Start(interval, input0, input1, 1);
            && |r.trace| + r.streams[0].resync == r.streams[0].countOld - start0 + k
            && |r.trace| + r.streams[1].resync == r.streams[1].countOld - start1 + k
            && r.diff == start0 - start1 + r.streams[0].resync - r.streams[1].resync
            && (AccountHolds(interval, input0, input1, n) <==> k == 0)
  {
    hide Synchronize, RunPasses, Standing;
    SynchronizeSynchronises(interval, input0, input1);
    var s := Synchronize(interval, input0, input1).0;
    RunKeeps(interval, s, s.streams[0].countOld, s.streams[1].countOld, n);
  }

  /**
    The assertions of the program, in every run of any captures.  Those on the clocks (lines 457 and 479) and on
    the counter difference (845) never fail.  Those on the ages fail exactly if an age is negative, and the two of
    the cascade (913 and 919) only if stream 1 accepted a packet with counter 0 in the same step.  A stream that
    accepted one behind a larger counter always makes the next step fail.
  */
  lemma FailedAssertions(interval: real, input0: seq<Packet>, input1: seq<Packet>, n: nat)
    requires interval > 0.0 && Program(interval, input0, input1, n).1 == Continue
    ensures var r, (r', o) := Program(interval, input0, input1, n).0, Program(interval, input0, input1, n + 1);
            && (o == Abort(840) <==> Age(r, 0) < 0)
            && (o == Abort(842) <==> Age(r, 0) >= 0 && Age(r, 1) < 0)
            && (o.Abort? ==> o.line in {840, 842} || (o.line in {913, 919} && FellBack(r')))
            && (!Unfallen(r) ==> o in {Abort(840), Abort(842)})
  {
    hide Synchronize, RunPasses, FirstPass, Emitted, Balanced, Standing, JustSynchronised, Pending, Tidy;
    SynchronizeSynchronises(interval, input0, input1);
    var s := Synchronize(interval, input0, input1).0;
    var start0, start1 := s.streams[0].countOld, s.streams[1].countOld;
    RunKeeps(interval, s, start0, start1, n);
    RunOn(interval, s, n);
    var r, k := RunPasses(interval, s, n).0, Phantoms(interval, s, n);
    StepKeeps(interval, r, start0 - k, start1 - k);
    FallenIsBelow(interval, r, start0 - k, start1 - k);
  }

  lemma FallenIsBelow(interval: real, sys: Pair, start0: int, start1: int)
    requires AtEntry(interval, sys, start0, start1)
    ensures !Unfallen(sys) ==> Age(sys, 0) < 0 || Age(sys, 1) < 0
  {
  }

  lemma RunOn(interval: real, sys: Pair, n: nat)
    ensures var (s, o) := RunPasses(interval, sys, n);
            RunPasses(interval, sys, n + 1) == if o == Continue then FirstPass(interval, s) else (s, o)
  {
  }

  /** Without an accepted counter 0 behind the synchronised packets no step is a phantom, and no assertion fails. */
  lemma RestartFreeIsSound(interval: real, input0: seq<Packet>, input1: seq<Packet>, n: nat)
    requires interval > 0.0 && RestartFree(interval, input0, input1, n)
    ensures PhantomSteps(interval, input0, input1, n) == 0 && !Program(interval, input0, input1, n).1.Abort?
  {
    hide Synchronize, RunPasses, Phantoms;
    SynchronizeSynchronises(interval, input0, input1);
    var (s, o) := Synchronize(interval, input0, input1);
    if o == Continue {
      RunIsSound(interval, s, s.streams[0].countOld, s.streams[1].countOld, n);
    }
  }

  /** Captures in which no packet but the first has counter 0 are free of restarts. */
  lemma NeverRestartsIsEnough(interval: real, input0: seq<Packet>, input1: seq<Packet>, n: nat)
    requires interval > 0.0 && NeverRestarts(input0) && NeverRestarts(input1)
    ensures RestartFree(interval, input0, input1, n)
  {
    var (s, o) := Synchronize(interval, input0, input1);
    if o == Continue {
      SynchronizedFollows(interval, input0, input1, 0);
      SynchronizedFollows(interval, input0, input1, 1);
      ProgramReads(interval, input0, input1, n);
      hide Program, Synchronize, NeverRestarts, Follows, Reads;
      var r := Program(interval, input0, input1, n).0;
      ReadsNoZero(s.streams[0], r.streams[0], input0);
      ReadsNoZero(s.streams[1], r.streams[1], input1);
    }
  }

  lemma ReadsNoZero(s: Stream, r: Stream, input: seq<Packet>)
    requires NeverRestarts(input) && Follows(s, input) && s.log == EMPTY_LOG && Reads(s, r)
    ensures !r.log.restarted
  {
    hide Ledger;
    assert !HasZero(s.input[..|s.input| - |r.input|]);
  }

  // ---------- the zip ----------

  lemma {:induction false} RunZips(interval: real, sys: Pair, start0: nat, start1: nat, n: nat)
    requires ZipEntry(interval, sys, start0, start1, 0)
    ensures var (r, o) := RunPasses(interval, sys, n);
            var k := Phantoms(interval, sys, n);
            && k <= |r.trace| && AllZipped(r, start0, start1, k) && AllLogged(r)
            && (o == Continue ==> ZipEntry(interval, r, start0, start1, k))
  {
    hide AllZipped, AllLogged, BothRest, AtEntry, FirstPass, IsPhantom;
    if n > 0 {
      RunZips(interval, sys, start0, start1, n - 1);
      RunKeeps(interval, sys, start0, start1, n);
      var (s, o) := RunPasses(interval, sys, n - 1);
      if o == Continue {
        var k := Phantoms(interval, sys, n - 1);
        StepZips(interval, s, start0, start1, k);
        StepEmits(interval, s, start0 - k, start1 - k);
      }
    }
  }

  lemma ProgramZips(interval: real, input0: seq<Packet>, input1: seq<Packet>, n: nat)
    requires interval > 0.0 && Synchronize(interval, input0, input1).1 == Continue
    ensures var (r, o) := Program(interval, input0, input1, n);
            var k := PhantomSteps(interval, input0, input1, n);
            var start0, start1 := Start(interval, input0, input1, 0), Start(interval, input0, input1, 1);
            && start0 >= 0 && start1 >= 0 && k <= |r.trace| && AllZipped(r, start0, start1, k) && AllLogged(r)
            && (o == Continue ==> ZipEntry(interval, r, start0, start1, k))
  {
    hide Synchronize, RunPasses, Phantoms, ZipEntry, AllZipped, AllLogged;
    SynchronizeSynchronises(interval, input0, input1);
    var s := Synchronize(interval, input0, input1).0;
    RunZips(interval, s, s.streams[0].countOld, s.streams[1].countOld, n);
  }

  /**
    In every run of any captures, at its end as well as before every step: each slot of the trace but those of the
    phantom steps, which are the first ones, tells for each stream whether its packet number
    start + 1 + (slots since the phantoms) + (removals so far) was accepted and not dropped as out of step, and with
    which signal strength.
  */
  lemma TraceIsZip(interval: real, input0: seq<Packet>, input1: seq<Packet>, n: nat, p: nat, i: nat)
    requires interval > 0.0 && p < 2 && Synchronize(interval, input0, input1).1 == Continue
    requires PhantomSteps(interval, input0, input1, n) <= i < |Program(interval, input0, input1, n).0.trace|
    ensures var r, k := Program(interval, input0, input1, n).0, PhantomSteps(interval, input0, input1, n);
            var st := r.streams[p];
            var place := Start(interval, input0, input1, p) + 1 + (i - k) + RemovedBy(st.log.removed, i);
            && (r.trace[i].Bit(p) <==> Received(st, place))
            && r.trace[i].Strength(p) == Strength(st, place)
  {
    hide Program, Start, PhantomSteps, ZipEntry, Received, Strength, AllLogged;
    ProgramZips(interval, input0, input1, n);
    var r, k := Program(interval, input0, input1, n).0, PhantomSteps(interval, input0, input1, n);
    var start := Start(interval, input0, input1, p);
    assert Zipped(r, p, start, k);
    assert Place(r, p, start, k, i) == start + 1 + (i - k) + RemovedBy(r.streams[p].log.removed, i);
  }

  /** Without resynchronisation that is the plain zip of the two reception indicators. */
  lemma TraceIsPlainZip(interval: real, input0: seq<Packet>, input1: seq<Packet>, n: nat, i: nat)
    requires interval > 0.0 && Synchronize(interval, input0, input1).1 == Continue
    requires var (r, k) := (Program(interval, input0, input1, n).0, PhantomSteps(interval, input0, input1, n));
             k + i < |r.trace| && r.streams[0].resync == r.streams[1].resync == 0
    ensures var r, slot := Program(interval, input0, input1, n).0, PhantomSteps(interval, input0, input1, n) + i;
            var c0, c1 := Start(interval, input0, input1, 0) + 1 + i, Start(interval, input0, input1, 1) + 1 + i;
            && (r.trace[slot].first <==> Received(r.streams[0], c0)) && r.trace[slot].row == Strength(r.streams[0], c0)
            && (r.trace[slot].second <==> Received(r.streams[1], c1)) && r.trace[slot].col == Strength(r.streams[1], c1)
  {
    hide Program, Start, PhantomSteps, ZipEntry, Received, Strength, AllZipped;
    ProgramZips(interval, input0, input1, n);
    TraceIsZip(interval, input0, input1, n, 0, PhantomSteps(interval, input0, input1, n) + i);
    TraceIsZip(interval, input0, input1, n, 1, PhantomSteps(interval, input0, input1, n) + i);
  }

  // ---------- what became of the packets ----------

  /** After synchronisation, stream p goes on with the packets behind its synchronised one. */
  ghost predicate Follows(st: Stream, input: seq<Packet>) {
    && |st.input| < |input| && st.input == input[|input| - |st.input|..]
    && input[|input| - |st.input| - 1].count == st.countNew
  }

  lemma AloneFollows(interval: real, st: Stream, input: seq<Packet>)
    requires Untimed(st) && Follows(st, input)
    ensures var (r, o) := NextAlone(interval, st);
            o == Continue ==> Untimed(r) && Follows(r, input)
  {
    hide NextAlone;
    AloneReadsOne(interval, st);
  }

  lemma {:induction false} AlignLeaves(interval: real, s0: Stream, s1: Stream, input0: seq<Packet>, input1: seq<Packet>)
    requires Untimed(s0) && Untimed(s1) && Follows(s0, input0) && Follows(s1, input1)
    ensures var (r, o) := Align(interval, s0, s1);
            o == Continue ==> Follows(r.streams[0], input0) && Follows(r.streams[1], input1)
    decreases |s0.input| + |s1.input|
  {
    hide NextAlone, Untimed, Follows;
    AloneFollows(interval, s0, input0);
    AloneFollows(interval, s1, input1);
    var ts := s0.timestamp - s1.timestamp;
    var (t0, o0) := NextAlone(interval, s0);
    var (t1, o1) := NextAlone(interval, s1);
    if ts > interval / 2.0 {
      if o1 == Continue {
        AlignLeaves(interval, s0, t1, input0, input1);
      }
    } else if ts < -(interval / 2.0) {
      if o0 == Continue {
        AlignLeaves(interval, t0, s1, input0, input1);
      }
    } else {
      AnchorFollows(s0, input0);
      AnchorFollows(s1, input1);
    }
  }

  lemma AnchorFollows(st: Stream, input: seq<Packet>)
    requires Follows(st, input)
    ensures Follows(Anchor(st), input)
  {
  }

  lemma SynchronizeLeaves(interval: real, input0: seq<Packet>, input1: seq<Packet>)
    ensures var (r, o) := Synchronize(interval, input0, input1);
            o == Continue ==> Follows(r.streams[0], input0) && Follows(r.streams[1], input1)
  {
    AloneReadsOne(interval, Fresh(input0));
    AloneReadsOne(interval, Fresh(input1));
    var (s0, o0) := NextAlone(interval, Fresh(input0));
    var (s1, o1) := NextAlone(interval, Fresh(input1));
    if o0 == Continue && o1 == Continue {
      AlignLeaves(interval, s0, s1, input0, input1);
    }
    hide NextAlone, Align;
  }

  /** Stream st has read its capture from behind `first`, the packet with counter `start`, up to `last`. */
  ghost predicate HasRead(st: Stream, input: seq<Packet>, start: int, first: nat, last: nat) {
    && first < last == |input| - |st.input| && last <= |input|
    && input[first].count == start && st.input == input[last..]
    && Ledger(st) == multiset(input[first + 1..last])
  }

  lemma NothingEntered(s: Stream)
    requires s.log == EMPTY_LOG
    ensures Ledger(s) == multiset{}
  {
  }

  lemma Suffixes(input: seq<Packet>, from: nat, n: nat)
    requires from + n <= |input|
    ensures input[from..][..n] == input[from..from + n] && input[from..][n..] == input[from + n..]
  {
  }

  lemma ReadBehind(s: Stream, r: Stream, input: seq<Packet>)
    requires Follows(s, input) && s.log == EMPTY_LOG && Reads(s, r)
    ensures exists first: nat, last: nat :: HasRead(r, input, s.countNew, first, last)
  {
    hide Ledger, HasZero;
    var first, last := |input| - |s.input| - 1, |input| - |r.input|;
    Suffixes(input, first + 1, last - first - 1);
    NothingEntered(s);
    assert multiset{} + multiset(input[first + 1..last]) == multiset(input[first + 1..last]);
    assert HasRead(r, input, s.countNew, first, last);
  }

  lemma SynchronizedFollows(interval: real, input0: seq<Packet>, input1: seq<Packet>, p: nat)
    requires interval > 0.0 && p < 2 && Synchronize(interval, input0, input1).1 == Continue
    ensures var s := Synchronize(interval, input0, input1).0.streams[p];
            && Follows(s, if p == 0 then input0 else input1) && s.log == EMPTY_LOG
            && s.countNew == Start(interval, input0, input1, p)
  {
    SynchronizeSynchronises(interval, input0, input1);
    SynchronizeLeaves(interval, input0, input1);
    hide Synchronize, Follows, ZipEntry;
  }

  /**
    In every run the log accounts for the packets of the captures: those between the synchronised packet and the
    unread rest are exactly the kept, the dropped and the refused ones.
  */
  lemma EveryPacketIsLogged(interval: real, input0: seq<Packet>, input1: seq<Packet>, n: nat, p: nat)
    requires interval > 0.0 && p < 2 && Synchronize(interval, input0, input1).1 == Continue
    ensures var input := if p == 0 then input0 else input1;
            var st := Program(interval, input0, input1, n).0.streams[p];
            exists first: nat, last: nat :: HasRead(st, input, Start(interval, input0, input1, p), first, last)
  {
    SynchronizedFollows(interval, input0, input1, p);
    ProgramReads(interval, input0, input1, n);
    hide *;
    ReadBehind(Synchronize(interval, input0, input1).0.streams[p], Program(interval, input0, input1, n).0.streams[p],
               if p == 0 then input0 else input1);
  }

  lemma ProgramReads(interval: real, input0: seq<Packet>, input1: seq<Packet>, n: nat)
    requires Synchronize(interval, input0, input1).1 == Continue
    ensures BothRead(Synchronize(interval, input0, input1).0, Program(interval, input0, input1, n).0)
    ensures forall p :: 0 <= p < 2 ==>
      Reads(Synchronize(interval, input0, input1).0.streams[p], Program(interval, input0, input1, n).0.streams[p])
  {
    hide Synchronize, Reads;
    RunReads(interval, Synchronize(interval, input0, input1).0, n);
  }

  lemma EntryIsTidy(interval: real, sys: Pair, start0: nat, start1: nat, k: nat, p: nat)
    requires p < 2 && ZipEntry(interval, sys, start0, start1, k)
    ensures Logged(sys.streams[p]) && (Unrestarted(sys) ==> Rising(sys.streams[p].log.kept))
    ensures |Ledger(sys.streams[p])| == |sys.streams[p].log.kept| + sys.streams[p].dropInternal
                                        + sys.streams[p].dropExternal
  {
    hide AllZipped, AllLogged, Balanced, Pending;
  }

  /**
    In every run of any captures, every packet read was kept or is counted as dropped.  The kept ones have
    increasing counters, unless a packet with counter 0 was accepted.
  */
  lemma DropsAreCounted(interval: real, input0: seq<Packet>, input1: seq<Packet>, n: nat, p: nat)
    requires interval > 0.0 && p < 2 && Program(interval, input0, input1, n).1 == Continue
    ensures var st := Program(interval, input0, input1, n).0.streams[p];
            && |st.log.late| == st.dropInternal && |st.log.outOfStep| == st.dropExternal && st.log.refused == []
            && |Ledger(st)| == |st.log.kept| + st.dropInternal + st.dropExternal
            && (RestartFree(interval, input0, input1, n) ==> Rising(st.log.kept))
  {
    hide Synchronize, RunPasses, PhantomSteps, ZipEntry, AllZipped, AllLogged, Rising;
    ProgramZips(interval, input0, input1, n);
    EntryIsTidy(interval, Program(interval, input0, input1, n).0, Start(interval, input0, input1, 0),
                Start(interval, input0, input1, 1), PhantomSteps(interval, input0, input1, n), p);
  }

  // ---------- clocks ----------

  /** The synchronised packets of both captures are dated late enough for what is still to be read. */
  ghost predicate WellDated(interval: real, input0: seq<Packet>, input1: seq<Packet>) {
    var (s, o) := Synchronize(interval, input0, input1);
    o == Continue ==>
      forall p :: 0 <= p < 2 ==> s.streams[p].timestamp > Drift(interval, |s.streams[p].input|)
  }

  /** It is enough that each date of a capture is larger than half a slot for each of its packets. */
  lemma LateDatesAreEnough(interval: real, input0: seq<Packet>, input1: seq<Packet>)
    requires interval > 0.0
    requires forall i :: 0 <= i < |input0| ==> input0[i].ts > Drift(interval, |input0|)
    requires forall i :: 0 <= i < |input1| ==> input1[i].ts > Drift(interval, |input1|)
    ensures WellDated(interval, input0, input1)
  {
    AloneDates(interval, Fresh(input0), |input0|);
    AloneDates(interval, Fresh(input1), |input1|);
    var (s0, o0) := NextAlone(interval, Fresh(input0));
    var (s1, o1) := NextAlone(interval, Fresh(input1));
    if o0 == Continue && o1 == Continue {
      AlignDates(interval, s0, s1, |input0|, |input1|);
      var (s, o) := Align(interval, s0, s1);
      if o == Continue {
        DriftGrows(interval, |s.streams[0].input|, |input0|);
        DriftGrows(interval, |s.streams[1].input|, |input1|);
      }
    }
    hide NextAlone, Align;
  }

  lemma DriftGrows(interval: real, a: nat, b: nat)
    requires interval > 0.0 && a <= b
    ensures Drift(interval, a) <= Drift(interval, b)
  {
    SpanIsPositive(interval, b - a);
    assert Drift(interval, b) == Drift(interval, a) + Drift(interval, b - a);
  }

  /** All dates to come, and that of the last packet, are beyond the drift of n packets. */
  ghost predicate DatesBeyond(interval: real, st: Stream, n: nat) {
    && |st.input| <= n && st.timestamp > Drift(interval, n)
    && forall i :: 0 <= i < |st.input| ==> st.input[i].ts > Drift(interval, n)
  }

  lemma AloneDates(interval: real, st: Stream, n: nat)
    requires Untimed(st) && |st.input| <= n && forall i :: 0 <= i < |st.input| ==> st.input[i].ts > Drift(interval, n)
    ensures var (r, o) := NextAlone(interval, st);
            o == Continue ==> Untimed(r) && DatesBeyond(interval, r, n)
  {
    hide Drift;
    AloneReadsOne(interval, st);
  }

  lemma {:induction false} AlignDates(interval: real, s0: Stream, s1: Stream, n0: nat, n1: nat)
    requires Untimed(s0) && Untimed(s1) && DatesBeyond(interval, s0, n0) && DatesBeyond(interval, s1, n1)
    ensures var (r, o) := Align(interval, s0, s1);
            o == Continue ==> DatesBeyond(interval, r.streams[0], n0) && DatesBeyond(interval, r.streams[1], n1)
    decreases |s0.input| + |s1.input|
  {
    hide Drift, NextAlone, Untimed;
    AloneDates(interval, s0, n0);
    AloneDates(interval, s1, n1);
    var (t0, o0) := NextAlone(interval, s0);
    var (t1, o1) := NextAlone(interval, s1);
    if o0 == Continue {
      AlignDates(interval, t0, s1, n0, n1);
    }
    if o1 == Continue {
      AlignDates(interval, s0, t1, n0, n1);
    }
  }

  lemma AnchoredIsTimed(interval: real, sys: Pair)
    requires interval > 0.0 && forall p :: 0 <= p < 2 ==> JustAnchored(sys.streams[p])
    requires forall p :: 0 <= p < 2 ==> sys.streams[p].timestamp > Drift(interval, |sys.streams[p].input|)
    ensures AllTimed(interval, sys, sys.streams[0].countOld, sys.streams[1].countOld)
  {
    assert Span(interval, 0) == 0.0;
  }

  lemma {:induction false} RunClocks(interval: real, sys: Pair, start0: nat, start1: nat, n: nat)
    requires ZipEntry(interval, sys, start0, start1, 0) && AllTimed(interval, sys, start0, start1)
    ensures var (r, o) := RunPasses(interval, sys, n);
            && (Unfallen(r) && o == Continue ==> AllTimed(interval, r, start0, start1))
            && (o.Exit? ==> o == Exit(-3))
  {
    hide FirstPass, AllTimed, ZipEntry, Unfallen, SomeUndated, AllGuarded;
    if n > 0 {
      RunClocks(interval, sys, start0, start1, n - 1);
      var (s, o) := RunPasses(interval, sys, n - 1);
      if o == Continue {
        StepRemembers(interval, s);
        RunZips(interval, sys, start0, start1, n - 1);
        EntryIsBehindStart(interval, s, start0, start1, Phantoms(interval, sys, n - 1));
        if Unfallen(s) {
          StepClocks(interval, s, start0, start1);
          TimedIsGuarded(interval, s, start0, start1);
          StepGuards(interval, s);
        }
      }
    }
  }

  lemma EntryIsBehindStart(interval: real, sys: Pair, start0: nat, start1: nat, k: nat)
    requires ZipEntry(interval, sys, start0, start1, k)
    ensures interval > 0.0 && sys.streams[0].countOld >= start0 && sys.streams[1].countOld >= start1
    ensures !Unfallen(sys) ==> FirstPass(interval, sys).1.Abort?
  {
    FallenIsBelow(interval, sys, start0 - k, start1 - k);
  }

  lemma TimedIsGuarded(interval: real, sys: Pair, start0: int, start1: int)
    requires interval > 0.0 && AllTimed(interval, sys, start0, start1)
    ensures AllGuarded(interval, sys) && !SomeUndated(interval, sys)
  {
    hide Dated;
    DatedIsPositive(interval, sys.streams[0], start0);
    DatedIsPositive(interval, sys.streams[1], start1);
    LeastIsNotNegative(interval, sys.streams[0]);
    LeastIsNotNegative(interval, sys.streams[1]);
  }

  lemma AnchoredIsGuarded(interval: real, sys: Pair)
    requires interval > 0.0 && forall p :: 0 <= p < 2 ==> JustAnchored(sys.streams[p])
    ensures AllGuarded(interval, sys)
  {
  }

  /**
    In every run of any captures, before every step: a stream's last packet arrived within one slot of its
    reference date exactly if there is a reference date or the packet's own date is between 0 and one slot.
  */
  lemma SlotsTrack(interval: real, input0: seq<Packet>, input1: seq<Packet>, n: nat, p: nat)
    requires interval > 0.0 && p < 2 && Program(interval, input0, input1, n).1 == Continue
    ensures var st := Program(interval, input0, input1, n).0.streams[p];
            InSlot(interval, st) <==> st.timestampOld != 0.0 || 0.0 <= st.timestamp <= interval
  {
    hide Synchronize, RunPasses;
    SynchronizeSynchronises(interval, input0, input1);
    var s := Synchronize(interval, input0, input1).0;
    AnchoredIsGuarded(interval, s);
    RunGuards(interval, s, n);
  }

  /**
    In every run of well dated captures, before every step but one that is about to fail (FailedAssertions): each
    stream's last packet arrived within one slot of its reference date, the packets of its window of successively
    late ones are late by at most one slot, and once the stream was resynchronised the recorded minimum is the
    smallest lateness of a non-empty window.
  */
  lemma ClocksTrack(interval: real, input0: seq<Packet>, input1: seq<Packet>, n: nat, p: nat)
    requires interval > 0.0 && p < 2 && WellDated(interval, input0, input1)
    requires Program(interval, input0, input1, n).1 == Continue && Unfallen(Program(interval, input0, input1, n).0)
    ensures var st := Program(interval, input0, input1, n).0.streams[p];
            && 0.0 < st.timestampOld <= st.timestamp <= st.timestampOld + interval
            && |st.log.window| == st.lateCount
            && (forall i :: 0 <= i < |st.log.window| ==> 0.0 < Lateness(interval, st, st.log.window[i]) <= interval)
            && (st.lateMin == 0.0 <==> !st.log.corrected)
            && (st.log.corrected && st.log.window != [] ==> Smallest(interval, st, st.log.window, st.lateMin))
  {
    hide Synchronize, RunPasses, Lateness, Dated;
    SynchronizeSynchronises(interval, input0, input1);
    var s := Synchronize(interval, input0, input1).0;
    AnchoredIsTimed(interval, s);
    RunClocks(interval, s, s.streams[0].countOld, s.streams[1].countOld, n);
    var st := RunPasses(interval, s, n).0.streams[p];
    DatedIsPositive(interval, st, s.streams[p].countOld);
    LeastIsNotNegative(interval, st);
  }

  /** How a run can end with a failed assertion. */
  ghost predicate FailsAsExplained(interval: real, input0: seq<Packet>, input1: seq<Packet>, n: nat) {
    var (r, o) := Program(interval, input0, input1, n);
    o.Abort? && Explained(r, o.line) && !RestartFree(interval, input0, input1, n)
  }

  /**
    How a run of any captures can end: at the end of a capture, with a capture that is malformed (-3) or ends
    before synchronisation (-4), with a failed assertion after a restart, or with streams that drifted apart (4).
    The last is possible only if a stream has no reference date and its last packet's own date is not between 0
    and one slot; so it does not happen in well dated captures.
  */
  lemma Outcomes(interval: real, input0: seq<Packet>, input1: seq<Packet>, n: nat)
    requires interval > 0.0
    ensures var (r, o) := Program(interval, input0, input1, n);
            && (|| o in {Continue, EndOfInput, Exit(-3), Exit(-4)}
                || (o == Exit(4) && SomeUndated(interval, r))
                || FailsAsExplained(interval, input0, input1, n))
            && (WellDated(interval, input0, input1) ==> o != Exit(4))
  {
    SynchronizeSynchronises(interval, input0, input1);
    SynchronizeExits(interval, input0, input1);
    hide Synchronize, RunPasses, SomeUndated;
    var (s, o) := Synchronize(interval, input0, input1);
    if RestartFree(interval, input0, input1, n) {
      RestartFreeIsSound(interval, input0, input1, n);
    }
    if o == Continue {
      var start0, start1 := s.streams[0].countOld, s.streams[1].countOld;
      RunKeeps(interval, s, start0, start1, n);
      AnchoredIsGuarded(interval, s);
      RunGuards(interval, s, n);
      if WellDated(interval, input0, input1) {
        AnchoredIsTimed(interval, s);
        RunClocks(interval, s, start0, start1, n);
      }
    }
  }

  lemma {:induction false} AlignExits(interval: real, s0: Stream, s1: Stream)
    requires Untimed(s0) && Untimed(s1)
    ensures Align(interval, s0, s1).1 in {Continue, Exit(-3), Exit(-4)}
    decreases |s0.input| + |s1.input|
  {
    AloneReadsOne(interval, s0);
    AloneReadsOne(interval, s1);
    var (t0, o0) := NextAlone(interval, s0);
    var (t1, o1) := NextAlone(interval, s1);
    if o0 == Continue {
      AlignExits(interval, t0, s1);
    }
    if o1 == Continue {
      AlignExits(interval, s0, t1);
    }
  }

  lemma SynchronizeExits(interval: real, input0: seq<Packet>, input1: seq<Packet>)
    ensures Synchronize(interval, input0, input1).1 in {Continue, Exit(-3), Exit(-4)}
  {
    AloneReadsOne(interval, Fresh(input0));
    AloneReadsOne(interval, Fresh(input1));
    var (s0, o0) := NextAlone(interval, Fresh(input0));
    var (s1, o1) := NextAlone(interval, Fresh(input1));
    if o0 == Continue && o1 == Continue {
      AlignExits(interval, s0, s1);
    }
    hide Align;
  }

  /**
    The dates matter.  With captures that start at date 0, the mark of a missing date, stream 1's packet is
    accepted a quarter of a slot before its date and the program gives up.
  */
  lemma UndatedCanExit()
    ensures var input0 := [Packet(5, 0.0, 0), Packet(6, 1.0, 0)];
            var input1 := [Packet(5, 0.0, 0), Packet(6, -0.25, 0)];
            Program(1.0, input0, input1, 2).1 == Exit(4)
  {
    var p, q, r := Packet(5, 0.0, 0), Packet(6, 1.0, 0), Packet(6, -0.25, 0);
    var input0, input1 := [p, q], [p, r];
    assert input0[1..] == [q] && input1[1..] == [r];
    var (s, o) := Synchronize(1.0, input0, input1);
    assert o == Continue && s.streams[0].input == [q] && s.streams[1].input == [r];
    var (a, oa) := NextInput(1.0, s, 0);
    assert oa == Continue && a.streams[1].input == [r];
    var (b, ob) := NextInput(1.0, a, 1);
    assert ob == Continue;
    assert RunPasses(1.0, s, 0) == (s, Continue);
    assert RunPasses(1.0, s, 1) == (b, Continue);
  }

  /** And packets are accepted seven slots late. */
  lemma UndatedCanLeaveSlot()
    ensures var input := [Packet(5, 0.0, 0), Packet(6, 8.0, 0)];
            var (r, o) := Program(1.0, input, input, 1);
            o == Continue && !InSlot(1.0, r.streams[0]) && !InSlot(1.0, r.streams[1])
  {
    var p, q := Packet(5, 0.0, 0), Packet(6, 8.0, 0);
    var input := [p, q];
    assert input[1..] == [q];
    var (s, o) := Synchronize(1.0, input, input);
    assert o == Continue && s.streams[0].input == [q] && s.streams[1].input == [q];
    var (a, oa) := NextInput(1.0, s, 0);
    assert oa == Continue && a.streams[1].input == [q];
    var (b, ob) := NextInput(1.0, a, 1);
    assert ob == Continue;
    assert RunPasses(1.0, s, 0) == (s, Continue);
  }

  // ---------- bursts ----------

  /**
    In every run of any captures the counted joint bursts are the maximal runs of joint losses of the trace, and one
    burst of 2^64 - 1 losses for each phantom step; so they are those runs, in order, exactly if no step was a phantom.
  */
  lemma BurstsAreLossRuns(interval: real, input0: seq<Packet>, input1: seq<Packet>, n: nat)
    requires interval > 0.0 && Synchronize(interval, input0, input1).1 == Continue
    ensures var r, k := Program(interval, input0, input1, n).0, PhantomSteps(interval, input0, input1, n);
            && multiset(r.bursts) == multiset(LossRuns(r.trace)) + multiset(Wrapped(k))
            && (r.bursts == LossRuns(r.trace) <==> k == 0)
  {
    SynchronizeSynchronises(interval, input0, input1);
    var s := Synchronize(interval, input0, input1).0;
    assert Counted(s.trace, s.bursts, 0);
    hide Synchronize, RunPasses, Pending, Tidy, LossRuns;
    RunIsCounted(interval, s, s.streams[0].countOld, s.streams[1].countOld, n);
    var r, k := RunPasses(interval, s, n).0, Phantoms(interval, s, n);
    assert |multiset(r.bursts)| == |multiset(LossRuns(r.trace))| + |multiset(Wrapped(k))|;
  }
}
