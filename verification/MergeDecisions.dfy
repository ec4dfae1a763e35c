/** The decisions of the merger, spelled out in dates and counters: readings, removals and drops. */
module MergeDecisions {
  import opened StreamMerge
  import opened MergeConservation
  import opened MergeZip
  import opened MergeClock
  import opened MergeGaps
  import opened MergeRuns

  // ---------- read_input ----------

  /** When the packet that is read next is expected: the counters differ in 64 bits. */
  ghost function Expected(interval: real, st: Stream): real
    requires st.input != []
  {
    var p := st.input[0];
    var steps := p.count - st.countNew + if p.count < st.countNew then 18446744073709551616 else 0;
    st.timestampOld + interval * (steps as real)
  }

  /**
    What read_input makes of any packet.  A counter that is not larger is refused, unless it is 0.  Without a
    reference date every other packet is usable.  With one, half a slot of earliness and one slot of lateness are
    allowed; a packet that is not late corrects the reference date, and so does the 5001st successive late one.
  */
  lemma ReadingDecides(interval: real, st: Stream)
    requires interval > 0.0 && st.input != []
    ensures var p, lateness := st.input[0], st.input[0].ts - Expected(interval, st);
            var reading := ReadInput(interval, st).1;
            if p.count != 0 && p.count <= st.countNew then reading == Malformed
            else if st.timestampOld == 0.0 then reading == Usable
            else
              && (reading == Malformed <==> lateness < -0.5 * interval)
              && (reading == Backward <==> -0.5 * interval <= lateness <= 0.0)
              && (reading == Usable <==> 0.0 < lateness <= interval && st.lateCount < 5000)
              && (reading == Forward <==> 0.0 < lateness <= interval && st.lateCount >= 5000)
              && (reading == TooLate <==> lateness > interval)
  {
  }

  /** A malformed packet ends the program with -3. */
  lemma MalformedExits(interval: real, sys: Pair, p: nat)
    requires p < 2
    ensures ReadInput(interval, sys.streams[p]).1 == Malformed ==> NextInput(interval, sys, p).1 == Exit(-3)
    ensures ReadInput(interval, sys.streams[p]).1 == EndOfFile ==> NextInput(interval, sys, p).1 == EndOfInput
  {
  }

  /** The index of a signal strength in the table is its two's complement; a lost packet shares that of -128. */
  lemma SignalBytes(s: Signal)
    ensures Byte(s) == s % 256 && Byte(-1) == 255 && NO_SIGNAL == 128 && (Byte(s) == NO_SIGNAL <==> s == -128)
    ensures forall t: Signal :: Byte(s) == Byte(t) ==> s == t
  {
  }

  // ---------- next_input ----------

  /** How far the reference date of `st`, just read as stream p, is ahead of the date that the other clock gives it. */
  ghost function Ahead(interval: real, sys: Pair, p: nat, st: Stream): real
    requires p < 2
  {
    var other := sys.streams[1 - p];
    var steps := st.countNew - other.countNew + if p == 0 then -sys.diff else sys.diff;
    st.timestampOld - (other.timestampOld + interval * (steps as real))
  }

  /** One slot of stream q was removed; its packet is gone with it if it is the next one, and then q is read again. */
  ghost predicate Removes(before: Pair, t: Turn, q: nat)
    requires q < 2
  {
    var st, r := before.streams[q], t.sys.streams[q];
    && r.resync == st.resync + 1 && r.log.removed == st.log.removed + [|before.trace|]
    && t.sys.diff == before.diff + (if q == 0 then 1 else -1)
    && t.sys.streams[1 - q] == before.streams[1 - q] && r.countNew == st.countNew
    && r.timestampOld == st.timestampOld && r.signalOld == st.signalOld
    && if st.countNew == st.countOld + 1 then
         t.Again? && t.stream == q && r.countOld == st.countOld && r.signalNew == st.signalOld
       else
         t == Stop(t.sys, Continue) && r.countOld == st.countOld + 1 && r.signalNew == st.signalNew
  }

  lemma JudgeDecides(interval: real, sys: Pair, p: nat, st: Stream, reading: Reading)
    requires interval > 0.0 && p < 2
    ensures var read: Pair := sys.(streams := sys.streams[p := st]);
            var v, ahead := Judge(interval, read.streams, read.diff, p, reading), Ahead(interval, sys, p, st);
            v == if reading == Backward && ahead < -0.505 * interval then Remove(p)
                 else if reading == Forward && ahead > 0.505 * interval then Remove(1 - p)
                 else Stay
  {
  }

  lemma RemovalRemoves(sys: Pair, q: nat)
    requires q < 2
    ensures Removes(sys, Resynchronise(sys, Remove(q)), q)
  {
  }

  /**
    When a reading removes a slot.  One that corrected the reference date to the packet's own date removes one of its
    own stream exactly if the new date is more than 1.01 half slots behind the other stream's clock.  One that
    corrected it because all of a window were late removes one of the other stream exactly if the new date is more
    than 1.01 half slots ahead.  Otherwise the reading is final, and neither slots nor the difference change.
  */
  lemma TurnDecides(interval: real, sys: Pair, p: nat)
    requires interval > 0.0 && p < 2
    ensures var (st, reading) := ReadInput(interval, sys.streams[p]);
            var read: Pair := sys.(streams := sys.streams[p := st]);
            var t, ahead := TakeTurn(interval, sys, p), Ahead(interval, sys, p, st);
            Accepted(reading) ==>
              if reading == Backward && ahead < -0.505 * interval then Removes(read, t, p)
              else if reading == Forward && ahead > 0.505 * interval then Removes(read, t, 1 - p)
              else t == Stop(read, Continue)
  {
    hide ReadInput, Judge, Ahead, Removes;
    var (st, reading) := ReadInput(interval, sys.streams[p]);
    var read: Pair := sys.(streams := sys.streams[p := st]);
    JudgeDecides(interval, sys, p, st, reading);
    RemovalRemoves(read, p);
    RemovalRemoves(read, 1 - p);
  }

  /** So a call of next_input whose first reading is accepted takes a slot from a stream exactly in these cases. */
  lemma NextDecides(interval: real, sys: Pair, p: nat)
    requires interval > 0.0 && p < 2 && Accepted(ReadInput(interval, sys.streams[p]).1)
    ensures var (st, reading) := ReadInput(interval, sys.streams[p]);
            var read: Pair := sys.(streams := sys.streams[p := st]);
            var (r, o) := NextInput(interval, sys, p);
            var behind := reading == Backward && Ahead(interval, sys, p, st) < -0.505 * interval;
            var before := reading == Forward && Ahead(interval, sys, p, st) > 0.505 * interval;
            && (behind ==> r.streams[p].resync > sys.streams[p].resync)
            && (before ==> r.streams[1 - p].resync > sys.streams[1 - p].resync)
            && (!behind && !before ==> (r, o) == (read, Continue))
  {
    hide ReadInput, TakeTurn, Ahead;
    ReadKeeps(interval, sys.streams[p]);
    TurnDecides(interval, sys, p);
    var t := TakeTurn(interval, sys, p);
    if t.Again? {
      NextCounts(interval, t.sys, t.stream);
    }
  }

  // ---------- drops ----------

  /** The two packets of a common slot are more than a slot apart. */
  ghost predicate Apart(interval: real, sys: Pair) {
    && Age(sys, 0) == Age(sys, 1) >= 0
    && (sys.streams[0].timestamp - sys.streams[1].timestamp > interval
        || sys.streams[1].timestamp - sys.streams[0].timestamp > interval)
  }

  /** Stream 1's packet is more than a slot behind, or more than half a slot before, stream 0's reference date. */
  ghost predicate SecondStrays(interval: real, sys: Pair) {
    var date, other := sys.streams[1].timestamp, sys.streams[0].timestampOld;
    date > other + interval || date < other - 0.5 * interval
  }

  ghost predicate FirstStrays(interval: real, sys: Pair) {
    var date, other := sys.streams[0].timestamp, sys.streams[1].timestampOld;
    date > other + interval || date < other - 0.5 * interval
  }

  /** The stream that loses its packet when two are apart: stream 1 is judged first. */
  ghost predicate Loses(interval: real, sys: Pair, p: nat) {
    && Apart(interval, sys)
    && if p == 1 then SecondStrays(interval, sys) else !SecondStrays(interval, sys) && FirstStrays(interval, sys)
  }

  /** The packet that was kept last was dropped as out of step, and nothing else. */
  ghost predicate Dropped(s: Stream, r: Stream, n: nat) {
    && r.dropExternal == s.dropExternal + n
    && |r.log.outOfStep| == |s.log.outOfStep| + n && r.log.outOfStep[..|s.log.outOfStep|] == s.log.outOfStep
    && (n == 1 ==> s.log.kept != [] && r.log.outOfStep[|s.log.outOfStep|] == s.log.kept[|s.log.kept| - 1])
  }

  lemma {:induction false} NextExits(interval: real, sys: Pair, p: nat)
    requires p < 2
    ensures NextInput(interval, sys, p).1 != Exit(4)
    decreases Left(sys)
  {
    var t := TakeTurn(interval, sys, p);
    if t.Again? {
      NextExits(interval, t.sys, t.stream);
    }
  }

  /** What a part of a step drops: one packet of stream `loser`, or none if that is no stream. */
  ghost predicate Drops(sys: Pair, r: (Pair, Outcome), loser: nat) {
    && r.1 != Exit(4)
    && Dropped(sys.streams[0], r.0.streams[0], if loser == 0 then 1 else 0)
    && Dropped(sys.streams[1], r.0.streams[1], if loser == 1 then 1 else 0)
  }

  const NONE: nat := 2

  lemma UndoDrops(interval: real, sys: Pair, p: nat)
    requires p < 2 && sys.streams[p].log.kept != []
    ensures Drops(sys, NextInput(interval, Undo(interval, sys, p), p), p)
  {
    hide NextInput;
    NextCounts(interval, Undo(interval, sys, p), p);
    NextExits(interval, Undo(interval, sys, p), p);
  }

  lemma AdvanceDropsNothing(interval: real, sys: Pair)
    ensures Drops(sys, AdvanceBoth(interval, EmitBoth(sys)), NONE)
  {
    hide NextInput;
    var both := EmitBoth(sys);
    NextCounts(interval, both, 0);
    NextExits(interval, both, 0);
    var a := NextInput(interval, both, 0).0;
    NextCounts(interval, a, 1);
    NextExits(interval, a, 1);
    var b := NextInput(interval, a, 1).0;
    NextCounts(interval, b, 1);
    NextExits(interval, b, 1);
  }

  lemma EmitDropsNothing(interval: real, sys: Pair)
    ensures Drops(sys, NextInput(interval, EmitFirst(sys), 0), NONE)
    ensures Drops(sys, NextInput(interval, EmitSecond(sys), 1), NONE)
  {
    hide NextInput;
    NextCounts(interval, EmitFirst(sys), 0);
    NextExits(interval, EmitFirst(sys), 0);
    NextCounts(interval, EmitSecond(sys), 1);
    NextExits(interval, EmitSecond(sys), 1);
  }

  /** The stream that loses a packet in this step, if any. */
  ghost function Loser(interval: real, sys: Pair): nat {
    if Loses(interval, sys, 0) then 0 else if Loses(interval, sys, 1) then 1 else NONE
  }

  lemma KeptAtEntry(interval: real, sys: Pair, start0: int, start1: int)
    requires AtEntry(interval, sys, start0, start1) && Apart(interval, sys)
    ensures sys.streams[0].log.kept != [] && sys.streams[1].log.kept != []
    ensures sys.streams[0].countOld - sys.streams[1].countOld == sys.diff
  {
  }

  /**
    A step drops the packet that was kept last by the stream that loses it, and otherwise none; it gives up exactly
    if the packets are apart and neither stream loses its own.
  */
  lemma StepDrops(interval: real, sys: Pair, start0: int, start1: int)
    requires AtEntry(interval, sys, start0, start1)
    ensures var (r, o) := FirstPass(interval, sys);
            if Apart(interval, sys) && Loser(interval, sys) == NONE then (r, o) == (sys, Exit(4))
            else Drops(sys, (r, o), Loser(interval, sys))
  {
    hide NextInput, AdvanceBoth, EmitBoth, EmitFirst, EmitSecond, Undo, Dropped, AtEntry;
    if Apart(interval, sys) {
      KeptAtEntry(interval, sys, start0, start1);
      UndoDrops(interval, sys, 0);
      UndoDrops(interval, sys, 1);
    }
    AdvanceDropsNothing(interval, sys);
    EmitDropsNothing(interval, sys);
    assert Dropped(sys.streams[0], sys.streams[0], 0) && Dropped(sys.streams[1], sys.streams[1], 0) by {
      NothingDropped(sys.streams[0]);
      NothingDropped(sys.streams[1]);
    }
  }

  lemma NothingDropped(st: Stream)
    ensures Dropped(st, st, 0)
  {
  }

  /**
    In every run of any captures, at every step: which packet is dropped as out of step.  When two packets of a common
    slot are more than a slot apart and both streams have a reference date, one of them is dropped; it is that of
    stream 1 exactly if it is more than a slot behind stream 0's reference date or more than half a slot before it, in
    particular if it is more than a slot later than stream 0's packet.  At all other steps no packet is dropped.
  */
  lemma LatePacketIsDropped(interval: real, input0: seq<Packet>, input1: seq<Packet>, n: nat)
    requires interval > 0.0 && Program(interval, input0, input1, n).1 == Continue
    ensures var s, (r, o) := Program(interval, input0, input1, n).0, Program(interval, input0, input1, n + 1);
            var s0, s1 := s.streams[0], s.streams[1];
            && (!Apart(interval, s) ==> Drops(s, (r, o), NONE))
            && (Apart(interval, s) && s0.timestampOld != 0.0 && s1.timestampOld != 0.0 ==>
                Drops(s, (r, o), if SecondStrays(interval, s) then 1 else 0))
            && (Apart(interval, s) && s0.timestampOld != 0.0 && s1.timestamp > s0.timestamp + interval ==>
                Drops(s, (r, o), 1))
  {
    hide Synchronize, RunPasses, FirstPass, Drops, JustSynchronised, Pending, Tidy, Emitted;
    SynchronizeSynchronises(interval, input0, input1);
    var s := Synchronize(interval, input0, input1).0;
    var start0, start1 := s.streams[0].countOld, s.streams[1].countOld;
    RunKeeps(interval, s, start0, start1, n);
    RunOn(interval, s, n);
    var k := Phantoms(interval, s, n);
    StepDrops(interval, RunPasses(interval, s, n).0, start0 - k, start1 - k);
    SlotsTrack(interval, input0, input1, n, 0);
    SlotsTrack(interval, input0, input1, n, 1);
  }

  /** A stream that only lost its packet is as if it had read the next one instead. */
  lemma DropIsReplaced(interval: real, sys: Pair, start0: int, start1: int, p: nat)
    requires AtEntry(interval, sys, start0, start1) && p < 2 && Apart(interval, sys) && Loser(interval, sys) == p
    ensures var (r, o) := FirstPass(interval, sys);
            var before, after := sys.streams[p], r.streams[p];
            o == Continue && after.resync == before.resync ==>
              && |after.log.kept| == |before.log.kept| > 0
              && after.log.kept[..|before.log.kept| - 1] == before.log.kept[..|before.log.kept| - 1]
              && var packet := after.log.kept[|before.log.kept| - 1];
                 && after.countOld == before.countOld && after.countNew == packet.count
                 && after.signalOld == before.signalOld && after.signalNew == packet.signal
  {
    hide NextInput;
    KeptAtEntry(interval, sys, start0, start1);
    NextTakesOne(interval, Undo(interval, sys, p), p);
  }
}
