/** The differences of counters that the first pass hands to UPDATE_STATE, and the error bursts of one stream. */
module MergeGaps {
  import opened StreamMerge
  import opened MergeConservation
  import opened MergeZip
  import opened MergeRuns
  import opened MergeBursts
  import opened Runs

  // ---------- the differences in one step ----------

  /** READ_LINE(q) as far as it concerns stream p: a successful one ends with UPDATE_STATE(q). */
  function ReadUpdates(interval: real, sys: Pair, q: nat, p: nat): seq<int>
    requires p < 2 && q < 2
  {
    var (r, o) := NextInput(interval, sys, q);
    if q == p && o == Continue then [Age(r, p)] else []
  }

  /** The calls of UPDATE_STATE(1) once stream 0 was read in AdvanceBoth. */
  function SecondUpdates(interval: real, sys: Pair, a: Pair): seq<int> {
    if a.streams[1].countOld == sys.streams[1].countOld then ReadUpdates(interval, a, 1, 1)
    else if Behind(a) < 0 then [Age(CatchUp(a), 1)]
    else if Behind(a) == 0 then ReadUpdates(interval, a, 1, 1)
    else if Behind(a) != 1 then []
    else
      var (b, ob) := NextInput(interval, a, 1);
      if ob != Continue then []
      else if Behind(b) < 0 then [Age(CatchUp(b), 1)]
      else if Behind(b) != 0 then []
      else ReadUpdates(interval, b, 1, 1)
  }

  function AdvanceUpdates(interval: real, sys: Pair, p: nat): seq<int>
    requires p < 2
  {
    var (a, o) := NextInput(interval, sys, 0);
    if o != Continue then []
    else if p == 0 then [Age(a, 0)]
    else SecondUpdates(interval, sys, a)
  }

  /** The calls of UPDATE_STATE(p) in one step, each with the difference of the new and the old counter. */
  function Updates(interval: real, sys: Pair, p: nat): seq<int>
    requires p < 2
  {
    if Age(sys, 0) < 0 || Age(sys, 1) < 0 || sys.streams[0].countOld - sys.streams[1].countOld != sys.diff then []
    else if Age(sys, 0) == Age(sys, 1) then
      if Abs(sys.streams[0].timestamp - sys.streams[1].timestamp) > interval then
        if OutOfStep(interval, sys, 1) then ReadUpdates(interval, Undo(interval, sys, 1), 1, p)
        else if OutOfStep(interval, sys, 0) then ReadUpdates(interval, Undo(interval, sys, 0), 0, p)
        else []
      else
        AdvanceUpdates(interval, EmitBoth(sys), p)
    else if Age(sys, 0) < Age(sys, 1) then ReadUpdates(interval, EmitFirst(sys), 0, p)
    else ReadUpdates(interval, EmitSecond(sys), 1, p)
  }

  /** The calls of UPDATE_STATE(p) in the first n steps. */
  function RunUpdates(interval: real, sys: Pair, p: nat, n: nat): seq<int>
    requires p < 2
  {
    if n == 0 then []
    else
      var (s, o) := RunPasses(interval, sys, n - 1);
      RunUpdates(interval, sys, p, n - 1) + if o == Continue then Updates(interval, s, p) else []
  }

  /** ADD_BURST: a difference of more than 1, in 64 bits, is one burst. */
  function AddedBursts(updates: seq<int>): seq<int> {
    if updates == [] then []
    else
      var n := |updates| - 1;
      AddedBursts(updates[..n]) + if Gap(updates[n], 1) > 0 then [Gap(updates[n], 1)] else []
  }

  // ---------- what a read does to the counters ----------

  /** A stream has at least the resynchronisations that it had, and no packet more was dropped for the other's sake. */
  ghost predicate Counts(s: Stream, r: Stream) {
    r.resync >= s.resync && r.dropExternal == s.dropExternal && r.log.outOfStep == s.log.outOfStep
  }

  ghost predicate BothCount(sys: Pair, r: Pair) {
    Counts(sys.streams[0], r.streams[0]) && Counts(sys.streams[1], r.streams[1])
  }

  /** Reading never takes a resynchronisation back, and drops nothing for the sake of the other stream. */
  lemma {:induction false} NextCounts(interval: real, sys: Pair, p: nat)
    requires p < 2
    ensures BothCount(sys, NextInput(interval, sys, p).0)
    decreases Left(sys)
  {
    TurnCounts(interval, sys, p);
    var t := TakeTurn(interval, sys, p);
    if t.Again? {
      NextCounts(interval, t.sys, t.stream);
    }
  }

  lemma ReadCounts(interval: real, st: Stream)
    ensures Counts(st, ReadInput(interval, st).0)
  {
  }

  lemma TurnCounts(interval: real, sys: Pair, p: nat)
    requires p < 2
    ensures BothCount(sys, TakeTurn(interval, sys, p).sys)
  {
    hide Judge, ReadInput;
    ReadCounts(interval, sys.streams[p]);
  }

  /** A stream that loses no slot while the other one is read is untouched. */
  lemma {:induction false} OtherIsUntouched(interval: real, sys: Pair, p: nat)
    requires p < 2
    ensures var r := NextInput(interval, sys, p).0;
            r.streams[1 - p].resync == sys.streams[1 - p].resync ==> r.streams[1 - p] == sys.streams[1 - p]
    decreases Left(sys)
  {
    hide ReadInput, Judge;
    var t := TakeTurn(interval, sys, p);
    if t.Again? {
      NextCounts(interval, t.sys, t.stream);
      if t.stream == p {
        OtherIsUntouched(interval, t.sys, p);
      }
    }
  }

  /** One packet more was kept, and the update gets the way from the counter before. */
  ghost predicate TakesOne(s: Stream, r: Stream, update: int) {
    && |r.log.kept| == |s.log.kept| + 1 && r.log.kept[..|s.log.kept|] == s.log.kept
    && r.countNew == r.log.kept[|s.log.kept|].count && update == r.countNew - s.countNew
    && r.signalNew == r.log.kept[|s.log.kept|].signal && r.signalOld == s.signalNew
  }

  /** The counter and the signal strength are as before, and so are the packets. */
  ghost predicate TakesNone(s: Stream, r: Stream) {
    r.log.kept == s.log.kept && r.countNew == s.countNew && r.signalNew == s.signalNew
  }

  lemma TurnTakesOne(interval: real, sys: Pair, p: nat)
    requires p < 2 && TakeTurn(interval, sys, p).sys.streams[p].resync == sys.streams[p].resync
    ensures var t := TakeTurn(interval, sys, p);
            var s, r := sys.streams[p], t.sys.streams[p];
            && (t.Again? && t.stream == p ==> TakesNone(s, r))
            && ((t.Again? && t.stream != p) || (t.Stop? && t.outcome == Continue) ==>
                TakesOne(s, r, r.countNew - r.countOld))
  {
    hide Judge, ReadInput;
    if sys.streams[p].input != [] {
      ReadChanges(interval, sys.streams[p]);
    }
  }

  /** Behind readings that were no use, one packet is still to be taken. */
  lemma TakesOneBehind(s: Stream, t: Stream, r: Stream, update: int)
    requires TakesNone(s, t) && TakesOne(t, r, update)
    ensures TakesOne(s, r, update)
  {
  }

  /** Reading a stream that loses no slot takes one packet. */
  lemma {:induction false} NextTakesOne(interval: real, sys: Pair, p: nat)
    requires p < 2
    ensures var (r, o) := NextInput(interval, sys, p);
            o == Continue && r.streams[p].resync == sys.streams[p].resync ==>
              TakesOne(sys.streams[p], r.streams[p], r.streams[p].countNew - r.streams[p].countOld)
    decreases Left(sys)
  {
    hide TakeTurn, TakesOne, ReadInput, Resynchronise;
    var t := TakeTurn(interval, sys, p);
    var (r, o) := NextInput(interval, sys, p);
    TurnCounts(interval, sys, p);
    if o == Continue && r.streams[p].resync == sys.streams[p].resync {
      if t.Again? {
        NextCounts(interval, t.sys, t.stream);
        TurnTakesOne(interval, sys, p);
        if t.stream == p {
          NextTakesOne(interval, t.sys, p);
          TakesOneBehind(sys.streams[p], t.sys.streams[p], r.streams[p], r.streams[p].countNew - r.streams[p].countOld);
        } else {
          OtherIsUntouched(interval, t.sys, t.stream);
        }
      } else {
        TurnTakesOne(interval, sys, p);
      }
    }
  }

  // ---------- the gaps of one stream ----------

  /** How many counters are missing before the last of these packets. */
  function LastGap(start: int, kept: seq<Packet>): int
    requires kept != []
  {
    var n := |kept| - 1;
    kept[n].count - (if n == 0 then start else kept[n - 1].count) - 1
  }

  /** The gaps before these packets: one for each whose counter does not follow the previous one directly. */
  function Gaps(start: int, kept: seq<Packet>): seq<int> {
    if kept == [] then []
    else Gaps(start, kept[..|kept| - 1]) + if LastGap(start, kept) > 0 then [LastGap(start, kept)] else []
  }

  /** The differences of neighbouring counters. */
  function Differences(start: int, kept: seq<Packet>): seq<int> {
    if kept == [] then [] else Differences(start, kept[..|kept| - 1]) + [LastGap(start, kept) + 1]
  }

  /** The counters increase from `start` on; a stream that starts at counter 0 may repeat it. */
  ghost predicate RisingFrom(start: nat, kept: seq<Packet>) {
    && RisingBesideZero(kept)
    && forall i :: 0 <= i < |kept| ==> kept[i].count > start || kept[i].count == start == 0
  }

  /** For each counter from start + 1 to that of the last packet, whether it is missing. */
  ghost function Missing(start: nat, kept: seq<Packet>): (m: seq<bool>)
    requires RisingFrom(start, kept)
    ensures |m| == if kept == [] then 0 else kept[|kept| - 1].count - start
    ensures m != [] ==> !m[|m| - 1]
  {
    if kept == [] then []
    else
      var rest := Missing(start, kept[..|kept| - 1]);
      if LastGap(start, kept) < 0 then rest else rest + Repeat(true, LastGap(start, kept)) + [false]
  }

  lemma {:induction false} MissingAt(start: nat, kept: seq<Packet>, i: nat)
    requires RisingFrom(start, kept) && i < |Missing(start, kept)|
    ensures Missing(start, kept)[i] <==> start + 1 + i !in Signals(kept)
  {
    var n := |kept| - 1;
    var rest := kept[..n];
    if i < |Missing(start, rest)| {
      MissingAt(start, rest, i);
    } else {
      SignalsAt(rest, start + 1 + i);
    }
  }

  /** One more packet ends the run of missing counters before it, if there is one. */
  lemma PacketEndsGap(flags: seq<bool>, gap: nat)
    requires flags == [] || !flags[|flags| - 1]
    ensures Lengths(RunsOf(flags + Repeat(true, gap) + [false]), true)
         == Lengths(RunsOf(flags), true) + if gap > 0 then [gap] else []
  {
    hide RunsOf, Lengths, Extend;
    var runs, block := RunsOf(flags), flags + Repeat(true, gap);
    RunsOfSnoc(block, false);
    if gap > 0 {
      RunsOfBlock(flags, true, gap);
      EndsBurst(runs + [Run(true, gap)]);
      LengthsSnoc(runs, Run(true, gap), true);
    } else {
      assert block == flags;
      EndsBurst(runs);
      assert Lengths(runs, true) + [] == Lengths(runs, true);
    }
  }

  lemma {:induction false} GapsAreRuns(start: nat, kept: seq<Packet>)
    requires RisingFrom(start, kept)
    ensures Gaps(start, kept) == Lengths(RunsOf(Missing(start, kept)), true)
  {
    assert Lengths(RunsOf([]), true) == [];
    hide Lengths, RunsOf;
    if kept != [] {
      var rest := kept[..|kept| - 1];
      GapsAreRuns(start, rest);
      if LastGap(start, kept) >= 0 {
        PacketEndsGap(Missing(start, rest), LastGap(start, kept));
      } else {
        assert Gaps(start, rest) + [] == Gaps(start, rest);
      }
    }
  }

  /** What stream p lost in the slots of a trace. */
  function LostBy(trace: seq<Slot>, p: nat): seq<bool> {
    seq(|trace|, i requires 0 <= i < |trace| => !trace[i].Bit(p))
  }

  /** The runs of its own losses that a stream with this pending packet had since the k-th slot. */
  ghost function OwnLossRuns(sys: Pair, p: nat, k: nat): seq<int>
    requires p < 2 && k <= |sys.trace| && Age(sys, p) >= 1
  {
    Lengths(RunsOf(LostBy(sys.trace[k..], p) + Repeat(true, Age(sys, p) - 1) + [false]), true)
  }

  lemma KeptRises(st: Stream, start: nat)
    requires NothingBefore(st, start) && Tidy(st)
    ensures RisingFrom(start, st.log.kept)
  {
    forall i | 0 <= i < |st.log.kept| && st.log.kept[i].count > 0
      ensures st.log.kept[i].count > start
    {
      SignalsAt(st.log.kept, st.log.kept[i].count);
      assert Received(st, st.log.kept[i].count);
    }
  }

  /** The trace together with the slots up to the pending packet tells which counters are missing. */
  lemma TraceShowsMissing(sys: Pair, p: nat, start: nat, k: nat)
    requires p < 2 && k <= |sys.trace| && Zipped(sys, p, start, k) && Tidy(sys.streams[p]) && Pending(sys.streams[p])
    requires sys.streams[p].log.removed == [] && Accounted(sys, start - k, p, sys.streams[p].countOld)
    requires sys.streams[p].resync == 0 && Age(sys, p) >= 1 && RisingFrom(start, sys.streams[p].log.kept)
    ensures Missing(start, sys.streams[p].log.kept)
         == LostBy(sys.trace[k..], p) + Repeat(true, Age(sys, p) - 1) + [false]
  {
    var st := sys.streams[p];
    LastIsNewest(st);
    var missing := Missing(start, st.log.kept);
    var lost := LostBy(sys.trace[k..], p);
    var shown := lost + Repeat(true, Age(sys, p) - 1) + [false];
    assert |missing| == |shown|;
    forall i | 0 <= i < |missing|
      ensures missing[i] == shown[i]
    {
      MissingAt(start, st.log.kept, i);
      assert missing[i] <==> !Received(st, start + 1 + i);
      if i < |lost| {
        assert Place(sys, p, start, k, k + i) == start + 1 + i;
        assert lost[i] == !sys.trace[k + i].Bit(p);
      }
    }
    hide Missing, Signals;
  }

  lemma EntryShowsMissing(interval: real, sys: Pair, start0: nat, start1: nat, k: nat, p: nat)
    requires p < 2 && ZipEntry(interval, sys, start0, start1, k)
    requires sys.streams[p].resync == 0 && Age(sys, p) >= 1
    ensures var kept, start := sys.streams[p].log.kept, if p == 0 then start0 else start1;
            RisingFrom(start, kept) && Gaps(start, kept) == OwnLossRuns(sys, p, k)
  {
    hide Quiet, NothingBefore, Pending, NoZero, RisingBesideZero, RisingFrom, Missing, Gaps, RunsOf, Lengths, LostBy;
    hide Received, Strength, Place;
    var start := if p == 0 then start0 else start1;
    KeptRises(sys.streams[p], start);
    TraceShowsMissing(sys, p, start, k);
    GapsAreRuns(start, sys.streams[p].log.kept);
  }

  /**
    In every run of any captures in which stream p lost no slot to a resynchronisation, the gaps between its packets
    are the maximal runs of its own losses, in the trace behind the phantoms and the slots up to its pending packet.
  */
  lemma GapsAreLossRuns(interval: real, input0: seq<Packet>, input1: seq<Packet>, n: nat, p: nat)
    requires interval > 0.0 && p < 2
    requires var (r, o) := Program(interval, input0, input1, n);
             o == Continue && r.streams[p].resync == 0 && Age(r, p) >= 1
    ensures var r, k := Program(interval, input0, input1, n).0, PhantomSteps(interval, input0, input1, n);
            var start := Start(interval, input0, input1, p);
            && k <= |r.trace| && start >= 0 && RisingFrom(start, r.streams[p].log.kept)
            && Gaps(start, r.streams[p].log.kept) == OwnLossRuns(r, p, k)
  {
    hide Synchronize, RunPasses, PhantomSteps, RisingFrom, OwnLossRuns, AllZipped, AllLogged, BothRest, AtEntry;
    ProgramZips(interval, input0, input1, n);
    EntryShowsMissing(interval, Program(interval, input0, input1, n).0,
                      Start(interval, input0, input1, 0), Start(interval, input0, input1, 1),
                      PhantomSteps(interval, input0, input1, n), p);
  }

  // ---------- the updates of one stream ----------

  /** A step updates a stream once with its newest packet, or not at all. */
  ghost predicate TakesGap(s: Stream, r: Stream, updates: seq<int>) {
    if updates == [] then TakesNone(s, r) && r.signalOld == s.signalOld
    else |updates| == 1 && TakesOne(s, r, updates[0])
  }

  lemma ReadTakesGap(interval: real, sys: Pair, q: nat, p: nat)
    requires p < 2 && q < 2
    ensures var (r, o) := NextInput(interval, sys, q);
            o == Continue && r.streams[p].resync == sys.streams[p].resync ==>
              TakesGap(sys.streams[p], r.streams[p], ReadUpdates(interval, sys, q, p))
  {
    hide NextInput, TakesOne;
    NextTakesOne(interval, sys, p);
    OtherIsUntouched(interval, sys, q);
  }

  lemma EmittersTakeNothing(sys: Pair, r: Stream, updates: seq<int>, p: nat)
    requires p < 2
    ensures TakesGap(EmitFirst(sys).streams[p], r, updates) == TakesGap(sys.streams[p], r, updates)
    ensures TakesGap(EmitSecond(sys).streams[p], r, updates) == TakesGap(sys.streams[p], r, updates)
  {
  }

  ghost predicate StepTakes(sys: Pair, r: (Pair, Outcome), p: nat, updates: seq<int>)
    requires p < 2
  {
    var before, after := sys.streams[p], r.0.streams[p];
    && after.resync >= before.resync && after.dropExternal >= before.dropExternal
    && (r.1 == Continue && after.resync == before.resync && after.dropExternal == before.dropExternal ==>
        TakesGap(before, after, updates))
  }

  /** While a stream keeps its slots, the cascade reads it once. */
  lemma AdvanceTakesGap(interval: real, sys: Pair, p: nat)
    requires p < 2
    ensures StepTakes(sys, AdvanceBoth(interval, sys), p, AdvanceUpdates(interval, sys, p))
  {
    hide NextInput, TakesOne;
    NextCounts(interval, sys, 0);
    OtherIsUntouched(interval, sys, 0);
    NextTakesOne(interval, sys, 0);
    var (a, oa) := NextInput(interval, sys, 0);
    NextCounts(interval, a, 1);
    OtherIsUntouched(interval, a, 1);
    NextTakesOne(interval, a, 1);
    var (b, ob) := NextInput(interval, a, 1);
    NextCounts(interval, b, 1);
    OtherIsUntouched(interval, b, 1);
  }

  lemma DropTakesGap(interval: real, sys: Pair, p: nat, q: nat)
    requires p < 2 && q < 2
    ensures StepTakes(sys, NextInput(interval, Undo(interval, sys, q), q), p,
                      ReadUpdates(interval, Undo(interval, sys, q), q, p))
  {
    hide NextInput, TakesGap, ReadUpdates;
    NextCounts(interval, Undo(interval, sys, q), q);
    ReadTakesGap(interval, Undo(interval, sys, q), q, p);
  }

  lemma EmitTakesGap(interval: real, sys: Pair, p: nat)
    requires p < 2
    ensures StepTakes(sys, NextInput(interval, EmitFirst(sys), 0), p, ReadUpdates(interval, EmitFirst(sys), 0, p))
    ensures StepTakes(sys, NextInput(interval, EmitSecond(sys), 1), p, ReadUpdates(interval, EmitSecond(sys), 1, p))
  {
    hide NextInput, TakesOne, ReadUpdates;
    NextCounts(interval, EmitFirst(sys), 0);
    NextCounts(interval, EmitSecond(sys), 1);
    ReadTakesGap(interval, EmitFirst(sys), 0, p);
    ReadTakesGap(interval, EmitSecond(sys), 1, p);
    EmittersTakeNothing(sys, NextInput(interval, EmitFirst(sys), 0).0.streams[p],
                        ReadUpdates(interval, EmitFirst(sys), 0, p), p);
    EmittersTakeNothing(sys, NextInput(interval, EmitSecond(sys), 1).0.streams[p],
                        ReadUpdates(interval, EmitSecond(sys), 1, p), p);
  }

  /** In a step in which a stream neither loses a slot nor a packet, it is updated with what it takes. */
  lemma StepTakesGap(interval: real, sys: Pair, p: nat)
    requires p < 2
    ensures StepTakes(sys, FirstPass(interval, sys), p, Updates(interval, sys, p))
  {
    hide NextInput, AdvanceBoth, TakesGap, ReadUpdates, Undo, EmitFirst, EmitSecond;
    AdvanceTakesGap(interval, EmitBoth(sys), p);
    DropTakesGap(interval, sys, p, 0);
    DropTakesGap(interval, sys, p, 1);
    EmitTakesGap(interval, sys, p);
  }

  /** The counter and the signal strengths of a stream are those of its last two packets; `first` was the first. */
  ghost predicate Newest(st: Stream, first: Packet) {
    var packets := [first] + st.log.kept;
    && st.countNew == packets[|packets| - 1].count && st.signalNew == packets[|packets| - 1].signal
    && (|packets| >= 2 ==> st.signalOld == packets[|packets| - 2].signal)
  }

  lemma TakenGapIsLast(s: Stream, r: Stream, updates: seq<int>, first: Packet)
    requires Newest(s, first) && TakesGap(s, r, updates)
    ensures Newest(r, first)
    ensures Differences(first.count, r.log.kept) == Differences(first.count, s.log.kept) + updates
  {
    var start := first.count;
    if updates == [] {
      assert Differences(start, s.log.kept) + [] == Differences(start, s.log.kept);
    } else {
      assert updates == [updates[0]];
    }
  }

  lemma {:induction false} RunTakesGaps(interval: real, sys: Pair, p: nat, n: nat, first: Packet)
    requires p < 2 && sys.streams[p].log.kept == [] && Newest(sys.streams[p], first)
    ensures var (r, o) := RunPasses(interval, sys, n);
            var s := sys.streams[p];
            && r.streams[p].resync >= s.resync && r.streams[p].dropExternal >= s.dropExternal
            && (o == Continue && r.streams[p].resync == s.resync && r.streams[p].dropExternal == s.dropExternal ==>
                && Newest(r.streams[p], first)
                && RunUpdates(interval, sys, p, n) == Differences(first.count, r.streams[p].log.kept))
  {
    hide FirstPass, Updates, TakesGap, Newest;
    if n > 0 {
      RunTakesGaps(interval, sys, p, n - 1, first);
      var (s, o) := RunPasses(interval, sys, n - 1);
      var r := FirstPass(interval, s).0.streams[p];
      if o == Continue {
        StepTakesGap(interval, s, p);
        if TakesGap(s.streams[p], r, Updates(interval, s, p)) && Newest(s.streams[p], first) {
          TakenGapIsLast(s.streams[p], r, Updates(interval, s, p), first);
        }
      }
    }
  }

  /** The calls of UPDATE_STATE(p) in a run. */
  function ProgramUpdates(interval: real, input0: seq<Packet>, input1: seq<Packet>, p: nat, n: nat): seq<int>
    requires p < 2
  {
    var (s, o) := Synchronize(interval, input0, input1);
    if o == Continue then RunUpdates(interval, s, p, n) else []
  }

  /** The synchronised packet of stream p. */
  ghost function FirstPacket(interval: real, input0: seq<Packet>, input1: seq<Packet>, p: nat): Packet
    requires p < 2 && Start(interval, input0, input1, p) >= 0
  {
    var s := Synchronize(interval, input0, input1).0.streams[p];
    Packet(s.countOld, s.timestamp, s.signalNew)
  }

  /**
    In every run of any captures in which stream p lost no slot to a resynchronisation and no packet to the other
    stream: its counter and its new and old signal strengths are those of its last two packets, and UPDATE_STATE is
    called once for each packet, in order, with the difference of its counter and the previous one.
  */
  lemma UpdatesAreDifferences(interval: real, input0: seq<Packet>, input1: seq<Packet>, n: nat, p: nat)
    requires interval > 0.0 && p < 2
    requires var (r, o) := Program(interval, input0, input1, n);
             o == Continue && r.streams[p].resync == r.streams[p].dropExternal == 0
    ensures var st, start := Program(interval, input0, input1, n).0.streams[p], Start(interval, input0, input1, p);
            && start >= 0 && Newest(st, FirstPacket(interval, input0, input1, p))
            && ProgramUpdates(interval, input0, input1, p, n) == Differences(start, st.log.kept)
  {
    hide Synchronize, RunPasses, Differences, AllZipped, AllLogged, BothRest, AtEntry;
    SynchronizeSynchronises(interval, input0, input1);
    RunTakesGaps(interval, Synchronize(interval, input0, input1).0, p, n, FirstPacket(interval, input0, input1, p));
  }

  /** How many of these packets repeat the counter 0. */
  function Zeros(kept: seq<Packet>): nat {
    if kept == [] then 0 else Zeros(kept[..|kept| - 1]) + if kept[|kept| - 1].count == 0 then 1 else 0
  }

  lemma AddedSnoc(updates: seq<int>, update: int)
    requires update >= 0
    ensures AddedBursts(updates + [update])
         == AddedBursts(updates) + if update == 0 then [WRAPPED_BURST] else if update > 1 then [update - 1] else []
  {
    assert (updates + [update])[..|updates|] == updates;
  }

  /** How the last packet continues a stream: with a larger counter, or with a further 0. */
  lemma LastRises(start: nat, kept: seq<Packet>)
    requires RisingFrom(start, kept) && kept != []
    ensures RisingFrom(start, kept[..|kept| - 1])
    ensures if kept[|kept| - 1].count == 0 then LastGap(start, kept) == -1 else LastGap(start, kept) >= 0
    ensures var rest := kept[..|kept| - 1];
            kept[|kept| - 1].count == 0 && rest != [] ==> rest[|rest| - 1].count == 0
  {
  }

  lemma {:induction false} DifferencesAddGaps(start: nat, kept: seq<Packet>)
    requires RisingFrom(start, kept)
    ensures AddedBursts(Differences(start, kept)) == Wrapped(Zeros(kept)) + Gaps(start, kept)
    ensures kept != [] && kept[|kept| - 1].count == 0 ==> Gaps(start, kept) == []
  {
    hide RisingFrom, AddedBursts;
    if kept == [] {
      NothingAdded();
    } else {
      var rest := kept[..|kept| - 1];
      LastRises(start, kept);
      DifferencesAddGaps(start, rest);
      AddedSnoc(Differences(start, rest), LastGap(start, kept) + 1);
      var z, gaps := Zeros(rest), Gaps(start, rest);
      if LastGap(start, kept) == -1 {
        assert Wrapped(z) + [WRAPPED_BURST] == Wrapped(z + 1);
      }
    }
  }

  lemma NothingAdded()
    ensures AddedBursts([]) == []
  {
  }

  /**
    Hence the error bursts that are counted for such a stream are the maximal runs of its own losses, and before them
    one burst of 2^64 - 1 losses for each counter 0 that it accepted.
  */
  lemma BurstsOfStream(interval: real, input0: seq<Packet>, input1: seq<Packet>, n: nat, p: nat)
    requires interval > 0.0 && p < 2
    requires var (r, o) := Program(interval, input0, input1, n);
             o == Continue && r.streams[p].resync == r.streams[p].dropExternal == 0 && Age(r, p) >= 1
    ensures var r, k := Program(interval, input0, input1, n).0, PhantomSteps(interval, input0, input1, n);
            && k <= |r.trace|
            && AddedBursts(ProgramUpdates(interval, input0, input1, p, n))
            == Wrapped(Zeros(r.streams[p].log.kept)) + OwnLossRuns(r, p, k)
  {
    hide Program, Start, ProgramUpdates, Age, RisingFrom, Newest, OwnLossRuns, PhantomSteps;
    UpdatesAreDifferences(interval, input0, input1, n, p);
    GapsAreLossRuns(interval, input0, input1, n, p);
    DifferencesAddGaps(Start(interval, input0, input1, p), Program(interval, input0, input1, n).0.streams[p].log.kept);
  }
}
