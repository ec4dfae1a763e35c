/**
  Conservation of slots over every run of the merger, also behind counters that restart at 0, and the exact
  circumstances in which its in-code assertions fail.
*/
module MergeConservation {
  import opened StreamMerge
  import opened MergeLog

  /** No packet with counter 0 was accepted behind the synchronised ones. */
  ghost predicate Unrestarted(sys: Pair) {
    !sys.streams[0].log.restarted && !sys.streams[1].log.restarted
  }

  /** Nor one behind a larger counter. */
  ghost predicate Unfallen(sys: Pair) {
    !sys.streams[0].log.fell && !sys.streams[1].log.fell
  }

  // ---------- the account of slots, in all runs ----------

  /** Stream p has reached slot `at`, which every emitted or removed slot must account for. */
  ghost predicate Accounted(sys: Pair, start: int, p: nat, at: int)
    requires p < 2
  {
    at == start + |sys.trace| + sys.streams[p].resync
  }

  ghost predicate Offset(sys: Pair, start0: int, start1: int) {
    sys.diff == start0 - start1 + sys.streams[0].resync - sys.streams[1].resync
  }

  /** Both positions are accounted for; that of stream 1 may lag behind what was emitted. */
  ghost predicate Balanced(sys: Pair, start0: int, start1: int, lag: int) {
    && Accounted(sys, start0, 0, sys.streams[0].countOld)
    && Accounted(sys, start1, 1, sys.streams[1].countOld + lag)
    && Offset(sys, start0, start1)
  }

  /** The same while stream p is about to be read: the slots up to its last packet were used up. */
  ghost predicate BalancedFor(sys: Pair, p: nat, start0: int, start1: int, lag: int)
    requires p < 2
  {
    && Accounted(sys, start0, 0, if p == 0 then sys.streams[0].countNew else sys.streams[0].countOld)
    && Accounted(sys, start1, 1, (if p == 1 then sys.streams[1].countNew else sys.streams[1].countOld) + lag)
    && Offset(sys, start0, start1)
  }

  lemma ReadKeeps(interval: real, st: Stream)
    ensures var (r, reading) := ReadInput(interval, st);
            && r.resync == st.resync
            && (reading == TooLate ==>
                r.countNew == st.countNew && r.log.restarted == st.log.restarted && r.log.fell == st.log.fell)
            && (reading in {Usable, Backward, Forward} ==>
                r.countOld == st.countNew && (r.countNew == 0 || r.countNew > r.countOld)
                && r.log.restarted == (st.log.restarted || r.countNew == 0)
                && r.log.fell == (st.log.fell || (r.countNew == 0 && r.countOld > 0)))
  {
  }

  lemma ResynchroniseBalances(sys: Pair, v: Verdict, start0: int, start1: int, lag: int)
    requires v.Remove? ==> v.stream < 2
    requires Balanced(sys, start0, start1, lag)
    ensures var t := Resynchronise(sys, v);
            && t.sys.trace == sys.trace && t.sys.bursts == sys.bursts
            && (t.Again? ==> BalancedFor(t.sys, t.stream, start0, start1, lag))
            && (t.Stop? && t.outcome == Continue ==> Balanced(t.sys, start0, start1, lag))
  {
  }

  lemma TurnBalances(interval: real, sys: Pair, p: nat, start0: int, start1: int, lag: int)
    requires p < 2 && BalancedFor(sys, p, start0, start1, lag)
    ensures var t := TakeTurn(interval, sys, p);
            && t.sys.trace == sys.trace && t.sys.bursts == sys.bursts
            && (t.Again? ==> BalancedFor(t.sys, t.stream, start0, start1, lag))
            && (t.Stop? && t.outcome == Continue ==> Balanced(t.sys, start0, start1, lag))
  {
    hide ReadInput, Judge, Resynchronise;
    ReadKeeps(interval, sys.streams[p]);
    var (st, reading) := ReadInput(interval, sys.streams[p]);
    var read: Pair := sys.(streams := sys.streams[p := st]);
    if reading == Backward || reading == Forward {
      ResynchroniseBalances(read, Judge(interval, read.streams, read.diff, p, reading), start0, start1, lag);
    }
  }

  /** However counters behave, reading keeps the account. */
  lemma {:induction false} NextBalances(interval: real, sys: Pair, p: nat, start0: int, start1: int, lag: int)
    requires p < 2 && BalancedFor(sys, p, start0, start1, lag)
    ensures var (r, o) := NextInput(interval, sys, p);
            && r.trace == sys.trace && r.bursts == sys.bursts
            && (o == Continue ==> Balanced(r, start0, start1, lag))
    decreases Left(sys)
  {
    TurnBalances(interval, sys, p, start0, start1, lag);
    var t := TakeTurn(interval, sys, p);
    if t.Again? {
      NextBalances(interval, t.sys, t.stream, start0, start1, lag);
    }
  }

  // ---------- ages ----------

  /** The drop counters count the drops, and no packet was refused. */
  ghost predicate Logged(st: Stream) {
    |st.log.late| == st.dropInternal && |st.log.outOfStep| == st.dropExternal && st.log.refused == []
  }

  /** Stream q has a pending packet, or it has just restarted; if it fell back then below its position. */
  ghost predicate Stands(sys: Pair, q: nat)
    requires q < 2
  {
    var st := sys.streams[q];
    && (st.countNew > st.countOld || (st.log.restarted && st.countNew == 0))
    && (st.log.fell ==> st.log.restarted && st.countNew == 0 < st.countOld)
    && st.log.kept != [] && Logged(st)
  }

  /** Stream p is about to be read. */
  ghost predicate MayRead(sys: Pair, p: nat)
    requires p < 2
  {
    Logged(sys.streams[p]) && !sys.streams[p].log.fell && Stands(sys, 1 - p)
  }

  ghost predicate Standing(sys: Pair) { Stands(sys, 0) && Stands(sys, 1) }

  lemma ReadLogs(interval: real, st: Stream)
    requires Logged(st)
    ensures var (r, reading) := ReadInput(interval, st);
            && (reading != Malformed ==> Logged(r))
            && (reading in {Usable, Backward, Forward} ==> r.log.kept != [])
  {
  }

  lemma ResynchroniseStands(sys: Pair, v: Verdict)
    requires !v.Violated? && (v.Remove? ==> v.stream < 2) && Standing(sys)
    ensures var t := Resynchronise(sys, v);
            && (t.Again? ==> MayRead(t.sys, t.stream))
            && (t.Stop? ==> t.outcome == Continue && Standing(t.sys))
  {
  }

  lemma TurnStands(interval: real, sys: Pair, p: nat)
    requires interval > 0.0 && p < 2 && MayRead(sys, p)
    ensures var t := TakeTurn(interval, sys, p);
            && (t.Again? ==> MayRead(t.sys, t.stream))
            && (t.Stop? ==> !t.outcome.Abort? && (t.outcome == Continue ==> Standing(t.sys)))
  {
    hide ReadInput, Judge, Resynchronise, Logged;
    ReadKeeps(interval, sys.streams[p]);
    ReadLogs(interval, sys.streams[p]);
    var (st, reading) := ReadInput(interval, sys.streams[p]);
    var read: Pair := sys.(streams := sys.streams[p := st]);
    if reading == Backward || reading == Forward {
      ResynchroniseStands(read, Judge(interval, read.streams, read.diff, p, reading));
    }
  }

  /** However often reading is repeated or switches streams, both streams stand at its end. */
  lemma {:induction false} NextStands(interval: real, sys: Pair, p: nat)
    requires interval > 0.0 && p < 2 && MayRead(sys, p)
    ensures var (r, o) := NextInput(interval, sys, p);
            !o.Abort? && (o == Continue ==> Standing(r))
    decreases Left(sys)
  {
    TurnStands(interval, sys, p);
    var t := TakeTurn(interval, sys, p);
    if t.Again? {
      NextStands(interval, t.sys, t.stream);
    }
  }

  ghost predicate Settled(sys: Pair, start0: int, start1: int, lag: int) {
    Balanced(sys, start0, start1, lag) && Standing(sys)
  }

  ghost predicate AboutToRead(sys: Pair, p: nat, start0: int, start1: int, lag: int)
    requires p < 2
  {
    BalancedFor(sys, p, start0, start1, lag) && MayRead(sys, p)
  }

  lemma NextKeeps(interval: real, sys: Pair, p: nat, start0: int, start1: int, lag: int)
    requires interval > 0.0 && p < 2 && AboutToRead(sys, p, start0, start1, lag)
    ensures var (r, o) := NextInput(interval, sys, p);
            && r.trace == sys.trace && r.bursts == sys.bursts && !o.Abort?
            && (o == Continue ==> Settled(r, start0, start1, lag))
  {
    NextBalances(interval, sys, p, start0, start1, lag);
    NextStands(interval, sys, p);
  }

  // ---------- what a read of stream 0 does to a pending packet of stream 1 ----------

  /** Stream 1 is as it was, or lost one slot without being read. */
  ghost predicate TouchedOnce(before: Stream, after: Stream) {
    && after.countNew == before.countNew
    && after.countOld == before.countOld + 1
    && after.resync == before.resync + 1
    && after.log.restarted == before.log.restarted && after.log.fell == before.log.fell
  }

  lemma TurnResyncs(interval: real, sys: Pair, p: nat)
    requires p < 2
    ensures var t := TakeTurn(interval, sys, p);
            forall q :: 0 <= q < 2 ==> t.sys.streams[q].resync >= sys.streams[q].resync
  {
    hide ReadInput, Judge;
    ReadKeeps(interval, sys.streams[p]);
  }

  lemma {:induction false} NextResyncs(interval: real, sys: Pair, p: nat)
    requires p < 2
    ensures var (r, _) := NextInput(interval, sys, p);
            forall q :: 0 <= q < 2 ==> r.streams[q].resync >= sys.streams[q].resync
    decreases Left(sys)
  {
    TurnResyncs(interval, sys, p);
    var t := TakeTurn(interval, sys, p);
    if t.Again? {
      NextResyncs(interval, t.sys, t.stream);
    }
  }

  lemma TurnOfFirst(interval: real, sys: Pair)
    requires Age(sys, 1) >= 1
    ensures var t := TakeTurn(interval, sys, 0);
            var before, after := sys.streams[1], t.sys.streams[1];
            || (after == before && (t.Again? ==> t.stream == 0))
            || (after.resync == before.resync + 1
                && (Age(sys, 1) >= 2 ==> t == Stop(t.sys, Continue) && TouchedOnce(before, after)))
  {
  }

  /** While stream 1 keeps all its slots it is not read; a packet older than one slot stays pending. */
  lemma {:induction false} NextOfFirst(interval: real, sys: Pair)
    requires Age(sys, 1) >= 1
    ensures var r := NextInput(interval, sys, 0).0;
            var before, after := sys.streams[1], r.streams[1];
            && (after.resync == before.resync ==> after == before)
            && (Age(sys, 1) >= 2 && after.resync != before.resync ==> TouchedOnce(before, after))
    decreases Left(sys)
  {
    TurnOfFirst(interval, sys);
    var t := TakeTurn(interval, sys, 0);
    if t.Again? {
      NextResyncs(interval, t.sys, t.stream);
      if t.stream == 0 {
        NextOfFirst(interval, t.sys);
      }
    }
  }

  /** While stream 0 is read, a stream 1 with an age of at most 0 is not read; it can only lose one slot. */
  lemma TurnBesideFallen(interval: real, sys: Pair)
    requires Age(sys, 1) <= 0
    ensures var t := TakeTurn(interval, sys, 0);
            && (t.Again? ==> t.stream == 0 && t.sys.streams[1] == sys.streams[1])
            && (t.Stop? && t.sys.streams[1] != sys.streams[1] ==> TouchedOnce(sys.streams[1], t.sys.streams[1]))
  {
    hide ReadInput;
  }

  lemma {:induction false} NextBesideFallen(interval: real, sys: Pair)
    requires Age(sys, 1) <= 0
    ensures var r := NextInput(interval, sys, 0).0;
            r.streams[1] != sys.streams[1] ==> TouchedOnce(sys.streams[1], r.streams[1])
    decreases Left(sys)
  {
    hide ReadInput, Resynchronise;
    TurnBesideFallen(interval, sys);
    var t := TakeTurn(interval, sys, 0);
    if t.Again? {
      NextBesideFallen(interval, t.sys);
    }
  }

  // ---------- the first step ----------

  /** Right after synchronisation no packet is pending, and no stream can be resynchronised forward yet. */
  ghost predicate JustSynchronised(interval: real, sys: Pair, start0: int, start1: int) {
    && FirstRead(sys, start0, start1) && Balanced(sys, start0, start1, 0)
    && Age(sys, 0) == 0 && Age(sys, 1) == 0
    && Abs(sys.streams[0].timestamp - sys.streams[1].timestamp) <= interval
  }

  /** Stream 0 is about to be read while stream 1 has nothing pending. */
  ghost predicate FirstRead(sys: Pair, start0: int, start1: int) {
    && Accounted(sys, start0, 0, sys.streams[0].countNew)
    && Accounted(sys, start1, 1, sys.streams[1].countNew)
    && Offset(sys, start0, start1)
    && sys.streams[0].lateCount == 0 && Logged(sys.streams[0]) && Logged(sys.streams[1]) && Unfallen(sys)
  }

  /** Without late packets before it, a reading is not a forward resynchronisation. */
  lemma CalmReading(interval: real, st: Stream)
    requires st.lateCount == 0
    ensures var (r, reading) := ReadInput(interval, st);
            reading != Forward && (reading in {Backward, TooLate} ==> r.lateCount == 0)
  {
  }

  lemma TurnOfFirstRead(interval: real, sys: Pair, start0: int, start1: int)
    requires interval > 0.0 && FirstRead(sys, start0, start1)
    ensures var t := TakeTurn(interval, sys, 0);
            && t.sys.trace == sys.trace && t.sys.bursts == sys.bursts
            && t.sys.streams[1] == sys.streams[1]
            && (t.Again? ==> t.stream == 0 && FirstRead(t.sys, start0, start1))
            && (t.Stop? ==> !t.outcome.Abort?)
            && (t.Stop? && t.outcome == Continue ==> AboutToRead(t.sys, 1, start0, start1, 0))
  {
    hide ReadInput, Logged;
    ReadKeeps(interval, sys.streams[0]);
    ReadLogs(interval, sys.streams[0]);
    CalmReading(interval, sys.streams[0]);
    var t := TakeTurn(interval, sys, 0);
    RemovalsKeepLog(ReadInput(interval, sys.streams[0]).0, |sys.trace|);
  }

  lemma RemovalsKeepLog(st: Stream, n: nat)
    ensures Logged(LoseSlot(st, n)) == Logged(st)
  {
  }

  lemma {:induction false} NextOfFirstRead(interval: real, sys: Pair, start0: int, start1: int)
    requires interval > 0.0 && FirstRead(sys, start0, start1)
    ensures var (r, o) := NextInput(interval, sys, 0);
            && r.trace == sys.trace && r.bursts == sys.bursts && !o.Abort?
            && r.streams[1] == sys.streams[1]
            && (o == Continue ==> AboutToRead(r, 1, start0, start1, 0))
    decreases Left(sys)
  {
    TurnOfFirstRead(interval, sys, start0, start1);
    var t := TakeTurn(interval, sys, 0);
    if t.Again? {
      NextOfFirstRead(interval, t.sys, start0, start1);
    }
  }

  // ---------- one step of the first pass ----------

  /** What holds at each entry of first_pass. */
  ghost predicate AtEntry(interval: real, sys: Pair, start0: int, start1: int) {
    interval > 0.0 && (Settled(sys, start0, start1, 0) || JustSynchronised(interval, sys, start0, start1))
  }

  /** Stream 1 has just accepted a packet with counter 0. */
  ghost predicate FellBack(sys: Pair) { sys.streams[1].log.restarted && sys.streams[1].countNew == 0 }

  /** The account holds after a step, and if the step fails an assertion then because stream 1 restarted in it. */
  ghost predicate KeepsEntry(r: (Pair, Outcome), start0: int, start1: int, trace: seq<Slot>, bursts: seq<int>) {
    && r.0.trace == trace && r.0.bursts == bursts
    && (r.1.Abort? ==> r.1.line in {913, 919} && FellBack(r.0))
    && (r.1 == Continue ==> Settled(r.0, start0, start1, 0))
  }

  lemma CatchUpSettles(sys: Pair, start0: int, start1: int, lag: nat)
    requires Settled(sys, start0, start1, lag) && Behind(sys) < 0
    ensures Settled(CatchUp(sys), start0, start1, 0)
  {
  }

  /** The cascade of reads after a common slot. */
  lemma AdvancePending(interval: real, sys: Pair, start0: int, start1: int)
    requires interval > 0.0 && Age(sys, 1) >= 1 && AboutToRead(sys, 0, start0, start1, Age(sys, 1))
    ensures KeepsEntry(AdvanceBoth(interval, sys), start0, start1, sys.trace, sys.bursts)
  {
    hide NextInput, Logged;
    var lag := Age(sys, 1);
    NextKeeps(interval, sys, 0, start0, start1, lag);
    NextOfFirst(interval, sys);
    var (a, oa) := NextInput(interval, sys, 0);
    if oa == Continue {
      AdvanceSecond(interval, sys, a, start0, start1, lag);
    }
  }

  /** After two streams of age 0 that both restarted. */
  lemma AdvanceFromZero(interval: real, sys: Pair, start0: int, start1: int)
    requires interval > 0.0 && Age(sys, 1) == 0 && AboutToRead(sys, 0, start0, start1, 0) && Stands(sys, 1)
    ensures KeepsEntry(AdvanceBoth(interval, sys), start0, start1, sys.trace, sys.bursts)
  {
    hide NextInput, Logged;
    NextKeeps(interval, sys, 0, start0, start1, 0);
    NextBesideFallen(interval, sys);
    var (a, oa) := NextInput(interval, sys, 0);
    if oa == Continue {
      AdvanceSecond(interval, sys, a, start0, start1, 0);
    }
  }

  /** The rest of the cascade, once stream 0 was read. */
  ghost function AfterFirstRead(interval: real, sys: Pair, a: Pair): (Pair, Outcome) {
    if a.streams[1].countOld == sys.streams[1].countOld then NextInput(interval, a, 1)
    else if Behind(a) < 0 then (CatchUp(a), Continue)
    else if Behind(a) == 0 then NextInput(interval, a, 1)
    else if Behind(a) != 1 then (a, Abort(913))
    else
      var (b, ob) := NextInput(interval, a, 1);
      if ob != Continue then (b, ob)
      else if Behind(b) < 0 then (CatchUp(b), Continue)
      else if Behind(b) != 0 then (b, Abort(919))
      else NextInput(interval, b, 1)
  }

  lemma AdvanceSecond(interval: real, sys: Pair, a: Pair, start0: int, start1: int, lag: nat)
    requires interval > 0.0 && Settled(a, start0, start1, lag)
    requires a.streams[1].countOld == sys.streams[1].countOld ==> Behind(a) == 0
    requires a.streams[1].countOld != sys.streams[1].countOld ==>
               && (Behind(a) <= 1 || (a.streams[1].log.restarted && a.streams[1].countNew == 0))
               && (Behind(a) == 1 ==> !a.streams[1].log.fell)
    ensures KeepsEntry(AfterFirstRead(interval, sys, a), start0, start1, a.trace, a.bursts)
  {
    hide NextInput, Logged;
    if Behind(a) == 0 {
      NextKeeps(interval, a, 1, start0, start1, 0);
    } else if Behind(a) < 0 {
      CatchUpSettles(a, start0, start1, lag);
    } else if Behind(a) == 1 {
      NextKeeps(interval, a, 1, start0, start1, 1);
      var (b, ob) := NextInput(interval, a, 1);
      if ob == Continue && Behind(b) == 0 {
        NextKeeps(interval, b, 1, start0, start1, 0);
      } else if ob == Continue && Behind(b) < 0 {
        CatchUpSettles(b, start0, start1, 1);
      }
    }
  }

  lemma AdvanceAtStart(interval: real, sys: Pair, start0: int, start1: int)
    requires interval > 0.0 && JustSynchronised(interval, sys, start0, start1)
    ensures KeepsEntry(AdvanceBoth(interval, sys), start0, start1, sys.trace, sys.bursts)
  {
    hide NextInput, Logged;
    NextOfFirstRead(interval, sys, start0, start1);
    var (a, oa) := NextInput(interval, sys, 0);
    if oa == Continue {
      NextKeeps(interval, a, 1, start0, start1, 0);
    }
  }

  lemma DropKeeps(interval: real, sys: Pair, start0: int, start1: int)
    requires interval > 0.0 && Settled(sys, start0, start1, 0) && Age(sys, 0) == Age(sys, 1) >= 0
    ensures KeepsEntry(DropOne(interval, sys), start0, start1, sys.trace, sys.bursts)
  {
    hide NextInput;
    if OutOfStep(interval, sys, 1) {
      NextKeeps(interval, Undo(interval, sys, 1), 1, start0, start1, 0);
    } else if OutOfStep(interval, sys, 0) {
      NextKeeps(interval, Undo(interval, sys, 0), 0, start0, start1, 0);
    }
  }

  /** Slots that one step emits. */
  ghost function Emitted(interval: real, sys: Pair): Pair {
    if Age(sys, 0) == Age(sys, 1) then
      if Abs(sys.streams[0].timestamp - sys.streams[1].timestamp) > interval then sys else EmitBoth(sys)
    else if Age(sys, 0) < Age(sys, 1) then EmitFirst(sys)
    else EmitSecond(sys)
  }

  /** Exactly one stream has restarted behind its counter 0: the step emits a slot that no counter stands for. */
  ghost predicate IsPhantom(sys: Pair) {
    Age(sys, 0) >= 0 && Age(sys, 1) >= 0 && (Age(sys, 0) == 0) != (Age(sys, 1) == 0)
  }

  ghost function One(b: bool): nat { if b then 1 else 0 }

  lemma StepOfEqualAges(interval: real, sys: Pair, start0: int, start1: int)
    requires AtEntry(interval, sys, start0, start1) && Age(sys, 0) == Age(sys, 1) >= 0
    ensures KeepsEntry(FirstPass(interval, sys), start0, start1,
                       Emitted(interval, sys).trace, Emitted(interval, sys).bursts)
  {
    hide NextInput, AdvanceBoth, DropOne, Logged;
    if Abs(sys.streams[0].timestamp - sys.streams[1].timestamp) > interval {
      DropKeeps(interval, sys, start0, start1);
    } else if Age(sys, 0) == 0 {
      if Settled(sys, start0, start1, 0) {
        AdvanceFromZero(interval, sys, start0, start1);
      } else {
        AdvanceAtStart(interval, sys, start0, start1);
      }
    } else {
      AdvancePending(interval, EmitBoth(sys), start0, start1);
    }
  }

  /** One step from any entry. */
  lemma StepKeeps(interval: real, sys: Pair, start0: int, start1: int)
    requires AtEntry(interval, sys, start0, start1)
    ensures var (r, o) := FirstPass(interval, sys);
            var e, k := Emitted(interval, sys), One(IsPhantom(sys));
            if Age(sys, 0) < 0 then (r, o) == (sys, Abort(840))
            else if Age(sys, 1) < 0 then (r, o) == (sys, Abort(842))
            else KeepsEntry((r, o), start0 - k, start1 - k, e.trace, e.bursts)
  {
    hide NextInput;
    if Age(sys, 0) >= 0 && Age(sys, 1) >= 0 {
      if Age(sys, 0) == Age(sys, 1) {
        StepOfEqualAges(interval, sys, start0, start1);
      } else {
        var k := One(IsPhantom(sys));
        if Age(sys, 0) < Age(sys, 1) {
          NextKeeps(interval, EmitFirst(sys), 0, start0 - k, start1 - k, 0);
        } else {
          NextKeeps(interval, EmitSecond(sys), 1, start0 - k, start1 - k, 0);
        }
      }
    }
  }

  lemma StepEmits(interval: real, sys: Pair, start0: int, start1: int)
    requires AtEntry(interval, sys, start0, start1)
    ensures |FirstPass(interval, sys).0.trace| >= |sys.trace| + One(IsPhantom(sys))
  {
    hide FirstPass;
    StepKeeps(interval, sys, start0, start1);
    hide Balanced, Standing, JustSynchronised;
  }

  // ---------- over whole runs ----------

  /** How many of the first n steps were phantoms. */
  ghost function Phantoms(interval: real, sys: Pair, n: nat): nat {
    if n == 0 then 0
    else
      var (s, o) := RunPasses(interval, sys, n - 1);
      Phantoms(interval, sys, n - 1) + One(o == Continue && IsPhantom(s))
  }

  /** Why an assertion failed: at the start of a step for an age, later in a step because stream 1 restarted. */
  ghost predicate Explained(r: Pair, line: nat) {
    || (line == 840 && Age(r, 0) < 0)
    || (line == 842 && Age(r, 0) >= 0 && Age(r, 1) < 0)
    || (line in {913, 919} && FellBack(r))
  }

  /** Every run: both accounts are off by the number of phantoms, and each failed assertion is explained. */
  lemma {:induction false} RunKeeps(interval: real, sys: Pair, start0: int, start1: int, n: nat)
    requires AtEntry(interval, sys, start0, start1)
    ensures var (r, o) := RunPasses(interval, sys, n);
            var k := Phantoms(interval, sys, n);
            && (o == Continue ==> AtEntry(interval, r, start0 - k, start1 - k))
            && (o.Abort? ==> Explained(r, o.line))
  {
    hide FirstPass, Emitted, Balanced, Standing, JustSynchronised;
    if n > 0 {
      RunKeeps(interval, sys, start0, start1, n - 1);
      var (s, o) := RunPasses(interval, sys, n - 1);
      if o == Continue {
        var k := Phantoms(interval, sys, n - 1);
        StepKeeps(interval, s, start0 - k, start1 - k);
      }
    }
  }

  /** Whatever happens, a restart or a fall is not forgotten. */
  lemma NextRemembers(interval: real, sys: Pair, p: nat)
    requires p < 2
    ensures Unrestarted(NextInput(interval, sys, p).0) ==> Unrestarted(sys)
    ensures Unfallen(NextInput(interval, sys, p).0) ==> Unfallen(sys)
  {
    hide NextInput, Ledger;
    NextReads(interval, sys, p);
  }

  lemma StepRemembers(interval: real, sys: Pair)
    ensures Unrestarted(FirstPass(interval, sys).0) ==> Unrestarted(sys)
    ensures Unfallen(FirstPass(interval, sys).0) ==> Unfallen(sys)
  {
    hide FirstPass, Ledger;
    StepReads(interval, sys);
  }

  lemma NoPhantomBefore(interval: real, sys: Pair, start0: int, start1: int)
    requires AtEntry(interval, sys, start0, start1) && Unrestarted(sys)
    ensures !IsPhantom(sys) && Age(sys, 0) >= 0 && Age(sys, 1) >= 0
  {
  }

  /** Until a counter restarts there is no phantom, and no assertion fails. */
  lemma {:induction false} RunIsSound(interval: real, sys: Pair, start0: int, start1: int, n: nat)
    requires AtEntry(interval, sys, start0, start1) && Unrestarted(RunPasses(interval, sys, n).0)
    ensures Phantoms(interval, sys, n) == 0 && !RunPasses(interval, sys, n).1.Abort?
  {
    hide FirstPass, Emitted, AtEntry, IsPhantom;
    if n > 0 {
      var (s, o) := RunPasses(interval, sys, n - 1);
      if o == Continue {
        StepRemembers(interval, s);
        RunIsSound(interval, sys, start0, start1, n - 1);
        RunKeeps(interval, sys, start0, start1, n - 1);
        NoPhantomBefore(interval, s, start0, start1);
        StepKeeps(interval, s, start0, start1);
      } else {
        RunIsSound(interval, sys, start0, start1, n - 1);
      }
    }
  }
}
