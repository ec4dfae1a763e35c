/** The merger as the C program runs it: an array of two states updated in place, proved against StreamMerge. */
module Extractor {
  import opened StreamMerge
  import opened MergeRuns
  import opened TraceStats
  import opened MergeBursts
  import opened Runs
  import opened Tally
  import M = StreamMerge

  lemma {:induction false} LossesAreCounted(trace: seq<Slot>)
    ensures Occurrences(LossFlags(trace), true) == Count(Kinds(trace), 0)
  {
    if trace != [] {
      var rest := trace[..|trace| - 1];
      LossesAreCounted(rest);
      assert LossFlags(trace)[..|trace| - 1] == LossFlags(rest) && Kinds(trace)[..|trace| - 1] == Kinds(rest);
    }
  }

  /** Also when synchronisation fails: then there are neither slots nor bursts. */
  lemma ProgramCounts(interval: real, input0: seq<Packet>, input1: seq<Packet>, n: nat)
    requires interval > 0.0 && PhantomSteps(interval, input0, input1, n) == 0
    ensures var r := Program(interval, input0, input1, n).0;
            r.bursts == LossRuns(r.trace)
  {
    if Synchronize(interval, input0, input1).1 == Continue {
      BurstsAreLossRuns(interval, input0, input1, n);
    } else {
      NothingBeforeSynchronisation(interval, input0, input1);
      assert LossFlags([]) == [];
    }
  }

  lemma {:induction false} AlignEmitsNothing(interval: real, s0: Stream, s1: Stream)
    ensures var r := Align(interval, s0, s1).0;
            r.trace == [] && r.bursts == []
    decreases |s0.input| + |s1.input|
  {
    hide NextAlone;
    var (t0, o0) := NextAlone(interval, s0);
    var (t1, o1) := NextAlone(interval, s1);
    if o1 == Continue {
      AlignEmitsNothing(interval, s0, t1);
    }
    if o0 == Continue {
      AlignEmitsNothing(interval, t0, s1);
    }
  }

  lemma NothingBeforeSynchronisation(interval: real, input0: seq<Packet>, input1: seq<Packet>)
    ensures var r := Synchronize(interval, input0, input1).0;
            r.trace == [] && r.bursts == []
  {
    hide NextAlone, Align;
    var (s0, o0) := NextAlone(interval, Fresh(input0));
    var (s1, o1) := NextAlone(interval, Fresh(input1));
    AlignEmitsNothing(interval, s0, s1);
  }

  class Merger {
    const interval: real
    const states: array<Stream>
    const stats: Statistics
    var syncCountDiff: int
    var output: seq<Slot>   // the slots printed so far

    ghost predicate Valid()
      reads this, states, stats, stats.coordBursts, stats.Repr()
    {
      && states.Length == 2
      && this !in stats.Repr() && states !in stats.Repr()
      && stats.Valid() && stats.trace == output
    }

    /** The value that the functions of StreamMerge work on. */
    ghost function View(): Pair
      reads this, states, stats
      requires states.Length == 2
    {
      System(states[..], syncCountDiff, output, stats.bursts)
    }

    constructor (interval: real, input0: seq<Packet>, input1: seq<Packet>, stats: Statistics)
      requires stats.Valid() && stats.trace == [] && stats.bursts == []
      ensures Valid() && View() == System([Fresh(input0), Fresh(input1)], 0, [], [])
      ensures this.interval == interval && this.stats == stats && fresh(states)
    {
      this.interval, this.stats, syncCountDiff, output := interval, stats, 0, [];
      hide Statistics.Valid;
      states := new Stream[] [Fresh(input0), Fresh(input1)];
      new;
      assert stats.Repr() == old(stats.Repr()) && stats.Valid();
    }

    /** When the bursts are those of the trace, the table of joint bursts accounts for every joint loss. */
    lemma BurstsAreLosses()
      requires Valid() && stats.coordBursts != null
      requires stats.bursts == LossRuns(output)
      ensures Weighted(stats.coordBursts.Values) == stats.u64Stats[0]
    {
      stats.TotalsAgree();
      LengthsSum(LossFlags(output), true);
      LossesAreCounted(output);
    }

    /** read_input */
    method ReadInput(p: nat) returns (reading: Reading)
      requires p < 2 && states.Length == 2
      modifies states
      ensures (states[p], reading) == M.ReadInput(interval, old(states[p]))
      ensures states[1 - p] == old(states[1 - p])
    {
      if states[p].input == [] {
        return EndOfFile;
      }
      var packet := states[p].input[0];
      states[p] := states[p].(input := states[p].input[1..], timestamp := packet.ts);
      states[p] := states[p].(signalOld := states[p].signalNew, signalNew := packet.signal);
      states[p] := states[p].(countOld := states[p].countNew, countNew := packet.count);
      if states[p].countNew <= states[p].countOld && states[p].countNew != 0 {
        states[p] := Refuse(states[p], packet);
        return Malformed;
      }
      if states[p].timestampOld != 0.0 {
        var expected := states[p].timestampOld + Span(interval, Gap(states[p].countNew, states[p].countOld));
        if expected - packet.ts > interval / 2.0 {
          states[p] := Refuse(states[p], packet);
          return Malformed;
        } else if packet.ts - expected > interval {
          states[p] := DropInternal(states[p], packet);
          return TooLate;
        }
        states[p] := Keep(states[p], packet);
        if packet.ts <= expected {
          states[p] := states[p].(timestampOld := packet.ts, lateCount := 0, lateMin := interval);
          states[p] := states[p].(log := states[p].log.(window := [], corrected := true));
          return Backward;
        } else {
          states[p] := states[p].(lateCount := states[p].lateCount + 1);
          states[p] := states[p].(log := states[p].log.(window := states[p].log.window + [packet]));
          if packet.ts - expected < states[p].lateMin {
            states[p] := states[p].(lateMin := packet.ts - expected);
          }
          if states[p].lateCount > DELAY_BEFORE_RESYNCHRONISATION {
            states[p] := states[p].(timestampOld := expected + states[p].lateMin);
            states[p] := states[p].(lateCount := 0, lateMin := interval);
            states[p] := states[p].(log := states[p].log.(window := [], corrected := true));
            return Forward;
          }
          states[p] := states[p].(timestampOld := expected);
        }
      } else {
        states[p] := Keep(states[p], packet);
      }
      return Usable;
    }

    /** The end of a turn of next_input's loop, for a stream whose reference date was just corrected. */
    method Resynchronise(inc: nat, reading: Reading) returns (again: bool, next: nat, outcome: Outcome)
      requires states.Length == 2 && inc < 2
      modifies `syncCountDiff, states
      ensures var t := M.Resynchronise(old(View()), Judge(interval, old(states[..]), old(syncCountDiff), inc, reading));
              && View() == t.sys && again == t.Again?
              && if again then next == t.stream else outcome == t.outcome
    {
      again, next, outcome := false, inc, Continue;
      var verdict := Judge(interval, states[..], syncCountDiff, inc, reading);
      match verdict
      case Stay =>
      case Violated(line) => outcome := Abort(line);
      case Remove(q) =>
        again, next := Adjacent(states[q]), q;
        syncCountDiff := syncCountDiff + Sign(q);
        states[q] := LoseSlot(states[q], |output|);
    }

    /** next_input; `inc` is the stream that is read, which a forward resynchronisation switches. */
    method NextInput(p: nat) returns (outcome: Outcome)
      requires states.Length == 2 && p < 2
      modifies `syncCountDiff, states
      ensures (View(), outcome) == M.NextInput(interval, old(View()), p)
    {
      hide Judge, M.Resynchronise, M.ReadInput;
      var inc := p;
      while true
        invariant inc < 2
        invariant M.NextInput(interval, View(), inc) == M.NextInput(interval, old(View()), p)
        decreases Left(View())
      {
        ghost var before := View();
        var reading := ReadInput(inc);
        assert View() == before.(streams := before.streams[inc := states[inc]]);
        match reading {
          case EndOfFile => return EndOfInput;
          case Malformed => return Exit(-3);
          case TooLate =>
          case Usable => return Continue;
          case _ =>
            var again, next, result := Resynchronise(inc, reading);
            if !again {
              return result;
            }
            inc := next;
        }
      }
    }

    /** The loop over a batch of joint losses, the burst count and the last slot of the batch. */
    method EmitBatch(age: int, last: Slot)
      requires Valid() && Indexable(last)
      modifies `output, stats.Repr()
      ensures Valid() && fresh(stats.Repr() - old(stats.Repr()))
      ensures View() == M.EmitBatch(old(View()), age, last)
    {
      hide Statistics.Valid;
      var i := age;
      while i > 1
        invariant i <= age && (i < age ==> i >= 1)
        invariant Valid() && fresh(stats.Repr() - old(stats.Repr()))
        invariant output == old(output) + Losses(age - i) && stats.bursts == old(stats.bursts)
      {
        stats.AddSlot(LOST);
        output := output + [LOST];
        i := i - 1;
        assert stats.Valid();
      }
      if Gap(age, 1) > 0 {
        stats.AddBurst(Gap(age, 1));
      }
      stats.AddSlot(last);
      output := output + [last];
      assert stats.Valid();
    }

    /** next_input keeps the tables valid: it only changes the states and the counter difference. */
    method Read(p: nat) returns (outcome: Outcome)
      requires Valid() && p < 2
      modifies `syncCountDiff, states
      ensures Valid() && stats.Repr() == old(stats.Repr())
      ensures (View(), outcome) == M.NextInput(interval, old(View()), p)
    {
      hide Statistics.Valid, M.NextInput;
      outcome := NextInput(p);
      assert stats.Repr() == old(stats.Repr()) && stats.Valid();
    }

    /** Forget the pending packet of stream p and read another one. */
    method Drop(p: nat) returns (outcome: Outcome)
      requires Valid() && p < 2
      modifies `syncCountDiff, states
      ensures Valid() && stats.Repr() == old(stats.Repr())
      ensures (View(), outcome) == M.NextInput(interval, Undo(interval, old(View()), p), p)
    {
      hide Statistics.Valid, M.NextInput;
      var st := states[p];
      states[p] := st.(dropExternal := st.dropExternal + 1,
                       timestampOld := st.timestampOld - Span(interval, st.countNew - st.countOld),
                       log := Forget(st.log));
      states[p] := states[p].(signalNew := st.signalOld, countNew := st.countOld);
      assert View() == Undo(interval, old(View()), p);
      outcome := NextInput(p);
      assert stats.Repr() == old(stats.Repr()) && stats.Valid();
    }

    /** The end of first_pass after a slot in which both streams had a packet. */
    method AdvanceBoth() returns (outcome: Outcome)
      requires Valid()
      modifies `syncCountDiff, states
      ensures Valid() && stats.Repr() == old(stats.Repr())
      ensures (View(), outcome) == M.AdvanceBoth(interval, old(View()))
    {
      hide Statistics.Valid, M.NextInput;
      var countOld := states[1].countOld;
      outcome := Read(0);
      if outcome != Continue {
        return;
      }
      if countOld == states[1].countOld {
        outcome := Read(1);
      } else if states[0].countOld - states[1].countNew - syncCountDiff < 0 {
        SetPosition();
      } else if states[0].countOld - states[1].countNew - syncCountDiff == 0 {
        outcome := Read(1);
      } else if states[0].countOld - states[1].countNew - syncCountDiff != 1 {
        outcome := Abort(913);
      } else {
        outcome := Read(1);
        if outcome != Continue {
          return;
        }
        if states[0].countOld - states[1].countNew - syncCountDiff < 0 {
          SetPosition();
        } else if states[0].countOld - states[1].countNew - syncCountDiff != 0 {
          outcome := Abort(919);
        } else {
          outcome := Read(1);
        }
      }
    }

    method SetPosition()
      requires Valid()
      modifies states
      ensures Valid() && stats.Repr() == old(stats.Repr())
      ensures View() == CatchUp(old(View()))
    {
      hide Statistics.Valid;
      states[1] := states[1].(countOld := states[0].countOld - syncCountDiff);
      assert stats.Repr() == old(stats.Repr()) && stats.Valid();
    }

    /** The position of stream p moves on by the slots just emitted. */
    method Consume(p: nat, age: int)
      requires Valid() && p < 2
      modifies states
      ensures Valid() && stats.Repr() == old(stats.Repr())
      ensures var before := old(View());
              var st := before.streams[p];
              View() == before.(streams := before.streams[p := st.(countOld := st.countOld + age)])
    {
      hide Statistics.Valid;
      states[p] := states[p].(countOld := states[p].countOld + age);
      assert stats.Repr() == old(stats.Repr()) && stats.Valid();
    }

    /** Both streams have a packet in the last slot of the batch. */
    method EmitBoth()
      requires Valid()
      modifies `output, stats.Repr()
      ensures Valid() && fresh(stats.Repr() - old(stats.Repr()))
      ensures View() == M.EmitBoth(old(View()))
    {
      hide Statistics.Valid, M.EmitBatch;
      if states[0].countNew != states[0].countOld {
        EmitBatch(states[0].countNew - states[0].countOld,
                  Slot(true, true, Byte(states[0].signalNew), Byte(states[1].signalNew)));
      }
    }

    /** Only stream p has a packet in the last slot of the batch. */
    method EmitOne(p: nat)
      requires Valid() && p < 2
      modifies `output, states, stats.Repr()
      ensures Valid() && fresh(stats.Repr() - old(stats.Repr()))
      ensures View() == if p == 0 then M.EmitFirst(old(View())) else M.EmitSecond(old(View()))
    {
      hide Statistics.Valid, M.EmitBatch;
      var age := states[p].countNew - states[p].countOld;
      var signal := Byte(states[p].signalNew);
      EmitBatch(age, if p == 0 then Slot(true, false, signal, NO_SIGNAL) else Slot(false, true, NO_SIGNAL, signal));
      Consume(1 - p, age);
    }

    method DropOne() returns (outcome: Outcome)
      requires Valid()
      modifies `syncCountDiff, states
      ensures Valid() && stats.Repr() == old(stats.Repr())
      ensures (View(), outcome) == M.DropOne(interval, old(View()))
    {
      hide Statistics.Valid, M.NextInput;
      if states[0].timestampOld - states[1].timestamp > interval / 2.0
         || states[1].timestamp - states[0].timestampOld > interval {
        outcome := Drop(1);
      } else if states[1].timestampOld - states[0].timestamp > interval / 2.0
                || states[0].timestamp - states[1].timestampOld > interval {
        outcome := Drop(0);
      } else {
        outcome := Exit(4);
      }
    }

    /** first_pass */
    method FirstPass() returns (outcome: Outcome)
      requires Valid()
      modifies this, states, stats.Repr()
      ensures Valid() && fresh(stats.Repr() - old(stats.Repr()))
      ensures (View(), outcome) == M.FirstPass(interval, old(View()))
    {
      hide Statistics.Valid, M.NextInput, M.AdvanceBoth, M.DropOne, M.EmitBoth, M.EmitFirst, M.EmitSecond;
      if states[0].countNew < states[0].countOld {
        return Abort(840);
      }
      var age0 := states[0].countNew - states[0].countOld;
      if states[1].countNew < states[1].countOld {
        return Abort(842);
      }
      var age1 := states[1].countNew - states[1].countOld;
      if states[0].countOld - states[1].countOld != syncCountDiff {
        return Abort(845);
      }
      if age0 == age1 {
        if Abs(states[0].timestamp - states[1].timestamp) > interval {
          outcome := DropOne();
        } else {
          EmitBoth();
          outcome := AdvanceBoth();
        }
      } else if age0 < age1 {
        EmitOne(0);
        outcome := Read(0);
      } else {
        EmitOne(1);
        outcome := Read(1);
      }
    }

    /** next_input without regard to the other stream */
    method NextAlone(p: nat) returns (outcome: Outcome)
      requires states.Length == 2 && p < 2
      modifies states
      ensures (states[p], outcome) == M.NextAlone(interval, old(states[p]))
      ensures states[1 - p] == old(states[1 - p])
    {
      hide M.ReadInput;
      while true
        invariant M.NextAlone(interval, states[p]) == M.NextAlone(interval, old(states[p]))
        invariant states[1 - p] == old(states[1 - p])
        decreases |states[p].input|
      {
        var reading := ReadInput(p);
        match reading {
          case EndOfFile => return EndOfInput;
          case Malformed => return Exit(-3);
          case TooLate =>
          case _ => return Continue;
        }
      }
    }

    /** synchronize_input, from two freshly opened captures */
    method Synchronize() returns (outcome: Outcome)
      requires states.Length == 2 && syncCountDiff == 0 && output == [] && stats.bursts == []
      requires states[0] == Fresh(states[0].input) && states[1] == Fresh(states[1].input)
      modifies `syncCountDiff, states
      ensures (View(), outcome) == M.Synchronize(interval, old(states[0].input), old(states[1].input))
    {
      hide M.NextAlone;
      outcome := NextAlone(0);
      if outcome != Continue {
        assert states[..] == [states[0], states[1]];
        return AtSync(outcome);
      }
      outcome := NextAlone(1);
      if outcome != Continue {
        assert states[..] == [states[0], states[1]];
        return AtSync(outcome);
      }
      while true
        invariant syncCountDiff == 0
        invariant M.Align(interval, states[0], states[1])
               == M.Synchronize(interval, old(states[0].input), old(states[1].input))
        decreases |states[0].input| + |states[1].input|
      {
        var ts := states[0].timestamp - states[1].timestamp;
        if ts > interval / 2.0 {
          outcome := NextAlone(1);
        } else if ts < -(interval / 2.0) {
          outcome := NextAlone(0);
        } else {
          break;
        }
        if outcome != Continue {
          assert states[..] == [states[0], states[1]];
          return AtSync(outcome);
        }
      }
      syncCountDiff := states[0].countNew - states[1].countNew;
      states[0] := Anchor(states[0]);
      states[1] := Anchor(states[1]);
      assert states[..] == [states[0], states[1]];
      return Continue;
    }

    /** The part of main that synchronises and then repeats first_pass until it cannot go on. */
    method Extract() returns (outcome: Outcome, ghost steps: nat)
      requires Valid() && syncCountDiff == 0 && output == [] && stats.bursts == []
      requires states[0] == Fresh(states[0].input) && states[1] == Fresh(states[1].input)
      modifies this, states, stats.Repr()
      ensures Valid() && outcome != Continue
      ensures (View(), outcome) == Program(interval, old(states[0].input), old(states[1].input), steps)
      ensures interval > 0.0 && PhantomSteps(interval, old(states[0].input), old(states[1].input), steps) == 0 ==>
        (stats.coordBursts != null ==> Weighted(stats.coordBursts.Values) == stats.u64Stats[0])
    {
      hide Statistics.Valid, M.FirstPass, M.Synchronize;
      ghost var repr := stats.Repr();
      outcome := Synchronize();
      assert stats.Repr() == repr && stats.Valid();
      steps := 0;
      while outcome == Continue
        invariant Valid() && fresh(stats.Repr() - repr)
        invariant (View(), outcome) == Program(interval, old(states[0].input), old(states[1].input), steps)
        decreases outcome == Continue, Left(View())
      {
        FirstPassReads(interval, View());
        outcome := FirstPass();
        steps := steps + 1;
      }
      if interval > 0.0 && PhantomSteps(interval, old(states[0].input), old(states[1].input), steps) == 0 {
        ProgramCounts(interval, old(states[0].input), old(states[1].input), steps);
        if stats.coordBursts != null {
          BurstsAreLosses();
        }
      }
    }
  }
}
