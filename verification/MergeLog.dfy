/** The log of a run says what became of each packet that was read from the captures. */
module MergeLog {
  import opened StreamMerge

  /** The packets whose fate is known. */
  ghost function Ledger(st: Stream): multiset<Packet> {
    Entries(st.log.kept, st.log.late, st.log.outOfStep, st.log.refused)
  }

  ghost function Entries(kept: seq<Packet>, late: seq<Packet>, outOfStep: seq<Packet>, refused: seq<Packet>)
    : multiset<Packet>
  {
    multiset(kept) + multiset(late) + multiset(outOfStep) + multiset(refused)
  }

  lemma OneMoreEntry(kept: seq<Packet>, late: seq<Packet>, outOfStep: seq<Packet>, refused: seq<Packet>, p: Packet)
    ensures var more := Entries(kept, late, outOfStep, refused) + multiset{p};
            && Entries(kept + [p], late, outOfStep, refused) == more
            && Entries(kept, late + [p], outOfStep, refused) == more
            && Entries(kept, late, outOfStep + [p], refused) == more
            && Entries(kept, late, outOfStep, refused + [p]) == more
  {
  }

  /** Dropping the last kept packet only moves it. */
  lemma ForgetMoves(log: Log)
    ensures var r := Forget(log);
            && Entries(r.kept, r.late, r.outOfStep, r.refused)
            == Entries(log.kept, log.late, log.outOfStep, log.refused)
            && r.restarted == log.restarted && r.fell == log.fell
  {
    if log.kept != [] {
      var last := |log.kept| - 1;
      OneMoreEntry(log.kept[..last], log.late, log.outOfStep, log.refused, log.kept[last]);
      assert log.kept[..last] + [log.kept[last]] == log.kept;
    }
    hide Entries;
  }

  ghost predicate HasZero(ps: seq<Packet>) { exists i :: 0 <= i < |ps| && ps[i].count == 0 }

  lemma HasZeroJoins(a: seq<Packet>, b: seq<Packet>)
    ensures HasZero(a) || HasZero(b) ==> HasZero(a + b)
  {
    if i :| 0 <= i < |a| && a[i].count == 0 {
      assert (a + b)[i].count == 0;
    }
    if i :| 0 <= i < |b| && b[i].count == 0 {
      assert (a + b)[|a| + i].count == 0;
    }
  }

  /** Between two states, stream a read the packets that b's input lacks, and entered exactly those. */
  ghost predicate Reads(a: Stream, b: Stream) {
    && |b.input| <= |a.input|
    && (a.log.restarted ==> b.log.restarted) && (a.log.fell ==> b.log.fell)
    && (b.log.fell ==> a.log.fell || b.log.restarted)
    && var k := |a.input| - |b.input|;
       && b.input == a.input[k..] && Ledger(b) == Ledger(a) + multiset(a.input[..k])
       && (b.log.restarted ==> a.log.restarted || HasZero(a.input[..k]))
  }

  ghost predicate BothRead(a: Pair, b: Pair) {
    Reads(a.streams[0], b.streams[0]) && Reads(a.streams[1], b.streams[1])
  }

  lemma ReadsNothing(a: Stream, b: Stream)
    requires b.input == a.input && Ledger(b) == Ledger(a)
    requires b.log.restarted == a.log.restarted && b.log.fell == a.log.fell
    ensures Reads(a, b)
  {
  }

  lemma ReadsTrans(a: Stream, b: Stream, c: Stream)
    requires Reads(a, b) && Reads(b, c)
    ensures Reads(a, c)
  {
    hide Ledger, HasZero;
    var i, j := |a.input| - |b.input|, |b.input| - |c.input|;
    assert a.input[..i + j] == a.input[..i] + b.input[..j];
    HasZeroJoins(a.input[..i], b.input[..j]);
  }

  lemma ReadTakesOne(interval: real, st: Stream)
    requires st.input != []
    ensures var r := ReadInput(interval, st).0;
            r.input == st.input[1..] && Ledger(r) == Ledger(st) + multiset{st.input[0]}
  {
    hide Entries;
    OneMoreEntry(st.log.kept, st.log.late, st.log.outOfStep, st.log.refused, st.input[0]);
  }

  lemma ReadRemembers(interval: real, st: Stream)
    requires st.input != []
    ensures var r := ReadInput(interval, st).0;
            && (st.log.restarted ==> r.log.restarted)
            && (r.log.restarted ==> st.log.restarted || st.input[0].count == 0)
            && (st.log.fell ==> r.log.fell) && (r.log.fell ==> st.log.fell || r.log.restarted)
  {
  }

  lemma ReadReads(interval: real, st: Stream)
    ensures Reads(st, ReadInput(interval, st).0)
  {
    hide ReadInput, Ledger;
    if st.input != [] {
      ReadTakesOne(interval, st);
      ReadRemembers(interval, st);
      assert st.input[..1] == [st.input[0]] && (st.input[0].count == 0 ==> [st.input[0]][0].count == 0);
    } else {
      assert ReadInput(interval, st).1 == EndOfFile;
      ReadsNothing(st, st);
    }
  }

  /** Only reading concerns the input and its log. */
  ghost predicate SameInputs(a: Pair, b: Pair) {
    forall p :: 0 <= p < 2 ==>
      && b.streams[p].input == a.streams[p].input && Ledger(b.streams[p]) == Ledger(a.streams[p])
      && b.streams[p].log.restarted == a.streams[p].log.restarted && b.streams[p].log.fell == a.streams[p].log.fell
  }

  lemma SameInputsRead(sys: Pair, a: Pair, b: Pair)
    requires BothRead(sys, a) && SameInputs(a, b)
    ensures BothRead(sys, b)
  {
    forall p | 0 <= p < 2
      ensures Reads(sys.streams[p], b.streams[p])
    {
      ReadsNothing(a.streams[p], b.streams[p]);
      ReadsTrans(sys.streams[p], a.streams[p], b.streams[p]);
    }
  }

  lemma ResynchroniseReads(sys: Pair, v: Verdict)
    requires v.Remove? ==> v.stream < 2
    ensures SameInputs(sys, Resynchronise(sys, v).sys)
  {
  }

  lemma ReadingReads(interval: real, sys: Pair, p: nat)
    requires p < 2
    ensures BothRead(sys, sys.(streams := sys.streams[p := ReadInput(interval, sys.streams[p]).0]))
  {
    hide ReadInput, Reads;
    ReadReads(interval, sys.streams[p]);
    ReadsNothing(sys.streams[1 - p], sys.streams[1 - p]);
  }

  lemma TurnReads(interval: real, sys: Pair, p: nat)
    requires p < 2
    ensures BothRead(sys, TakeTurn(interval, sys, p).sys)
  {
    hide ReadInput, Judge, Resynchronise, BothRead, SameInputs;
    ReadingReads(interval, sys, p);
    var (st, reading) := ReadInput(interval, sys.streams[p]);
    var read: Pair := sys.(streams := sys.streams[p := st]);
    if reading == Backward || reading == Forward {
      var v := Judge(interval, read.streams, read.diff, p, reading);
      ResynchroniseReads(read, v);
      SameInputsRead(sys, read, Resynchronise(read, v).sys);
    }
  }

  lemma {:induction false} NextReads(interval: real, sys: Pair, p: nat)
    requires p < 2
    ensures BothRead(sys, NextInput(interval, sys, p).0)
    decreases Left(sys)
  {
    TurnReads(interval, sys, p);
    var t := TakeTurn(interval, sys, p);
    if t.Again? {
      NextReads(interval, t.sys, t.stream);
      BothReadTrans(sys, t.sys, NextInput(interval, t.sys, t.stream).0);
    }
  }

  lemma BothReadTrans(a: Pair, b: Pair, c: Pair)
    requires BothRead(a, b) && BothRead(b, c)
    ensures BothRead(a, c)
  {
    ReadsTrans(a.streams[0], b.streams[0], c.streams[0]);
    ReadsTrans(a.streams[1], b.streams[1], c.streams[1]);
  }

  lemma NextReadsFrom(interval: real, sys: Pair, from: Pair, p: nat)
    requires p < 2 && SameInputs(sys, from)
    ensures BothRead(sys, NextInput(interval, from, p).0)
  {
    BothReadNothing(sys);
    SameInputsRead(sys, sys, from);
    NextReads(interval, from, p);
    BothReadTrans(sys, from, NextInput(interval, from, p).0);
  }

  lemma CatchUpReads(sys: Pair, a: Pair)
    requires BothRead(sys, a)
    ensures BothRead(sys, CatchUp(a))
  {
  }

  lemma NextReadsAfter(interval: real, sys: Pair, a: Pair)
    requires BothRead(sys, a)
    ensures BothRead(sys, NextInput(interval, a, 1).0)
  {
    NextReads(interval, a, 1);
    BothReadTrans(sys, a, NextInput(interval, a, 1).0);
  }

  lemma AdvanceReads(interval: real, sys: Pair, from: Pair)
    requires SameInputs(sys, from)
    ensures BothRead(sys, AdvanceBoth(interval, from).0)
  {
    hide NextInput, BothRead, CatchUp, Behind;
    NextReadsFrom(interval, sys, from, 0);
    var a := NextInput(interval, from, 0).0;
    CatchUpReads(sys, a);
    NextReadsAfter(interval, sys, a);
    var b := NextInput(interval, a, 1).0;
    CatchUpReads(sys, b);
    NextReadsAfter(interval, sys, b);
  }

  lemma EmittersReadNothing(interval: real, sys: Pair)
    ensures SameInputs(sys, EmitBoth(sys)) && SameInputs(sys, EmitFirst(sys)) && SameInputs(sys, EmitSecond(sys))
    ensures SameInputs(sys, Undo(interval, sys, 0)) && SameInputs(sys, Undo(interval, sys, 1))
  {
    hide Entries, Forget;
    ForgetMoves(sys.streams[0].log);
    ForgetMoves(sys.streams[1].log);
  }

  lemma BothReadNothing(sys: Pair)
    ensures BothRead(sys, sys)
  {
  }

  lemma StepReads(interval: real, sys: Pair)
    ensures BothRead(sys, FirstPass(interval, sys).0)
  {
    BothReadNothing(sys);
    EmittersReadNothing(interval, sys);
    hide SameInputs, EmitBoth, EmitFirst, EmitSecond, Undo, BothRead, NextInput, AdvanceBoth, OutOfStep;
    AdvanceReads(interval, sys, EmitBoth(sys));
    NextReadsFrom(interval, sys, EmitFirst(sys), 0);
    NextReadsFrom(interval, sys, EmitSecond(sys), 1);
    NextReadsFrom(interval, sys, Undo(interval, sys, 0), 0);
    NextReadsFrom(interval, sys, Undo(interval, sys, 1), 1);
  }

  lemma {:induction false} RunReads(interval: real, sys: Pair, n: nat)
    ensures BothRead(sys, RunPasses(interval, sys, n).0)
  {
    if n == 0 {
      BothReadNothing(sys);
    } else {
      RunReads(interval, sys, n - 1);
      var (s, o) := RunPasses(interval, sys, n - 1);
      StepReads(interval, s);
      if o == Continue {
        BothReadTrans(sys, s, FirstPass(interval, s).0);
      }
    }
  }
}
