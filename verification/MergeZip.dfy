/** In every run the emitted trace is the slot-by-slot zip of the two streams' reception indicators. */
module MergeZip {
  import opened StreamMerge
  import opened MergeConservation
  import opened MergeLog

  /** The signal strengths of these packets by their counters; a later packet replaces an earlier one. */
  function Signals(ps: seq<Packet>): map<int, Signal> {
    if ps == [] then map[]
    else
      var last := ps[|ps| - 1];
      Signals(ps[..|ps| - 1])[last.count := last.signal]
  }

  lemma SignalsSnoc(ps: seq<Packet>, p: Packet)
    ensures Signals(ps + [p]) == Signals(ps)[p.count := p.signal]
  {
    assert (ps + [p])[..|ps|] == ps;
  }

  lemma {:induction false} SignalsAt(ps: seq<Packet>, c: int)
    ensures c in Signals(ps) <==> exists i :: 0 <= i < |ps| && ps[i].count == c
  {
    if ps != [] {
      var n := |ps| - 1;
      SignalsAt(ps[..n], c);
      if i :| 0 <= i < n && ps[i].count == c {
        assert ps[..n][i].count == c;
      }
      if ps[n].count == c {
        assert ps[n].count == c;
      }
    }
  }

  /** The packet with this counter was accepted, and not dropped as out of step afterwards. */
  ghost predicate Received(st: Stream, c: int) {
    c in Signals(st.log.kept)
  }

  /** The index by which the table of signal strengths counts the packet with this counter. */
  ghost function Strength(st: Stream, c: int): nat {
    if Received(st, c) then Byte(Signals(st.log.kept)[c]) else NO_SIGNAL
  }

  /** How many of the removals happened before or at slot i of the trace. */
  ghost function RemovedBy(removed: seq<nat>, i: int): (n: nat)
    ensures n <= |removed|
  {
    if removed == [] then 0
    else
      var last := |removed| - 1;
      RemovedBy(removed[..last], i) + if removed[last] <= i then 1 else 0
  }

  /** The counter of stream p's packet that belongs to slot i of the trace, the first k slots of which are phantoms. */
  ghost function Place(sys: Pair, p: nat, start: int, k: nat, i: nat): int
    requires p < 2
  {
    start + 1 + i - k + RemovedBy(sys.streams[p].log.removed, i)
  }

  /** Nothing more is read from a stream that refused a packet or fell back to counter 0. */
  ghost predicate Ended(st: Stream) { st.log.refused != [] || st.log.fell }

  /** Only packets behind the synchronised one were received. */
  ghost predicate NothingBefore(st: Stream, start: int) {
    && (!Ended(st) ==> start <= st.countNew)
    && (!st.log.fell && start > 0 ==> NoZero(st.log.kept))
    && forall c :: 0 < c <= start ==> !Received(st, c)
  }

  /** Every emitted slot behind the first k ones tells, for stream p, whether its packet was received. */
  ghost predicate Zipped(sys: Pair, p: nat, start: nat, k: nat)
    requires p < 2
  {
    && NothingBefore(sys.streams[p], start)
    && forall i :: k <= i < |sys.trace| ==>
      var place := Place(sys, p, start, k, i);
      && (!Ended(sys.streams[p]) ==> place <= sys.streams[p].countNew)
      && sys.trace[i].Bit(p) == Received(sys.streams[p], place)
      && sys.trace[i].Strength(p) == Strength(sys.streams[p], place)
  }

  ghost predicate Rising(ps: seq<Packet>) {
    forall i, j :: 0 <= i < j < |ps| ==> ps[i].count < ps[j].count
  }

  /** Only the counter 0 is repeated. */
  ghost predicate RisingBesideZero(ps: seq<Packet>) {
    forall i, j :: 0 <= i < j < |ps| ==> ps[i].count < ps[j].count || ps[i].count == ps[j].count == 0
  }

  ghost predicate NoZero(ps: seq<Packet>) { forall i :: 0 <= i < |ps| ==> ps[i].count != 0 }

  /** The kept packets have increasing counters, but for a repeated 0. */
  ghost predicate Tidy(st: Stream) {
    && !st.log.fell && st.countNew >= 0 && RisingBesideZero(st.log.kept) && (!st.log.restarted ==> NoZero(st.log.kept))
    && Logged(st)
  }

  /** Nothing was received beyond `bound`. */
  ghost predicate Quiet(st: Stream, bound: int) {
    forall c :: c > bound ==> !Received(st, c)
  }

  /** Beyond countOld at most the pending packet was received. */
  ghost predicate Pending(st: Stream) {
    && Quiet(st, st.countNew)
    && (forall c :: st.countOld < c <= st.countNew ==> (Received(st, c) <==> c == st.countNew))
    && (st.countNew > st.countOld ==> Strength(st, st.countNew) == Byte(st.signalNew))
  }

  /** The same packets up to this counter were received, with the same signal strengths; counters 0 do not matter. */
  ghost predicate Alike(a: Stream, b: Stream, bound: int) {
    forall c :: 0 < c <= bound ==> Received(a, c) == Received(b, c) && Strength(a, c) == Strength(b, c)
  }

  /** A stream that is not about to be read: it has at most a pending packet, or it fell back to counter 0. */
  ghost predicate Rests(st: Stream) {
    if st.log.fell then Logged(st) && st.countNew == 0 < st.countOld else Tidy(st) && Pending(st)
  }

  /** While the trace has n slots: what was received up to the old countNew does not change. */
  ghost predicate Grown(before: Stream, after: Stream, n: nat) {
    && (!Ended(after) ==> !Ended(before) && before.countNew <= after.countNew)
    && (before.log.fell ==> after.log.fell && after.log.kept == before.log.kept)
    && (!after.log.fell && before.countNew > 0 && NoZero(before.log.kept) ==> NoZero(after.log.kept))
    && Alike(before, after, before.countNew)
    && before.log.removed <= after.log.removed
    && |after.log.removed| - |before.log.removed| == after.resync - before.resync
    && (forall i :: |before.log.removed| <= i < |after.log.removed| ==> after.log.removed[i] == n)
  }

  lemma {:induction false} RemovedByPrefix(a: seq<nat>, b: seq<nat>, n: nat, i: int)
    requires a <= b && i < n
    requires forall j :: |a| <= j < |b| ==> b[j] == n
    ensures RemovedBy(a, i) == RemovedBy(b, i)
    decreases |b|
  {
    if |a| < |b| {
      assert a <= b[..|b| - 1];
      RemovedByPrefix(a, b[..|b| - 1], n, i);
    } else {
      assert a == b;
    }
  }

  lemma {:induction false} RemovedByAll(a: seq<nat>, i: int)
    requires forall j :: 0 <= j < |a| ==> a[j] <= i
    ensures RemovedBy(a, i) == |a|
  {
    if a != [] {
      RemovedByAll(a[..|a| - 1], i);
    }
  }

  /** The zip survives everything that happens to a stream without a new slot being emitted. */
  lemma ZippedGrows(sys: Pair, r: Pair, p: nat, start: nat, k: nat)
    requires p < 2 && sys.streams[p].log.refused == []
    requires Zipped(sys, p, start, k) && Grown(sys.streams[p], r.streams[p], |sys.trace|) && r.trace == sys.trace
    ensures Zipped(r, p, start, k)
  {
    var st, after := sys.streams[p], r.streams[p];
    assert forall c :: 0 < c && (st.log.fell || c <= st.countNew) ==>
      Received(st, c) == Received(after, c) && Strength(st, c) == Strength(after, c);
    forall i | k <= i < |r.trace|
      ensures Place(r, p, start, k, i) == Place(sys, p, start, k, i) > 0
    {
      RemovedByPrefix(sys.streams[p].log.removed, r.streams[p].log.removed, |sys.trace|, i);
    }
  }

  // ---------- next_input ----------

  ghost predicate Accepted(reading: Reading) { reading in {Usable, Backward, Forward} }

  /** What reading a packet does to the counters and the log, apart from the clock. */
  lemma ReadChanges(interval: real, st: Stream)
    requires st.input != []
    ensures var (r, reading) := ReadInput(interval, st);
            var p := st.input[0];
            && reading != EndOfFile && r.resync == st.resync && r.dropExternal == st.dropExternal
            && r.log.removed == st.log.removed && r.log.outOfStep == st.log.outOfStep
            && r.countOld == st.countNew
            && (reading == Malformed ==> r.log.kept == st.log.kept && r.log.refused != [])
            && (reading != Malformed ==> r.log.refused == st.log.refused)
            && (reading == TooLate ==>
                && r.countNew == st.countNew && r.signalNew == st.signalNew && r.log.kept == st.log.kept
                && r.log.restarted == st.log.restarted && r.log.fell == st.log.fell
                && r.log.late == st.log.late + [p] && r.dropInternal == st.dropInternal + 1)
            && (Accepted(reading) ==>
                && r.countNew == p.count && r.signalNew == p.signal && r.signalOld == st.signalNew
                && r.log.kept == st.log.kept + [p]
                && r.log.late == st.log.late && r.dropInternal == st.dropInternal
                && (p.count > st.countNew || p.count == 0)
                && r.log.restarted == (st.log.restarted || p.count == 0)
                && r.log.fell == (st.log.fell || (p.count == 0 && st.countNew > 0)))
  {
  }

  lemma ReadZips(interval: real, st: Stream, n: nat)
    requires Tidy(st) && Quiet(st, st.countNew)
    ensures var (r, reading) := ReadInput(interval, st);
            && Grown(st, r, n)
            && (reading == Malformed ==> r.log.refused != [])
            && (reading == TooLate ==> Tidy(r) && Quiet(r, r.countNew))
            && (Accepted(reading) ==> Rests(r))
  {
    hide ReadInput, Signals;
    var (r, reading) := ReadInput(interval, st);
    if st.input != [] {
      ReadChanges(interval, st);
      var p := st.input[0];
      if Accepted(reading) {
        if !r.log.fell {
          AcceptedIsNewest(st, p);
        }
        SignalsSnoc(st.log.kept, p);
      }
      assert forall c :: Received(r, c) <==> Received(st, c) || (Accepted(reading) && c == p.count);
    }
  }

  lemma AcceptedIsNewest(st: Stream, p: Packet)
    requires Tidy(st) && Quiet(st, st.countNew) && (p.count > st.countNew || p.count == 0 == st.countNew)
    ensures RisingBesideZero(st.log.kept + [p])
  {
    hide Signals;
    forall i | 0 <= i < |st.log.kept|
      ensures st.log.kept[i].count <= st.countNew
    {
      SignalsAt(st.log.kept, st.log.kept[i].count);
      assert Received(st, st.log.kept[i].count);
    }
  }

  /** Stream p is about to be read. */
  ghost predicate Ready(sys: Pair, p: nat)
    requires p < 2
  {
    Tidy(sys.streams[p]) && Quiet(sys.streams[p], sys.streams[p].countNew) && Rests(sys.streams[1 - p])
  }

  ghost predicate BothRest(sys: Pair) { Rests(sys.streams[0]) && Rests(sys.streams[1]) }

  ghost predicate BothGrow(sys: Pair, r: Pair) {
    r.trace == sys.trace && forall p :: 0 <= p < 2 ==> Grown(sys.streams[p], r.streams[p], |sys.trace|)
  }

  ghost predicate NoneRefused(sys: Pair) {
    sys.streams[0].log.refused == [] && sys.streams[1].log.refused == []
  }

  lemma BothGrowTrans(a: Pair, b: Pair, c: Pair)
    requires BothGrow(a, b) && BothGrow(b, c) && NoneRefused(b)
    ensures BothGrow(a, c)
  {
  }

  lemma LoseSlotZips(st: Stream, n: nat)
    requires Rests(st)
    ensures var r := LoseSlot(st, n);
            Grown(st, r, n) && if Adjacent(st) then Tidy(r) && Quiet(r, r.countNew) else Rests(r)
  {
    var r := LoseSlot(st, n);
    assert forall c :: Received(r, c) == Received(st, c);
  }

  lemma ResynchroniseZips(sys: Pair, v: Verdict)
    requires BothRest(sys) && (v.Remove? ==> v.stream < 2)
    ensures var t := Resynchronise(sys, v);
            && BothGrow(sys, t.sys)
            && (t.Again? ==> Ready(t.sys, t.stream))
            && (t.Stop? && t.outcome == Continue ==> BothRest(t.sys))
  {
    if v.Remove? {
      LoseSlotZips(sys.streams[v.stream], |sys.trace|);
      hide Tidy, Quiet, Rests;
    }
  }

  lemma ReadingZips(interval: real, sys: Pair, p: nat)
    requires p < 2 && Ready(sys, p)
    ensures var (st, reading) := ReadInput(interval, sys.streams[p]);
            var read: Pair := sys.(streams := sys.streams[p := st]);
            && BothGrow(sys, read)
            && (reading == TooLate ==> Ready(read, p))
            && (Accepted(reading) ==> BothRest(read) && NoneRefused(read))
  {
    hide ReadInput, Quiet, RisingBesideZero;
    ReadZips(interval, sys.streams[p], |sys.trace|);
  }

  lemma TurnZips(interval: real, sys: Pair, p: nat)
    requires p < 2 && Ready(sys, p)
    ensures var t := TakeTurn(interval, sys, p);
            && BothGrow(sys, t.sys)
            && (t.Again? ==> Ready(t.sys, t.stream))
            && (t.Stop? && t.outcome == Continue ==> BothRest(t.sys))
  {
    hide ReadInput, Judge, BothGrow, Ready, BothRest;
    var (st, reading) := ReadInput(interval, sys.streams[p]);
    ReadingZips(interval, sys, p);
    var read: Pair := sys.(streams := sys.streams[p := st]);
    if reading == Backward || reading == Forward {
      var v := Judge(interval, read.streams, read.diff, p, reading);
      ResynchroniseZips(read, v);
      BothGrowTrans(sys, read, Resynchronise(read, v).sys);
    }
  }

  lemma ReadyIsNotRefused(sys: Pair, p: nat)
    requires p < 2 && Ready(sys, p)
    ensures NoneRefused(sys)
  {
  }

  lemma {:induction false} NextZips(interval: real, sys: Pair, p: nat)
    requires p < 2 && Ready(sys, p)
    ensures var (r, o) := NextInput(interval, sys, p);
            BothGrow(sys, r) && (o == Continue ==> BothRest(r))
    decreases Left(sys)
  {
    hide Ready, BothGrow, BothRest, Resynchronise, ReadInput;
    TurnZips(interval, sys, p);
    var t := TakeTurn(interval, sys, p);
    if t.Again? {
      ReadyIsNotRefused(t.sys, t.stream);
      NextZips(interval, t.sys, t.stream);
      BothGrowTrans(sys, t.sys, NextInput(interval, t.sys, t.stream).0);
    }
  }

  // ---------- one step of the first pass ----------

  ghost predicate RemovalsLogged(st: Stream, n: nat) {
    |st.log.removed| == st.resync && forall j :: 0 <= j < |st.log.removed| ==> st.log.removed[j] <= n
  }

  ghost predicate AllZipped(sys: Pair, start0: nat, start1: nat, k: nat) {
    Zipped(sys, 0, start0, k) && Zipped(sys, 1, start1, k)
  }

  ghost predicate AllLogged(sys: Pair) {
    RemovalsLogged(sys.streams[0], |sys.trace|) && RemovalsLogged(sys.streams[1], |sys.trace|)
  }

  /** A batch of slots extends the zip of a stream with at least that many slots still to account for. */
  lemma EmitZips(sys: Pair, p: nat, start: nat, k: nat, age: int, last: Slot)
    requires p < 2 && 1 <= age <= Age(sys, p) && k <= |sys.trace|
    requires Accounted(sys, start - k, p, sys.streams[p].countOld)
    requires Pending(sys.streams[p]) && Zipped(sys, p, start, k) && RemovalsLogged(sys.streams[p], |sys.trace|)
    requires last.Bit(p) == (age == Age(sys, p))
    requires last.Strength(p) == if last.Bit(p) then Byte(sys.streams[p].signalNew) else NO_SIGNAL
    ensures var r := EmitBatch(sys, age, last);
            Zipped(r, p, start, k) && RemovalsLogged(r.streams[p], |r.trace|)
  {
    var r := EmitBatch(sys, age, last);
    var st := sys.streams[p];
    forall i | |sys.trace| <= i < |r.trace|
      ensures Place(r, p, start, k, i) == st.countOld + 1 + (i - |sys.trace|)
      ensures r.trace[i].Bit(p) == Received(st, Place(r, p, start, k, i))
      ensures r.trace[i].Strength(p) == Strength(st, Place(r, p, start, k, i))
    {
      RemovedByAll(st.log.removed, i);
    }
    forall i | 0 <= i < |sys.trace|
      ensures r.trace[i] == sys.trace[i]
    {
    }
  }

  lemma GrowthKeepsZip(sys: Pair, r: Pair, start0: nat, start1: nat, k: nat)
    requires BothGrow(sys, r) && NoneRefused(sys) && AllZipped(sys, start0, start1, k) && AllLogged(sys)
    ensures AllZipped(r, start0, start1, k) && AllLogged(r)
  {
    ZippedGrows(sys, r, 0, start0, k);
    ZippedGrows(sys, r, 1, start1, k);
  }

  /** Reading from stream p keeps the zip, whatever the outcome. */
  lemma NextKeepsZip(interval: real, sys: Pair, p: nat, start0: nat, start1: nat, k: nat)
    requires p < 2 && Ready(sys, p)
    requires AllZipped(sys, start0, start1, k) && AllLogged(sys)
    ensures var (r, o) := NextInput(interval, sys, p);
            && r.trace == sys.trace && AllZipped(r, start0, start1, k) && AllLogged(r)
            && (o == Continue ==> BothRest(r))
  {
    hide Zipped, RemovalsLogged, Quiet, Rests, Tidy, Grown, NextInput;
    NextZips(interval, sys, p);
    ReadyIsNotRefused(sys, p);
    GrowthKeepsZip(sys, NextInput(interval, sys, p).0, start0, start1, k);
  }

  /** What holds at each entry of first_pass, k phantoms later. */
  ghost predicate ZipEntry(interval: real, sys: Pair, start0: nat, start1: nat, k: nat) {
    && AtEntry(interval, sys, start0 - k, start1 - k) && k <= |sys.trace|
    && BothRest(sys) && AllZipped(sys, start0, start1, k) && AllLogged(sys)
  }

  ghost predicate KeepsZip(r: (Pair, Outcome), start0: nat, start1: nat, k: nat) {
    AllZipped(r.0, start0, start1, k) && AllLogged(r.0) && (r.1 == Continue ==> BothRest(r.0))
  }

  /** Consuming part of the slots before a pending packet leaves it pending. */
  lemma ConsumeKeeps(st: Stream, age: nat, n: nat)
    requires Rests(st)
    ensures var r := st.(countOld := st.countOld + age);
            Rests(r) && Grown(st, r, n)
  {
    var r := st.(countOld := st.countOld + age);
    assert forall c :: Received(r, c) == Received(st, c);
  }

  lemma CatchUpZips(sys: Pair, start0: nat, start1: nat, k: nat, lag: nat)
    requires Balanced(sys, start0 - k, start1 - k, lag) && BothRest(sys)
    requires AllZipped(sys, start0, start1, k) && AllLogged(sys)
    ensures KeepsZip((CatchUp(sys), Continue), start0, start1, k)
  {
    hide Rests, Alike, Zipped, RemovalsLogged;
    var r := CatchUp(sys);
    ConsumeKeeps(sys.streams[0], 0, |sys.trace|);
    ConsumeKeeps(sys.streams[1], lag, |sys.trace|);
    assert r.streams[0] == sys.streams[0].(countOld := sys.streams[0].countOld + 0);
    assert r.streams[1] == sys.streams[1].(countOld := sys.streams[1].countOld + lag);
    RestIsNotRefused(sys);
    GrowthKeepsZip(sys, r, start0, start1, k);
  }

  lemma RestIsNotRefused(sys: Pair)
    requires BothRest(sys)
    ensures NoneRefused(sys)
  {
  }

  /** A stream that rests can be read again, if it did not fall back below its position. */
  lemma RestIsReady(sys: Pair, p: nat)
    requires BothRest(sys) && p < 2 && (Age(sys, p) >= 0 || !sys.streams[p].log.fell)
    ensures Ready(sys, p)
  {
  }

  /** While stream 1 is not read, it has not fallen. */
  lemma StaysUp(interval: real, sys: Pair, lag: nat, start0: int, start1: int)
    requires BalancedFor(sys, 0, start0, start1, lag) && Age(sys, 1) == lag && !sys.streams[1].log.fell
    ensures var (a, o) := NextInput(interval, sys, 0);
            o == Continue && (a.streams[1].countOld == sys.streams[1].countOld || lag == 0) ==> !a.streams[1].log.fell
  {
    hide NextInput;
    NextBalances(interval, sys, 0, start0, start1, lag);
    if lag == 0 {
      NextBesideFallen(interval, sys);
    } else {
      NextOfFirst(interval, sys);
    }
  }

  /** The cascade of reads after a common slot, or after two streams of age 0. */
  lemma AdvanceZips(interval: real, sys: Pair, start0: nat, start1: nat, k: nat, lag: nat)
    requires BalancedFor(sys, 0, start0 - k, start1 - k, lag) && Age(sys, 1) == lag && !sys.streams[1].log.fell
    requires Ready(sys, 0) && AllZipped(sys, start0, start1, k) && AllLogged(sys)
    ensures KeepsZip(AdvanceBoth(interval, sys), start0, start1, k)
  {
    hide NextInput, AllZipped, AllLogged, Ready, BothRest;
    NextBalances(interval, sys, 0, start0 - k, start1 - k, lag);
    NextKeepsZip(interval, sys, 0, start0, start1, k);
    StaysUp(interval, sys, lag, start0 - k, start1 - k);
    var (a, oa) := NextInput(interval, sys, 0);
    if oa == Continue {
      if a.streams[1].countOld == sys.streams[1].countOld || Behind(a) == 0 {
        RestIsReady(a, 1);
        NextKeepsZip(interval, a, 1, start0, start1, k);
      } else if Behind(a) < 0 {
        CatchUpZips(a, start0, start1, k, lag);
      } else if Behind(a) == 1 {
        RestIsReady(a, 1);
        NextBalances(interval, a, 1, start0 - k, start1 - k, 1);
        NextKeepsZip(interval, a, 1, start0, start1, k);
        AdvanceSecondZips(interval, a, start0, start1, k);
      }
    }
  }

  /** The rest of the cascade, when stream 1 is one slot behind. */
  lemma AdvanceSecondZips(interval: real, a: Pair, start0: nat, start1: nat, k: nat)
    requires var (b, o) := NextInput(interval, a, 1);
             && AllZipped(b, start0, start1, k) && AllLogged(b)
             && (o == Continue ==> BothRest(b) && Balanced(b, start0 - k, start1 - k, 1))
    ensures var (b, o) := NextInput(interval, a, 1);
            && (o == Continue && Behind(b) < 0 ==> KeepsZip((CatchUp(b), Continue), start0, start1, k))
            && (o == Continue && Behind(b) == 0 ==> KeepsZip(NextInput(interval, b, 1), start0, start1, k))
  {
    hide NextInput, AllZipped, AllLogged, Ready, BothRest;
    var (b, o) := NextInput(interval, a, 1);
    if o == Continue {
      if Behind(b) < 0 {
        CatchUpZips(b, start0, start1, k, 1);
      } else if Behind(b) == 0 {
        RestIsReady(b, 1);
        NextKeepsZip(interval, b, 1, start0, start1, k);
      }
    }
  }

  /** Dropping the pending packet of a stream only forgets a packet beyond everything emitted. */
  lemma UndoZips(interval: real, sys: Pair, p: nat, start0: nat, start1: nat, k: nat)
    requires p < 2 && Balanced(sys, start0 - k, start1 - k, 0) && k <= |sys.trace|
    requires BothRest(sys) && AllZipped(sys, start0, start1, k) && AllLogged(sys)
    requires Stands(sys, p) && Age(sys, p) >= 0
    ensures var r := Undo(interval, sys, p);
            Ready(r, p) && AllZipped(r, start0, start1, k) && AllLogged(r)
  {
    var r := Undo(interval, sys, p);
    var st, after := sys.streams[p], r.streams[p];
    UndoForgets(interval, sys, p);
    hide Tidy, Pending, Quiet;
    var start := if p == 0 then start0 else start1;
    forall i | k <= i < |sys.trace|
      ensures 0 < Place(sys, p, start, k, i) == Place(r, p, start, k, i) <= st.countOld
    {
    }
  }

  lemma UndoForgets(interval: real, sys: Pair, p: nat)
    requires p < 2 && Tidy(sys.streams[p]) && Pending(sys.streams[p])
    requires sys.streams[p].log.kept != [] && sys.streams[p].countOld >= 0
    requires Age(sys, p) >= 1 || sys.streams[p].countOld == sys.streams[p].countNew == 0
    ensures var st, r := sys.streams[p], Undo(interval, sys, p).streams[p];
            && Tidy(r) && Quiet(r, r.countNew)
            && Alike(st, r, st.countOld)
  {
    var st, r := sys.streams[p], Undo(interval, sys, p).streams[p];
    WithoutLast(st.log.kept);
    hide Signals;
    if Age(sys, p) >= 1 {
      LastIsNewest(st);
    }
    assert forall c :: c > 0 ==> (Received(r, c) <==> Received(st, c) && (Age(sys, p) >= 1 ==> c != st.countNew));
  }

  lemma WithoutLast(kept: seq<Packet>)
    requires RisingBesideZero(kept) && kept != []
    ensures var rest, last := kept[..|kept| - 1], kept[|kept| - 1];
            && RisingBesideZero(rest)
            && Signals(kept) == Signals(rest)[last.count := last.signal]
            && (last.count != 0 ==> last.count !in Signals(rest))
  {
    SignalsAt(kept[..|kept| - 1], kept[|kept| - 1].count);
  }

  /** The pending packet is the one that was kept last. */
  lemma LastIsNewest(st: Stream)
    requires Tidy(st) && Pending(st) && st.countNew > st.countOld
    ensures st.log.kept != [] && st.log.kept[|st.log.kept| - 1].count == st.countNew
  {
    hide Signals;
    var kept := st.log.kept;
    SignalsAt(kept, st.countNew);
    assert Received(st, st.countNew);
    var i :| 0 <= i < |kept| && kept[i].count == st.countNew;
    SignalsAt(kept, kept[|kept| - 1].count);
    assert Received(st, kept[|kept| - 1].count);
  }

  /** A phantom is only emitted while the trace consists of phantoms. */
  lemma PhantomsFirst(sys: Pair, start0: nat, start1: nat, k: nat)
    requires Settled(sys, start0 - k, start1 - k, 0) && k <= |sys.trace| && IsPhantom(sys)
    ensures |sys.trace| == k
  {
  }

  /** So there is no slot behind it that could be wrong. */
  lemma PhantomZips(interval: real, sys: Pair, start0: nat, start1: nat, k: nat)
    requires ZipEntry(interval, sys, start0, start1, k) && IsPhantom(sys)
    ensures KeepsZip(FirstPass(interval, sys), start0, start1, k + 1)
  {
    PhantomsFirst(sys, start0, start1, k);
    EmittedIsReady(sys);
    var e := EmitNext(sys);
    assert |e.trace| == k + 1;
    assert AllZipped(e, start0, start1, k + 1) && AllLogged(e);
    hide Tidy, Quiet, Pending, NextInput, EmitNext, Zipped, RemovalsLogged, BothRest;
    NextKeepsZip(interval, e, Sooner(sys), start0, start1, k + 1);
  }

  lemma StepZips(interval: real, sys: Pair, start0: nat, start1: nat, k: nat)
    requires ZipEntry(interval, sys, start0, start1, k)
    ensures KeepsZip(FirstPass(interval, sys), start0, start1, k + One(IsPhantom(sys)))
  {
    hide Zipped, RemovalsLogged, Tidy, Quiet, NextInput, AdvanceBoth;
    if Age(sys, 0) >= 0 && Age(sys, 1) >= 0 {
      if IsPhantom(sys) {
        PhantomZips(interval, sys, start0, start1, k);
      } else if Age(sys, 0) != Age(sys, 1) {
        EmittedIsReady(sys);
        EmittedZips(sys, start0, start1, k);
        NextKeepsZip(interval, EmitNext(sys), Sooner(sys), start0, start1, k);
      } else if Abs(sys.streams[0].timestamp - sys.streams[1].timestamp) > interval {
        DropZips(interval, sys, start0, start1, k);
      } else if Age(sys, 0) == 0 {
        RestIsReady(sys, 0);
        AdvanceZips(interval, sys, start0, start1, k, 0);
      } else {
        EmittedIsReady(sys);
        EmittedZips(sys, start0, start1, k);
        AdvanceZips(interval, EmitBoth(sys), start0, start1, k, Age(sys, 1));
      }
    }
  }

  lemma DropZips(interval: real, sys: Pair, start0: nat, start1: nat, k: nat)
    requires Settled(sys, start0 - k, start1 - k, 0) && k <= |sys.trace| && Age(sys, 0) == Age(sys, 1) >= 0
    requires BothRest(sys) && AllZipped(sys, start0, start1, k) && AllLogged(sys)
    ensures KeepsZip(DropOne(interval, sys), start0, start1, k)
  {
    hide AllZipped, AllLogged, Tidy, Quiet, NextInput, Undo;
    if OutOfStep(interval, sys, 1) {
      UndoZips(interval, sys, 1, start0, start1, k);
      NextKeepsZip(interval, Undo(interval, sys, 1), 1, start0, start1, k);
    } else if OutOfStep(interval, sys, 0) {
      UndoZips(interval, sys, 0, start0, start1, k);
      NextKeepsZip(interval, Undo(interval, sys, 0), 0, start0, start1, k);
    }
  }

  /** The batch up to the first pending packet, which is the last slot of the batch. */
  ghost function EmitNext(sys: Pair): Pair {
    if Age(sys, 0) == Age(sys, 1) then EmitBoth(sys)
    else if Age(sys, 0) < Age(sys, 1) then EmitFirst(sys)
    else EmitSecond(sys)
  }

  ghost function Sooner(sys: Pair): nat {
    if Age(sys, 0) <= Age(sys, 1) then 0 else 1
  }

  lemma EmittedIsReady(sys: Pair)
    requires BothRest(sys) && Age(sys, 0) >= 0 && Age(sys, 1) >= 0
    ensures Ready(EmitNext(sys), Sooner(sys))
  {
    hide Tidy, Quiet, Received;
    var p := Sooner(sys);
    var s, q := sys.streams[p], sys.streams[1 - p];
    var age := if Age(sys, 0) == Age(sys, 1) then 0 else Age(sys, p);
    ConsumeKeeps(s, 0, |sys.trace|);
    ConsumeKeeps(q, age, |sys.trace|);
    var r := EmitNext(sys);
    assert r.streams[p] == s && r.streams[1 - p] == q.(countOld := q.countOld + age);
    hide EmitNext;
  }

  lemma EmittedZips(sys: Pair, start0: nat, start1: nat, k: nat)
    requires Balanced(sys, start0 - k, start1 - k, 0) && k <= |sys.trace| && Age(sys, 0) >= 1 && Age(sys, 1) >= 1
    requires BothRest(sys) && AllZipped(sys, start0, start1, k) && AllLogged(sys)
    ensures AllZipped(EmitNext(sys), start0, start1, k) && AllLogged(EmitNext(sys))
  {
    var r := EmitNext(sys);
    var age, last := Age(sys, Sooner(sys)), r.trace[|r.trace| - 1];
    var e := EmitBatch(sys, age, last);
    EmitZips(sys, 0, start0, k, age, last);
    EmitZips(sys, 1, start1, k, age, last);
    assert BothGrow(e, r);
    RestIsNotRefused(sys);
    hide Zipped, RemovalsLogged, Tidy, Pending;
    GrowthKeepsZip(e, r, start0, start1, k);
  }
}
