/** Clock tracking: where the packets of a stream lie relative to its expected dates. */
module MergeClock {
  import opened StreamMerge
  import opened MergeLog
  import opened MergeConservation

  /** The expected date of the packet with counter c. */
  ghost function Due(interval: real, st: Stream, c: int): real {
    st.timestampOld + Span(interval, c - st.countNew)
  }

  ghost function Lateness(interval: real, st: Stream, p: Packet): real { p.ts - Due(interval, st, p.count) }

  /** The successively late packets are late by at least the recorded minimum, by at most one slot. */
  ghost predicate Clocked(interval: real, st: Stream) {
    && |st.log.window| == st.lateCount <= DELAY_BEFORE_RESYNCHRONISATION
    && forall i :: 0 <= i < |st.log.window| ==>
         var lateness := Lateness(interval, st, st.log.window[i]);
         0.0 < lateness <= interval && st.lateMin <= lateness
  }

  /**
    Zeroed memory leaves the minimum at 0 until the first resynchronisation.  From then on it is the smallest
    lateness of the window, or one slot while the window is empty.
  */
  ghost predicate Calibrated(interval: real, st: Stream) {
    if !st.log.corrected then st.lateMin == 0.0
    else if st.log.window == [] then st.lateMin == interval
    else Attained(interval, st, st.log.window, st.lateMin)
  }

  ghost predicate Attained(interval: real, st: Stream, window: seq<Packet>, lateness: real) {
    exists i :: 0 <= i < |window| && Lateness(interval, st, window[i]) == lateness
  }

  /** The last accepted packet lies in the slot that starts at its reference date. */
  ghost predicate InSlot(interval: real, st: Stream) {
    st.timestampOld <= st.timestamp <= st.timestampOld + interval
  }

  /**
    The date at which the packet with counter `start` is expected is later than half a slot for each packet
    that is still to be read: so much the reference date can be corrected downwards by all of them together.
  */
  ghost predicate Dated(interval: real, st: Stream, start: int) {
    start <= st.countNew && Due(interval, st, start) > Drift(interval, |st.input|)
  }

  ghost function Drift(interval: real, n: nat): real { interval / 2.0 * (n as real) }

  ghost predicate OnTime(interval: real, st: Stream, start: int) {
    Clocked(interval, st) && Calibrated(interval, st) && Dated(interval, st, start)
  }

  lemma SpanAdds(interval: real, a: int, b: int)
    ensures Span(interval, a) + Span(interval, b) == Span(interval, a + b)
  {
  }

  lemma SpanIsPositive(interval: real, n: nat)
    requires interval > 0.0
    ensures Span(interval, n) >= 0.0 && Drift(interval, n) >= 0.0
    ensures n > 0 ==> Drift(interval, n) == Drift(interval, n - 1) + interval / 2.0
  {
  }

  /** Before the next packet is read there is a reference date. */
  lemma DatedIsPositive(interval: real, st: Stream, start: int)
    requires interval > 0.0 && Dated(interval, st, start)
    ensures st.timestampOld > 0.0
  {
    SpanIsPositive(interval, st.countNew - start);
    SpanIsPositive(interval, |st.input|);
    SpanAdds(interval, st.countNew - start, start - st.countNew);
    assert Span(interval, 0) == 0.0;
  }

  /** Moving the reference along the line of expected dates does not change it. */
  lemma DueMoves(interval: real, st: Stream, moved: Stream, c: int)
    requires moved.timestampOld == Due(interval, st, moved.countNew)
    ensures Due(interval, moved, c) == Due(interval, st, c)
  {
    SpanAdds(interval, moved.countNew - st.countNew, c - moved.countNew);
  }

  lemma DueShifts(interval: real, st: Stream, moved: Stream, c: int, shift: real)
    requires moved.timestampOld == Due(interval, st, moved.countNew) + shift
    ensures Due(interval, moved, c) == Due(interval, st, c) + shift
  {
    SpanAdds(interval, moved.countNew - st.countNew, c - moved.countNew);
  }

  // ---------- one reading ----------

  /** The next packet has a larger counter, or both have counter 0. */
  ghost predicate InOrder(st: Stream) {
    st.input != [] && (st.input[0].count > st.countNew || st.input[0].count == st.countNew == 0)
  }

  /** A reading with a reference date, in terms of the lateness of the packet. */
  lemma ReadByLateness(interval: real, st: Stream)
    requires interval > 0.0 && st.timestampOld != 0.0 && InOrder(st)
    ensures var (r, reading) := ReadInput(interval, st);
            var p := st.input[0];
            var lateness := Lateness(interval, st, p);
            var min := if lateness < st.lateMin then lateness else st.lateMin;
            && r.input == st.input[1..] && r.timestamp == p.ts
            && (reading == Malformed <==> lateness < -(interval / 2.0))
            && (reading == TooLate <==> lateness > interval)
            && (reading == Backward <==> -(interval / 2.0) <= lateness <= 0.0)
            && (reading == Forward <==> 0.0 < lateness <= interval && st.lateCount >= DELAY_BEFORE_RESYNCHRONISATION)
            && (reading in {Usable, Backward, Forward} ==> r.countNew == p.count)
            && (reading == TooLate ==>
                && r.countNew == st.countNew && r.timestampOld == st.timestampOld && r.log.window == st.log.window
                && r.lateCount == st.lateCount && r.lateMin == st.lateMin && r.log.corrected == st.log.corrected)
            && (reading in {Backward, Forward} ==>
                && r.timestampOld == Due(interval, st, p.count) + (if reading == Backward then lateness else min)
                && r.log.window == [] && r.lateCount == 0 && r.lateMin == interval && r.log.corrected)
            && (reading == Usable ==>
                && r.timestampOld == Due(interval, st, p.count) && r.log.window == st.log.window + [p]
                && r.lateCount == st.lateCount + 1 && r.lateMin == min && r.log.corrected == st.log.corrected)
  {
  }

  /** The reference date moves along the line of expected dates: without a new packet the window stays in order. */
  lemma WindowMoves(interval: real, st: Stream, r: Stream)
    requires interval > 0.0 && Clocked(interval, st) && Calibrated(interval, st)
    requires r.timestampOld == Due(interval, st, r.countNew)
    requires r.log.window == st.log.window && r.lateCount == st.lateCount && r.lateMin == st.lateMin
    requires r.log.corrected == st.log.corrected
    ensures Clocked(interval, r) && Calibrated(interval, r)
  {
    forall c
      ensures Due(interval, r, c) == Due(interval, st, c)
    {
      DueMoves(interval, st, r, c);
    }
    hide Due;
    if st.log.corrected && st.log.window != [] {
      var i :| 0 <= i < |st.log.window| && Lateness(interval, st, st.log.window[i]) == st.lateMin;
      assert Lateness(interval, r, r.log.window[i]) == r.lateMin;
    }
  }

  /** And with one more late packet. */
  lemma WindowGrows(interval: real, st: Stream, r: Stream, p: Packet)
    requires interval > 0.0 && Clocked(interval, st) && Calibrated(interval, st)
    requires 0.0 < Lateness(interval, st, p) <= interval && st.lateCount < DELAY_BEFORE_RESYNCHRONISATION
    requires r.timestampOld == Due(interval, st, r.countNew)
    requires r.log.window == st.log.window + [p] && r.lateCount == st.lateCount + 1
    requires r.lateMin == if Lateness(interval, st, p) < st.lateMin then Lateness(interval, st, p) else st.lateMin
    requires r.log.corrected == st.log.corrected
    ensures Clocked(interval, r) && Calibrated(interval, r)
  {
    forall c
      ensures Due(interval, r, c) == Due(interval, st, c)
    {
      DueMoves(interval, st, r, c);
    }
    hide Due;
    MinimumIsAttained(interval, st, p);
    var all := st.log.window + [p];
    if st.log.corrected {
      var i :| 0 <= i < |all| && Lateness(interval, st, all[i]) == r.lateMin;
      assert Lateness(interval, r, r.log.window[i]) == r.lateMin;
    }
  }

  /** With one more late packet the minimum is again that of the window, once it is calibrated. */
  lemma MinimumIsAttained(interval: real, st: Stream, p: Packet)
    requires Clocked(interval, st) && Calibrated(interval, st) && 0.0 < Lateness(interval, st, p) <= interval
    ensures var lateness := Lateness(interval, st, p);
            var min := if lateness < st.lateMin then lateness else st.lateMin;
            if st.log.corrected then Attained(interval, st, st.log.window + [p], min) else min == 0.0
  {
    hide Lateness;
    var all := st.log.window + [p];
    if st.log.corrected {
      if st.log.window == [] || Lateness(interval, st, p) < st.lateMin {
        assert Lateness(interval, st, all[|all| - 1]) == Lateness(interval, st, p);
      } else {
        var i :| 0 <= i < |st.log.window| && Lateness(interval, st, st.log.window[i]) == st.lateMin;
        assert Lateness(interval, st, all[i]) == st.lateMin;
      }
    }
  }

  /** Each reading costs at most half a slot of the reference date. */
  lemma ReadDates(interval: real, st: Stream, start: int)
    requires interval > 0.0 && OnTime(interval, st, start)
    requires !ReadInput(interval, st).0.log.fell
    ensures var (r, reading) := ReadInput(interval, st);
            reading in {TooLate, Usable, Backward, Forward} ==> Dated(interval, r, start)
  {
    DatedIsPositive(interval, st, start);
    ReadKeeps(interval, st);
    if InOrder(st) {
      ReadByLateness(interval, st);
      LeastIsNotNegative(interval, st);
    } else if st.input != [] {
      ReadsNoFall(interval, st);
    }
    hide ReadInput;
    var (r, reading) := ReadInput(interval, st);
    if reading in {TooLate, Usable, Backward, Forward} {
      assert Span(interval, 0) == 0.0;
      MovesLittle(interval, st, r, start);
    }
  }

  /** A reference date that is corrected downwards by at most half a slot stays late enough for the packets to come. */
  lemma MovesLittle(interval: real, st: Stream, r: Stream, start: int)
    requires interval > 0.0 && Dated(interval, st, start)
    requires st.input != [] && r.input == st.input[1..] && r.countNew >= st.countNew
    requires r.timestampOld >= Due(interval, st, r.countNew) - interval / 2.0
    ensures Dated(interval, r, start)
  {
    SpanIsPositive(interval, |st.input|);
    DueShifts(interval, st, r, start, r.timestampOld - Due(interval, st, r.countNew));
    hide Due;
  }

  /** A packet out of order is not accepted, unless the counter falls back. */
  lemma ReadsNoFall(interval: real, st: Stream)
    requires st.input != [] && !InOrder(st)
    ensures var (r, reading) := ReadInput(interval, st);
            && (reading in {Usable, Backward, Forward} ==> r.log.fell)
            && (reading == TooLate ==> r.input == st.input[1..] && r.countNew == st.countNew
                                       && r.timestampOld == st.timestampOld)
  {
  }

  lemma LeastIsNotNegative(interval: real, st: Stream)
    requires interval > 0.0 && Clocked(interval, st) && Calibrated(interval, st)
    ensures 0.0 <= st.lateMin <= interval && (st.lateMin == 0.0 <==> !st.log.corrected)
  {
  }

  /** Reading keeps the clock of a stream, and an accepted packet lies in its slot. */
  lemma ReadClocks(interval: real, st: Stream, start: int)
    requires interval > 0.0 && OnTime(interval, st, start)
    requires !ReadInput(interval, st).0.log.fell
    ensures var (r, reading) := ReadInput(interval, st);
            && (reading in {TooLate, Usable, Backward, Forward} ==> OnTime(interval, r, start))
            && (reading in {Usable, Backward, Forward} ==> InSlot(interval, r))
  {
    ReadDates(interval, st, start);
    DatedIsPositive(interval, st, start);
    ReadKeeps(interval, st);
    LeastIsNotNegative(interval, st);
    if InOrder(st) {
      ReadByLateness(interval, st);
      var (r, reading) := ReadInput(interval, st);
      hide ReadInput;
      if reading == TooLate {
        assert Span(interval, 0) == 0.0;
        WindowMoves(interval, st, r);
      } else if reading == Usable {
        WindowGrows(interval, st, r, st.input[0]);
      }
    }
  }

  /** How much later a forward resynchronisation on the next packet makes all expected dates. */
  ghost function Shift(interval: real, st: Stream): real
    requires st.input != []
  {
    var lateness := Lateness(interval, st, st.input[0]);
    if lateness < st.lateMin then lateness else st.lateMin
  }

  /** The smallest lateness of these packets. */
  ghost predicate Smallest(interval: real, st: Stream, window: seq<Packet>, lateness: real) {
    && Attained(interval, st, window, lateness)
    && forall i :: 0 <= i < |window| ==> lateness <= Lateness(interval, st, window[i])
  }

  /**
    A forward resynchronisation moves every expected date later by the same time, after which no packet of the
    window, including the one just read, is early.  The time is the smallest lateness of the window exactly if
    the stream was resynchronised before; otherwise nothing moves, although every packet of the window is late.
  */
  lemma ForwardLeavesNoneEarly(interval: real, st: Stream)
    requires interval > 0.0 && Clocked(interval, st) && Calibrated(interval, st) && st.timestampOld != 0.0
    requires !ReadInput(interval, st).0.log.fell && ReadInput(interval, st).1 == Forward
    ensures var r := ReadInput(interval, st).0;
            var window := st.log.window + [st.input[0]];
            && |window| == DELAY_BEFORE_RESYNCHRONISATION + 1
            && (forall c :: Due(interval, r, c) == Due(interval, st, c) + Shift(interval, st))
            && (forall i :: 0 <= i < |window| ==> 0.0 <= Lateness(interval, r, window[i]) <= interval)
            && (Smallest(interval, st, window, Shift(interval, st)) <==> st.log.corrected)
            && (!st.log.corrected ==> Shift(interval, st) == 0.0)
  {
    ReadKeeps(interval, st);
    ReadByLateness(interval, st);
    LeastIsNotNegative(interval, st);
    MinimumIsAttained(interval, st, st.input[0]);
    var r := ReadInput(interval, st).0;
    hide ReadInput;
    forall c
      ensures Due(interval, r, c) == Due(interval, st, c) + Shift(interval, st)
    {
      DueShifts(interval, st, r, c, Shift(interval, st));
    }
    hide Due;
  }

  /** n readings of one stream. */
  ghost function Readings(interval: real, st: Stream, n: nat): Stream {
    if n == 0 then st else ReadInput(interval, Readings(interval, st, n - 1)).0
  }

  /** n packets with the counters 1 to n, each half a slot late for the slot duration 1. */
  ghost function HalfLate(n: nat): seq<Packet> { seq(n, (i: nat) => Packet(i + 1, (i + 1) as real + 10.5, 0)) }

  /** A stream that was just synchronised at date 10 and counter 0, in memory that was zeroed before. */
  ghost function LateStream(n: nat): Stream {
    Fresh(HalfLate(n)).(timestamp := 10.0, timestampOld := 10.0)
  }

  lemma {:induction false} HalfLateReadings(total: nat, n: nat)
    requires n <= total && n <= DELAY_BEFORE_RESYNCHRONISATION
    ensures var r := Readings(1.0, LateStream(total), n);
            && r.input == HalfLate(total)[n..] && r.countNew == n && r.timestampOld == 10.0 + n as real
            && r.lateCount == n && r.lateMin == 0.0
  {
    if n > 0 {
      HalfLateReadings(total, n - 1);
      var st := Readings(1.0, LateStream(total), n - 1);
      assert st.input[0] == Packet(n, n as real + 10.5, 0);
      assert st.input[1..] == HalfLate(total)[n..];
    }
  }

  /**
    The exception is real: when one packet more than the delay, all half a slot late, make a stream be
    resynchronised forward, the next packet is expected on the same date as before.
  */
  lemma ForwardCanMoveNothing(delay: nat)
    requires delay == DELAY_BEFORE_RESYNCHRONISATION
    ensures var st := Readings(1.0, LateStream(delay + 1), delay);
            && st.input != [] && Lateness(1.0, st, st.input[0]) == 0.5
            && ReadInput(1.0, st).1 == Forward
            && forall c :: Due(1.0, ReadInput(1.0, st).0, c) == Due(1.0, st, c)
  {
    HalfLateReadings(delay + 1, delay);
    var st := Readings(1.0, LateStream(delay + 1), delay);
    hide Readings, LateStream;
    assert st.input[0] == HalfLate(delay + 1)[delay];
    var r := ReadInput(1.0, st).0;
    assert r.timestampOld == Due(1.0, st, r.countNew);
    hide ReadInput;
    forall c
      ensures Due(1.0, r, c) == Due(1.0, st, c)
    {
      DueMoves(1.0, st, r, c);
    }
  }

  /** Without a reference date every packet with a larger counter is accepted, and lies in its slot only by chance. */
  lemma UndatedReading(interval: real, st: Stream)
    requires st.input != [] && st.timestampOld == 0.0 && st.input[0].count > st.countNew
    ensures var (r, reading) := ReadInput(interval, st);
            && reading == Usable && r.timestampOld == 0.0
            && (InSlot(interval, r) <==> 0.0 <= st.input[0].ts <= interval)
  {
  }

  // ---------- removing slots ----------

  /** How far stream p's reference date is ahead of the one that the other stream's clock gives it. */
  ghost function Lead(interval: real, sys: Pair, p: nat): real
    requires p < 2
  {
    sys.streams[p].timestampOld - OtherClock(interval, sys.streams, sys.diff, p)
  }

  /**
    A removed slot moves the two clocks by one slot relative to each other, in the direction that brings them
    closer: a stream whose clock was behind loses a slot itself, one that was ahead makes the other one lose it.
  */
  lemma RemovalNarrows(interval: real, sys: Pair, p: nat, reading: Reading)
    requires interval > 0.0 && p < 2 && Judge(interval, sys.streams, sys.diff, p, reading).Remove?
    ensures var q := Judge(interval, sys.streams, sys.diff, p, reading).stream;
            var before, after := Lead(interval, sys, p), Lead(interval, RemoveSlot(sys, q), p);
            && (q == p <==> before < 0.0)
            && after == before + (if q == p then interval else -interval)
            && Abs(after) < Abs(before)
  {
    var q := Judge(interval, sys.streams, sys.diff, p, reading).stream;
    var r := RemoveSlot(sys, q);
    assert r.streams[p].countNew == sys.streams[p].countNew && r.streams[1 - p].countNew == sys.streams[1 - p].countNew;
    var n := sys.streams[p].countNew - sys.streams[1 - p].countNew - Sign(p) * sys.diff;
    SpanAdds(interval, n, -1);
    SpanAdds(interval, n, 1);
    assert Span(interval, 1) == interval && Span(interval, -1) == -interval;
  }

  // ---------- over whole runs ----------

  /** Stream p is about to be read; the other one's last packet was accepted. */
  ghost predicate ClockReady(interval: real, sys: Pair, p: nat, start0: int, start1: int)
    requires p < 2
  {
    && OnTime(interval, sys.streams[0], start0) && OnTime(interval, sys.streams[1], start1)
    && InSlot(interval, sys.streams[1 - p])
  }

  ghost predicate AllTimed(interval: real, sys: Pair, start0: int, start1: int) {
    ClockReady(interval, sys, 0, start0, start1) && ClockReady(interval, sys, 1, start0, start1)
  }

  /** Changing positions, resynchronisation counts or signals does not concern the clock. */
  ghost predicate SameClock(a: Stream, b: Stream) {
    && b.input == a.input && b.countNew == a.countNew && b.timestamp == a.timestamp && b.timestampOld == a.timestampOld
    && b.lateCount == a.lateCount && b.lateMin == a.lateMin
    && b.log.window == a.log.window && b.log.corrected == a.log.corrected
  }

  lemma SameClockKeeps(interval: real, a: Stream, b: Stream, start: int)
    requires interval > 0.0 && SameClock(a, b)
    ensures OnTime(interval, a, start) ==> OnTime(interval, b, start)
    ensures InSlot(interval, a) ==> InSlot(interval, b)
  {
    if OnTime(interval, a, start) {
      assert Span(interval, 0) == 0.0;
      WindowMoves(interval, a, b);
      DueMoves(interval, a, b, start);
    }
  }

  ghost predicate SameClocks(a: Pair, b: Pair) {
    SameClock(a.streams[0], b.streams[0]) && SameClock(a.streams[1], b.streams[1])
  }

  lemma SameClocksKeep(interval: real, a: Pair, b: Pair, p: nat, start0: int, start1: int)
    requires interval > 0.0 && p < 2 && SameClocks(a, b) && ClockReady(interval, a, p, start0, start1)
    ensures ClockReady(interval, b, p, start0, start1)
  {
    hide OnTime, InSlot, SameClock;
    SameClockKeeps(interval, a.streams[0], b.streams[0], start0);
    SameClockKeeps(interval, a.streams[1], b.streams[1], start1);
  }

  lemma RemovalKeepsClocks(sys: Pair, v: Verdict)
    requires v.Remove? ==> v.stream < 2
    ensures SameClocks(sys, Resynchronise(sys, v).sys)
  {
  }

  lemma TurnClocks(interval: real, sys: Pair, p: nat, start0: int, start1: int)
    requires interval > 0.0 && p < 2 && ClockReady(interval, sys, p, start0, start1)
    requires Unfallen(TakeTurn(interval, sys, p).sys)
    ensures var t := TakeTurn(interval, sys, p);
            && (t.Again? ==> ClockReady(interval, t.sys, t.stream, start0, start1))
            && (t.Stop? && t.outcome == Continue ==> AllTimed(interval, t.sys, start0, start1))
  {
    hide ReadInput, OnTime, InSlot, Judge, SameClocks;
    var (st, reading) := ReadInput(interval, sys.streams[p]);
    ReadClocks(interval, sys.streams[p], if p == 0 then start0 else start1);
    var read: Pair := sys.(streams := sys.streams[p := st]);
    if reading == Backward || reading == Forward {
      var v := Judge(interval, read.streams, read.diff, p, reading);
      RemovalKeepsClocks(read, v);
      SameClocksKeep(interval, read, Resynchronise(read, v).sys, 0, start0, start1);
      SameClocksKeep(interval, read, Resynchronise(read, v).sys, 1, start0, start1);
    }
  }

  lemma {:induction false} NextClocks(interval: real, sys: Pair, p: nat, start0: int, start1: int)
    requires interval > 0.0 && p < 2 && ClockReady(interval, sys, p, start0, start1)
    ensures var (r, o) := NextInput(interval, sys, p);
            Unfallen(r) && o == Continue ==> AllTimed(interval, r, start0, start1)
    decreases Left(sys)
  {
    hide ClockReady, Resynchronise, ReadInput, Unfallen;
    var t := TakeTurn(interval, sys, p);
    if Unfallen(NextInput(interval, sys, p).0) {
      if t.Again? {
        NextRemembers(interval, t.sys, t.stream);
        TurnClocks(interval, sys, p, start0, start1);
        NextClocks(interval, t.sys, t.stream, start0, start1);
      } else {
        TurnClocks(interval, sys, p, start0, start1);
      }
    }
  }

  /** Dropping a pending packet moves the reference back along the line of expected dates. */
  lemma UndoClocks(interval: real, sys: Pair, p: nat, start0: int, start1: int)
    requires interval > 0.0 && p < 2 && AllTimed(interval, sys, start0, start1)
    requires sys.streams[p].countOld >= if p == 0 then start0 else start1
    ensures ClockReady(interval, Undo(interval, sys, p), p, start0, start1)
  {
    var st, r := sys.streams[p], Undo(interval, sys, p).streams[p];
    SpanAdds(interval, r.countNew - st.countNew, Age(sys, p));
    assert Span(interval, 0) == 0.0;
    WindowMoves(interval, st, r);
    DueMoves(interval, st, r, if p == 0 then start0 else start1);
    hide Clocked, Calibrated, InSlot;
  }

  lemma AdvanceClocks(interval: real, sys: Pair, start0: int, start1: int)
    requires interval > 0.0 && AllTimed(interval, sys, start0, start1)
    ensures var (r, o) := AdvanceBoth(interval, sys);
            Unfallen(r) && o == Continue ==> AllTimed(interval, r, start0, start1)
  {
    hide NextInput, ClockReady;
    NextClocks(interval, sys, 0, start0, start1);
    var (a, oa) := NextInput(interval, sys, 0);
    var (b, ob) := NextInput(interval, a, 1);
    NextRemembers(interval, a, 1);
    NextRemembers(interval, b, 1);
    if oa == Continue && Unfallen(a) {
      NextClocks(interval, a, 1, start0, start1);
      CatchUpClocks(interval, a, start0, start1);
      if ob == Continue && Unfallen(b) {
        NextClocks(interval, b, 1, start0, start1);
        CatchUpClocks(interval, b, start0, start1);
      }
    }
  }

  lemma CatchUpClocks(interval: real, sys: Pair, start0: int, start1: int)
    requires interval > 0.0 && AllTimed(interval, sys, start0, start1)
    ensures AllTimed(interval, CatchUp(sys), start0, start1)
  {
    hide ClockReady;
    SameClocksKeep(interval, sys, CatchUp(sys), 0, start0, start1);
    SameClocksKeep(interval, sys, CatchUp(sys), 1, start0, start1);
  }

  lemma EmittersKeepClocks(interval: real, sys: Pair, start0: int, start1: int)
    requires interval > 0.0 && AllTimed(interval, sys, start0, start1)
    ensures AllTimed(interval, EmitBoth(sys), start0, start1)
    ensures ClockReady(interval, EmitFirst(sys), 0, start0, start1)
    ensures ClockReady(interval, EmitSecond(sys), 1, start0, start1)
  {
    hide ClockReady;
    SameClocksKeep(interval, sys, EmitBoth(sys), 0, start0, start1);
    SameClocksKeep(interval, sys, EmitBoth(sys), 1, start0, start1);
    SameClocksKeep(interval, sys, EmitFirst(sys), 0, start0, start1);
    SameClocksKeep(interval, sys, EmitSecond(sys), 1, start0, start1);
  }

  lemma StepClocks(interval: real, sys: Pair, start0: int, start1: int)
    requires interval > 0.0 && sys.streams[0].countOld >= start0 && sys.streams[1].countOld >= start1
    requires AllTimed(interval, sys, start0, start1)
    ensures var (r, o) := FirstPass(interval, sys);
            Unfallen(r) && o == Continue ==> AllTimed(interval, r, start0, start1)
  {
    hide Unfallen, ClockReady, NextInput, AdvanceBoth, OutOfStep, Undo, EmitBoth, EmitFirst, EmitSecond;
    EmittersKeepClocks(interval, sys, start0, start1);
    if Age(sys, 0) == Age(sys, 1) {
      UndoClocks(interval, sys, 0, start0, start1);
      UndoClocks(interval, sys, 1, start0, start1);
      NextClocks(interval, Undo(interval, sys, 0), 0, start0, start1);
      NextClocks(interval, Undo(interval, sys, 1), 1, start0, start1);
      AdvanceClocks(interval, EmitBoth(sys), start0, start1);
    } else {
      NextClocks(interval, EmitFirst(sys), 0, start0, start1);
      NextClocks(interval, EmitSecond(sys), 1, start0, start1);
    }
  }

  // ---------- slots and exits, in all runs ----------

  /** The last packet lies in its slot, unless there is no reference date. */
  ghost predicate Guarded(interval: real, st: Stream) {
    st.lateMin >= 0.0 && (InSlot(interval, st) || st.timestampOld == 0.0)
  }

  /** Stream p is about to be read. */
  ghost predicate GuardedBut(interval: real, sys: Pair, p: nat)
    requires p < 2
  {
    sys.streams[p].lateMin >= 0.0 && Guarded(interval, sys.streams[1 - p])
  }

  ghost predicate AllGuarded(interval: real, sys: Pair) {
    Guarded(interval, sys.streams[0]) && Guarded(interval, sys.streams[1])
  }

  /** Whatever the counters and dates are: only the check for a missing reference date lets a packet out of its slot. */
  lemma ReadGuards(interval: real, st: Stream)
    requires interval > 0.0 && st.lateMin >= 0.0
    ensures var (r, reading) := ReadInput(interval, st);
            && r.lateMin >= 0.0
            && (reading in {Usable, Backward, Forward} ==> Guarded(interval, r))
  {
  }

  lemma SameClocksGuard(interval: real, a: Pair, b: Pair)
    requires SameClocks(a, b) && AllGuarded(interval, a)
    ensures AllGuarded(interval, b)
  {
  }

  lemma TurnGuards(interval: real, sys: Pair, p: nat)
    requires interval > 0.0 && p < 2 && GuardedBut(interval, sys, p)
    ensures var t := TakeTurn(interval, sys, p);
            && (t.Again? ==> GuardedBut(interval, t.sys, t.stream))
            && (t.Stop? && t.outcome == Continue ==> AllGuarded(interval, t.sys))
            && (t.Stop? && t.outcome.Exit? ==> t.outcome == Exit(-3))
  {
    hide ReadInput, InSlot, Judge, SameClocks;
    ReadGuards(interval, sys.streams[p]);
    var (st, reading) := ReadInput(interval, sys.streams[p]);
    var read: Pair := sys.(streams := sys.streams[p := st]);
    if reading == Backward || reading == Forward {
      var v := Judge(interval, read.streams, read.diff, p, reading);
      RemovalKeepsClocks(read, v);
      SameClocksGuard(interval, read, Resynchronise(read, v).sys);
    }
  }

  lemma {:induction false} NextGuards(interval: real, sys: Pair, p: nat)
    requires interval > 0.0 && p < 2 && GuardedBut(interval, sys, p)
    ensures var (r, o) := NextInput(interval, sys, p);
            && (o == Continue ==> AllGuarded(interval, r))
            && (o.Exit? ==> o == Exit(-3))
    decreases Left(sys)
  {
    hide GuardedBut, AllGuarded, Resynchronise, ReadInput;
    TurnGuards(interval, sys, p);
    var t := TakeTurn(interval, sys, p);
    if t.Again? {
      NextGuards(interval, t.sys, t.stream);
    }
  }

  lemma AdvanceGuards(interval: real, sys: Pair)
    requires interval > 0.0 && AllGuarded(interval, sys)
    ensures var (r, o) := AdvanceBoth(interval, sys);
            && (o == Continue ==> AllGuarded(interval, r))
            && (o.Exit? ==> o == Exit(-3))
  {
    hide NextInput, InSlot;
    NextGuards(interval, sys, 0);
    var (a, oa) := NextInput(interval, sys, 0);
    if oa == Continue {
      NextGuards(interval, a, 1);
      SameClocksGuard(interval, a, CatchUp(a));
      var (b, ob) := NextInput(interval, a, 1);
      if ob == Continue {
        NextGuards(interval, b, 1);
        SameClocksGuard(interval, b, CatchUp(b));
      }
    }
  }

  lemma EmittersGuard(interval: real, sys: Pair)
    requires AllGuarded(interval, sys)
    ensures AllGuarded(interval, EmitBoth(sys))
    ensures GuardedBut(interval, EmitFirst(sys), 0) && GuardedBut(interval, EmitSecond(sys), 1)
    ensures GuardedBut(interval, Undo(interval, sys, 0), 0) && GuardedBut(interval, Undo(interval, sys, 1), 1)
  {
  }

  /** A stream without a reference date whose last packet is not in the slot that starts at date 0. */
  ghost predicate Undated(interval: real, st: Stream) {
    st.timestampOld == 0.0 && !(0.0 <= st.timestamp <= interval)
  }

  ghost predicate SomeUndated(interval: real, sys: Pair) {
    Undated(interval, sys.streams[0]) || Undated(interval, sys.streams[1])
  }

  /**
    Two packets of a common slot that are more than a slot apart are never both in step with the other stream
    while they lie in their slots: the program gives up only on a stream without a reference date.
  */
  lemma StepGuards(interval: real, sys: Pair)
    requires interval > 0.0 && AllGuarded(interval, sys)
    ensures var (r, o) := FirstPass(interval, sys);
            && (o == Continue ==> AllGuarded(interval, r))
            && (o.Exit? ==> o == Exit(-3) || (o == Exit(4) && r == sys && SomeUndated(interval, sys)))
  {
    EmittersGuard(interval, sys);
    if Abs(sys.streams[0].timestamp - sys.streams[1].timestamp) > interval {
      ApartIsUndated(interval, sys);
    }
    hide NextInput, AdvanceBoth, Undo, EmitBoth, EmitFirst, EmitSecond, OutOfStep, AllGuarded, GuardedBut, SomeUndated;
    if Age(sys, 0) == Age(sys, 1) {
      NextGuards(interval, Undo(interval, sys, 0), 0);
      NextGuards(interval, Undo(interval, sys, 1), 1);
      AdvanceGuards(interval, EmitBoth(sys));
    } else {
      NextGuards(interval, EmitFirst(sys), 0);
      NextGuards(interval, EmitSecond(sys), 1);
    }
  }

  lemma ApartIsUndated(interval: real, sys: Pair)
    requires interval > 0.0 && AllGuarded(interval, sys)
    requires Abs(sys.streams[0].timestamp - sys.streams[1].timestamp) > interval
    ensures OutOfStep(interval, sys, 0) || OutOfStep(interval, sys, 1)
            || SomeUndated(interval, sys)
  {
  }

  lemma {:induction false} RunGuards(interval: real, sys: Pair, n: nat)
    requires interval > 0.0 && AllGuarded(interval, sys)
    ensures var (r, o) := RunPasses(interval, sys, n);
            && (o == Continue ==> AllGuarded(interval, r))
            && (o.Exit? ==> o == Exit(-3) || (o == Exit(4) && SomeUndated(interval, r)))
  {
    hide FirstPass, AllGuarded, SomeUndated;
    if n > 0 {
      RunGuards(interval, sys, n - 1);
      var (s, o) := RunPasses(interval, sys, n - 1);
      if o == Continue {
        StepGuards(interval, s);
      }
    }
  }
}
