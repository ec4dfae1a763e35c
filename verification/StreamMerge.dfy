/**
  The two-stream merger of udp-test/extract.c as functions on values: reading one packet,
  reading until a packet is usable, synchronising, and one step of the first pass.

  Counters are unbounded integers except where the C code relies on 64-bit wrap-around (Gap);
  timestamps and the slot duration are exact reals.  What became of each packet, which the C code
  prints in its DEBUG build, is kept in a log, so that runs can be described afterwards.
*/
module StreamMerge {
  const TWO_TO_THE_64: int := 0x1_0000_0000_0000_0000
  const DELAY_BEFORE_RESYNCHRONISATION: nat := 5000
  const NO_SIGNAL: nat := 128

  type Signal = x: int | -128 <= x < 128

  /** One parsed line of a capture file, already restricted to the wanted source address. */
  datatype Packet = Packet(count: nat, ts: real, signal: Signal)

  /** What happened to a stream so far; none of it influences the merge. */
  datatype Log = Log(
    kept: seq<Packet>,      // accepted since synchronisation and not dropped again
    late: seq<Packet>,      // dropped because they came too late for their own stream
    outOfStep: seq<Packet>, // dropped because they were out of step with the other stream
    refused: seq<Packet>,   // the one that ended the program
    removed: seq<nat>,      // length of the emitted trace at each slot removal
    window: seq<Packet>,    // the successively late packets
    corrected: bool,        // the reference date was resynchronised
    restarted: bool,        // a packet with counter 0 was accepted
    fell: bool)             // and that behind a larger counter

  const EMPTY_LOG := Log([], [], [], [], [], [], false, false, false)

  /** struct state; `input` holds the packets that are still to be read. */
  datatype Stream = Stream(
    input: seq<Packet>,
    countNew: int, countOld: int,
    timestamp: real, timestampOld: real,
    signalNew: Signal, signalOld: Signal,
    dropInternal: nat, dropExternal: nat, resync: nat,
    lateCount: nat, lateMin: real,
    log: Log)

  /** The memory of a fresh stream is zeroed. */
  function Fresh(input: seq<Packet>): Stream {
    Stream(input, 0, 0, 0.0, 0.0, 0, 0, 0, 0, 0, 0, 0.0, EMPTY_LOG)
  }

  /** One slot of the joint trace, with the row and column of its signal strengths. */
  datatype Slot = Slot(first: bool, second: bool, row: nat, col: nat) {
    predicate Bit(p: nat) { if p == 0 then first else second }

    function Strength(p: nat): nat { if p == 0 then row else col }

    predicate Lost() { !first && !second }
  }

  const LOST := Slot(false, false, NO_SIGNAL, NO_SIGNAL)

  /** The two streams, the global `sync_count_diff`, and what was written out. */
  datatype System = System(streams: seq<Stream>, diff: int, trace: seq<Slot>, bursts: seq<int>)

  type Pair = s: System | |s.streams| == 2 witness System([Fresh([]), Fresh([])], 0, [], [])

  /** Return value of read_input: -1, exit, 0, 1, 2, 3. */
  datatype Reading = EndOfFile | Malformed | TooLate | Usable | Backward | Forward

  datatype Outcome = Continue | EndOfInput | Exit(code: int) | Abort(line: nat)

  /** Difference of two uint64_t counters. */
  function Gap(newer: int, older: int): int {
    if newer >= older then newer - older else newer - older + TWO_TO_THE_64
  }

  /** Duration of n slots. */
  function Span(interval: real, n: int): real { interval * (n as real) }

  function Byte(s: Signal): nat { if s < 0 then s + 256 else s }

  function Abs(x: real): real { if x < 0.0 then -x else x }

  // ---------- read_input ----------

  function ReadInput(interval: real, st: Stream): (r: (Stream, Reading))
    ensures r.1 == EndOfFile ==> r.0 == st
    ensures r.1 != EndOfFile ==> st.input != [] && r.0.input == st.input[1..]
  {
    if st.input == [] then (st, EndOfFile)
    else
      var p := st.input[0];
      var s := st.(input := st.input[1..],
                   signalOld := st.signalNew, signalNew := p.signal,
                   countOld := st.countNew, countNew := p.count,
                   timestamp := p.ts);
      if s.countNew <= s.countOld && s.countNew != 0 then (Refuse(s, p), Malformed)
      else if s.timestampOld == 0.0 then (Keep(s, p), Usable)
      else
        var expected := s.timestampOld + Span(interval, Gap(s.countNew, s.countOld));
        if expected - p.ts > interval / 2.0 then (Refuse(s, p), Malformed)
        else if p.ts - expected > interval then (DropInternal(s, p), TooLate)
        else if p.ts <= expected then (Correct(interval, Keep(s, p), p.ts), Backward)
        else
          var late := Delay(Keep(s, p), p, p.ts - expected);
          if late.lateCount > DELAY_BEFORE_RESYNCHRONISATION then
            (Correct(interval, late, expected + late.lateMin), Forward)
          else (late.(timestampOld := expected), Usable)
  }

  function Keep(s: Stream, p: Packet): Stream {
    s.(log := s.log.(kept := s.log.kept + [p], restarted := s.log.restarted || p.count == 0,
                     fell := s.log.fell || (p.count == 0 && s.countOld > 0)))
  }

  function Refuse(s: Stream, p: Packet): Stream {
    s.(log := s.log.(refused := s.log.refused + [p]))
  }

  function DropInternal(s: Stream, p: Packet): Stream {
    s.(signalNew := s.signalOld, countNew := s.countOld, dropInternal := s.dropInternal + 1,
       log := s.log.(late := s.log.late + [p]))
  }

  /** A new reference date ends the window of successively late packets. */
  function Correct(interval: real, s: Stream, date: real): Stream {
    s.(timestampOld := date, lateCount := 0, lateMin := interval, log := s.log.(window := [], corrected := true))
  }

  /** One more packet is late, by `lateness`. */
  function Delay(s: Stream, p: Packet, lateness: real): Stream {
    s.(lateCount := s.lateCount + 1, lateMin := if lateness < s.lateMin then lateness else s.lateMin,
       log := s.log.(window := s.log.window + [p]))
  }

  // ---------- next_input ----------

  /** What next_input decides about a resynchronised stream. */
  datatype Verdict = Stay | Remove(stream: nat) | Violated(line: nat)

  function Sign(p: nat): int { if p == 0 then 1 else -1 }

  /** The expected time of stream p's last packet according to the other stream. */
  function OtherClock(interval: real, streams: seq<Stream>, diff: int, p: nat): real
    requires p < 2 == |streams|
  {
    var st, other := streams[p], streams[1 - p];
    other.timestampOld + Span(interval, st.countNew - other.countNew - Sign(p) * diff)
  }

  function Judge(interval: real, streams: seq<Stream>, diff: int, p: nat, reading: Reading): (v: Verdict)
    requires p < 2 == |streams|
    ensures v.Remove? ==> (reading == Backward && v.stream == p) || (reading == Forward && v.stream == 1 - p)
    ensures v.Violated? ==> interval < 0.0
  {
    var st := streams[p];
    var other := OtherClock(interval, streams, diff, p);
    var margin := 1.01 * (interval / 2.0);
    if reading == Backward && st.timestampOld < other - margin then
      if st.timestampOld + interval < other + margin then Remove(p) else Violated(457)
    else if reading == Forward && st.timestampOld > other + margin then
      if st.timestampOld - interval > other - margin then Remove(1 - p) else Violated(479)
    else Stay
  }

  /** Make one slot of stream p disappear. */
  function RemoveSlot(sys: Pair, p: nat): (r: Pair)
    requires p < 2
  {
    sys.(diff := sys.diff + Sign(p), streams := sys.streams[p := LoseSlot(sys.streams[p], |sys.trace|)])
  }

  function LoseSlot(st: Stream, at: nat): Stream {
    var removed := st.(resync := st.resync + 1, log := st.log.(removed := st.log.removed + [at]));
    if Adjacent(st) then removed.(signalNew := st.signalOld) else removed.(countOld := st.countOld + 1)
  }

  /** The slot to remove is the one of the packet that was just read: another one is needed. */
  predicate Adjacent(st: Stream) { st.countOld == st.countNew - 1 }

  function Left(sys: Pair): nat { |sys.streams[0].input| + |sys.streams[1].input| }

  /** One turn of next_input's loop: it returns, or it reads again, possibly from the other stream. */
  datatype Turn = Stop(sys: Pair, outcome: Outcome) | Again(sys: Pair, stream: nat)

  function TakeTurn(interval: real, sys: Pair, p: nat): (t: Turn)
    requires p < 2
    ensures t.Again? ==> t.stream < 2 && Left(t.sys) < Left(sys)
    ensures t.Stop? ==> Left(t.sys) <= Left(sys) && (t.outcome == Continue ==> Left(t.sys) < Left(sys))
  {
    var (st, reading) := ReadInput(interval, sys.streams[p]);
    var read: Pair := sys.(streams := sys.streams[p := st]);
    match reading
    case EndOfFile => Stop(read, EndOfInput)
    case Malformed => Stop(read, Exit(-3))
    case TooLate => Again(read, p)
    case Usable => Stop(read, Continue)
    case _ => Resynchronise(read, Judge(interval, read.streams, read.diff, p, reading))
  }

  function Resynchronise(sys: Pair, v: Verdict): (t: Turn)
    requires v.Remove? ==> v.stream < 2
  {
    match v
    case Stay => Stop(sys, Continue)
    case Violated(line) => Stop(sys, Abort(line))
    case Remove(q) =>
      if Adjacent(sys.streams[q]) then Again(RemoveSlot(sys, q), q) else Stop(RemoveSlot(sys, q), Continue)
  }

  function NextInput(interval: real, sys: Pair, p: nat): (r: (Pair, Outcome))
    requires p < 2
    ensures Left(r.0) <= Left(sys)
    ensures r.1 == Continue ==> Left(r.0) < Left(sys)
    decreases Left(sys)
  {
    match TakeTurn(interval, sys, p)
    case Stop(s, o) => (s, o)
    case Again(s, q) => NextInput(interval, s, q)
  }

  // ---------- synchronize_input ----------

  /** next_input without the other stream, as used before synchronisation. */
  function NextAlone(interval: real, st: Stream): (r: (Stream, Outcome))
    ensures |r.0.input| <= |st.input|
    ensures r.1 == Continue ==> |r.0.input| < |st.input|
    decreases |st.input|
  {
    var (s, reading) := ReadInput(interval, st);
    match reading
    case EndOfFile => (s, EndOfInput)
    case Malformed => (s, Exit(-3))
    case TooLate => NextAlone(interval, s)
    case _ => (s, Continue)
  }

  function Align(interval: real, s0: Stream, s1: Stream): (Pair, Outcome)
    decreases |s0.input| + |s1.input|
  {
    var ts := s0.timestamp - s1.timestamp;
    if ts > interval / 2.0 then
      var (t1, o) := NextAlone(interval, s1);
      if o == Continue then Align(interval, s0, t1) else (System([s0, t1], 0, [], []), AtSync(o))
    else if ts < -(interval / 2.0) then
      var (t0, o) := NextAlone(interval, s0);
      if o == Continue then Align(interval, t0, s1) else (System([t0, s1], 0, [], []), AtSync(o))
    else
      (System([Anchor(s0), Anchor(s1)], s0.countNew - s1.countNew, [], []), Continue)
  }

  /** The end of a file before synchronisation ends the program. */
  function AtSync(o: Outcome): Outcome { if o == EndOfInput then Exit(-4) else o }

  function Anchor(st: Stream): Stream {
    st.(countOld := st.countNew, timestampOld := st.timestamp, log := EMPTY_LOG)
  }

  function Synchronize(interval: real, input0: seq<Packet>, input1: seq<Packet>): (Pair, Outcome) {
    var (s0, o0) := NextAlone(interval, Fresh(input0));
    if o0 != Continue then (System([s0, Fresh(input1)], 0, [], []), AtSync(o0))
    else
      var (s1, o1) := NextAlone(interval, Fresh(input1));
      if o1 != Continue then (System([s0, s1], 0, [], []), AtSync(o1))
      else Align(interval, s0, s1)
  }

  // ---------- first_pass ----------

  /** The n losses that precede the last slot of a batch. */
  function Losses(n: int): seq<Slot> { seq(if n < 0 then 0 else n, _ => LOST) }

  /** A batch of `age` slots: losses on both sides, then `last`; its losses are one joint burst. */
  function EmitBatch(sys: Pair, age: int, last: Slot): Pair {
    sys.(trace := sys.trace + Losses(age - 1) + [last],
         bursts := if Gap(age, 1) > 0 then sys.bursts + [Gap(age, 1)] else sys.bursts)
  }

  /** Age of the pending packet of stream p. */
  function Age(sys: Pair, p: nat): int
    requires p < 2
  {
    sys.streams[p].countNew - sys.streams[p].countOld
  }

  function FirstPass(interval: real, sys: Pair): (Pair, Outcome) {
    if Age(sys, 0) < 0 then (sys, Abort(840))
    else if Age(sys, 1) < 0 then (sys, Abort(842))
    else if sys.streams[0].countOld - sys.streams[1].countOld != sys.diff then (sys, Abort(845))
    else if Age(sys, 0) == Age(sys, 1) then
      if Abs(sys.streams[0].timestamp - sys.streams[1].timestamp) > interval then DropOne(interval, sys)
      else AdvanceBoth(interval, EmitBoth(sys))
    else if Age(sys, 0) < Age(sys, 1) then
      NextInput(interval, EmitFirst(sys), 0)
    else
      NextInput(interval, EmitSecond(sys), 1)
  }

  function EmitBoth(sys: Pair): Pair {
    if Age(sys, 0) == 0 then sys
    else EmitBatch(sys, Age(sys, 0),
                   Slot(true, true, Byte(sys.streams[0].signalNew), Byte(sys.streams[1].signalNew)))
  }

  function EmitFirst(sys: Pair): Pair {
    var s1 := sys.streams[1];
    EmitBatch(sys, Age(sys, 0), Slot(true, false, Byte(sys.streams[0].signalNew), NO_SIGNAL))
      .(streams := sys.streams[1 := s1.(countOld := s1.countOld + Age(sys, 0))])
  }

  function EmitSecond(sys: Pair): Pair {
    var s0 := sys.streams[0];
    EmitBatch(sys, Age(sys, 1), Slot(false, true, NO_SIGNAL, Byte(sys.streams[1].signalNew)))
      .(streams := sys.streams[0 := s0.(countOld := s0.countOld + Age(sys, 1))])
  }

  /** Stream p's packet came too late for the date at which the other stream expected it. */
  predicate OutOfStep(interval: real, sys: Pair, p: nat)
    requires p < 2
  {
    var late, ref := sys.streams[p], sys.streams[1 - p];
    ref.timestampOld - late.timestamp > interval / 2.0 || late.timestamp - ref.timestampOld > interval
  }

  function DropOne(interval: real, sys: Pair): (Pair, Outcome) {
    if OutOfStep(interval, sys, 1) then NextInput(interval, Undo(interval, sys, 1), 1)
    else if OutOfStep(interval, sys, 0) then NextInput(interval, Undo(interval, sys, 0), 0)
    else (sys, Exit(4))
  }

  /** Forget the pending packet of stream p. */
  function Undo(interval: real, sys: Pair, p: nat): Pair
    requires p < 2
  {
    var st := sys.streams[p];
    sys.(streams := sys.streams[p := st.(
      dropExternal := st.dropExternal + 1,
      timestampOld := st.timestampOld - Span(interval, Age(sys, p)),
      signalNew := st.signalOld,
      countNew := st.countOld,
      log := Forget(st.log))])
  }

  /** The packet that was accepted last is dropped again. */
  function Forget(log: Log): Log {
    if log.kept == [] then log
    else
      var last := |log.kept| - 1;
      log.(kept := log.kept[..last], outOfStep := log.outOfStep + [log.kept[last]])
  }

  /** How far stream 1's pending packet is behind the slot that stream 0 has reached. */
  function Behind(sys: Pair): int {
    sys.streams[0].countOld - sys.streams[1].countNew - sys.diff
  }

  /** Set stream 1's position from stream 0's. */
  function CatchUp(sys: Pair): Pair {
    sys.(streams := sys.streams[1 := sys.streams[1].(countOld := sys.streams[0].countOld - sys.diff)])
  }

  /** Read both streams after a slot in which both were pending. */
  function AdvanceBoth(interval: real, sys: Pair): (Pair, Outcome) {
    var (a, oa) := NextInput(interval, sys, 0);
    if oa != Continue then (a, oa)
    else if a.streams[1].countOld == sys.streams[1].countOld then NextInput(interval, a, 1)
    else if Behind(a) < 0 then (CatchUp(a), Continue)
    else if Behind(a) == 0 then NextInput(interval, a, 1)
    else if Behind(a) != 1 then (a, Abort(913))
    else
      var (b, ob) := NextInput(interval, a, 1);
      if ob != Continue then (b, ob)
      else if Behind(b) < 0 then (CatchUp(b), Continue)
      else if Behind(b) != 0 then (b, Abort(919))
      else NextInput(interval, b, 1)
  }

  /** Every step that can be followed by another one reads at least one packet. */
  lemma FirstPassReads(interval: real, sys: Pair)
    ensures FirstPass(interval, sys).1 == Continue ==> Left(FirstPass(interval, sys).0) < Left(sys)
  {
    hide NextInput;
    var both := EmitBoth(sys);
    assert Left(both) == Left(sys) && Left(EmitFirst(sys)) == Left(sys) && Left(EmitSecond(sys)) == Left(sys);
    assert Left(Undo(interval, sys, 0)) == Left(Undo(interval, sys, 1)) == Left(sys);
    hide EmitBoth, EmitFirst, EmitSecond, Undo;
    var (a, oa) := NextInput(interval, both, 0);
    assert Left(CatchUp(a)) == Left(a);
    var (b, ob) := NextInput(interval, a, 1);
    assert Left(CatchUp(b)) == Left(b);
    hide CatchUp, OutOfStep, Behind, Left;
  }

  // ---------- runs ----------

  /** The state after n steps of the first pass, or where it stopped earlier. */
  function RunPasses(interval: real, sys: Pair, n: nat): (Pair, Outcome) {
    if n == 0 then (sys, Continue)
    else
      var (s, o) := RunPasses(interval, sys, n - 1);
      if o == Continue then FirstPass(interval, s) else (s, o)
  }
}
