/** Where the two captures are synchronised. */
module MergeSync {
  import opened StreamMerge
  import opened MergeRuns

  /** Two packets are at most half a slot apart. */
  ghost predicate Close(interval: real, a: Packet, b: Packet) {
    -0.5 * interval <= a.ts - b.ts <= 0.5 * interval
  }

  ghost predicate NoPartner(interval: real, a: Packet, others: seq<Packet>) {
    forall j :: 0 <= j < |others| ==> !Close(interval, a, others[j])
  }

  /** None of the first n packets has one of the other capture close to it. */
  ghost predicate NonePassed(interval: real, input: seq<Packet>, n: nat, others: seq<Packet>)
    requires n <= |input|
  {
    forall i :: 0 <= i < n ==> NoPartner(interval, input[i], others)
  }

  /** The dates of a capture do not decrease. */
  ghost predicate InDateOrder(input: seq<Packet>) {
    forall i, j :: 0 <= i < j < |input| ==> input[i].ts <= input[j].ts
  }

  /** Some counter is neither larger than the one before nor 0. */
  ghost predicate Disordered(input: seq<Packet>) {
    exists i :: 1 <= i < |input| && Refused(input, i)
  }

  ghost predicate Refused(input: seq<Packet>, i: nat)
    requires 1 <= i < |input|
  {
    input[i].count != 0 && input[i].count <= input[i - 1].count
  }

  /** Before synchronisation, stream st was read up to packet i. */
  ghost predicate ReadTo(st: Stream, input: seq<Packet>, i: nat) {
    && Untimed(st) && i < |input| && st.input == input[i + 1..]
    && st.timestamp == input[i].ts && st.countNew == input[i].count
  }

  /** Before synchronisation, one more packet is read, unless the capture is at its end or its counter is refused. */
  lemma AloneReadsNext(interval: real, st: Stream, input: seq<Packet>, i: nat)
    requires ReadTo(st, input, i)
    ensures var (r, o) := NextAlone(interval, st);
            if i + 1 == |input| then o == EndOfInput
            else if Refused(input, i + 1) then o == Exit(-3)
            else o == Continue && ReadTo(r, input, i + 1)
  {
  }

  lemma AloneReadsFirst(interval: real, input: seq<Packet>)
    ensures var (r, o) := NextAlone(interval, Fresh(input));
            if input == [] then o == EndOfInput else o == Continue && ReadTo(r, input, 0)
  {
  }

  /** Both streams stand at packets i and j, which are close and become the synchronised ones. */
  ghost predicate MeetsAt(interval: real, r: Pair, input0: seq<Packet>, input1: seq<Packet>, i: nat, j: nat) {
    && i < |input0| && j < |input1| && Close(interval, input0[i], input1[j])
    && StartsAt(r.streams[0], input0, i) && StartsAt(r.streams[1], input1, j)
    && r.diff == input0[i].count - input1[j].count
  }

  ghost predicate StartsAt(st: Stream, input: seq<Packet>, i: nat)
    requires i < |input|
  {
    st.input == input[i + 1..] && st.countOld == st.countNew == input[i].count && st.timestampOld == input[i].ts
  }

  /** And these are the first ones of each capture that are close to any packet of the other one. */
  ghost predicate MeetsFirst(interval: real, input0: seq<Packet>, input1: seq<Packet>, i: nat, j: nat) {
    && i < |input0| && j < |input1|
    && NonePassed(interval, input0, i, input1) && NonePassed(interval, input1, j, input0)
  }

  ghost predicate Met(interval: real, r: (Pair, Outcome), input0: seq<Packet>, input1: seq<Packet>) {
    var ordered := InDateOrder(input0) && InDateOrder(input1);
    && r.1 in {Continue, Exit(-3), Exit(-4)}
    && (r.1 == Continue ==>
        exists i: nat, j: nat ::
          MeetsAt(interval, r.0, input0, input1, i, j) && (ordered ==> MeetsFirst(interval, input0, input1, i, j)))
    && (r.1 == Exit(-4) && ordered ==> NonePassed(interval, input0, |input0|, input1))
    && (r.1 == Exit(-3) ==> Disordered(input0) || Disordered(input1))
  }

  lemma PassedIsMutual(interval: real, a: seq<Packet>, b: seq<Packet>)
    requires NonePassed(interval, a, |a|, b)
    ensures NonePassed(interval, b, |b|, a)
  {
    forall j | 0 <= j < |b|
      ensures NoPartner(interval, b[j], a)
    {
      forall i | 0 <= i < |a|
        ensures !Close(interval, b[j], a[i])
      {
        assert NoPartner(interval, a[i], b);
      }
    }
  }

  /** A packet more than half a slot before one of the other capture is close to none, if none was passed. */
  lemma PassOne(interval: real, a: seq<Packet>, i: nat, b: seq<Packet>, j: nat)
    requires interval > 0.0 && i < |a| && j < |b| && a[i].ts < b[j].ts - 0.5 * interval && InDateOrder(b)
    requires NonePassed(interval, a, i, b) && NonePassed(interval, b, j, a)
    ensures NonePassed(interval, a, i + 1, b)
  {
    forall j' | 0 <= j' < |b|
      ensures !Close(interval, a[i], b[j'])
    {
      if j' < j {
        assert NoPartner(interval, b[j'], a);
        assert !Close(interval, b[j'], a[i]);
      }
    }
  }

  lemma {:induction false} AlignMeets(interval: real, s0: Stream, s1: Stream, input0: seq<Packet>, input1: seq<Packet>,
                                      i: nat, j: nat)
    requires interval > 0.0 && ReadTo(s0, input0, i) && ReadTo(s1, input1, j)
    requires InDateOrder(input0) && InDateOrder(input1) ==> MeetsFirst(interval, input0, input1, i, j)
    ensures Met(interval, Align(interval, s0, s1), input0, input1)
    decreases |s0.input| + |s1.input|
  {
    hide NextAlone, InDateOrder, NonePassed, Untimed;
    var ts := s0.timestamp - s1.timestamp;
    AloneReadsNext(interval, s0, input0, i);
    AloneReadsNext(interval, s1, input1, j);
    var (t0, o0) := NextAlone(interval, s0);
    var (t1, o1) := NextAlone(interval, s1);
    var ordered := InDateOrder(input0) && InDateOrder(input1);
    if ts > interval / 2.0 {
      if ordered {
        PassOne(interval, input1, j, input0, i);
      }
      if o1 == Continue {
        AlignMeets(interval, s0, t1, input0, input1, i, j + 1);
      } else if ordered && j + 1 == |input1| {
        PassedIsMutual(interval, input1, input0);
      }
    } else if ts < -(interval / 2.0) {
      if ordered {
        PassOne(interval, input0, i, input1, j);
      }
      if o0 == Continue {
        AlignMeets(interval, t0, s1, input0, input1, i + 1, j);
      }
    } else {
      assert MeetsAt(interval, Align(interval, s0, s1).0, input0, input1, i, j);
    }
  }

  /**
    Synchronisation of any two captures.  When it succeeds, it does so at two packets whose dates are at most half a
    slot apart.  When the dates of both captures do not decrease, these are the first packets of each capture that are
    close to any packet of the other one, and the end of a capture is reached only if there are no close packets.  A
    malformed capture is one with a counter that is not larger than the one before, and not 0.
  */
  lemma SynchronizeMeets(interval: real, input0: seq<Packet>, input1: seq<Packet>)
    requires interval > 0.0
    ensures Met(interval, Synchronize(interval, input0, input1), input0, input1)
  {
    hide NextAlone, Align;
    AloneReadsFirst(interval, input0);
    AloneReadsFirst(interval, input1);
    var (s0, o0) := NextAlone(interval, Fresh(input0));
    var (s1, o1) := NextAlone(interval, Fresh(input1));
    if o0 == Continue && o1 == Continue {
      AlignMeets(interval, s0, s1, input0, input1, 0, 0);
    }
  }

  /** So captures whose dates and counters are in order are synchronised exactly if there are two close packets. */
  lemma SynchronizesIffClose(interval: real, input0: seq<Packet>, input1: seq<Packet>)
    requires interval > 0.0 && InDateOrder(input0) && InDateOrder(input1) && !Disordered(input0) && !Disordered(input1)
    ensures Synchronize(interval, input0, input1).1 == Continue
       <==> exists i, j :: 0 <= i < |input0| && 0 <= j < |input1| && Close(interval, input0[i], input1[j])
  {
    hide Synchronize, InDateOrder, Disordered;
    SynchronizeMeets(interval, input0, input1);
    if i, j :| 0 <= i < |input0| && 0 <= j < |input1| && Close(interval, input0[i], input1[j]) {
      assert !NoPartner(interval, input0[i], input1);
    }
  }
}
