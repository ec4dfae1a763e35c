/** The circular buffer of past events, the lagged correlation table and the floating mean of udp-test/extract.c. */
module History {
  const BOTH: nat := 3

  /** A slot as two bits: 2 for the first stream, 1 for the second. */
  type Event = e: nat | e < 4

  function Lost(e: Event, stream: nat): nat
    requires stream < 2
  {
    if stream == 0 then (if e < 2 then 1 else 0) else if e % 2 == 0 then 1 else 0
  }

  // ---------- recounts of the whole sequence of events ----------

  /** How many events b, at least `warmup` events into the trace, have the event a at distance lag + 1 before them. */
  function Preceded(events: seq<Event>, warmup: nat, lag: nat, a: nat, b: nat): nat
    requires lag < warmup
  {
    if |events| <= warmup then 0
    else
      var n := |events| - 1;
      Preceded(events[..n], warmup, lag, a, b) + if events[n] == b && events[n - 1 - lag] == a then 1 else 0
  }

  /** Losses of a stream among the latest `length` events. */
  function RecentLosses(events: seq<Event>, length: nat, stream: nat): nat
    requires length <= |events| && stream < 2
  {
    if length == 0 then 0
    else
      var n := |events| - 1;
      RecentLosses(events[..n], length - 1, stream) + Lost(events[n], stream)
  }

  lemma {:induction false} RecentLossesOneMore(events: seq<Event>, length: nat, stream: nat)
    requires length < |events| && stream < 2
    ensures RecentLosses(events, length + 1, stream)
         == RecentLosses(events, length, stream) + Lost(events[|events| - 1 - length], stream)
  {
    if length > 0 {
      RecentLossesOneMore(events[..|events| - 1], length - 1, stream);
    }
  }

  /** It is the number of positions among the latest ones at which the stream lost its packet. */
  lemma {:induction false} RecentLossesIsNumber(events: seq<Event>, length: nat, stream: nat)
    requires length <= |events| && stream < 2
    ensures RecentLosses(events, length, stream)
         == |set i | |events| - length <= i < |events| && Lost(events[i], stream) == 1|
  {
    if length > 0 {
      var n := |events| - 1;
      RecentLossesIsNumber(events[..n], length - 1, stream);
      var before := set i | n - (length - 1) <= i < n && Lost(events[..n][i], stream) == 1;
      assert (set i | |events| - length <= i < |events| && Lost(events[i], stream) == 1)
          == before + if Lost(events[n], stream) == 1 then {n} else {};
    }
  }

  /** The event b at position i has the event a at distance lag + 1 before it. */
  predicate HasBefore(events: seq<Event>, lag: nat, a: nat, b: nat, i: nat)
    requires lag < i < |events|
  {
    events[i - 1 - lag] == a && events[i] == b
  }

  /** And this the number of such positions, behind the first ones. */
  lemma PrecededIsNumber(events: seq<Event>, warmup: nat, lag: nat, a: nat, b: nat)
    requires lag < warmup
    ensures Preceded(events, warmup, lag, a, b) == |set i | warmup <= i < |events| && HasBefore(events, lag, a, b, i)|
  {
    PrecededUpTo(events, warmup, lag, a, b, |events|);
    assert events[..|events|] == events;
  }

  lemma {:induction false} PrecededUpTo(events: seq<Event>, warmup: nat, lag: nat, a: nat, b: nat, n: nat)
    requires lag < warmup && n <= |events|
    ensures Preceded(events[..n], warmup, lag, a, b) == |set i | warmup <= i < n && HasBefore(events, lag, a, b, i)|
  {
    if n > warmup {
      PrecededUpTo(events, warmup, lag, a, b, n - 1);
      PrecededStep(events, warmup, lag, a, b, n);
      hide HasBefore, Preceded;
      var before := set i | warmup <= i < n - 1 && HasBefore(events, lag, a, b, i);
      assert (set i | warmup <= i < n && HasBefore(events, lag, a, b, i))
          == before + if HasBefore(events, lag, a, b, n - 1) then {n - 1} else {};
    }
  }

  lemma PrecededStep(events: seq<Event>, warmup: nat, lag: nat, a: nat, b: nat, n: nat)
    requires lag < warmup < n <= |events|
    ensures Preceded(events[..n], warmup, lag, a, b)
         == Preceded(events[..n - 1], warmup, lag, a, b) + if HasBefore(events, lag, a, b, n - 1) then 1 else 0
  {
    assert events[..n][..n - 1] == events[..n - 1];
  }

  lemma PrecededSnoc(events: seq<Event>, e: Event, warmup: nat, lag: nat, a: nat, b: nat)
    requires lag < warmup
    ensures Preceded(events + [e], warmup, lag, a, b) == Preceded(events, warmup, lag, a, b)
         + if |events| >= warmup && e == b && events[|events| - 1 - lag] == a then 1 else 0
  {
  }

  /** Where the event at distance `lag` + 1 before the next one is stored. */
  function Place(size: nat, current: nat, lag: nat): int {
    if current + 1 + lag < size then current + 1 + lag else current + 1 + lag - size
  }

  class Memory {
    const size: nat
    const buffer: array<Event>
    const correlate: bool
    const correlations: array3<nat>  // lag, earlier event, later event
    const meanLength: nat            // 0 when no floating mean is wanted
    var current: nat
    var looped: bool
    var means: seq<(nat, nat)>       // numerators of the printed loss rates
    ghost var events: seq<Event>

    ghost predicate Valid()
      reads this, buffer, correlations
    {
      Shaped() && Correlated(events)
    }

    ghost predicate Shaped()
      reads this, buffer
    {
      && size >= 1 && buffer.Length == size && current < size && meanLength <= size
      && correlations.Length0 == size && correlations.Length1 == 4 && correlations.Length2 == 3
      && (looped <==> |events| >= size)
      && (!looped ==> current == size - 1 - |events|)
      && Newest()
    }

    /** Read from the current position on, the buffer holds the latest events, newest first. */
    ghost predicate Newest()
      reads this, buffer
      requires buffer.Length == size && current < size
    {
      forall lag :: 0 <= lag < size && lag < |events| ==>
        buffer[Place(size, current, lag)] == events[|events| - 1 - lag]
    }

    constructor (size: nat, correlate: bool, meanLength: nat)
      requires size >= 1 && meanLength <= size
      ensures Valid() && events == [] && means == []
      ensures this.size == size && this.correlate == correlate && this.meanLength == meanLength
      ensures fresh(buffer) && fresh(correlations)
    {
      this.size, this.correlate, this.meanLength := size, correlate, meanLength;
      buffer := new Event[size](_ => 0);
      correlations := new nat[size, 4, 3]((_, _, _) => 0);
      current, looped, means, events := size - 1, false, [], [];
    }

    /** Count the new state against the buffer cells first..end, whose lags start at `lag`. */
    method Correlate(first: nat, end: nat, lag: nat, e: Event)
      requires buffer.Length == size && first <= end <= size && lag + (end - first) <= size && e < BOTH
      requires correlations.Length0 == size && correlations.Length1 == 4 && correlations.Length2 == 3
      modifies correlations
      ensures forall i, a, b :: 0 <= i < size && 0 <= a < 4 && 0 <= b < 3 ==>
        correlations[i, a, b] == old(correlations[i, a, b])
          + if lag <= i < lag + (end - first) && buffer[first + i - lag] == a && b == e then 1 else 0
    {
      var position, histo := first, lag;
      while position < end
        invariant first <= position <= end && histo == lag + (position - first)
        invariant forall i, a, b :: 0 <= i < size && 0 <= a < 4 && 0 <= b < 3 ==>
          correlations[i, a, b] == old(correlations[i, a, b])
            + if lag <= i < histo && buffer[first + i - lag] == a && b == e then 1 else 0
      {
        correlations[histo, buffer[position], e] := correlations[histo, buffer[position], e] + 1;
        histo := histo + 1;
        position := position + 1;
      }
    }

    /** Continue the count of losses over the buffer cells first..end, at most up to the mean's length. */
    method CountLosses(first: nat, end: nat, counted: nat, errors0: nat, errors1: nat)
      returns (counted': nat, errors0': nat, errors1': nat)
      requires Shaped() && looped && first <= end <= size && counted <= meanLength
      requires counted == meanLength || first == end || first == Place(size, current, counted)
      requires first == 0 || end == size
      requires errors0 == RecentLosses(events, counted, 0) && errors1 == RecentLosses(events, counted, 1)
      ensures counted' == if counted + (end - first) < meanLength then counted + (end - first) else meanLength
      ensures errors0' == RecentLosses(events, counted', 0) && errors1' == RecentLosses(events, counted', 1)
    {
      var position := first;
      counted', errors0', errors1' := counted, errors0, errors1;
      while position < end && meanLength - counted' > 0
        invariant first <= position <= end && counted <= counted' <= meanLength
        invariant counted < meanLength ==> counted' == counted + (position - first)
        invariant counted == meanLength ==> counted' == counted
        invariant errors0' == RecentLosses(events, counted', 0) && errors1' == RecentLosses(events, counted', 1)
      {
        RecentLossesOneMore(events, counted', 0);
        RecentLossesOneMore(events, counted', 1);
        assert Place(size, current, counted') == position;
        errors0' := errors0' + Lost(buffer[position], 0);
        errors1' := errors1' + Lost(buffer[position], 1);
        position := position + 1;
        counted' := counted' + 1;
      }
    }

    ghost predicate Correlated(events: seq<Event>)
      reads correlations
      requires correlations.Length0 == size && correlations.Length1 == 4 && correlations.Length2 == 3
    {
      correlate ==> forall lag, a, b :: 0 <= lag < size && 0 <= a < 4 && 0 <= b < 3 ==>
        correlations[lag, a, b] == Preceded(events, size, lag, a, b)
    }

    /** First part of temporal_dependence: the lagged correlations. */
    method RecordCorrelations(e: Event)
      requires Valid()
      modifies correlations
      ensures Correlated(events + [e])
    {
      if correlate && looped && e != BOTH {
        Correlate(current + 1, size, 0, e);
        Correlate(0, current + 1, size - (current + 1), e);
      }
      forall lag, a, b | 0 <= lag < size && 0 <= a < 4 && 0 <= b < 3
        ensures correlate ==> correlations[lag, a, b] == Preceded(events + [e], size, lag, a, b)
      {
        PrecededSnoc(events, e, size, lag, a, b);
        if looped {
          assert buffer[Place(size, current, lag)] == events[|events| - 1 - lag];
        }
      }
    }

    /** Second part: the numerators of the floating means. */
    method RecordMean()
      requires Shaped()
      modifies `means
      ensures means == old(means) + if meanLength > 0 && |events| >= size
                                    then [(RecentLosses(events, meanLength, 0), RecentLosses(events, meanLength, 1))]
                                    else []
    {
      if meanLength > 0 && looped {
        var counted, errors0, errors1 := CountLosses(current + 1, size, 0, 0, 0);
        counted, errors0, errors1 := CountLosses(0, current + 1, counted, errors0, errors1);
        means := means + [(errors0, errors1)];
      }
    }

    /** Last part: the new event replaces the oldest one. */
    method Store(e: Event)
      requires Shaped() && Correlated(events + [e])
      modifies `current, `looped, `events, buffer
      ensures Valid() && events == old(events) + [e]
    {
      assert forall lag :: 0 <= lag < size - 1 ==> Place(size, current, lag) != current;
      ghost var previous := current;
      buffer[current] := e;
      events := events + [e];
      if current == 0 {
        looped := true;
        current := size - 1;
      } else {
        current := current - 1;
      }
      forall lag | 0 <= lag < size && lag < |events|
        ensures buffer[Place(size, current, lag)] == events[|events| - 1 - lag]
      {
        if lag > 0 {
          assert Place(size, current, lag) == Place(size, previous, lag - 1);
        }
      }
    }

    /** temporal_dependence */
    method Add(e: Event)
      requires Valid()
      modifies this, buffer, correlations
      ensures Valid() && events == old(events) + [e]
      ensures means == old(means) + if meanLength > 0 && |old(events)| >= size
                                    then [(RecentLosses(old(events), meanLength, 0),
                                           RecentLosses(old(events), meanLength, 1))]
                                    else []
    {
      RecordCorrelations(e);
      RecordMean();
      Store(e);
    }
  }
}
