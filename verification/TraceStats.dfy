/** The tables that the first pass fills slot by slot, each proved to be a recount of the emitted trace. */
module TraceStats {
  import opened StreamMerge
  import opened Runs
  import opened Tally
  import opened ShiftRegister
  import opened ArrayList
  import opened History

  const SIGNALS: nat := 256

  /** The trace's slots carry signal strengths that index the table of signals. */
  predicate Indexable(s: Slot) { s.row < SIGNALS && s.col < SIGNALS }

  // ---------- what the tables count ----------

  function Kind(s: Slot): nat { 2 * Bit(s.first) + Bit(s.second) }

  function Kinds(trace: seq<Slot>): seq<nat> {
    seq(|trace|, i requires 0 <= i < |trace| => Kind(trace[i]))
  }

  function SignalKey(s: Slot): nat { SIGNALS * s.row + s.col }

  function SignalKeys(trace: seq<Slot>): seq<nat> {
    seq(|trace|, i requires 0 <= i < |trace| => SignalKey(trace[i]))
  }

  function Bits(trace: seq<Slot>, p: nat): seq<bool> {
    seq(|trace|, i requires 0 <= i < |trace| => trace[i].Bit(p))
  }

  /** The code of stream p's last k outcomes, where everything before the trace counts as received. */
  function Recent(k: nat, trace: seq<Slot>, p: nat): nat {
    Code(Latest(Repeat(true, k) + Bits(trace, p), k))
  }

  function JointKey(k: nat, trace: seq<Slot>): nat {
    Pow2(k) * Recent(k, trace, 0) + Recent(k, trace, 1)
  }

  /** For each slot, the codes of the last k outcomes of both streams. */
  function JointKeys(k: nat, trace: seq<Slot>): seq<nat> {
    seq(|trace|, i requires 0 <= i < |trace| => JointKey(k, trace[..i + 1]))
  }

  function Events(trace: seq<Slot>): seq<Event> {
    seq(|trace|, i requires 0 <= i < |trace| => Kind(trace[i]) as Event)
  }

  // ---------- shifting in one slot ----------

  lemma RecentShifts(k: nat, trace: seq<Slot>, s: Slot, p: nat)
    ensures (2 * Recent(k, trace, p) + Bit(s.Bit(p))) % Pow2(k) == Recent(k, trace + [s], p) < Pow2(k)
  {
    var all := Repeat(true, k) + Bits(trace, p);
    ShiftIn(all, s.Bit(p), k);
    assert Repeat(true, k) + Bits(trace + [s], p) == all + [s.Bit(p)];
  }

  lemma {:induction false} OnesCode(k: nat)
    ensures Code(Repeat(true, k)) == Pow2(k) - 1
  {
    if k > 0 {
      OnesCode(k - 1);
      assert Repeat(true, k)[..k - 1] == Repeat(true, k - 1);
    }
  }

  lemma RecentAtStart(k: nat)
    ensures Recent(k, [], 0) == Recent(k, [], 1) == Pow2(k) - 1
  {
    OnesCode(k);
    assert Latest(Repeat(true, k) + Bits([], 0), k) == Repeat(true, k) == Latest(Repeat(true, k) + Bits([], 1), k);
  }

  lemma JointKeysSnoc(k: nat, trace: seq<Slot>, s: Slot)
    ensures JointKeys(k, trace + [s]) == JointKeys(k, trace) + [JointKey(k, trace + [s])]
  {
    forall i | 0 <= i < |trace|
      ensures JointKeys(k, trace + [s])[i] == JointKeys(k, trace)[i]
    {
      assert (trace + [s])[..i + 1] == trace[..i + 1];
    }
    assert (trace + [s])[..|trace| + 1] == trace + [s];
  }

  /** compare_histo has 2^(2k) cells. */
  lemma JointKeyInRange(k: nat, a: nat, b: nat)
    requires a < Pow2(k) && b < Pow2(k)
    ensures Pow2(k) * a + b < Pow2(k) * Pow2(k)
  {
    TimesMonotone(a, Pow2(k), Pow2(k));
  }

  lemma KeysSnoc(trace: seq<Slot>, s: Slot)
    ensures Kinds(trace + [s]) == Kinds(trace) + [Kind(s)]
    ensures SignalKeys(trace + [s]) == SignalKeys(trace) + [SignalKey(s)]
    ensures Events(trace + [s]) == Events(trace) + [Kind(s) as Event]
  {
  }

  /** Codes of the last k outcomes are below 2^k. */
  lemma RecentIsCode(k: nat, trace: seq<Slot>)
    ensures Recent(k, trace, 0) < Pow2(k) && Recent(k, trace, 1) < Pow2(k)
  {
    ModKeepsLatest(0, Repeat(true, k) + Bits(trace, 0), k);
    ModKeepsLatest(0, Repeat(true, k) + Bits(trace, 1), k);
  }

  /** At slot i the last k outcomes of the first stream have the code a, those of the second one the code b. */
  predicate HasCodes(k: nat, trace: seq<Slot>, a: nat, b: nat, i: nat)
    requires i < |trace|
  {
    && Code(seq(k, j requires 0 <= j < k => i + 1 + j < k || trace[i + 1 + j - k].first)) == a
    && Code(seq(k, j requires 0 <= j < k => i + 1 + j < k || trace[i + 1 + j - k].second)) == b
  }

  /** That is what the two registers hold. */
  lemma RecentHasCodes(k: nat, trace: seq<Slot>, a: nat, b: nat, i: nat)
    requires i < |trace|
    ensures HasCodes(k, trace, a, b, i) <==> Recent(k, trace[..i + 1], 0) == a && Recent(k, trace[..i + 1], 1) == b
  {
    var firsts := seq(k, j requires 0 <= j < k => i + 1 + j < k || trace[i + 1 + j - k].first);
    var seconds := seq(k, j requires 0 <= j < k => i + 1 + j < k || trace[i + 1 + j - k].second);
    hide Code;
    assert firsts == Latest(Repeat(true, k) + Bits(trace[..i + 1], 0), k);
    assert seconds == Latest(Repeat(true, k) + Bits(trace[..i + 1], 1), k);
  }

  lemma KeySplits(m: nat, a: nat, b: nat, c: nat, d: nat)
    requires b < m && d < m
    ensures m * a + b == m * c + d <==> a == c && b == d
  {
    if a < c {
      TimesMonotone(a, c, m);
    } else if c < a {
      TimesMonotone(c, a, m);
    }
  }

  /** The events of the history say which stream lost the slot. */
  lemma EventsTellLosses(trace: seq<Slot>, i: nat)
    requires i < |trace|
    ensures Lost(Events(trace)[i], 0) == (if trace[i].first then 0 else 1)
    ensures Lost(Events(trace)[i], 1) == (if trace[i].second then 0 else 1)
    ensures Events(trace)[i] == (if trace[i].first then 2 else 0) + (if trace[i].second then 1 else 0)
  {
  }

  /** The numerators of a floating mean are the numbers of the latest slots that the two streams lost. */
  lemma MeansCountLosses(trace: seq<Slot>, length: nat)
    requires length <= |trace|
    ensures RecentLosses(Events(trace), length, 0) == |set i | |trace| - length <= i < |trace| && !trace[i].first|
    ensures RecentLosses(Events(trace), length, 1) == |set i | |trace| - length <= i < |trace| && !trace[i].second|
  {
    var events := Events(trace);
    RecentLossesIsNumber(events, length, 0);
    RecentLossesIsNumber(events, length, 1);
    assert (set i | |events| - length <= i < |events| && Lost(events[i], 0) == 1)
        == set i | |trace| - length <= i < |trace| && !trace[i].first;
    assert (set i | |events| - length <= i < |events| && Lost(events[i], 1) == 1)
        == set i | |trace| - length <= i < |trace| && !trace[i].second;
  }

  lemma {:induction false} CountAbsent(keys: seq<nat>, key: nat)
    requires forall i :: 0 <= i < |keys| ==> keys[i] < key
    ensures Count(keys, key) == 0
  {
    if keys != [] {
      CountAbsent(keys[..|keys| - 1], key);
    }
  }

  // ---------- the joint histogram ----------

  /** compare_histo and the two registers of recent outcomes that index it. */
  class JointHistogram {
    const k: nat
    const counters: array<nat>
    var histo0: nat
    var histo1: nat
    ghost var trace: seq<Slot>

    ghost predicate Valid()
      reads this, counters
    {
      && counters.Length == Pow2(k) * Pow2(k)
      && histo0 == Recent(k, trace, 0) < Pow2(k) && histo1 == Recent(k, trace, 1) < Pow2(k)
      && Tallies(counters[..], JointKeys(k, trace))
    }

    constructor (k: nat)
      ensures Valid() && trace == [] && this.k == k && fresh(counters)
    {
      this.k := k;
      counters := new nat[Pow2(k) * Pow2(k)](_ => 0);
      histo0, histo1, trace := Pow2(k) - 1, Pow2(k) - 1, [];
      RecentAtStart(k);
    }

    method Add(s: Slot)
      requires Valid()
      modifies this, counters
      ensures Valid() && trace == old(trace) + [s]
    {
      hide Tallies, Recent, JointKeys, Pow2;
      histo0 := (2 * histo0 + Bit(s.first)) % Pow2(k);
      histo1 := (2 * histo1 + Bit(s.second)) % Pow2(k);
      RecentShifts(k, trace, s, 0);
      RecentShifts(k, trace, s, 1);
      JointKeyInRange(k, histo0, histo1);
      JointKeysSnoc(k, trace, s);
      var key := Pow2(k) * histo0 + histo1;
      TallyMore(counters[..], JointKeys(k, trace), key);
      counters[key] := counters[key] + 1;
      trace := trace + [s];
    }
  }

  // ---------- all the tables of the first pass ----------

  class Statistics {
    const u64Stats: array<nat>     // cell 2 * a + b counts the slots with outcomes a and b
    const signals: array<nat>      // cell 256 * i + j counts the slots with signal strengths i and j
    const histogram: JointHistogram?
    const history: Memory?
    const coordBursts: CounterList?
    ghost var trace: seq<Slot>
    ghost var bursts: seq<nat>

    ghost function Repr(): set<object>
      reads this, coordBursts
    {
      {this, u64Stats, signals}
      + (if histogram == null then {} else {histogram, histogram.counters})
      + (if history == null then {} else {history, history.buffer, history.correlations})
      + (if coordBursts == null then {} else coordBursts.Repr)
    }

    /** The objects of the four parts are different ones. */
    ghost predicate Separate()
      reads this, coordBursts
    {
      && u64Stats != signals
      && (histogram != null ==> histogram.counters != u64Stats && histogram.counters != signals)
      && (coordBursts != null ==>
          && this !in coordBursts.Repr && u64Stats !in coordBursts.Repr && signals !in coordBursts.Repr
          && (histogram != null ==> histogram !in coordBursts.Repr && histogram.counters !in coordBursts.Repr)
          && (history != null ==> history !in coordBursts.Repr && history.buffer !in coordBursts.Repr
                                  && history.correlations !in coordBursts.Repr))
    }

    ghost predicate Tallied()
      reads this, u64Stats, signals
    {
      && Tallies(u64Stats[..], Kinds(trace)) && u64Stats.Length == 4
      && Tallies(signals[..], SignalKeys(trace)) && signals.Length == SIGNALS * SIGNALS
      && forall i :: 0 <= i < |trace| ==> Indexable(trace[i])
    }

    ghost predicate BurstsCounted()
      reads this, coordBursts, if coordBursts == null then {} else coordBursts.Repr
    {
      coordBursts != null ==>
        && coordBursts.Valid()
        && (forall i :: 0 <= i < |coordBursts.Values| ==> coordBursts.Values[i] == Count(bursts, i + 1))
        && (forall i :: 0 <= i < |bursts| ==> 1 <= bursts[i] <= |coordBursts.Values|)
    }

    ghost predicate Valid()
      reads this, coordBursts, Repr()
    {
      && Separate() && Tallied() && BurstsCounted()
      && (histogram != null ==> histogram.Valid() && histogram.trace == trace)
      && (history != null ==> history.Valid() && history.events == Events(trace))
    }

    /** All tables empty; the joint histogram, the history and the joint bursts are optional. */
    constructor (histogram: JointHistogram?, history: Memory?, coordBursts: CounterList?)
      requires histogram != null ==> histogram.Valid() && histogram.trace == []
      requires history != null ==> history.Valid() && history.events == []
      requires coordBursts != null ==>
                 coordBursts.Valid() && forall i :: 0 <= i < |coordBursts.Values| ==> coordBursts.Values[i] == 0
      requires coordBursts != null && histogram != null ==>
                 histogram !in coordBursts.Repr && histogram.counters !in coordBursts.Repr
      requires coordBursts != null && history != null ==>
                 history !in coordBursts.Repr && history.buffer !in coordBursts.Repr
                 && history.correlations !in coordBursts.Repr
      ensures Valid() && trace == [] && bursts == []
      ensures this.histogram == histogram && this.history == history && this.coordBursts == coordBursts
      ensures fresh(u64Stats) && fresh(signals)
    {
      hide JointHistogram.Valid, Memory.Valid, CounterList.Valid;
      u64Stats := new nat[4](_ => 0);
      signals := new nat[SIGNALS * SIGNALS](_ => 0);
      this.histogram, this.history, this.coordBursts := histogram, history, coordBursts;
      trace, bursts := [], [];
    }

    /** The two tables that are always kept. */
    method CountSlot(s: Slot)
      requires u64Stats != signals && Tallied() && Indexable(s)
      modifies `trace, u64Stats, signals
      ensures Tallied() && trace == old(trace) + [s]
    {
      KeysSnoc(trace, s);
      TallyMore(u64Stats[..], Kinds(trace), Kind(s));
      TallyMore(signals[..], SignalKeys(trace), SignalKey(s));
      u64Stats[Kind(s)] := u64Stats[Kind(s)] + 1;
      signals[SignalKey(s)] := signals[SignalKey(s)] + 1;
      trace := trace + [s];
    }

    /** ADD_VAL, ADD_VAR_ONE and the count of signal strengths for one slot. */
    method AddSlot(s: Slot)
      requires Valid() && Indexable(s)
      modifies Repr()
      ensures Valid() && trace == old(trace) + [s] && bursts == old(bursts)
      ensures Repr() == old(Repr())
    {
      hide Tallies, Count, JointHistogram.Valid, Memory.Valid, CounterList.Valid, Kinds, Events, SignalKeys;
      if histogram != null {
        histogram.Add(s);
      }
      if history != null {
        history.Add(Kind(s) as Event);
      }
      KeysSnoc(trace, s);
      CountSlot(s);
    }

    /** ADD_BURST for the joint bursts: `length` slots were lost together. */
    method AddBurst(length: nat)
      requires Valid() && length >= 1
      modifies Repr()
      ensures Valid() && trace == old(trace) && bursts == old(bursts) + [length]
      ensures fresh(Repr() - old(Repr()))
    {
      if coordBursts != null {
        ghost var before := coordBursts.Values;
        coordBursts.Increment(length - 1);
        forall i | 0 <= i < |coordBursts.Values|
          ensures coordBursts.Values[i] == Count(bursts + [length], i + 1)
        {
          CountSnoc(bursts, length, i + 1);
          assert At(coordBursts.Values, i) == At(before, i) + if i == length - 1 then 1 else 0;
          if i >= |before| {
            CountAbsent(bursts, i + 1);
          }
        }
      }
      bursts := bursts + [length];
    }

    /** Each cell of u64_stats counts the slots with these two outcomes. */
    lemma CellsCount(first: bool, second: bool)
      requires Valid()
      ensures u64Stats[(if first then 2 else 0) + (if second then 1 else 0)]
           == |set i | 0 <= i < |trace| && trace[i].first == first && trace[i].second == second|
    {
      var key := (if first then 2 else 0) + (if second then 1 else 0);
      CountIsNumber(Kinds(trace), key);
      assert (set i | 0 <= i < |Kinds(trace)| && Kinds(trace)[i] == key)
          == set i | 0 <= i < |trace| && trace[i].first == first && trace[i].second == second;
    }

    /** Each cell of the table of signals counts the slots with these two signal strengths. */
    lemma SignalsCount(row: nat, col: nat)
      requires Valid() && row < 256 && col < 256
      ensures signals[256 * row + col] == |set i | 0 <= i < |trace| && trace[i].row == row && trace[i].col == col|
    {
      var key := 256 * row + col;
      CountIsNumber(SignalKeys(trace), key);
      assert (set i | 0 <= i < |SignalKeys(trace)| && SignalKeys(trace)[i] == key)
          == set i | 0 <= i < |trace| && trace[i].row == row && trace[i].col == col;
    }

    /** Each cell of the joint histogram counts the slots at which the last k outcomes have these two codes. */
    lemma HistogramCounts(a: nat, b: nat)
      requires Valid() && histogram != null && a < Pow2(histogram.k) && b < Pow2(histogram.k)
      ensures Pow2(histogram.k) * a + b < histogram.counters.Length
      ensures histogram.counters[Pow2(histogram.k) * a + b]
           == |set i | 0 <= i < |trace| && HasCodes(histogram.k, trace, a, b, i)|
    {
      hide Recent, Pow2, HasCodes;
      var k := histogram.k;
      var key, keys := Pow2(k) * a + b, JointKeys(k, trace);
      JointKeyInRange(k, a, b);
      CountIsNumber(keys, key);
      forall i | 0 <= i < |trace|
        ensures keys[i] == key <==> HasCodes(k, trace, a, b, i)
      {
        RecentIsCode(k, trace[..i + 1]);
        RecentHasCodes(k, trace, a, b, i);
        KeySplits(Pow2(k), Recent(k, trace[..i + 1], 0), Recent(k, trace[..i + 1], 1), a, b);
      }
      assert (set i | 0 <= i < |keys| && keys[i] == key)
          == set i | 0 <= i < |trace| && HasCodes(k, trace, a, b, i);
    }

    /** Each cell of the correlations counts the slots, behind the first ones, with these events at this distance. */
    lemma CorrelationsCount(lag: nat, a: nat, b: nat)
      requires Valid() && history != null && history.correlate && lag < history.size && a < 4 && b < 3
      ensures history.correlations[lag, a, b]
           == |set i | history.size <= i < |Events(trace)| && HasBefore(Events(trace), lag, a, b, i)|
    {
      PrecededIsNumber(Events(trace), history.size, lag, a, b);
    }

    /** The totals of all the tables are the number of emitted slots. */
    lemma TotalsAgree()
      requires Valid()
      ensures Sum(u64Stats[..]) == |trace| == Sum(signals[..])
      ensures histogram != null ==> Sum(histogram.counters[..]) == |trace|
      ensures coordBursts != null ==> Weighted(coordBursts.Values) == Sum(bursts)
    {
      TallyTotal(u64Stats[..], Kinds(trace));
      TallyTotal(signals[..], SignalKeys(trace));
      if histogram != null {
        TallyTotal(histogram.counters[..], JointKeys(histogram.k, trace));
      }
      if coordBursts != null {
        WeightedTotal(coordBursts.Values, bursts);
      }
    }
  }
}
