/** The Click element of elements/basiconoffchannel.cc, which draws burst lengths from a trained distribution. */
module OnOffChannel {
  import opened Runs
  import opened Tally
  import opened Histogram
  import opened OnOff

  /** One line pair of a distribution file: a burst length and its cumulated probability. */
  datatype CDFPoint = CDFPoint(probability: int, point: nat)

  ghost predicate Nondecreasing(distribution: seq<CDFPoint>) {
    forall i, j :: 0 <= i < j < |distribution| ==> distribution[i].probability <= distribution[j].probability
  }

  /** The index of the first point whose probability is not exceeded by the random number, or the last index. */
  ghost function Drawn(distribution: seq<CDFPoint>, rand: nat, from: nat): (i: nat)
    requires from < |distribution|
    ensures from <= i < |distribution|
    ensures forall j :: from <= j < i ==> distribution[j].probability < rand
    ensures i < |distribution| - 1 ==> rand <= distribution[i].probability
    decreases |distribution| - from
  {
    if from == |distribution| - 1 || rand <= distribution[from].probability then from
    else Drawn(distribution, rand, from + 1)
  }

  // ---------- the binary search ----------

  datatype Search = Search(min: int, max: int, pos: int)

  function Start(n: nat): Search { Search(0, n - 1, n / 2) }

  /** One turn of the search loop. */
  function Halved(distribution: seq<CDFPoint>, rand: nat, s: Search): Search
    requires 0 <= s.pos < |distribution|
  {
    if rand > distribution[s.pos].probability then Search(s.pos, s.max, s.pos + (s.max - s.pos) / 2)
    else Search(s.min, s.pos, s.min + (s.pos - s.min) / 2)
  }

  /** thresholdrand */
  method ThresholdRand(distribution: seq<CDFPoint>, rand: nat) returns (point: nat)
    requires |distribution| >= 2
    ensures Nondecreasing(distribution) ==> point == distribution[Drawn(distribution, rand, 0)].point
  {
    var min, max, pos := 0, |distribution| - 1, |distribution| / 2;
    while max - min != 1
      invariant 0 <= min < max < |distribution|
      invariant max - min != 1 ==> min < pos < max
      invariant min == 0 || distribution[min].probability < rand
      invariant max == |distribution| - 1 || rand <= distribution[max].probability
      decreases max - min
    {
      ghost var before := Search(min, max, pos);
      if rand > distribution[pos].probability {
        min := pos;
        pos := min + (max - min) / 2;
      } else {
        max := pos;
        pos := min + (max - min) / 2;
      }
      assert Search(min, max, pos) == Halved(distribution, rand, before);
    }
    if rand > distribution[min].probability {
      point := distribution[max].point;
    } else {
      point := distribution[min].point;
    }
  }

  /** The state of the search after n turns, as long as it does not stop. */
  function Turns(distribution: seq<CDFPoint>, rand: nat, n: nat): (s: Search)
    requires |distribution| == 1
    ensures s == Start(1)
  {
    if n == 0 then Start(1) else Halved(distribution, rand, Turns(distribution, rand, n - 1))
  }

  /** With a single point the search never stops: its loop condition holds after any number of turns. */
  lemma SinglePointNeverEnds(distribution: seq<CDFPoint>, rand: nat, n: nat)
    requires |distribution| == 1
    ensures var s := Turns(distribution, rand, n);
            s.max - s.min != 1
  {
  }

  // ---------- accuracy of the samples ----------

  /** The distribution file that is written for a trained map: its points in the order of the keys. */
  ghost function Points(final: map<nat, int>): seq<CDFPoint> {
    var keys := Sorted(final.Keys);
    seq(|keys|, i requires 0 <= i < |keys| => CDFPoint(final[keys[i]], keys[i]))
  }

  /** The one for what calculate_values leaves in an empty map. */
  ghost function Table(hist: map<nat, nat>, values: seq<nat>, maxRand: nat): seq<CDFPoint> {
    Points(Expected(hist, values, maxRand))
  }

  /** So it has a point for each length of the histogram, with the scaled count of the values up to that length. */
  lemma TableIsExpected(hist: map<nat, nat>, values: seq<nat>, maxRand: nat)
    ensures var keys, t := Sorted(hist.Keys), Table(hist, values, maxRand);
            && |t| == |keys|
            && forall i :: 0 <= i < |t| ==> t[i] == CDFPoint(ScaledAt(values, keys[i], maxRand), keys[i])
  {
    assert Expected(hist, values, maxRand).Keys == hist.Keys;
  }

  lemma {:induction false} AtMostGrows(values: seq<nat>, a: nat, b: nat)
    requires a <= b
    ensures AtMost(values, a) <= AtMost(values, b) <= |values|
  {
    if values != [] {
      AtMostGrows(values[..|values| - 1], a, b);
    }
  }

  lemma ScaledGrows(a: nat, b: nat, total: nat, maxRand: nat)
    requires a <= b && total > 0
    ensures 0 <= Scaled(a, total, maxRand) <= Scaled(b, total, maxRand)
    ensures Scaled(total, total, maxRand) == maxRand
  {
    hide Scaled;
    ScaledBounds(a, total, maxRand);
    ScaledBounds(b, total, maxRand);
    ScaledBounds(total, total, maxRand);
    TimesGrows(maxRand, a, b);
    var low, high, whole := Scaled(a, total, maxRand), Scaled(b, total, maxRand), Scaled(total, total, maxRand);
    LessByTotal(total, low, high);
    LessByTotal(total, maxRand, whole);
    LessByTotal(total, whole, maxRand);
    LessByTotal(total, 0, low);
  }

  /** Every non-empty distribution has increasing lengths, nondecreasing probabilities and ends at maxRand. */
  lemma TableRises(hist: map<nat, nat>, values: seq<nat>, maxRand: nat)
    requires Histograms(hist, values) && values != []
    ensures var t := Table(hist, values, maxRand);
            && t != [] && t[|t| - 1].probability == maxRand
            && Nondecreasing(t) && (forall i :: 0 <= i < |t| ==> 0 <= t[i].probability <= maxRand)
            && forall i, j :: 0 <= i < j < |t| ==> t[i].point < t[j].point
  {
    hide Histograms, Count, AtMost, SumAtMost, Scaled, Table;
    var keys, t := Sorted(hist.Keys), Table(hist, values, maxRand);
    KeysOfSome(hist, values);
    TableIsExpected(hist, values, maxRand);
    hide Sorted;
    forall i, j | 0 <= i <= j < |t|
      ensures 0 <= t[i].probability <= t[j].probability
    {
      AtMostGrows(values, keys[i], keys[j]);
      ScaledGrows(AtMost(values, keys[i]), AtMost(values, keys[j]), |values|, maxRand);
    }
    KeyCounts(hist, values, |keys| - 1);
    ScaledGrows(0, 0, |values|, maxRand);
  }

  /** A trained distribution has the two points that the search needs exactly if two different lengths occur. */
  lemma TwoPointsIffTwoLengths(hist: map<nat, nat>, values: seq<nat>, maxRand: nat)
    requires Histograms(hist, values)
    ensures |Table(hist, values, maxRand)| >= 2
       <==> exists i, j :: 0 <= i < |values| && 0 <= j < |values| && values[i] != values[j]
  {
    hide AtMost, Scaled, Table;
    TableIsExpected(hist, values, maxRand);
    var keys := Sorted(hist.Keys);
    if |keys| >= 2 {
      assert keys[0] in keys && keys[1] in keys && keys[0] < keys[1];
      assert keys[0] in hist && keys[1] in hist;
      var i := OccursSomewhere(values, keys[0]);
      var j := OccursSomewhere(values, keys[1]);
      assert values[i] != values[j];
    }
    if i, j :| 0 <= i < |values| && 0 <= j < |values| && values[i] != values[j] {
      Occurs(values, i);
      Occurs(values, j);
      assert values[i] in hist && values[j] in hist;
      assert values[i] in keys && values[j] in keys;
    }
  }

  /** The random numbers up to maxRand for which the i-th point is drawn. */
  ghost function Hits(distribution: seq<CDFPoint>, maxRand: nat, i: nat): set<int>
    requires distribution != []
  {
    set r | 0 <= r <= maxRand && Drawn(distribution, r, 0) == i
  }

  /** How many random numbers draw the i-th point. */
  lemma HitsCount(distribution: seq<CDFPoint>, maxRand: nat, i: nat)
    requires Nondecreasing(distribution) && i < |distribution|
    requires 0 <= distribution[0].probability && distribution[|distribution| - 1].probability == maxRand
    ensures |Hits(distribution, maxRand, i)|
         == distribution[i].probability - if i == 0 then -1 else distribution[i - 1].probability
  {
    var low := if i == 0 then 0 else distribution[i - 1].probability + 1;
    var high := distribution[i].probability + 1;
    forall r
      ensures r in Hits(distribution, maxRand, i) <==> low <= r < high
    {
      if 0 <= r <= maxRand {
        var d := Drawn(distribution, r, 0);
        if d < i {
          assert r <= distribution[d].probability <= distribution[i - 1].probability;
        } else if i < d {
          assert distribution[i].probability < r;
        }
      }
    }
    assert Hits(distribution, maxRand, i) == Interval(low, high);
  }

  /**
    Trainer and generator together: the number of random numbers that draw a length, as a share of maxRand,
    differs from the length's share of the trained bursts by at most one random number.
  */
  lemma SamplingIsAccurate(hist: map<nat, nat>, values: seq<nat>, maxRand: nat, i: nat)
    requires Histograms(hist, values) && values != [] && i < |Sorted(hist.Keys)|
    ensures var hits := |Hits(Table(hist, values, maxRand), maxRand, i)|;
            var count := hist[Sorted(hist.Keys)[i]];
            -|values| <= hits * |values| - count * maxRand <= |values|
  {
    hide Histograms, Count, AtMost, SumAtMost, Drawn, Scaled, Sorted, Hits, Nondecreasing, Table;
    TableIsExpected(hist, values, maxRand);
    var keys, t, total := Sorted(hist.Keys), Table(hist, values, maxRand), |values|;
    TableRises(hist, values, maxRand);
    HitsCount(t, maxRand, i);
    KeyCounts(hist, values, i);
    var above := AtMost(values, keys[i]);
    ScaledBounds(above, total, maxRand);
    if i == 0 {
      FirstIsAccurate(total, maxRand, above, t[0].probability);
    } else {
      var below := AtMost(values, keys[i - 1]);
      ScaledBounds(below, total, maxRand);
      OtherIsAccurate(total, maxRand, above, below, t[i].probability, t[i - 1].probability);
    }
  }

  lemma FirstIsAccurate(total: nat, maxRand: nat, above: nat, f: int)
    requires total * f <= above * maxRand < total * f + total
    ensures 0 <= (f + 1) * total - above * maxRand <= total
  {
  }

  lemma OtherIsAccurate(total: nat, maxRand: nat, above: nat, below: nat, f: int, g: int)
    requires total * f <= above * maxRand < total * f + total
    requires total * g <= below * maxRand < total * g + total
    ensures 0 - total < (f - g) * total - (above - below) * maxRand < total
  {
  }

  /** A channel that loads a trained distribution draws the length whose hits contain the random number. */
  method Sample(distribution: seq<CDFPoint>, rand: nat, ghost hist: map<nat, nat>, ghost values: seq<nat>, maxRand: nat)
    returns (point: nat)
    requires Histograms(hist, values) && values != [] && distribution == Table(hist, values, maxRand)
    requires |distribution| >= 2 && rand <= maxRand
    ensures var i := Drawn(distribution, rand, 0);
            i < |Sorted(hist.Keys)| && point == Sorted(hist.Keys)[i] && rand in Hits(distribution, maxRand, i)
  {
    hide Table, Sorted;
    TableIsExpected(hist, values, maxRand);
    TableRises(hist, values, maxRand);
    point := ThresholdRand(distribution, rand);
  }

  // ---------- the channel ----------

  function Rest(remaining: int): nat { if remaining < 0 then 0 else remaining }

  /** What was sent and what remains of the current burst make up the bursts drawn so far. */
  ghost predicate Sends(drawn: seq<Run>, emitted: seq<bool>, state: bool, remaining: int) {
    && Alternating(drawn)
    && Expand(drawn) == emitted + Repeat(state, Rest(remaining))
    && (drawn == [] ==> remaining <= 0)
    && (drawn != [] ==> EndsWith(drawn, state) && remaining < drawn[|drawn| - 1].len)
  }

  function Effective(point: nat): nat { if point == 0 then 1 else point }

  lemma SendsNewBurst(drawn: seq<Run>, emitted: seq<bool>, state: bool, remaining: int, point: nat)
    requires Sends(drawn, emitted, state, remaining) && remaining <= 0
    ensures Sends(drawn + [Run(!state, Effective(point))], emitted + [!state], !state, point - 1)
  {
    var len := Effective(point);
    ExpandSnoc(drawn, Run(!state, len));
    hide Expand;
    assert Repeat(state, Rest(remaining)) == [];
    assert Repeat(!state, len) == [!state] + Repeat(!state, len - 1);
    Associative(emitted, [!state], Repeat(!state, len - 1));
  }

  lemma SendsOn(drawn: seq<Run>, emitted: seq<bool>, state: bool, remaining: int)
    requires Sends(drawn, emitted, state, remaining) && remaining > 0
    ensures Sends(drawn, emitted + [state], state, remaining - 1)
  {
  }

  /** The maximal runs of what was sent are the drawn bursts, the last one without what remains of it. */
  lemma SentRuns(drawn: seq<Run>, emitted: seq<bool>, state: bool, remaining: int)
    requires Sends(drawn, emitted, state, remaining)
    ensures RunsOf(emitted) == Truncated(drawn, Rest(remaining))
  {
    var cut := Truncated(drawn, Rest(remaining));
    if drawn != [] {
      var rest, last, left := drawn[..|drawn| - 1], drawn[|drawn| - 1], Rest(remaining);
      ExpandSnoc(rest, last);
      ExpandSnoc(rest, Run(state, last.len - left));
      assert rest + [last] == drawn;
      assert Repeat(state, last.len) == Repeat(state, last.len - left) + Repeat(state, left);
      Associative(Expand(rest), Repeat(state, last.len - left), Repeat(state, left));
      hide Expand;
      SameFront(Expand(cut), emitted, Repeat(state, left));
    } else {
      assert emitted == [];
    }
    hide Expand;
    RunsUnique(cut);
  }

  lemma SameFront<T>(a: seq<T>, b: seq<T>, tail: seq<T>)
    requires a + tail == b + tail
    ensures a == b
  {
    assert a == (a + tail)[..|a|] && b == (b + tail)[..|b|];
  }

  /** The last burst is shorter by what was not sent of it. */
  function Truncated(drawn: seq<Run>, left: nat): seq<Run>
    requires drawn != [] ==> left < drawn[|drawn| - 1].len
  {
    if drawn == [] then []
    else
      var last := drawn[|drawn| - 1];
      drawn[..|drawn| - 1] + [Run(last.value, last.len - left)]
  }

  /** BasicOnOffChannel; a burst of the drawn length is at least one packet long. */
  class Channel {
    const errorBurstLength: seq<CDFPoint>
    const errorFreeBurstLength: seq<CDFPoint>
    var currentState: bool
    var remaining: int
    ghost var drawn: seq<Run>
    ghost var emitted: seq<bool>

    ghost predicate Valid()
      reads this
    {
      && |errorBurstLength| >= 2 && |errorFreeBurstLength| >= 2
      && Sends(drawn, emitted, currentState, remaining)
    }

    constructor (errors: seq<CDFPoint>, frees: seq<CDFPoint>, initialState: bool)
      requires |errors| >= 2 && |frees| >= 2
      ensures Valid() && drawn == [] && emitted == [] && currentState == initialState
    {
      errorBurstLength, errorFreeBurstLength, currentState, remaining := errors, frees, initialState, 0;
      drawn, emitted := [], [];
    }

    /** push: whether the packet is transmitted, and the burst length that was drawn for it, if any */
    method Push(rand: nat) returns (transmit: bool, ghost point: nat)
      requires Valid()
      modifies this
      ensures Valid() && emitted == old(emitted) + [transmit] && transmit == currentState
      ensures old(remaining) > 0 ==>
        currentState == old(currentState) && drawn == old(drawn) && remaining == old(remaining) - 1
      ensures old(remaining) <= 0 ==>
        && currentState == !old(currentState) && remaining == point - 1
        && drawn == old(drawn) + [Run(currentState, Effective(point))]
        && var d := if currentState then errorFreeBurstLength else errorBurstLength;
           Nondecreasing(d) ==> point == d[Drawn(d, rand, 0)].point
    {
      hide Sends;
      point := 0;
      if remaining <= 0 {
        currentState := !currentState;
        if currentState {
          remaining := ThresholdRand(errorFreeBurstLength, rand);
        } else {
          remaining := ThresholdRand(errorBurstLength, rand);
        }
        point := remaining;
        SendsNewBurst(drawn, emitted, !currentState, old(remaining), point);
        drawn := drawn + [Run(currentState, Effective(point))];
      } else {
        SendsOn(drawn, emitted, currentState, remaining);
      }
      remaining := remaining - 1;
      transmit := currentState;
      emitted := emitted + [transmit];
    }
  }

  /**
    Generator then trainer: feeding what a fresh channel sends to a fresh trainer registers exactly the
    drawn bursts, each at least one packet long, the last one cut where the run ended.
  */
  method RoundTrip(channel: Channel, trainer: Trainer, rands: seq<nat>, maxRand: nat)
    requires channel.Valid() && channel.drawn == [] && channel.emitted == []
    requires trainer.Valid() && trainer.Streaming() && trainer.trace == []
    modifies channel, trainer
    ensures channel.Valid() && trainer.Valid() && |channel.emitted| == |rands|
    ensures trainer.bursts == Truncated(channel.drawn, Rest(channel.remaining))
    ensures Expand(trainer.bursts) == channel.emitted
  {
    for i := 0 to |rands|
      invariant channel.Valid() && trainer.Valid() && trainer.Streaming()
      invariant trainer.trace == channel.emitted && |channel.emitted| == i
    {
      var transmit, point := channel.Push(rands[i]);
      trainer.AddChar(transmit);
    }
    trainer.Finalize(maxRand);
    SentRuns(channel.drawn, channel.emitted, channel.currentState, channel.remaining);
    RunsMakeUp(channel.emitted);
  }
}
