/** The Markov chain trainer of parameters/markovchain.cpp. */
module MarkovChain {
  import opened Runs
  import opened Tally
  import opened ShiftRegister
  import opened Histogram

  /** For each symbol that has `order` predecessors: the code of those predecessors and the symbol. */
  function WindowKeys(bits: seq<bool>, order: nat): (keys: seq<nat>)
    ensures |keys| == if |bits| <= order then 0 else |bits| - order
  {
    if |bits| <= order then []
    else WindowKeys(bits[..|bits| - 1], order) + [Code(Latest(bits, order + 1))]
  }

  lemma WindowKeysStep(bits: seq<bool>, order: nat)
    ensures WindowKeys(bits, order)
         == if |bits| <= order then [] else WindowKeys(bits[..|bits| - 1], order) + [Code(Latest(bits, order + 1))]
  {
    hide Code, Latest;
  }

  lemma WindowKeysSnoc(bits: seq<bool>, b: bool, order: nat)
    ensures WindowKeys(bits + [b], order)
         == if |bits| < order then [] else WindowKeys(bits, order) + [2 * Code(Latest(bits, order)) + Bit(b)]
  {
    hide Code, Latest, WindowKeys;
    WindowKeysStep(bits + [b], order);
    assert (bits + [b])[..|bits|] == bits;
    if |bits| >= order {
      CodeSnoc(Latest(bits, order), b);
      LatestSnoc(bits, b, order);
    }
  }

  /** Codes of full windows index the table of states, also with the next symbol appended. */
  lemma KeyInRange(bits: seq<bool>, b: bool, order: nat)
    requires order <= |bits|
    ensures Code(Latest(bits, order)) < Pow2(order)
    ensures 2 * Code(Latest(bits, order)) + Bit(b) < 2 * Pow2(order)
  {
    ModKeepsLatest(0, bits, order);
  }

  /** The visits of state h that a symbol left, and those that a symbol entered. */
  function Departures(keys: seq<nat>, h: nat): nat { Count(keys, 2 * h) + Count(keys, 2 * h + 1) }

  function Arrivals(keys: seq<nat>, h: nat, order: nat): nat { Count(keys, h) + Count(keys, h + Pow2(order)) }

  /**
    Flow balance: every state is left as often as it is entered, except that the first full state was not
    entered and the current one was not left.
  */
  lemma {:induction false} FlowBalance(bits: seq<bool>, order: nat, h: nat)
    requires order <= |bits| && h < Pow2(order)
    ensures var keys := WindowKeys(bits, order);
            Departures(keys, h) - Arrivals(keys, h, order)
            == Bit(h == Code(bits[..order])) - Bit(h == Code(Latest(bits, order)))
  {
    hide Code, Pow2, Departures, Arrivals;
    if |bits| == order {
      assert Latest(bits, order) == bits == bits[..order];
      assert Departures([], h) == 0 == Arrivals([], h, order) by {
        NoFlow(h, order);
      }
    } else {
      var rest, b := bits[..|bits| - 1], bits[|bits| - 1];
      assert rest + [b] == bits && rest[..order] == bits[..order];
      FlowBalance(rest, order, h);
      WindowKeysSnoc(rest, b, order);
      ShiftIn(rest, b, order);
      KeyInRange(rest, b, order);
      FlowStep(WindowKeys(rest, order), Code(Latest(rest, order)), b, order, h);
    }
  }

  lemma NoFlow(h: nat, order: nat)
    ensures Departures([], h) == 0 == Arrivals([], h, order)
  {
  }

  /** One more symbol leaves the state `left` and enters the one that its code becomes. */
  lemma FlowStep(keys: seq<nat>, left: nat, b: bool, order: nat, h: nat)
    requires h < Pow2(order) && 2 * left + Bit(b) < 2 * Pow2(order)
    ensures var key := 2 * left + Bit(b);
            && Departures(keys + [key], h) == Departures(keys, h) + Bit(h == left)
            && Arrivals(keys + [key], h, order) == Arrivals(keys, h, order) + Bit(h == key % Pow2(order))
  {
    hide Count, Pow2;
    var key := 2 * left + Bit(b);
    CountSnoc(keys, key, 2 * h);
    CountSnoc(keys, key, 2 * h + 1);
    CountSnoc(keys, key, h);
    CountSnoc(keys, key, h + Pow2(order));
    Folds(key, Pow2(order), h);
  }

  lemma Folds(key: nat, m: nat, h: nat)
    requires h < m && key < 2 * m
    ensures key % m == h <==> (key == h || key == h + m)
  {
  }

  lemma {:induction false} AllInRange(bits: seq<bool>, order: nat)
    ensures forall i :: 0 <= i < |WindowKeys(bits, order)| ==> WindowKeys(bits, order)[i] < 2 * Pow2(order)
  {
    if |bits| > order {
      AllInRange(bits[..|bits| - 1], order);
      ModKeepsLatest(0, bits, order + 1);
    }
  }

  /** Behind the `order` symbols with the code h, symbol i is b. */
  predicate Leaves(bits: seq<bool>, order: nat, h: nat, b: bool, i: int) {
    order <= i < |bits| && Code(bits[i - order..i]) == h && bits[i] == b
  }

  /** The keys count how often each symbol came behind each history. */
  lemma KeysCountOutcomes(bits: seq<bool>, order: nat, h: nat, b: bool)
    ensures Count(WindowKeys(bits, order), 2 * h + if b then 1 else 0)
         == |set i | order <= i < |bits| && Leaves(bits, order, h, b, i)|
  {
    OutcomesUpTo(bits, order, h, b, |bits|);
    assert bits[..|bits|] == bits;
  }

  lemma {:induction false} OutcomesUpTo(bits: seq<bool>, order: nat, h: nat, b: bool, n: nat)
    requires n <= |bits|
    ensures Count(WindowKeys(bits[..n], order), 2 * h + if b then 1 else 0)
         == |set i | order <= i < n && Leaves(bits, order, h, b, i)|
  {
    hide Code, Count, WindowKeys, Leaves;
    if n <= order {
      NoOutcomes(bits[..n], order, 2 * h + if b then 1 else 0);
      assert (set i | order <= i < n && Leaves(bits, order, h, b, i)) == {};
    } else {
      OutcomesUpTo(bits, order, h, b, n - 1);
      OneOutcome(bits, order, h, b, n);
      var before := set i | order <= i < n - 1 && Leaves(bits, order, h, b, i);
      assert (set i | order <= i < n && Leaves(bits, order, h, b, i))
          == before + if Leaves(bits, order, h, b, n - 1) then {n - 1} else {};
    }
  }

  lemma NoOutcomes(bits: seq<bool>, order: nat, key: nat)
    requires |bits| <= order
    ensures Count(WindowKeys(bits, order), key) == 0
  {
  }

  lemma OneOutcome(bits: seq<bool>, order: nat, h: nat, b: bool, n: nat)
    requires order < n <= |bits|
    ensures var key := 2 * h + if b then 1 else 0;
            var before := Count(WindowKeys(bits[..n - 1], order), key);
            Count(WindowKeys(bits[..n], order), key) == before + if Leaves(bits, order, h, b, n - 1) then 1 else 0
  {
    hide Code, Count, WindowKeys;
    var rest := bits[..n - 1];
    assert rest + [bits[n - 1]] == bits[..n];
    WindowKeysSnoc(rest, bits[n - 1], order);
    assert Latest(rest, order) == bits[n - 1 - order..n - 1];
    CountSnoc(WindowKeys(rest, order), 2 * Code(Latest(rest, order)) + Bit(bits[n - 1]), 2 * h + if b then 1 else 0);
  }

  // ---------- the results of training ----------

  /** The scaled share of successes among the symbols that left a state. */
  function Probability(failures: nat, successes: nat, maxRand: nat): int {
    if successes == 0 then 0 else Scaled(successes, successes + failures, maxRand)
  }

  /** The scaled share of successes among the symbols that left state h. */
  predicate IsShare(share: int, states: seq<nat>, h: nat, maxRand: nat)
    requires 2 * h + 2 <= |states|
  {
    share == Probability(states[2 * h], states[2 * h + 1], maxRand)
  }

  lemma Share(states: seq<nat>, h: nat, maxRand: nat)
    requires 2 * h + 2 <= |states|
    ensures var failures, successes := states[2 * h], states[2 * h + 1];
            IsShare(if successes == 0 then 0 else Scaled(successes, successes + failures, maxRand), states, h, maxRand)
  {
  }

  function MostVisits(states: seq<nat>, n: nat): nat
    requires 2 * n <= |states|
  {
    if n == 0 then 0
    else
      var visits := states[2 * n - 1] + states[2 * n - 2];
      if visits > MostVisits(states, n - 1) then visits else MostVisits(states, n - 1)
  }

  /** The first of the most visited states, or `unvisited` if there were no visits. */
  function MostVisited(states: seq<nat>, n: nat, unvisited: nat): nat
    requires 2 * n <= |states|
  {
    if n == 0 then unvisited
    else if states[2 * n - 1] + states[2 * n - 2] > MostVisits(states, n - 1) then n - 1
    else MostVisited(states, n - 1, unvisited)
  }

  lemma VisitsStep(states: seq<nat>, n: nat, unvisited: nat)
    requires 2 * n + 2 <= |states|
    ensures var visits := states[2 * n] + states[2 * n + 1];
            && MostVisits(states, n + 1) == (if visits > MostVisits(states, n) then visits else MostVisits(states, n))
            && MostVisited(states, n + 1, unvisited)
               == if visits > MostVisits(states, n) then n else MostVisited(states, n, unvisited)
  {
  }

  /** What MostVisited means. */
  lemma {:induction false} MostVisitedIsFirst(states: seq<nat>, n: nat, unvisited: nat)
    requires 2 * n <= |states|
    ensures var best, visits := MostVisited(states, n, unvisited), MostVisits(states, n);
            && (forall h :: 0 <= h < n ==> states[2 * h] + states[2 * h + 1] <= visits)
            && (visits == 0 ==> best == unvisited)
            && (visits > 0 ==> best < n && states[2 * best] + states[2 * best + 1] == visits
                               && forall h :: 0 <= h < best ==> states[2 * h] + states[2 * h + 1] < visits)
  {
    if n > 0 {
      MostVisitedIsFirst(states, n - 1, unvisited);
    }
  }

  /** What an entry of the transitions is: the largest number that is no larger share of maxRand than the successes. */
  lemma ShareIsScaled(share: int, states: seq<nat>, h: nat, maxRand: nat)
    requires 2 * h + 2 <= |states| && IsShare(share, states, h, maxRand)
    ensures var failures, successes := states[2 * h], states[2 * h + 1];
            && (successes == 0 ==> share == 0)
            && (successes > 0 ==> 0 <= successes * maxRand - share * (failures + successes) < failures + successes)
  {
    var failures, successes := states[2 * h], states[2 * h + 1];
    if successes > 0 {
      ScaledBounds(successes, successes + failures, maxRand);
    }
  }

  /**
    A channel that transmits when a random number up to maxRand is below this probability does so for as
    many numbers, as a share of maxRand, as the share of successes it was trained with, less than one off.
  */
  lemma TransmitsAsTrained(failures: nat, successes: nat, maxRand: nat, transmitting: set<int>)
    requires failures + successes > 0
    requires forall r :: r in transmitting <==> 0 <= r <= maxRand && r < Probability(failures, successes, maxRand)
    ensures var visits := failures + successes;
            && |transmitting| == Probability(failures, successes, maxRand)
            && 0 <= successes * maxRand - |transmitting| * visits < visits
  {
    hide Scaled;
    var p, visits := Probability(failures, successes, maxRand), failures + successes;
    if successes > 0 {
      ScaledBounds(successes, visits, maxRand);
      InRange(successes, visits, p, maxRand);
    }
    forall r
      ensures r in transmitting <==> r in Interval(0, p)
    {
    }
    assert transmitting == Interval(0, p);
  }

  lemma InRange(successes: nat, visits: nat, p: int, maxRand: nat)
    requires visits > 0 && successes <= visits && 0 <= visits * p <= successes * maxRand
    ensures 0 <= p <= maxRand
  {
  }

  /** ParamMarckovChain */
  class Trainer {
    const order: nat
    const stateMod: nat
    const states: array<nat>
    const transitions: array<int>
    var k: nat
    var state: nat
    ghost const initial: seq<nat>   // init does not clear the table of states
    ghost var fed: seq<bool>

    /** Each cell of the table grew by the number of windows with its code. */
    ghost predicate Counted()
      reads `fed, states
    {
      && order >= 1 && stateMod == Pow2(order)
      && states.Length == |initial| == 2 * stateMod && transitions.Length == stateMod
      && forall i :: 0 <= i < |initial| ==> states[i] == initial[i] + Count(WindowKeys(fed, order), i)
    }

    ghost predicate Valid()
      reads this, states
    {
      && Counted()
      && k == (if |fed| < order then order - |fed| else 0)
      && state == Code(fed) % stateMod
    }

    ghost function Growth(i: nat): int
      reads states
      requires i < states.Length == |initial|
    {
      states[i] as int - initial[i] as int
    }

    /** init with order and file name; new[] leaves the memory as it is. */
    constructor (order: nat, memory: array<nat>, transitions: array<int>)
      requires order >= 1 && memory.Length == 2 * Pow2(order) && transitions.Length == Pow2(order)
      ensures Valid() && fed == [] && this.order == order && states == memory && this.transitions == transitions
      ensures initial == memory[..]
    {
      this.order, stateMod, states, this.transitions := order, Pow2(order), memory, transitions;
      k, state, initial, fed := order, 0, memory[..], [];
    }

    method AddChar(input: bool)
      requires Valid()
      modifies this, states
      ensures Valid() && fed == old(fed) + [input]
    {
      hide Count, WindowKeys, Horner, Pow2;
      WindowKeysSnoc(fed, input, order);
      RegisterStep(0, fed, input, order);
      if k != 0 {
        k := k - 1;
        assert WindowKeys(fed, order) == [] == WindowKeys(fed + [input], order);
      } else {
        KeyInRange(fed, input, order);
        ModKeepsLatest(0, fed, order);
        forall i | 0 <= i < |initial|
          ensures Count(WindowKeys(fed + [input], order), i)
               == Count(WindowKeys(fed, order), i) + if i == 2 * state + Bit(input) then 1 else 0
        {
          CountSnoc(WindowKeys(fed, order), 2 * state + Bit(input), i);
        }
        states[2 * state + Bit(input)] := states[2 * state + Bit(input)] + 1;
      }
      state := TrainerStep(state, input, stateMod);
      fed := fed + [input];
    }

    /** Cell 2 h counts the errors behind the history h, cell 2 h + 1 the successes. */
    lemma CellsCount(h: nat, b: bool)
      requires Valid() && h < stateMod
      ensures Growth(2 * h + if b then 1 else 0)
           == |set i | order <= i < |fed| && Leaves(fed, order, h, b, i)|
    {
      KeysCountOutcomes(fed, order, h, b);
    }

    /** The sum of what was counted is the number of symbols with a full history. */
    lemma GrowthTotal(growth: seq<nat>)
      requires Valid() && |growth| == states.Length
      requires forall i :: 0 <= i < |growth| ==> growth[i] == states[i] - initial[i]
      ensures Sum(growth) == if |fed| <= order then 0 else |fed| - order
    {
      AllInRange(fed, order);
      TallyTotal(growth, WindowKeys(fed, order));
    }

    /** The table itself balances: what left a state and what entered it differ for two states at most. */
    lemma TableBalances(h: nat)
      requires Valid() && order <= |fed| && h < stateMod
      ensures state < stateMod
      ensures Growth(2 * h) + Growth(2 * h + 1) - Growth(h) - Growth(h + stateMod)
           == Bit(h == Code(fed[..order])) - Bit(h == state)
    {
      hide Count, WindowKeys, Horner, Pow2;
      FlowBalance(fed, order, h);
      ModKeepsLatest(0, fed, order);
    }

    /** finalize: transition probabilities, and the state that was left most often (the first of these). */
    method Finalize(maxRand: nat)
      requires Valid()
      modifies `state, transitions
      ensures Counted()
      ensures forall h :: 0 <= h < stateMod ==> IsShare(transitions[h], states[..], h, maxRand)
      ensures state == MostVisited(states[..], stateMod, old(state))
    {
      assert states.Length == 2 * stateMod && transitions.Length == stateMod;
      ghost var table := states[..];
      assert MostVisits(table, 0) == 0 && MostVisited(table, 0, state) == state;
      hide *;
      var max := 0;
      for i := 0 to stateMod
        invariant states[..] == table && Counted()
        invariant forall h :: 0 <= h < i ==> IsShare(transitions[h], table, h, maxRand)
        invariant state == MostVisited(table, i, old(state)) && max == MostVisits(table, i)
      {
        var tmp := 2 * i;
        var failures, successes := states[tmp], states[tmp + 1];
        VisitsStep(table, i, old(state));
        if successes + failures > max {
          max := successes + failures;
          state := i;
        }
        var share := if successes == 0 then 0 else Scaled(successes, successes + failures, maxRand);
        Share(table, i, maxRand);
        transitions[i] := share;
      }
    }
  }
}
