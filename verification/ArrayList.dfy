/** The chained list of seven-slot arrays that udp-test/extract.c uses as an unbounded table of counters. */
module ArrayList {
  const LIST_STEP: nat := 7

  /** The counter with this index; those that were never reached are 0. */
  function At(values: seq<nat>, index: nat): nat {
    if index < |values| then values[index] else 0
  }

  /** values' differs from values in one counter only. */
  ghost predicate Changed(values: seq<nat>, values': seq<nat>, index: nat, delta: int) {
    forall i: nat :: At(values', i) == At(values, i) + if i == index then delta else 0
  }

  /** A change in the rest of the list is a change of the list. */
  lemma ChangedBehind(head: seq<nat>, tail: seq<nat>, tail': seq<nat>, index: nat, delta: int)
    requires Changed(tail, tail', index, delta)
    ensures Changed(head + tail, head + tail', |head| + index, delta)
  {
    forall i: nat
      ensures At(head + tail', i) == At(head + tail, i) + if i == |head| + index then delta else 0
    {
      if i >= |head| {
        assert At(tail', i - |head|) == At(tail, i - |head|) + if i - |head| == index then delta else 0;
      }
    }
  }

  /** Decrementing undoes incrementing. */
  lemma DecrementUndoes(values: seq<nat>, up: seq<nat>, down: seq<nat>, index: nat)
    requires Changed(values, up, index, 1) && Changed(up, down, index, -1)
    ensures forall i: nat :: At(down, i) == At(values, i)
  {
  }

  /** struct array_list_u64 */
  class CounterList {
    const data: array<nat>
    var next: CounterList?
    ghost var Values: seq<nat>
    ghost var Repr: set<object>

    ghost predicate Valid()
      reads this, Repr
      ensures Valid() ==> this in Repr && |Values| >= LIST_STEP
    {
      && this in Repr && data in Repr && data.Length == LIST_STEP
      && (next == null ==> Values == data[..])
      && (next != null ==>
          && next in Repr && next.Repr <= Repr && this !in next.Repr && data !in next.Repr
          && next.Valid() && Values == data[..] + next.Values)
    }

    /** A zeroed list element. */
    constructor ()
      ensures Valid() && fresh(Repr) && next == null
      ensures Values == seq(LIST_STEP, _ => 0)
    {
      data := new nat[LIST_STEP](_ => 0);
      next := null;
      new;
      Values := data[..];
      Repr := {this, data};
    }

    method Increment(count: nat)
      requires Valid()
      modifies Repr
      ensures Valid() && fresh(Repr - old(Repr))
      ensures Changed(old(Values), Values, count, 1)
      ensures |Values| >= |old(Values)| && count < |Values|
      decreases count
    {
      if count >= LIST_STEP {
        if next == null {
          next := new CounterList();
          Repr := Repr + next.Repr;
          Values := data[..] + next.Values;
        }
        ghost var tail := next.Values;
        next.Increment(count - LIST_STEP);
        ChangedBehind(data[..], tail, next.Values, count - LIST_STEP, 1);
        Repr := Repr + next.Repr;
        Values := data[..] + next.Values;
      } else {
        data[count] := data[count] + 1;
        Values := Values[count := Values[count] + 1];
      }
    }

    /** The asserts of the source: the counter must be reachable and not 0. */
    method Decrement(count: nat)
      requires Valid() && At(Values, count) > 0
      modifies Repr
      ensures Valid() && Repr == old(Repr)
      ensures Changed(old(Values), Values, count, -1) && |Values| == |old(Values)|
      decreases count
    {
      if count >= LIST_STEP {
        ghost var tail := next.Values;
        next.Decrement(count - LIST_STEP);
        ChangedBehind(data[..], tail, next.Values, count - LIST_STEP, -1);
        Values := data[..] + next.Values;
      } else {
        data[count] := data[count] - 1;
        Values := Values[count := Values[count] - 1];
      }
    }
  }
}
