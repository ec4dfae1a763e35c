/** The Click element of elements/markovchainchannel.cc, and how it meets the trainer. */
module MarkovChannel {
  import opened ShiftRegister
  import opened MarkovChain

  /** MarkovChainChannel */
  class Channel {
    const successProbability: seq<int>
    const stateModulo: nat
    var currentState: nat
    ghost const start: nat
    ghost var emitted: seq<bool>

    ghost predicate Valid()
      reads this
    {
      && |successProbability| == stateModulo > 0
      && currentState == Horner(start, emitted) % stateModulo
    }

    /** The end of initialize: the state read from the file is reduced. */
    constructor (probabilities: seq<int>, initialState: nat)
      requires probabilities != []
      ensures Valid() && emitted == [] && start == initialState && successProbability == probabilities
    {
      successProbability, stateModulo, start, emitted := probabilities, |probabilities|, initialState, [];
      currentState := initialState % |probabilities|;
    }

    /** push: whether the packet is transmitted */
    method Push(rand: nat) returns (transmit: bool)
      requires Valid()
      modifies this
      ensures Valid() && emitted == old(emitted) + [transmit]
      ensures transmit <==> rand < successProbability[old(currentState)]
    {
      transmit := rand < successProbability[currentState];
      assert (emitted + [transmit])[..|emitted|] == emitted;
      ModStep(Horner(start, emitted), stateModulo, Bit(transmit));
      currentState := ChannelStep(currentState, transmit, stateModulo);
      emitted := emitted + [transmit];
    }

    /** With a modulus of 2^k the state codes the last k outcomes as soon as there are so many, from any start. */
    lemma StateIsHistory(k: nat)
      requires Valid() && stateModulo == Pow2(k) && k <= |emitted|
      ensures currentState == Code(Latest(emitted, k)) < stateModulo
    {
      ModKeepsLatest(start, emitted, k);
    }
  }

  /** A trainer that is fed what a channel of its order sends is in the channel's state from the order-th symbol on. */
  method RunTogether(channel: Channel, trainer: Trainer, rands: seq<nat>)
    requires channel.Valid() && channel.emitted == [] && trainer.Valid() && trainer.fed == []
    requires channel.stateModulo == trainer.stateMod && trainer.order <= |rands|
    modifies channel, trainer, trainer.states
    ensures channel.Valid() && trainer.Valid() && trainer.fed == channel.emitted && |trainer.fed| == |rands|
    ensures trainer.state == channel.currentState
  {
    for i := 0 to |rands|
      invariant channel.Valid() && trainer.Valid() && trainer.fed == channel.emitted && |trainer.fed| == i
    {
      var transmit := channel.Push(rands[i]);
      trainer.AddChar(transmit);
    }
    channel.StateIsHistory(trainer.order);
    ModKeepsLatest(0, trainer.fed, trainer.order);
  }
}
