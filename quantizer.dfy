/** The jitter-smoothing buffer as an object whose fields are updated in place.

    Each method is specified by the matching transition of `QuantizerSpec`;
    `QuantizerScenarios.ReplayCalls` shows that a sequence of calls on one
    object therefore behaves as `QuantizerSpec.Run` says. The periodic
    timer's answer for a call to `Update` is its `fired` parameter; what is emitted is the method's result instead of a
    call into an emission sink.
 */
module SignalQuantizer {
  import opened QuantizerSpec

  class NetworkedPeriodicSignalQuantizer<T> {
    var receivedServerStates: seq<T>
    var wasEmptyOnLastUpdate: bool
    var totalEmitOpportunities: nat
    var missedEmitOpportunities: nat

    /** The object invariant: misses are a subset of opportunities. */
    ghost predicate Valid()
      reads this
    {
      missedEmitOpportunities <= totalEmitOpportunities
    }

    /** The abstract value of the object. */
    function Model(): State<T>
      reads this
    {
      State(receivedServerStates, wasEmptyOnLastUpdate,
            totalEmitOpportunities, missedEmitOpportunities)
    }

    /** The queue starts out holding ten copies of the item type's default
        value, `defaultItem`; the flag is down and both counters are zero. */
    constructor (defaultItem: T)
      ensures Valid()
      ensures Model() == InitState(defaultItem)
      ensures |receivedServerStates| == InitialFill
      ensures forall i :: 0 <= i < |receivedServerStates| ==> receivedServerStates[i] == defaultItem
      ensures !wasEmptyOnLastUpdate
      ensures totalEmitOpportunities == 0 && missedEmitOpportunities == 0
    {
      receivedServerStates := seq(InitialFill, _ => defaultItem);
      wasEmptyOnLastUpdate := false;
      totalEmitOpportunities := 0;
      missedEmitOpportunities := 0;
    }

    /** Append an item at the tail; the flag and the counters are untouched. */
    method Push(item: T)
      requires Valid()
      modifies this
      ensures Valid()
      ensures Model() == PushStep(old(Model()), item)
      ensures receivedServerStates == old(receivedServerStates) + [item]
      ensures wasEmptyOnLastUpdate == old(wasEmptyOnLastUpdate)
      ensures totalEmitOpportunities == old(totalEmitOpportunities)
      ensures missedEmitOpportunities == old(missedEmitOpportunities)
    {
      receivedServerStates := receivedServerStates + [item];
    }

    /** One periodic call. `fired` is the timer's answer, taken to be the same
        for every question the call asks it. Early returns follow the branch
        order of the C++ `update`: empty queue, then hysteresis, then emission. */
    method Update(fired: bool) returns (emitted: Option<T>)
      requires Valid()
      modifies this
      ensures Valid()
      ensures Model() == UpdateStep(old(Model()), fired).state
      ensures emitted == UpdateStep(old(Model()), fired).emitted
      ensures totalEmitOpportunities == old(totalEmitOpportunities) + Count(fired)
      ensures missedEmitOpportunities == old(missedEmitOpportunities) + Count(fired && emitted.None?)
      ensures emitted.Some? <==>
                fired && |old(receivedServerStates)| >= (if old(wasEmptyOnLastUpdate) then 2 else 1)
      ensures AsSeq(emitted) + receivedServerStates == old(receivedServerStates)
      ensures wasEmptyOnLastUpdate <==> old(wasEmptyOnLastUpdate) || old(receivedServerStates) == []
    {
      emitted := None;
      if fired {
        totalEmitOpportunities := totalEmitOpportunities + 1;
      }

      if receivedServerStates == [] {
        if fired {
          missedEmitOpportunities := missedEmitOpportunities + 1;
        }
        wasEmptyOnLastUpdate := true;
        return;
      }

      // after an underflow, wait for a second item before emitting again
      if wasEmptyOnLastUpdate && |receivedServerStates| < 2 {
        if fired {
          missedEmitOpportunities := missedEmitOpportunities + 1;
        }
        return;
      }

      if fired {
        emitted := Some(receivedServerStates[0]);
        receivedServerStates := receivedServerStates[1..];
      }
    }

    /** The share of opportunities that were missed, as a percentage: zero
        before the first opportunity, otherwise 100 * missed / total, which
        the invariant keeps within 0 to 100. */
    function GetMissedEmitPercentage(): (p: real)
      reads this
      requires Valid()
      ensures totalEmitOpportunities == 0 ==> p == 0.0
      ensures totalEmitOpportunities > 0 ==>
                p * (totalEmitOpportunities as real) == 100.0 * (missedEmitOpportunities as real)
      ensures 0.0 <= p <= 100.0
    {
      if totalEmitOpportunities == 0 then 0.0
      else (missedEmitOpportunities as real) * 100.0 / (totalEmitOpportunities as real)
    }
  }
}
