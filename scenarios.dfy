/** Worked call sequences: what the quantizer does on a few short histories. */
module QuantizerScenarios {
  import opened QuantizerSpec
  import opened SignalQuantizer

  /** The queue starts pre-filled, so the first item pushed is not the first
      one emitted: a fresh quantizer emits a default item on its first fired
      update, and an update whose timer did not fire emits nothing. */
  method PrefilledQueueEmitsDefaultFirst<T>(defaultItem: T, x1: T)
    returns (quiet: Option<T>, first: Option<T>, queued: nat)
    ensures quiet == None
    ensures first == Some(defaultItem)
    ensures queued == InitialFill
  {
    var q := new NetworkedPeriodicSignalQuantizer(defaultItem);
    q.Push(x1);
    quiet := q.Update(false);
    first := q.Update(true);
    queued := |q.receivedServerStates|;
  }

  /** Drive a new object with any sequence of calls: what it emits, in order,
      and where it ends up are what `Run` gives from the initial state. */
  method ReplayCalls<T>(defaultItem: T, evs: seq<Event<T>>)
    returns (out: seq<T>, final: State<T>)
    ensures out == Run(InitState(defaultItem), evs).emitted
    ensures final == Run(InitState(defaultItem), evs).state
  {
    var q := new NetworkedPeriodicSignalQuantizer(defaultItem);
    ghost var whole := Run(InitState(defaultItem), evs);
    out := [];
    var i := 0;
    while i < |evs|
      invariant 0 <= i <= |evs|
      invariant q.Valid()
      invariant out + Run(q.Model(), evs[i..]).emitted == whole.emitted
      invariant Run(q.Model(), evs[i..]).state == whole.state
    {
      ghost var before := q.Model();
      var e := Apply(q, evs[i]);
      RunAfterStep(before, evs[i..], out, whole);
      assert evs[i..][1..] == evs[i + 1..];
      out := out + AsSeq(e);
      i := i + 1;
    }
    assert evs[i..] == [];
    final := q.Model();
  }

  /** One call on the object, of whichever kind the event says. */
  method Apply<T>(q: NetworkedPeriodicSignalQuantizer<T>, ev: Event<T>) returns (e: Option<T>)
    requires q.Valid()
    modifies q
    ensures q.Valid()
    ensures q.Model() == Step(old(q.Model()), ev).state
    ensures e == Step(old(q.Model()), ev).emitted
  {
    e := None;
    if ev.Push? {
      q.Push(ev.item);
    } else {
      e := q.Update(ev.fired);
    }
  }

  /** The loop step of `ReplayCalls`: moving one call from the pending events
      to the emitted prefix keeps the prediction of `Run`. */
  lemma RunAfterStep<T>(s: State<T>, evs: seq<Event<T>>, out: seq<T>, whole: Trace<T>)
    requires evs != []
    requires out + Run(s, evs).emitted == whole.emitted
    requires Run(s, evs).state == whole.state
    ensures var o := Step(s, evs[0]);
      && (out + AsSeq(o.emitted)) + Run(o.state, evs[1..]).emitted == whole.emitted
      && Run(o.state, evs[1..]).state == whole.state
  {
    var o := Step(s, evs[0]);
    RunUnfolds(s, evs);
    assert out + (AsSeq(o.emitted) + Run(o.state, evs[1..]).emitted)
        == (out + AsSeq(o.emitted)) + Run(o.state, evs[1..]).emitted;
  }

  /** Underflow and recovery, starting from a drained queue with the flag down:
      a fired update on the empty queue is a miss and raises the flag; one
      pushed item is then held back; a second one lets the older of the two
      out; and the remaining single item is held back again, because the flag
      stays raised. */
  lemma UnderflowThenRecovery<T>(s0: State<T>, x2: T, x3: T)
    requires s0.queue == [] && !s0.wasEmptyOnLastUpdate
    ensures var o1 := UpdateStep(s0, true);
      var o2 := UpdateStep(PushStep(o1.state, x2), true);
      var o3 := UpdateStep(PushStep(o2.state, x3), true);
      var o4 := UpdateStep(o3.state, true);
      && o1.emitted == None && o1.state.wasEmptyOnLastUpdate
      && o2.emitted == None && o2.state.queue == [x2]
      && o3.emitted == Some(x2) && o3.state.queue == [x3]
      && o4.emitted == None && o4.state.queue == [x3]
      && o4.state.totalEmitOpportunities == s0.totalEmitOpportunities + 4
      && o4.state.missedEmitOpportunities == s0.missedEmitOpportunities + 3
  {
  }

  /** Two items pushed right after an underflow: the next fired update emits
      the older one and leaves one queued. */
  lemma RefillWithTwoResumes<T>(s0: State<T>, x2: T, x3: T)
    requires s0.queue == []
    ensures var o1 := UpdateStep(s0, true);
      var o2 := UpdateStep(PushStep(PushStep(o1.state, x2), x3), true);
      && o1.emitted == None
      && o2.emitted == Some(x2) && o2.state.queue == [x3]
      && o2.state.missedEmitOpportunities == s0.missedEmitOpportunities + 1
  {
  }
}
