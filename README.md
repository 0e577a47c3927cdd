# Networked periodic signal quantizer

A Dafny model of `NetworkedPeriodicSignalQuantizer<T>`. This is a jitter-smoothing
buffer. A client receives server states over the network at an irregular rate and
must emit them at the fixed rate of a local periodic timer. The buffer has a FIFO of
received states and a hysteresis flag. The flag is raised when an update finds the
queue empty. Once it is raised, the buffer holds back a lone queued item instead of
emitting it. Two counters track the emit opportunities: how many there were, and how
many were missed.

The model has three modules:

- `QuantizerSpec` (`quantizer_spec.dfy`) is the state machine written as pure
  functions. `State` holds the four fields. `InitState`, `PushStep` and `UpdateStep`
  are the constructor and the two transitions. `Run` folds a sequence of `Push`/`Update`
  events and collects the emitted items. The lemmas state the properties of single
  steps and of whole runs.
- `SignalQuantizer` (`quantizer.dfy`) is the class, with the same fields updated in
  place. `Push` and `Update` are methods with `modifies this`. Each one's postcondition
  ties its new state (and, for `Update`, its result) to `PushStep`/`UpdateStep` on the
  old state. It also states the same facts directly on the fields.
  `GetMissedEmitPercentage` is a read-only function.
- `QuantizerScenarios` (`scenarios.dfy`) holds short call histories.

The periodic timer becomes the `fired` parameter of `Update`. The model assumes that
`enough_time_has_passed()` and `process_and_get_signal()` give the same answer within
one call. The invariant "missed ≤ total" depends on this assumption. What is emitted
becomes `Update`'s `Option<T>` result instead of a call into the emitter. A miss emits
nothing, and the result is `None`.

The model follows the code as written, in particular:

- The constructor pre-fills the queue with ten default-constructed items, and its
  `capacity` argument is ignored. Dafny has no default constructor for a type parameter,
  so the constructor takes that default value as `defaultItem`. As a result, the first
  emitted items are these defaults, not the first pushed item
  (`PrefilledQueueEmitsDefaultFirst`).
- The code has no initialization guard: updates before any push count opportunities
  and emit the pre-filled defaults.
- The hysteresis flag is set in one place and never cleared, even after a successful
  emission (`HysteresisIsPermanent`). It is also set on an empty queue when the timer
  did not fire.
- A miss emits nothing: `Update` returns `None`.
- Replaying any sequence of calls on one object emits exactly what `Run` predicts
  from the initial state (`ReplayCalls`), so the properties proved about `Run` hold
  of the class.

## Model

| member | source | states |
|---|---|---|
| QuantizerSpec.InitState | networked_periodic_signal_quantizer.hpp:70-71 | the initial state: exactly ten copies of the default item, the flag down, both counters zero, and so the counters consistent |
| SignalQuantizer.NetworkedPeriodicSignalQuantizer.constructor | networked_periodic_signal_quantizer.hpp:70-71 | the fields of a new object: ten default items in the queue, the flag false, both counters 0 (equal to `InitState`), and the invariant holds |
| SignalQuantizer.NetworkedPeriodicSignalQuantizer.Push | networked_periodic_signal_quantizer.hpp:84-89 | the queue becomes the old queue with the item appended; the flag and both counters are unchanged; the invariant is kept |
| QuantizerSpec.UpdateStep | networked_periodic_signal_quantizer.hpp:94-131 | total grows by one exactly when fired; missed grows by one exactly when fired and nothing emitted; it emits iff fired and the queue holds at least 1 item (at least 2 once the flag is up); emitted item + new queue = old queue (head popped, order kept); the flag is up afterwards iff it was up or the queue was empty; missed ≤ total is preserved |
| SignalQuantizer.NetworkedPeriodicSignalQuantizer.Update | networked_periodic_signal_quantizer.hpp:94-131 | the new fields and the result are those of `UpdateStep` on the old fields, with the same counter, emission, FIFO and flag facts stated on the fields; the invariant is kept |
| QuantizerSpec.UpdateOnEmptyQueue | networked_periodic_signal_quantizer.hpp:103-111 | on an empty queue: nothing emitted, queue stays empty, flag set true even when not fired, missed grows by one iff fired |
| QuantizerSpec.UpdateHoldsLastItemAfterUnderflow | networked_periodic_signal_quantizer.hpp:113-123 | with the flag up and one queued item: nothing emitted, queue and flag unchanged, missed grows by one iff fired |
| QuantizerSpec.UpdateEmitsHead | networked_periodic_signal_quantizer.hpp:125-130 | otherwise: when fired, the head is emitted and the queue loses exactly its head; when not fired, nothing is emitted and the queue is unchanged; missed and the flag are unchanged either way |
| QuantizerSpec.Run | networked_periodic_signal_quantizer.hpp:99-130 | over any sequence of calls, total grows by exactly the number of fired updates, and missed plus the number of emitted items grows by exactly that number too |
| QuantizerSpec.RunConservesItems | networked_periodic_signal_quantizer.hpp:84-130 | over any sequence of calls, the emitted items followed by the final queue equal the initial queue followed by every pushed item: nothing is lost, duplicated or reordered |
| QuantizerSpec.RunIsMonotone | networked_periodic_signal_quantizer.hpp:99-123 | over any sequence of calls, both counters never decrease, the flag never goes from true back to false, and missed ≤ total is preserved |
| QuantizerSpec.RunFromStartEmitsPrefix | networked_periodic_signal_quantizer.hpp:70-130 | from construction, the emitted items are a prefix, in order, of the ten defaults followed by the pushed items |
| QuantizerSpec.HysteresisIsPermanent | networked_periodic_signal_quantizer.hpp:109-123 | once the flag is up, any later update that finds a single queued item emits nothing, whatever happened in between |
| SignalQuantizer.NetworkedPeriodicSignalQuantizer.GetMissedEmitPercentage | networked_periodic_signal_quantizer.hpp:133-137 | 0 when total is 0; otherwise p · total = 100 · missed (exact rational arithmetic), and 0 ≤ p ≤ 100 |
| QuantizerScenarios.PrefilledQueueEmitsDefaultFirst | networked_periodic_signal_quantizer.hpp:70-130 | on a new object, after pushing x1: an update that did not fire emits nothing; the first fired update emits the default item, not x1; ten items stay queued |
| QuantizerScenarios.ReplayCalls | networked_periodic_signal_quantizer.hpp:70-130 | a new object driven by any sequence of `Push`/`Update` calls emits exactly `Run(InitState(d), evs).emitted`, and its final fields are `Run`'s final state |
| QuantizerScenarios.UnderflowThenRecovery | networked_periodic_signal_quantizer.hpp:103-130 | from a drained queue: miss on empty; then one pushed item is held back; a second push lets the older one out; the remaining single item is held back again; 4 opportunities, 3 missed |
| QuantizerScenarios.RefillWithTwoResumes | networked_periodic_signal_quantizer.hpp:113-130 | after an underflow, two pushes before the next fired update make it emit the older item and leave one queued |

## Left out

- The stopwatch that `push` presses and reads (`empirical_server_signal_stopwatch`): its results are thrown away, so it does not affect the state.
- The `PeriodicSignal` timer: the `fired` parameter stands in for it. Whether a fire is used up on the miss paths depends on the timer's internals, which are not part of this model. A caller that keeps passing `fired = true` represents a timer that keeps answering yes.
- The `SignalEmitter` sink: the emitted item is `Update`'s result.
- `ExponentialMovingAverage` and `get_average_received_server_states_size`: these are floating point and only there for observation.
- Logging (`LogSection`, `global_logger`).
- The unused fields `running_total_deque_size` and `running_deque_samples`, and the unused `capacity` constructor argument.
- SignalQuantizer.NetworkedPeriodicSignalQuantizer.GetMissedEmitPercentage: computed on exact rationals, so IEEE double rounding is not modelled.
- The counters are `size_t` in the source but unbounded naturals here, so 64-bit wrap-around is not modelled.
- The queue has no capacity limit in the source, and none in the model.
- Concurrency: the source does no locking, and the model assumes calls happen one at a time.
