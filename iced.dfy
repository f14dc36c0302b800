/**
 * Abstract tags for the two iced library values that the application hands
 * back to the runtime.  Their internals (futures, streams, recipes) are not
 * part of this model; only which command or which event source is chosen.
 */
module Iced {

  /** What `update` and `new` ask the runtime to do next. */
  datatype Command =
    | NoCommand        // nothing to do
    | PerformMidiInit  // enumerate the MIDI input ports and deliver their names as a `Loaded` message

  /** Which event source `subscription` keeps active. */
  datatype Subscription =
    | NoSubscription      // no event source
    | RuntimeEvents       // every runtime event, delivered as an `EventOccurred` message
    | Every(millis: nat)  // a timer firing every `millis` ms, delivered as a `Tick` message
}
