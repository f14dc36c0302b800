/**
 * The application state machine of the midiosch GUI prototype.
 *
 * The application is either `Loading` (waiting for the list of MIDI input
 * port names) or `Loaded` with a `State` record that later messages edit in
 * place.  `E` stands for the runtime's opaque `iced_native::Event` type.
 *
 * The module has two layers:
 *  - values (`StateValue`, `AppValue`) and the pure step function `Next`,
 *    which say what one message does;
 *  - the classes `State` and `Midiosch`, whose `Update` method edits the
 *    objects in place and is proved to agree with `Next`.
 */
module App {
  import opened Iced

  newtype u16 = x: int | 0 <= x < 0x1_0000
  newtype u32 = x: int | 0 <= x < 0x1_0000_0000

  const U32_MAX: int := 0xFFFF_FFFF
  const U32_MODULUS: int := 0x1_0000_0000

  /** How many recent runtime events `State.last` keeps. */
  const WINDOW_SIZE: nat := 5

  /** Period of the tick subscription while runtime events are not listened to. */
  const TICK_PERIOD_MILLIS: nat := 1000

  type PortNames = seq<string>

  datatype Message<E> =
    | EventOccurred(event: E)
    | Toggled(enabled: bool)
    | Loaded(names: PortNames)
    | Tick(instant: nat)  // the `Instant` is carried but never read

  /** The value of a `State` record. */
  datatype StateValue<E> = StateValue(
    last: seq<E>,
    enabled: bool,
    inputsCount: u32,
    midiPortNames: PortNames,
    oscPort: u16)

  /** The value of the whole application: still loading, or loaded with a state record. */
  datatype AppValue<E> = LoadingValue | LoadedValue(state: StateValue<E>)

  function Min(a: int, b: int): int { if a <= b then a else b }

  /** The default record: every field at its type's default. */
  function DefaultState<E>(): StateValue<E>
  {
    StateValue([], false, 0, [], 0)
  }

  /** The record built when the port names arrive: `enabled` off, the names stored, the rest default. */
  function LoadedState<E>(inputs: PortNames): (s: StateValue<E>)
    ensures s.midiPortNames == inputs && !s.enabled
    ensures s.last == [] && s.inputsCount == 0 && s.oscPort == 0
  {
    DefaultState().(enabled := false, midiPortNames := inputs)
  }

  /**
   * Push `e` onto the event window, then drop the front element if the
   * window has grown beyond WINDOW_SIZE.  The result is always a suffix of
   * `last + [e]`; from a window within bounds it is the newest
   * min(WINDOW_SIZE, |last| + 1) elements.
   */
  function Window<E>(last: seq<E>, e: E): (r: seq<E>)
    ensures |r| == if |last| < WINDOW_SIZE then |last| + 1 else |last|
    ensures r == (last + [e])[|last| + 1 - |r|..]
    ensures |last| <= WINDOW_SIZE ==> |r| == Min(WINDOW_SIZE, |last| + 1)
  {
    var pushed := last + [e];
    if |pushed| > WINDOW_SIZE then pushed[1..] else pushed
  }

  /** `u32` addition of one, wrapping to 0 past the maximum (release-build semantics). */
  function WrappingIncrement(c: u32): (r: u32)
    ensures r as int == (c as int + 1) % U32_MODULUS
    ensures c as int < U32_MAX ==> r as int == c as int + 1
  {
    if c as int == U32_MAX then 0 else c + 1
  }

  /**
   * The effect of one message on the application value.  Stated field by
   * field: which phase follows, and for each field of the loaded state
   * which message (if any) changes it.
   */
  function Next<E>(a: AppValue<E>, m: Message<E>): (r: AppValue<E>)
    // Loading: only Loaded(names) has an effect, and it switches phase
    ensures a.LoadingValue? ==> r == if m.Loaded? then LoadedValue(LoadedState(m.names)) else a
    // Loaded is final, and port names and OSC port are never edited there
    ensures a.LoadedValue? ==> r.LoadedValue?
    ensures a.LoadedValue? ==> r.state.midiPortNames == a.state.midiPortNames
    ensures a.LoadedValue? ==> r.state.oscPort == a.state.oscPort
    // each remaining field is changed by exactly one kind of message
    ensures a.LoadedValue? ==>
      r.state.last == if m.EventOccurred? then Window(a.state.last, m.event) else a.state.last
    ensures a.LoadedValue? ==>
      r.state.enabled == if m.Toggled? then m.enabled else a.state.enabled
    ensures a.LoadedValue? ==>
      r.state.inputsCount == if m.Tick? then WrappingIncrement(a.state.inputsCount) else a.state.inputsCount
    // a repeated Loaded is ignored
    ensures a.LoadedValue? && m.Loaded? ==> r == a
  {
    match a
    case LoadingValue =>
      if m.Loaded? then LoadedValue(LoadedState(m.names)) else a
    case LoadedValue(s) =>
      match m
      case EventOccurred(e) => LoadedValue(s.(last := Window(s.last, e)))
      case Toggled(b) => LoadedValue(s.(enabled := b))
      case Loaded(_) => a
      case Tick(_) => LoadedValue(s.(inputsCount := WrappingIncrement(s.inputsCount)))
  }

  /** The `State` record, edited in place by `Midiosch.Update`. */
  class State<E> {
    var last: seq<E>
    var enabled: bool
    var inputsCount: u32
    var midiPortNames: PortNames
    var oscPort: u16

    ghost function Value(): StateValue<E>
      reads this
    {
      StateValue(last, enabled, inputsCount, midiPortNames, oscPort)
    }

    /** The default record with the port names stored and `enabled` off. */
    constructor (inputs: PortNames)
      ensures Value() == LoadedState(inputs)
    {
      last := [];
      enabled := false;
      inputsCount := 0;
      midiPortNames := inputs;
      oscPort := 0;
    }
  }

  datatype Phase<E> = Loading | Loaded(state: State<E>)

  /** The application object: its phase, and in the loaded phase the state it owns. */
  class Midiosch<E> {
    var phase: Phase<E>

    ghost function Repr(): set<object>
      reads this
    {
      if phase.Loaded? then {this, phase.state} else {this}
    }

    ghost function View(): AppValue<E>
      reads Repr()
    {
      match phase
      case Loading => LoadingValue
      case Loaded(s) => LoadedValue(s.Value())
    }

    constructor ()
      ensures View() == LoadingValue
    {
      phase := Loading;
    }

    /** `Application::new`: start in Loading and ask the runtime to enumerate the MIDI ports. */
    static method New() returns (app: Midiosch<E>, cmd: Command)
      ensures fresh(app) && app.View() == LoadingValue
      ensures cmd == PerformMidiInit
    {
      app := new Midiosch();
      cmd := PerformMidiInit;
    }

    /**
     * `Application::update`.  In Loading, `Loaded(inputs)` overwrites the
     * whole application with a fresh loaded state; in Loaded, the owned
     * `State` object is edited in place and never replaced.
     */
    method Update(m: Message<E>) returns (cmd: Command)
      modifies Repr()
      ensures View() == Next(old(View()), m)
      ensures cmd == NoCommand
      ensures old(phase).Loaded? ==> phase == old(phase)
      ensures old(phase).Loading? && phase.Loaded? ==> fresh(phase.state)
    {
      match phase {
        case Loading =>
          if m.Loaded? {
            var s := new State(m.names);
            phase := Phase.Loaded(s);
          }
        case Loaded(s) =>
          match m {
            case EventOccurred(e) =>
              s.last := s.last + [e];
              if |s.last| > WINDOW_SIZE {
                s.last := s.last[1..];
              }
            case Toggled(b) =>
              s.enabled := b;
            case Loaded(_) =>
            case Tick(_) =>
              s.inputsCount := WrappingIncrement(s.inputsCount);
          }
      }
      cmd := NoCommand;
    }

    /** `Application::subscription`: the event source selected by the phase and the `enabled` flag. */
    function Subscription(): (r: Iced.Subscription)
      reads Repr()
      ensures r == NoSubscription <==> View().LoadingValue?
      ensures r == RuntimeEvents <==> View().LoadedValue? && View().state.enabled
      ensures r == Every(TICK_PERIOD_MILLIS) <==> View().LoadedValue? && !View().state.enabled
    {
      match phase
      case Loading => NoSubscription
      case Loaded(s) => if s.enabled then RuntimeEvents else Every(TICK_PERIOD_MILLIS)
    }
  }
}
