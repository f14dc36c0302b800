# midiosch application state machine, in Dafny

This project models the core of the midiosch GUI prototype (`src/main.rs`): the iced
`Application` whose state is either `Loading` or `Loaded(State)`.

- **Loading** waits for the list of MIDI input port names. `Application::new` starts here and asks
  the runtime to enumerate the ports. The runtime delivers the names as `Message::Loaded`.
- **Loaded** owns a `State` record. Later messages edit that record in place:
  - `EventOccurred(e)` appends `e` to a window of the last 5 runtime events, dropping the oldest;
  - `Toggled(b)` sets `enabled`;
  - `Tick(_)` increments the `u32` counter `inputsCount`;
  - a repeated `Loaded(_)` is ignored.
- `subscription` picks the active event source: none while loading, runtime events when `enabled`,
  and a tick every 1000 ms otherwise.

Files:

- `iced.dfy` (module `Iced`): the library's `Command` and `Subscription` values as abstract tags.
- `app.dfy` (module `App`):
  - the message and state types;
  - the pure step function `Next` on application values;
  - the classes `State` and `Midiosch`. `Midiosch.Update` edits them in place and is proved to agree
    with `Next`.
- `runs.dfy` (module `Runs`): `Run` folds `Next` over a message sequence, in arrival order. Lemmas
  state what any message sequence does.

The runtime's event type `iced_native::Event` is the type parameter `E`. The `Instant` carried by a
tick is an opaque number that the application never reads.

This early prototype does not decode MIDI messages or send OSC; only the application state machine
of `src/main.rs` is modelled.

## Model

| member | source | states |
|---|---|---|
| `App.LoadedState` | src/main.rs:61-66 | the record built on the first `Loaded(inputs)` stores `inputs` as the port names, has `enabled` off, and has every other field at its default: no events, counter 0, OSC port 0 |
| `App.Window` | src/main.rs:75-79 | pushing an event and dropping the front element when the window exceeds 5 always gives a suffix of `last + [e]`; from a window of at most 5 it gives the newest min(5, length of last + 1) elements |
| `App.WrappingIncrement` | src/main.rs:85-87 | the `u32` increment is `(c + 1) mod 2^32`, which is exactly `c + 1` below the maximum |
| `App.Next` | src/main.rs:57-93 | Loading ignores every message but `Loaded`, which switches to the loaded record; Loaded never returns to Loading; port names and OSC port never change; `last` changes only on `EventOccurred`, `enabled` only on `Toggled` (to the carried flag), `inputsCount` only on `Tick` (by one, wrapping); a repeated `Loaded` is a no-op |
| `App.State.constructor` | src/main.rs:62-66 | a new `State` object holds the record built from the port names |
| `App.Midiosch.New` | src/main.rs:46-51 | the application starts in Loading, and the command it returns asks for the MIDI port enumeration |
| `App.Midiosch.Update` | src/main.rs:57-93 | the in-place update leaves the application in the state that `Next` gives; it always returns `Command::none()`; in Loaded it edits the owned `State` object and never replaces it |
| `App.Midiosch.Subscription` | src/main.rs:95-106 | no subscription exactly while Loading; runtime events exactly when Loaded with `enabled`; a tick every 1000 ms exactly when Loaded without `enabled` |
| `Runs.LoadingWaitsForLoaded` | src/main.rs:59-69 | from Loading, a message sequence leaves the application in Loading if and only if it contains no `Loaded` |
| `Runs.FirstLoadedWins` | src/main.rs:59-69 | the first `Loaded` message fixes the loaded record; every message before it is discarded |
| `Runs.LoadedIsFinal` | src/main.rs:73-91 | once Loaded, no message sequence returns to Loading or changes the port names or the OSC port |
| `Runs.WindowKeepsNewestEvents` | src/main.rs:75-79 | after any message sequence in Loaded, `last` holds the newest 5 runtime events received, oldest first |
| `Runs.ReachableWindowBounded` | src/main.rs:46-93 | every state reachable from `new` keeps at most 5 events |
| `Runs.TicksCounted` | src/main.rs:85-87 | after any message sequence in Loaded, `inputsCount` has grown by the number of ticks, modulo 2^32 |
| `Runs.EnabledFollowsLastToggled` | src/main.rs:81-83 | after any message sequence in Loaded, if `ms[j]` is a `Toggled` and no later message is, `enabled` is the flag `ms[j]` carried |
| `Runs.EnabledUnchangedWithoutToggle` | src/main.rs:81-83 | after any message sequence in Loaded that holds no `Toggled`, `enabled` is unchanged |
| `Runs.EnabledIsLastToggle` | src/main.rs:81-83 | after any message sequence in Loaded, `enabled` is the flag of the last `Toggled`, or unchanged if none came |

## Left out

- `App.WrappingIncrement`: `inputsCount + 1` wraps to 0 at the `u32` maximum, as in a release build. A debug build panics there instead, and that panic is not modelled. At one tick per second the counter needs about 136 years to overflow.
- `title`, `view` and `loading_message` (src/main.rs:53-55, 108-166): widget layout and rendering, with nothing to verify beyond a constant title string.
- `midiInit` (src/main.rs:169-183): port enumeration through the foreign `midir` library. The names it supplies arrive as the argument of `Message::Loaded`.
- `midi::every` (src/main.rs:189-224): an asynchronous timer stream and the hashing of its recipe identity. It appears only as the tag `Every(1000)`.
- `main`, `Settings` and `Application::run` (src/main.rs:13-15): the iced runtime that delivers messages. `Runs.Run` stands for the runtime delivering messages one at a time, in arrival order.
- The `Debug`/`Clone`/`Default` derives: `State::default()` appears only through the defaults in `App.LoadedState`.
