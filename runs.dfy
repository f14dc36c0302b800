/**
 * Properties of whole message sequences: `Run` feeds messages to `Next` in
 * arrival order, as the iced runtime feeds them to `Midiosch.Update`.
 */
module Runs {
  import opened App

  /** The application value after handling `ms` in order, starting from `a`. */
  function Run<E>(a: AppValue<E>, ms: seq<Message<E>>): AppValue<E>
    decreases |ms|
  {
    if ms == [] then a else Run(Next(a, ms[0]), ms[1..])
  }

  ghost predicate NoLoaded<E>(ms: seq<Message<E>>)
  {
    forall i :: 0 <= i < |ms| ==> !ms[i].Loaded?
  }

  /** The runtime events carried by `ms`, in arrival order. */
  function Events<E>(ms: seq<Message<E>>): seq<E>
  {
    if ms == [] then []
    else (if ms[0].EventOccurred? then [ms[0].event] else []) + Events(ms[1..])
  }

  /** The number of ticks in `ms`. */
  function Ticks<E>(ms: seq<Message<E>>): nat
  {
    if ms == [] then 0 else (if ms[0].Tick? then 1 else 0) + Ticks(ms[1..])
  }

  /** The flag carried by the last `Toggled` in `ms`, or `init` if there is none. */
  function LastToggle<E>(ms: seq<Message<E>>, init: bool): bool
  {
    if ms == [] then init
    else LastToggle(ms[1..], if ms[0].Toggled? then ms[0].enabled else init)
  }

  /** The newest `n` elements of `s` (all of `s` if it is shorter). */
  function LastN<T>(s: seq<T>, n: nat): (r: seq<T>)
    ensures |r| == Min(n, |s|)
    ensures r == s[|s| - |r|..]
  {
    if |s| <= n then s else s[|s| - n..]
  }

  /** Keeping the newest `n` before appending `y` loses nothing of the newest `n` after. */
  lemma LastNAppend<T>(x: seq<T>, y: seq<T>, n: nat)
    ensures LastN(LastN(x, n) + y, n) == LastN(x + y, n)
  {
    if |x| > n {
      var k := |x| - n;
      assert LastN(x, n) + y == (x + y)[k..];
    }
  }

  /** In Loading, the application stays Loading exactly as long as no `Loaded` arrives. */
  lemma {:induction false} LoadingWaitsForLoaded<E>(ms: seq<Message<E>>)
    ensures Run(LoadingValue, ms) == LoadingValue <==> NoLoaded(ms)
  {
    if ms != [] {
      if ms[0].Loaded? {
        LoadedIsFinal(LoadedState(ms[0].names), ms[1..]);
        assert !NoLoaded(ms) by { assert ms[0].Loaded?; }
      } else {
        LoadingWaitsForLoaded(ms[1..]);
        assert NoLoaded(ms) <==> NoLoaded(ms[1..]) by {
          if NoLoaded(ms[1..]) {
            forall i | 0 <= i < |ms| ensures !ms[i].Loaded? {
              if i > 0 { assert ms[i] == ms[1..][i - 1]; }
            }
          }
        }
      }
    }
  }

  /** The first `Loaded` message decides the port names; everything before it is ignored. */
  lemma {:induction false} FirstLoadedWins<E>(ms: seq<Message<E>>, i: nat)
    requires i < |ms| && ms[i].Loaded? && NoLoaded(ms[..i])
    ensures Run(LoadingValue, ms) == Run(LoadedValue(LoadedState(ms[i].names)), ms[i + 1..])
  {
    if i > 0 {
      assert ms[0] == ms[..i][0];
      assert ms[1..][..i - 1] == ms[..i][1..];
      assert ms[1..][i - 1] == ms[i];
      assert ms[1..][i..] == ms[i + 1..];
      FirstLoadedWins(ms[1..], i - 1);
    }
  }

  /** Once loaded, no message sequence returns to Loading, nor edits the port names or the OSC port. */
  lemma {:induction false} LoadedIsFinal<E>(s: StateValue<E>, ms: seq<Message<E>>)
    ensures Run(LoadedValue(s), ms).LoadedValue?
    ensures Run(LoadedValue(s), ms).state.midiPortNames == s.midiPortNames
    ensures Run(LoadedValue(s), ms).state.oscPort == s.oscPort
    decreases |ms|
  {
    if ms != [] {
      LoadedIsFinal(Next(LoadedValue(s), ms[0]).state, ms[1..]);
    }
  }

  /** The event window holds the newest WINDOW_SIZE runtime events received since loading, oldest first. */
  lemma {:induction false} WindowKeepsNewestEvents<E>(s: StateValue<E>, ms: seq<Message<E>>)
    requires |s.last| <= WINDOW_SIZE
    ensures Run(LoadedValue(s), ms).LoadedValue?
    ensures Run(LoadedValue(s), ms).state.last == LastN(s.last + Events(ms), WINDOW_SIZE)
    decreases |ms|
  {
    if ms == [] {
      assert s.last + Events(ms) == s.last;
    } else {
      var m, rest := ms[0], ms[1..];
      var head: seq<E> := if m.EventOccurred? then [m.event] else [];
      var s' := Next(LoadedValue(s), m).state;
      assert s'.last == if m.EventOccurred? then Window(s.last, m.event) else s.last;
      WindowStep(s.last, m, Events(rest));
      WindowKeepsNewestEvents(s', rest);
      assert Next(LoadedValue(s), m) == LoadedValue(s');
      assert Run(LoadedValue(s), ms) == Run(LoadedValue(s'), rest);
      assert Events(ms) == head + Events(rest);
    }
  }

  /** One message's effect on the window, seen through LastN. */
  lemma WindowStep<E>(last: seq<E>, m: Message<E>, rest: seq<E>)
    requires |last| <= WINDOW_SIZE
    ensures var last' := if m.EventOccurred? then Window(last, m.event) else last;
      |last'| <= WINDOW_SIZE &&
      LastN(last' + rest, WINDOW_SIZE)
        == LastN(last + ((if m.EventOccurred? then [m.event] else []) + rest), WINDOW_SIZE)
  {
    if m.EventOccurred? {
      assert Window(last, m.event) == LastN(last + [m.event], WINDOW_SIZE);
      LastNAppend(last + [m.event], rest, WINDOW_SIZE);
      assert last + [m.event] + rest == last + ([m.event] + rest);
    } else {
      assert last == LastN(last, WINDOW_SIZE);
      assert [] + rest == rest;
    }
  }

  /** Every state reachable from `Midiosch::new` keeps at most WINDOW_SIZE events. */
  lemma {:induction false} ReachableWindowBounded<E>(ms: seq<Message<E>>)
    ensures Run(LoadingValue, ms).LoadedValue? ==> |Run(LoadingValue, ms).state.last| <= WINDOW_SIZE
  {
    if ms != [] {
      if ms[0].Loaded? {
        WindowKeepsNewestEvents(LoadedState<E>(ms[0].names), ms[1..]);
      } else {
        ReachableWindowBounded(ms[1..]);
      }
    }
  }

  /** Since loading, `inputsCount` has counted every tick, modulo 2^32. */
  lemma {:induction false} TicksCounted<E>(s: StateValue<E>, ms: seq<Message<E>>)
    ensures Run(LoadedValue(s), ms).LoadedValue?
    ensures Run(LoadedValue(s), ms).state.inputsCount as int == (s.inputsCount as int + Ticks(ms)) % U32_MODULUS
    decreases |ms|
  {
    if ms != [] {
      TicksCounted(Next(LoadedValue(s), ms[0]).state, ms[1..]);
    }
  }

  /** Since loading, `enabled` is the flag of the last `Toggled`, or unchanged if there was none. */
  lemma {:induction false} EnabledIsLastToggle<E>(s: StateValue<E>, ms: seq<Message<E>>)
    ensures Run(LoadedValue(s), ms).LoadedValue?
    ensures Run(LoadedValue(s), ms).state.enabled == LastToggle(ms, s.enabled)
    decreases |ms|
  {
    if ms != [] {
      EnabledIsLastToggle(Next(LoadedValue(s), ms[0]).state, ms[1..]);
    }
  }

  /** The last `Toggled` message, found by index, decides the result of `LastToggle`. */
  lemma {:induction false} LastToggleAt<E>(ms: seq<Message<E>>, init: bool, j: nat)
    requires j < |ms| && ms[j].Toggled?
    requires forall k :: j < k < |ms| ==> !ms[k].Toggled?
    ensures LastToggle(ms, init) == ms[j].enabled
    decreases |ms|
  {
    var init' := if ms[0].Toggled? then ms[0].enabled else init;
    if j == 0 {
      LastToggleNone(ms[1..], init');
    } else {
      assert ms[1..][j - 1] == ms[j];
      forall k | j - 1 < k < |ms| - 1 ensures !ms[1..][k].Toggled? {
        assert ms[1..][k] == ms[k + 1];
      }
      LastToggleAt(ms[1..], init', j - 1);
    }
  }

  /** Without any `Toggled` message, `LastToggle` keeps its initial flag. */
  lemma {:induction false} LastToggleNone<E>(ms: seq<Message<E>>, init: bool)
    requires forall k :: 0 <= k < |ms| ==> !ms[k].Toggled?
    ensures LastToggle(ms, init) == init
    decreases |ms|
  {
    if ms != [] {
      forall k | 0 <= k < |ms| - 1 ensures !ms[1..][k].Toggled? {
        assert ms[1..][k] == ms[k + 1];
      }
      LastToggleNone(ms[1..], init);
    }
  }

  /** Since loading, if `ms[j]` is the last `Toggled` message, `enabled` is the flag it carried. */
  lemma EnabledFollowsLastToggled<E>(s: StateValue<E>, ms: seq<Message<E>>, j: nat)
    requires j < |ms| && ms[j].Toggled?
    requires forall k :: j < k < |ms| ==> !ms[k].Toggled?
    ensures Run(LoadedValue(s), ms).LoadedValue?
    ensures Run(LoadedValue(s), ms).state.enabled == ms[j].enabled
  {
    EnabledIsLastToggle(s, ms);
    LastToggleAt(ms, s.enabled, j);
  }

  /** Since loading, a message sequence without `Toggled` leaves `enabled` as it was. */
  lemma EnabledUnchangedWithoutToggle<E>(s: StateValue<E>, ms: seq<Message<E>>)
    requires forall k :: 0 <= k < |ms| ==> !ms[k].Toggled?
    ensures Run(LoadedValue(s), ms).LoadedValue?
    ensures Run(LoadedValue(s), ms).state.enabled == s.enabled
  {
    EnabledIsLastToggle(s, ms);
    LastToggleNone(ms, s.enabled);
  }
}
