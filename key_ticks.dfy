/**
 * The edge detector at the heart of a key handler, as values: what one tick
 * does to the remembered key state and which callback it fires, and what a
 * whole series of ticks does. The handler class in KeyBindingRegistry is
 * proved against `Tick`; the lemmas here state the press, release and repeat
 * behaviour over arbitrary series of ticks.
 */
module KeyTicks {

  /** The set of tick types a tick fired for. The handler never inspects it,
      only passes it on, so the enum's members are represented by ordinals. */
  type TickTypes = set<nat>

  /** A callback the handler fires: `KeyDown` with its `isRepeat` argument,
      or `KeyUp`. Both carry the tick types and whether the tick was an end tick. */
  datatype Event =
    | KeyDown(types: TickTypes, tickEnd: bool, isRepeat: bool)
    | KeyUp(types: TickTypes, tickEnd: bool)

  /** One tick as the handler sees it: the tick types, start or end, and
      whether the bound key is held. */
  datatype TickInput = TickInput(types: TickTypes, tickEnd: bool, state: bool)

  /** A value that may be missing. */
  datatype Option<T> = None | Some(value: T)

  /** The remembered key state after some ticks and the callbacks they fired. */
  datatype Outcome = Outcome(keyDown: bool, emitted: seq<Event>)

  /** One tick of the edge detector, from the remembered state `keyDown`.
      A changed state, or a held key on a repeating handler, fires exactly one
      callback; `isRepeat` is passed as "the state changed", so it is true on
      the first tick of a press and false on the repeats. */
  function Tick(keyDown: bool, repeating: bool, t: TickInput): (r: Outcome)
    ensures r.keyDown == t.state
    ensures |r.emitted| <= 1
    ensures r.emitted == [KeyUp(t.types, t.tickEnd)] <==> keyDown && !t.state
    ensures r.emitted == [KeyDown(t.types, t.tickEnd, !keyDown)] <==> t.state && (!keyDown || repeating)
    ensures r.emitted == [] <==> t.state == keyDown && !(t.state && repeating)
  {
    if t.state != keyDown || (t.state && repeating) then
      Outcome(t.state,
              if t.state then [KeyDown(t.types, t.tickEnd, t.state != keyDown)]
              else [KeyUp(t.types, t.tickEnd)])
    else
      Outcome(keyDown, [])
  }

  /** A series of ticks from the remembered state `keyDown`: the final state
      and every callback, in order. At most one callback fires per tick. */
  function Run(keyDown: bool, repeating: bool, inputs: seq<TickInput>): (r: Outcome)
    ensures |r.emitted| <= |inputs|
    decreases |inputs|
  {
    if inputs == [] then
      Outcome(keyDown, [])
    else
      var first := Tick(keyDown, repeating, inputs[0]);
      var rest := Run(first.keyDown, repeating, inputs[1..]);
      Outcome(rest.keyDown, first.emitted + rest.emitted)
  }

  /** One more tick after a series is one more `Tick` from the series' final
      state: a handler whose every tick keeps to `Tick` has, after any number
      of ticks, the state and the callback log `Run` gives. */
  lemma {:induction false} RunSnoc(keyDown: bool, repeating: bool, inputs: seq<TickInput>, t: TickInput)
    ensures var before := Run(keyDown, repeating, inputs);
            var step := Tick(before.keyDown, repeating, t);
            Run(keyDown, repeating, inputs + [t]) == Outcome(step.keyDown, before.emitted + step.emitted)
    decreases |inputs|
  {
    if inputs != [] {
      assert (inputs + [t])[0] == inputs[0];
      assert (inputs + [t])[1..] == inputs[1..] + [t];
      RunSnoc(Tick(keyDown, repeating, inputs[0]).keyDown, repeating, inputs[1..], t);
    }
  }

  /** After a series of ticks the remembered state is the state observed on
      the last tick, or the initial state if there was none. */
  lemma {:induction false} RunEndsInLastState(keyDown: bool, repeating: bool, inputs: seq<TickInput>)
    ensures Run(keyDown, repeating, inputs).keyDown ==
            if inputs == [] then keyDown else inputs[|inputs| - 1].state
    decreases |inputs|
  {
    if inputs != [] {
      RunEndsInLastState(Tick(keyDown, repeating, inputs[0]).keyDown, repeating, inputs[1..]);
    }
  }

  /** Every tick of the series observes the key held. */
  predicate AllHeld(inputs: seq<TickInput>)
  {
    forall i :: 0 <= i < |inputs| ==> inputs[i].state
  }

  /** A held key on a handler that does not repeat fires nothing after the
      first tick of the press: the log stays empty and the state stays down. */
  lemma {:induction false} HeldWithoutRepeatIsSilent(inputs: seq<TickInput>)
    requires AllHeld(inputs)
    ensures Run(true, false, inputs) == Outcome(true, [])
  {
    if inputs != [] {
      assert inputs[0].state;
      HeldWithoutRepeatIsSilent(inputs[1..]);
    }
  }

  /** A held key on a repeating handler fires one `KeyDown` per tick, with
      the tick's own types and end flag; `isRepeat` is true on the first one
      only, and only if the key was up before the series. */
  lemma {:induction false} HeldWithRepeatFiresEveryTick(keyDown: bool, inputs: seq<TickInput>)
    requires AllHeld(inputs)
    ensures var r := Run(keyDown, true, inputs);
            |r.emitted| == |inputs| &&
            forall i :: 0 <= i < |inputs| ==>
              r.emitted[i] == KeyDown(inputs[i].types, inputs[i].tickEnd, i == 0 && !keyDown)
    decreases |inputs|
  {
    if inputs != [] {
      HeldWithRepeatFiresEveryTick(true, inputs[1..]);
      var r := Run(keyDown, true, inputs);
      var rest := Run(true, true, inputs[1..]);
      assert r.emitted == [KeyDown(inputs[0].types, inputs[0].tickEnd, !keyDown)] + rest.emitted;
      forall i | 0 <= i < |inputs|
        ensures r.emitted[i] == KeyDown(inputs[i].types, inputs[i].tickEnd, i == 0 && !keyDown)
      {
        if i > 0 {
          assert r.emitted[i] == rest.emitted[i - 1];
          assert inputs[1..][i - 1] == inputs[i];
        }
      }
    }
  }

  /** What a callback means, reading `isRepeat` as the code sets it: set on
      the first tick of a press, clear on a repeat (the reverse of the name). */
  datatype Kind = FirstPress | RepeatPress | Release

  function KindOf(e: Event): Kind
  {
    match e
    case KeyDown(_, _, isRepeat) => if isRepeat then FirstPress else RepeatPress
    case KeyUp(_, _) => Release
  }

  /** How many callbacks of a kind a log holds. */
  function Count(events: seq<Event>, k: Kind): nat
  {
    if events == [] then 0
    else (if KindOf(events[0]) == k then 1 else 0) + Count(events[1..], k)
  }

  lemma {:induction false} CountAppend(a: seq<Event>, b: seq<Event>, k: Kind)
    ensures Count(a + b, k) == Count(a, k) + Count(b, k)
  {
    if a == [] {
      assert a + b == b;
    } else {
      assert (a + b)[0] == a[0];
      assert (a + b)[1..] == a[1..] + b;
      CountAppend(a[1..], b, k);
    }
  }

  /** The number of up-to-down changes of the observed state in a series of
      ticks, starting from `keyDown`. */
  function Presses(keyDown: bool, inputs: seq<TickInput>): nat
    decreases |inputs|
  {
    if inputs == [] then 0
    else (if !keyDown && inputs[0].state then 1 else 0) + Presses(inputs[0].state, inputs[1..])
  }

  /** The number of down-to-up changes of the observed state in a series of
      ticks, starting from `keyDown`. */
  function Releases(keyDown: bool, inputs: seq<TickInput>): nat
    decreases |inputs|
  {
    if inputs == [] then 0
    else (if keyDown && !inputs[0].state then 1 else 0) + Releases(inputs[0].state, inputs[1..])
  }

  /** Over any series of ticks: the `KeyDown` callbacks with `isRepeat` set
      are exactly the presses, the `KeyUp` callbacks exactly the releases,
      and a handler that does not repeat never fires a `KeyDown` with
      `isRepeat` clear, so it fires one callback per change of state. */
  lemma {:induction false} CallbackCounts(keyDown: bool, repeating: bool, inputs: seq<TickInput>)
    ensures var r := Run(keyDown, repeating, inputs);
            Count(r.emitted, FirstPress) == Presses(keyDown, inputs) &&
            Count(r.emitted, Release) == Releases(keyDown, inputs) &&
            (!repeating ==> Count(r.emitted, RepeatPress) == 0 &&
                            |r.emitted| == Presses(keyDown, inputs) + Releases(keyDown, inputs))
    decreases |inputs|
  {
    if inputs != [] {
      var first := Tick(keyDown, repeating, inputs[0]);
      var rest := Run(first.keyDown, repeating, inputs[1..]);
      CallbackCounts(first.keyDown, repeating, inputs[1..]);
      CountAppend(first.emitted, rest.emitted, FirstPress);
      CountAppend(first.emitted, rest.emitted, RepeatPress);
      CountAppend(first.emitted, rest.emitted, Release);
      if !repeating {
        CountsCoverLog(rest.emitted);
        CountsCoverLog(first.emitted);
      }
    }
  }

  /** Every callback has one of the three kinds. */
  lemma {:induction false} CountsCoverLog(events: seq<Event>)
    ensures |events| == Count(events, FirstPress) + Count(events, RepeatPress) + Count(events, Release)
  {
    if events != [] {
      CountsCoverLog(events[1..]);
    }
  }

  /** The key state a receiver of the callbacks can reconstruct from the log
      alone, reading `isRepeat` as the handler sets it ("the key was up before
      this tick"): a `KeyDown` with `isRepeat` set must follow an up state, one
      with `isRepeat` clear a down state, and a `KeyUp` a down state. None if
      the log breaks one of these rules. */
  function Replay(keyDown: bool, events: seq<Event>): (r: Option<bool>)
    ensures r.Some? && events != [] ==> r.value == !events[|events| - 1].KeyUp?
    decreases |events|
  {
    if events == [] then Some(keyDown)
    else
      match events[0]
      case KeyDown(_, _, isRepeat) =>
        if isRepeat == !keyDown then Replay(true, events[1..]) else None
      case KeyUp(_, _) =>
        if keyDown then Replay(false, events[1..]) else None
  }

  /** The callback log of any series of ticks is consistent: each `isRepeat`
      tells whether the key was up before, no `KeyUp` fires while the key is
      up, and replaying the log ends in the handler's final state. */
  lemma {:induction false} RunLogReplays(keyDown: bool, repeating: bool, inputs: seq<TickInput>)
    ensures Replay(keyDown, Run(keyDown, repeating, inputs).emitted) == Some(Run(keyDown, repeating, inputs).keyDown)
    decreases |inputs|
  {
    if inputs != [] {
      var first := Tick(keyDown, repeating, inputs[0]);
      var rest := Run(first.keyDown, repeating, inputs[1..]);
      RunLogReplays(first.keyDown, repeating, inputs[1..]);
      if first.emitted != [] {
        var e := first.emitted[0];
        assert (first.emitted + rest.emitted)[0] == e;
        assert (first.emitted + rest.emitted)[1..] == rest.emitted;
      } else {
        assert first.emitted + rest.emitted == rest.emitted;
      }
    }
  }

  /** The `isRepeat` argument is the reverse of its documented meaning: the
      first tick of a press passes true, and a repeat of a held key passes false. */
  lemma IsRepeatIsInverted(repeating: bool, types: TickTypes, tickEnd: bool)
    ensures Tick(false, repeating, TickInput(types, tickEnd, true)).emitted == [KeyDown(types, tickEnd, true)]
    ensures Tick(true, true, TickInput(types, tickEnd, true)).emitted == [KeyDown(types, tickEnd, false)]
  {
  }
}
