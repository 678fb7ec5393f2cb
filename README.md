# Key binding registry of the FML client

This project models the key binding registry of the Forge Mod Loader client,
`cpw.mods.fml.client.registry.KeyBindingRegistry`. Mods register key handlers
with it. The tick scheduler polls each handler at the start and at the end of
every tick whose type is in the handler's `ticks()` set. The handler reads the state of its bound key and turns it into
callbacks: `keyDown` when the key goes down, or on every tick while it is held
if the handler repeats, and `keyUp` when it goes up. When the game is set up,
the registry appends every registered handler's key binding to the host
game's settings array.

The model has three modules:

- `HostGame` (host_game.dfy) holds what the registry touches in the host: a
  `KeyBinding` with its mutable key code, the `GameSettings` object with its
  binding array, and an `InputSnapshot` standing in for the input library. A
  negative key code reads mouse button `code + 100`; any other code reads the
  keyboard.
- `KeyTicks` (key_ticks.dfy) is the edge detector as values. `Tick` is one
  poll. `Run` is a series of polls. The lemmas state the press, release and
  repeat behaviour over any series of key states.
- `KeyBindingRegistry` (key_binding_registry.dfy) holds the `KeyHandler`
  class, whose `KeyTick` updates the `keyDown` field in place and is proved
  against `Tick`. It also holds the `Registry` class, with its ordered handler
  list and the array merge `UploadKeyBindingsToGame`. The mod-supplied
  callbacks are a ghost log `events` on the handler; each call appends the
  callback it would make.

The code and its doc-comment disagree about `isRepeat`. The doc-comment of
`keyDown` says that the first call comes when the key is first down and that
later calls have `isRepeat` set. The code passes `state != keyDown` instead,
which is true on the first tick of a press and false on every repeat. The
model follows the code. `KeyTicks.Tick`, `KeyTicks.RunLogReplays` and
`KeyTicks.IsRepeatIsInverted` state the inversion.

## Model

| member | source | states |
|---|---|---|
| `HostGame.SourceOf` | client/cpw/mods/fml/client/registry/KeyBindingRegistry.java:79 | a key code reads a mouse button exactly when it is negative, and then the button is `code + 100`; otherwise it reads keyboard key `code` |
| `HostGame.SourceOfInjective` | client/cpw/mods/fml/client/registry/KeyBindingRegistry.java:79 | two distinct key codes never read the same input, and `CodeOf` recovers the code from its input source |
| `HostGame.IsDown` | client/cpw/mods/fml/client/registry/KeyBindingRegistry.java:79 | the polled state of a negative code is whether button `code + 100` is held; for any other code it is whether that key is held |
| `HostGame.GameSettings.Reload` | client/cpw/mods/fml/client/registry/KeyBindingRegistry.java:148 | the host's settings reload is recorded as having run once more; it may change the key code of any binding the array lists, and the model says nothing about those new codes |
| `KeyTicks.Tick` | client/cpw/mods/fml/client/registry/KeyBindingRegistry.java:80-91 | after a poll the remembered state equals the polled state; at most one callback fires, never both; `keyUp` fires exactly on a down-to-up change; `keyDown` fires exactly when the key is down and was up or the handler repeats, with the tick types and end flag passed through and `isRepeat` true exactly when the key was up before; nothing fires otherwise |
| `KeyTicks.Run` | client/cpw/mods/fml/client/registry/KeyBindingRegistry.java:76-92 | a series of polls fires no more callbacks than it has ticks |
| `KeyTicks.RunSnoc` | client/cpw/mods/fml/client/registry/KeyBindingRegistry.java:76-92 | one more poll after a series is one more `Tick` from the series' final state; this is the induction step by which a handler whose every poll keeps to `KeyTick`'s contract has, after any number of polls, the state and callback log that `Run` gives |
| `KeyTicks.RunEndsInLastState` | client/cpw/mods/fml/client/registry/KeyBindingRegistry.java:80-91 | after any series of polls the remembered state is the state seen on the last poll, or the initial state if there was none |
| `KeyTicks.HeldWithoutRepeatIsSilent` | client/cpw/mods/fml/client/registry/KeyBindingRegistry.java:80 | on a handler that does not repeat, a key that stays held fires nothing after its first tick and the state stays down |
| `KeyTicks.HeldWithRepeatFiresEveryTick` | client/cpw/mods/fml/client/registry/KeyBindingRegistry.java:80-84 | on a repeating handler, a held key fires exactly one `keyDown` per tick with that tick's types and end flag; `isRepeat` is true only on the first one, and only if the key was up before |
| `KeyTicks.CallbackCounts` | client/cpw/mods/fml/client/registry/KeyBindingRegistry.java:80-89 | over any series of polls, the `keyDown` calls with `isRepeat` set are exactly the up-to-down changes and the `keyUp` calls exactly the down-to-up changes; without repeat no `keyDown` has `isRepeat` clear, so there is exactly one callback per change of state |
| `KeyTicks.Replay` | client/cpw/mods/fml/client/registry/KeyBindingRegistry.java:84-89 | replaying a consistent callback log leaves the key down exactly when the last callback was a `keyDown` |
| `KeyTicks.RunLogReplays` | client/cpw/mods/fml/client/registry/KeyBindingRegistry.java:80-91 | every callback log the handler produces is consistent: each `isRepeat` says the key was up before, a repeat follows a down state, no `keyUp` fires while the key is up, and the replay ends in the handler's final state |
| `KeyTicks.IsRepeatIsInverted` | client/cpw/mods/fml/client/registry/KeyBindingRegistry.java:84-102 | the first tick of a press passes `isRepeat` true and a repeat of a held key passes false, the reverse of the doc-comment |
| `KeyBindingRegistry.KeyHandler.constructor` | client/cpw/mods/fml/client/registry/KeyBindingRegistry.java:47-51 | a new handler keeps its binding and repeat flag, starts with the key up and has fired nothing |
| `KeyBindingRegistry.KeyHandler.TickStart` | client/cpw/mods/fml/client/registry/KeyBindingRegistry.java:62-65 | the start-of-tick hook is one poll with the end flag clear, passed on to the callback |
| `KeyBindingRegistry.KeyHandler.TickEnd` | client/cpw/mods/fml/client/registry/KeyBindingRegistry.java:71-74 | the end-of-tick hook is one poll with the end flag set, passed on to the callback |
| `KeyBindingRegistry.KeyHandler.KeyTick` | client/cpw/mods/fml/client/registry/KeyBindingRegistry.java:76-92 | after a poll `keyDown` equals the polled state of the bound key, and the callback log grows by exactly what `Tick` fires from the old state |
| `KeyBindingRegistry.BindingsOf` | client/cpw/mods/fml/client/registry/KeyBindingRegistry.java:139-142 | the harvested bindings are one per handler, each handler's own binding, in list order |
| `KeyBindingRegistry.BindingsOfAppend` | client/cpw/mods/fml/client/registry/KeyBindingRegistry.java:28-29 | appending a handler appends its binding to the harvest and leaves the earlier bindings in place |
| `KeyBindingRegistry.ArrayCopy` | client/cpw/mods/fml/client/registry/KeyBindingRegistry.java:145-146 | the copied slots of the destination hold the source's slots in order, and every other slot keeps its old value |
| `KeyBindingRegistry.Registry.constructor` | client/cpw/mods/fml/client/registry/KeyBindingRegistry.java:127 | a new registry has no handlers |
| `KeyBindingRegistry.Registry.RegisterKeyBinding` | client/cpw/mods/fml/client/registry/KeyBindingRegistry.java:28-29 | the handler is appended at the end of the list; the earlier handlers keep their order, and the harvested bindings grow by its binding |
| `KeyBindingRegistry.Registry.HarvestBindings` | client/cpw/mods/fml/client/registry/KeyBindingRegistry.java:138-142 | the loop collects one binding per handler, each handler's own, in list order |
| `KeyBindingRegistry.Registry.UploadKeyBindingsToGame` | client/cpw/mods/fml/client/registry/KeyBindingRegistry.java:136-149 | the settings get a new array of length old + number of handlers; its prefix is the old array slot for slot, its suffix the handlers' bindings in registration order; the old array is untouched and the host reloads its settings once, which may rebind any binding in the new array |

## Left out

- Native input polling (`Keyboard.isKeyDown`, `Mouse.isButtonDown`) is a snapshot value passed to each poll; how the input library fills it is not modelled.
- The `keyDown` and `keyUp` callbacks are supplied by mods; the model records each call in a ghost log and does not model what a callback does.
- `ticks()` and the contents of the tick-type set are framework types; the set is passed through unchanged as a set of ordinals.
- The extra `tickData` arguments of `tickStart` and `tickEnd` are ignored by the source and are not modelled.
- `TickRegistry.registerTickHandler` (line 30) belongs to the tick scheduler, which is not part of this model; registration is modelled as the list append only.
- The static singleton `INSTANCE` and the deprecated `instance()` accessor are not modelled; the registry is one object passed explicitly.
- `getKeyBinding()` only returns the field; the model exposes the field `keyBinding` directly.
- KeyBindingRegistry.KeyHandler.constructor: `keyBinding` is a protected, non-final field that a subclass may reassign; the model makes it a constant, so a handler keeps the binding it was built with.
- KeyBindingRegistry.KeyHandler.KeyTick: the source calls the callback before it stores the new state; a callback that throws leaves `keyDown` stale, so the next poll fires again, and a callback that reads `keyDown` sees the old value. The model has no exceptions and its log entries cannot read the handler, so it always stores the new state.
- A null key binding given to the handler constructor (a null-pointer exception on every poll, and a null slot after the upload) and a null handler given to `registerKeyBinding` (a null-pointer exception during the upload) are excluded by the non-null types `KeyBinding` and `KeyHandler`.
- HostGame.GameSettings.Reload: the host's settings reload (`func_74300_a`) is host code; the model counts that it ran and lets it change any binding the array lists, but does not say what it reads or what key codes it sets.
- KeyBindingRegistry.ArrayCopy: requires distinct source and destination arrays and in-range positions, which every call here meets; the overlapping copy and the exceptions of `System.arraycopy` are not modelled.
- Java's `null` slots are kept as possible values of the settings array; the model says nothing about whether the host's array holds nulls.
