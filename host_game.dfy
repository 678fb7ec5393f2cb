/**
 * The parts of the host game and of its input library that the key binding
 * registry touches: a key binding object, the settings object that lists the
 * game's bindings, and a snapshot of which keys and mouse buttons are held.
 */
module HostGame {

  /** A host key binding. The options screen may rebind it, so its code is a
      mutable field; a negative code stands for a mouse button. */
  class KeyBinding {
    var keyCode: int

    constructor (keyCode: int)
      ensures this.keyCode == keyCode
    {
      this.keyCode := keyCode;
    }
  }

  /** The host's settings object. `keyBindings` is the array of bindings the
      game's controls screen lists; its slots may hold null, as a Java array may. */
  class GameSettings {
    var keyBindings: array<KeyBinding?>
    /** How often the host has reloaded its settings; the reload itself is
        host code whose effect is not modelled. */
    ghost var reloads: nat

    constructor (keyBindings: array<KeyBinding?>)
      ensures this.keyBindings == keyBindings && reloads == 0
    {
      this.keyBindings := keyBindings;
      reloads := 0;
    }

    /** The host's reload of its settings after the binding array changed.
        What it reads and writes is host code; it may rebind any binding the
        array lists, so every such binding is in its frame. */
    method Reload()
      modifies this`reloads, set i | 0 <= i < keyBindings.Length && keyBindings[i] != null :: keyBindings[i]
      ensures reloads == old(reloads) + 1
    {
      reloads := reloads + 1;
    }
  }

  /** Where the state of a key code is read from. */
  datatype InputSource = MouseButton(button: int) | KeyboardKey(key: int)

  /** A negative key code denotes mouse button `keyCode + 100`; any other
      code is a keyboard key. */
  function SourceOf(keyCode: int): (src: InputSource)
    ensures src.MouseButton? <==> keyCode < 0
    ensures src.MouseButton? ==> src.button == keyCode + 100 && src.button < 100
    ensures src.KeyboardKey? ==> src.key == keyCode && src.key >= 0
  {
    if keyCode < 0 then MouseButton(keyCode + 100) else KeyboardKey(keyCode)
  }

  /** The key code that denotes an input source: the inverse of SourceOf. */
  function CodeOf(src: InputSource): int
  {
    match src
    case MouseButton(b) => b - 100
    case KeyboardKey(k) => k
  }

  /** Distinct key codes never read the same input. */
  lemma SourceOfInjective(a: int, b: int)
    ensures SourceOf(a) == SourceOf(b) ==> a == b
    ensures CodeOf(SourceOf(a)) == a
  {
  }

  /** What the input library reports at one instant: the keyboard keys and
      the mouse buttons that are held down. */
  datatype InputSnapshot = InputSnapshot(keysDown: set<int>, buttonsDown: set<int>)

  /** Whether the input a key code denotes is held down in a snapshot. */
  function IsDown(input: InputSnapshot, keyCode: int): (down: bool)
    ensures keyCode < 0 ==> (down <==> keyCode + 100 in input.buttonsDown)
    ensures keyCode >= 0 ==> (down <==> keyCode in input.keysDown)
  {
    match SourceOf(keyCode)
    case MouseButton(b) => b in input.buttonsDown
    case KeyboardKey(k) => k in input.keysDown
  }
}
