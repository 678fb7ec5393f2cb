/**
 * The key binding registry: key handlers that turn the polled state of one
 * key into press and release callbacks on every tick, the ordered list of
 * registered handlers, and the merge of their bindings into the host's
 * settings array.
 */
module KeyBindingRegistry {
  import opened HostGame
  import opened KeyTicks

  /** A mod's handler for one key binding. The abstract `keyDown` and `keyUp`
      callbacks are represented by the ghost log `events`: each call appends
      the callback it would make. */
  class KeyHandler {
    const keyBinding: KeyBinding
    var keyDown: bool
    var repeating: bool
    ghost var events: seq<Event>

    /** A new handler starts with the key up, as a Java boolean field does. */
    constructor (keyBinding: KeyBinding, repeating: bool)
      ensures this.keyBinding == keyBinding && this.repeating == repeating
      ensures !keyDown && events == []
    {
      this.keyBinding := keyBinding;
      this.repeating := repeating;
      keyDown := false;
      events := [];
    }

    /** The start-of-tick hook: one poll with the end flag clear. */
    method TickStart(types: TickTypes, input: InputSnapshot)
      modifies this`keyDown, this`events
      ensures var o := Tick(old(keyDown), repeating, TickInput(types, false, IsDown(input, keyBinding.keyCode)));
              keyDown == o.keyDown && events == old(events) + o.emitted
    {
      KeyTick(types, false, input);
    }

    /** The end-of-tick hook: one poll with the end flag set. */
    method TickEnd(types: TickTypes, input: InputSnapshot)
      modifies this`keyDown, this`events
      ensures var o := Tick(old(keyDown), repeating, TickInput(types, true, IsDown(input, keyBinding.keyCode)));
              keyDown == o.keyDown && events == old(events) + o.emitted
    {
      KeyTick(types, true, input);
    }

    /** Polls the bound key and fires at most one callback: `KeyDown` when the
        key went down or is held on a repeating handler, `KeyUp` when it went
        up. Afterwards the remembered state is the polled one. */
    method KeyTick(types: TickTypes, tickEnd: bool, input: InputSnapshot)
      modifies this`keyDown, this`events
      ensures keyDown == IsDown(input, keyBinding.keyCode)
      ensures var o := Tick(old(keyDown), repeating, TickInput(types, tickEnd, IsDown(input, keyBinding.keyCode)));
              keyDown == o.keyDown && events == old(events) + o.emitted
    {
      var keyCode := keyBinding.keyCode;
      var state := IsDown(input, keyCode);
      if state != keyDown || (state && repeating) {
        if state {
          events := events + [KeyDown(types, tickEnd, state != keyDown)];
        } else {
          events := events + [KeyUp(types, tickEnd)];
        }
        keyDown := state;
      }
    }
  }

  /** The bindings of a list of handlers, in list order. */
  function BindingsOf(handlers: seq<KeyHandler>): (bindings: seq<KeyBinding>)
    ensures |bindings| == |handlers|
    ensures forall i :: 0 <= i < |handlers| ==> bindings[i] == handlers[i].keyBinding
  {
    if handlers == [] then [] else [handlers[0].keyBinding] + BindingsOf(handlers[1..])
  }

  /** Registering one more handler adds its binding at the end of the harvest. */
  lemma BindingsOfAppend(handlers: seq<KeyHandler>, h: KeyHandler)
    ensures BindingsOf(handlers + [h]) == BindingsOf(handlers) + [h.keyBinding]
  {
    assert forall i :: 0 <= i < |handlers| ==> (handlers + [h])[i] == handlers[i];
  }

  /** Copies `length` slots of `src` from `srcPos` into `dest` from `destPos`,
      leaving every other slot of `dest` as it was. */
  method ArrayCopy<T>(src: array<T>, srcPos: nat, dest: array<T>, destPos: nat, length: nat)
    requires src != dest
    requires srcPos + length <= src.Length && destPos + length <= dest.Length
    modifies dest
    ensures dest[..] == old(dest[..destPos]) + src[srcPos..srcPos + length] + old(dest[destPos + length..])
  {
    var i := 0;
    while i < length
      invariant 0 <= i <= length
      invariant dest[..destPos] == old(dest[..destPos])
      invariant dest[destPos..destPos + i] == src[srcPos..srcPos + i]
      invariant dest[destPos + length..] == old(dest[destPos + length..])
      invariant forall k :: destPos + i <= k < destPos + length ==> dest[k] == old(dest[k])
    {
      dest[destPos + i] := src[srcPos + i];
      i := i + 1;
    }
    assert dest[..] == dest[..destPos] + dest[destPos..destPos + length] + dest[destPos + length..];
  }

  /** The registry: the handlers mods have registered, in registration order. */
  class Registry {
    var keyHandlers: seq<KeyHandler>

    constructor ()
      ensures keyHandlers == []
    {
      keyHandlers := [];
    }

    /** Appends a handler; the earlier handlers keep their places. */
    method RegisterKeyBinding(handler: KeyHandler)
      modifies this
      ensures keyHandlers == old(keyHandlers) + [handler]
      ensures BindingsOf(keyHandlers) == BindingsOf(old(keyHandlers)) + [handler.keyBinding]
    {
      BindingsOfAppend(keyHandlers, handler);
      keyHandlers := keyHandlers + [handler];
    }

    /** Collects every handler's binding, walking the list in order. */
    method HarvestBindings() returns (harvested: seq<KeyBinding>)
      ensures |harvested| == |keyHandlers|
      ensures forall i :: 0 <= i < |keyHandlers| ==> harvested[i] == keyHandlers[i].keyBinding
    {
      harvested := [];
      for i := 0 to |keyHandlers|
        invariant |harvested| == i
        invariant forall j :: 0 <= j < i ==> harvested[j] == keyHandlers[j].keyBinding
      {
        harvested := harvested + [keyHandlers[i].keyBinding];
      }
    }

    /** Replaces the host's binding array by a new one holding the host's
        bindings followed by the registered handlers' bindings in registration
        order, then has the host reload its settings. */
    method UploadKeyBindingsToGame(settings: GameSettings)
      modifies settings, set b: KeyBinding | b in settings.keyBindings[..] || b in BindingsOf(keyHandlers)
      ensures fresh(settings.keyBindings)
      ensures settings.keyBindings.Length == old(settings.keyBindings.Length) + |keyHandlers|
      ensures settings.keyBindings[..] == old(settings.keyBindings[..]) + BindingsOf(keyHandlers)
      ensures unchanged(old(settings.keyBindings))
      ensures settings.reloads == old(settings.reloads) + 1
    {
      var harvested := HarvestBindings();
      var modKeyBindings := new KeyBinding?[|harvested|](i requires 0 <= i < |harvested| => harvested[i]);
      assert modKeyBindings[..] == BindingsOf(keyHandlers);
      var hostKeys := settings.keyBindings;
      var allKeys := new KeyBinding?[hostKeys.Length + modKeyBindings.Length];
      ArrayCopy(hostKeys, 0, allKeys, 0, hostKeys.Length);
      assert allKeys[..hostKeys.Length] == hostKeys[..];
      ArrayCopy(modKeyBindings, 0, allKeys, hostKeys.Length, modKeyBindings.Length);
      assert allKeys[..] == hostKeys[..] + modKeyBindings[..];
      settings.keyBindings := allKeys;
      settings.Reload();
    }
  }
}
