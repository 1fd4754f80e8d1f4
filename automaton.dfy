/**
 * The Automaton facade. The robot and the hotkey provider are fixed at
 * construction and may be absent; what the robot injects is appended to
 * `events`, and what the provider holds is `bindings`.
 */
module Automation {
  import opened Wrappers
  import opened ModifierKeys
  import opened ModifierSets
  import opened ClickTypes
  import opened InputEvents
  import opened Keystrokes
  import opened Hotkeys
  import opened Motion

  class Automaton {
    /** The java.awt.Robot, None when it could not be created. */
    const robot: Option<Robot>
    /** Whether a global-listener provider was obtained. */
    const providerPresent: bool
    /** KeyEvent.getExtendedKeyCodeForChar, on one UTF-16 code unit. */
    const keyCodeForChar: JChar -> int
    /** The screen size, sampled once at construction. */
    const screenWidth: int
    const screenHeight: int

    /** Everything the robot has injected, oldest first. */
    var events: seq<Event>
    /** The hotkeys the provider holds. */
    var bindings: map<Hotkey, ListenerId>

    constructor (robot: Option<Robot>, providerPresent: bool, keyCodeForChar: JChar -> int, screenWidth: int, screenHeight: int)
      ensures this.robot == robot && this.providerPresent == providerPresent
      ensures this.keyCodeForChar == keyCodeForChar
      ensures this.screenWidth == screenWidth && this.screenHeight == screenHeight
      ensures events == [] && bindings == map[]
    {
      this.robot := robot;
      this.providerPresent := providerPresent;
      this.keyCodeForChar := keyCodeForChar;
      this.screenWidth := screenWidth;
      this.screenHeight := screenHeight;
      events := [];
      bindings := map[];
    }

    // ---- hotkeys ----

    /** Binds the keystroke (keyCode, modifiers) to listener; fails without a provider. */
    method RegisterHotkey(keyCode: int, modifiers: Modifiers, listener: ListenerId) returns (ok: bool)
      modifies this`bindings
      ensures ok == providerPresent
      ensures bindings == if ok then Bind(old(bindings), Hotkey(keyCode, modifiers.HeldSet()), listener) else old(bindings)
    {
      if !providerPresent {
        return false;
      }
      bindings := Bind(bindings, Hotkey(keyCode, modifiers.HeldSet()), listener);
      return true;
    }

    /** Binds keyCode with no modifier held: only the bare key selects it. */
    method RegisterUnmodifiedHotkey(keyCode: int, listener: ListenerId) returns (ok: bool)
      modifies this`bindings
      ensures ok == providerPresent
      ensures bindings == if ok then Bind(old(bindings), Hotkey(keyCode, {}), listener) else old(bindings)
    {
      var none := new Modifiers([]);
      assert none.HeldSet() == {};
      ok := RegisterHotkey(keyCode, none, listener);
    }

    /** Removes the keystroke (keyCode, modifiers); fails without a provider. */
    method UnregisterHotkey(keyCode: int, modifiers: Modifiers) returns (ok: bool)
      modifies this`bindings
      ensures ok == providerPresent
      ensures bindings == if ok then Unbind(old(bindings), Hotkey(keyCode, modifiers.HeldSet())) else old(bindings)
    {
      if !providerPresent {
        return false;
      }
      bindings := Unbind(bindings, Hotkey(keyCode, modifiers.HeldSet()));
      return true;
    }

    /** Removes the keystroke of keyCode with no modifier held. */
    method UnregisterUnmodifiedHotkey(keyCode: int) returns (ok: bool)
      modifies this`bindings
      ensures ok == providerPresent
      ensures bindings == if ok then Unbind(old(bindings), Hotkey(keyCode, {})) else old(bindings)
    {
      var none := new Modifiers([]);
      assert none.HeldSet() == {};
      ok := UnregisterHotkey(keyCode, none);
    }

    // ---- mouse ----

    /**
     * Moves the pointer to (x, y); pointer is the location sampled when the
     * call starts. Without a robot nothing is injected and the future holds
     * false; at speed <= 0 one move to the target is injected and it holds
     * true. A short move does the same (the source completes it with null).
     * Otherwise an animation is started and nothing is injected yet.
     */
    method MoveMouse(x: int, y: int, speed: real, pointer: Point) returns (result: MoveFuture)
      modifies this`events
      ensures var branch := SelectBranch(robot.Some?, speed, pointer, x, y, screenWidth, screenHeight);
        result == Completion(branch) && events == old(events) + MoveEvents(branch, x, y)
      ensures robot.None? ==> result == Completed(Some(false)) && events == old(events)
      ensures robot.Some? && speed <= 0.0 ==> result == Completed(Some(true)) && events == old(events) + [MouseMove(x, y)]
    {
      if robot.None? {
        return Completed(Some(false));
      }
      if speed <= 0.0 {
        events := events + [MouseMove(x, y)];
        return Completed(Some(true));
      }
      if IsShortMove(pointer, x, y, speed, screenWidth, screenHeight) {
        events := events + [MouseMove(x, y)];
        return Completed(Some(true));
      }
      return Animating;
    }

    /** Presses and releases the button of t; fails without a robot. */
    method Click(t: ClickType) returns (ok: bool)
      modifies this`events
      ensures ok == robot.Some?
      ensures events == old(events) + if ok then [MousePress(t.ButtonMask()), MouseRelease(t.ButtonMask())] else []
    {
      if robot.None? {
        return false;
      }
      events := events + [MousePress(t.ButtonMask())];
      events := events + [MouseRelease(t.ButtonMask())];
      return true;
    }

    // ---- keyboard ----

    /** Presses and releases vkc; fails without a robot or when the robot rejects the code. */
    method TypeVirtual(vkc: int) returns (ok: bool)
      modifies this`events
      ensures ok == KeyAccepted(robot, vkc)
      ensures events == old(events) + TypeVirtualEvents(robot, vkc)
    {
      if robot.None? {
        return false;
      }
      if !robot.value.validKey(vkc) {
        // keyPress throws IllegalArgumentException before injecting anything
        return false;
      }
      events := events + [KeyPress(vkc)];
      events := events + [KeyRelease(vkc)];
      return true;
    }

    /** Types c through its key code. */
    method TypeChar(c: JChar) returns (ok: bool)
      modifies this`events
      ensures ok == KeyAccepted(robot, keyCodeForChar(c))
      ensures events == old(events) + TypeVirtualEvents(robot, keyCodeForChar(c))
    {
      ok := TypeVirtual(keyCodeForChar(c));
    }

    /** Presses the key of each held modifier, in declaration order (the first loop of type(char, Modifiers)). */
    method PressHeldModifiers(modifiers: Modifiers)
      requires robot.None? ==> modifiers.HeldSet() == {}
      requires robot.Some? ==> forall m :: modifiers.Held(m) ==> robot.value.validKey(m.KeyCode())
      modifies this`events
      ensures events == old(events) + Presses(HeldKeyCodes(Values, modifiers.HeldSet()))
    {
      ghost var held := modifiers.HeldSet();
      for i := 0 to |Values|
        invariant events == old(events) + Presses(HeldKeyCodes(Values[..i], held))
      {
        var m := Values[i];
        HeldKeyCodesSnoc(Values[..i], m, held);
        assert Values[..i + 1] == Values[..i] + [m];
        if modifiers.Held(m) {
          events := events + [KeyPress(m.KeyCode())];
        }
      }
      assert Values[..|Values|] == Values;
    }

    /** Releases the key of each held modifier, in that same order (the second loop). */
    method ReleaseHeldModifiers(modifiers: Modifiers)
      requires robot.None? ==> modifiers.HeldSet() == {}
      requires robot.Some? ==> forall m :: modifiers.Held(m) ==> robot.value.validKey(m.KeyCode())
      modifies this`events
      ensures events == old(events) + Releases(HeldKeyCodes(Values, modifiers.HeldSet()))
    {
      ghost var held := modifiers.HeldSet();
      for i := 0 to |Values|
        invariant events == old(events) + Releases(HeldKeyCodes(Values[..i], held))
      {
        var m := Values[i];
        HeldKeyCodesSnoc(Values[..i], m, held);
        assert Values[..i + 1] == Values[..i] + [m];
        if modifiers.Held(m) {
          events := events + [KeyRelease(m.KeyCode())];
        }
      }
      assert Values[..|Values|] == Values;
    }

    /**
     * Types c with the held modifiers pressed around it, pressing and then
     * releasing them in declaration order. The result is that of typing c
     * alone. The source dereferences the robot for each held modifier and
     * lets the robot's rejection of a modifier key propagate, so callers
     * must not hold a modifier without a robot that accepts its key.
     */
    method TypeCharWithModifiers(c: JChar, modifiers: Modifiers) returns (ok: bool)
      requires robot.None? ==> modifiers.HeldSet() == {}
      requires robot.Some? ==> forall m :: modifiers.Held(m) ==> robot.value.validKey(m.KeyCode())
      modifies this`events
      ensures ok == KeyAccepted(robot, keyCodeForChar(c))
      ensures events == old(events) + TypeWithModifiersEvents(robot, keyCodeForChar(c), modifiers.HeldSet())
    {
      PressHeldModifiers(modifiers);
      ok := TypeChar(c);
      ReleaseHeldModifiers(modifiers);
    }

    /**
     * Types every character of s, left to right, without stopping at a
     * failure, and returns how many could not be typed.
     */
    method TypeString(s: JString) returns (failed: int)
      modifies this`events
      ensures 0 <= failed <= |s|
      ensures failed == FailureCount(robot, keyCodeForChar, s)
      ensures events == old(events) + TypeStringEvents(robot, keyCodeForChar, s)
    {
      failed := 0;
      for i := 0 to |s|
        invariant failed == FailureCount(robot, keyCodeForChar, s[..i])
        invariant events == old(events) + TypeStringEvents(robot, keyCodeForChar, s[..i])
      {
        assert s[..i + 1][..i] == s[..i];
        var ok := TypeChar(s[i]);
        if !ok {
          failed := failed + 1;
        }
      }
      assert s[..|s|] == s;
    }
  }
}
