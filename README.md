# Automaton input composition, in Dafny

A model of the input-composition core of the Automaton desktop-automation
library: how its `Automaton` facade turns a typed character, a string, a
click or a pointer move into the events it asks a `java.awt.Robot` to
inject, and how it guards the registration of global hotkeys with a
jkeymaster `Provider`.

The robot is replaced by an input sink that appends to an event log
(`KeyPress`, `KeyRelease`, `MousePress`, `MouseRelease`, `MouseMove`). The
robot and the provider may each be absent (`null` in the source), and both
are fixed when the `Automaton` is built. Whether the robot accepts a key code
(`keyPress` throws `IllegalArgumentException` otherwise) and the
character-to-key-code mapping (`KeyEvent.getExtendedKeyCodeForChar`) are
library behaviour, so they are parameters: a `validKey` predicate carried by
the robot and a `keyCodeForChar` function held by the `Automaton`. A Java
`char` is a UTF-16 code unit (`JChar`, 0 to 0xFFFF) and a `String` is its
sequence of code units, as `toCharArray()` yields them. The AWT key
codes and masks have the JDK's values (module `Awt`).

Modules, one per source file or concern:

- `Awt` (`awt.dfy`): the JDK constants, and which mouse button each button mask presses.
- `ModifierKeys` (`modifier.dfy`): the `Modifier` enum, its key codes, masks and declaration order.
- `ModifierSets` (`modifiers.dfy`): the `Modifiers` class; its constructor fills the map in a loop.
- `ClickTypes` (`click_type.dfy`): the `ClickType` enum and its button masks.
- `InputEvents` (`input_events.dfy`): the event log's entries and the robot.
- `Keystrokes` (`keystrokes.dfy`): the events and results of typing, as functions, with their lemmas.
- `Hotkeys` (`hotkeys.dfy`): the provider's hotkey table, keyed by key code and the exact set of held modifiers.
- `Motion` (`motion.dfy`): which branch `moveMouse` takes and what it does before returning.
- `Automation` (`automaton.dfy`): the `Automaton` class. It keeps the event log and the hotkey table as fields, and its methods are proved against the functions above.
- `Wrappers` (`wrappers.dfy`): `Option`.

## Model

| member | source | states |
|---|---|---|
| `ModifierKeys.ValuesEnumerateModifiers` | src/main/java/io/github/bluelhf/automaton/modifiers/Modifier.java:7-10 | `values()` lists the four constants once each, in the order CTRL, SHIFT, ALT, ALT_GR |
| `ModifierKeys.KeyCodesAndMasksDistinct` | src/main/java/io/github/bluelhf/automaton/modifiers/Modifier.java:7-26 | each constant has its own key code (VK_CONTROL, VK_SHIFT, VK_ALT, VK_ALT_GRAPH) and its own input mask, so distinct modifiers never share a key |
| `ModifierSets.Modifiers.constructor` | src/main/java/io/github/bluelhf/automaton/modifiers/Modifiers.java:13-17 | after the loop, the map's keys are exactly the arguments and every stored value is true |
| `ModifierSets.Modifiers.Held` | src/main/java/io/github/bluelhf/automaton/modifiers/Modifiers.java:19-21 | a modifier missing from the map is not held (the `getOrDefault` default), and since only true is stored, held means present |
| `ModifierSets.Modifiers.HeldSet` | src/main/java/io/github/bluelhf/automaton/modifiers/Modifiers.java:19-21 | the set of held modifiers contains exactly the modifiers for which `held` is true |
| `ModifierSets.BuildFromSameModifiers` | src/main/java/io/github/bluelhf/automaton/modifiers/Modifiers.java:13-17 | two argument lists that name the same modifiers, in any order and with any repetition, build values that agree on every modifier |
| `ModifierSets.BuildEmpty` | src/main/java/io/github/bluelhf/automaton/modifiers/Modifiers.java:13-21 | `new Modifiers()` holds no modifier |
| `ClickTypes.RightAndMiddleSwappedAsWritten` | src/main/java/io/github/bluelhf/automaton/modifiers/ClickType.java:6-8 | as declared, LEFT's mask presses the left button, RIGHT's the middle one and MIDDLE's the right one |
| `ClickTypes.ButtonMaskPressesNamedButton` | src/main/java/io/github/bluelhf/automaton/modifiers/ClickType.java:6-18 | with the corrected masks, each click type's fixed mask presses the button it names, and no two types share a mask |
| `Keystrokes.TypeVirtualEventsShape` | src/main/java/io/github/bluelhf/automaton/Automaton.java:227-236 | a keystroke injects two events when it succeeds and none when it fails; without a robot it injects nothing |
| `Keystrokes.HeldKeyCodesMembership` | src/main/java/io/github/bluelhf/automaton/Automaton.java:205-207 | a key code is pressed iff some held modifier in the scanned list has it |
| `Keystrokes.HeldKeyCodesDistinct` | src/main/java/io/github/bluelhf/automaton/Automaton.java:205-207 | scanning a list without repeats presses no key twice |
| `Keystrokes.HeldKeyCodesNoneHeld` | src/main/java/io/github/bluelhf/automaton/Automaton.java:205-213 | with no modifier held, neither loop touches a key |
| `Keystrokes.HeldModifiersPressedOnce` | src/main/java/io/github/bluelhf/automaton/Automaton.java:204-213 | around a character, the key of each held modifier is pressed once and released once, and no other modifier key is touched |
| `Keystrokes.PressOrderIsDeclarationOrder` | src/main/java/io/github/bluelhf/automaton/Automaton.java:205-207 | held modifiers are pressed in declaration order: CTRL, then SHIFT, then ALT, then ALT_GR |
| `Keystrokes.ReleaseOrderIsPressOrder` | src/main/java/io/github/bluelhf/automaton/Automaton.java:204-216 | the log is the presses, then the keystroke, then the releases, and the i-th release is of the i-th pressed key (the same order, not reversed) |
| `Keystrokes.NoModifiersSameAsPlain` | src/main/java/io/github/bluelhf/automaton/Automaton.java:204-216 | with an empty `Modifiers`, `type(c, modifiers)` injects exactly what `type(c)` does |
| `Keystrokes.CtrlShiftExample` | src/main/java/io/github/bluelhf/automaton/Automaton.java:204-216 | with SHIFT and CTRL held, the log is: press CTRL, press SHIFT, the keystroke, release CTRL, release SHIFT |
| `Keystrokes.FailureCount` | src/main/java/io/github/bluelhf/automaton/Automaton.java:246-253 | the failure count of a string is at most its length, and 0 for the empty string |
| `Keystrokes.FailureCountAppend` | src/main/java/io/github/bluelhf/automaton/Automaton.java:246-253 | the failures of s + t are those of s plus those of t: a failure does not stop the count |
| `Keystrokes.TypeStringEventsAppend` | src/main/java/io/github/bluelhf/automaton/Automaton.java:246-253 | the log of s + t is the log of s followed by that of t: every character is attempted, left to right, with no early abort |
| `Keystrokes.NoFailuresIffAllAccepted` | src/main/java/io/github/bluelhf/automaton/Automaton.java:246-253 | `type(s)` returns 0 iff the key code of every character is accepted |
| `Keystrokes.AllFailIffNoneAccepted` | src/main/java/io/github/bluelhf/automaton/Automaton.java:246-253 | `type(s)` returns `s.length()` iff the key code of no character is accepted |
| `Keystrokes.TypeStringEventCount` | src/main/java/io/github/bluelhf/automaton/Automaton.java:246-253 | typing a string injects exactly two events for each character that did not fail |
| `Keystrokes.NoRobotTypesNothing` | src/main/java/io/github/bluelhf/automaton/Automaton.java:227-253 | without a robot, `type(s)` injects nothing and counts every character as failed |
| `Keystrokes.PartialFailureExample` | src/main/java/io/github/bluelhf/automaton/Automaton.java:246-253 | when a types and b does not, typing the two-unit string a, b returns 1 and a is still typed |
| `Keystrokes.SurrogatePairIsTwoAttempts` | src/main/java/io/github/bluelhf/automaton/Automaton.java:246-253 | `toCharArray()` splits U+1F600 into two surrogate units, each attempted on its own, so the string can report two failures |
| `Hotkeys.Bind` | src/main/java/io/github/bluelhf/automaton/Automaton.java:45-49 | registering binds the keystroke to the listener and leaves every other keystroke as it was |
| `Hotkeys.Unbind` | src/main/java/io/github/bluelhf/automaton/Automaton.java:73-77 | unregistering removes the keystroke and leaves every other binding as it was |
| `Hotkeys.UnmodifiedHotkeyIgnoresHeldModifiers` | src/main/java/io/github/bluelhf/automaton/Automaton.java:51-63 | a hotkey registered without modifiers answers the bare key, and a press with any modifier held is not affected by it |
| `Hotkeys.UnbindAbsentIsNoOp` | src/main/java/io/github/bluelhf/automaton/Automaton.java:73-77 | unregistering a keystroke that was never registered leaves the table unchanged |
| `Hotkeys.BindThenUnbindRestores` | src/main/java/io/github/bluelhf/automaton/Automaton.java:45-77 | registering and then unregistering a new keystroke restores the table |
| `Hotkeys.RebindReplaces` | src/main/java/io/github/bluelhf/automaton/Automaton.java:45-49 | registering a keystroke twice keeps only the second listener (the model's choice; see Left out) |
| `Motion.DistanceSquared` | src/main/java/io/github/bluelhf/automaton/Automaton.java:113 | the squared distance to the target is non-negative, and zero exactly when the pointer is already on the target |
| `Motion.ShortMoveMeansUnderTwoMs` | src/main/java/io/github/bluelhf/automaton/Automaton.java:112-116 | the square-root-free test used by the model agrees with `msNeeded < 2` for msNeeded = dist / (speed * diagonal / 1000) |
| `Motion.ShortMoveCompletesWithNullAsWritten` | src/main/java/io/github/bluelhf/automaton/Automaton.java:116-119 | as written, a one-pixel move at speed 1 on a 1920x1080 screen takes the short branch, and its future completes with null |
| `Motion.CompletedMovesReportInjection` | src/main/java/io/github/bluelhf/automaton/Automaton.java:105-119 | every completed move holds a Boolean that is true exactly when a robot is present. A completed move with a robot injected exactly one move to the target. Only a present robot at positive speed animates. |
| `Motion.CompletionAgreesOutsideShortMoves` | src/main/java/io/github/bluelhf/automaton/Automaton.java:105-110 | apart from the short-move branch, the corrected future is the one the source returns |
| `Automation.Automaton.constructor` | src/main/java/io/github/bluelhf/automaton/Automaton.java:22-33 | the robot, the provider and the screen size are fixed at construction; nothing has been injected or bound yet |
| `Automation.Automaton.RegisterHotkey` | src/main/java/io/github/bluelhf/automaton/Automaton.java:45-49 | returns false and leaves the table unchanged iff the provider is absent; otherwise binds (key code, held modifiers) and returns true |
| `Automation.Automaton.RegisterUnmodifiedHotkey` | src/main/java/io/github/bluelhf/automaton/Automaton.java:61-63 | same as registering with `new Modifiers()`: the binding is for the key with the empty modifier set |
| `Automation.Automaton.UnregisterHotkey` | src/main/java/io/github/bluelhf/automaton/Automaton.java:73-77 | returns false and leaves the table unchanged iff the provider is absent; otherwise removes the binding and returns true |
| `Automation.Automaton.UnregisterUnmodifiedHotkey` | src/main/java/io/github/bluelhf/automaton/Automaton.java:86-88 | removes the binding of the key with the empty modifier set |
| `Automation.Automaton.MoveMouse` | src/main/java/io/github/bluelhf/automaton/Automaton.java:105-119 | with no robot: false and no events. With speed <= 0: exactly one move to (x, y), then true. A short move injects the same single move, but the future holds the corrected true where the source completes it with null (see Findings). Otherwise an animation starts and nothing is injected yet. |
| `Automation.Automaton.Click` | src/main/java/io/github/bluelhf/automaton/Automaton.java:175-180 | with no robot: false and no events. Otherwise a press then a release of one button mask, then true. The mask is the corrected `ButtonMask()`, which differs from the source's for RIGHT and MIDDLE (see Findings). |
| `Automation.Automaton.TypeVirtual` | src/main/java/io/github/bluelhf/automaton/Automaton.java:227-236 | true exactly when a robot is present and accepts the code, and then a press and a release of it are appended; otherwise false with nothing appended (the exception is caught) |
| `Automation.Automaton.TypeChar` | src/main/java/io/github/bluelhf/automaton/Automaton.java:190-193 | behaves as `typeVirtual` on the character's key code |
| `Automation.Automaton.PressHeldModifiers` | src/main/java/io/github/bluelhf/automaton/Automaton.java:205-207 | appends a press of each held modifier's key, in declaration order |
| `Automation.Automaton.ReleaseHeldModifiers` | src/main/java/io/github/bluelhf/automaton/Automaton.java:211-213 | appends a release of each held modifier's key, in declaration order |
| `Automation.Automaton.TypeCharWithModifiers` | src/main/java/io/github/bluelhf/automaton/Automaton.java:204-216 | returns what typing the character alone returns, whatever the modifiers. Appends the presses, the keystroke, then the releases in the same order. |
| `Automation.Automaton.TypeString` | src/main/java/io/github/bluelhf/automaton/Automaton.java:246-253 | returns the number of UTF-16 code units that failed, between 0 and the string's length in units; the log is the units' keystrokes in order |

## Findings

| source | as written | input that shows it | evidently intended | confidence | as-written member | corrected member |
|---|---|---|---|---|---|---|
| src/main/java/io/github/bluelhf/automaton/modifiers/ClickType.java:7-8 | RIGHT uses BUTTON2_DOWN_MASK and MIDDLE uses BUTTON3_DOWN_MASK; AWT numbers the buttons left 1, middle 2, right 3 | `click(ClickType.RIGHT)` presses the middle button | RIGHT uses BUTTON3_DOWN_MASK and MIDDLE uses BUTTON2_DOWN_MASK | high; not executed | `ClickTypes.RightAndMiddleSwappedAsWritten` | `ClickTypes.ButtonMaskPressesNamedButton` |
| src/main/java/io/github/bluelhf/automaton/Automaton.java:116-119 | a move needing under 2 ms completes its future with `null`, though the method documents a Boolean success value | `moveMouse(1, 0, 1.0)` with the pointer at (0, 0) on a 1920x1080 screen and a robot present | complete with `true`, as the instant branch does | medium; not executed | `Motion.ShortMoveCompletesWithNullAsWritten` | `Motion.CompletedMovesReportInjection` |

The `Automaton` class uses the corrected behaviour in both cases:
`Click` presses `ButtonMask()`, and `MoveMouse` completes a short move with
true. `ButtonMaskAsWritten` and `CompletionAsWritten` keep the source's
behaviour.

## Left out

- The animated branch of `moveMouse` (Automaton.java:121-133) uses doubles, `Math.round`, the wall clock, `parkNanos` and a task on another thread. Its moves are not modelled.
- Automation.Automaton.Click: presses and releases the corrected `ButtonMask()`, not the source's `getButtonMask()`. For RIGHT and MIDDLE the model's events therefore differ from the source's: the source presses BUTTON2_DOWN_MASK for RIGHT and BUTTON3_DOWN_MASK for MIDDLE. The as-written masks are `ClickTypes.ClickType.ButtonMaskAsWritten` (see Findings).
- Automation.Automaton.MoveMouse: a short move (under 2 ms) completes with the corrected `Some(true)`. The source completes it with null, which is `CompletionAsWritten` (see Findings). Every other branch's future agrees with the source (`CompletionAgreesOutsideShortMoves`).
- Automation.Automaton.MoveMouse: in the animated branch the model returns `Animating` and appends nothing. The source's task goes on to inject interpolated moves and a final move to the target.
- Automation.Automaton.MoveMouse: doubles are modelled as exact reals, so results that depend on rounding, or on a NaN speed, are not captured. The mouse location is a parameter, because `getMouseLocation` queries the operating system. With a zero screen diagonal the source's `msNeeded` is infinite or NaN, and the model's test also picks the animated branch. `ShortMoveMeansUnderTwoMs` covers only a positive diagonal.
- Screen metrics (`getScreenDiagonal`, `getScreenSize`, `getScreenWidth`, `getScreenHeight`, Automaton.java:143-166) query `Toolkit` and take a square root. The model keeps only the width and height, as constructor parameters.
- `toKeystroke` relies on `Modifiers.toSwingModifiers`, which `Modifiers.java` does not define. The model keys a hotkey by its key code and the set of held modifiers, not by a Swing mask. For the same reason, the OR-ed modifier mask some descriptions of `Modifiers` mention is not modelled. `Modifier.InputMask` is modelled, but nothing in the core uses it.
- Hotkey dispatch, `close()` (`reset` and `stop` of the provider) and the listener thread belong to the jkeymaster provider and are not modelled. `Hotkeys.BoundListener` stands only for the exact-keystroke lookup the provider performs.
- Hotkeys.Bind: re-registering a keystroke that is already bound is up to the provider. The model chooses to replace the old listener.
- Automation.Automaton.TypeCharWithModifiers: with no robot and a held modifier the source throws a `NullPointerException`. If the robot rejects a modifier's key code, `IllegalArgumentException` propagates. Both cases are preconditions here and are not modelled as results.
- The robot's field is never reassigned after construction, so it is a constant here. Concurrent use of the robot by several threads is not modelled.
- Key codes and failure counts are Java `int`s. They are only compared and counted, never computed on, and a string's failure count cannot exceed its length, so no overflow is modelled.
- The demo programs (`Example`, `HeartDemo`, `SpeedDemo`) are not part of this model.
