/**
 * What typing injects: the event log and the success value of typeVirtual,
 * type(char), type(char, Modifiers) and type(String), as functions of the
 * robot, the character-to-key-code mapping and the held modifiers.
 */
module Keystrokes {
  import opened Wrappers
  import opened ModifierKeys
  import opened InputEvents

  /**
   * A Java char: one UTF-16 code unit. type(String) walks toCharArray(), so
   * a character outside the Basic Multilingual Plane is typed as two
   * surrogate units, each attempted on its own.
   */
  newtype JChar = c: int | 0 <= c < 0x10000

  /** A Java String as its sequence of UTF-16 code units. */
  type JString = seq<JChar>

  /** typeVirtual succeeds: a robot is present and it accepts the key code. */
  predicate KeyAccepted(robot: Option<Robot>, vkc: int)
  {
    robot.Some? && robot.value.validKey(vkc)
  }

  /** The events of typeVirtual(vkc): a press then a release when accepted, nothing otherwise. */
  function TypeVirtualEvents(robot: Option<Robot>, vkc: int): seq<Event>
  {
    if KeyAccepted(robot, vkc) then [KeyPress(vkc), KeyRelease(vkc)] else []
  }

  /** m's key code when m is held, nothing otherwise. */
  function HeldCode(m: Modifier, held: set<Modifier>): seq<int>
  {
    if m in held then [m.KeyCode()] else []
  }

  /** The key codes of the modifiers of ms that are held, in the order of ms. */
  function HeldKeyCodes(ms: seq<Modifier>, held: set<Modifier>): seq<int>
  {
    if ms == [] then []
    else
      var m := ms[|ms| - 1];
      HeldKeyCodes(ms[..|ms| - 1], held) + HeldCode(m, held)
  }

  /** No element of s occurs twice. */
  predicate NoDuplicates<T(==)>(s: seq<T>)
  {
    forall i, j :: 0 <= i < j < |s| ==> s[i] != s[j]
  }

  /** A press of each of the codes, in order. */
  function Presses(codes: seq<int>): seq<Event>
  {
    seq(|codes|, i requires 0 <= i < |codes| => KeyPress(codes[i]))
  }

  /** A release of each of the codes, in order. */
  function Releases(codes: seq<int>): seq<Event>
  {
    seq(|codes|, i requires 0 <= i < |codes| => KeyRelease(codes[i]))
  }

  /**
   * The events of type(c, modifiers) for a character whose key code is vkc:
   * the held modifiers pressed in declaration order, the keystroke, and the
   * held modifiers released in that same order.
   */
  function TypeWithModifiersEvents(robot: Option<Robot>, vkc: int, held: set<Modifier>): seq<Event>
  {
    var codes := HeldKeyCodes(Values, held);
    Presses(codes) + TypeVirtualEvents(robot, vkc) + Releases(codes)
  }

  /** The events of type(s): each character's keystroke, left to right. */
  function TypeStringEvents(robot: Option<Robot>, keyCodeForChar: JChar -> int, s: JString): seq<Event>
  {
    if s == [] then []
    else TypeStringEvents(robot, keyCodeForChar, s[..|s| - 1]) + TypeVirtualEvents(robot, keyCodeForChar(s[|s| - 1]))
  }

  /** The result of type(s): how many characters were not typed. */
  function FailureCount(robot: Option<Robot>, keyCodeForChar: JChar -> int, s: JString): (failed: nat)
    ensures failed <= |s|
    ensures s == [] ==> failed == 0
  {
    if s == [] then 0
    else
      FailureCount(robot, keyCodeForChar, s[..|s| - 1])
      + (if KeyAccepted(robot, keyCodeForChar(s[|s| - 1])) then 0 else 1)
  }

  // ---- typeVirtual ----

  /** A keystroke injects two events exactly when it succeeds, and none otherwise. */
  lemma TypeVirtualEventsShape(robot: Option<Robot>, vkc: int)
    ensures |TypeVirtualEvents(robot, vkc)| == if KeyAccepted(robot, vkc) then 2 else 0
    ensures robot.None? ==> TypeVirtualEvents(robot, vkc) == []
  {
  }

  // ---- modifier composition ----

  /** Extending ms by one modifier adds that modifier's code at the end when it is held. */
  lemma HeldKeyCodesSnoc(ms: seq<Modifier>, m: Modifier, held: set<Modifier>)
    ensures HeldKeyCodes(ms + [m], held) == HeldKeyCodes(ms, held) + HeldCode(m, held)
  {
  }

  /** A code occurs among the held codes iff some held modifier of ms has it. */
  lemma {:induction false} HeldKeyCodesMembership(ms: seq<Modifier>, held: set<Modifier>, k: int)
    ensures k in HeldKeyCodes(ms, held) <==> exists m :: m in ms && m in held && m.KeyCode() == k
  {
    if ms != [] {
      var init, m := ms[..|ms| - 1], ms[|ms| - 1];
      assert ms == init + [m];
      HeldKeyCodesMembership(init, held, k);
      if k in HeldKeyCodes(ms, held) && k !in HeldKeyCodes(init, held) {
        assert m in ms && m in held && m.KeyCode() == k;
      }
      if exists n :: n in ms && n in held && n.KeyCode() == k {
        var n :| n in ms && n in held && n.KeyCode() == k;
        if n != m {
          assert n in init;
        }
      }
    }
  }

  /** When ms repeats no modifier, no held code is pressed twice. */
  lemma {:induction false} HeldKeyCodesDistinct(ms: seq<Modifier>, held: set<Modifier>)
    requires NoDuplicates(ms)
    ensures NoDuplicates(HeldKeyCodes(ms, held))
  {
    if ms != [] {
      var init, m := ms[..|ms| - 1], ms[|ms| - 1];
      HeldKeyCodesDistinct(init, held);
      var prev := HeldKeyCodes(init, held);
      if m in held {
        forall n | n in init && n in held
          ensures n.KeyCode() != m.KeyCode()
        {
          var idx :| 0 <= idx < |init| && init[idx] == n;
          assert ms[idx] == n && ms[|ms| - 1] == m;
          KeyCodesAndMasksDistinct(n, m);
        }
        HeldKeyCodesMembership(init, held, m.KeyCode());
        assert m.KeyCode() !in prev;
        var codes := HeldKeyCodes(ms, held);
        assert codes == prev + [m.KeyCode()];
        forall i, j | 0 <= i < j < |codes|
          ensures codes[i] != codes[j]
        {
          assert codes[i] == prev[i] && prev[i] in prev;
          if j < |prev| {
            assert codes[j] == prev[j];
          } else {
            assert codes[j] == m.KeyCode();
          }
        }
      } else {
        assert HeldKeyCodes(ms, held) == prev;
      }
    }
  }

  /** With nothing held, no modifier code is produced. */
  lemma {:induction false} HeldKeyCodesNoneHeld(ms: seq<Modifier>)
    ensures HeldKeyCodes(ms, {}) == []
  {
    if ms != [] {
      HeldKeyCodesNoneHeld(ms[..|ms| - 1]);
    }
  }

  /**
   * Each held modifier is pressed exactly once and released exactly once,
   * and no other modifier key is touched.
   */
  lemma HeldModifiersPressedOnce(held: set<Modifier>)
    ensures var codes := HeldKeyCodes(Values, held);
      (forall m :: m in held <==> m.KeyCode() in codes) && NoDuplicates(codes)
  {
    ValuesEnumerateModifiers();
    var codes := HeldKeyCodes(Values, held);
    forall m
      ensures m in held <==> m.KeyCode() in codes
    {
      HeldKeyCodesMembership(Values, held, m.KeyCode());
      if m.KeyCode() in codes {
        var n :| n in Values && n in held && n.KeyCode() == m.KeyCode();
        if n != m {
          KeyCodesAndMasksDistinct(n, m);
        }
      }
    }
    HeldKeyCodesDistinct(Values, held);
  }

  /** The modifier keys are pressed in declaration order Ctrl, Shift, Alt, AltGr. */
  lemma PressOrderIsDeclarationOrder(held: set<Modifier>)
    ensures HeldKeyCodes(Values, held)
      == HeldCode(Ctrl, held) + HeldCode(Shift, held) + HeldCode(Alt, held) + HeldCode(AltGr, held)
  {
    var one, two, three := [Ctrl], [Ctrl, Shift], [Ctrl, Shift, Alt];
    HeldKeyCodesSnoc([], Ctrl, held);
    assert [] + [Ctrl] == one;
    HeldKeyCodesSnoc(one, Shift, held);
    assert one + [Shift] == two;
    HeldKeyCodesSnoc(two, Alt, held);
    assert two + [Alt] == three;
    HeldKeyCodesSnoc(three, AltGr, held);
    assert three + [AltGr] == Values;
  }

  /**
   * The modifiers are released in the order they were pressed (not in
   * reverse): the i-th release is of the key of the i-th press.
   */
  lemma ReleaseOrderIsPressOrder(robot: Option<Robot>, vkc: int, held: set<Modifier>)
    ensures var codes := HeldKeyCodes(Values, held);
      var log := TypeWithModifiersEvents(robot, vkc, held);
      var n, k := |codes|, |TypeVirtualEvents(robot, vkc)|;
      |log| == 2 * n + k
      && (forall i :: 0 <= i < n ==> log[i] == KeyPress(codes[i]) && log[n + k + i] == KeyRelease(codes[i]))
      && log[n..n + k] == TypeVirtualEvents(robot, vkc)
  {
  }

  /** With no modifier held, type(c, modifiers) injects exactly what type(c) does. */
  lemma NoModifiersSameAsPlain(robot: Option<Robot>, vkc: int)
    ensures TypeWithModifiersEvents(robot, vkc, {}) == TypeVirtualEvents(robot, vkc)
  {
    HeldKeyCodesNoneHeld(Values);
  }

  /** Ctrl and Shift around a keystroke: both pressed, keystroke, both released, Ctrl first each time. */
  lemma CtrlShiftExample(robot: Option<Robot>, vkc: int)
    ensures TypeWithModifiersEvents(robot, vkc, {Shift, Ctrl})
      == [KeyPress(Awt.VK_CONTROL), KeyPress(Awt.VK_SHIFT)]
       + TypeVirtualEvents(robot, vkc)
       + [KeyRelease(Awt.VK_CONTROL), KeyRelease(Awt.VK_SHIFT)]
  {
    PressOrderIsDeclarationOrder({Shift, Ctrl});
  }

  // ---- strings ----

  /** Typing s then t fails as often as typing s + t. */
  lemma {:induction false} FailureCountAppend(robot: Option<Robot>, keyCodeForChar: JChar -> int, s: JString, t: JString)
    ensures FailureCount(robot, keyCodeForChar, s + t)
      == FailureCount(robot, keyCodeForChar, s) + FailureCount(robot, keyCodeForChar, t)
  {
    if t == [] {
      assert s + t == s;
    } else {
      var init := t[..|t| - 1];
      assert (s + t)[..|s + t| - 1] == s + init;
      FailureCountAppend(robot, keyCodeForChar, s, init);
    }
  }

  /** The log of s + t is the log of s followed by the log of t: no character is skipped. */
  lemma {:induction false} TypeStringEventsAppend(robot: Option<Robot>, keyCodeForChar: JChar -> int, s: JString, t: JString)
    ensures TypeStringEvents(robot, keyCodeForChar, s + t)
      == TypeStringEvents(robot, keyCodeForChar, s) + TypeStringEvents(robot, keyCodeForChar, t)
  {
    if t == [] {
      assert s + t == s;
    } else {
      var init := t[..|t| - 1];
      assert (s + t)[..|s + t| - 1] == s + init;
      TypeStringEventsAppend(robot, keyCodeForChar, s, init);
    }
  }

  /** type(s) reports no failure iff every character's key code is accepted. */
  lemma {:induction false} NoFailuresIffAllAccepted(robot: Option<Robot>, keyCodeForChar: JChar -> int, s: JString)
    ensures FailureCount(robot, keyCodeForChar, s) == 0
      <==> forall i :: 0 <= i < |s| ==> KeyAccepted(robot, keyCodeForChar(s[i]))
  {
    if s != [] {
      var init := s[..|s| - 1];
      NoFailuresIffAllAccepted(robot, keyCodeForChar, init);
      if FailureCount(robot, keyCodeForChar, s) == 0 {
        forall i | 0 <= i < |s|
          ensures KeyAccepted(robot, keyCodeForChar(s[i]))
        {
          if i < |s| - 1 {
            assert s[i] == init[i];
          }
        }
      }
    }
  }

  /** type(s) reports every character failed iff none of their key codes is accepted. */
  lemma {:induction false} AllFailIffNoneAccepted(robot: Option<Robot>, keyCodeForChar: JChar -> int, s: JString)
    ensures FailureCount(robot, keyCodeForChar, s) == |s|
      <==> forall i :: 0 <= i < |s| ==> !KeyAccepted(robot, keyCodeForChar(s[i]))
  {
    if s != [] {
      var init := s[..|s| - 1];
      AllFailIffNoneAccepted(robot, keyCodeForChar, init);
      if FailureCount(robot, keyCodeForChar, s) == |s| {
        forall i | 0 <= i < |s|
          ensures !KeyAccepted(robot, keyCodeForChar(s[i]))
        {
          if i < |s| - 1 {
            assert s[i] == init[i];
          }
        }
      }
    }
  }

  /** Every character typed injects a press and a release; a failed one injects nothing. */
  lemma {:induction false} TypeStringEventCount(robot: Option<Robot>, keyCodeForChar: JChar -> int, s: JString)
    ensures |TypeStringEvents(robot, keyCodeForChar, s)| == 2 * (|s| - FailureCount(robot, keyCodeForChar, s))
  {
    if s != [] {
      TypeStringEventCount(robot, keyCodeForChar, s[..|s| - 1]);
    }
  }

  /** Without a robot, type(s) injects nothing and counts every character as failed. */
  lemma {:induction false} NoRobotTypesNothing(keyCodeForChar: JChar -> int, s: JString)
    ensures TypeStringEvents(None, keyCodeForChar, s) == []
    ensures FailureCount(None, keyCodeForChar, s) == |s|
  {
    if s != [] {
      NoRobotTypesNothing(keyCodeForChar, s[..|s| - 1]);
    }
  }

  /**
   * A failing character does not stop the ones after it: when a types and
   * b does not, typing [a, b] reports one failure and a is still typed.
   */
  lemma PartialFailureExample(robot: Option<Robot>, keyCodeForChar: JChar -> int, a: JChar, b: JChar)
    requires KeyAccepted(robot, keyCodeForChar(a))
    requires !KeyAccepted(robot, keyCodeForChar(b))
    ensures FailureCount(robot, keyCodeForChar, [a, b]) == 1
    ensures TypeStringEvents(robot, keyCodeForChar, [a, b])
      == [KeyPress(keyCodeForChar(a)), KeyRelease(keyCodeForChar(a))]
  {
    assert [a, b][..1] == [a];
    assert [a][..0] == [];
    assert TypeStringEvents(robot, keyCodeForChar, [a]) == TypeVirtualEvents(robot, keyCodeForChar(a));
    assert TypeVirtualEvents(robot, keyCodeForChar(b)) == [];
  }

  /**
   * U+1F600 is the surrogate pair 0xD83D 0xDE00: two attempts, so when
   * neither unit maps to an accepted key, type(String) reports two failures.
   */
  lemma SurrogatePairIsTwoAttempts(robot: Option<Robot>, keyCodeForChar: JChar -> int)
    requires !KeyAccepted(robot, keyCodeForChar(0xD83D))
    requires !KeyAccepted(robot, keyCodeForChar(0xDE00))
    ensures FailureCount(robot, keyCodeForChar, [0xD83D, 0xDE00]) == 2
    ensures TypeStringEvents(robot, keyCodeForChar, [0xD83D, 0xDE00]) == []
  {
    var s: JString := [0xD83D, 0xDE00];
    assert s[..1] == [0xD83D];
    assert s[..1][..0] == [];
    assert TypeStringEvents(robot, keyCodeForChar, s[..1]) == TypeVirtualEvents(robot, keyCodeForChar(0xD83D)) == [];
    assert TypeVirtualEvents(robot, keyCodeForChar(0xDE00)) == [];
  }
}
