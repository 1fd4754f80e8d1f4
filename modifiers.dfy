/** The Modifiers class: the set of modifier keys a keystroke or hotkey holds down. */
module ModifierSets {
  import opened ModifierKeys

  class Modifiers {
    /** Held modifiers map to true; the source never stores false. */
    var modifierMap: map<Modifier, bool>

    /** The map only ever stores true, so presence in it means held. */
    ghost predicate Valid()
      reads this
    {
      forall m :: m in modifierMap ==> modifierMap[m]
    }

    /** Every argument is held and nothing else is; order and repetition do not matter. */
    constructor (modifiers: seq<Modifier>)
      ensures Valid()
      ensures modifierMap.Keys == set m | m in modifiers
      ensures forall m :: Held(m) <==> m in modifiers
    {
      modifierMap := map[];
      new;
      for i := 0 to |modifiers|
        invariant Valid()
        invariant modifierMap.Keys == set m | m in modifiers[..i]
      {
        modifierMap := modifierMap[modifiers[i] := true];
      }
      assert modifiers[..|modifiers|] == modifiers;
    }

    /** Whether m is held; a modifier absent from the map is not (getOrDefault). */
    function Held(m: Modifier): (held: bool)
      reads this
      ensures Valid() ==> (held <==> m in modifierMap)
      ensures held ==> m in modifierMap
    {
      if m in modifierMap then modifierMap[m] else false
    }

    /** The held modifiers as a set value. */
    function HeldSet(): (s: set<Modifier>)
      reads this
      ensures forall m :: m in s <==> Held(m)
    {
      ValuesEnumerateModifiers();
      set m | m in Values && Held(m)
    }
  }

  /**
   * Two Modifiers built from argument lists naming the same modifiers (in
   * any order, with any repetition) agree on every modifier.
   */
  method BuildFromSameModifiers(a: seq<Modifier>, b: seq<Modifier>) returns (x: Modifiers, y: Modifiers)
    requires forall m :: m in a <==> m in b
    ensures forall m :: x.Held(m) == y.Held(m)
    ensures x.HeldSet() == y.HeldSet()
  {
    x := new Modifiers(a);
    y := new Modifiers(b);
  }

  /** new Modifiers() holds nothing. */
  method BuildEmpty() returns (x: Modifiers)
    ensures forall m :: !x.Held(m)
    ensures x.HeldSet() == {}
  {
    x := new Modifiers([]);
  }
}
