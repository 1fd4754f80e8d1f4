/**
 * The hotkey table kept by the global-listener provider, as seen through
 * registerHotkey and unregisterHotkey: a map from a keystroke (key code and
 * the exact set of held modifiers) to the listener it runs.
 */
module Hotkeys {
  import opened Wrappers
  import opened ModifierKeys

  /** A keystroke: a key code together with exactly the modifiers that must be held. */
  datatype Hotkey = Hotkey(keyCode: int, modifiers: set<Modifier>)

  /** Stands for the identity of a registered Runnable. */
  type ListenerId = nat

  /** The table after registering hk for listener; a second registration replaces the first. */
  function Bind(table: map<Hotkey, ListenerId>, hk: Hotkey, listener: ListenerId): (t: map<Hotkey, ListenerId>)
    ensures hk in t && t[hk] == listener
    ensures forall other :: other != hk ==> (other in t <==> other in table)
    ensures forall other :: other != hk && other in table ==> t[other] == table[other]
  {
    table[hk := listener]
  }

  /** The table after unregistering hk; unregistering an absent keystroke changes nothing. */
  function Unbind(table: map<Hotkey, ListenerId>, hk: Hotkey): (t: map<Hotkey, ListenerId>)
    ensures hk !in t
    ensures forall other :: other != hk ==> (other in t <==> other in table)
    ensures forall other :: other in t ==> t[other] == table[other]
  {
    table - {hk}
  }

  /** The listener bound to a press of keyCode with exactly the modifiers in pressed held. */
  function BoundListener(table: map<Hotkey, ListenerId>, keyCode: int, pressed: set<Modifier>): Option<ListenerId>
  {
    var hk := Hotkey(keyCode, pressed);
    if hk in table then Some(table[hk]) else None
  }

  /**
   * A hotkey bound with no modifiers answers only the bare key: a press with
   * any modifier held finds whatever was bound before, not the new listener.
   */
  lemma UnmodifiedHotkeyIgnoresHeldModifiers(table: map<Hotkey, ListenerId>, keyCode: int, listener: ListenerId, pressed: set<Modifier>)
    ensures BoundListener(Bind(table, Hotkey(keyCode, {}), listener), keyCode, {}) == Some(listener)
    ensures pressed != {} ==>
      BoundListener(Bind(table, Hotkey(keyCode, {}), listener), keyCode, pressed) == BoundListener(table, keyCode, pressed)
  {
  }

  /** Unregistering a keystroke that was never registered leaves the table as it was. */
  lemma UnbindAbsentIsNoOp(table: map<Hotkey, ListenerId>, hk: Hotkey)
    requires hk !in table
    ensures Unbind(table, hk) == table
  {
  }

  /** Registering then unregistering a fresh keystroke restores the table. */
  lemma BindThenUnbindRestores(table: map<Hotkey, ListenerId>, hk: Hotkey, listener: ListenerId)
    requires hk !in table
    ensures Unbind(Bind(table, hk, listener), hk) == table
  {
  }

  /** Registering the same keystroke twice keeps only the second listener. */
  lemma RebindReplaces(table: map<Hotkey, ListenerId>, hk: Hotkey, first: ListenerId, second: ListenerId)
    ensures Bind(Bind(table, hk, first), hk, second) == Bind(table, hk, second)
  {
  }
}
