/**
 * Facts of the java.awt library that the core relies on: the key codes of
 * KeyEvent and the extended modifier masks of InputEvent, with the values the
 * JDK gives them, and which physical mouse button each button mask stands for.
 */
module Awt {
  import opened Wrappers

  // KeyEvent virtual key codes of the modifier keys
  const VK_SHIFT: int := 0x10
  const VK_CONTROL: int := 0x11
  const VK_ALT: int := 0x12
  const VK_ALT_GRAPH: int := 0xFF7E

  // InputEvent extended modifier masks (one bit each)
  const SHIFT_DOWN_MASK: int := 0x40
  const CTRL_DOWN_MASK: int := 0x80
  const ALT_DOWN_MASK: int := 0x200
  const BUTTON1_DOWN_MASK: int := 0x400
  const BUTTON2_DOWN_MASK: int := 0x800
  const BUTTON3_DOWN_MASK: int := 0x1000
  const ALT_GRAPH_DOWN_MASK: int := 0x2000

  /** The physical buttons of a three-button mouse. */
  datatype MouseButton = LeftButton | MiddleButton | RightButton

  /**
   * The button a Robot presses for a single-button mask: AWT numbers the
   * buttons left (1), middle (2), right (3).
   */
  function ButtonOfMask(mask: int): (b: Option<MouseButton>)
    ensures b.Some? <==> mask in {BUTTON1_DOWN_MASK, BUTTON2_DOWN_MASK, BUTTON3_DOWN_MASK}
  {
    if mask == BUTTON1_DOWN_MASK then Some(LeftButton)
    else if mask == BUTTON2_DOWN_MASK then Some(MiddleButton)
    else if mask == BUTTON3_DOWN_MASK then Some(RightButton)
    else None
  }
}
