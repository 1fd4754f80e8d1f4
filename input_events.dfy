/**
 * The input sink: what a java.awt.Robot is asked to inject, recorded as a
 * log of events instead of being sent to the operating system.
 */
module InputEvents {
  datatype Event =
    | KeyPress(code: int)
    | KeyRelease(code: int)
    | MousePress(buttons: int)
    | MouseRelease(buttons: int)
    | MouseMove(x: int, y: int)

  /**
   * A Robot as far as the core can observe it: whether it accepts a key code
   * (keyPress and keyRelease throw IllegalArgumentException otherwise).
   */
  datatype Robot = Robot(validKey: int -> bool)
}
