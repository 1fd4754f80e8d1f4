/** The ClickType enum: a mouse button kind and the button mask a click uses. */
module ClickTypes {
  import opened Wrappers
  import opened Awt

  datatype ClickType = Left | Right | Middle
  {
    /**
     * getButtonMask as the source declares it: Right is given BUTTON2 and
     * Middle BUTTON3, which AWT numbers the other way round.
     */
    function ButtonMaskAsWritten(): int
    {
      match this
      case Left => BUTTON1_DOWN_MASK
      case Right => BUTTON2_DOWN_MASK
      case Middle => BUTTON3_DOWN_MASK
    }

    /** The mask that presses the button this click type names. */
    function ButtonMask(): int
    {
      match this
      case Left => BUTTON1_DOWN_MASK
      case Right => BUTTON3_DOWN_MASK
      case Middle => BUTTON2_DOWN_MASK
    }

    /** The physical button the click type names. */
    function Button(): MouseButton
    {
      match this
      case Left => LeftButton
      case Right => RightButton
      case Middle => MiddleButton
    }
  }

  /** As written, a Right click presses the middle button and a Middle click the right one. */
  lemma RightAndMiddleSwappedAsWritten()
    ensures ButtonOfMask(Right.ButtonMaskAsWritten()) == Some(MiddleButton)
    ensures ButtonOfMask(Middle.ButtonMaskAsWritten()) == Some(RightButton)
    ensures ButtonOfMask(Left.ButtonMaskAsWritten()) == Some(LeftButton)
  {
  }

  /** Every click type's mask presses exactly the button it names, and the masks differ. */
  lemma ButtonMaskPressesNamedButton(t: ClickType, u: ClickType)
    ensures ButtonOfMask(t.ButtonMask()) == Some(t.Button())
    ensures t != u ==> t.ButtonMask() != u.ButtonMask()
  {
  }
}
