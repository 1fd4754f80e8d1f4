/** The Modifier enum: four modifier keys, each with its key code and input mask. */
module ModifierKeys {
  import opened Awt

  /** The constants in declaration order: Ctrl, Shift, Alt, AltGr. */
  datatype Modifier = Ctrl | Shift | Alt | AltGr
  {
    /** The virtual key code pressed and released for this modifier (getVKC). */
    function KeyCode(): int
    {
      match this
      case Ctrl => VK_CONTROL
      case Shift => VK_SHIFT
      case Alt => VK_ALT
      case AltGr => VK_ALT_GRAPH
    }

    /** The extended input mask of this modifier (getInputMask). */
    function InputMask(): int
    {
      match this
      case Ctrl => CTRL_DOWN_MASK
      case Shift => SHIFT_DOWN_MASK
      case Alt => ALT_DOWN_MASK
      case AltGr => ALT_GRAPH_DOWN_MASK
    }
  }

  /** Modifier.values(): every constant once, in declaration order. */
  const Values: seq<Modifier> := [Ctrl, Shift, Alt, AltGr]

  /** Values enumerates the enum exactly: every constant occurs, at one index only. */
  lemma ValuesEnumerateModifiers()
    ensures |Values| == 4
    ensures forall m: Modifier :: m in Values
    ensures forall i, j :: 0 <= i < j < |Values| ==> Values[i] != Values[j]
  {
    forall m: Modifier
      ensures m in Values
    {
      match m
      case Ctrl => assert Values[0] == m;
      case Shift => assert Values[1] == m;
      case Alt => assert Values[2] == m;
      case AltGr => assert Values[3] == m;
    }
  }

  /** Distinct modifiers have distinct key codes and distinct input masks. */
  lemma KeyCodesAndMasksDistinct(m: Modifier, n: Modifier)
    requires m != n
    ensures m.KeyCode() != n.KeyCode()
    ensures m.InputMask() != n.InputMask()
  {
  }
}
