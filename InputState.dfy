/** `InputState`: what a button's two-frame history says about it. */
module InputStates {
  datatype InputState = Up | Pressed | Down | Released

  /** The button is down in the current frame. */
  predicate IsDown(s: InputState) {
    s.Pressed? || s.Down?
  }

  /** The button was down in the previous frame. */
  predicate WasDown(s: InputState) {
    s.Down? || s.Released?
  }

  /** The state of a button from its current and previous register entries. */
  function StateOf(current: bool, previous: bool): (s: InputState)
    ensures IsDown(s) == current && WasDown(s) == previous
  {
    if current then
      if previous then Down else Pressed
    else
      if previous then Released else Up
  }

  /** Each state arises from exactly one history, so the two views are inverse. */
  lemma StateOfRoundTrip(s: InputState, current: bool, previous: bool)
    ensures StateOf(IsDown(s), WasDown(s)) == s
    ensures StateOf(current, previous) == s <==> current == IsDown(s) && previous == WasDown(s)
  {
  }
}
