/**
 * The identities and event values shared by the keyboard and the mouse:
 * key and button codes, the event argument records, handlers and the record
 * of a handler invocation.
 */
module Events {
  import opened Int32

  /** `Keyboard.Key`: `Unknown` is -1, `A` is 0, ..., `Pause` is 100. */
  const Unknown: int := -1
  const Pause: int := 100
  /** `Keyboard.Key.KeyCount`, also used as the "any key" bucket. */
  const KeyCount: int := 101

  type Key = k: int | Unknown <= k <= KeyCount

  /** `Mouse.Button`: `Left` is 0, ..., `XButton2` is 4. */
  const ButtonCount: int := 5

  type Button = b: int | 0 <= b <= ButtonCount

  /**
   * A subscribed callback (`DeleHandler<T>`). Only its identity matters: lists
   * are searched with delegate equality.
   */
  datatype Handler = Handler(id: nat)

  /** A game state, used as a key of the per-state binding collections. */
  datatype GameState = GameState(id: nat)

  datatype KeyEventArgs = KeyEventArgs(key: Key, alt: bool, control: bool, shift: bool, system: bool)

  datatype MouseButtonEventArgs = MouseButtonEventArgs(x: int32, y: int32, button: Button)

  datatype MouseWheelEventArgs = MouseWheelEventArgs(x: int32, y: int32, delta: int32)

  datatype MouseMoveEventArgs = MouseMoveEventArgs(x: int32, y: int32)

  /** The argument a handler receives. */
  datatype InputEvent =
    | KeyEvent(keyArgs: KeyEventArgs)
    | ButtonEvent(buttonArgs: MouseButtonEventArgs)
    | WheelEvent(wheelArgs: MouseWheelEventArgs)
    | MoveEvent(moveArgs: MouseMoveEventArgs)

  /** One call of a handler with an event argument. */
  datatype Invocation = Invocation(handler: Handler, event: InputEvent)

  /** The direction of an edge-triggered binding. */
  datatype Direction = OnPressed | OnReleased

  /** What the code writes to the game console. */
  datatype Diagnostic =
    | RemoveFromUnbound(key: int, direction: Direction)
    | RemoveMissingHandler(key: int, direction: Direction)
    | BucketPruned(key: int, direction: Direction)
    | RemoveMissingFlat
    | KeyPressedLogged(code: int)
    | KeyReleasedLogged(code: int)
    | ButtonPressedLogged(pressed: Button, px: int32, py: int32)
    | ButtonReleasedLogged(released: Button, rx: int32, ry: int32)
    | WheelLogged(wdelta: int32, wheelX: int32, wheelY: int32)

  /** The calls made by running the handler list `hs` in index order with `e`. */
  function Calls(hs: seq<Handler>, e: InputEvent): seq<Invocation> {
    if hs == [] then [] else [Invocation(hs[0], e)] + Calls(hs[1..], e)
  }

  /** Running a list calls each entry exactly once, in list order. */
  lemma {:induction false} CallsAt(hs: seq<Handler>, e: InputEvent)
    ensures |Calls(hs, e)| == |hs|
    ensures forall i :: 0 <= i < |hs| ==> Calls(hs, e)[i] == Invocation(hs[i], e)
  {
    if hs != [] {
      CallsAt(hs[1..], e);
    }
  }

  /** Concatenating call records is associative. */
  lemma CallsAssoc(x: seq<Invocation>, y: seq<Invocation>, z: seq<Invocation>)
    ensures x + (y + z) == (x + y) + z
  {
  }

  /** Running two lists one after the other is running their concatenation. */
  lemma {:induction false} CallsAppend(a: seq<Handler>, b: seq<Handler>, e: InputEvent)
    ensures Calls(a + b, e) == Calls(a, e) + Calls(b, e)
  {
    if a == [] {
      assert a + b == b;
    } else {
      assert (a + b)[1..] == a[1..] + b;
      CallsAppend(a[1..], b, e);
    }
  }

  /**
   * `CallEventList`: the count is read once on entry and entries 0..count-1 are
   * called in index order.
   */
  method CallEventList(events: seq<Handler>, args: InputEvent) returns (calls: seq<Invocation>)
    ensures calls == Calls(events, args)
  {
    var length := |events|;
    calls := [];
    for i := 0 to length
      invariant calls == Calls(events[..i], args)
    {
      assert events[..i + 1] == events[..i] + [events[i]];
      CallsAppend(events[..i], [events[i]], args);
      calls := calls + [Invocation(events[i], args)];
    }
    assert events[..length] == events;
  }
}
