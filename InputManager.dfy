/**
 * InputManager: per-device gates computed from the settings and the window's
 * focus, the frame calls forwarded to the keyboard and then the mouse, and
 * the bookkeeping of the window the devices listen to.
 */
module Input {
  import opened Results
  import opened Events
  import KeyboardBindings
  import MouseBindings
  import KeyboardDevice
  import MouseDevice

  /** The four flags `UpdateDevices` reads from `InputSettings`. */
  datatype InputSettings = InputSettings(
    focusedInputOnly: bool,
    focusedGamePadInputOnly: bool,
    focusedKeyoardInputOnly: bool,
    focusedMouseInputOnly: bool)

  /** Whether each device class is updated with focus this frame. */
  datatype Gates = Gates(any: bool, gamepad: bool, keyboard: bool, mouse: bool)

  /** Some flag is set, so computing the gates reads the window's focus. */
  predicate ReadsFocus(s: InputSettings) {
    s.focusedInputOnly || s.focusedGamePadInputOnly || s.focusedKeyoardInputOnly || s.focusedMouseInputOnly
  }

  /**
   * The gates of `UpdateDevices`: a device is gated open iff the window is
   * focused or neither the global flag nor the device's own flag is set.
   */
  function DeviceGates(s: InputSettings, focused: bool): (g: Gates)
    ensures g.any <==> focused || !s.focusedInputOnly
    ensures g.gamepad <==> focused || (!s.focusedInputOnly && !s.focusedGamePadInputOnly)
    ensures g.keyboard <==> focused || (!s.focusedInputOnly && !s.focusedKeyoardInputOnly)
    ensures g.mouse <==> focused || (!s.focusedInputOnly && !s.focusedMouseInputOnly)
  {
    var any := if s.focusedInputOnly then focused else true;
    var gamepad := if any then (if s.focusedGamePadInputOnly then focused else true) else false;
    var keyboard := if any then (if s.focusedKeyoardInputOnly then focused else true) else false;
    var mouse := if any then (if s.focusedMouseInputOnly then focused else true) else false;
    Gates(any, gamepad, keyboard, mouse)
  }

  /** With focus every gate is open. */
  lemma FocusOpensEveryGate(s: InputSettings)
    ensures DeviceGates(s, true) == Gates(true, true, true, true)
  {
  }

  /** With the global flag set and no focus every gate is closed. */
  lemma GlobalFlagClosesEveryGate(s: InputSettings)
    requires s.focusedInputOnly
    ensures DeviceGates(s, false) == Gates(false, false, false, false)
  {
  }

  /** Without any flag the gates do not depend on focus, and all are open. */
  lemma NoFlagIgnoresFocus(s: InputSettings, focused: bool)
    requires !ReadsFocus(s)
    ensures DeviceGates(s, focused) == Gates(true, true, true, true)
  {
  }

  /** A game window, known by identity. */
  datatype Window = Window(id: nat)

  /** A window gaining or losing the devices' handlers on its input events. */
  datatype WindowStep = Attached(window: Window) | Detached(window: Window)

  /** The windows whose events hold the devices' handlers after the steps of `log`. */
  function Subscribed(log: seq<WindowStep>): multiset<Window>
    decreases |log|
  {
    if log == [] then multiset{}
    else
      var before := Subscribed(log[..|log| - 1]);
      var step := log[|log| - 1];
      if step.Attached? then before + multiset{step.window} else before - multiset{step.window}
  }

  lemma SubscribedStep(log: seq<WindowStep>, step: WindowStep)
    ensures step.Attached? ==> Subscribed(log + [step]) == Subscribed(log) + multiset{step.window}
    ensures step.Detached? ==> Subscribed(log + [step]) == Subscribed(log) - multiset{step.window}
  {
    assert (log + [step])[..|log + [step]| - 1] == log;
  }

  /** The subscriptions held when exactly the stored window is attached. */
  function Only(window: Option<Window>): multiset<Window> {
    if window.Some? then multiset{window.value} else multiset{}
  }

  class InputManager {
    const keyboard: KeyboardDevice.Keyboard
    const mouse: MouseDevice.Mouse
    const settings: InputSettings
    var window: Option<Window>
    /** The `_beginFrame` one-time actions; the class never queues one. */
    var oneTime: seq<Handler>
    ghost var windowLog: seq<WindowStep>

    ghost predicate Valid()
      reads this`window, this`windowLog
      reads keyboard`gameOrder, keyboard`gameBindings, mouse`gameOrder, mouse`gameBindings
      reads mouse.bindings`onButtonPressed, mouse.bindings`onButtonReleased
      reads mouse.bindings`onWheelMoved, mouse.bindings`onMoved
    {
      && keyboard.Valid()
      && mouse.Valid()
      && Subscribed(windowLog) == Only(window)
    }

    constructor (args: InputSettings)
      ensures Valid()
      ensures fresh(keyboard) && fresh(mouse)
      ensures settings == args && window == None && oneTime == []
    {
      keyboard := new KeyboardDevice.Keyboard();
      mouse := new MouseDevice.Mouse();
      settings := args;
      window := None;
      oneTime := [];
      windowLog := [];
    }

    /** `RemoveWindow`: detaches the stored window; with none stored the detach throws. */
    method RemoveWindow() returns (o: Outcome<Exception>)
      requires Valid()
      modifies this`window, this`windowLog
      ensures Valid()
      ensures window == None
      ensures o.Fail? <==> old(window).None?
      ensures o.Fail? ==> o.error == NullReference && windowLog == old(windowLog)
      ensures o.Pass? ==> windowLog == old(windowLog) + [Detached(old(window).value)]
    {
      if window.None? {
        return Fail(NullReference);
      }
      SubscribedStep(windowLog, Detached(window.value));
      windowLog := windowLog + [Detached(window.value)];
      window := None;
      o := Pass;
    }

    /**
     * `SetWindow`: a stored window is detached first, then the new one is
     * stored and attached, so only the stored window is ever subscribed.
     */
    method SetWindow(w: Window)
      requires Valid()
      modifies this`window, this`windowLog
      ensures Valid()
      ensures window == Some(w)
      ensures windowLog == old(windowLog)
                         + (if old(window).Some? then [Detached(old(window).value)] else [])
                         + [Attached(w)]
    {
      if window.Some? {
        var _ := RemoveWindow();
      }
      Attach(w);
    }

    /** Stores and attaches a window while none is stored. */
    method Attach(w: Window)
      requires Valid() && window == None
      modifies this`window, this`windowLog
      ensures Valid()
      ensures window == Some(w) && windowLog == old(windowLog) + [Attached(w)]
    {
      SubscribedStep(windowLog, Attached(w));
      windowLog := windowLog + [Attached(w)];
      window := Some(w);
    }

    /**
     * `BeginFrame`: the one-time actions, then the keyboard's queued requests,
     * then the mouse's. The keyboard's requests have taken effect even when a
     * rejected mouse request throws.
     */
    method BeginFrame() returns (ran: seq<Handler>, o: Outcome<Exception>)
      requires Valid()
      modifies this`oneTime, keyboard`beginFrame
      modifies keyboard.bindings`onKeyPressed, keyboard.bindings`onKeyReleased, keyboard.bindings`log
      modifies mouse`beginFrame, mouse.bindings`onButtonPressed, mouse.bindings`onButtonReleased
      modifies mouse.bindings`onWheelMoved, mouse.bindings`onMoved, mouse.bindings`log
      ensures Valid()
      ensures ran == old(oneTime) && oneTime == []
      ensures keyboard.bindings.Tables() == KeyboardBindings.ApplyAll(old(keyboard.bindings.Tables()), old(keyboard.beginFrame))
      ensures keyboard.beginFrame == []
      ensures MouseBindings.Run(mouse.bindings.Tables(), o)
              == MouseBindings.ApplyAll(old(mouse.bindings.Tables()), old(mouse.beginFrame))
      ensures mouse.beginFrame == if o.Pass? then [] else old(mouse.beginFrame)
    {
      ran := oneTime;
      oneTime := [];
      keyboard.BeginFrame();
      o := mouse.BeginFrame();
    }

    /**
     * `Update`: computes the gates, then updates the keyboard and then the
     * mouse. Reading the focus of a missing window throws before either
     * device changes.
     */
    method Update(focused: bool) returns (o: Outcome<Exception>, calls: seq<Invocation>)
      requires Valid()
      modifies keyboard.oldKeyDown, keyboard`update
      modifies mouse.oldButtonDown, mouse`oldX, mouse`oldY, mouse`x, mouse`y, mouse`prevX, mouse`prevY, mouse`update
      ensures Valid()
      ensures o.Fail? <==> window.None? && ReadsFocus(settings)
      ensures o.Fail? ==> o.error == NullReference && calls == []
                          && unchanged(keyboard.oldKeyDown, keyboard`update)
                          && unchanged(mouse.oldButtonDown, mouse`oldX, mouse`oldY, mouse`x, mouse`y)
                          && unchanged(mouse`prevX, mouse`prevY, mouse`update)
      ensures o.Pass? ==>
        var g := DeviceGates(settings, focused);
        && calls == (if g.keyboard then old(keyboard.Pending()) else [])
                    + (if g.mouse then old(mouse.Pending()) else [])
        && keyboard.oldKeyDown[..] == keyboard.isKeyDown[..]
        && mouse.oldButtonDown[..] == mouse.isButtonDown[..]
        && keyboard.update == (if g.keyboard then [] else old(keyboard.update))
        && mouse.update == (if g.mouse then [] else old(mouse.update))
    {
      if window.None? && ReadsFocus(settings) {
        return Fail(NullReference), [];
      }
      var g := DeviceGates(settings, focused);
      ghost var mousePending := mouse.Pending();
      var keyboardCalls := keyboard.Update(g.keyboard);
      assert mouse.Valid() && mouse.Pending() == mousePending;
      var mouseCalls := mouse.Update(g.mouse);
      calls := keyboardCalls + mouseCalls;
      o := Pass;
    }
  }
}
