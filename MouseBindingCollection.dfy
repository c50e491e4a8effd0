/**
 * MouseBindingCollection: per button, ordered handler lists for "pressed" and
 * "released" (the `ButtonCount` key is the "any button" bucket, reachable only
 * through the `…Any…` methods), plus flat lists for wheel and move handlers.
 * A keyed method given `ButtonCount` throws; a removal that empties a bucket
 * deletes it.
 */
module MouseBindings {
  import opened Results
  import opened Events
  import opened Buckets
  import Multicast

  /** A structural request: one call of an Add/Remove method of a collection. */
  datatype MouseOp =
    | AddPressed(button: Button, handler: Handler)
    | AddReleased(button: Button, handler: Handler)
    | AddAnyPressed(handler: Handler)
    | AddAnyReleased(handler: Handler)
    | AddWheel(handler: Handler)
    | AddMoved(handler: Handler)
    | RemovePressed(button: Button, handler: Handler)
    | RemoveReleased(button: Button, handler: Handler)
    | RemoveAnyPressed(handler: Handler)
    | RemoveAnyReleased(handler: Handler)
    | RemoveWheel(handler: Handler)
    | RemoveMoved(handler: Handler)

  /** The four handler stores of a collection. */
  datatype MouseTables = MouseTables(pressed: Table<Button>, released: Table<Button>,
                                     wheel: seq<Handler>, moved: seq<Handler>)

  const EmptyTables: MouseTables := MouseTables(map[], map[], [], [])

  /** The class invariant: no button is bound to an empty list. */
  ghost predicate TablesValid(t: MouseTables) {
    NoEmpty(t.pressed) && NoEmpty(t.released)
  }

  /** A request that throws: a keyed method called with `ButtonCount`. */
  predicate Rejected(op: MouseOp) {
    (op.AddPressed? || op.AddReleased? || op.RemovePressed? || op.RemoveReleased?)
    && op.button == ButtonCount
  }

  /** The tables after some requests, and whether the last one threw. */
  datatype Run = Run(tables: MouseTables, outcome: Outcome<Exception>)

  /** The effect of one structural request. A rejected request changes nothing. */
  function Apply(t: MouseTables, op: MouseOp): (r: Run)
    ensures r.outcome.Fail? <==> Rejected(op)
    ensures r.outcome.Fail? ==> r.tables == t && r.outcome.error == InvalidButton
  {
    match op
    case AddPressed(b, h) =>
      if b == ButtonCount then Run(t, Fail(InvalidButton))
      else Run(t.(pressed := Append(t.pressed, b, h)), Pass)
    case AddReleased(b, h) =>
      if b == ButtonCount then Run(t, Fail(InvalidButton))
      else Run(t.(released := Append(t.released, b, h)), Pass)
    case AddAnyPressed(h) => Run(t.(pressed := Append(t.pressed, ButtonCount, h)), Pass)
    case AddAnyReleased(h) => Run(t.(released := Append(t.released, ButtonCount, h)), Pass)
    case AddWheel(h) => Run(t.(wheel := t.wheel + [h]), Pass)
    case AddMoved(h) => Run(t.(moved := t.moved + [h]), Pass)
    case RemovePressed(b, h) =>
      if b == ButtonCount then Run(t, Fail(InvalidButton))
      else Run(t.(pressed := RemovePruned(t.pressed, b, h)), Pass)
    case RemoveReleased(b, h) =>
      if b == ButtonCount then Run(t, Fail(InvalidButton))
      else Run(t.(released := RemovePruned(t.released, b, h)), Pass)
    case RemoveAnyPressed(h) => Run(t.(pressed := RemovePruned(t.pressed, ButtonCount, h)), Pass)
    case RemoveAnyReleased(h) => Run(t.(released := RemovePruned(t.released, ButtonCount, h)), Pass)
    case RemoveWheel(h) => Run(t.(wheel := RemoveFirst(t.wheel, h)), Pass)
    case RemoveMoved(h) => Run(t.(moved := RemoveFirst(t.moved, h)), Pass)
  }

  /** Every request keeps the class invariant. */
  lemma ApplyKeepsValid(t: MouseTables, op: MouseOp)
    requires TablesValid(t)
    ensures TablesValid(Apply(t, op).tables)
  {
  }

  /**
   * Requests run in order until one throws: the requests before it have taken
   * effect, the rest are not run.
   */
  function ApplyAll(t: MouseTables, ops: seq<MouseOp>): (r: Run)
    decreases |ops|
  {
    if ops == [] then Run(t, Pass)
    else
      var step := Apply(t, ops[0]);
      if step.outcome.Fail? then step else ApplyAll(step.tables, ops[1..])
  }

  /** A run throws exactly when one of its requests is rejected, and then with `InvalidButton`. */
  lemma {:induction false} ApplyAllFails(t: MouseTables, ops: seq<MouseOp>)
    ensures ApplyAll(t, ops).outcome.Fail? <==> exists i :: 0 <= i < |ops| && Rejected(ops[i])
    ensures ApplyAll(t, ops).outcome.Fail? ==> ApplyAll(t, ops).outcome.error == InvalidButton
    decreases |ops|
  {
    if ops != [] {
      ApplyAllFails(Apply(t, ops[0]).tables, ops[1..]);
      if exists i :: 1 <= i < |ops| && Rejected(ops[i]) {
        var i :| 1 <= i < |ops| && Rejected(ops[i]);
        assert Rejected(ops[1..][i - 1]);
      }
      if exists i :: 0 <= i < |ops[1..]| && Rejected(ops[1..][i]) {
        var i :| 0 <= i < |ops[1..]| && Rejected(ops[1..][i]);
        assert Rejected(ops[i + 1]);
      }
    }
  }

  /**
   * Whether a run throws does not depend on the tables it starts from: a queue
   * holding a rejected request throws every time it is run.
   */
  lemma RejectedRequestRepeats(t: MouseTables, u: MouseTables, ops: seq<MouseOp>)
    requires ApplyAll(t, ops).outcome.Fail?
    ensures ApplyAll(u, ops).outcome.Fail?
  {
    ApplyAllFails(t, ops);
    ApplyAllFails(u, ops);
  }

  /** A run that gets through `a` continues with `b` from where `a` left the tables. */
  lemma {:induction false} ApplyAllSplit(t: MouseTables, a: seq<MouseOp>, b: seq<MouseOp>)
    requires ApplyAll(t, a).outcome.Pass?
    ensures ApplyAll(t, a + b) == ApplyAll(ApplyAll(t, a).tables, b)
    decreases |a|
  {
    if a == [] {
      assert a + b == b;
    } else {
      assert (a + b)[0] == a[0];
      assert (a + b)[1..] == a[1..] + b;
      ApplyAllSplit(Apply(t, a[0]).tables, a[1..], b);
    }
  }

  /**
   * One more request of a run that got through its first `i` requests: the
   * prefix of `i + 1` requests ends as that request leaves the tables, and a
   * rejected request ends the whole run there.
   */
  lemma PrefixStep(t: MouseTables, ops: seq<MouseOp>, i: nat)
    requires i < |ops|
    requires ApplyAll(t, ops[..i]).outcome.Pass?
    ensures ApplyAll(t, ops[..i + 1]) == Apply(ApplyAll(t, ops[..i]).tables, ops[i])
    ensures Apply(ApplyAll(t, ops[..i]).tables, ops[i]).outcome.Fail? ==>
              ApplyAll(t, ops) == Apply(ApplyAll(t, ops[..i]).tables, ops[i])
  {
    var before, step, after := ops[..i], [ops[i]], ops[i..];
    assert ops[..i + 1] == before + step;
    ApplyAllSplit(t, before, step);
    assert step[1..] == [];
    assert ops == before + after;
    ApplyAllSplit(t, before, after);
    assert after[0] == ops[i];
  }

  /** A run keeps the class invariant however it ends. */
  lemma {:induction false} ApplyAllKeepsValid(t: MouseTables, ops: seq<MouseOp>)
    requires TablesValid(t)
    ensures TablesValid(ApplyAll(t, ops).tables)
    decreases |ops|
  {
    if ops != [] {
      ApplyKeepsValid(t, ops[0]);
      ApplyAllKeepsValid(Apply(t, ops[0]).tables, ops[1..]);
    }
  }

  /**
   * Removing the handler just added to a button undoes the addition exactly
   * (with `ButtonCount` both calls throw and change nothing).
   */
  lemma AddThenRemovePressed(t: MouseTables, b: Button, h: Handler)
    requires TablesValid(t) && h !in Bucket(t.pressed, b)
    ensures Apply(Apply(t, AddPressed(b, h)).tables, RemovePressed(b, h)).tables == t
  {
    RemovePrunedAfterAppend(t.pressed, b, h);
  }

  /** The same for the "any button" bucket, which the keyed methods cannot reach. */
  lemma AddThenRemoveAnyReleased(t: MouseTables, h: Handler)
    requires TablesValid(t) && h !in Bucket(t.released, ButtonCount)
    ensures Apply(Apply(t, AddAnyReleased(h)).tables, RemoveAnyReleased(h)) == Run(t, Pass)
  {
    RemovePrunedAfterAppend(t.released, ButtonCount, h);
  }

  /** The same for the flat wheel list. */
  lemma AddThenRemoveWheel(t: MouseTables, h: Handler)
    requires h !in t.wheel
    ensures Apply(Apply(t, AddWheel(h)).tables, RemoveWheel(h)) == Run(t, Pass)
  {
    RemoveFirstAppend(t.wheel, h);
  }

  /** What a button removal writes to the console. */
  function PrunedLog(m: Table<Button>, b: Button, h: Handler, d: Direction): seq<Diagnostic> {
    if b !in m then [RemoveFromUnbound(b, d)]
    else if h !in m[b] then [RemoveMissingHandler(b, d)]
    else if RemoveFirst(m[b], h) == [] then [BucketPruned(b, d)]
    else []
  }

  /** What a wheel or move removal writes to the console. */
  function FlatLog(s: seq<Handler>, h: Handler): seq<Diagnostic> {
    if h in s then [] else [RemoveMissingFlat]
  }

  function PressedCalls(t: MouseTables, args: MouseButtonEventArgs): seq<Invocation> {
    Calls(Handlers(t.pressed, args.button, ButtonCount), ButtonEvent(args))
  }

  function ReleasedCalls(t: MouseTables, args: MouseButtonEventArgs): seq<Invocation> {
    Calls(Handlers(t.released, args.button, ButtonCount), ButtonEvent(args))
  }

  function WheelCalls(t: MouseTables, args: MouseWheelEventArgs): seq<Invocation> {
    Calls(t.wheel, WheelEvent(args))
  }

  function MovedCalls(t: MouseTables, args: MouseMoveEventArgs): seq<Invocation> {
    Calls(t.moved, MoveEvent(args))
  }

  class MouseBindingCollection {
    var onButtonPressed: Table<Button>
    var onButtonReleased: Table<Button>
    var onWheelMoved: seq<Handler>
    var onMoved: seq<Handler>
    /** Invocation lists of the private events `_buttonPressed`, …, `_moved`. */
    var buttonPressed: seq<MouseBindingCollection>
    var buttonReleased: seq<MouseBindingCollection>
    var wheelMoved: seq<MouseBindingCollection>
    var moved: seq<MouseBindingCollection>
    ghost var log: seq<Diagnostic>

    ghost function Tables(): MouseTables
      reads this`onButtonPressed, this`onButtonReleased, this`onWheelMoved, this`onMoved
    {
      MouseTables(onButtonPressed, onButtonReleased, onWheelMoved, onMoved)
    }

    /** No button maps to an empty bucket. */
    ghost predicate Valid()
      reads this`onButtonPressed, this`onButtonReleased, this`onWheelMoved, this`onMoved
    {
      TablesValid(Tables())
    }

    constructor ()
      ensures Tables() == EmptyTables && Valid()
      ensures buttonPressed == [this] && buttonReleased == [this]
      ensures wheelMoved == [this] && moved == [this]
      ensures log == []
    {
      onButtonPressed := map[];
      onButtonReleased := map[];
      onWheelMoved := [];
      onMoved := [];
      buttonPressed := [this];
      buttonReleased := [this];
      wheelMoved := [this];
      moved := [this];
      log := [];
    }

    method AddOnPressed(button: Button, bind: Handler) returns (o: Outcome<Exception>)
      requires Valid()
      modifies this`onButtonPressed
      ensures Run(Tables(), o) == Apply(old(Tables()), AddPressed(button, bind))
      ensures Valid()
    {
      if button == ButtonCount {
        return Fail(InvalidButton);
      }
      if button !in onButtonPressed {
        onButtonPressed := onButtonPressed[button := []];
      }
      onButtonPressed := onButtonPressed[button := onButtonPressed[button] + [bind]];
      o := Pass;
    }

    method AddOnReleased(button: Button, bind: Handler) returns (o: Outcome<Exception>)
      requires Valid()
      modifies this`onButtonReleased
      ensures Run(Tables(), o) == Apply(old(Tables()), AddReleased(button, bind))
      ensures Valid()
    {
      if button == ButtonCount {
        return Fail(InvalidButton);
      }
      if button !in onButtonReleased {
        onButtonReleased := onButtonReleased[button := []];
      }
      onButtonReleased := onButtonReleased[button := onButtonReleased[button] + [bind]];
      o := Pass;
    }

    method AddOnAnyPressed(bind: Handler)
      requires Valid()
      modifies this`onButtonPressed
      ensures Tables() == Apply(old(Tables()), AddAnyPressed(bind)).tables
      ensures Valid()
    {
      if ButtonCount !in onButtonPressed {
        onButtonPressed := onButtonPressed[ButtonCount := []];
      }
      onButtonPressed := onButtonPressed[ButtonCount := onButtonPressed[ButtonCount] + [bind]];
    }

    method AddOnAnyReleased(bind: Handler)
      requires Valid()
      modifies this`onButtonReleased
      ensures Tables() == Apply(old(Tables()), AddAnyReleased(bind)).tables
      ensures Valid()
    {
      if ButtonCount !in onButtonReleased {
        onButtonReleased := onButtonReleased[ButtonCount := []];
      }
      onButtonReleased := onButtonReleased[ButtonCount := onButtonReleased[ButtonCount] + [bind]];
    }

    method AddOnWheelChanged(bind: Handler)
      requires Valid()
      modifies this`onWheelMoved
      ensures Tables() == Apply(old(Tables()), AddWheel(bind)).tables
      ensures Valid()
    {
      onWheelMoved := onWheelMoved + [bind];
    }

    method AddOnMoved(bind: Handler)
      requires Valid()
      modifies this`onMoved
      ensures Tables() == Apply(old(Tables()), AddMoved(bind)).tables
      ensures Valid()
    {
      onMoved := onMoved + [bind];
    }

    /** The shared body of the four button removals, on the dictionary `m`. */
    static method RemoveFromTable(m: Table<Button>, b: Button, bind: Handler, d: Direction)
      returns (r: Table<Button>, written: seq<Diagnostic>)
      ensures r == RemovePruned(m, b, bind)
      ensures written == PrunedLog(m, b, bind, d)
    {
      r := m;
      written := [];
      if b in m {
        if bind !in m[b] {
          written := [RemoveMissingHandler(b, d)];
          return;
        }
        r := m[b := RemoveFirst(m[b], bind)];
        if |r[b]| == 0 {
          r := r - {b};
          written := [BucketPruned(b, d)];
        }
      } else {
        written := [RemoveFromUnbound(b, d)];
      }
    }

    method RemoveOnPressed(button: Button, bind: Handler) returns (o: Outcome<Exception>)
      requires Valid()
      modifies this`onButtonPressed, this`log
      ensures Run(Tables(), o) == Apply(old(Tables()), RemovePressed(button, bind))
      ensures log == old(log) + if o.Fail? then [] else PrunedLog(old(onButtonPressed), button, bind, Direction.OnPressed)
      ensures Valid()
    {
      if button == ButtonCount {
        return Fail(InvalidButton);
      }
      var written;
      onButtonPressed, written := RemoveFromTable(onButtonPressed, button, bind, Direction.OnPressed);
      log := log + written;
      o := Pass;
    }

    method RemoveOnAnyPressed(bind: Handler)
      requires Valid()
      modifies this`onButtonPressed, this`log
      ensures Tables() == Apply(old(Tables()), RemoveAnyPressed(bind)).tables
      ensures log == old(log) + PrunedLog(old(onButtonPressed), ButtonCount, bind, Direction.OnPressed)
      ensures Valid()
    {
      var written;
      onButtonPressed, written := RemoveFromTable(onButtonPressed, ButtonCount, bind, Direction.OnPressed);
      log := log + written;
    }

    method RemoveOnReleased(button: Button, bind: Handler) returns (o: Outcome<Exception>)
      requires Valid()
      modifies this`onButtonReleased, this`log
      ensures Run(Tables(), o) == Apply(old(Tables()), RemoveReleased(button, bind))
      ensures log == old(log) + if o.Fail? then [] else PrunedLog(old(onButtonReleased), button, bind, Direction.OnReleased)
      ensures Valid()
    {
      if button == ButtonCount {
        return Fail(InvalidButton);
      }
      var written;
      onButtonReleased, written := RemoveFromTable(onButtonReleased, button, bind, Direction.OnReleased);
      log := log + written;
      o := Pass;
    }

    method RemoveOnAnyReleased(bind: Handler)
      requires Valid()
      modifies this`onButtonReleased, this`log
      ensures Tables() == Apply(old(Tables()), RemoveAnyReleased(bind)).tables
      ensures log == old(log) + PrunedLog(old(onButtonReleased), ButtonCount, bind, Direction.OnReleased)
      ensures Valid()
    {
      var written;
      onButtonReleased, written := RemoveFromTable(onButtonReleased, ButtonCount, bind, Direction.OnReleased);
      log := log + written;
    }

    method RemoveOnWheelChanged(bind: Handler)
      requires Valid()
      modifies this`onWheelMoved, this`log
      ensures Tables() == Apply(old(Tables()), RemoveWheel(bind)).tables
      ensures log == old(log) + FlatLog(old(onWheelMoved), bind)
      ensures Valid()
    {
      if bind in onWheelMoved {
        onWheelMoved := RemoveFirst(onWheelMoved, bind);
      } else {
        log := log + [RemoveMissingFlat];
      }
    }

    method RemoveOnMoved(bind: Handler)
      requires Valid()
      modifies this`onMoved, this`log
      ensures Tables() == Apply(old(Tables()), RemoveMoved(bind)).tables
      ensures log == old(log) + FlatLog(old(onMoved), bind)
      ensures Valid()
    {
      if bind in onMoved {
        onMoved := RemoveFirst(onMoved, bind);
      } else {
        log := log + [RemoveMissingFlat];
      }
    }

    /** Runs one structural request through the method that implements it. */
    method Perform(op: MouseOp) returns (o: Outcome<Exception>)
      requires Valid()
      modifies this`onButtonPressed, this`onButtonReleased, this`onWheelMoved, this`onMoved, this`log
      ensures Run(Tables(), o) == Apply(old(Tables()), op)
      ensures Valid()
    {
      o := Pass;
      match op
      case AddPressed(b, h) => o := AddOnPressed(b, h);
      case AddReleased(b, h) => o := AddOnReleased(b, h);
      case AddAnyPressed(h) => AddOnAnyPressed(h);
      case AddAnyReleased(h) => AddOnAnyReleased(h);
      case AddWheel(h) => AddOnWheelChanged(h);
      case AddMoved(h) => AddOnMoved(h);
      case RemovePressed(b, h) => o := RemoveOnPressed(b, h);
      case RemoveReleased(b, h) => o := RemoveOnReleased(b, h);
      case RemoveAnyPressed(h) => RemoveOnAnyPressed(h);
      case RemoveAnyReleased(h) => RemoveOnAnyReleased(h);
      case RemoveWheel(h) => RemoveOnWheelChanged(h);
      case RemoveMoved(h) => RemoveOnMoved(h);
    }

    /** `Chain(bindings)`: the other collection's four event lists are appended to this one's. */
    method Chain(bindings: MouseBindingCollection)
      modifies this`buttonPressed, this`buttonReleased, this`wheelMoved, this`moved
      ensures buttonPressed == old(buttonPressed) + old(bindings.buttonPressed)
      ensures buttonReleased == old(buttonReleased) + old(bindings.buttonReleased)
      ensures wheelMoved == old(wheelMoved) + old(bindings.wheelMoved)
      ensures moved == old(moved) + old(bindings.moved)
      ensures Tables() == old(Tables()) && Valid() == old(Valid())
    {
      var p, r, w, m := bindings.buttonPressed, bindings.buttonReleased, bindings.wheelMoved, bindings.moved;
      buttonPressed := buttonPressed + p;
      buttonReleased := buttonReleased + r;
      wheelMoved := wheelMoved + w;
      moved := moved + m;
    }

    /** `Dechain(bindings)`: the last occurrence of each of the other collection's lists is removed. */
    method Dechain(bindings: MouseBindingCollection)
      modifies this`buttonPressed, this`buttonReleased, this`wheelMoved, this`moved
      ensures buttonPressed == Multicast.Remove(old(buttonPressed), old(bindings.buttonPressed))
      ensures buttonReleased == Multicast.Remove(old(buttonReleased), old(bindings.buttonReleased))
      ensures wheelMoved == Multicast.Remove(old(wheelMoved), old(bindings.wheelMoved))
      ensures moved == Multicast.Remove(old(moved), old(bindings.moved))
      ensures Tables() == old(Tables()) && Valid() == old(Valid())
    {
      var p, r, w, m := bindings.buttonPressed, bindings.buttonReleased, bindings.wheelMoved, bindings.moved;
      buttonPressed := Multicast.Remove(buttonPressed, p);
      buttonReleased := Multicast.Remove(buttonReleased, r);
      wheelMoved := Multicast.Remove(wheelMoved, w);
      moved := Multicast.Remove(moved, m);
    }

    /** `chain + link`. */
    static method Plus(chain: MouseBindingCollection, link: MouseBindingCollection)
      returns (r: MouseBindingCollection)
      modifies chain`buttonPressed, chain`buttonReleased, chain`wheelMoved, chain`moved
      ensures r == chain
      ensures chain.buttonPressed == old(chain.buttonPressed) + old(link.buttonPressed)
      ensures chain.buttonReleased == old(chain.buttonReleased) + old(link.buttonReleased)
      ensures chain.wheelMoved == old(chain.wheelMoved) + old(link.wheelMoved)
      ensures chain.moved == old(chain.moved) + old(link.moved)
      ensures chain.Tables() == old(chain.Tables()) && chain.Valid() == old(chain.Valid())
    {
      chain.Chain(link);
      r := chain;
    }

    /** `chain - link`. */
    static method Minus(chain: MouseBindingCollection, link: MouseBindingCollection)
      returns (r: MouseBindingCollection)
      modifies chain`buttonPressed, chain`buttonReleased, chain`wheelMoved, chain`moved
      ensures r == chain
      ensures chain.buttonPressed == Multicast.Remove(old(chain.buttonPressed), old(link.buttonPressed))
      ensures chain.buttonReleased == Multicast.Remove(old(chain.buttonReleased), old(link.buttonReleased))
      ensures chain.wheelMoved == Multicast.Remove(old(chain.wheelMoved), old(link.wheelMoved))
      ensures chain.moved == Multicast.Remove(old(chain.moved), old(link.moved))
      ensures chain.Tables() == old(chain.Tables()) && chain.Valid() == old(chain.Valid())
    {
      chain.Dechain(link);
      r := chain;
    }

    method OnPressed(args: MouseButtonEventArgs) returns (calls: seq<Invocation>)
      ensures calls == PressedCalls(Tables(), args)
    {
      calls := [];
      if args.button in onButtonPressed {
        calls := CallEventList(onButtonPressed[args.button], ButtonEvent(args));
      }
      if ButtonCount in onButtonPressed {
        var any := CallEventList(onButtonPressed[ButtonCount], ButtonEvent(args));
        calls := calls + any;
      }
      CallsAppend(Bucket(onButtonPressed, args.button), Bucket(onButtonPressed, ButtonCount), ButtonEvent(args));
    }

    method OnReleased(args: MouseButtonEventArgs) returns (calls: seq<Invocation>)
      ensures calls == ReleasedCalls(Tables(), args)
    {
      calls := [];
      if args.button in onButtonReleased {
        calls := CallEventList(onButtonReleased[args.button], ButtonEvent(args));
      }
      if ButtonCount in onButtonReleased {
        var any := CallEventList(onButtonReleased[ButtonCount], ButtonEvent(args));
        calls := calls + any;
      }
      CallsAppend(Bucket(onButtonReleased, args.button), Bucket(onButtonReleased, ButtonCount), ButtonEvent(args));
    }

    method OnWheelMoved(args: MouseWheelEventArgs) returns (calls: seq<Invocation>)
      ensures calls == WheelCalls(Tables(), args)
    {
      calls := CallEventList(onWheelMoved, WheelEvent(args));
    }

    method OnMoved(args: MouseMoveEventArgs) returns (calls: seq<Invocation>)
      ensures calls == MovedCalls(Tables(), args)
    {
      calls := CallEventList(onMoved, MoveEvent(args));
    }
  }
}
