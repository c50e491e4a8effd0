/**
 * The mouse device: a double-buffered button register, the cursor position
 * with its value at the last update and before the last move, the default
 * binding collection, one collection per game state, and the two deferred
 * queues.
 */
module MouseDevice {
  import opened Int32
  import opened Results
  import opened Events
  import opened StateOrder
  import opened MouseBindings
  import opened InputStates

  /** The register has one slot per real button: `ButtonCount` has none. */
  const RegisterLength: int := ButtonCount

  /**
   * A queued `_update` action: a dispatch holding the argument record built
   * when the raw event arrived, or the position step a move queues after its
   * dispatch.
   */
  datatype MouseDispatch =
    | DispatchPressed(buttonArgs: MouseButtonEventArgs)
    | DispatchReleased(buttonArgs: MouseButtonEventArgs)
    | DispatchWheel(wheelArgs: MouseWheelEventArgs)
    | DispatchMoved(moveArgs: MouseMoveEventArgs)
    | MoveTo(toX: int32, toY: int32)

  /** `X`, `Y`, `PrevX`, `PrevY`. */
  datatype Position = Position(x: int32, y: int32, prevX: int32, prevY: int32)

  /** The calls one collection makes for one queued action. */
  function CollectionCalls(t: MouseTables, d: MouseDispatch): seq<Invocation> {
    match d
    case DispatchPressed(args) => PressedCalls(t, args)
    case DispatchReleased(args) => ReleasedCalls(t, args)
    case DispatchWheel(args) => WheelCalls(t, args)
    case DispatchMoved(args) => MovedCalls(t, args)
    case MoveTo(_, _) => []
  }

  /** The calls the game-state collections make, in dictionary order. */
  function GameCalls(game: seq<MouseTables>, d: MouseDispatch): seq<Invocation>
    decreases |game|
  {
    if game == [] then [] else CollectionCalls(game[0], d) + GameCalls(game[1..], d)
  }

  lemma {:induction false} GameCallsAppend(a: seq<MouseTables>, b: seq<MouseTables>, d: MouseDispatch)
    ensures GameCalls(a + b, d) == GameCalls(a, d) + GameCalls(b, d)
    decreases |a|
  {
    if a == [] {
      assert a + b == b;
    } else {
      assert (a + b)[0] == a[0];
      assert (a + b)[1..] == a[1..] + b;
      GameCallsAppend(a[1..], b, d);
      CallsAssoc(CollectionCalls(a[0], d), GameCalls(a[1..], d), GameCalls(b, d));
    }
  }

  lemma GameCallsSingle(t: MouseTables, d: MouseDispatch)
    ensures GameCalls([t], d) == CollectionCalls(t, d)
  {
    assert [t][1..] == [];
  }

  /** The calls of the first `j + 1` game-state collections. */
  lemma GameCallsPrefix(game: seq<MouseTables>, j: nat, d: MouseDispatch)
    requires j < |game|
    ensures GameCalls(game[..j + 1], d) == GameCalls(game[..j], d) + CollectionCalls(game[j], d)
  {
    var before, step := game[..j], [game[j]];
    assert game[..j + 1] == before + step;
    GameCallsAppend(before, step, d);
    GameCallsSingle(game[j], d);
  }

  /** One queued action: every game-state collection, then the default collection. */
  function DispatchCalls(game: seq<MouseTables>, direct: MouseTables, d: MouseDispatch): seq<Invocation> {
    GameCalls(game, d) + CollectionCalls(direct, d)
  }

  /** A position step calls no handler. */
  lemma {:induction false} MoveToCallsNothing(game: seq<MouseTables>, direct: MouseTables, x: int32, y: int32)
    ensures DispatchCalls(game, direct, MoveTo(x, y)) == []
    decreases |game|
  {
    if game != [] {
      MoveToCallsNothing(game[1..], direct, x, y);
    }
  }

  /** The calls of a whole queue run in arrival order. */
  function QueueCalls(game: seq<MouseTables>, direct: MouseTables, q: seq<MouseDispatch>): seq<Invocation>
    decreases |q|
  {
    if q == [] then [] else DispatchCalls(game, direct, q[0]) + QueueCalls(game, direct, q[1..])
  }

  lemma {:induction false} QueueCallsAppend(game: seq<MouseTables>, direct: MouseTables, a: seq<MouseDispatch>, b: seq<MouseDispatch>)
    ensures QueueCalls(game, direct, a + b) == QueueCalls(game, direct, a) + QueueCalls(game, direct, b)
    decreases |a|
  {
    if a == [] {
      assert a + b == b;
    } else {
      var rest := a[1..];
      assert a == [a[0]] + rest;
      assert a + b == [a[0]] + (rest + b);
      QueueCallsCons(game, direct, a[0], rest);
      QueueCallsCons(game, direct, a[0], rest + b);
      QueueCallsAppend(game, direct, rest, b);
      CallsAssoc(DispatchCalls(game, direct, a[0]), QueueCalls(game, direct, rest), QueueCalls(game, direct, b));
    }
  }

  lemma QueueCallsCons(game: seq<MouseTables>, direct: MouseTables, d: MouseDispatch, rest: seq<MouseDispatch>)
    ensures QueueCalls(game, direct, [d] + rest) == DispatchCalls(game, direct, d) + QueueCalls(game, direct, rest)
  {
    assert ([d] + rest)[1..] == rest;
  }

  lemma QueueCallsSingle(game: seq<MouseTables>, direct: MouseTables, d: MouseDispatch)
    ensures QueueCalls(game, direct, [d]) == DispatchCalls(game, direct, d)
  {
    assert [d][1..] == [];
  }

  /** The calls of the first `i + 1` queued actions. */
  lemma QueueCallsPrefix(game: seq<MouseTables>, direct: MouseTables, q: seq<MouseDispatch>, i: nat)
    requires i < |q|
    ensures QueueCalls(game, direct, q[..i + 1]) == QueueCalls(game, direct, q[..i]) + DispatchCalls(game, direct, q[i])
  {
    var before, step := q[..i], [q[i]];
    assert q[..i + 1] == before + step;
    QueueCallsAppend(game, direct, before, step);
    QueueCallsSingle(game, direct, q[i]);
  }

  /** The position after the first `i + 1` queued actions. */
  lemma ReplayPrefix(p: Position, q: seq<MouseDispatch>, i: nat)
    requires i < |q|
    ensures Replay(p, q[..i + 1]) == Step(Replay(p, q[..i]), q[i])
  {
    var before, step := q[..i], [q[i]];
    assert q[..i + 1] == before + step;
    ReplayAppend(p, before, step);
    assert step[1..] == [];
  }

  /** The effect of one queued action on the position: only a position step moves it. */
  function Step(p: Position, d: MouseDispatch): Position {
    if d.MoveTo? then Position(d.toX, d.toY, p.x, p.y) else p
  }

  /** The position after a queue has run. */
  function Replay(p: Position, q: seq<MouseDispatch>): Position
    decreases |q|
  {
    if q == [] then p else Replay(Step(p, q[0]), q[1..])
  }

  lemma {:induction false} ReplayAppend(p: Position, a: seq<MouseDispatch>, b: seq<MouseDispatch>)
    ensures Replay(p, a + b) == Replay(Replay(p, a), b)
    decreases |a|
  {
    if a == [] {
      assert a + b == b;
    } else {
      assert (a + b)[0] == a[0];
      assert (a + b)[1..] == a[1..] + b;
      ReplayAppend(Step(p, a[0]), a[1..], b);
    }
  }

  /**
   * The two actions a raw move queues: while the move handlers run the position
   * is still the one before the move; afterwards it is the event's, and the
   * previous position is the one the handlers saw.
   */
  lemma MoveObservesOldPosition(p: Position, q: seq<MouseDispatch>, args: MouseMoveEventArgs)
    ensures Replay(p, q + [DispatchMoved(args)]) == Replay(p, q)
    ensures Replay(p, q + [DispatchMoved(args), MoveTo(args.x, args.y)])
            == Position(args.x, args.y, Replay(p, q).x, Replay(p, q).y)
  {
    var here := Replay(p, q);
    ReplayAppend(p, q, [DispatchMoved(args)]);
    ReplayAppend(p, q, [DispatchMoved(args), MoveTo(args.x, args.y)]);
    assert [DispatchMoved(args)][1..] == [];
    assert [DispatchMoved(args), MoveTo(args.x, args.y)][1..] == [MoveTo(args.x, args.y)];
    assert [MoveTo(args.x, args.y)][1..] == [];
    assert Replay(here, [DispatchMoved(args), MoveTo(args.x, args.y)]) == Replay(here, [MoveTo(args.x, args.y)]);
    assert Replay(here, [MoveTo(args.x, args.y)]) == Replay(Step(here, MoveTo(args.x, args.y)), []);
  }

  /** The tables of the game-state collections, in the order of `order`. */
  ghost function TablesOf(order: seq<GameState>, m: map<GameState, MouseBindingCollection>): (r: seq<MouseTables>)
    requires forall g :: g in order ==> g in m
    reads m.Values
    ensures |r| == |order|
    decreases |order|
  {
    if order == [] then [] else [m[order[0]].Tables()] + TablesOf(order[1..], m)
  }

  /** Entry `i` holds the tables of the collection mapped to the `i`-th state. */
  lemma {:induction false} TablesOfAt(order: seq<GameState>, m: map<GameState, MouseBindingCollection>, i: nat)
    requires forall g :: g in order ==> g in m
    requires i < |order|
    ensures TablesOf(order, m)[i] == m[order[i]].Tables()
    decreases |order|
  {
    if i > 0 {
      TablesOfAt(order[1..], m, i - 1);
    }
  }

  class Mouse {
    const isButtonDown: array<bool>
    const oldButtonDown: array<bool>
    /** Bindings made directly through the mouse. */
    const bindings: MouseBindingCollection
    /** Bindings made through game states, with the dictionary's enumeration order. */
    var gameBindings: map<GameState, MouseBindingCollection>
    var gameOrder: seq<GameState>
    var beginFrame: seq<MouseOp>
    var update: seq<MouseDispatch>
    var x: int32
    var y: int32
    var oldX: int32
    var oldY: int32
    var prevX: int32
    var prevY: int32
    ghost var log: seq<Diagnostic>

    ghost predicate Valid()
      reads this`gameOrder, this`gameBindings
      reads bindings`onButtonPressed, bindings`onButtonReleased, bindings`onWheelMoved, bindings`onMoved
    {
      && isButtonDown.Length == RegisterLength
      && oldButtonDown.Length == RegisterLength
      && isButtonDown != oldButtonDown
      && Distinct(gameOrder)
      && (forall g :: g in gameOrder <==> g in gameBindings)
      && bindings !in gameBindings.Values
      && bindings.Valid()
    }

    ghost function Pos(): Position
      reads this`x, this`y, this`prevX, this`prevY
    {
      Position(x, y, prevX, prevY)
    }

    ghost function GameTables(): seq<MouseTables>
      requires Valid()
      reads this`gameOrder, this`gameBindings, gameBindings.Values, bindings`onButtonPressed, bindings`onButtonReleased, bindings`onWheelMoved, bindings`onMoved
    {
      TablesOf(gameOrder, gameBindings)
    }

    /** The calls a focused `Update` would make now. */
    ghost function Pending(): seq<Invocation>
      requires Valid()
      reads this`gameOrder, this`gameBindings, this`update, gameBindings.Values, bindings
    {
      QueueCalls(GameTables(), bindings.Tables(), update)
    }

    constructor ()
      ensures Valid()
      ensures fresh(isButtonDown) && fresh(oldButtonDown) && fresh(bindings)
      ensures forall i :: 0 <= i < RegisterLength ==> !isButtonDown[i] && !oldButtonDown[i]
      ensures bindings.Tables() == EmptyTables
      ensures gameBindings == map[] && gameOrder == []
      ensures beginFrame == [] && update == [] && log == []
      ensures x == 0 && y == 0 && oldX == 0 && oldY == 0 && prevX == 0 && prevY == 0
    {
      isButtonDown := new bool[RegisterLength](_ => false);
      oldButtonDown := new bool[RegisterLength](_ => false);
      bindings := new MouseBindingCollection();
      gameBindings := map[];
      gameOrder := [];
      beginFrame := [];
      update := [];
      x, y, oldX, oldY, prevX, prevY := 0, 0, 0, 0, 0, 0;
      log := [];
    }

    /**
     * Runs the queued structural requests in order. A rejected request throws:
     * the requests before it have taken effect, the rest have not, and the
     * queue is not cleared.
     */
    method BeginFrame() returns (o: Outcome<Exception>)
      requires Valid()
      modifies this`beginFrame, bindings`onButtonPressed, bindings`onButtonReleased
      modifies bindings`onWheelMoved, bindings`onMoved, bindings`log
      ensures Valid()
      ensures Run(bindings.Tables(), o) == ApplyAll(old(bindings.Tables()), old(beginFrame))
      ensures beginFrame == if o.Pass? then [] else old(beginFrame)
    {
      ghost var start := bindings.Tables();
      var ops := beginFrame;
      var i := 0;
      while i < |ops|
        invariant 0 <= i <= |ops|
        invariant beginFrame == ops
        invariant ApplyAll(start, ops[..i]) == Run(bindings.Tables(), Pass)
        invariant Valid()
      {
        o := bindings.Perform(ops[i]);
        PrefixStep(start, ops, i);
        if o.Fail? {
          return;
        }
        i := i + 1;
      }
      assert ops[..|ops|] == ops;
      beginFrame := [];
      o := Pass;
    }

    /** `PushButtonRegister`: the whole current register becomes the old register. */
    method PushButtonRegister()
      requires Valid()
      modifies oldButtonDown
      ensures Valid()
      ensures oldButtonDown[..] == isButtonDown[..]
      ensures Pending() == old(Pending())
    {
      var length := RegisterLength;
      for i := 0 to length
        invariant forall j :: 0 <= j < i ==> oldButtonDown[j] == isButtonDown[j]
      {
        oldButtonDown[i] := isButtonDown[i];
      }
    }

    /** `PushMousePosition`: the current position becomes the position at the last update. */
    method PushMousePosition()
      requires Valid()
      modifies this`oldX, this`oldY
      ensures Valid()
      ensures oldX == x && oldY == y
      ensures Pending() == old(Pending())
    {
      oldX := x;
      oldY := y;
    }

    /** The calls one collection makes for a queued dispatch. */
    static method CollectionDispatch(c: MouseBindingCollection, d: MouseDispatch) returns (calls: seq<Invocation>)
      requires !d.MoveTo?
      ensures calls == CollectionCalls(c.Tables(), d)
    {
      match d
      case DispatchPressed(args) => calls := c.OnPressed(args);
      case DispatchReleased(args) => calls := c.OnReleased(args);
      case DispatchWheel(args) => calls := c.OnWheelMoved(args);
      case DispatchMoved(args) => calls := c.OnMoved(args);
    }

    /** One queued dispatch: the game-state collections in order, then the default one. */
    method Dispatch(d: MouseDispatch) returns (calls: seq<Invocation>)
      requires Valid() && !d.MoveTo?
      ensures calls == DispatchCalls(GameTables(), bindings.Tables(), d)
    {
      ghost var game := GameTables();
      calls := [];
      for j := 0 to |gameOrder|
        invariant calls == GameCalls(game[..j], d)
      {
        var cs := CollectionDispatch(gameBindings[gameOrder[j]], d);
        TablesOfAt(gameOrder, gameBindings, j);
        GameCallsPrefix(game, j, d);
        calls := calls + cs;
      }
      assert game[..|gameOrder|] == game;
      var direct := CollectionDispatch(bindings, d);
      calls := calls + direct;
    }

    /** One queued action: a dispatch, or the position step of a move. */
    method RunAction(d: MouseDispatch) returns (calls: seq<Invocation>)
      requires Valid()
      modifies this`x, this`y, this`prevX, this`prevY
      ensures GameTables() == old(GameTables()) && bindings.Tables() == old(bindings.Tables())
      ensures calls == DispatchCalls(GameTables(), bindings.Tables(), d)
      ensures Pos() == Step(old(Pos()), d)
    {
      if d.MoveTo? {
        prevX := x;
        prevY := y;
        x := d.toX;
        y := d.toY;
        MoveToCallsNothing(GameTables(), bindings.Tables(), d.toX, d.toY);
        calls := [];
      } else {
        calls := Dispatch(d);
      }
    }

    /** The `_update` action: the queued actions of `q` run in arrival order. */
    method RunQueue(q: seq<MouseDispatch>) returns (calls: seq<Invocation>)
      requires Valid()
      modifies this`x, this`y, this`prevX, this`prevY
      ensures Valid()
      ensures calls == QueueCalls(old(GameTables()), old(bindings.Tables()), q)
      ensures Pos() == Replay(old(Pos()), q)
    {
      ghost var game, direct, start := GameTables(), bindings.Tables(), Pos();
      calls := [];
      for i := 0 to |q|
        invariant GameTables() == game && bindings.Tables() == direct
        invariant calls == QueueCalls(game, direct, q[..i])
        invariant Pos() == Replay(start, q[..i])
      {
        var cs := RunAction(q[i]);
        QueueCallsPrefix(game, direct, q, i);
        ReplayPrefix(start, q, i);
        calls := calls + cs;
      }
      assert q[..|q|] == q;
    }

    /**
     * Pushes the register and the position, then, only with focus, runs the
     * queued actions in arrival order and empties the queue. Without focus the
     * queue is kept, so the position does not advance that frame.
     */
    method Update(focus: bool) returns (calls: seq<Invocation>)
      requires Valid()
      modifies oldButtonDown, this`oldX, this`oldY, this`x, this`y, this`prevX, this`prevY, this`update
      ensures Valid()
      ensures oldButtonDown[..] == isButtonDown[..] && isButtonDown[..] == old(isButtonDown[..])
      ensures oldX == old(x) && oldY == old(y)
      ensures focus ==> calls == old(Pending()) && Pos() == Replay(old(Pos()), old(update)) && update == []
      ensures !focus ==> calls == [] && Pos() == old(Pos()) && update == old(update)
    {
      PushButtonRegister();
      PushMousePosition();
      calls := [];
      if focus {
        calls := DrainQueue();
      }
    }

    /** Runs the queued actions, then empties the queue. */
    method DrainQueue() returns (calls: seq<Invocation>)
      requires Valid()
      modifies this`x, this`y, this`prevX, this`prevY, this`update
      ensures Valid()
      ensures calls == old(Pending()) && Pos() == Replay(old(Pos()), old(update)) && update == []
    {
      calls := RunQueue(update);
      update := [];
    }

    /** `CreateGameStateBindigs`: the state is mapped to a fresh empty collection, which is returned. */
    method CreateGameStateBindigs(gs: GameState) returns (collection: MouseBindingCollection)
      requires Valid()
      modifies this`gameBindings, this`gameOrder
      ensures Valid()
      ensures fresh(collection) && collection.Tables() == EmptyTables && collection.Valid()
      ensures gameBindings == old(gameBindings)[gs := collection]
      ensures gameOrder == Insert(old(gameOrder), gs)
    {
      collection := new MouseBindingCollection();
      gameBindings := gameBindings[gs := collection];
      gameOrder := Insert(gameOrder, gs);
    }

    /** `RemoveGameBindings`: only that state's entry goes. */
    method RemoveGameBindings(gs: GameState)
      requires Valid()
      modifies this`gameBindings, this`gameOrder
      ensures Valid()
      ensures gameBindings == old(gameBindings) - {gs}
      ensures gameOrder == Erase(old(gameOrder), gs)
    {
      gameBindings := gameBindings - {gs};
      gameOrder := Erase(gameOrder, gs);
    }

    /** The deferred subscriptions: one request is queued, nothing else changes. */
    method AddOnPressed(button: Button, bind: Handler)
      modifies this`beginFrame
      ensures beginFrame == old(beginFrame) + [AddPressed(button, bind)]
    {
      beginFrame := beginFrame + [AddPressed(button, bind)];
    }

    method AddOnReleased(button: Button, bind: Handler)
      modifies this`beginFrame
      ensures beginFrame == old(beginFrame) + [AddReleased(button, bind)]
    {
      beginFrame := beginFrame + [AddReleased(button, bind)];
    }

    method AddOnWheelChanged(bind: Handler)
      modifies this`beginFrame
      ensures beginFrame == old(beginFrame) + [AddWheel(bind)]
    {
      beginFrame := beginFrame + [AddWheel(bind)];
    }

    method AddOnMoved(bind: Handler)
      modifies this`beginFrame
      ensures beginFrame == old(beginFrame) + [AddMoved(bind)]
    {
      beginFrame := beginFrame + [AddMoved(bind)];
    }

    method RemoveOnPressed(button: Button, bind: Handler)
      modifies this`beginFrame
      ensures beginFrame == old(beginFrame) + [RemovePressed(button, bind)]
    {
      beginFrame := beginFrame + [RemovePressed(button, bind)];
    }

    method RemoveOnReleased(button: Button, bind: Handler)
      modifies this`beginFrame
      ensures beginFrame == old(beginFrame) + [RemoveReleased(button, bind)]
    {
      beginFrame := beginFrame + [RemoveReleased(button, bind)];
    }

    method RemoveOnWheelChanged(bind: Handler)
      modifies this`beginFrame
      ensures beginFrame == old(beginFrame) + [RemoveWheel(bind)]
    {
      beginFrame := beginFrame + [RemoveWheel(bind)];
    }

    method RemoveOnMoved(bind: Handler)
      modifies this`beginFrame
      ensures beginFrame == old(beginFrame) + [RemoveMoved(bind)]
    {
      beginFrame := beginFrame + [RemoveMoved(bind)];
    }

    /** `IsButtonDown`: throws for `ButtonCount`, else the current register entry. */
    function IsButtonDown(button: Button): (r: Result<bool, Exception>)
      requires Valid()
      reads this, isButtonDown, bindings
      ensures r.Failure? <==> button == ButtonCount
    {
      if button == ButtonCount then Failure(InvalidButton) else Success(isButtonDown[button])
    }

    /** `IsButtonUp`: throws for `ButtonCount`, else the negated register entry. */
    function IsButtonUp(button: Button): (r: Result<bool, Exception>)
      requires Valid()
      reads this, isButtonDown, bindings
      ensures r.Failure? <==> button == ButtonCount
    {
      if button == ButtonCount then Failure(InvalidButton) else Success(!isButtonDown[button])
    }

    /** `IsAnyButtonDown` as written: it reads register slot `ButtonCount`. */
    function IsAnyButtonDown(): (r: Result<bool, Exception>)
      reads this, isButtonDown
    {
      if ButtonCount < isButtonDown.Length then Success(isButtonDown[ButtonCount])
      else Failure(IndexOutOfRange)
    }

    /** What `IsAnyButtonDown` is documented to answer: is some button down. */
    function AnyButtonDown(): (r: bool)
      requires Valid()
      reads this, isButtonDown, bindings
      ensures r <==> exists b :: 0 <= b < ButtonCount && isButtonDown[b]
    {
      var r := true in isButtonDown[..];
      assert r ==> exists b :: 0 <= b < ButtonCount && isButtonDown[b] by {
        if r {
          var i :| 0 <= i < isButtonDown.Length && isButtonDown[..][i];
          assert isButtonDown[i];
        }
      }
      r
    }

    /** `GetButtonState`: throws for `ButtonCount`, else the state of the two-frame history. */
    function GetButtonState(button: Button): (r: Result<InputState, Exception>)
      requires Valid()
      reads this, isButtonDown, oldButtonDown, bindings
      ensures r.Failure? <==> button == ButtonCount
    {
      if button == ButtonCount then Failure(InvalidButton)
      else
        var index := button;
        if isButtonDown[index] then
          if oldButtonDown[index] then Success(Down) else Success(Pressed)
        else
          if oldButtonDown[index] then Success(Released) else Success(Up)
    }

    /**
     * A raw press: the button's slot becomes true at once and a dispatch is
     * queued. `ButtonCount` has no slot; the write throws before anything changes.
     */
    method OnButtonPressed(args: MouseButtonEventArgs) returns (o: Outcome<Exception>)
      requires Valid()
      modifies isButtonDown, this`update, this`log
      ensures Valid()
      ensures o.Pass? <==> args.button < ButtonCount
      ensures o.Fail? ==> o.error == IndexOutOfRange && isButtonDown[..] == old(isButtonDown[..])
                          && update == old(update) && log == old(log)
      ensures o.Pass? ==> isButtonDown[..] == old(isButtonDown[..])[args.button := true]
                          && update == old(update) + [DispatchPressed(args)]
                          && log == old(log) + [ButtonPressedLogged(args.button, args.x, args.y)]
    {
      if args.button >= isButtonDown.Length {
        return Fail(IndexOutOfRange);
      }
      isButtonDown[args.button] := true;
      update := update + [DispatchPressed(args)];
      log := log + [ButtonPressedLogged(args.button, args.x, args.y)];
      o := Pass;
    }

    /** A raw release: the button's slot becomes false and a dispatch is queued. */
    method OnButtonReleased(args: MouseButtonEventArgs) returns (o: Outcome<Exception>)
      requires Valid()
      modifies isButtonDown, this`update, this`log
      ensures Valid()
      ensures o.Pass? <==> args.button < ButtonCount
      ensures o.Fail? ==> o.error == IndexOutOfRange && isButtonDown[..] == old(isButtonDown[..])
                          && update == old(update) && log == old(log)
      ensures o.Pass? ==> isButtonDown[..] == old(isButtonDown[..])[args.button := false]
                          && update == old(update) + [DispatchReleased(args)]
                          && log == old(log) + [ButtonReleasedLogged(args.button, args.x, args.y)]
    {
      if args.button >= isButtonDown.Length {
        return Fail(IndexOutOfRange);
      }
      isButtonDown[args.button] := false;
      update := update + [DispatchReleased(args)];
      log := log + [ButtonReleasedLogged(args.button, args.x, args.y)];
      o := Pass;
    }

    /** A raw wheel event only queues its dispatch. */
    method OnWheelMoved(args: MouseWheelEventArgs)
      modifies this`update, this`log
      ensures update == old(update) + [DispatchWheel(args)]
      ensures log == old(log) + [WheelLogged(args.delta, args.x, args.y)]
    {
      update := update + [DispatchWheel(args)];
      log := log + [WheelLogged(args.delta, args.x, args.y)];
    }

    /** A raw move queues its dispatch and then the position step. */
    method OnMoved(args: MouseMoveEventArgs)
      modifies this`update
      ensures update == old(update) + [DispatchMoved(args), MoveTo(args.x, args.y)]
    {
      update := update + [DispatchMoved(args)];
      update := update + [MoveTo(args.x, args.y)];
    }
  }

  /** For a real button, up is the negation of down. */
  lemma UpIsNotDown(m: Mouse, b: Button)
    requires m.Valid() && b < ButtonCount
    ensures m.IsButtonUp(b) == Success(!m.IsButtonDown(b).value)
  {
  }

  /** `GetButtonState` agrees with the register: its current half is `IsButtonDown`. */
  lemma ButtonStateMatchesRegister(m: Mouse, b: Button)
    requires m.Valid() && b < ButtonCount
    ensures m.GetButtonState(b) == Success(StateOf(m.isButtonDown[b], m.oldButtonDown[b]))
    ensures IsDown(m.GetButtonState(b).value) == m.IsButtonDown(b).value
    ensures WasDown(m.GetButtonState(b).value) == m.oldButtonDown[b]
  {
  }

  /** The intended answer agrees with the per-button query. */
  lemma AnyButtonDownMatchesQueries(m: Mouse)
    requires m.Valid()
    ensures m.AnyButtonDown() <==> exists b: Button :: b < ButtonCount && m.IsButtonDown(b) == Success(true)
  {
    if m.AnyButtonDown() {
      var b :| 0 <= b < ButtonCount && m.isButtonDown[b];
      assert m.IsButtonDown(b) == Success(true);
    }
  }

  /** `IsAnyButtonDown` never returns normally: slot `ButtonCount` is past the end. */
  lemma AnyButtonDownAlwaysThrows(m: Mouse)
    requires m.Valid()
    ensures m.IsAnyButtonDown() == Failure(IndexOutOfRange)
  {
  }
}
