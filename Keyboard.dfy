/**
 * The keyboard device: a double-buffered key register, the default binding
 * collection, one collection per game state, a queue of structural requests
 * run at `BeginFrame` and a queue of dispatches run by a focused `Update`.
 */
module KeyboardDevice {
  import opened Results
  import opened Events
  import opened StateOrder
  import opened KeyboardBindings

  /** The register has a slot for every code from `Unknown` to `KeyCount`, at `code + 1`. */
  const RegisterLength: int := KeyCount + 1

  /** A queued dispatch, holding the argument record built when the raw event arrived. */
  datatype KeyDispatch = DispatchPressed(args: KeyEventArgs) | DispatchReleased(args: KeyEventArgs)

  /** The calls one collection makes for one dispatch. */
  function CollectionCalls(t: KeyTables, d: KeyDispatch): seq<Invocation> {
    match d
    case DispatchPressed(args) => PressedCalls(t, args)
    case DispatchReleased(args) => ReleasedCalls(t, args)
  }

  /** The calls the game-state collections make, in dictionary order. */
  function GameCalls(game: seq<KeyTables>, d: KeyDispatch): seq<Invocation>
    decreases |game|
  {
    if game == [] then [] else CollectionCalls(game[0], d) + GameCalls(game[1..], d)
  }

  lemma {:induction false} GameCallsAppend(a: seq<KeyTables>, b: seq<KeyTables>, d: KeyDispatch)
    ensures GameCalls(a + b, d) == GameCalls(a, d) + GameCalls(b, d)
    decreases |a|
  {
    if a == [] {
      assert a + b == b;
    } else {
      assert (a + b)[0] == a[0];
      assert (a + b)[1..] == a[1..] + b;
      GameCallsAppend(a[1..], b, d);
      CallsAssoc(CollectionCalls(a[0], d), GameCalls(a[1..], d), GameCalls(b, d));
    }
  }

  /** One queued dispatch: every game-state collection, then the default collection. */
  function DispatchCalls(game: seq<KeyTables>, direct: KeyTables, d: KeyDispatch): seq<Invocation> {
    GameCalls(game, d) + CollectionCalls(direct, d)
  }

  /** The calls of a whole dispatch queue run in arrival order. */
  function QueueCalls(game: seq<KeyTables>, direct: KeyTables, q: seq<KeyDispatch>): seq<Invocation>
    decreases |q|
  {
    if q == [] then [] else DispatchCalls(game, direct, q[0]) + QueueCalls(game, direct, q[1..])
  }

  lemma {:induction false} QueueCallsAppend(game: seq<KeyTables>, direct: KeyTables, a: seq<KeyDispatch>, b: seq<KeyDispatch>)
    ensures QueueCalls(game, direct, a + b) == QueueCalls(game, direct, a) + QueueCalls(game, direct, b)
    decreases |a|
  {
    if a == [] {
      assert a + b == b;
    } else {
      var rest := a[1..];
      assert a == [a[0]] + rest;
      assert a + b == [a[0]] + (rest + b);
      QueueCallsCons(game, direct, a[0], rest);
      QueueCallsCons(game, direct, a[0], rest + b);
      QueueCallsAppend(game, direct, rest, b);
      CallsAssoc(DispatchCalls(game, direct, a[0]), QueueCalls(game, direct, rest), QueueCalls(game, direct, b));
    }
  }

  lemma QueueCallsCons(game: seq<KeyTables>, direct: KeyTables, d: KeyDispatch, rest: seq<KeyDispatch>)
    ensures QueueCalls(game, direct, [d] + rest) == DispatchCalls(game, direct, d) + QueueCalls(game, direct, rest)
  {
    assert ([d] + rest)[1..] == rest;
  }

  lemma GameCallsSingle(t: KeyTables, d: KeyDispatch)
    ensures GameCalls([t], d) == CollectionCalls(t, d)
  {
    assert [t][1..] == [];
  }

  lemma QueueCallsSingle(game: seq<KeyTables>, direct: KeyTables, d: KeyDispatch)
    ensures QueueCalls(game, direct, [d]) == DispatchCalls(game, direct, d)
  {
    assert [d][1..] == [];
  }

  /** The calls of the first `j + 1` game-state collections. */
  lemma GameCallsPrefix(game: seq<KeyTables>, j: nat, d: KeyDispatch)
    requires j < |game|
    ensures GameCalls(game[..j + 1], d) == GameCalls(game[..j], d) + CollectionCalls(game[j], d)
  {
    var before, step := game[..j], [game[j]];
    assert game[..j + 1] == before + step;
    GameCallsAppend(before, step, d);
    GameCallsSingle(game[j], d);
  }

  /** The calls of the first `i + 1` queued dispatches. */
  lemma QueueCallsPrefix(game: seq<KeyTables>, direct: KeyTables, q: seq<KeyDispatch>, i: nat)
    requires i < |q|
    ensures QueueCalls(game, direct, q[..i + 1]) == QueueCalls(game, direct, q[..i]) + DispatchCalls(game, direct, q[i])
  {
    var before, step := q[..i], [q[i]];
    assert q[..i + 1] == before + step;
    QueueCallsAppend(game, direct, before, step);
    QueueCallsSingle(game, direct, q[i]);
  }

  /**
   * A game state created between a raw event and the `Update` that runs its
   * dispatch still receives it, after the states that were there before.
   */
  lemma LateStateReceives(game: seq<KeyTables>, late: KeyTables, direct: KeyTables, d: KeyDispatch)
    ensures DispatchCalls(game + [late], direct, d)
            == GameCalls(game, d) + CollectionCalls(late, d) + CollectionCalls(direct, d)
  {
    GameCallsAppend(game, [late], d);
    GameCallsSingle(late, d);
  }

  /** The tables of the game-state collections, in the order of `order`. */
  ghost function TablesOf(order: seq<GameState>, m: map<GameState, KeyboardBindingCollection>): (r: seq<KeyTables>)
    requires forall g :: g in order ==> g in m
    reads m.Values
    ensures |r| == |order|
    decreases |order|
  {
    if order == [] then [] else [m[order[0]].Tables()] + TablesOf(order[1..], m)
  }

  /** Entry `i` holds the tables of the collection mapped to the `i`-th state. */
  lemma {:induction false} TablesOfAt(order: seq<GameState>, m: map<GameState, KeyboardBindingCollection>, i: nat)
    requires forall g :: g in order ==> g in m
    requires i < |order|
    ensures TablesOf(order, m)[i] == m[order[i]].Tables()
    decreases |order|
  {
    if i > 0 {
      TablesOfAt(order[1..], m, i - 1);
    }
  }

  class Keyboard {
    const isKeyDown: array<bool>
    const oldKeyDown: array<bool>
    /** Bindings made directly through the keyboard. */
    const bindings: KeyboardBindingCollection
    /** Bindings made through game states, with the dictionary's enumeration order. */
    var gameBindings: map<GameState, KeyboardBindingCollection>
    var gameOrder: seq<GameState>
    /** The `_beginFrame` and `_update` actions, as request and dispatch records. */
    var beginFrame: seq<KeyOp>
    var update: seq<KeyDispatch>
    ghost var log: seq<Diagnostic>

    ghost predicate Valid()
      reads this`gameOrder, this`gameBindings
    {
      && isKeyDown.Length == RegisterLength
      && oldKeyDown.Length == RegisterLength
      && isKeyDown != oldKeyDown
      && Distinct(gameOrder)
      && (forall g :: g in gameOrder <==> g in gameBindings)
      && bindings !in gameBindings.Values
    }

    /** The game-state collections' tables, in dispatch order. */
    ghost function GameTables(): seq<KeyTables>
      requires Valid()
      reads this`gameOrder, this`gameBindings, gameBindings.Values
    {
      TablesOf(gameOrder, gameBindings)
    }

    /** The calls a focused `Update` would make now. */
    ghost function Pending(): seq<Invocation>
      requires Valid()
      reads this`gameOrder, this`gameBindings, this`update, gameBindings.Values, bindings
    {
      QueueCalls(GameTables(), bindings.Tables(), update)
    }

    constructor ()
      ensures Valid()
      ensures fresh(isKeyDown) && fresh(oldKeyDown) && fresh(bindings)
      ensures forall i :: 0 <= i < RegisterLength ==> !isKeyDown[i] && !oldKeyDown[i]
      ensures bindings.Tables() == EmptyTables
      ensures gameBindings == map[] && gameOrder == []
      ensures beginFrame == [] && update == [] && log == []
    {
      isKeyDown := new bool[RegisterLength](_ => false);
      oldKeyDown := new bool[RegisterLength](_ => false);
      bindings := new KeyboardBindingCollection();
      gameBindings := map[];
      gameOrder := [];
      beginFrame := [];
      update := [];
      log := [];
    }

    /** Runs every queued structural request in queue order and empties the queue. */
    method BeginFrame()
      requires Valid()
      modifies this`beginFrame, bindings`onKeyPressed, bindings`onKeyReleased, bindings`log
      ensures Valid()
      ensures bindings.Tables() == ApplyAll(old(bindings.Tables()), old(beginFrame))
      ensures beginFrame == []
    {
      ghost var start := bindings.Tables();
      var ops := beginFrame;
      for i := 0 to |ops|
        invariant bindings.Tables() == ApplyAll(start, ops[..i])
      {
        bindings.Perform(ops[i]);
        ApplyAllPrefix(start, ops, i);
      }
      assert ops[..|ops|] == ops;
      beginFrame := [];
    }

    /** `PushButtonRegister`: the whole current register becomes the old register. */
    method PushButtonRegister()
      requires Valid()
      modifies oldKeyDown
      ensures oldKeyDown[..] == isKeyDown[..]
    {
      var length := RegisterLength;
      for i := 0 to length
        invariant forall j :: 0 <= j < i ==> oldKeyDown[j] == isKeyDown[j]
      {
        oldKeyDown[i] := isKeyDown[i];
      }
    }

    /** The calls one collection makes for a queued dispatch. */
    static method CollectionDispatch(c: KeyboardBindingCollection, d: KeyDispatch) returns (calls: seq<Invocation>)
      ensures calls == CollectionCalls(c.Tables(), d)
    {
      if d.DispatchPressed? {
        calls := c.OnPressed(d.args);
      } else {
        calls := c.OnReleased(d.args);
      }
    }

    /** One queued dispatch: the game-state collections in order, then the default one. */
    method Dispatch(d: KeyDispatch) returns (calls: seq<Invocation>)
      requires Valid()
      ensures calls == DispatchCalls(GameTables(), bindings.Tables(), d)
    {
      ghost var game := GameTables();
      calls := [];
      for j := 0 to |gameOrder|
        invariant calls == GameCalls(game[..j], d)
      {
        var cs := CollectionDispatch(gameBindings[gameOrder[j]], d);
        TablesOfAt(gameOrder, gameBindings, j);
        GameCallsPrefix(game, j, d);
        calls := calls + cs;
      }
      assert game[..|gameOrder|] == game;
      var direct := CollectionDispatch(bindings, d);
      calls := calls + direct;
    }

    /** The `_update` action: the dispatches of `q` run in arrival order. */
    method RunQueue(q: seq<KeyDispatch>) returns (calls: seq<Invocation>)
      requires Valid()
      ensures calls == QueueCalls(GameTables(), bindings.Tables(), q)
    {
      ghost var game, direct := GameTables(), bindings.Tables();
      calls := [];
      for i := 0 to |q|
        invariant calls == QueueCalls(game, direct, q[..i])
      {
        var cs := Dispatch(q[i]);
        QueueCallsPrefix(game, direct, q, i);
        calls := calls + cs;
      }
      assert q[..|q|] == q;
    }

    /**
     * Pushes the register, then, only with focus, runs the queued dispatches in
     * arrival order and empties the queue; without focus the queue is kept.
     */
    method Update(focus: bool) returns (calls: seq<Invocation>)
      requires Valid()
      modifies oldKeyDown, this`update
      ensures Valid()
      ensures oldKeyDown[..] == isKeyDown[..] && isKeyDown[..] == old(isKeyDown[..])
      ensures focus ==> calls == old(Pending()) && update == []
      ensures !focus ==> calls == [] && update == old(update)
    {
      PushButtonRegister();
      calls := [];
      if focus {
        calls := RunQueue(update);
        update := [];
      }
    }

    /** `CreateGameBindigs`: the state is mapped to a fresh empty collection, which is returned. */
    method CreateGameBindigs(gs: GameState) returns (collection: KeyboardBindingCollection)
      requires Valid()
      modifies this`gameBindings, this`gameOrder
      ensures Valid()
      ensures fresh(collection) && collection.Tables() == EmptyTables
      ensures gameBindings == old(gameBindings)[gs := collection]
      ensures gameOrder == Insert(old(gameOrder), gs)
    {
      collection := new KeyboardBindingCollection();
      gameBindings := gameBindings[gs := collection];
      gameOrder := Insert(gameOrder, gs);
    }

    /** `RemoveGameBindings`: only that state's entry goes. */
    method RemoveGameBindings(gs: GameState)
      requires Valid()
      modifies this`gameBindings, this`gameOrder
      ensures Valid()
      ensures gameBindings == old(gameBindings) - {gs}
      ensures gameOrder == Erase(old(gameOrder), gs)
    {
      gameBindings := gameBindings - {gs};
      gameOrder := Erase(gameOrder, gs);
    }

    /** The deferred subscriptions: one request is queued, nothing else changes. */
    method AddOnPressed(key: Key, bind: Handler)
      modifies this`beginFrame
      ensures beginFrame == old(beginFrame) + [AddPressed(key, bind)]
    {
      beginFrame := beginFrame + [AddPressed(key, bind)];
    }

    method AddOnReleased(key: Key, bind: Handler)
      modifies this`beginFrame
      ensures beginFrame == old(beginFrame) + [AddReleased(key, bind)]
    {
      beginFrame := beginFrame + [AddReleased(key, bind)];
    }

    method RemoveOnPressed(key: Key, bind: Handler)
      modifies this`beginFrame
      ensures beginFrame == old(beginFrame) + [RemovePressed(key, bind)]
    {
      beginFrame := beginFrame + [RemovePressed(key, bind)];
    }

    method RemoveOnReleased(key: Key, bind: Handler)
      modifies this`beginFrame
      ensures beginFrame == old(beginFrame) + [RemoveReleased(key, bind)]
    {
      beginFrame := beginFrame + [RemoveReleased(key, bind)];
    }

    /**
     * A raw press: slot `code + 1` becomes true at once and a dispatch is queued.
     * Every code from `Unknown` to `Pause` has a slot; `KeyCount` has none and
     * the write throws before anything changes.
     */
    method OnKeyPressed(args: KeyEventArgs) returns (o: Outcome<Exception>)
      requires Valid()
      modifies isKeyDown, this`update, this`log
      ensures Valid()
      ensures o.Pass? <==> Unknown <= args.key <= Pause
      ensures o.Fail? ==> o.error == IndexOutOfRange && isKeyDown[..] == old(isKeyDown[..])
                          && update == old(update) && log == old(log)
      ensures o.Pass? ==> isKeyDown[..] == old(isKeyDown[..])[args.key + 1 := true]
                          && update == old(update) + [DispatchPressed(args)]
                          && log == old(log) + [KeyPressedLogged(args.key)]
    {
      var index := args.key + 1;
      if index >= isKeyDown.Length {
        return Fail(IndexOutOfRange);
      }
      isKeyDown[index] := true;
      update := update + [DispatchPressed(args)];
      log := log + [KeyPressedLogged(args.key)];
      o := Pass;
    }

    /** A raw release: slot `code + 1` becomes false and a dispatch is queued. */
    method OnKeyReleased(args: KeyEventArgs) returns (o: Outcome<Exception>)
      requires Valid()
      modifies isKeyDown, this`update, this`log
      ensures Valid()
      ensures o.Pass? <==> Unknown <= args.key <= Pause
      ensures o.Fail? ==> o.error == IndexOutOfRange && isKeyDown[..] == old(isKeyDown[..])
                          && update == old(update) && log == old(log)
      ensures o.Pass? ==> isKeyDown[..] == old(isKeyDown[..])[args.key + 1 := false]
                          && update == old(update) + [DispatchReleased(args)]
                          && log == old(log) + [KeyReleasedLogged(args.key)]
    {
      var index := args.key + 1;
      if index >= isKeyDown.Length {
        return Fail(IndexOutOfRange);
      }
      isKeyDown[index] := false;
      update := update + [DispatchReleased(args)];
      log := log + [KeyReleasedLogged(args.key)];
      o := Pass;
    }
  }
}
