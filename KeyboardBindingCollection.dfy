/**
 * KeyboardBindingCollection: per key, an ordered list of handlers for "pressed"
 * and another for "released"; the key `KeyCount` is the "any key" bucket.
 * Unlike the mouse collection it accepts every key, and a removal never prunes
 * an emptied bucket.
 */
module KeyboardBindings {
  import opened Events
  import opened Buckets
  import Multicast

  /** A structural request: one call of an Add/Remove method of a collection. */
  datatype KeyOp =
    | AddPressed(key: Key, handler: Handler)
    | AddReleased(key: Key, handler: Handler)
    | RemovePressed(key: Key, handler: Handler)
    | RemoveReleased(key: Key, handler: Handler)

  /** The two dictionaries of a collection. */
  datatype KeyTables = KeyTables(pressed: Table<Key>, released: Table<Key>)

  const EmptyTables: KeyTables := KeyTables(map[], map[])

  /** The effect of one structural request on the dictionaries. */
  function Apply(t: KeyTables, op: KeyOp): (r: KeyTables)
    ensures (op.AddPressed? || op.RemovePressed?) ==> r.released == t.released
    ensures (op.AddReleased? || op.RemoveReleased?) ==> r.pressed == t.pressed
  {
    match op
    case AddPressed(k, h) => t.(pressed := Append(t.pressed, k, h))
    case AddReleased(k, h) => t.(released := Append(t.released, k, h))
    case RemovePressed(k, h) => t.(pressed := RemoveKept(t.pressed, k, h))
    case RemoveReleased(k, h) => t.(released := RemoveKept(t.released, k, h))
  }

  /** The effect of a sequence of requests run in order. */
  function ApplyAll(t: KeyTables, ops: seq<KeyOp>): KeyTables
    decreases |ops|
  {
    if ops == [] then t else ApplyAll(Apply(t, ops[0]), ops[1..])
  }

  lemma {:induction false} ApplyAllAppend(t: KeyTables, a: seq<KeyOp>, b: seq<KeyOp>)
    ensures ApplyAll(t, a + b) == ApplyAll(ApplyAll(t, a), b)
    decreases |a|
  {
    if a == [] {
      assert a + b == b;
    } else {
      assert (a + b)[0] == a[0];
      assert (a + b)[1..] == a[1..] + b;
      ApplyAllAppend(Apply(t, a[0]), a[1..], b);
    }
  }

  /** The tables after the first `i + 1` requests of a run. */
  lemma ApplyAllPrefix(t: KeyTables, ops: seq<KeyOp>, i: nat)
    requires i < |ops|
    ensures ApplyAll(t, ops[..i + 1]) == Apply(ApplyAll(t, ops[..i]), ops[i])
  {
    var before, step := ops[..i], [ops[i]];
    assert ops[..i + 1] == before + step;
    ApplyAllAppend(t, before, step);
    assert step[1..] == [];
  }

  /** What `RemoveOn…` writes to the console: unbound key, or handler not in the bucket. */
  function RemoveLog(m: Table<Key>, key: Key, h: Handler, d: Direction): seq<Diagnostic> {
    if key !in m then [RemoveFromUnbound(key, d)]
    else if h !in m[key] then [RemoveMissingHandler(key, d)]
    else []
  }

  /** The calls made by `OnPressed(args)`: the key's list in order, then the `KeyCount` list. */
  function PressedCalls(t: KeyTables, args: KeyEventArgs): seq<Invocation> {
    Calls(Handlers(t.pressed, args.key, KeyCount), KeyEvent(args))
  }

  /** The calls made by `OnReleased(args)`, from the released dictionary. */
  function ReleasedCalls(t: KeyTables, args: KeyEventArgs): seq<Invocation> {
    Calls(Handlers(t.released, args.key, KeyCount), KeyEvent(args))
  }

  /** A request on one dictionary leaves the dispatch of the other direction as it was. */
  lemma DirectionsIndependent(t: KeyTables, op: KeyOp, args: KeyEventArgs)
    ensures (op.AddPressed? || op.RemovePressed?) ==> ReleasedCalls(Apply(t, op), args) == ReleasedCalls(t, args)
    ensures (op.AddReleased? || op.RemoveReleased?) ==> PressedCalls(Apply(t, op), args) == PressedCalls(t, args)
  {
  }

  /**
   * Adding a handler and then removing it leaves the dictionary holding a
   * possibly empty bucket, but the dispatch of every key in both directions is
   * as before.
   */
  lemma AddThenRemoveUnobservable(t: KeyTables, k: Key, h: Handler, args: KeyEventArgs)
    requires h !in Bucket(t.pressed, k)
    ensures PressedCalls(Apply(Apply(t, AddPressed(k, h)), RemovePressed(k, h)), args) == PressedCalls(t, args)
    ensures ReleasedCalls(Apply(Apply(t, AddPressed(k, h)), RemovePressed(k, h)), args) == ReleasedCalls(t, args)
  {
    var after := RemoveKept(Append(t.pressed, k, h), k, h);
    RemoveKeptAfterAppend(t.pressed, k, h);
    assert Bucket(after, args.key) == Bucket(t.pressed, args.key);
    assert Bucket(after, KeyCount) == Bucket(t.pressed, KeyCount);
  }

  class KeyboardBindingCollection {
    var onKeyPressed: Table<Key>
    var onKeyReleased: Table<Key>
    /** Invocation lists of the private events `_keyPressed` and `_keyReleased`. */
    var keyPressed: seq<KeyboardBindingCollection>
    var keyReleased: seq<KeyboardBindingCollection>
    ghost var log: seq<Diagnostic>

    ghost function Tables(): KeyTables
      reads this
    {
      KeyTables(onKeyPressed, onKeyReleased)
    }

    /** Empty dictionaries; each private event starts out holding this collection's own dispatcher. */
    constructor ()
      ensures Tables() == EmptyTables
      ensures keyPressed == [this] && keyReleased == [this]
      ensures log == []
    {
      onKeyPressed := map[];
      onKeyReleased := map[];
      keyPressed := [this];
      keyReleased := [this];
      log := [];
    }

    method AddOnPressed(key: Key, bind: Handler)
      modifies this`onKeyPressed
      ensures Tables() == Apply(old(Tables()), AddPressed(key, bind))
    {
      if key !in onKeyPressed {
        onKeyPressed := onKeyPressed[key := []];
      }
      onKeyPressed := onKeyPressed[key := onKeyPressed[key] + [bind]];
    }

    method AddOnReleased(key: Key, bind: Handler)
      modifies this`onKeyReleased
      ensures Tables() == Apply(old(Tables()), AddReleased(key, bind))
    {
      if key !in onKeyReleased {
        onKeyReleased := onKeyReleased[key := []];
      }
      onKeyReleased := onKeyReleased[key := onKeyReleased[key] + [bind]];
    }

    method RemoveOnPressed(key: Key, bind: Handler)
      modifies this`onKeyPressed, this`log
      ensures Tables() == Apply(old(Tables()), RemovePressed(key, bind))
      ensures log == old(log) + RemoveLog(old(onKeyPressed), key, bind, Direction.OnPressed)
    {
      if key in onKeyPressed {
        var found := bind in onKeyPressed[key];
        onKeyPressed := onKeyPressed[key := RemoveFirst(onKeyPressed[key], bind)];
        if !found {
          log := log + [RemoveMissingHandler(key, Direction.OnPressed)];
        }
      } else {
        log := log + [RemoveFromUnbound(key, Direction.OnPressed)];
      }
    }

    method RemoveOnReleased(key: Key, bind: Handler)
      modifies this`onKeyReleased, this`log
      ensures Tables() == Apply(old(Tables()), RemoveReleased(key, bind))
      ensures log == old(log) + RemoveLog(old(onKeyReleased), key, bind, Direction.OnReleased)
    {
      if key in onKeyReleased {
        var found := bind in onKeyReleased[key];
        onKeyReleased := onKeyReleased[key := RemoveFirst(onKeyReleased[key], bind)];
        if !found {
          log := log + [RemoveMissingHandler(key, Direction.OnReleased)];
        }
      } else {
        log := log + [RemoveFromUnbound(key, Direction.OnReleased)];
      }
    }

    /** Runs one structural request through the method that implements it. */
    method Perform(op: KeyOp)
      modifies this`onKeyPressed, this`onKeyReleased, this`log
      ensures Tables() == Apply(old(Tables()), op)
    {
      match op
      case AddPressed(k, h) => AddOnPressed(k, h);
      case AddReleased(k, h) => AddOnReleased(k, h);
      case RemovePressed(k, h) => RemoveOnPressed(k, h);
      case RemoveReleased(k, h) => RemoveOnReleased(k, h);
    }

    /** `Chain(bindings)`: the other collection's event lists are appended to this one's. */
    method Chain(bindings: KeyboardBindingCollection)
      modifies this`keyPressed, this`keyReleased
      ensures keyPressed == old(keyPressed) + old(bindings.keyPressed)
      ensures keyReleased == old(keyReleased) + old(bindings.keyReleased)
      ensures Tables() == old(Tables())
    {
      keyPressed := keyPressed + bindings.keyPressed;
      keyReleased := keyReleased + bindings.keyReleased;
    }

    /** `Dechain(bindings)`: the last occurrence of the other collection's lists is removed. */
    method Dechain(bindings: KeyboardBindingCollection)
      modifies this`keyPressed, this`keyReleased
      ensures keyPressed == Multicast.Remove(old(keyPressed), old(bindings.keyPressed))
      ensures keyReleased == Multicast.Remove(old(keyReleased), old(bindings.keyReleased))
      ensures Tables() == old(Tables())
    {
      var linkReleased := bindings.keyReleased;
      keyPressed := Multicast.Remove(keyPressed, bindings.keyPressed);
      keyReleased := Multicast.Remove(keyReleased, linkReleased);
    }

    /** `chain + link`: chains `link` to `chain` and returns `chain`. */
    static method Plus(chain: KeyboardBindingCollection, link: KeyboardBindingCollection)
      returns (r: KeyboardBindingCollection)
      modifies chain`keyPressed, chain`keyReleased
      ensures r == chain
      ensures chain.keyPressed == old(chain.keyPressed) + old(link.keyPressed)
      ensures chain.keyReleased == old(chain.keyReleased) + old(link.keyReleased)
      ensures chain.Tables() == old(chain.Tables())
    {
      chain.Chain(link);
      r := chain;
    }

    /** `chain - link`: dechains `link` from `chain` and returns `chain`. */
    static method Minus(chain: KeyboardBindingCollection, link: KeyboardBindingCollection)
      returns (r: KeyboardBindingCollection)
      modifies chain`keyPressed, chain`keyReleased
      ensures r == chain
      ensures chain.keyPressed == Multicast.Remove(old(chain.keyPressed), old(link.keyPressed))
      ensures chain.keyReleased == Multicast.Remove(old(chain.keyReleased), old(link.keyReleased))
      ensures chain.Tables() == old(chain.Tables())
    {
      chain.Dechain(link);
      r := chain;
    }

    /** `OnPressed(args)`: the key's list, then the "any key" list, each in order. */
    method OnPressed(args: KeyEventArgs) returns (calls: seq<Invocation>)
      ensures calls == PressedCalls(Tables(), args)
    {
      calls := [];
      if args.key in onKeyPressed {
        calls := CallEventList(onKeyPressed[args.key], KeyEvent(args));
      }
      if KeyCount in onKeyPressed {
        var any := CallEventList(onKeyPressed[KeyCount], KeyEvent(args));
        calls := calls + any;
      }
      CallsAppend(Bucket(onKeyPressed, args.key), Bucket(onKeyPressed, KeyCount), KeyEvent(args));
    }

    /** `OnReleased(args)`: the same over the released dictionary. */
    method OnReleased(args: KeyEventArgs) returns (calls: seq<Invocation>)
      ensures calls == ReleasedCalls(Tables(), args)
    {
      calls := [];
      if args.key in onKeyReleased {
        calls := CallEventList(onKeyReleased[args.key], KeyEvent(args));
      }
      if KeyCount in onKeyReleased {
        var any := CallEventList(onKeyReleased[KeyCount], KeyEvent(args));
        calls := calls + any;
      }
      CallsAppend(Bucket(onKeyReleased, args.key), Bucket(onKeyReleased, KeyCount), KeyEvent(args));
    }
  }
}
