# BubbasEngine input core in Dafny

This project models the input layer of BubbasEngine, a C# game engine on top of SFML, and proves properties of the model. The layer has three parts.

- **Devices.** The keyboard and mouse keep a double-buffered register of which keys or buttons are down. They hold a default binding collection and one binding collection per game state. They also keep two deferred queues:
  - `_beginFrame`, holding subscribe and unsubscribe requests;
  - `_update`, holding dispatches of raw window events.
- **Binding collections.** Each collection holds ordered handler lists per key or button, for "pressed" and for "released". The mouse collection also holds flat lists for wheel and move handlers.
- **The input manager.** It computes per-device gates from the settings flags and the window focus. It forwards `BeginFrame` and `Update` to the keyboard first and the mouse second.

Three smaller pieces come with the layer:

- the integer geometry (`Vector2i`, `Vector2u`, `IntRect`), with C# unchecked 32-bit arithmetic written out;
- the content bookkeeping: `ContentManager`, `ContentManagerArgs` and `ContentContainer`;
- the `InputState` enumeration.

Modelling choices:

- **Handlers** are opaque identities. A handler call is recorded as an `Invocation(handler, event)`.
- **Dispatch methods return their calls.** They return the sequence of invocations they make, and `Update` returns the concatenation in call order. What the handlers themselves do is not modelled.
- **Queues are sequences of records.**
  - A queued closure is stored as the request or dispatch record it stands for: `KeyOp`, `MouseOp`, `KeyDispatch` or `MouseDispatch`.
  - Each queue has a specification function that gives the effect of running it: `ApplyAll`, `QueueCalls` and `Replay`.
  - A queue is drained as snapshot-then-clear.
- **C# exceptions are values.** A throwing operation returns `Outcome`/`Result` values that name the exception (`Results.Exception`).
- **Thrown exceptions keep their side effects.** The effects that happen before the throw are kept, as in .NET.
- **Game-state dictionaries** are a `map` plus a `seq` that records their enumeration order.
- **Console messages** go to a ghost `log` of `Diagnostic` values.

- **An unfocused `Update` keeps its queue.** It still pushes the register, but it leaves the queued dispatches in place for a later focused `Update` rather than discarding them (Keyboard.cs:192-199, Mouse.cs:189-196). The older `KeyboardDevice` clears the queue whether or not it ran (KeyboardDevice.cs:72-82); the model follows `Keyboard` and `Mouse`.

## Model

| member | source | states |
|---|---|---|
| `Int32.Wrap` | BubbasEngine/Engine/Generic/Vector2i.cs:90-93 | the `int` result of an exact value: congruent to it modulo 2^32, and equal to it when it is in range |
| `Int32.WrapU` | BubbasEngine/Engine/Generic/Vector2u.cs:80-83 | the `uint` result of an exact value: congruent modulo 2^32, and equal to it when in range |
| `Int32.ToInt32` | BubbasEngine/Engine/Generic/Vector2i.cs:51-55 | `(int)u` keeps values up to int.MaxValue and subtracts 2^32 from larger ones |
| `Int32.ToUInt32` | BubbasEngine/Engine/Generic/Vector2u.cs:51-55 | `(uint)i` keeps non-negative values and adds 2^32 to negative ones |
| `Int32.IntUIntRoundTrip` | BubbasEngine/Engine/Generic/Vector2u.cs:51-55 | `(int)(uint)i == i` for every `int` |
| `Int32.UIntIntRoundTrip` | BubbasEngine/Engine/Generic/Vector2i.cs:51-55 | `(uint)(int)u == u` for every `uint` |
| `Int32.TruncDiv` | BubbasEngine/Engine/Generic/Vector2i.cs:129-132 | C# `/`: the magnitude of the quotient is the floor of `|a|/|b|`, and its sign is negative exactly when the operand signs differ |
| `Int32.TruncDivInRange` | BubbasEngine/Engine/Generic/Vector2i.cs:129-132 | truncating division stays in `int` range except for int.MinValue / -1 |
| `Vec2u.Splat` | BubbasEngine/Engine/Generic/Vector2u.cs:31-35 | `Vector2u(c)` sets both components to c |
| `Vec2u.Add` | BubbasEngine/Engine/Generic/Vector2u.cs:80-83 | vector `+` is component-wise modulo 2^32 |
| `Vec2u.Sub` | BubbasEngine/Engine/Generic/Vector2u.cs:63-66 | vector `-` is component-wise modulo 2^32 |
| `Vec2u.AddScalar` | BubbasEngine/Engine/Generic/Vector2u.cs:86-89 | `v + xy` equals `v + Vector2u(xy)`: the same uint is added to both components |
| `Vec2u.SubScalar` | BubbasEngine/Engine/Generic/Vector2u.cs:69-72 | `v - xy` equals `v - Vector2u(xy)` |
| `Vec2u.Mul` | BubbasEngine/Engine/Generic/Vector2u.cs:97-100 | `v * x` is component-wise multiplication modulo 2^32 |
| `Vec2u.MulLeft` | BubbasEngine/Engine/Generic/Vector2u.cs:108-111 | `x * v == v * x` |
| `Vec2u.Div` | BubbasEngine/Engine/Generic/Vector2u.cs:119-122 | `v / x` fails with DivideByZero exactly when x is 0; otherwise each component is the floor of the quotient |
| `Vec2u.SubAddCancel` | BubbasEngine/Engine/Generic/Vector2u.cs:63-83 | `(a - b) + b == a` for all inputs, wrap-around included |
| `Vec2u.AddSubCancel` | BubbasEngine/Engine/Generic/Vector2u.cs:63-83 | `(a + b) - b == a` for all inputs |
| `Vec2i.Splat` | BubbasEngine/Engine/Generic/Vector2i.cs:31-35 | `Vector2i(c)` sets both components to c |
| `Vec2i.FromVector2u` | BubbasEngine/Engine/Generic/Vector2i.cs:51-55 | `Vector2i(Vector2u)` reinterprets each uint as an int |
| `Vec2i.ToVector2u` | BubbasEngine/Engine/Generic/Vector2u.cs:51-55 | `Vector2u(Vector2i)` reinterprets each int as a uint |
| `Vec2i.Neg` | BubbasEngine/Engine/Generic/Vector2i.cs:62-65 | unary `-` negates each component modulo 2^32 |
| `Vec2i.Add` | BubbasEngine/Engine/Generic/Vector2i.cs:90-93 | vector `+` is component-wise modulo 2^32 |
| `Vec2i.Sub` | BubbasEngine/Engine/Generic/Vector2i.cs:73-76 | vector `-` is component-wise modulo 2^32 |
| `Vec2i.AddScalar` | BubbasEngine/Engine/Generic/Vector2i.cs:96-99 | `v + xy` equals `v + Vector2i(xy)` |
| `Vec2i.SubScalar` | BubbasEngine/Engine/Generic/Vector2i.cs:79-82 | `v - xy` equals `v - Vector2i(xy)` |
| `Vec2i.Mul` | BubbasEngine/Engine/Generic/Vector2i.cs:107-110 | `v * x` is component-wise multiplication modulo 2^32 |
| `Vec2i.MulLeft` | BubbasEngine/Engine/Generic/Vector2i.cs:118-121 | `x * v == v * x` |
| `Vec2i.Div` | BubbasEngine/Engine/Generic/Vector2i.cs:129-132 | `v / x` fails exactly for x = 0 (DivideByZero) and for int.MinValue / -1 (Overflow); otherwise each component is truncated toward zero |
| `Vec2i.NegInvolutive` | BubbasEngine/Engine/Generic/Vector2i.cs:62-65 | `-(-v) == v`, int.MinValue included |
| `Vec2i.AddSubCancel` | BubbasEngine/Engine/Generic/Vector2i.cs:73-93 | `(v + w) - w == v` under wrap-around |
| `Vec2i.ConversionRoundTrip` | BubbasEngine/Engine/Generic/Vector2i.cs:51-55 | the two reinterpreting conversions are inverse to each other |
| `Rect.IntersectsOverlap` | BubbasEngine/Engine/Generic/IntRect.cs:64-89 | the out-overload returns the same verdict as `Intersects`; on false the overlap is all zeros; on true it starts at max-left/max-top |
| `Rect.Contains` | BubbasEngine/Engine/Generic/IntRect.cs:37-40 | the point test with wrapped right and bottom edges; its meaning is stated by `Rect.ContainsExactly` |
| `Rect.Intersects` | BubbasEngine/Engine/Generic/IntRect.cs:47-56 | positive-area overlap of the max/min edges; its meaning is stated by `Rect.IntersectsSymmetric` and `Rect.IntersectsOverlap` |
| `Rect.ContainsExactly` | BubbasEngine/Engine/Generic/IntRect.cs:37-40 | without overflow, `Contains(x, y)` holds exactly when Left <= x < Left+Width and Top <= y < Top+Height |
| `Rect.IntersectsSymmetric` | BubbasEngine/Engine/Generic/IntRect.cs:47-89 | both `Intersects` overloads are symmetric in the two rectangles |
| `Rect.OverlapSpansMinMax` | BubbasEngine/Engine/Generic/IntRect.cs:67-80 | on true the overlap has positive width and height and reaches min-right/min-bottom |
| `Rect.OverlapInBoth` | BubbasEngine/Engine/Generic/IntRect.cs:37-40 | every point of the overlap lies in both rectangles |
| `Rect.EmptyRect` | BubbasEngine/Engine/Generic/IntRect.cs:37-56 | a rectangle with Width <= 0 or Height <= 0 contains no point and intersects nothing |
| `Rect.WrappedRectContains` | BubbasEngine/Engine/Generic/IntRect.cs:37-40 | example: with wrap-around, a rectangle of negative width can contain a point |
| `Events.CallsAt` | BubbasEngine/Engine/Input/Devices/KeyboardBindingCollection.cs:140-146 | running a list calls each entry exactly once, in index order |
| `Events.CallsAppend` | BubbasEngine/Engine/Input/Devices/KeyboardBindingCollection.cs:119-128 | running two lists one after the other makes the calls of their concatenation |
| `Events.CallEventList` | BubbasEngine/Engine/Input/Devices/MouseBindingCollection.cs:293-299 | the count is read once and entries 0..count-1 are called in order: the calls are `Calls(events, args)` |
| `Buckets.Append` | BubbasEngine/Engine/Input/Devices/KeyboardBindingCollection.cs:61-69 | `AddOn…` appends the handler to the end of the key's list, creating it if absent; other keys keep their lists |
| `Buckets.IndexOf` | BubbasEngine/Engine/Input/Devices/KeyboardBindingCollection.cs:86 | the first position holding the handler |
| `Buckets.RemoveFirst` | BubbasEngine/Engine/Input/Devices/KeyboardBindingCollection.cs:86 | `List.Remove` leaves the list unchanged when the handler is absent |
| `Buckets.RemoveFirstMultiset` | BubbasEngine/Engine/Input/Devices/KeyboardBindingCollection.cs:86 | `List.Remove` takes out exactly one occurrence of the handler, or nothing when there is none |
| `Buckets.RemoveFirstSplit` | BubbasEngine/Engine/Input/Devices/KeyboardBindingCollection.cs:86 | only the element at the first position holding the handler is removed |
| `Buckets.RemoveKept` | BubbasEngine/Engine/Input/Devices/KeyboardBindingCollection.cs:81-91 | the keyboard removal keeps the key in the dictionary, and only that key's list changes |
| `Buckets.RemovePruned` | BubbasEngine/Engine/Input/Devices/MouseBindingCollection.cs:126-150 | the mouse removal changes only that key's list, and deletes a bucket that it empties |
| `Buckets.RemoveFirstAppend` | BubbasEngine/Engine/Input/Devices/KeyboardBindingCollection.cs:61-91 | removing a handler that was appended last, and not bound earlier, restores the list |
| `Buckets.RemovePrunedAfterAppend` | BubbasEngine/Engine/Input/Devices/MouseBindingCollection.cs:70-150 | in the mouse collection, remove after add restores the dictionary exactly |
| `Buckets.RemoveKeptAfterAppend` | BubbasEngine/Engine/Input/Devices/KeyboardBindingCollection.cs:61-91 | in the keyboard collection, remove after add leaves the key, possibly with an empty list |
| `Buckets.KeptBucketCanBeEmpty` | BubbasEngine/Engine/Input/Devices/KeyboardBindingCollection.cs:84-88 | example: the keyboard removal can leave an empty bucket where the mouse removal leaves none |
| `Buckets.PruningUnobservable` | BubbasEngine/Engine/Input/Devices/MouseBindingCollection.cs:262-281 | pruning is invisible to dispatch: both kinds of removal give every key the same handlers |
| `Multicast.LastOccurrence` | BubbasEngine/Engine/Input/Devices/KeyboardBindingCollection.cs:111-116 | the position of the last occurrence of one invocation list inside another |
| `Multicast.Remove` | BubbasEngine/Engine/Input/Devices/KeyboardBindingCollection.cs:111-116 | `-=` leaves the list unchanged when there is nothing to remove |
| `Multicast.RemoveCombined` | BubbasEngine/Engine/Input/Devices/KeyboardBindingCollection.cs:105-116 | `Dechain` undoes the `Chain` of the same collection |
| `StateOrder.Insert` | BubbasEngine/Engine/Input/Devices/Keyboard.cs:207 | `dict[g] = v` enumerates a new key last and keeps an existing key in its place |
| `StateOrder.Erase` | BubbasEngine/Engine/Input/Devices/Keyboard.cs:215 | `dict.Remove(g)` drops the key from the enumeration and keeps the other keys in order |
| `StateOrder.EraseCutsOut` | BubbasEngine/Engine/Input/Devices/Keyboard.cs:215 | removing the key at index k leaves exactly the keys before and after it, in their order |
| `StateOrder.DistinctCons` | BubbasEngine/Engine/Input/Devices/Keyboard.cs:207 | a key not already present can be put in front of a duplicate-free order |
| `StateOrder.EraseInsert` | BubbasEngine/Engine/Input/Devices/Keyboard.cs:203-216 | removing a state that was just added restores the enumeration order |
| `KeyboardBindings.Apply` | BubbasEngine/Engine/Input/Devices/KeyboardBindingCollection.cs:42-43 | a request on the pressed dictionary leaves the released one unchanged, and vice versa |
| `KeyboardBindings.ApplyAllAppend` | BubbasEngine/Engine/Input/Devices/KeyboardBindingCollection.cs:61-102 | running two request queues one after the other equals running their concatenation |
| `KeyboardBindings.DirectionsIndependent` | BubbasEngine/Engine/Input/Devices/KeyboardBindingCollection.cs:61-138 | a request on one direction leaves the other direction's dispatch unchanged |
| `KeyboardBindings.AddThenRemoveUnobservable` | BubbasEngine/Engine/Input/Devices/KeyboardBindingCollection.cs:61-138 | adding then removing a fresh handler changes no dispatch, even though an empty bucket may be left behind |
| `KeyboardBindings.KeyboardBindingCollection.constructor` | BubbasEngine/Engine/Input/Devices/KeyboardBindingCollection.cs:49-58 | empty dictionaries; each private event holds its own dispatcher |
| `KeyboardBindings.KeyboardBindingCollection.AddOnPressed` | BubbasEngine/Engine/Input/Devices/KeyboardBindingCollection.cs:61-69 | the pressed dictionary becomes `Apply(old, AddPressed)`; every key, `KeyCount` included, is accepted |
| `KeyboardBindings.KeyboardBindingCollection.AddOnReleased` | BubbasEngine/Engine/Input/Devices/KeyboardBindingCollection.cs:70-78 | the released dictionary becomes `Apply(old, AddReleased)` |
| `KeyboardBindings.KeyboardBindingCollection.RemoveOnPressed` | BubbasEngine/Engine/Input/Devices/KeyboardBindingCollection.cs:81-91 | the pressed dictionary becomes `Apply(old, RemovePressed)`; a message is logged for an unbound key or a missing handler |
| `KeyboardBindings.KeyboardBindingCollection.RemoveOnReleased` | BubbasEngine/Engine/Input/Devices/KeyboardBindingCollection.cs:92-102 | the released dictionary becomes `Apply(old, RemoveReleased)`; the same messages are logged |
| `KeyboardBindings.KeyboardBindingCollection.Perform` | BubbasEngine/Engine/Input/Devices/KeyboardBindingCollection.cs:61-102 | running any request gives `Apply(old tables, request)` |
| `KeyboardBindings.KeyboardBindingCollection.Chain` | BubbasEngine/Engine/Input/Devices/KeyboardBindingCollection.cs:105-110 | appends the other collection's event lists; dispatch tables unchanged |
| `KeyboardBindings.KeyboardBindingCollection.Dechain` | BubbasEngine/Engine/Input/Devices/KeyboardBindingCollection.cs:111-116 | removes the last occurrence of the other collection's lists; dispatch tables unchanged |
| `KeyboardBindings.KeyboardBindingCollection.Plus` | BubbasEngine/Engine/Input/Devices/KeyboardBindingCollection.cs:16-23 | `chain + link` chains `link` and returns `chain`; only the two event lists change, so the diagnostic log is untouched |
| `KeyboardBindings.KeyboardBindingCollection.Minus` | BubbasEngine/Engine/Input/Devices/KeyboardBindingCollection.cs:32-39 | `chain - link` dechains `link` and returns `chain`; only the two event lists change, so the diagnostic log is untouched |
| `KeyboardBindings.KeyboardBindingCollection.OnPressed` | BubbasEngine/Engine/Input/Devices/KeyboardBindingCollection.cs:119-128 | calls the key's list in order, then the `KeyCount` list |
| `KeyboardBindings.KeyboardBindingCollection.OnReleased` | BubbasEngine/Engine/Input/Devices/KeyboardBindingCollection.cs:129-138 | the same over the released dictionary |
| `MouseBindings.Apply` | BubbasEngine/Engine/Input/Devices/MouseBindingCollection.cs:70-241 | a request fails with InvalidButton exactly when a keyed method gets `ButtonCount`, and then it changes nothing |
| `MouseBindings.ApplyKeepsValid` | BubbasEngine/Engine/Input/Devices/MouseBindingCollection.cs:126-241 | every request keeps the invariant that no bucket is empty |
| `MouseBindings.ApplyAllFails` | BubbasEngine/Engine/Input/Devices/MouseBindingCollection.cs:70-241 | a queue run throws exactly when it contains a rejected request |
| `MouseBindings.RejectedRequestRepeats` | BubbasEngine/Engine/Input/Devices/Mouse.cs:171-179 | a queue that throws throws again, whatever state it starts from |
| `MouseBindings.ApplyAllSplit` | BubbasEngine/Engine/Input/Devices/Mouse.cs:171-179 | a run that gets through one queue continues with the next from the tables the first one left |
| `MouseBindings.ApplyAllKeepsValid` | BubbasEngine/Engine/Input/Devices/MouseBindingCollection.cs:126-241 | a run keeps the no-empty-bucket invariant however it ends |
| `MouseBindings.AddThenRemovePressed` | BubbasEngine/Engine/Input/Devices/MouseBindingCollection.cs:70-150 | removing the handler just added to a button restores the tables exactly |
| `MouseBindings.AddThenRemoveAnyReleased` | BubbasEngine/Engine/Input/Devices/MouseBindingCollection.cs:105-113 | the same for the "any button" released bucket |
| `MouseBindings.AddThenRemoveWheel` | BubbasEngine/Engine/Input/Devices/MouseBindingCollection.cs:114-118 | the same for the wheel list |
| `MouseBindings.MouseBindingCollection.constructor` | BubbasEngine/Engine/Input/Devices/MouseBindingCollection.cs:54-67 | empty tables, no empty bucket, each private event holds its own dispatcher |
| `MouseBindings.MouseBindingCollection.AddOnPressed` | BubbasEngine/Engine/Input/Devices/MouseBindingCollection.cs:70-82 | fails for `ButtonCount`, otherwise appends: the tables and outcome are `Apply(old, AddPressed)`; no bucket is left empty |
| `MouseBindings.MouseBindingCollection.AddOnReleased` | BubbasEngine/Engine/Input/Devices/MouseBindingCollection.cs:83-95 | the same for released; no bucket is left empty |
| `MouseBindings.MouseBindingCollection.AddOnAnyPressed` | BubbasEngine/Engine/Input/Devices/MouseBindingCollection.cs:96-104 | appends to the `ButtonCount` pressed bucket; no bucket is left empty |
| `MouseBindings.MouseBindingCollection.AddOnAnyReleased` | BubbasEngine/Engine/Input/Devices/MouseBindingCollection.cs:105-113 | appends to the `ButtonCount` released bucket; no bucket is left empty |
| `MouseBindings.MouseBindingCollection.AddOnWheelChanged` | BubbasEngine/Engine/Input/Devices/MouseBindingCollection.cs:114-118 | appends to the wheel list; no bucket is left empty |
| `MouseBindings.MouseBindingCollection.AddOnMoved` | BubbasEngine/Engine/Input/Devices/MouseBindingCollection.cs:119-123 | appends to the move list; no bucket is left empty |
| `MouseBindings.MouseBindingCollection.RemoveFromTable` | BubbasEngine/Engine/Input/Devices/MouseBindingCollection.cs:133-150 | the shared removal body: the pruned dictionary and its console messages |
| `MouseBindings.MouseBindingCollection.RemoveOnPressed` | BubbasEngine/Engine/Input/Devices/MouseBindingCollection.cs:126-151 | fails for `ButtonCount`; otherwise a pruning removal with its messages; no bucket is left empty |
| `MouseBindings.MouseBindingCollection.RemoveOnAnyPressed` | BubbasEngine/Engine/Input/Devices/MouseBindingCollection.cs:152-173 | pruning removal from the `ButtonCount` pressed bucket; no bucket is left empty |
| `MouseBindings.MouseBindingCollection.RemoveOnReleased` | BubbasEngine/Engine/Input/Devices/MouseBindingCollection.cs:174-199 | fails for `ButtonCount`; otherwise a pruning removal; no bucket is left empty |
| `MouseBindings.MouseBindingCollection.RemoveOnAnyReleased` | BubbasEngine/Engine/Input/Devices/MouseBindingCollection.cs:200-221 | pruning removal from the `ButtonCount` released bucket; no bucket is left empty |
| `MouseBindings.MouseBindingCollection.RemoveOnWheelChanged` | BubbasEngine/Engine/Input/Devices/MouseBindingCollection.cs:222-231 | removes the first occurrence, or logs when the handler is absent; no bucket is left empty |
| `MouseBindings.MouseBindingCollection.RemoveOnMoved` | BubbasEngine/Engine/Input/Devices/MouseBindingCollection.cs:232-241 | the same for the move list; no bucket is left empty |
| `MouseBindings.MouseBindingCollection.Perform` | BubbasEngine/Engine/Input/Devices/MouseBindingCollection.cs:70-241 | running any request gives `Apply(old tables, request)`, outcome included; no bucket is left empty |
| `MouseBindings.MouseBindingCollection.Chain` | BubbasEngine/Engine/Input/Devices/MouseBindingCollection.cs:244-251 | appends the four event lists; dispatch tables and their no-empty-bucket invariant unchanged |
| `MouseBindings.MouseBindingCollection.Dechain` | BubbasEngine/Engine/Input/Devices/MouseBindingCollection.cs:252-259 | removes the last occurrence of each list; dispatch tables and their no-empty-bucket invariant unchanged |
| `MouseBindings.MouseBindingCollection.Plus` | BubbasEngine/Engine/Input/Devices/MouseBindingCollection.cs:17-24 | `chain + link` chains and returns `chain`; only the four event lists change |
| `MouseBindings.MouseBindingCollection.Minus` | BubbasEngine/Engine/Input/Devices/MouseBindingCollection.cs:33-40 | `chain - link` dechains and returns `chain`; only the four event lists change |
| `MouseBindings.MouseBindingCollection.OnPressed` | BubbasEngine/Engine/Input/Devices/MouseBindingCollection.cs:262-271 | the button's list, then the `ButtonCount` list; a missing bucket makes no calls |
| `MouseBindings.MouseBindingCollection.OnReleased` | BubbasEngine/Engine/Input/Devices/MouseBindingCollection.cs:272-281 | the same on the released dictionary |
| `MouseBindings.MouseBindingCollection.OnWheelMoved` | BubbasEngine/Engine/Input/Devices/MouseBindingCollection.cs:282-286 | calls the wheel list in order |
| `MouseBindings.MouseBindingCollection.OnMoved` | BubbasEngine/Engine/Input/Devices/MouseBindingCollection.cs:287-291 | calls the move list in order |
| `KeyboardDevice.GameCallsAppend` | BubbasEngine/Engine/Input/Devices/Keyboard.cs:269-270 | the game-state loop over two groups of collections makes the calls of the first group, then those of the second |
| `KeyboardDevice.QueueCallsAppend` | BubbasEngine/Engine/Input/Devices/Keyboard.cs:266-274 | running two dispatch queues one after the other makes the calls of their concatenation |
| `KeyboardDevice.GameCallsSingle` | BubbasEngine/Engine/Input/Devices/Keyboard.cs:269-270 | one game-state collection makes exactly its own calls |
| `KeyboardDevice.QueueCallsSingle` | BubbasEngine/Engine/Input/Devices/Keyboard.cs:266-274 | a one-dispatch queue makes the calls of that dispatch |
| `KeyboardDevice.LateStateReceives` | BubbasEngine/Engine/Input/Devices/Keyboard.cs:266-274 | a state added before the drain receives the event, after the earlier states and before the default bindings |
| `KeyboardDevice.TablesOfAt` | BubbasEngine/Engine/Input/Devices/Keyboard.cs:269 | the tables of the game-state collections, one per state, in enumeration order |
| `KeyboardDevice.Keyboard.constructor` | BubbasEngine/Engine/Input/Devices/Keyboard.cs:166-175 | both registers have `KeyCount + 1` false slots; no bindings; empty queues |
| `KeyboardDevice.Keyboard.BeginFrame` | BubbasEngine/Engine/Input/Devices/Keyboard.cs:178-185 | the default bindings become `ApplyAll(old, queue)` and the queue is emptied |
| `KeyboardDevice.Keyboard.PushButtonRegister` | BubbasEngine/Engine/Input/Devices/Keyboard.cs:301-306 | the whole current register is copied into the old register |
| `KeyboardDevice.Keyboard.CollectionDispatch` | BubbasEngine/Engine/Input/Devices/Keyboard.cs:266-295 | one collection's dispatcher for the queued event kind |
| `KeyboardDevice.Keyboard.Dispatch` | BubbasEngine/Engine/Input/Devices/Keyboard.cs:266-274 | every game-state collection in order, then the default collection |
| `KeyboardDevice.Keyboard.RunQueue` | BubbasEngine/Engine/Input/Devices/Keyboard.cs:194-198 | the dispatches run in arrival order against the collections present at drain time |
| `KeyboardDevice.Keyboard.Update` | BubbasEngine/Engine/Input/Devices/Keyboard.cs:186-199 | the register is pushed first. When focused, the pending calls run and the queue empties. When unfocused, no calls run and the queue is kept |
| `KeyboardDevice.Keyboard.CreateGameBindigs` | BubbasEngine/Engine/Input/Devices/Keyboard.cs:203-211 | maps the state to a fresh empty collection, replacing an earlier one, and returns it |
| `KeyboardDevice.Keyboard.RemoveGameBindings` | BubbasEngine/Engine/Input/Devices/Keyboard.cs:212-216 | deletes only that state's entry |
| `KeyboardDevice.Keyboard.AddOnPressed` | BubbasEngine/Engine/Input/Devices/Keyboard.cs:219-223 | only appends one request to the begin-frame queue |
| `KeyboardDevice.Keyboard.AddOnReleased` | BubbasEngine/Engine/Input/Devices/Keyboard.cs:224-228 | only appends one request to the begin-frame queue |
| `KeyboardDevice.Keyboard.RemoveOnPressed` | BubbasEngine/Engine/Input/Devices/Keyboard.cs:231-235 | only appends one request to the begin-frame queue |
| `KeyboardDevice.Keyboard.RemoveOnReleased` | BubbasEngine/Engine/Input/Devices/Keyboard.cs:236-240 | only appends one request to the begin-frame queue |
| `KeyboardDevice.Keyboard.OnKeyPressed` | BubbasEngine/Engine/Input/Devices/Keyboard.cs:257-277 | slot `code + 1` becomes true and a dispatch with the event's snapshot is queued; only `KeyCount` throws |
| `KeyboardDevice.Keyboard.OnKeyReleased` | BubbasEngine/Engine/Input/Devices/Keyboard.cs:278-298 | slot `code + 1` becomes false and a dispatch is queued; only `KeyCount` throws |
| `InputStates.StateOf` | BubbasEngine/Engine/Input/Devices/Mouse.cs:303-321 | Down when current and old are set; Pressed when only current is set; Released when only old is set; Up otherwise |
| `InputStates.StateOfRoundTrip` | BubbasEngine/Engine/Input/InputManager.cs:12-33 | each state arises from exactly one two-frame history |
| `MouseDevice.GameCallsAppend` | BubbasEngine/Engine/Input/Devices/Mouse.cs:403-404 | the game-state loop over two groups makes the first group's calls, then the second's |
| `MouseDevice.GameCallsSingle` | BubbasEngine/Engine/Input/Devices/Mouse.cs:403-404 | one game-state collection makes exactly its own calls |
| `MouseDevice.MoveToCallsNothing` | BubbasEngine/Engine/Input/Devices/Mouse.cs:468-477 | the position step a move queues calls no handler |
| `MouseDevice.QueueCallsAppend` | BubbasEngine/Engine/Input/Devices/Mouse.cs:191-195 | running two update queues one after the other makes the calls of their concatenation |
| `MouseDevice.QueueCallsSingle` | BubbasEngine/Engine/Input/Devices/Mouse.cs:191-195 | a one-action queue makes the calls of that action |
| `MouseDevice.ReplayAppend` | BubbasEngine/Engine/Input/Devices/Mouse.cs:191-195 | the position after two queues is the second replayed from the first's result |
| `MouseDevice.MoveObservesOldPosition` | BubbasEngine/Engine/Input/Devices/Mouse.cs:451-480 | move handlers see the position before the move; afterwards the position is the event's, and the previous position is the one the handlers saw |
| `MouseDevice.TablesOfAt` | BubbasEngine/Engine/Input/Devices/Mouse.cs:403 | the tables of the game-state collections in enumeration order |
| `MouseDevice.Mouse.constructor` | BubbasEngine/Engine/Input/Devices/Mouse.cs:159-168 | both registers have `ButtonCount` false slots; position 0; no bindings; empty queues |
| `MouseDevice.Mouse.BeginFrame` | BubbasEngine/Engine/Input/Devices/Mouse.cs:171-179 | the tables and outcome are `ApplyAll(old, queue)`; the queue is emptied on success and kept when a request throws; the default collection keeps no empty bucket |
| `MouseDevice.Mouse.PushButtonRegister` | BubbasEngine/Engine/Input/Devices/Mouse.cs:483-488 | the whole current register is copied into the old register; the calls a focused `Update` would make are unaffected |
| `MouseDevice.Mouse.PushMousePosition` | BubbasEngine/Engine/Input/Devices/Mouse.cs:489-493 | OldX/OldY become X/Y |
| `MouseDevice.Mouse.CollectionDispatch` | BubbasEngine/Engine/Input/Devices/Mouse.cs:403-407 | one collection's dispatcher for the queued event kind |
| `MouseDevice.Mouse.Dispatch` | BubbasEngine/Engine/Input/Devices/Mouse.cs:400-408 | every game-state collection in order, then the default collection |
| `MouseDevice.Mouse.RunAction` | BubbasEngine/Engine/Input/Devices/Mouse.cs:457-477 | one queued action: its calls, its effect on the position, and no change to any binding table |
| `MouseDevice.Mouse.RunQueue` | BubbasEngine/Engine/Input/Devices/Mouse.cs:191-195 | the queue runs in arrival order: its calls and the replayed position |
| `MouseDevice.Mouse.DrainQueue` | BubbasEngine/Engine/Input/Devices/Mouse.cs:189-196 | the focused branch: the pending calls run, the position is replayed, the queue empties and the collections stay valid |
| `MouseDevice.Mouse.Update` | BubbasEngine/Engine/Input/Devices/Mouse.cs:180-197 | register and position are pushed first. When focused, the pending calls run, the position is replayed and the queue empties. When unfocused, nothing runs and the queue is kept |
| `MouseDevice.Mouse.CreateGameStateBindigs` | BubbasEngine/Engine/Input/Devices/Mouse.cs:200-208 | maps the state to a fresh empty collection and returns it |
| `MouseDevice.Mouse.RemoveGameBindings` | BubbasEngine/Engine/Input/Devices/Mouse.cs:209-213 | deletes only that state's entry |
| `MouseDevice.Mouse.AddOnPressed` | BubbasEngine/Engine/Input/Devices/Mouse.cs:216-220 | only appends one request to the begin-frame queue |
| `MouseDevice.Mouse.AddOnReleased` | BubbasEngine/Engine/Input/Devices/Mouse.cs:221-225 | only appends one request to the begin-frame queue |
| `MouseDevice.Mouse.AddOnWheelChanged` | BubbasEngine/Engine/Input/Devices/Mouse.cs:226-230 | only appends one request to the begin-frame queue |
| `MouseDevice.Mouse.AddOnMoved` | BubbasEngine/Engine/Input/Devices/Mouse.cs:231-235 | only appends one request to the begin-frame queue |
| `MouseDevice.Mouse.RemoveOnPressed` | BubbasEngine/Engine/Input/Devices/Mouse.cs:238-242 | only appends one request to the begin-frame queue |
| `MouseDevice.Mouse.RemoveOnReleased` | BubbasEngine/Engine/Input/Devices/Mouse.cs:243-247 | only appends one request to the begin-frame queue |
| `MouseDevice.Mouse.RemoveOnWheelChanged` | BubbasEngine/Engine/Input/Devices/Mouse.cs:248-252 | only appends one request to the begin-frame queue |
| `MouseDevice.Mouse.RemoveOnMoved` | BubbasEngine/Engine/Input/Devices/Mouse.cs:253-257 | only appends one request to the begin-frame queue |
| `MouseDevice.Mouse.IsButtonDown` | BubbasEngine/Engine/Input/Devices/Mouse.cs:264-272 | throws exactly for `ButtonCount` |
| `MouseDevice.Mouse.IsButtonUp` | BubbasEngine/Engine/Input/Devices/Mouse.cs:278-286 | throws exactly for `ButtonCount` |
| `MouseDevice.Mouse.AnyButtonDown` | BubbasEngine/Engine/Input/Devices/Mouse.cs:288-292 | corrected: true exactly when some real button is down |
| `MouseDevice.Mouse.GetButtonState` | BubbasEngine/Engine/Input/Devices/Mouse.cs:303-307 | throws exactly for `ButtonCount` |
| `MouseDevice.Mouse.OnButtonPressed` | BubbasEngine/Engine/Input/Devices/Mouse.cs:391-411 | the button's slot becomes true and a dispatch is queued; `ButtonCount` throws with nothing changed |
| `MouseDevice.Mouse.OnButtonReleased` | BubbasEngine/Engine/Input/Devices/Mouse.cs:412-432 | the button's slot becomes false and a dispatch is queued; `ButtonCount` throws with nothing changed |
| `MouseDevice.Mouse.OnWheelMoved` | BubbasEngine/Engine/Input/Devices/Mouse.cs:433-450 | queues one wheel dispatch and logs it |
| `MouseDevice.Mouse.OnMoved` | BubbasEngine/Engine/Input/Devices/Mouse.cs:451-480 | queues the move dispatch, then the position step to the event's coordinates |
| `MouseDevice.UpIsNotDown` | BubbasEngine/Engine/Input/Devices/Mouse.cs:264-286 | for a real button, `IsButtonUp == !IsButtonDown` |
| `MouseDevice.ButtonStateMatchesRegister` | BubbasEngine/Engine/Input/Devices/Mouse.cs:303-321 | the state of a real button is `StateOf(current, old)` and agrees with `IsButtonDown` |
| `MouseDevice.AnyButtonDownMatchesQueries` | BubbasEngine/Engine/Input/Devices/Mouse.cs:264-272 | the corrected query is true exactly when `IsButtonDown` is true for some real button |
| `MouseDevice.Mouse.IsAnyButtonDown` | BubbasEngine/Engine/Input/Devices/Mouse.cs:292-296 | as written: reads register slot `ButtonCount`; `MouseDevice.AnyButtonDownAlwaysThrows` states that this always throws |
| `MouseDevice.AnyButtonDownAlwaysThrows` | BubbasEngine/Engine/Input/Devices/Mouse.cs:162-163 | as written, `IsAnyButtonDown` reads past the register and always throws |
| `Input.DeviceGates` | BubbasEngine/Engine/Input/InputManager.cs:102-108 | each gate is true exactly when the window is focused or neither the global flag nor the device's flag is set |
| `Input.FocusOpensEveryGate` | BubbasEngine/Engine/Input/InputManager.cs:105-108 | a focused window opens every gate |
| `Input.GlobalFlagClosesEveryGate` | BubbasEngine/Engine/Input/InputManager.cs:105-108 | with `FocusedInputOnly` set and no focus, every gate is closed |
| `Input.NoFlagIgnoresFocus` | BubbasEngine/Engine/Input/InputManager.cs:105-108 | with no flag set, every gate is open whatever the focus |
| `Input.SubscribedStep` | BubbasEngine/Engine/Input/InputManager.cs:88-95 | attaching subscribes one more copy of the window; detaching removes one |
| `Input.InputManager.constructor` | BubbasEngine/Engine/Input/InputManager.cs:63-75 | fresh devices, the given settings, no window, empty one-time queue |
| `Input.InputManager.RemoveWindow` | BubbasEngine/Engine/Input/InputManager.cs:91-99 | detaches the stored window and leaves none; with no window the detach throws NullReference |
| `Input.InputManager.Attach` | BubbasEngine/Engine/Input/InputManager.cs:84-88 | with no window stored, the new one is stored and attached, and it is the only one subscribed |
| `Input.InputManager.SetWindow` | BubbasEngine/Engine/Input/InputManager.cs:78-90 | the previous window is detached before the new one is stored and attached; only the stored window stays subscribed |
| `Input.InputManager.BeginFrame` | BubbasEngine/Engine/Input/InputManager.cs:119-133 | the one-time queue is drained and cleared, then the keyboard's requests run, then the mouse's |
| `Input.InputManager.Update` | BubbasEngine/Engine/Input/InputManager.cs:102-116 | throws exactly when a flag is set and there is no window. Otherwise the keyboard updates before the mouse, each under its gate |
| `Containers.ContentContainer.constructor` | BubbasEngine/Engine/Content/ContentContainer.cs:55-58 | only the path is set; everything else keeps its default |
| `ContentArgs.ExtensionTable.constructor` | BubbasEngine/Engine/Content/ContentManagerArgs.cs:21 | an empty table |
| `ContentArgs.ExtensionTable.Copy` | BubbasEngine/Engine/Content/ContentManager.cs:52 | `new Dictionary(other)`: a new table with the same entries |
| `ContentArgs.ExtensionTable.Add` | BubbasEngine/Engine/Content/ContentManagerArgs.cs:24-27 | `Dictionary.Add` throws for a key already present and otherwise adds the entry |
| `ContentArgs.DefaultExtensionsExactly` | BubbasEngine/Engine/Content/ContentManagerArgs.cs:21-27 | the default table maps exactly png, jpg, jpeg and bmp, each to the texture processor |
| `ContentArgs.ContentManagerArgs.constructor` | BubbasEngine/Engine/Content/ContentManagerArgs.cs:16-28 | the default arguments: relative `content\` path, unsafe loading off, the image table |
| `ContentArgs.ContentManagerArgs.Copy` | BubbasEngine/Engine/Content/ContentManagerArgs.cs:29-35 | the same settings over a new copy of the table |
| `Content.Split` | BubbasEngine/Engine/Content/ContentManager.cs:197 | `Split('.')` yields at least one piece |
| `Content.JoinSplit` | BubbasEngine/Engine/Content/ContentManager.cs:197 | joining the pieces with dots gives back the path |
| `Content.SplitPiecesHaveNoDot` | BubbasEngine/Engine/Content/ContentManager.cs:197 | no piece contains a dot |
| `Content.SplitSingle` | BubbasEngine/Engine/Content/ContentManager.cs:197-198 | the path is one piece exactly when it has no dot |
| `Content.Extension` | BubbasEngine/Engine/Content/ContentManager.cs:197-198 | the last piece of the split path; its meaning is stated by `Content.ExtensionIsLastDotFreeSuffix` and `Content.ExtensionHasNoDot` |
| `Content.ExtensionStep` | BubbasEngine/Engine/Content/ContentManager.cs:197-198 | the extension of a path in terms of the extension of its tail |
| `Content.ExtensionIsLastDotFreeSuffix` | BubbasEngine/Engine/Content/ContentManager.cs:197-198 | the extension is the text after the last dot, or the whole path when there is no dot |
| `Content.ExtensionHasNoDot` | BubbasEngine/Engine/Content/ContentManager.cs:197-198 | the extension contains no dot |
| `Content.AssumeProcess` | BubbasEngine/Engine/Content/ContentManager.cs:194-210 | the processor registered for the extension, else ProcessByteArray |
| `Content.DefaultProcessChoice` | BubbasEngine/Engine/Content/ContentManagerArgs.cs:21-27 | with the default table, image extensions get the texture processor and everything else the byte-array reader |
| `Content.HashObject` | BubbasEngine/Engine/Content/ContentManager.cs:212-215 | every hash is the empty string |
| `Content.WatchedDirectory` | BubbasEngine/Engine/Content/ContentManager.cs:60 | the watcher directory is the base path without its last character; an empty base path throws |
| `Content.DefaultWatchedDirectory` | BubbasEngine/Engine/Content/ContentManagerArgs.cs:18 | with the default content path the watcher observes the `content` directory itself |
| `Content.ContentManager.constructor` | BubbasEngine/Engine/Content/ContentManager.cs:48-73 | an empty container table, a copy of the extension table, and the base path built from the base directory and the content path |
| `Content.ContentManager.LoadFromFile` | BubbasEngine/Engine/Content/ContentManager.cs:148-165 | the payload is stored, its hash is set, and loading is marked complete |
| `Content.ContentManager.LoadContent` | BubbasEngine/Engine/Content/ContentManager.cs:106-122 | returns the held container, or a fresh one with the path, synchronous loading and the process set, then loaded |
| `Content.ContentManager.LoadContentByExtension` | BubbasEngine/Engine/Content/ContentManager.cs:102-105 | the same, with the process chosen by `AssumeProcess` |
| `Content.ContentManager.LoadContentAsync` | BubbasEngine/Engine/Content/ContentManager.cs:128-145 | a fresh container marked asynchronous and incomplete, with the process set |
| `Content.ContentManager.LoadContentAsyncByExtension` | BubbasEngine/Engine/Content/ContentManager.cs:124-127 | the same, with the process chosen by `AssumeProcess` |
| `Content.ContentManager.OnChanged` | BubbasEngine/Engine/Content/ContentManager.cs:76-91 | throws exactly when the full path is shorter than the base path; a held synchronous container is reloaded |
| `Content.ContentManager.ContainsPath` | BubbasEngine/Engine/Content/ContentManager.cs:218-221 | key lookup in the container table; `Content.NothingIsHeld` states it is always false |
| `Content.ContentManager.ContainsContent` | BubbasEngine/Engine/Content/ContentManager.cs:222-225 | value lookup in the container table; `Content.NothingIsHeld` states it is always false |
| `Content.NothingIsHeld` | BubbasEngine/Engine/Content/ContentManager.cs:51 | the container table stays empty, so `ContainsPath` and `ContainsContent` are always false |

## Left out

- SFML natives are not modelled: the raw window events arrive as method arguments and the window is an identity. This covers `sfKeyboard_isKeyPressed`, `SetPosition`/`GetPosition`/`SetDesktopPosition`/`GetDesktopPosition` and the devices' `ApplyWindow`/`RemoveWindow` event wiring. `InputManager` records the wiring in a ghost attach/detach log instead.
- `GameConsole` output is a ghost `log` of `Diagnostic` values; the exact message text is not modelled.
- Handlers have no effects. A handler that subscribes, unsubscribes or raises events during a dispatch (re-entrancy) is not modelled.
- `Dictionary` enumeration order is modelled as insertion order, with removal dropping the key. .NET reuses the slot of a removed entry, so a state re-added after another removal can enumerate earlier than modelled.
- `InputSettings` and `InputSettingsArgs` are not part of this model beyond the four focus flags read by `UpdateDevices`. Joysticks and the gamepad gate's consumer are not modelled.
- `InputManager` never queues a one-time action, so its `_beginFrame` queue is modelled as a sequence of handler identities that is drained and cleared.
- File and thread I/O is not modelled. What `ProcessByteArray`, `ProcessTexture` or a game's processor reads from a `FileStream` is an opaque `Payload` passed in. The work item `LoadFromFileAsync` queues on the thread pool, and the exception thrown when queueing fails, are not modelled.
- `Content.ContentManager.LoadContentAsync`: states the container before its load is queued and not when the queued load completes.
- `Content.ContentManager.OnChanged`: for an asynchronous container the re-queued load is not modelled, and `OnRenamed` has an empty body.
- The `FileSystemWatcher` is not modelled. Its directory is the value `WatchedDirectory` computes; the `String.Remove` exception the constructor throws for an empty base path is kept as that value's failure rather than as a throwing constructor. `AppDomain.CurrentDomain.BaseDirectory` is a constructor parameter.
- `Vector2f` and the float conversions `Vector2i(Vector2f)`/`Vector2u(Vector2f)` are not modelled (floating point).
- `Vec2i.ToVector2u` models `Vector2u(Vector2i)`; it sits in the `Vec2i` module so that the two conversions are proved inverse in one place.
- `MouseDevice.Mouse.Valid` carries the no-empty-bucket invariant for the default collection only. The per-state collections are handed to the game by `CreateGameStateBindigs`, which can change them without the device, so the device cannot keep their invariant.
- `Rect.ContainsExactly`: proved only when `Left + Width` and `Top + Height` do not overflow; with wrap-around the test differs, as `Rect.WrappedRectContains` shows.
- `Rect.OverlapSpansMinMax`: proved only when one of the two rectangles does not overflow.
- `Rect.OverlapInBoth`: proved only when neither rectangle overflows.
- `Rect.EmptyRect`: proved only when the rectangle does not overflow.
- `ToString` of the geometry types, `ContentContainer.GetContent`/`IsValueType` and the `KeyEventArgs`/mouse event-argument conversions from SFML records are not modelled; the event arguments are plain records.

## Findings

| source | as written | input that shows it | evidently intended | confidence | as-written member | corrected member |
|---|---|---|---|---|---|---|
| BubbasEngine/Engine/Input/Devices/Mouse.cs:292-296 | `IsAnyButtonDown` returns register slot `ButtonCount` of a register that has `ButtonCount` slots (Mouse.cs:162) | any call, in any state | true exactly when some button is currently down | not executed | `MouseDevice.Mouse.IsAnyButtonDown` (with `MouseDevice.AnyButtonDownAlwaysThrows`) | `MouseDevice.Mouse.AnyButtonDown` (with `MouseDevice.AnyButtonDownMatchesQueries`) |
