# Event-Request Architecture: a Dafny model of the messaging layer

This project models the runtime messaging layer of the Unity package
Event-Request-Architecture and proves properties of that model in Dafny.

**Event bus.** `EventManager` keeps two tables, one for zero-argument and
one for one-argument callbacks. Each maps an event name to an ordered list
of `(owner, callback)` bindings.
- Subscribing appends a binding.
- Removing deletes every binding with an equal callback.
- Triggering invokes the bindings of valid owners in list order, then prunes
  the bindings of invalid owners.

**Request store.** `RequestManager` holds three things:
- a map from keys to boxed values;
- per-key lists of typed field bindings;
- a set of persistent keys.

Setting a value writes it into every live field of that type bound to the
key. A scene load keeps only the persistent values.

**Smaller parts:**
- `ObservableField<T>`, the value cell the request store writes into;
- the auto-unsubscribe proxy;
- the three name attributes;
- the two drafts of the attribute binder, `Subscriber`;
- the startup attribute validator;
- the temp store;
- the ScriptableObject registry;
- `EventSubscriber`;
- the event-name scanning of the dependency window, `ScriptFinder`.

Objects the source updates in place are Dafny classes. Their methods carry
`modifies` clauses and state the whole new state. The lists and
dictionaries they own are `seq` and `map` fields. The loops of the source
(trigger scans, `SetValue`'s push-and-prune, the binder's `foreach` passes,
the validator, `RegisterAll`, `OnDestroy`, the scan of call sites) are
`while`/`for` loops proved against specification functions. The
properties the source promises are proved about those functions as lemmas.

Host inputs become parameters:
- Unity liveness is `Liveness`: the set of objects not destroyed and the set
  active in the hierarchy.
- Reflection is an explicit table of `MethodInfo`/`FieldInfo` records. A
  field carries all its `[Request]` attributes, because `RequestAttribute`
  allows several. `GetCustomAttribute<RequestAttribute>` then throws
  `AmbiguousMatchException`, and the request passes return `threw`.
- Resource loading is a boolean saying whether the asset was found.
- Callbacks are identities. Invoking one appends to a trace.
- C# runtime types are `TypeTag`s: `object`, reference types and value types.
- Boxed values are `Value`.

Files:
- `values.dfy`: shared vocabulary.
- `seqs.dfy`: the `List<T>` operations `RemoveAll` and `Remove`.
- `attributes.dfy`: the three attributes.
- `observable.dfy`: `ObservableField<T>`.
- `event_bus.dfy`: `EventManager`.
- `auto_unsubscribe.dfy`: `EventAutoUnsubscribeProxy`.
- `request_store.dfy`: `RequestManager`.
- `binder.dfy`: the binder semantics both drafts share.
- `subscriber_current.dfy`: `Managers/Subscriber.cs`.
- `subscriber_legacy.dfy`: `Subscriber.cs`.
- `attribute_checker.dfy`: `Managers/AttributeChecker.cs`.
- `temp_store.dfy`: `TempManager`.
- `so_registry.dfy`: `SOManager` and `ScriptableObjectRegistry`.
- `event_subscriber.dfy`: `EventSubscriber`.
- `script_finder.dfy`: `ExtractEventName`, `FindClassName` and the
  bookkeeping of `ScanEvents`.

`EventAttribute`, `RequestAttribute` and `TempRequestAttribute` have the
same constructors and the same getters at the same lines. One `Attributes`
datatype with a kind tag models all three, so the rows below cite
`Attributes/EventAttribute.cs` for all three files.

Neither binder draft calls the `EventManager` API shown. The current draft
calls `EventManager.Subscribe`/`Unsubscribe` and finds the generic overload
by reflection. The older draft calls `EventManager.Access.Subscribe`. The
binder therefore talks to an abstract bus and store: each pass produces a
log of `Call`s. Which generic overloads the bus offers is a parameter,
`BusInterface`.

Some functions have no row of their own. They are the reference definitions of source steps, and the rows of the contracts that use them cite the source:
- `Binder.CurrentStep` and `Binder.LegacyStep`: one method's calls in each binder draft;
- `EventBus.NoArgInvocations` and `EventBus.TypedInvocations`: what a trigger invokes;
- `ScriptFinder.SiteScan`, `FileScan` and `FilesScan`: the scan over call sites, one file and all files;
- `ScriptFinder.AddResults` and `Assign`: the bookkeeping of `_results` and of the class maps.

## Model

| member | source | states |
|---|---|---|
| Values.Default | Managers/Request/RequestManager.cs:97 | `default(T)` is a valid `T` and is null exactly for reference types |
| Seqs.Filter | Managers/Event/EventManager.cs:53 | The elements kept by `RemoveAll` are elements of the list that pass the test, and every passing element is kept |
| Seqs.Reject | Managers/Event/EventManager.cs:63-70 | The collected `toRemove` list holds exactly the failing elements of the list |
| Seqs.RemoveFirst | Managers/Event/EventManager.cs:77-78 | `List.Remove(x)` leaves a list without `x` unchanged and otherwise shortens it by exactly one |
| Seqs.RemoveFirstAt | Managers/Event/EventManager.cs:77-78 | `List.Remove(x)` drops exactly the first occurrence: when the first `x` is at `k`, the result is the list without position `k` |
| Seqs.RemoveFirstMultiset | Managers/Event/EventManager.cs:77-78 | `List.Remove(x)` removes one occurrence of `x` and keeps every other element |
| Seqs.FilterAppend | Managers/Event/EventManager.cs:53 | Filtering distributes over concatenation |
| Seqs.RejectAppend | Managers/Event/EventManager.cs:63-70 | Collecting the rejected elements distributes over concatenation |
| Seqs.FilterIdempotent | Managers/Request/RequestManager.cs:72-73 | A second pruning with the same test removes nothing more |
| Seqs.RejectNone | Managers/Event/EventManager.cs:63-70 | A list whose every element passes collects nothing for removal |
| Seqs.FilterNone | Managers/AttributeChecker.cs:14-23 | A list whose every element fails keeps nothing |
| Seqs.RemoveFirstSkip | Managers/Event/EventManager.cs:77-78 | `Remove` of another element keeps the head of the list in front |
| Seqs.RemoveEachSkip | Managers/Event/EventManager.cs:77-78 | Removing elements none of which is the head keeps the head in front |
| Seqs.RemoveEachRejected | Managers/Event/EventManager.cs:63-78 | Collecting the failing bindings and then calling `Remove` on each gives exactly the filter of the passing bindings, in order |
| Seqs.RemoveEach | Managers/Event/EventManager.cs:77-78 | `foreach (var item in toRemove) list.Remove(item)` takes away one occurrence per listed element, as far as occurrences are left (multiset difference) |
| Seqs.RemoveRejected | Managers/Event/EventManager.cs:63-78 | Removing, one `Remove` at a time, exactly the collected failing elements leaves exactly the passing elements, in order |
| Seqs.RemoveAllListed | Managers/Event/EventManager.cs:77-78 | The removal loop computes one `Remove` per listed element, in order |
| Attributes.Qualify | Attributes/EventAttribute.cs:26 | `$"{a}.{b}"` is `a`, a dot, then `b` |
| Attributes.GetEventNameByID | Attributes/EventAttribute.cs:24-27 | The bare name when `ObjectID` is false, otherwise `id + "." + name` |
| Attributes.GetEventName | Attributes/EventAttribute.cs:29-32 | The bare name when `ObjectName` is null or empty, otherwise `ObjectName + "." + name` |
| Attributes.ByName | Attributes/EventAttribute.cs:10 | The one-argument constructor gives the bare name from both getters, whatever the id |
| Attributes.ByObjectName | Attributes/EventAttribute.cs:12-16 | The `(objectName, eventName)` constructor makes `GetEventNameByID` return the bare name whatever the id, and `GetEventName` scope the name by a non-empty object name |
| Attributes.ById | Attributes/EventAttribute.cs:18-22 | The `(getID, eventName)` constructor makes `GetEventName` return the bare name, and `GetEventNameByID(id)` scope the name by `id` exactly when `getID` |
| Attributes.InstanceChannelsDistinct | Attributes/EventAttribute.cs:26 | For instance ids without a dot, two instance-scoped names are equal only if the ids and the bare names are equal |
| Observable.Notify | Managers/Request/ObservableField.cs:20-21 | Invoking an invocation list notifies each delegate once, in order, with the value |
| Observable.FiredContents | Managers/Request/ObservableField.cs:17-21 | An equal write fires nothing. A change fires each typed callback, then each `OnValueChanged` handler, exactly once each, with the new value |
| Observable.RemoveLast | Managers/Request/ObservableField.cs:10 | `event -= h` removes exactly the last occurrence of `h`: the result is the list without the element at an index holding `h` with no `h` after it, one shorter and with one `h` fewer as a multiset; a list without `h` is unchanged |
| Observable.LastIndex | Managers/Request/ObservableField.cs:10 | Where `h` last occurs: an index holding `h` with no `h` after it, or -1 exactly when `h` is absent |
| Observable.States | Managers/Request/ObservableField.cs:7-10 | The recorded state of every field object, keyed by the object |
| Observable.ObservableField.constructor | Managers/Request/ObservableField.cs:25-28 | Stores the initial value, which is a `T`, and fires nothing |
| Observable.ObservableField.SetValue | Managers/Request/ObservableField.cs:15-22 | The value becomes `v`, still a `T`; the notifications `Fired` says are appended; the handler lists are unchanged |
| Observable.ObservableField.GetValue | Managers/Request/ObservableField.cs:30 | Returns the stored value, which is a `T` |
| Observable.ObservableField.SetObject | Managers/Request/ObservableField.cs:32-38 | A non-`T` is ignored; a `T` behaves as the `Value` setter; either way the stored value stays a `T` |
| Observable.ObservableField.AddChangeHandler | Managers/Request/ObservableField.cs:10 | `+=` appends the handler and changes nothing else |
| Observable.ObservableField.RemoveChangeHandler | Managers/Request/ObservableField.cs:10 | `-=` removes the last occurrence of the handler and changes nothing else |
| Observable.SecondWriteSilent | Managers/Request/ObservableField.cs:17-21 | Writing the same value twice in a row fires callbacks at most once |
| Observable.SetTwice | Managers/Request/ObservableField.cs:15-22 | Two setter calls with the same value leave the notifications of one call |
| EventBus.EventManager.constructor | Managers/Event/EventManager.cs:9-10 | Both tables and the trace start empty, with the arity invariant |
| EventBus.EventManager.OnApplicationQuit | Managers/Event/EventManager.cs:18-22 | Both tables become empty and nothing is invoked |
| EventBus.AutoUnsubscribe | Managers/Event/EventManager.cs:103-112 | A release is registered exactly for an owner that is neither null nor destroyed, and it removes this callback under this name; every owner valid for a trigger gets one |
| EventBus.EventManager.AddEvent | Managers/Event/EventManager.cs:24-35 | Exactly one `Action` binding is appended at the end of that name's list, creating it if absent. The other table is untouched. The release action is handed over only for a live owner |
| EventBus.EventManager.AddTypedEvent | Managers/Event/EventManager.cs:37-48 | The same for `Action<T>` bindings in the one-argument table |
| EventBus.EventManager.RemoveEvent | Managers/Event/EventManager.cs:50-57 | Every binding with an equal callback leaves that name's list in both tables. An absent name is a no-op and an emptied list stays |
| EventBus.EventManager.Trigger | Managers/Event/EventManager.cs:59-79 | The trace grows by the valid `Action` bindings' invocations, in order. The list keeps exactly the valid-owner bindings, in order. Nothing else changes, and a missing name changes nothing |
| EventBus.EventManager.TriggerWith | Managers/Event/EventManager.cs:81-101 | The trace grows by the valid `Action<T>` bindings' invocations, with the argument. Valid bindings of another type are kept. Invalid owners are pruned |
| EventBus.ScanNoArg | Managers/Event/EventManager.cs:63-75 | The scan loop collects exactly the invalid-owner bindings and invokes exactly the valid `Action`s, in order |
| EventBus.ScanTyped | Managers/Event/EventManager.cs:85-97 | The scan loop collects exactly the invalid-owner bindings and invokes exactly the valid `Action<T>`s, in order |
| EventBus.ScanStep | Managers/Event/EventManager.cs:65-75 | One binding either goes to `toRemove` or, when its type fits, is invoked |
| EventBus.SurvivorsKeepArity | Managers/Event/EventManager.cs:77-78 | Pruning never moves a binding into the other arity's table |
| EventBus.NoArgInvocationsAppend | Managers/Event/EventManager.cs:65-75 | Dispatch over a concatenation is the concatenation of the dispatches |
| EventBus.TypedInvocationsAppend | Managers/Event/EventManager.cs:87-97 | The same for typed dispatch |
| EventBus.SubscribeThenTrigger | Managers/Event/EventManager.cs:24-35 | A newly added callback runs last on the next trigger, exactly when its owner is valid |
| EventBus.PruneKeepsNoArgDispatch | Managers/Event/EventManager.cs:77-78 | Pruning removes only bindings the trigger skipped: triggering again invokes the same callbacks |
| EventBus.PruneKeepsTypedDispatch | Managers/Event/EventManager.cs:99-100 | The same for `Trigger<T>` |
| EventBus.SecondTriggerPrunesNothing | Managers/Event/EventManager.cs:77-78 | A second trigger with the same liveness prunes nothing |
| EventBus.NoArgInvokedIff | Managers/Event/EventManager.cs:65-75 | `Trigger` invokes a callback if and only if it is an `Action` bound under the name by a valid owner |
| EventBus.TypedInvokedIff | Managers/Event/EventManager.cs:87-97 | `Trigger<T>` invokes a callback if and only if it is an `Action<T>` bound by a valid owner, and always with the argument |
| EventBus.NoArgInvokesOnlyActions | Managers/Event/EventManager.cs:73-74 | `Trigger` only ever invokes `Action`s, without argument |
| EventBus.RemovedNeverInvoked | Managers/Event/EventManager.cs:50-57 | After `RemoveEvent(name, cb)`, neither trigger of that name invokes `cb` |
| AutoUnsubscribe.Present | Managers/Event/EventAutoUnsubscribeProxy.cs:18-19 | `a?.Invoke()` over the list runs exactly the non-null actions |
| AutoUnsubscribe.PresentAppend | Managers/Event/EventAutoUnsubscribeProxy.cs:18-19 | Running a concatenation runs each part in turn |
| AutoUnsubscribe.AutoUnsubscribeProxy.constructor | Managers/Event/EventAutoUnsubscribeProxy.cs:9 | The action list starts empty |
| AutoUnsubscribe.AutoUnsubscribeProxy.Register | Managers/Event/EventAutoUnsubscribeProxy.cs:11-14 | Appends the action, without a guard, and runs nothing |
| AutoUnsubscribe.AutoUnsubscribeProxy.OnDestroy | Managers/Event/EventAutoUnsubscribeProxy.cs:16-22 | Runs every registered non-null action once, in registration order, skipping nulls, then clears the list |
| AutoUnsubscribe.DestroyTwice | Managers/Event/EventAutoUnsubscribeProxy.cs:21 | A second `OnDestroy` runs nothing |
| RequestStore.TargetsStep | Managers/Request/RequestManager.cs:58-69 | A binding adds its field to the written set exactly when it is a live binding of type `T` |
| RequestStore.PushStep | Managers/Request/RequestManager.cs:58-70 | One step of the push loop: a dead `T` binding is collected, a live one's field is written, others are skipped |
| RequestStore.RequestManager.constructor | Managers/Request/RequestManager.cs:19-21 | All three collections start empty |
| RequestStore.RequestManager.OnApplicationQuit | Managers/Request/RequestManager.cs:26-31 | All three collections are emptied |
| RequestStore.RequestManager.OnSceneLoaded | Managers/Request/RequestManager.cs:33-47 | Exactly the present values of persistent keys survive, unchanged. Every binding is dropped and the persistent set is unchanged |
| RequestStore.RequestManager.SetValue | Managers/Request/RequestManager.cs:50-75 | The key maps to `v`. The live `T` fields bound to it are written, others untouched. The key's list keeps exactly the other-type and live bindings, in order |
| RequestStore.RequestManager.TempSetValue | Managers/Request/RequestManager.cs:77-81 | Adds the key to the persistent set and otherwise behaves exactly as `SetValue` |
| RequestStore.RequestManager.ClearValue | Managers/Request/RequestManager.cs:83-87 | Removes the key from the values and the persistent set and leaves its bindings |
| RequestStore.RequestManager.TryGetValue | Managers/Request/RequestManager.cs:89-99 | Succeeds with the stored value if and only if the key is present and its value is a `T`. Otherwise it returns `default(T)`, for an absent key and a mismatched value alike |
| RequestStore.RequestManager.AddRequest | Managers/Request/RequestManager.cs:102-126 | Appends one binding, creating the list if absent. A destroyed owner makes `GetComponent` throw: the binding stays, with no release and no write. Otherwise a non-null owner gets the release and a stored `T` is written into the field at once |
| RequestStore.RequestManager.Unsubscribe | Managers/Request/RequestManager.cs:128-137 | The bindings become `Unbound`: the field's bindings leave the key's list, and the key goes once its list is empty |
| RequestStore.WriteTarget | Managers/Request/RequestManager.cs:69 | One live binding's write adds its field to the written targets and touches no other field |
| RequestStore.PushToFields | Managers/Request/RequestManager.cs:56-70 | The loop collects exactly the dead `T` bindings. It writes `v` into exactly the live `T` fields and leaves other fields unchanged |
| RequestStore.PruneKeepsOtherTypes | Managers/Request/RequestManager.cs:60-61 | Pruning keeps every binding of another type, all of them and in order |
| RequestStore.PruneExact | Managers/Request/RequestManager.cs:60-73 | A binding survives `SetValue<T>` if and only if it is of another type or its owner is alive |
| RequestStore.SecondSetValuePrunesNothing | Managers/Request/RequestManager.cs:72-73 | A second `SetValue<T>` with the same liveness prunes nothing more |
| RequestStore.UnboundRemovesField | Managers/Request/RequestManager.cs:128-137 | No binding of the field is left under the key; the other bindings there stay; no list is left empty; other keys are untouched |
| RequestStore.UnsubscribeIdempotent | Managers/Request/RequestManager.cs:128-137 | Running a release twice equals running it once |
| RequestStore.AddThenUnsubscribe | Managers/Request/RequestManager.cs:110-119 | Subscribing and then running the release equals running the release alone |
| RequestStore.TempValueSurvivesSceneLoad | Managers/Request/RequestManager.cs:77-99 | A temp-set value survives a scene load and reads back (a null as absent); the bindings are gone |
| RequestStore.PlainValueLostOnSceneLoad | Managers/Request/RequestManager.cs:33-47 | A plain-set value under a non-persistent key is gone after a scene load |
| RequestStore.ClearedValueGone | Managers/Request/RequestManager.cs:83-87 | A cleared key reads back as absent, before and after a scene load |
| Binder.ResolveName | Managers/Subscriber.cs:175-187 | `"<instanceId>.<name>"` when `ObjectID` is set, otherwise the attribute's `GetEventName()` |
| Binder.ThenAssoc | Managers/Subscriber.cs:29-31 | Sequencing of passes is associative |
| Binder.ThenUnit | Managers/Subscriber.cs:29-31 | The empty pass is a unit of sequencing |
| Binder.PassStep | Managers/Subscriber.cs:29-31 | One attribute's step appends its calls, or ends the pass when it throws |
| Binder.CurrentAttrsFacts | Managers/Subscriber.cs:31-71 | Over one method's attributes the current draft never throws. It makes one call per attribute, routed by arity |
| Binder.CurrentPassFacts | Managers/Subscriber.cs:26-74 | An event pass of the current draft never throws. It makes exactly one call per `[Event]` attribute. Zero parameters use the plain overload, one parameter the generic overload for that type (or an error when the bus has none), more an error |
| Binder.LegacyAttrsFacts | Subscriber.cs:29-44 | Over one method's attributes the older draft throws exactly when it has an attribute and cannot be bound; it uses only the plain overloads |
| Binder.LegacyPassFacts | Subscriber.cs:24-46 | An event pass of the older draft throws exactly when some `[Event]` method from the starting one on has parameters other than one `object`. It only calls the plain overloads with `Action` or `Action<object>` |
| Binder.UnbindableFromStep | Subscriber.cs:24-46 | Some unbindable `[Event]` method from `from` on is either the method at `from` or one after it |
| Binder.MirrorAll | Managers/Subscriber.cs:76-121 | Mirroring maps each call to its unsubscribe counterpart, position by position |
| Binder.MirrorThen | Managers/Subscriber.cs:76-121 | Mirroring commutes with sequencing |
| Binder.MirrorAttrs | Managers/Subscriber.cs:81-119 | Over one method, unsubscription makes the mirrored calls of subscription |
| Binder.UnsubscribeMirrorsSubscribe | Managers/Subscriber.cs:76-121 | Event unsubscription resolves the same names and arities as subscription and calls the matching unsubscribe, in the same order, throwing at the same place |
| Binder.Snapshot | Managers/Subscriber.cs:132 | The current value of every observable field |
| Binder.CoversPrefix | Managers/Subscriber.cs:126-139 | A snapshot covering all fields covers any prefix |
| Binder.SnapshotCovers | Managers/Subscriber.cs:126-139 | A snapshot of every observable field covers the pass |
| Binder.AttachedFromPass | Managers/Subscriber.cs:137 | Every closure a pass attaches belongs to that component and that pass |
| Binder.DetachFreshIsNoOp | Managers/Subscriber.cs:155 | `-=` with a closure never attached removes nothing |
| Binder.ObservablesPrefix | Managers/Subscriber.cs:126-139 | The field objects of a prefix are among those of the whole |
| Binder.AttachedExtend | Managers/Subscriber.cs:137 | One more field's `+=` grows its own field object's handlers by its closure and no other object's |
| Binder.AttachClosure | Managers/Subscriber.cs:137 | One `+=` of the request pass keeps the pass invariant |
| Binder.AttachedSkip | Managers/Subscriber.cs:128-134 | A field without `[Request]` or without an observable value attaches nothing |
| Binder.AttachRequests | Managers/Subscriber.cs:124-140 | Throws exactly when some field has several `[Request]` attributes. Up to the first such field, attaches a new closure per requested field to its object, changing no value and firing nothing, and logs one store write of the field's current value per requested field, in order |
| Binder.Reached | Attributes/RequestAttribute.cs:3 | `GetCustomAttribute<RequestAttribute>` throws on a field with several `[Request]` attributes (which `AllowMultiple = true` permits): the index of the first such field, every field before it having at most one, and the length exactly when there is none |
| Binder.DetachRequests | Managers/Subscriber.cs:142-157 | `-=` pass: throws exactly when some field has several `[Request]` attributes; when no closure of this pass was attached, no handler leaves any field object |
| Binder.DetachedExtend | Managers/Subscriber.cs:155 | One more field's `-=` acts on its own field object only |
| Binder.DetachClosure | Managers/Subscriber.cs:155 | One `-=` of the request pass keeps the pass invariant |
| Binder.DetachedSkip | Managers/Subscriber.cs:146-152 | A skipped field removes nothing |
| Binder.DetachEach | Managers/Subscriber.cs:144-156 | Throws exactly when some field has several `[Request]` attributes. Each object's handlers become `Detached` of the old ones: one `RemoveLast` per requested field before the first such field |
| Binder.PushRequests | Managers/Subscriber.cs:159-173 | Throws exactly when some field has several `[Request]` attributes. Up to the first such field, logs one store write of each requested field's current value, in order, attaching nothing |
| Binder.PushesExtend | Managers/Subscriber.cs:138 | One more field adds its store write to the log exactly when it is requested |
| Binder.RequestPushesExact | Managers/Subscriber.cs:126-139 | A request pass writes to the store exactly for the requested fields, each under its own name with its own value |
| Binder.AttachedHasClosure | Managers/Subscriber.cs:137 | Every requested field's closure is among those attached to its object |
| Binder.ReachedHasClosure | Managers/Subscriber.cs:128-137 | A requested field before the first field with several `[Request]` attributes gets its closure from a pass that stops there |
| Binder.AttachKeepsClosuresBefore | Managers/Subscriber.cs:137 | After a pass, every closure on a field object predates the next pass |
| CurrentSubscriber.CurrentEventPass | Managers/Subscriber.cs:26-121 | The `foreach` loops of `SubscribeToEvents`/`UnsubscribeFromEvents` log exactly the calls of the pass semantics |
| CurrentSubscriber.Subscriber.constructor | Managers/Subscriber.cs:7 | A component with its reflection tables, no calls made and no pass run |
| CurrentSubscriber.Subscriber.SubscribeToEvents | Managers/Subscriber.cs:26-74 | Appends the subscribing pass's calls |
| CurrentSubscriber.Subscriber.UnsubscribeFromEvents | Managers/Subscriber.cs:76-121 | Appends the unsubscribing pass's calls |
| CurrentSubscriber.Subscriber.SubscribeToRequests | Managers/Subscriber.cs:124-140 | Attaches this pass's closures and pushes every requested field's value, up to the first field with several `[Request]` attributes, where it throws |
| CurrentSubscriber.Subscriber.UnsubscribeFromRequests | Managers/Subscriber.cs:142-157 | No handler leaves any field object, and nothing else in a field changes; throws exactly when some field has several `[Request]` attributes |
| CurrentSubscriber.Subscriber.ChangeRequest | Managers/Subscriber.cs:159-173 | Pushes the current values again, attaching nothing, up to the first field with several `[Request]` attributes, where it throws |
| CurrentSubscriber.Subscriber.OnEnable | Managers/Subscriber.cs:9-13 | Event subscription, then request subscription; throws exactly when the request pass does |
| CurrentSubscriber.Subscriber.OnDisable | Managers/Subscriber.cs:15-19 | Event unsubscription, then request unsubscription, which removes no handler; throws exactly when the request pass does |
| CurrentSubscriber.Subscriber.OnValidate | Managers/Subscriber.cs:21-24 | Only re-pushes the current values; throws exactly when the request pass does |
| CurrentSubscriber.EnableDisableCycle | Managers/Subscriber.cs:9-19 | After enable and disable, every closure the enable attached is still on its field object, and the closure of each requested field the pass reached is among its handlers: the binding leaks |
| LegacySubscriber.LegacyEventPass | Subscriber.cs:24-89 | The loops log exactly the calls of the older draft's pass and report its exception |
| LegacySubscriber.Subscriber.constructor | Subscriber.cs:5 | A component with its reflection tables, no calls made and no pass run |
| LegacySubscriber.Subscriber.SubscribeToEvents | Subscriber.cs:24-46 | Appends the subscribing pass's calls and reports its exception |
| LegacySubscriber.Subscriber.UnsubscribeFromEvents | Subscriber.cs:66-89 | Appends the unsubscribing pass's calls and reports its exception |
| LegacySubscriber.Subscriber.SubscribeToRequests | Subscriber.cs:48-64 | Attaches this pass's closures and pushes every requested field's value, up to the first field with several `[Request]` attributes, where it throws |
| LegacySubscriber.Subscriber.UnsubscribeFromRequests | Subscriber.cs:91-105 | No handler leaves any field object; throws exactly when some field has several `[Request]` attributes |
| LegacySubscriber.Subscriber.OnEnable | Subscriber.cs:7-11 | Throws exactly when some `[Event]` method cannot be bound or some field has several `[Request]` attributes. In the first case it attaches nothing; otherwise events then requests |
| LegacySubscriber.Subscriber.OnDisable | Subscriber.cs:13-17 | Event unsubscription then, unless it threw, request unsubscription; no handler is removed; throws exactly when either pass does |
| LegacySubscriber.Subscriber.OnValidate | Subscriber.cs:19-22 | A full request subscription: another closure per requested field the pass reaches; throws exactly when the request pass does |
| LegacySubscriber.ValidateOnce | Subscriber.cs:19-22 | One validation appends this component's closures to a field object, among them the field's own when the pass reaches it |
| LegacySubscriber.ValidateTwice | Subscriber.cs:19-22 | Two validations leave two different closures for the same reached field on its object |
| AttributeChecker.ReportsFor | Managers/AttributeChecker.cs:20-21 | One report per offending member, in order |
| AttributeChecker.ReportedAppend | Managers/AttributeChecker.cs:14-23 | The reports of a concatenation are the concatenation of the reports |
| AttributeChecker.OnCompilationFinished | Managers/AttributeChecker.cs:10-38 | Logs the reports for the `[Event]` methods, then those for the `[Request]` fields, visiting every member |
| AttributeChecker.ReportedExact | Managers/AttributeChecker.cs:14-37 | Every member with a known declaring type outside the `Subscriber` subclasses gets exactly its own report. Null declaring types and subclasses get none |
| AttributeChecker.CleanProjectSilent | Managers/AttributeChecker.cs:10-38 | A project whose attributed members all sit in subclasses logs nothing |
| TempStore.Cast | Managers/Temp/TempManager.cs:35 | `(T)value` succeeds exactly for a valid `T`; it fails with a null reference exactly for a null |
| TempStore.TempManager.constructor | Managers/Temp/TempManager.cs:7-8 | Both maps start empty |
| TempStore.TempManager.OnApplicationQuit | Managers/Temp/TempManager.cs:16-20 | Both maps are emptied |
| TempStore.TempManager.SetValue | Managers/Temp/TempManager.cs:22-29 | Stores the value, then calls the key's handler, if any; with no handler ever added, nothing is called |
| TempStore.TempManager.GetValue | Managers/Temp/TempManager.cs:31-38 | Returns `default(T)` for an absent key and the cast of the stored value otherwise |
| TempStore.TempManager.RemoveValue | Managers/Temp/TempManager.cs:40-52 | Removes the value and the handler; reports a deletion exactly when a value was there |
| TempStore.SetThenGet | Managers/Temp/TempManager.cs:22-38 | A stored `T` reads back as itself |
| TempStore.CastFailures | Managers/Temp/TempManager.cs:35 | A stored null read as a value type and a boxed value read as another type throw |
| SORegistry.As | Managers/SO/SOManager.cs:35 | `so as T` is null or a `T`, and a `T` itself |
| SORegistry.SOManager.constructor | Managers/SO/SOManager.cs:6-7 | No registry asset and an empty dictionary |
| SORegistry.SOManager.Initialize | Managers/SO/SOManager.cs:43-50 | Loads the registry asset unless already loaded |
| SORegistry.SOManager.Register | Managers/SO/SOManager.cs:9-19 | Inserts only an absent key; a duplicate keeps the first object and is reported |
| SORegistry.SOManager.Get | Managers/SO/SOManager.cs:21-40 | Null when the asset cannot be loaded. Otherwise `as T` of the stored object, or null for an absent key |
| SORegistry.RegisterEntries | Managers/SO/ScriptableObjectRegistry.cs:14-20 | Registering the entries never replaces an earlier registration, and every added key is non-empty and holds an object |
| SORegistry.RegisterEntriesFirstWins | Managers/SO/ScriptableObjectRegistry.cs:14-20 | Earlier registrations stay. Exactly the keys of eligible entries are added. A new key keeps the object of its earliest eligible entry |
| SORegistry.ScriptableObjectRegistry.constructor | Managers/SO/ScriptableObjectRegistry.cs:12 | Holds the given entries |
| SORegistry.ScriptableObjectRegistry.RegisterAll | Managers/SO/ScriptableObjectRegistry.cs:14-20 | One `Register` per entry with a non-empty key and an object, in order; the entries are not changed |
| EventSubscriberModel.Added | Managers/Event/EventSubscriber.cs:17-25 | Adding to a dictionary of lists appends under the name, or creates a one-element list, and leaves other names alone |
| EventSubscriberModel.EventSubscriber.constructor | Managers/Event/EventSubscriber.cs:9 | The `EventData` starts with no object, not private, no dictionary |
| EventSubscriberModel.EventSubscriber.AddEvent | Managers/Event/EventSubscriber.cs:11-26 | Sets the object and privacy; the dictionary becomes exactly `{name: [action]}` |
| EventSubscriberModel.EventSubscriber.AddEventKeeping | Managers/Event/EventSubscriber.cs:15-25 | The corrected `AddEvent`: the dictionary is created only when null, so earlier actions stay |
| EventSubscriberModel.SecondAddEventDiscardsFirst | Managers/Event/EventSubscriber.cs:15 | As written, a second `AddEvent` for another name discards the first |
| EventSubscriberModel.SecondAddEventKeepsFirst | Managers/Event/EventSubscriber.cs:15-25 | With the dictionary kept, both actions stay reachable under their names, in order |
| ScriptFinder.TrimStart | Editor/Finder/ScriptFinder.cs:89 | `TrimStart(c)` returns a suffix not starting with `c` |
| ScriptFinder.TrimEnd | Editor/Finder/ScriptFinder.cs:78 | `TrimEnd(c)` returns a prefix not ending with `c` |
| ScriptFinder.TrimWhiteStart | Editor/Finder/ScriptFinder.cs:89 | The leading half of `Trim()`: a suffix of its input that does not start with white space |
| ScriptFinder.TrimWhiteEnd | Editor/Finder/ScriptFinder.cs:89 | The trailing half of `Trim()`: a prefix of its input that does not end with white space |
| ScriptFinder.Trim | Editor/Finder/ScriptFinder.cs:89 | `Trim()` neither starts nor ends with white space |
| ScriptFinder.TrimWithin | Editor/Finder/ScriptFinder.cs:89 | `Trim()` returns a piece of its input |
| ScriptFinder.TrimmedAlready | Editor/Finder/ScriptFinder.cs:89 | `Trim()` leaves text without outer white space unchanged |
| ScriptFinder.IndexOfFrom | Editor/Finder/ScriptFinder.cs:79 | Returns -1 or a position at or after `from` where the pattern occurs |
| ScriptFinder.IndexOfFromFirst | Editor/Finder/ScriptFinder.cs:79 | The position is the first occurrence, and -1 means none |
| ScriptFinder.IndexOf | Editor/Finder/ScriptFinder.cs:79 | Returns -1 or a position where the pattern occurs |
| ScriptFinder.IndexOfFirst | Editor/Finder/ScriptFinder.cs:85 | `IndexOf` finds the first occurrence, and -1 means none |
| ScriptFinder.ExtractEventName | Editor/Finder/ScriptFinder.cs:69-96 | Fails (the `Substring` exception) exactly for the lone argument `"` |
| ScriptFinder.WithinTrans | Editor/Finder/ScriptFinder.cs:88-89 | A piece of a piece is a piece |
| ScriptFinder.SliceWithin | Editor/Finder/ScriptFinder.cs:73 | A `Substring` is a piece of its string |
| ScriptFinder.AfterBraceAt | Editor/Finder/ScriptFinder.cs:85-89 | When a character follows the first `}`, the result is the text after it with leading dots and outer white space removed |
| ScriptFinder.AfterBraceTail | Editor/Finder/ScriptFinder.cs:86-90 | When a character follows the first `}`, the result is a piece of the inner text |
| ScriptFinder.AfterBraceWhole | Editor/Finder/ScriptFinder.cs:92 | Otherwise the result is the whole inner text |
| ScriptFinder.AfterBraceIsWithin | Editor/Finder/ScriptFinder.cs:85-92 | The brace branch returns a piece of the inner text |
| ScriptFinder.InterpolatedNameWithin | Editor/Finder/ScriptFinder.cs:79-92 | The interpolated branch returns a piece of the inner text |
| ScriptFinder.SuffixWithin | Editor/Finder/ScriptFinder.cs:88 | A suffix is a piece of its string |
| ScriptFinder.TrimStartSuffix | Editor/Finder/ScriptFinder.cs:88-89 | Dropping leading dots from a tail leaves a tail |
| ScriptFinder.AfterBraceWithin | Editor/Finder/ScriptFinder.cs:88-89 | The trimmed text after the brace is a piece of the inner text |
| ScriptFinder.InterpolatedWithin | Editor/Finder/ScriptFinder.cs:76-93 | The name read off `$"..."` is a piece of the argument |
| ScriptFinder.ExtractedWithinArgument | Editor/Finder/ScriptFinder.cs:69-96 | In every branch the extracted name is a piece of the argument, so never longer |
| ScriptFinder.SecondCharAbsent | Editor/Finder/ScriptFinder.cs:79 | A two-character pattern whose second character never appears after the start does not occur |
| ScriptFinder.FirstOccurrence | Editor/Finder/ScriptFinder.cs:85 | `IndexOf(c)` is the position of the first `c` |
| ScriptFinder.QuotedName | Editor/Finder/ScriptFinder.cs:71-74 | `"name"` gives `name` |
| ScriptFinder.IdScopeNoDotBrace | Editor/Finder/ScriptFinder.cs:79-80 | `{expr}.Name` with no `{` in either part has no `.{`, so the prefix branch is not taken |
| ScriptFinder.IdScopeBrace | Editor/Finder/ScriptFinder.cs:85 | The first `}` of `{expr}.Name` is the one closing the scope expression |
| ScriptFinder.IdScopeInner | Editor/Finder/ScriptFinder.cs:85-90 | `{expr}.Name` gives `Name` |
| ScriptFinder.InterpolatedIdScope | Editor/Finder/ScriptFinder.cs:76-90 | `$"{expr}.Name"` gives the bare `Name` |
| ScriptFinder.InterpolatedPrefix | Editor/Finder/ScriptFinder.cs:76-83 | `$"Prefix.{expr}"` gives `Prefix` |
| ScriptFinder.WhiteRun | Editor/Finder/ScriptFinder.cs:102 | `\s+` is greedy: the run is all white space (the .NET `\s` set, the same as `char.IsWhiteSpace`) and stops before a non-white character |
| ScriptFinder.IdentRun | Editor/Finder/ScriptFinder.cs:102 | `[A-Za-z0-9_]*` is greedy in the same way |
| ScriptFinder.MatchAt | Editor/Finder/ScriptFinder.cs:102 | A match ends after its start, within the text, and captures an identifier |
| ScriptFinder.LastClass | Editor/Finder/ScriptFinder.cs:102-106 | Once a match is found some class is reported, and a reported class found by a match is an identifier |
| ScriptFinder.NoMatchStep | Editor/Finder/ScriptFinder.cs:102 | No match from `p` on when none at `p` and none after it |
| ScriptFinder.LastClassNone | Editor/Finder/ScriptFinder.cs:102-104 | No class is found exactly when no match starts in the text |
| ScriptFinder.LastClassChain | Editor/Finder/ScriptFinder.cs:102-106 | Over the chain of matches `Regex.Matches` finds from `p` (each the first match at or after the previous match's end), the scan reports the last one's name, or the given one for an empty chain |
| ScriptFinder.MatchChainExists | Editor/Finder/ScriptFinder.cs:102 | Every text has such a chain of matches |
| ScriptFinder.LastClassChains | Editor/Finder/ScriptFinder.cs:102-106 | The same for every chain from the start of the text |
| ScriptFinder.FindClassName | Editor/Finder/ScriptFinder.cs:98-110 | `<UnknownClass>` exactly when no match starts before the position. Otherwise the class captured by the last match of the left-to-right chain, so a `class` starting inside an earlier match never counts |
| ScriptFinder.WhiteRunIs | Editor/Finder/ScriptFinder.cs:102 | A white-space run ended by the text's end or a non-white character is what `\s+` consumes |
| ScriptFinder.IdentRunIs | Editor/Finder/ScriptFinder.cs:102 | The same for the identifier run |
| ScriptFinder.FirstMatchOfExample | Editor/Finder/ScriptFinder.cs:102 | In `class Myclass Foo` a match at 0 captures `Myclass` and ends at 13 |
| ScriptFinder.InnerMatchOfExample | Editor/Finder/ScriptFinder.cs:102 | A match at 8, inside the first, captures `Foo` |
| ScriptFinder.OverlappingMatchSkipped | Editor/Finder/ScriptFinder.cs:102-106 | Although a match starts at 8, `FindClassName` of `class Myclass Foo` is `Myclass`: the overlapping match is never tried |
| ScriptFinder.AndThenShift | Editor/Finder/ScriptFinder.cs:41-66 | Prepending a clean prefix to a scan that fails keeps the failure; to one that goes on, extends the prefix |
| ScriptFinder.SiteStep | Editor/Finder/ScriptFinder.cs:45-54 | One match: its argument either throws, ending the scan, or adds its entry |
| ScriptFinder.FileStep | Editor/Finder/ScriptFinder.cs:41-66 | One file: its scan either throws, ending everything, or adds its entries |
| ScriptFinder.AddResultsAppend | Editor/Finder/ScriptFinder.cs:51-52 | The result bookkeeping over a concatenation is the bookkeeping of each part in turn |
| ScriptFinder.AssignAppend | Editor/Finder/ScriptFinder.cs:53 | The same for the class maps |
| ScriptFinder.AddResultsFacts | Editor/Finder/ScriptFinder.cs:51-52 | `_results` only grows at its end, never holds a name twice, and ends up with exactly its old names plus the new names, in first-seen order |
| ScriptFinder.AssignLastWins | Editor/Finder/ScriptFinder.cs:53 | Last write wins: a name maps to the class of its last entry of that kind |
| ScriptFinder.AssignUnwritten | Editor/Finder/ScriptFinder.cs:64 | A name without an entry of that kind keeps what it had |
| ScriptFinder.EventIndex.constructor | Editor/Finder/ScriptFinder.cs:13-15 | Empty collections, which satisfy the index invariant |
| ScriptFinder.EventIndex.Record | Editor/Finder/ScriptFinder.cs:51-53 | One match's bookkeeping keeps every name listed once and every mapped name listed |
| ScriptFinder.EventIndex.ScanSites | Editor/Finder/ScriptFinder.cs:45-54 | The match loop leaves the collections updated by exactly the scanned entries and reports the exception |
| ScriptFinder.EventIndex.ScanFile | Editor/Finder/ScriptFinder.cs:43-65 | Trigger matches, then subscribe matches |
| ScriptFinder.EventIndex.ScanEvents | Editor/Finder/ScriptFinder.cs:41-66 | Every file in turn; an exception ends the scan; the index invariant holds |

## Left out

- Delegate variance and subclassing: `is Action<T>` and `is T` compare runtime type tags for equality. A subclass value or a contravariant delegate does not match.
- `Equals` in the `ObservableField` setter is structural equality of `Value`. A user type with its own `Equals` is not modelled.
- Unity liveness (`!owner`, `activeInHierarchy`), reflection (`GetMethods`, `GetFields`, `TypeCache`, `IsSubclassOf`) and `Resources.Load` are inputs to the operations, not computed.
- `GetComponent`/`AddComponent` of the auto-unsubscribe proxy: `AddEvent` and `AddRequest` return the release action they would register.
- `RequestAutoUnsubscribeProxy` is not part of this model. `AddRequest` tests the owner with `owner is { } go`, a plain null test, so a destroyed owner reaches `GetComponent`; the model reports the resulting `MissingReferenceException` as `threw`, after the binding was appended.
- A null `key` in `SOManager.Register`, which would make `TryAdd` throw, is not modelled. Keys are strings.
- `RequestStore.RequestManager.AddRequest`, `RequestStore.RequestManager.SetValue` and `RequestStore.RequestManager.Unsubscribe` take a field that is never null: `RequestBinding.field` is an `ObservableField`. In C# `AddRequest(key, owner, null)` appends the binding (`Managers/Request/RequestManager.cs:110`) and then throws a `NullReferenceException` at line 124 when a `T` is stored. Otherwise the binding stays, and a later `SetValue<T>` with a live owner throws at line 69, after line 52 stored the value and before the prune at lines 72-73. None of this is modelled.
- Null keys and event names are not modelled: every key and name is a `string`. This covers the `eventName` parameters of `EventBus.EventManager` and the `key` parameters of `RequestStore.RequestManager` and `TempStore.TempManager`. In C# a null makes the dictionary calls throw `ArgumentNullException` (`Managers/Event/EventManager.cs:26,39,52,61,83`, `Managers/Request/RequestManager.cs:52,104`, `Managers/Temp/TempManager.cs:24,33,42`). An attribute with a null name (`[Event(null)]`) cannot be written either: `NameAttribute.name` is a `string`.
- ScriptableObjects destroyed by Unity while registered are not modelled.
- Nullable value types are not modelled. A value type is never null.
- Re-entrancy: callbacks are recorded, not run. A callback that changes the tables during a trigger's `foreach` (which throws in C#) is not modelled.
- The binder drafts talk to an abstract bus and store through a log of calls. They are not connected to `EventManager` and `RequestManager`, because neither draft calls the API those classes have.
- The current draft's non-void or static `[Event]` methods, and `CreateDelegate` failures other than the older draft's `Action<object>` mismatch, are not modelled.
- `RequestManager.SetValue<object>`, called by the binder with a boxed value, is modelled as a log entry.
- `ScriptFinder.ScanEvents`: the directory walk, file reading and regular expression matching are inputs. Each call site arrives with its first argument already split off at `,` and trimmed, and with its position. `CreateGUI`, including its dictionary lookups for names that are only subscribed, is not part of this model.
- `string.StartsWith`, `EndsWith` and `IndexOf` are culture-sensitive in .NET. The model compares characters ordinally.
- A `null` callback is not modelled: `Callback` has no null. `AddEvent` stores a null callback (`Managers/Event/EventManager.cs:24-35`), `Trigger` never invokes it because `is Action` is false (line 73), and `RemoveEvent(name, null)` removes it (line 53).
- `Debug.Log*` messages are abstract outcomes (`Report`, `RegisterOutcome`, `GetOutcome`, `RemoveOutcome`, error calls in the binder log).
- `Editor/AttributeChecker.cs`, `Editor/GenerateNamesScripts.cs` and `Editor/ScriptableObjectRegistryWindow.cs` are not part of this model. They are editor I/O.
- The application and scene hooks (`Application.quitting`, `sceneLoaded`, `RuntimeInitializeOnLoadMethod`) are not modelled. The handlers are explicit methods.

## Findings

| source | as written | input that shows it | evidently intended | confidence | as-written member | corrected member |
|---|---|---|---|---|---|---|
| Managers/Event/EventSubscriber.cs:15 | `AddEvent` replaces `Delegates` with a new empty dictionary on every call, so the `ContainsKey` branch never runs and only the latest action is kept | `AddEvent("a", x)` then `AddEvent("b", y)` leaves only `{"b": [y]}` | Create the dictionary only while it is null, so every added action stays under its name | not executed | EventSubscriberModel.SecondAddEventDiscardsFirst | EventSubscriberModel.SecondAddEventKeepsFirst |
