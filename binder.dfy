/** What the two `Subscriber` drafts share: reflection as an explicit member
    table, name resolution against the component's instance id, the bus and
    store as an abstract log of calls, and the semantics of one pass over the
    `[Event]` methods. */
module Binder {
  import opened Values
  import opened Attributes
  import opened Observable
  import opened EventBus

  /** A method as `GetMethods` reports it: its `[Event]` attributes in
      declaration order and its parameter types. */
  datatype MethodInfo = MethodInfo(name: string, events: seq<NameAttribute>, params: seq<TypeTag>)

  /** A field as `GetFields` reports it: its `[Request]` attributes, in
      declaration order (the attribute allows several), and its current value
      when that is an `IObservableField`. */
  datatype FieldInfo = FieldInfo(name: string, requests: seq<NameAttribute>, observable: Option<ObservableField>)

  /** A delegate made by `Delegate.CreateDelegate(type, this, method)`: two
      of them are equal when target, method and delegate type agree. */
  datatype MethodDelegate = MethodDelegate(target: nat, methodIndex: nat, sig: Signature)

  /** Which generic `Subscribe<T>`/`Unsubscribe<T>` the reflective lookup on
      the bus type finds. */
  datatype BusInterface = BusInterface(genericSubscribe: bool, genericUnsubscribe: bool)

  /** The `Debug.LogError` messages of a pass. */
  datatype ErrorKind =
    | TooManyParameters(subscribing: bool)
    | MissingGeneric(subscribing: bool, paramType: TypeTag)

  /** One call a binder makes into the bus, the store or the log. */
  datatype Call =
    | Subscribe(eventName: string, action: MethodDelegate)
    | SubscribeGeneric(eventName: string, paramType: TypeTag, action: MethodDelegate)
    | Unsubscribe(eventName: string, action: MethodDelegate)
    | UnsubscribeGeneric(eventName: string, paramType: TypeTag, action: MethodDelegate)
    | SetRequest(requestName: string, value: Value)
    | LogError(error: ErrorKind)

  /** The two drafts: `Managers/Subscriber.cs` against a bus interface, and
      the older `Subscriber.cs`. */
  datatype Draft = Current(bus: BusInterface) | Legacy

  /** The calls a pass made, and whether it ended in an exception. */
  datatype Pass = Pass(calls: seq<Call>, threw: bool)

  /** Sequential composition: a pass that threw stops everything after it. */
  function Then(p: Pass, q: Pass): Pass {
    if p.threw then p else Pass(p.calls + q.calls, q.threw)
  }

  /** `GetEventName`/`GetRequestName` of the component: the name scoped by
      the instance id when `ObjectID` is set, and otherwise the attribute's
      own `GetEventName()`. */
  function ResolveName(a: NameAttribute, instanceId: string): (r: string)
    ensures a.objectId ==> r == Qualify(instanceId, a.name)
    ensures !a.objectId ==> r == GetEventName(a)
  {
    if a.objectId then GetEventNameByID(a, instanceId) else GetEventName(a)
  }

  function SubscribeOrNot(subscribing: bool, eventName: string, action: MethodDelegate): Call {
    if subscribing then Subscribe(eventName, action) else Unsubscribe(eventName, action)
  }

  /** One `[Event]` attribute in `Managers/Subscriber.cs`: zero parameters
      bind an `Action`, one parameter an `Action<T>` through the generic
      method found by reflection (or an error when there is none), more
      parameters only an error. */
  function CurrentStep(subscribing: bool, bus: BusInterface, target: nat, mi: nat, m: MethodInfo,
                       a: NameAttribute, instanceId: string): Pass {
    var eventName := ResolveName(a, instanceId);
    if |m.params| == 0 then
      Pass([SubscribeOrNot(subscribing, eventName, MethodDelegate(target, mi, NoArg))], false)
    else if |m.params| == 1 then
      var paramType := m.params[0];
      var action := MethodDelegate(target, mi, OneArg(paramType));
      if subscribing && bus.genericSubscribe then
        Pass([SubscribeGeneric(eventName, paramType, action)], false)
      else if !subscribing && bus.genericUnsubscribe then
        Pass([UnsubscribeGeneric(eventName, paramType, action)], false)
      else
        Pass([LogError(MissingGeneric(subscribing, paramType))], false)
    else
      Pass([LogError(TooManyParameters(subscribing))], false)
  }

  /** One `[Event]` attribute in `Subscriber.cs`: zero parameters bind an
      `Action`; otherwise the method is bound as an `Action<object>`, which
      `CreateDelegate` refuses with an exception unless the method takes
      exactly one `object`. */
  function LegacyStep(subscribing: bool, target: nat, mi: nat, m: MethodInfo,
                      a: NameAttribute, instanceId: string): Pass {
    var eventName := ResolveName(a, instanceId);
    if |m.params| == 0 then
      Pass([SubscribeOrNot(subscribing, eventName, MethodDelegate(target, mi, NoArg))], false)
    else if m.params == [ObjectType] then
      Pass([SubscribeOrNot(subscribing, eventName, MethodDelegate(target, mi, OneArg(ObjectType)))], false)
    else
      Pass([], true)
  }

  function Step(d: Draft, subscribing: bool, target: nat, mi: nat, m: MethodInfo,
                a: NameAttribute, instanceId: string): Pass {
    match d
    case Current(bus) => CurrentStep(subscribing, bus, target, mi, m, a, instanceId)
    case Legacy => LegacyStep(subscribing, target, mi, m, a, instanceId)
  }

  /** The inner `foreach` over the attributes of method `mi`, from `from` on. */
  function RunAttrs(d: Draft, subscribing: bool, target: nat, mi: nat, m: MethodInfo,
                    instanceId: string, from: nat): Pass
    decreases |m.events| - from
  {
    if from >= |m.events| then Pass([], false)
    else Then(Step(d, subscribing, target, mi, m, m.events[from], instanceId),
              RunAttrs(d, subscribing, target, mi, m, instanceId, from + 1))
  }

  /** The outer `foreach` over the methods, from `from` on. */
  function RunMethods(d: Draft, subscribing: bool, target: nat, ms: seq<MethodInfo>,
                      instanceId: string, from: nat): Pass
    decreases |ms| - from
  {
    if from >= |ms| then Pass([], false)
    else Then(RunAttrs(d, subscribing, target, from, ms[from], instanceId, 0),
              RunMethods(d, subscribing, target, ms, instanceId, from + 1))
  }

  lemma ThenAssoc(p: Pass, q: Pass, r: Pass)
    ensures Then(Then(p, q), r) == Then(p, Then(q, r))
  {
    if !p.threw && !q.threw {
      assert p.calls + q.calls + r.calls == p.calls + (q.calls + r.calls);
    }
  }

  lemma ThenUnit(p: Pass)
    ensures Then(Pass([], false), p) == p
    ensures Then(p, Pass([], false)) == p
  {
    assert [] + p.calls == p.calls && p.calls + [] == p.calls;
  }

  /** The bookkeeping of one attribute in a pass that has logged `log` so far:
      when the step does not throw, its calls are appended. */
  lemma PassStep(log: seq<Call>, step: Pass, rest: Pass)
    ensures !step.threw ==> Then(Pass(log, false), Then(step, rest)) == Then(Pass(log + step.calls, false), rest)
    ensures step.threw ==> Then(Pass(log, false), Then(step, rest)) == Pass(log + step.calls, true)
  {
    if !step.threw {
      assert log + (step.calls + rest.calls) == log + step.calls + rest.calls;
    }
  }

  /** How many `[Event]` attributes the methods from `from` on carry. */
  function AttrCount(ms: seq<MethodInfo>, from: nat): nat
    decreases |ms| - from
  {
    if from >= |ms| then 0 else |ms[from].events| + AttrCount(ms, from + 1)
  }

  /** A call routed by arity: an `Action` goes through the plain overload,
      an `Action<T>` through the generic method for that very `T`, and no
      event pass writes to the store. */
  predicate WellRouted(c: Call) {
    && ((c.Subscribe? || c.Unsubscribe?) ==> c.action.sig == NoArg)
    && ((c.SubscribeGeneric? || c.UnsubscribeGeneric?) ==> c.action.sig == OneArg(c.paramType))
    && !c.SetRequest?
  }

  lemma {:induction false} CurrentAttrsFacts(subscribing: bool, bus: BusInterface, target: nat, mi: nat, m: MethodInfo,
                                             instanceId: string, from: nat)
    ensures var p := RunAttrs(Current(bus), subscribing, target, mi, m, instanceId, from);
      && !p.threw
      && |p.calls| == (if from >= |m.events| then 0 else |m.events| - from)
      && forall k :: 0 <= k < |p.calls| ==> WellRouted(p.calls[k])
    decreases |m.events| - from
  {
    if from < |m.events| {
      CurrentAttrsFacts(subscribing, bus, target, mi, m, instanceId, from + 1);
    }
  }

  /** In `Managers/Subscriber.cs` an event pass never throws, makes exactly
      one call per `[Event]` attribute, and routes each by arity. */
  lemma {:induction false} CurrentPassFacts(subscribing: bool, bus: BusInterface, target: nat, ms: seq<MethodInfo>,
                                            instanceId: string, from: nat)
    ensures var p := RunMethods(Current(bus), subscribing, target, ms, instanceId, from);
      && !p.threw
      && |p.calls| == AttrCount(ms, from)
      && forall k :: 0 <= k < |p.calls| ==> WellRouted(p.calls[k])
    decreases |ms| - from
  {
    if from < |ms| {
      CurrentAttrsFacts(subscribing, bus, target, from, ms[from], instanceId, 0);
      CurrentPassFacts(subscribing, bus, target, ms, instanceId, from + 1);
    }
  }

  /** A method `Subscriber.cs` cannot bind: it has parameters, and they are
      not exactly one `object`. */
  predicate Unbindable(m: MethodInfo) {
    |m.params| > 0 && m.params != [ObjectType]
  }

  /** A call of the older draft: through the plain overloads only, with an
      `Action` or an `Action<object>`. */
  predicate LegacyShaped(c: Call) {
    (c.Subscribe? || c.Unsubscribe?) && (c.action.sig == NoArg || c.action.sig == OneArg(ObjectType))
  }

  lemma {:induction false} LegacyAttrsFacts(subscribing: bool, target: nat, mi: nat, m: MethodInfo,
                                            instanceId: string, from: nat)
    ensures var p := RunAttrs(Legacy, subscribing, target, mi, m, instanceId, from);
      && (p.threw <==> from < |m.events| && Unbindable(m))
      && forall k :: 0 <= k < |p.calls| ==> LegacyShaped(p.calls[k])
    decreases |m.events| - from
  {
    if from < |m.events| {
      LegacyAttrsFacts(subscribing, target, mi, m, instanceId, from + 1);
    }
  }

  /** Some method from `from` on has an `[Event]` attribute and cannot be
      bound as an `Action<object>`. */
  predicate UnbindableFrom(ms: seq<MethodInfo>, from: nat) {
    exists i :: from <= i < |ms| && |ms[i].events| > 0 && Unbindable(ms[i])
  }

  lemma UnbindableFromStep(ms: seq<MethodInfo>, from: nat)
    requires from < |ms|
    ensures UnbindableFrom(ms, from)
        <==> (|ms[from].events| > 0 && Unbindable(ms[from])) || UnbindableFrom(ms, from + 1)
  {
    if UnbindableFrom(ms, from) {
      var i :| from <= i < |ms| && |ms[i].events| > 0 && Unbindable(ms[i]);
      if i != from {
        assert from + 1 <= i;
      }
    }
  }

  /** In `Subscriber.cs` an event pass logs no error and uses only the plain
      overloads; it ends in an exception exactly when some method with an
      `[Event]` attribute cannot be bound, and then stops there. */
  lemma {:induction false} LegacyPassFacts(subscribing: bool, target: nat, ms: seq<MethodInfo>,
                                           instanceId: string, from: nat)
    ensures var p := RunMethods(Legacy, subscribing, target, ms, instanceId, from);
      && (p.threw <==> UnbindableFrom(ms, from))
      && forall k :: 0 <= k < |p.calls| ==> LegacyShaped(p.calls[k])
    decreases |ms| - from
  {
    if from < |ms| {
      LegacyAttrsFacts(subscribing, target, from, ms[from], instanceId, 0);
      LegacyPassFacts(subscribing, target, ms, instanceId, from + 1);
      UnbindableFromStep(ms, from);
    }
  }

  /** The unsubscribing counterpart of a subscribing call. */
  function Mirror(c: Call): Call {
    match c
    case Subscribe(n, a) => Unsubscribe(n, a)
    case SubscribeGeneric(n, t, a) => UnsubscribeGeneric(n, t, a)
    case LogError(TooManyParameters(true)) => LogError(TooManyParameters(false))
    case LogError(MissingGeneric(true, t)) => LogError(MissingGeneric(false, t))
    case _ => c
  }

  function MirrorAll(s: seq<Call>): (r: seq<Call>)
    ensures |r| == |s| && forall k :: 0 <= k < |s| ==> r[k] == Mirror(s[k])
  {
    seq(|s|, k requires 0 <= k < |s| => Mirror(s[k]))
  }

  function MirrorPass(p: Pass): Pass {
    Pass(MirrorAll(p.calls), p.threw)
  }

  lemma MirrorThen(p: Pass, q: Pass)
    ensures MirrorPass(Then(p, q)) == Then(MirrorPass(p), MirrorPass(q))
  {
    if !p.threw {
      assert MirrorAll(p.calls + q.calls) == MirrorAll(p.calls) + MirrorAll(q.calls);
    }
  }

  /** The drafts whose unsubscription finds its generic method exactly when
      subscription finds its own. */
  predicate Symmetric(d: Draft) {
    d.Current? ==> d.bus.genericSubscribe == d.bus.genericUnsubscribe
  }

  lemma {:induction false} MirrorAttrs(d: Draft, target: nat, mi: nat, m: MethodInfo, instanceId: string, from: nat)
    requires Symmetric(d)
    ensures RunAttrs(d, false, target, mi, m, instanceId, from)
         == MirrorPass(RunAttrs(d, true, target, mi, m, instanceId, from))
    decreases |m.events| - from
  {
    if from < |m.events| {
      var a := m.events[from];
      assert Step(d, false, target, mi, m, a, instanceId) == MirrorPass(Step(d, true, target, mi, m, a, instanceId));
      MirrorAttrs(d, target, mi, m, instanceId, from + 1);
      MirrorThen(Step(d, true, target, mi, m, a, instanceId), RunAttrs(d, true, target, mi, m, instanceId, from + 1));
    } else {
      assert MirrorAll([]) == [];
    }
  }

  /** Unsubscription mirrors subscription: the same names, delegates and
      arities, in the same order, each subscribe call turned into the
      matching unsubscribe call, and an exception at the same place. */
  lemma {:induction false} UnsubscribeMirrorsSubscribe(d: Draft, target: nat, ms: seq<MethodInfo>, instanceId: string, from: nat)
    requires Symmetric(d)
    ensures RunMethods(d, false, target, ms, instanceId, from)
         == MirrorPass(RunMethods(d, true, target, ms, instanceId, from))
    decreases |ms| - from
  {
    if from < |ms| {
      MirrorAttrs(d, target, from, ms[from], instanceId, 0);
      UnsubscribeMirrorsSubscribe(d, target, ms, instanceId, from + 1);
      MirrorThen(RunAttrs(d, true, target, from, ms[from], instanceId, 0),
                 RunMethods(d, true, target, ms, instanceId, from + 1));
    } else {
      assert MirrorAll([]) == [];
    }
  }

  /** `field.GetCustomAttribute<RequestAttribute>()` throws an
      `AmbiguousMatchException` on a field with more than one `[Request]`. */
  predicate Ambiguous(fi: FieldInfo) {
    |fi.requests| > 1
  }

  /** Some field makes a request pass throw. */
  predicate SomeAmbiguous(fs: seq<FieldInfo>) {
    exists j :: 0 <= j < |fs| && Ambiguous(fs[j])
  }

  /** How many fields a request pass gets through: it throws at the first
      field with several `[Request]` attributes and handles none after it. */
  function Reached(fs: seq<FieldInfo>): (n: nat)
    ensures n <= |fs|
    ensures forall j :: 0 <= j < n ==> !Ambiguous(fs[j])
    ensures n < |fs| ==> Ambiguous(fs[n])
    ensures n < |fs| <==> SomeAmbiguous(fs)
  {
    if fs == [] then 0
    else if Ambiguous(fs[0]) then 0
    else
      var n := 1 + Reached(fs[1..]);
      assert forall j :: 1 <= j < |fs| ==> fs[j] == fs[1..][j - 1];
      n
  }

  /** The observable fields a request pass touches: those with one
      `[Request]` attribute whose value is an `IObservableField`. */
  ghost function Observables(fs: seq<FieldInfo>): set<ObservableField> {
    set i | 0 <= i < |fs| && |fs[i].requests| == 1 && fs[i].observable.Some? :: fs[i].observable.value
  }

  /** Field `i` takes part in a request pass. */
  predicate Requested(fs: seq<FieldInfo>, i: int) {
    0 <= i < |fs| && |fs[i].requests| == 1 && fs[i].observable.Some?
  }

  /** The current value of every observable field of `fs`. */
  ghost function Snapshot(fs: seq<FieldInfo>): (vals: map<ObservableField, Value>)
    reads Observables(fs)
    ensures vals.Keys == Observables(fs)
  {
    map f | f in Observables(fs) :: f.value
  }

  /** Every requested field's object has a value in `vals`. */
  ghost predicate Covers(fs: seq<FieldInfo>, vals: map<ObservableField, Value>) {
    forall i :: Requested(fs, i) ==> fs[i].observable.value in vals
  }

  /** The store writes of a request pass over `fs` while the field objects
      hold `vals`: for each requested field,
      `RequestManager.SetValue(requestName, field.GetValue())`. */
  function RequestPushes(fs: seq<FieldInfo>, instanceId: string, vals: map<ObservableField, Value>): seq<Call>
    requires Covers(fs, vals)
  {
    if fs == [] then []
    else
      var i := |fs| - 1;
      CoversPrefix(fs, i, vals);
      RequestPushes(fs[..i], instanceId, vals)
        + (if Requested(fs, i)
           then [PushFor(fs, i, instanceId, vals)]
           else [])
  }

  lemma CoversPrefix(fs: seq<FieldInfo>, n: nat, vals: map<ObservableField, Value>)
    requires n <= |fs| && Covers(fs, vals)
    ensures Covers(fs[..n], vals)
  {
    forall j | Requested(fs[..n], j) ensures fs[..n][j].observable.value in vals {
      assert Requested(fs, j);
    }
  }

  lemma SnapshotCovers(fs: seq<FieldInfo>, vals: map<ObservableField, Value>)
    requires Observables(fs) <= vals.Keys
    ensures Covers(fs, vals)
  {
    forall i | Requested(fs, i) ensures fs[i].observable.value in vals {
      assert fs[i].observable.value in Observables(fs);
    }
  }

  /** The closure `value => RequestManager.SetValue(requestName, value)` made
      for field `i` of component `origin` during request pass `pass`. */
  function Closure(origin: nat, pass: nat, fs: seq<FieldInfo>, i: nat, instanceId: string): Handler
    requires i < |fs| && |fs[i].requests| == 1
  {
    StorePush(origin, pass, i, ResolveName(fs[i].requests[0], instanceId))
  }

  /** The closures a request pass over `fs` attaches to `f`, in order; a
      field object that several fields share gets one closure per field. */
  function Attached(f: ObservableField, fs: seq<FieldInfo>, origin: nat, pass: nat, instanceId: string): seq<Handler> {
    if fs == [] then []
    else
      var i := |fs| - 1;
      Attached(f, fs[..i], origin, pass, instanceId)
        + (if Requested(fs, i) && fs[i].observable.value == f then [Closure(origin, pass, fs, i, instanceId)] else [])
  }

  /** What `observableField.OnValueChanged -= <new closure>` leaves of `hs`
      after a pass over `fs`: one `RemoveLast` per requested field of `f`. */
  function Detached(hs: seq<Handler>, f: ObservableField, fs: seq<FieldInfo>, origin: nat, pass: nat, instanceId: string): seq<Handler> {
    if fs == [] then hs
    else
      var i := |fs| - 1;
      var before := Detached(hs, f, fs[..i], origin, pass, instanceId);
      if Requested(fs, i) && fs[i].observable.value == f then RemoveLast(before, Closure(origin, pass, fs, i, instanceId))
      else before
  }

  /** Every closure of component `origin` in `hs` was made before pass `passes`. */
  predicate ClosuresBefore(hs: seq<Handler>, origin: nat, passes: nat) {
    forall k :: 0 <= k < |hs| && hs[k].StorePush? && hs[k].origin == origin ==> hs[k].pass < passes
  }

  /** The closures of one pass all carry that pass's number. */
  lemma {:induction false} AttachedFromPass(f: ObservableField, fs: seq<FieldInfo>, origin: nat, pass: nat, instanceId: string)
    ensures forall k :: 0 <= k < |Attached(f, fs, origin, pass, instanceId)| ==>
      Attached(f, fs, origin, pass, instanceId)[k].StorePush?
      && Attached(f, fs, origin, pass, instanceId)[k].origin == origin
      && Attached(f, fs, origin, pass, instanceId)[k].pass == pass
  {
    if fs != [] {
      AttachedFromPass(f, fs[..|fs| - 1], origin, pass, instanceId);
    }
  }

  /** `-=` with a closure that was never attached removes nothing: a pass
      whose number no attached closure carries detaches nothing at all. */
  lemma {:induction false} DetachFreshIsNoOp(hs: seq<Handler>, f: ObservableField, fs: seq<FieldInfo>,
                                             origin: nat, pass: nat, instanceId: string)
    requires ClosuresBefore(hs, origin, pass)
    ensures Detached(hs, f, fs, origin, pass, instanceId) == hs
  {
    if fs != [] {
      var i := |fs| - 1;
      DetachFreshIsNoOp(hs, f, fs[..i], origin, pass, instanceId);
    }
  }

  lemma ObservablesPrefix(fs: seq<FieldInfo>, i: nat)
    requires i <= |fs|
    ensures Observables(fs[..i]) <= Observables(fs)
  {
    forall f | f in Observables(fs[..i]) ensures f in Observables(fs) {
      var j :| 0 <= j < i && |fs[..i][j].requests| == 1 && fs[..i][j].observable.Some? && fs[..i][j].observable.value == f;
      assert Requested(fs, j);
    }
  }

  /** A field object whose value and typed callbacks did not change and
      which fired nothing. */
  twostate predicate OnlyHandlersChanged(f: ObservableField)
    reads f
  {
    f.value == old(f.value) && f.typedHandlers == old(f.typedHandlers) && f.fired == old(f.fired)
  }

  /** The request pass so far attached, to every field object, the closures
      for the first `i` fields. */
  twostate predicate AttachedUpTo(fields: seq<FieldInfo>, i: nat, origin: nat, pass: nat, instanceId: string)
    requires i <= |fields|
    reads Observables(fields)
  {
    forall f :: f in Observables(fields) ==>
      && f.changeHandlers == old(f.changeHandlers) + Attached(f, fields[..i], origin, pass, instanceId)
      && OnlyHandlersChanged(f)
  }

  /** `AttachedUpTo`, measured against the states `before` rather than
      the method's entry state. */
  ghost predicate AttachedSince(fields: seq<FieldInfo>, i: nat, origin: nat, pass: nat, instanceId: string,
                                before: map<ObservableField, FieldState>)
    requires i <= |fields|
    reads Observables(fields)
  {
    && Observables(fields) <= before.Keys
    && forall f :: f in Observables(fields) ==>
         && f.changeHandlers == before[f].changes + Attached(f, fields[..i], origin, pass, instanceId)
         && f.value == before[f].value && f.typedHandlers == before[f].typed && f.fired == before[f].fired
  }

  /** One more field's closure: `Attached` grows by it on its own field
      object and by nothing elsewhere. */
  lemma AttachedExtend(fields: seq<FieldInfo>, i: nat, origin: nat, pass: nat, instanceId: string)
    requires i < |fields|
    ensures forall f ::
              Attached(f, fields[..i + 1], origin, pass, instanceId)
              == Attached(f, fields[..i], origin, pass, instanceId)
                 + (if Requested(fields, i) && fields[i].observable.value == f
                    then [Closure(origin, pass, fields, i, instanceId)] else [])
  {
    assert fields[..i + 1][..i] == fields[..i];
  }

  /** One `observableField.OnValueChanged += <closure>` of the request pass. */
  method AttachClosure(observableField: ObservableField, h: Handler, origin: nat, pass: nat, instanceId: string,
                       fields: seq<FieldInfo>, i: nat, ghost before: map<ObservableField, FieldState>)
    requires i < |fields| && Requested(fields, i)
    requires observableField == fields[i].observable.value && h == Closure(origin, pass, fields, i, instanceId)
    requires AttachedSince(fields, i, origin, pass, instanceId, before)
    modifies observableField
    ensures AttachedSince(fields, i + 1, origin, pass, instanceId, before)
  {
    AttachedExtend(fields, i, origin, pass, instanceId);
    observableField.AddChangeHandler(h);
    forall f | f in Observables(fields)
      ensures f.changeHandlers == before[f].changes + Attached(f, fields[..i + 1], origin, pass, instanceId)
    {
      if f == observableField {
        assert Attached(f, fields[..i + 1], origin, pass, instanceId) == Attached(f, fields[..i], origin, pass, instanceId) + [h];
      } else {
        assert Attached(f, fields[..i + 1], origin, pass, instanceId) == Attached(f, fields[..i], origin, pass, instanceId) + [];
      }
    }
  }

  /** A field the request pass skips attaches nothing. */
  lemma AttachedSkip(fields: seq<FieldInfo>, i: nat, origin: nat, pass: nat, instanceId: string,
                     before: map<ObservableField, FieldState>)
    requires i < |fields| && !Requested(fields, i)
    requires AttachedSince(fields, i, origin, pass, instanceId, before)
    ensures AttachedSince(fields, i + 1, origin, pass, instanceId, before)
  {
    AttachedExtend(fields, i, origin, pass, instanceId);
  }

  /** One more field's store write: `RequestPushes` grows by the write for
      field `i` when it is requested, by nothing otherwise. */
  lemma PushesExtend(fs: seq<FieldInfo>, i: nat, instanceId: string, vals: map<ObservableField, Value>)
    requires i < |fs| && Covers(fs[..i + 1], vals)
    ensures Covers(fs[..i], vals)
    ensures RequestPushes(fs[..i + 1], instanceId, vals)
            == RequestPushes(fs[..i], instanceId, vals)
               + (if Requested(fs, i)
                  then [SetRequest(ResolveName(fs[i].requests[0], instanceId), vals[fs[i].observable.value])]
                  else [])
  {
    assert fs[..i + 1][..i] == fs[..i];
    CoversPrefix(fs[..i + 1], i, vals);
    if Requested(fs, i) {
      assert Requested(fs[..i + 1], i);
    }
  }

  /** `SubscribeToRequests`, the same in both drafts: for each `[Request]`
      field holding an `IObservableField`, attaches a new closure to its
      `OnValueChanged` and then pushes its current value to the store. A
      field with several `[Request]` attributes throws, and the fields
      after it are not visited. */
  method AttachRequests(origin: nat, pass: nat, instanceId: string, fields: seq<FieldInfo>)
    returns (log: seq<Call>, threw: bool)
    modifies Observables(fields)
    ensures threw <==> SomeAmbiguous(fields)
    ensures Observables(fields) <= old(Snapshot(fields)).Keys
    ensures log == RequestPushes(fields[..Reached(fields)], instanceId, old(Snapshot(fields)))
    ensures AttachedUpTo(fields, Reached(fields), origin, pass, instanceId)
  {
    ghost var vals := Snapshot(fields);
    ghost var before := States(Observables(fields));
    SnapshotCovers(fields, vals);
    log := [];
    // `GetCustomAttribute<RequestAttribute>` throws on field `n`.
    var n := Reached(fields);
    for i := 0 to n
      invariant Covers(fields[..i], vals)
      invariant log == RequestPushes(fields[..i], instanceId, vals)
      invariant AttachedSince(fields, i, origin, pass, instanceId, before)
      invariant forall f :: f in Observables(fields) ==> before[f].value == vals[f]
    {
      CoversPrefix(fields, i + 1, vals);
      PushesExtend(fields, i, instanceId, vals);
      var field := fields[i];
      if |field.requests| == 1 && field.observable.Some? {
        var requestName := ResolveName(field.requests[0], instanceId);
        var observableField := field.observable.value;
        AttachClosure(observableField, StorePush(origin, pass, i, requestName), origin, pass, instanceId, fields, i, before);
        var current := observableField.GetValue();
        log := log + [SetRequest(requestName, current)];
      } else {
        AttachedSkip(fields, i, origin, pass, instanceId, before);
      }
    }
    threw := n < |fields|;
    forall f | f in Observables(fields)
      ensures f.changeHandlers == old(f.changeHandlers) + Attached(f, fields[..n], origin, pass, instanceId)
      ensures OnlyHandlersChanged(f)
    {
      assert before[f] == FieldState(old(f.value), old(f.fired), old(f.typedHandlers), old(f.changeHandlers));
    }
  }

  /** The `-=` pass so far removed, from every field object, one closure per
      requested field among the first `i`. */
  twostate predicate DetachedUpTo(fields: seq<FieldInfo>, i: nat, origin: nat, pass: nat, instanceId: string)
    requires i <= |fields|
    reads Observables(fields)
  {
    forall f :: f in Observables(fields) ==>
      && f.changeHandlers == Detached(old(f.changeHandlers), f, fields[..i], origin, pass, instanceId)
      && OnlyHandlersChanged(f)
  }

  /** `UnsubscribeFromRequests`, the same in both drafts: for each
      `[Request]` field holding an `IObservableField`, `-=` a closure built
      afresh for this pass, up to the first field with several `[Request]`
      attributes, which throws. When no closure of this pass's number was
      ever attached, nothing is removed. */
  method DetachRequests(origin: nat, pass: nat, instanceId: string, fields: seq<FieldInfo>)
    returns (threw: bool)
    modifies Observables(fields)
    ensures threw <==> SomeAmbiguous(fields)
    ensures DetachedUpTo(fields, Reached(fields), origin, pass, instanceId)
    ensures forall f :: f in Observables(fields) && ClosuresBefore(old(f.changeHandlers), origin, pass) ==>
      f.changeHandlers == old(f.changeHandlers)
  {
    threw := DetachEach(origin, pass, instanceId, fields);
    forall f | f in Observables(fields) && ClosuresBefore(old(f.changeHandlers), origin, pass)
      ensures f.changeHandlers == old(f.changeHandlers)
    {
      DetachFreshIsNoOp(old(f.changeHandlers), f, fields[..Reached(fields)], origin, pass, instanceId);
    }
  }

  /** `DetachedUpTo`, measured against the states `before` rather than
      the method's entry state. */
  ghost predicate DetachedSince(fields: seq<FieldInfo>, i: nat, origin: nat, pass: nat, instanceId: string,
                                before: map<ObservableField, FieldState>)
    requires i <= |fields|
    reads Observables(fields)
  {
    && Observables(fields) <= before.Keys
    && forall f :: f in Observables(fields) ==>
         && f.changeHandlers == Detached(before[f].changes, f, fields[..i], origin, pass, instanceId)
         && f.value == before[f].value && f.typedHandlers == before[f].typed && f.fired == before[f].fired
  }

  /** One more field's `-=`: it acts on its own field object only. */
  lemma DetachedExtend(fields: seq<FieldInfo>, i: nat, origin: nat, pass: nat, instanceId: string)
    requires i < |fields|
    ensures forall hs, f ::
              Detached(hs, f, fields[..i + 1], origin, pass, instanceId)
              == if Requested(fields, i) && fields[i].observable.value == f
                 then RemoveLast(Detached(hs, f, fields[..i], origin, pass, instanceId),
                                 Closure(origin, pass, fields, i, instanceId))
                 else Detached(hs, f, fields[..i], origin, pass, instanceId)
  {
    assert fields[..i + 1][..i] == fields[..i];
  }

  /** One `observableField.OnValueChanged -= <closure>` of the `-=` pass. */
  method DetachClosure(observableField: ObservableField, h: Handler, origin: nat, pass: nat, instanceId: string,
                       fields: seq<FieldInfo>, i: nat, ghost before: map<ObservableField, FieldState>)
    requires i < |fields| && Requested(fields, i)
    requires observableField == fields[i].observable.value && h == Closure(origin, pass, fields, i, instanceId)
    requires DetachedSince(fields, i, origin, pass, instanceId, before)
    modifies observableField
    ensures DetachedSince(fields, i + 1, origin, pass, instanceId, before)
  {
    DetachedExtend(fields, i, origin, pass, instanceId);
    observableField.RemoveChangeHandler(h);
  }

  /** A field the `-=` pass skips removes nothing. */
  lemma DetachedSkip(fields: seq<FieldInfo>, i: nat, origin: nat, pass: nat, instanceId: string,
                     before: map<ObservableField, FieldState>)
    requires i < |fields| && !Requested(fields, i)
    requires DetachedSince(fields, i, origin, pass, instanceId, before)
    ensures DetachedSince(fields, i + 1, origin, pass, instanceId, before)
  {
    DetachedExtend(fields, i, origin, pass, instanceId);
  }

  /** The loop of `DetachRequests`. */
  method DetachEach(origin: nat, pass: nat, instanceId: string, fields: seq<FieldInfo>) returns (threw: bool)
    modifies Observables(fields)
    ensures threw <==> SomeAmbiguous(fields)
    ensures DetachedUpTo(fields, Reached(fields), origin, pass, instanceId)
    ensures forall f :: f in Observables(fields) ==>
      f.changeHandlers == Detached(old(f.changeHandlers), f, fields[..Reached(fields)], origin, pass, instanceId)
  {
    ghost var before := States(Observables(fields));
    // `GetCustomAttribute<RequestAttribute>` throws on field `n`.
    var n := Reached(fields);
    for i := 0 to n
      invariant DetachedSince(fields, i, origin, pass, instanceId, before)
    {
      var field := fields[i];
      if |field.requests| == 1 && field.observable.Some? {
        var requestName := ResolveName(field.requests[0], instanceId);
        var observableField := field.observable.value;
        DetachClosure(observableField, StorePush(origin, pass, i, requestName), origin, pass, instanceId, fields, i, before);
      } else {
        DetachedSkip(fields, i, origin, pass, instanceId, before);
      }
    }
    threw := n < |fields|;
    forall f | f in Observables(fields)
      ensures f.changeHandlers == Detached(old(f.changeHandlers), f, fields[..n], origin, pass, instanceId)
      ensures OnlyHandlersChanged(f)
    {
      assert before[f] == FieldState(old(f.value), old(f.fired), old(f.typedHandlers), old(f.changeHandlers));
    }
  }

  /** `ChangeRequest` of the current draft: pushes the current value of every
      `[Request]` field holding an `IObservableField` to the store, attaching
      nothing, up to the first field with several `[Request]` attributes,
      which throws. */
  method PushRequests(instanceId: string, fields: seq<FieldInfo>) returns (log: seq<Call>, threw: bool)
    ensures threw <==> SomeAmbiguous(fields)
    ensures Observables(fields) <= Snapshot(fields).Keys
    ensures log == RequestPushes(fields[..Reached(fields)], instanceId, Snapshot(fields))
  {
    ghost var vals := Snapshot(fields);
    SnapshotCovers(fields, vals);
    log := [];
    // `GetCustomAttribute<RequestAttribute>` throws on field `n`.
    var n := Reached(fields);
    for i := 0 to n
      invariant Covers(fields[..i], vals)
      invariant log == RequestPushes(fields[..i], instanceId, vals)
    {
      CoversPrefix(fields, i + 1, vals);
      PushesExtend(fields, i, instanceId, vals);
      var field := fields[i];
      if |field.requests| == 1 && field.observable.Some? {
        var requestName := ResolveName(field.requests[0], instanceId);
        var observableField := field.observable.value;
        var current := observableField.GetValue();
        log := log + [SetRequest(requestName, current)];
      }
    }
    threw := n < |fields|;
  }

  /** The store write a request pass makes for requested field `i`. */
  function PushFor(fs: seq<FieldInfo>, i: int, instanceId: string, vals: map<ObservableField, Value>): Call
    requires Requested(fs, i) && fs[i].observable.value in vals
  {
    SetRequest(ResolveName(fs[i].requests[0], instanceId), vals[fs[i].observable.value])
  }

  /** A request pass writes to the store exactly for the requested fields:
      every requested field's name gets that field's value, and every write
      comes from some requested field. */
  lemma {:induction false} RequestPushesExact(fs: seq<FieldInfo>, instanceId: string, vals: map<ObservableField, Value>)
    requires Covers(fs, vals)
    ensures forall i :: Requested(fs, i) ==> PushFor(fs, i, instanceId, vals) in RequestPushes(fs, instanceId, vals)
    ensures forall c :: c in RequestPushes(fs, instanceId, vals) ==>
      exists i :: Requested(fs, i) && c == PushFor(fs, i, instanceId, vals)
  {
    if fs != [] {
      var n := |fs| - 1;
      CoversPrefix(fs, n, vals);
      RequestPushesExact(fs[..n], instanceId, vals);
      forall i | Requested(fs, i) ensures PushFor(fs, i, instanceId, vals) in RequestPushes(fs, instanceId, vals) {
        if i < n {
          assert Requested(fs[..n], i);
          assert PushFor(fs[..n], i, instanceId, vals) == PushFor(fs, i, instanceId, vals);
        }
      }
      forall c | c in RequestPushes(fs, instanceId, vals)
        ensures exists i :: Requested(fs, i) && c == PushFor(fs, i, instanceId, vals)
      {
        if c in RequestPushes(fs[..n], instanceId, vals) {
          var i :| Requested(fs[..n], i) && c == PushFor(fs[..n], i, instanceId, vals);
          assert Requested(fs, i);
        } else {
          assert Requested(fs, n) && c == PushFor(fs, n, instanceId, vals);
        }
      }
    }
  }

  /** Every requested field of `f` leaves its closure in `Attached`: the
      handlers a pass attaches are really there. */
  lemma {:induction false} AttachedHasClosure(f: ObservableField, fs: seq<FieldInfo>, origin: nat, pass: nat,
                                              instanceId: string, i: nat)
    requires Requested(fs, i) && fs[i].observable.value == f
    ensures Closure(origin, pass, fs, i, instanceId) in Attached(f, fs, origin, pass, instanceId)
  {
    var n := |fs| - 1;
    if i < n {
      assert Requested(fs[..n], i);
      AttachedHasClosure(f, fs[..n], origin, pass, instanceId, i);
    }
  }

  /** A requested field before the first field with several `[Request]`
      attributes gets its closure from a pass that stops there. */
  lemma ReachedHasClosure(fs: seq<FieldInfo>, origin: nat, pass: nat, instanceId: string, i: nat)
    requires Requested(fs, i) && i < Reached(fs)
    ensures Closure(origin, pass, fs, i, instanceId)
            in Attached(fs[i].observable.value, fs[..Reached(fs)], origin, pass, instanceId)
  {
    var prefix := fs[..Reached(fs)];
    assert Requested(prefix, i);
    assert Closure(origin, pass, prefix, i, instanceId) == Closure(origin, pass, fs, i, instanceId);
    AttachedHasClosure(fs[i].observable.value, prefix, origin, pass, instanceId, i);
  }

  /** After a pass, the closures on a field object all predate the next pass. */
  lemma AttachKeepsClosuresBefore(hs: seq<Handler>, f: ObservableField, fs: seq<FieldInfo>,
                                  origin: nat, pass: nat, instanceId: string)
    requires ClosuresBefore(hs, origin, pass)
    ensures ClosuresBefore(hs + Attached(f, fs, origin, pass, instanceId), origin, pass + 1)
  {
    AttachedFromPass(f, fs, origin, pass, instanceId);
    var all := hs + Attached(f, fs, origin, pass, instanceId);
    forall k | 0 <= k < |all| && all[k].StorePush? && all[k].origin == origin ensures all[k].pass < pass + 1 {
      if k >= |hs| {
        assert all[k] == Attached(f, fs, origin, pass, instanceId)[k - |hs|];
      }
    }
  }
}
