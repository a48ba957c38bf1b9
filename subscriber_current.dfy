/** `Managers/Subscriber.cs`: the base component that, when enabled, binds
    its `[Event]` methods to the bus (plain or generic by arity) and its
    `[Request]` observable fields to the store, and undoes both when
    disabled. */
module CurrentSubscriber {
  import opened Values
  import opened Observable
  import opened EventBus
  import opened Binder

  /** One pass of `SubscribeToEvents` (or, with `subscribing` false,
      `UnsubscribeFromEvents`) of `Managers/Subscriber.cs`. */
  method CurrentEventPass(subscribing: bool, bus: BusInterface, target: nat, methods: seq<MethodInfo>,
                          instanceId: string) returns (log: seq<Call>)
    ensures Pass(log, false) == RunMethods(Current(bus), subscribing, target, methods, instanceId, 0)
  {
    var d := Current(bus);
    log := [];
    ThenUnit(RunMethods(d, subscribing, target, methods, instanceId, 0));
    for mi := 0 to |methods|
      invariant Then(Pass(log, false), RunMethods(d, subscribing, target, methods, instanceId, mi))
             == RunMethods(d, subscribing, target, methods, instanceId, 0)
    {
      var m := methods[mi];
      ThenAssoc(Pass(log, false), RunAttrs(d, subscribing, target, mi, m, instanceId, 0),
                RunMethods(d, subscribing, target, methods, instanceId, mi + 1));
      for ai := 0 to |m.events|
        invariant Then(Pass(log, false), Then(RunAttrs(d, subscribing, target, mi, m, instanceId, ai),
                                              RunMethods(d, subscribing, target, methods, instanceId, mi + 1)))
               == RunMethods(d, subscribing, target, methods, instanceId, 0)
      {
        var attribute := m.events[ai];
        var eventName := ResolveName(attribute, instanceId);
        var call: Call;
        if |m.params| == 0 {
          var action := MethodDelegate(target, mi, NoArg);
          call := if subscribing then Subscribe(eventName, action) else Unsubscribe(eventName, action);
        } else if |m.params| == 1 {
          var paramType := m.params[0];
          var action := MethodDelegate(target, mi, OneArg(paramType));
          var found := if subscribing then bus.genericSubscribe else bus.genericUnsubscribe;
          if found {
            call := if subscribing then SubscribeGeneric(eventName, paramType, action)
                    else UnsubscribeGeneric(eventName, paramType, action);
          } else {
            call := LogError(MissingGeneric(subscribing, paramType));
          }
        } else {
          call := LogError(TooManyParameters(subscribing));
        }
        var step := Step(d, subscribing, target, mi, m, attribute, instanceId);
        assert step == Pass([call], false);
        var rest := RunAttrs(d, subscribing, target, mi, m, instanceId, ai + 1);
        var later := RunMethods(d, subscribing, target, methods, instanceId, mi + 1);
        ThenAssoc(step, rest, later);
        PassStep(log, step, Then(rest, later));
        log := log + [call];
      }
      ThenUnit(RunMethods(d, subscribing, target, methods, instanceId, mi + 1));
    }
    ThenUnit(Pass(log, false));
  }

  class Subscriber {
    /** Which component this is; its closures carry this number. */
    const origin: nat
    /** `gameObject.GetInstanceID().ToString()`. */
    const instanceId: string
    /** Which generic bus methods reflection finds. */
    const bus: BusInterface
    /** `GetType().GetMethods(...)` and `GetType().GetFields(...)`. */
    const methods: seq<MethodInfo>
    const fields: seq<FieldInfo>
    /** How many request passes (`+=` or `-=`) have run: each one builds
        new closures. */
    var passes: nat
    /** Every call made into the bus, the store and the log, in order. */
    var calls: seq<Call>

    /** No field object holds a closure of this component from a pass that
        has not happened yet. */
    ghost predicate Valid()
      reads this, Observables(fields)
    {
      forall f :: f in Observables(fields) ==> ClosuresBefore(f.changeHandlers, origin, passes)
    }

    constructor (origin: nat, instanceId: string, bus: BusInterface, methods: seq<MethodInfo>, fields: seq<FieldInfo>)
      requires forall f :: f in Observables(fields) ==> ClosuresBefore(f.changeHandlers, origin, 0)
      ensures this.origin == origin && this.instanceId == instanceId && this.bus == bus
      ensures this.methods == methods && this.fields == fields
      ensures passes == 0 && calls == []
      ensures Valid()
    {
      this.origin := origin;
      this.instanceId := instanceId;
      this.bus := bus;
      this.methods := methods;
      this.fields := fields;
      passes := 0;
      calls := [];
    }

    /** `SubscribeToEvents`: one bus call or error per `[Event]` attribute. */
    method SubscribeToEvents()
      modifies this
      ensures calls == old(calls) + RunMethods(Current(bus), true, origin, methods, instanceId, 0).calls
      ensures passes == old(passes)
    {
      var log := CurrentEventPass(true, bus, origin, methods, instanceId);
      calls := calls + log;
    }

    /** `UnsubscribeFromEvents`: the same walk with the unsubscribing calls. */
    method UnsubscribeFromEvents()
      modifies this
      ensures calls == old(calls) + RunMethods(Current(bus), false, origin, methods, instanceId, 0).calls
      ensures passes == old(passes)
    {
      var log := CurrentEventPass(false, bus, origin, methods, instanceId);
      calls := calls + log;
    }

    /** `SubscribeToRequests`: attaches this pass's closures and pushes
        every requested field's value to the store, up to the first field
        with several `[Request]` attributes, where it throws. */
    method SubscribeToRequests() returns (threw: bool)
      requires Valid()
      modifies this, Observables(fields)
      ensures Valid()
      ensures threw <==> SomeAmbiguous(fields)
      ensures passes == old(passes) + 1
      ensures AttachedUpTo(fields, Reached(fields), origin, old(passes), instanceId)
      ensures Observables(fields) <= old(Snapshot(fields)).Keys
      ensures calls == old(calls) + RequestPushes(fields[..Reached(fields)], instanceId, old(Snapshot(fields)))
    {
      var pass := passes;
      var log;
      log, threw := AttachRequests(origin, pass, instanceId, fields);
      calls := calls + log;
      passes := pass + 1;
      forall f | f in Observables(fields) ensures ClosuresBefore(f.changeHandlers, origin, passes) {
        AttachKeepsClosuresBefore(old(f.changeHandlers), f, fields[..Reached(fields)], origin, pass, instanceId);
      }
    }

    /** `UnsubscribeFromRequests`: `-=` with closures made afresh, none of
        which was ever attached, so no handler leaves any field object; a
        field with several `[Request]` attributes throws. */
    method UnsubscribeFromRequests() returns (threw: bool)
      requires Valid()
      modifies this, Observables(fields)
      ensures Valid()
      ensures threw <==> SomeAmbiguous(fields)
      ensures passes == old(passes) + 1
      ensures calls == old(calls)
      ensures forall f :: f in Observables(fields) ==>
        f.changeHandlers == old(f.changeHandlers) && OnlyHandlersChanged(f)
    {
      var pass := passes;
      threw := DetachRequests(origin, pass, instanceId, fields);
      passes := pass + 1;
    }

    /** `ChangeRequest`: pushes the current values again, attaching nothing,
        up to the first field with several `[Request]` attributes. */
    method ChangeRequest() returns (threw: bool)
      modifies this
      ensures threw <==> SomeAmbiguous(fields)
      ensures passes == old(passes)
      ensures Observables(fields) <= Snapshot(fields).Keys
      ensures calls == old(calls) + RequestPushes(fields[..Reached(fields)], instanceId, Snapshot(fields))
    {
      var log;
      log, threw := PushRequests(instanceId, fields);
      calls := calls + log;
    }

    /** `OnEnable`: events first, then requests. */
    method OnEnable() returns (threw: bool)
      requires Valid()
      modifies this, Observables(fields)
      ensures Valid()
      ensures threw <==> SomeAmbiguous(fields)
      ensures passes == old(passes) + 1
      ensures AttachedUpTo(fields, Reached(fields), origin, old(passes), instanceId)
      ensures Observables(fields) <= old(Snapshot(fields)).Keys
      ensures calls == old(calls) + RunMethods(Current(bus), true, origin, methods, instanceId, 0).calls
                     + RequestPushes(fields[..Reached(fields)], instanceId, old(Snapshot(fields)))
    {
      SubscribeToEvents();
      threw := SubscribeToRequests();
    }

    /** `OnDisable`: events first, then requests. */
    method OnDisable() returns (threw: bool)
      requires Valid()
      modifies this, Observables(fields)
      ensures Valid()
      ensures threw <==> SomeAmbiguous(fields)
      ensures passes == old(passes) + 1
      ensures calls == old(calls) + RunMethods(Current(bus), false, origin, methods, instanceId, 0).calls
      ensures forall f :: f in Observables(fields) ==>
        f.changeHandlers == old(f.changeHandlers) && OnlyHandlersChanged(f)
    {
      UnsubscribeFromEvents();
      threw := UnsubscribeFromRequests();
    }

    /** `OnValidate`: `ChangeRequest`. */
    method OnValidate() returns (threw: bool)
      modifies this
      ensures threw <==> SomeAmbiguous(fields)
      ensures passes == old(passes)
      ensures Observables(fields) <= Snapshot(fields).Keys
      ensures calls == old(calls) + RequestPushes(fields[..Reached(fields)], instanceId, Snapshot(fields))
    {
      threw := ChangeRequest();
    }
  }

  /** Enabling and then disabling a component leaves every closure the
      enable pass attached on its field objects: the request binding leaks,
      and a later change of the field still writes to the store. Only the
      fields before the first one with several `[Request]` attributes were
      bound. */
  method EnableDisableCycle(s: Subscriber, i: nat)
    requires s.Valid() && Requested(s.fields, i)
    modifies s, Observables(s.fields)
    ensures s.Valid()
    ensures forall f :: f in Observables(s.fields) ==>
      f.changeHandlers == old(f.changeHandlers) + Attached(f, s.fields[..Reached(s.fields)], s.origin, old(s.passes), s.instanceId)
    ensures i < Reached(s.fields) ==>
      Closure(s.origin, old(s.passes), s.fields, i, s.instanceId) in s.fields[i].observable.value.changeHandlers
  {
    var pass := s.passes;
    var prefix := s.fields[..Reached(s.fields)];
    var _ := s.OnEnable();
    label enabled:
    var _ := s.OnDisable();
    forall f | f in Observables(s.fields)
      ensures f.changeHandlers == old(f.changeHandlers) + Attached(f, prefix, s.origin, pass, s.instanceId)
    {
      assert f.changeHandlers == old@enabled(f.changeHandlers);
    }
    if i < Reached(s.fields) {
      ReachedHasClosure(s.fields, s.origin, pass, s.instanceId, i);
    }
  }
}
