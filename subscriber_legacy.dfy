/** `Subscriber.cs`, the older draft of the binder component: one-parameter
    `[Event]` methods are bound as `Action<object>`, so a method whose single
    parameter is not `object` (or that has several) makes `CreateDelegate`
    throw, which ends the whole `OnEnable` or `OnDisable`. */
module LegacySubscriber {
  import opened Values
  import opened Observable
  import opened EventBus
  import opened Binder

  /** One pass of `SubscribeToEvents` (or, with `subscribing` false,
      `UnsubscribeFromEvents`) of `Subscriber.cs`; `threw` reports the
      exception that ends it. */
  method LegacyEventPass(subscribing: bool, target: nat, methods: seq<MethodInfo>, instanceId: string)
    returns (log: seq<Call>, threw: bool)
    ensures Pass(log, threw) == RunMethods(Legacy, subscribing, target, methods, instanceId, 0)
  {
    var d := Legacy;
    log := [];
    threw := false;
    ThenUnit(RunMethods(d, subscribing, target, methods, instanceId, 0));
    for mi := 0 to |methods|
      invariant Then(Pass(log, false), RunMethods(d, subscribing, target, methods, instanceId, mi))
             == RunMethods(d, subscribing, target, methods, instanceId, 0)
    {
      var m := methods[mi];
      ThenAssoc(Pass(log, false), RunAttrs(d, subscribing, target, mi, m, instanceId, 0),
                RunMethods(d, subscribing, target, methods, instanceId, mi + 1));
      for ai := 0 to |m.events|
        invariant Then(Pass(log, false), Then(RunAttrs(d, subscribing, target, mi, m, instanceId, ai),
                                              RunMethods(d, subscribing, target, methods, instanceId, mi + 1)))
               == RunMethods(d, subscribing, target, methods, instanceId, 0)
      {
        var attribute := m.events[ai];
        var eventName := ResolveName(attribute, instanceId);
        var step := Step(d, subscribing, target, mi, m, attribute, instanceId);
        var rest := RunAttrs(d, subscribing, target, mi, m, instanceId, ai + 1);
        var later := RunMethods(d, subscribing, target, methods, instanceId, mi + 1);
        ThenAssoc(step, rest, later);
        PassStep(log, step, Then(rest, later));
        var sig: Signature;
        if |m.params| == 0 {
          sig := NoArg;
        } else if m.params == [ObjectType] {
          sig := OneArg(ObjectType);
        } else {
          assert step == Pass([], true);
          assert log + [] == log;
          threw := true;
          return;
        }
        var action := MethodDelegate(target, mi, sig);
        var call := if subscribing then Subscribe(eventName, action) else Unsubscribe(eventName, action);
        assert step == Pass([call], false);
        log := log + [call];
      }
      ThenUnit(RunMethods(d, subscribing, target, methods, instanceId, mi + 1));
    }
    ThenUnit(Pass(log, false));
  }

  class Subscriber {
    /** Which component this is; its closures carry this number. */
    const origin: nat
    /** `gameObject.GetInstanceID().ToString()`. */
    const instanceId: string
    /** `GetType().GetMethods(...)` and `GetType().GetFields(...)`. */
    const methods: seq<MethodInfo>
    const fields: seq<FieldInfo>
    /** How many request passes (`+=` or `-=`) have run. */
    var passes: nat
    /** Every call made into the bus and the store, in order. */
    var calls: seq<Call>

    /** No field object holds a closure of this component from a pass that
        has not happened yet. */
    ghost predicate Valid()
      reads this, Observables(fields)
    {
      forall f :: f in Observables(fields) ==> ClosuresBefore(f.changeHandlers, origin, passes)
    }

    constructor (origin: nat, instanceId: string, methods: seq<MethodInfo>, fields: seq<FieldInfo>)
      requires forall f :: f in Observables(fields) ==> ClosuresBefore(f.changeHandlers, origin, 0)
      ensures this.origin == origin && this.instanceId == instanceId
      ensures this.methods == methods && this.fields == fields
      ensures passes == 0 && calls == []
      ensures Valid()
    {
      this.origin := origin;
      this.instanceId := instanceId;
      this.methods := methods;
      this.fields := fields;
      passes := 0;
      calls := [];
    }

    /** `SubscribeToEvents`; `threw` is the exception it may end with. */
    method SubscribeToEvents() returns (threw: bool)
      modifies this
      ensures calls == old(calls) + RunMethods(Legacy, true, origin, methods, instanceId, 0).calls
      ensures threw == RunMethods(Legacy, true, origin, methods, instanceId, 0).threw
      ensures passes == old(passes)
    {
      var log;
      log, threw := LegacyEventPass(true, origin, methods, instanceId);
      calls := calls + log;
    }

    /** `UnsubscribeFromEvents`. */
    method UnsubscribeFromEvents() returns (threw: bool)
      modifies this
      ensures calls == old(calls) + RunMethods(Legacy, false, origin, methods, instanceId, 0).calls
      ensures threw == RunMethods(Legacy, false, origin, methods, instanceId, 0).threw
      ensures passes == old(passes)
    {
      var log;
      log, threw := LegacyEventPass(false, origin, methods, instanceId);
      calls := calls + log;
    }

    /** `SubscribeToRequests`: attaches this pass's closures and pushes
        every requested field's value to the store, up to the first field
        with several `[Request]` attributes, where it throws. */
    method SubscribeToRequests() returns (threw: bool)
      requires Valid()
      modifies this, Observables(fields)
      ensures Valid()
      ensures threw <==> SomeAmbiguous(fields)
      ensures passes == old(passes) + 1
      ensures AttachedUpTo(fields, Reached(fields), origin, old(passes), instanceId)
      ensures Observables(fields) <= old(Snapshot(fields)).Keys
      ensures calls == old(calls) + RequestPushes(fields[..Reached(fields)], instanceId, old(Snapshot(fields)))
    {
      var pass := passes;
      var log;
      log, threw := AttachRequests(origin, pass, instanceId, fields);
      calls := calls + log;
      passes := pass + 1;
      forall f | f in Observables(fields) ensures ClosuresBefore(f.changeHandlers, origin, passes) {
        AttachKeepsClosuresBefore(old(f.changeHandlers), f, fields[..Reached(fields)], origin, pass, instanceId);
      }
    }

    /** `UnsubscribeFromRequests`: `-=` with closures made afresh, so no
        handler leaves any field object; a field with several `[Request]`
        attributes throws. */
    method UnsubscribeFromRequests() returns (threw: bool)
      requires Valid()
      modifies this, Observables(fields)
      ensures Valid()
      ensures threw <==> SomeAmbiguous(fields)
      ensures passes == old(passes) + 1
      ensures calls == old(calls)
      ensures forall f :: f in Observables(fields) ==>
        f.changeHandlers == old(f.changeHandlers) && OnlyHandlersChanged(f)
    {
      var pass := passes;
      threw := DetachRequests(origin, pass, instanceId, fields);
      passes := pass + 1;
    }

    /** `OnEnable`: the event pass, then, unless it threw, the request pass.
        It throws when some `[Event]` method cannot be bound or some field
        has several `[Request]` attributes. */
    method OnEnable() returns (threw: bool)
      requires Valid()
      modifies this, Observables(fields)
      ensures Valid()
      ensures threw <==> UnbindableFrom(methods, 0) || SomeAmbiguous(fields)
      ensures UnbindableFrom(methods, 0) ==> passes == old(passes) && unchanged(Observables(fields))
      ensures UnbindableFrom(methods, 0) ==> calls == old(calls) + RunMethods(Legacy, true, origin, methods, instanceId, 0).calls
      ensures !UnbindableFrom(methods, 0) ==> passes == old(passes) + 1
      ensures !UnbindableFrom(methods, 0) ==> AttachedUpTo(fields, Reached(fields), origin, old(passes), instanceId)
      ensures !UnbindableFrom(methods, 0) ==> Observables(fields) <= old(Snapshot(fields)).Keys
      ensures !UnbindableFrom(methods, 0) ==>
        calls == old(calls) + RunMethods(Legacy, true, origin, methods, instanceId, 0).calls
                 + RequestPushes(fields[..Reached(fields)], instanceId, old(Snapshot(fields)))
    {
      LegacyPassFacts(true, origin, methods, instanceId, 0);
      threw := SubscribeToEvents();
      if threw {
        return;
      }
      threw := SubscribeToRequests();
    }

    /** `OnDisable`: the event pass, then, unless it threw, the request pass. */
    method OnDisable() returns (threw: bool)
      requires Valid()
      modifies this, Observables(fields)
      ensures Valid()
      ensures threw <==> UnbindableFrom(methods, 0) || SomeAmbiguous(fields)
      ensures calls == old(calls) + RunMethods(Legacy, false, origin, methods, instanceId, 0).calls
      ensures passes == if UnbindableFrom(methods, 0) then old(passes) else old(passes) + 1
      ensures forall f :: f in Observables(fields) ==>
        f.changeHandlers == old(f.changeHandlers) && OnlyHandlersChanged(f)
    {
      LegacyPassFacts(false, origin, methods, instanceId, 0);
      threw := UnsubscribeFromEvents();
      if threw {
        return;
      }
      threw := UnsubscribeFromRequests();
    }

    /** `OnValidate`: a full `SubscribeToRequests`, which attaches another
        closure to every requested field each time. */
    method OnValidate() returns (threw: bool)
      requires Valid()
      modifies this, Observables(fields)
      ensures Valid()
      ensures threw <==> SomeAmbiguous(fields)
      ensures passes == old(passes) + 1
      ensures AttachedUpTo(fields, Reached(fields), origin, old(passes), instanceId)
      ensures Observables(fields) <= old(Snapshot(fields)).Keys
      ensures calls == old(calls) + RequestPushes(fields[..Reached(fields)], instanceId, old(Snapshot(fields)))
    {
      threw := SubscribeToRequests();
    }
  }

  /** One validation, seen from the object of requested field `i`: this
      component's closures for it are appended, and the one for field `i`
      is among them when the pass reaches that field. */
  method ValidateOnce(s: Subscriber, i: nat)
    requires s.Valid() && Requested(s.fields, i)
    modifies s, Observables(s.fields)
    ensures s.Valid() && s.passes == old(s.passes) + 1
    ensures s.fields[i].observable.value.changeHandlers
            == old(s.fields[i].observable.value.changeHandlers)
               + Attached(s.fields[i].observable.value, s.fields[..Reached(s.fields)], s.origin, old(s.passes), s.instanceId)
    ensures i < Reached(s.fields) ==>
      Closure(s.origin, old(s.passes), s.fields, i, s.instanceId) in s.fields[i].observable.value.changeHandlers
  {
    assert s.fields[i].observable.value in Observables(s.fields);
    var pass := s.passes;
    var _ := s.OnValidate();
    if i < Reached(s.fields) {
      ReachedHasClosure(s.fields, s.origin, pass, s.instanceId, i);
    }
  }

  /** Two validations in a row leave two different closures for the same
      requested field on its field object: each change of the field is then
      written to the store twice. A field after the first one with several
      `[Request]` attributes is never reached. */
  method ValidateTwice(s: Subscriber, i: nat)
    requires s.Valid() && Requested(s.fields, i)
    modifies s, Observables(s.fields)
    ensures s.Valid()
    ensures i < Reached(s.fields) ==>
      Closure(s.origin, old(s.passes), s.fields, i, s.instanceId) in s.fields[i].observable.value.changeHandlers
    ensures i < Reached(s.fields) ==>
      Closure(s.origin, old(s.passes) + 1, s.fields, i, s.instanceId) in s.fields[i].observable.value.changeHandlers
    ensures Closure(s.origin, old(s.passes), s.fields, i, s.instanceId)
         != Closure(s.origin, old(s.passes) + 1, s.fields, i, s.instanceId)
  {
    ValidateOnce(s, i);
    ValidateOnce(s, i);
  }
}
