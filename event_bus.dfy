/** `EventManager`: a name-keyed event bus with separate tables for
    zero-argument and one-argument callbacks. Each table maps an event name
    to the ordered list of `(owner, callback)` bindings registered under it.
    Callbacks are identities; invoking one appends an entry to `trace`. */
module EventBus {
  import opened Values
  import opened Seqs

  /** The delegate type of a callback: `Action` or `Action<T>`. */
  datatype Signature = NoArg | OneArg(param: TypeTag)

  /** A delegate: `id` stands for its target and method, `sig` for its type.
      Two delegates are equal when both agree, as C# delegate equality has it. */
  datatype Callback = Callback(id: nat, sig: Signature)

  /** `EventBinding`: the owning game object and the callback. */
  datatype EventBinding = EventBinding(owner: Owner, callback: Callback)

  datatype Invocation = Invoked(callback: Callback) | InvokedWith(callback: Callback, arg: Value)

  /** The action `() => RemoveEvent(eventName, callback)` that `AddEvent`
      registers with the owner's auto-unsubscribe proxy. */
  datatype Release = RemoveEventRelease(eventName: string, callback: Callback)

  type Table = map<string, seq<EventBinding>>

  /** The list under `name`, or nothing when the table has no entry. */
  function Bindings(t: Table, name: string): seq<EventBinding> {
    if name in t then t[name] else []
  }

  function ValidOwner(L: Liveness): EventBinding -> bool {
    (b: EventBinding) => L.IsValid(b.owner)
  }

  /** The bindings a trigger keeps: those whose owner is valid, in order. */
  function Survivors(s: seq<EventBinding>, L: Liveness): seq<EventBinding> {
    Filter(s, ValidOwner(L))
  }

  /** The bindings a trigger collects in `toRemove`, in order. */
  function Pruned(s: seq<EventBinding>, L: Liveness): seq<EventBinding> {
    Reject(s, ValidOwner(L))
  }

  function OtherCallback(callback: Callback): EventBinding -> bool {
    (b: EventBinding) => b.callback != callback
  }

  /** `RemoveAll(b => b.Callback == callback)`. */
  function WithoutCallback(s: seq<EventBinding>, callback: Callback): seq<EventBinding> {
    Filter(s, OtherCallback(callback))
  }

  /** What `Trigger(name)` invokes on the list `s`: every binding whose owner
      is valid and whose callback is an `Action`, in list order. */
  function NoArgInvocations(s: seq<EventBinding>, L: Liveness): seq<Invocation> {
    if s == [] then []
    else
      var b := s[|s| - 1];
      NoArgInvocations(s[..|s| - 1], L)
        + (if L.IsValid(b.owner) && b.callback.sig == NoArg then [Invoked(b.callback)] else [])
  }

  /** What `Trigger<T>(name, arg)` invokes on the list `s`: every binding whose
      owner is valid and whose callback is an `Action<T>`, in list order. */
  function TypedInvocations(s: seq<EventBinding>, t: TypeTag, arg: Value, L: Liveness): seq<Invocation> {
    if s == [] then []
    else
      var b := s[|s| - 1];
      TypedInvocations(s[..|s| - 1], t, arg, L)
        + (if L.IsValid(b.owner) && b.callback.sig == OneArg(t) then [InvokedWith(b.callback, arg)] else [])
  }

  /** The automatic-unsubscribe registration: only an owner that is alive
      (`if (!owner) return;`: neither null nor destroyed) gets a release
      action, and that action removes this callback under this name. Every
      owner whose callbacks a trigger would invoke is among them. */
  function AutoUnsubscribe(eventName: string, owner: Owner, callback: Callback, L: Liveness): (r: Option<Release>)
    ensures r.Some? <==> owner.GameObject? && owner.id in L.alive
    ensures r.Some? ==> r.value.eventName == eventName && r.value.callback == callback
    ensures L.IsValid(owner) ==> r.Some?
  {
    if !L.Alive(owner) then None else Some(RemoveEventRelease(eventName, callback))
  }

  predicate AllNoArg(s: seq<EventBinding>) {
    forall i :: 0 <= i < |s| ==> s[i].callback.sig == NoArg
  }

  predicate AllOneArg(s: seq<EventBinding>) {
    forall i :: 0 <= i < |s| ==> s[i].callback.sig.OneArg?
  }

  class EventManager {
    var noArgEvents: Table
    var oneArgEvents: Table
    /** Every callback invocation so far, in order. */
    var trace: seq<Invocation>

    /** Arity isolation: the zero-argument table only ever holds `Action`s and
        the one-argument table only `Action<T>`s. */
    ghost predicate Valid()
      reads this
    {
      && (forall n :: n in noArgEvents ==> AllNoArg(noArgEvents[n]))
      && (forall n :: n in oneArgEvents ==> AllOneArg(oneArgEvents[n]))
    }

    constructor ()
      ensures Valid()
      ensures noArgEvents == map[] && oneArgEvents == map[] && trace == []
    {
      noArgEvents := map[];
      oneArgEvents := map[];
      trace := [];
    }

    /** The `Application.quitting` handler: both tables are emptied. */
    method OnApplicationQuit()
      modifies this
      ensures Valid()
      ensures noArgEvents == map[] && oneArgEvents == map[]
      ensures trace == old(trace)
    {
      noArgEvents := map[];
      oneArgEvents := map[];
    }

    /** `AddEvent(eventName, owner, Action callback)`: appends one binding,
        creating the list when absent, and returns the release action handed
        to the owner's auto-unsubscribe proxy. */
    method AddEvent(eventName: string, owner: Owner, callbackId: nat, L: Liveness)
      returns (release: Option<Release>)
      requires Valid()
      modifies this
      ensures Valid()
      ensures noArgEvents == old(noArgEvents)[eventName :=
        Bindings(old(noArgEvents), eventName) + [EventBinding(owner, Callback(callbackId, NoArg))]]
      ensures oneArgEvents == old(oneArgEvents) && trace == old(trace)
      ensures release == AutoUnsubscribe(eventName, owner, Callback(callbackId, NoArg), L)
    {
      var list: seq<EventBinding>;
      if eventName in noArgEvents {
        list := noArgEvents[eventName];
      } else {
        list := [];
        noArgEvents := noArgEvents[eventName := list];
      }
      var callback := Callback(callbackId, NoArg);
      list := list + [EventBinding(owner, callback)];
      noArgEvents := noArgEvents[eventName := list];
      release := AutoUnsubscribe(eventName, owner, callback, L);
    }

    /** `AddEvent<T>(eventName, owner, Action<T> callback)`. */
    method AddTypedEvent(eventName: string, t: TypeTag, owner: Owner, callbackId: nat, L: Liveness)
      returns (release: Option<Release>)
      requires Valid()
      modifies this
      ensures Valid()
      ensures oneArgEvents == old(oneArgEvents)[eventName :=
        Bindings(old(oneArgEvents), eventName) + [EventBinding(owner, Callback(callbackId, OneArg(t)))]]
      ensures noArgEvents == old(noArgEvents) && trace == old(trace)
      ensures release == AutoUnsubscribe(eventName, owner, Callback(callbackId, OneArg(t)), L)
    {
      var list: seq<EventBinding>;
      if eventName in oneArgEvents {
        list := oneArgEvents[eventName];
      } else {
        list := [];
        oneArgEvents := oneArgEvents[eventName := list];
      }
      var callback := Callback(callbackId, OneArg(t));
      list := list + [EventBinding(owner, callback)];
      oneArgEvents := oneArgEvents[eventName := list];
      release := AutoUnsubscribe(eventName, owner, callback, L);
    }

    /** `RemoveEvent(eventName, callback)`: every binding with an equal
        callback goes from the list of that name in both tables; a missing
        name is a no-op and an emptied list stays in place. */
    method RemoveEvent(eventName: string, callback: Callback)
      requires Valid()
      modifies this
      ensures Valid()
      ensures noArgEvents == if eventName in old(noArgEvents)
        then old(noArgEvents)[eventName := WithoutCallback(old(noArgEvents)[eventName], callback)]
        else old(noArgEvents)
      ensures oneArgEvents == if eventName in old(oneArgEvents)
        then old(oneArgEvents)[eventName := WithoutCallback(old(oneArgEvents)[eventName], callback)]
        else old(oneArgEvents)
      ensures trace == old(trace)
    {
      if eventName in noArgEvents {
        noArgEvents := noArgEvents[eventName := WithoutCallback(noArgEvents[eventName], callback)];
      }
      if eventName in oneArgEvents {
        oneArgEvents := oneArgEvents[eventName := WithoutCallback(oneArgEvents[eventName], callback)];
      }
    }

    /** `Trigger(eventName)`: invokes the valid `Action` bindings in list
        order, then removes the bindings whose owner was not valid. */
    method Trigger(eventName: string, L: Liveness)
      requires Valid()
      modifies this
      ensures Valid()
      ensures trace == old(trace) + NoArgInvocations(Bindings(old(noArgEvents), eventName), L)
      ensures noArgEvents == if eventName in old(noArgEvents)
        then old(noArgEvents)[eventName := Survivors(old(noArgEvents)[eventName], L)]
        else old(noArgEvents)
      ensures oneArgEvents == old(oneArgEvents)
    {
      if eventName !in noArgEvents {
        return;
      }
      var list := noArgEvents[eventName];
      var toRemove, fired := ScanNoArg(list, L);
      trace := trace + fired;
      var remaining := RemoveRejected(list, toRemove, ValidOwner(L));
      SurvivorsKeepArity(list, L);
      noArgEvents := noArgEvents[eventName := remaining];
    }

    /** `Trigger<T>(eventName, arg)`: invokes the valid `Action<T>` bindings
        in list order; valid bindings of another type are skipped and kept;
        bindings whose owner was not valid are removed afterwards. */
    method TriggerWith(eventName: string, t: TypeTag, arg: Value, L: Liveness)
      requires Valid()
      requires Conforms(arg, t)
      modifies this
      ensures Valid()
      ensures trace == old(trace) + TypedInvocations(Bindings(old(oneArgEvents), eventName), t, arg, L)
      ensures oneArgEvents == if eventName in old(oneArgEvents)
        then old(oneArgEvents)[eventName := Survivors(old(oneArgEvents)[eventName], L)]
        else old(oneArgEvents)
      ensures noArgEvents == old(noArgEvents)
    {
      if eventName !in oneArgEvents {
        return;
      }
      var list := oneArgEvents[eventName];
      var toRemove, fired := ScanTyped(list, t, arg, L);
      trace := trace + fired;
      var remaining := RemoveRejected(list, toRemove, ValidOwner(L));
      SurvivorsKeepArity(list, L);
      oneArgEvents := oneArgEvents[eventName := remaining];
    }
  }

  /** The scan loop of `Trigger(name)`: invokes each valid `Action` binding in
      order and collects the bindings whose owner is not valid. */
  method ScanNoArg(list: seq<EventBinding>, L: Liveness)
    returns (toRemove: seq<EventBinding>, fired: seq<Invocation>)
    ensures toRemove == Pruned(list, L)
    ensures fired == NoArgInvocations(list, L)
  {
    toRemove := [];
    fired := [];
    for i := 0 to |list|
      invariant toRemove == Pruned(list[..i], L)
      invariant fired == NoArgInvocations(list[..i], L)
    {
      ScanStep(list, i, L);
      var binding := list[i];
      if !L.IsValid(binding.owner) {
        toRemove := toRemove + [binding];
        continue;
      }
      if binding.callback.sig == NoArg {
        fired := fired + [Invoked(binding.callback)];
      }
    }
    assert list[..|list|] == list;
  }

  /** The scan loop of `Trigger<T>(name, arg)`: invokes each valid
      `Action<T>` binding in order, skips valid bindings of another type and
      collects the bindings whose owner is not valid. */
  method ScanTyped(list: seq<EventBinding>, t: TypeTag, arg: Value, L: Liveness)
    returns (toRemove: seq<EventBinding>, fired: seq<Invocation>)
    ensures toRemove == Pruned(list, L)
    ensures fired == TypedInvocations(list, t, arg, L)
  {
    toRemove := [];
    fired := [];
    for i := 0 to |list|
      invariant toRemove == Pruned(list[..i], L)
      invariant fired == TypedInvocations(list[..i], t, arg, L)
    {
      ScanStep(list, i, L);
      var binding := list[i];
      if !L.IsValid(binding.owner) {
        toRemove := toRemove + [binding];
        continue;
      }
      if binding.callback.sig == OneArg(t) {
        fired := fired + [InvokedWith(binding.callback, arg)];
      }
    }
    assert list[..|list|] == list;
  }

  /** One step of a trigger's scan: the binding at `i` is either collected
      for removal or, when its type fits, invoked. */
  lemma ScanStep(list: seq<EventBinding>, i: nat, L: Liveness)
    requires i < |list|
    ensures Pruned(list[..i + 1], L)
      == Pruned(list[..i], L) + (if L.IsValid(list[i].owner) then [] else [list[i]])
    ensures NoArgInvocations(list[..i + 1], L) == NoArgInvocations(list[..i], L)
      + (if L.IsValid(list[i].owner) && list[i].callback.sig == NoArg then [Invoked(list[i].callback)] else [])
    ensures list[..i + 1][..i] == list[..i] && list[..i + 1][i] == list[i]
  {
    assert list[..i + 1] == list[..i] + [list[i]];
    RejectAppend(list[..i], [list[i]], ValidOwner(L));
  }

  /** Pruning never moves a binding into the other arity's table. */
  lemma SurvivorsKeepArity(s: seq<EventBinding>, L: Liveness)
    ensures AllNoArg(s) ==> AllNoArg(Survivors(s, L))
    ensures AllOneArg(s) ==> AllOneArg(Survivors(s, L))
  {
  }

  /** Dispatch over a concatenation is the concatenation of the dispatches. */
  lemma {:induction false} NoArgInvocationsAppend(a: seq<EventBinding>, b: seq<EventBinding>, L: Liveness)
    ensures NoArgInvocations(a + b, L) == NoArgInvocations(a, L) + NoArgInvocations(b, L)
    decreases |b|
  {
    if b != [] {
      var b' := b[..|b| - 1];
      assert (a + b)[..|a + b| - 1] == a + b';
      NoArgInvocationsAppend(a, b', L);
    } else {
      assert a + b == a;
    }
  }

  lemma {:induction false} TypedInvocationsAppend(a: seq<EventBinding>, b: seq<EventBinding>, t: TypeTag, arg: Value, L: Liveness)
    ensures TypedInvocations(a + b, t, arg, L) == TypedInvocations(a, t, arg, L) + TypedInvocations(b, t, arg, L)
    decreases |b|
  {
    if b != [] {
      var b' := b[..|b| - 1];
      assert (a + b)[..|a + b| - 1] == a + b';
      TypedInvocationsAppend(a, b', t, arg, L);
    } else {
      assert a + b == a;
    }
  }

  /** Subscribing and then triggering: the new callback runs last, exactly
      when its owner is valid. */
  lemma SubscribeThenTrigger(s: seq<EventBinding>, owner: Owner, id: nat, L: Liveness)
    ensures NoArgInvocations(s + [EventBinding(owner, Callback(id, NoArg))], L)
      == NoArgInvocations(s, L) + (if L.IsValid(owner) then [Invoked(Callback(id, NoArg))] else [])
  {
    NoArgInvocationsAppend(s, [EventBinding(owner, Callback(id, NoArg))], L);
  }

  /** The pruning after a trigger removes only bindings the trigger skipped:
      triggering the pruned list again invokes the same callbacks. */
  lemma {:induction false} PruneKeepsNoArgDispatch(s: seq<EventBinding>, L: Liveness)
    ensures NoArgInvocations(Survivors(s, L), L) == NoArgInvocations(s, L)
    decreases |s|
  {
    if s != [] {
      var s' := s[..|s| - 1];
      var b := s[|s| - 1];
      assert s == s' + [b];
      FilterAppend(s', [b], ValidOwner(L));
      NoArgInvocationsAppend(Survivors(s', L), Survivors([b], L), L);
      PruneKeepsNoArgDispatch(s', L);
      assert NoArgInvocations([b], L) == NoArgInvocations([], L)
        + (if L.IsValid(b.owner) && b.callback.sig == NoArg then [Invoked(b.callback)] else []);
      assert [b][..0] == [];
      if L.IsValid(b.owner) {
        assert Survivors([b], L) == [b];
      } else {
        assert Survivors([b], L) == [];
      }
    }
  }

  lemma {:induction false} PruneKeepsTypedDispatch(s: seq<EventBinding>, t: TypeTag, arg: Value, L: Liveness)
    ensures TypedInvocations(Survivors(s, L), t, arg, L) == TypedInvocations(s, t, arg, L)
    decreases |s|
  {
    if s != [] {
      var s' := s[..|s| - 1];
      var b := s[|s| - 1];
      assert s == s' + [b];
      FilterAppend(s', [b], ValidOwner(L));
      TypedInvocationsAppend(Survivors(s', L), Survivors([b], L), t, arg, L);
      PruneKeepsTypedDispatch(s', t, arg, L);
      assert [b][..0] == [];
      if L.IsValid(b.owner) {
        assert Survivors([b], L) == [b];
      } else {
        assert Survivors([b], L) == [];
      }
    }
  }

  /** A second trigger with the same liveness prunes nothing more. */
  lemma SecondTriggerPrunesNothing(s: seq<EventBinding>, L: Liveness)
    ensures Survivors(Survivors(s, L), L) == Survivors(s, L)
    ensures Pruned(Survivors(s, L), L) == []
  {
    FilterIdempotent(s, ValidOwner(L));
    RejectNone(Survivors(s, L), ValidOwner(L));
  }

  /** `Trigger(name)` invokes a callback if and only if it is an `Action`
      bound under that name by an owner that is valid. */
  lemma {:induction false} NoArgInvokedIff(s: seq<EventBinding>, cb: Callback, L: Liveness)
    ensures Invoked(cb) in NoArgInvocations(s, L)
      <==> cb.sig == NoArg && exists i :: 0 <= i < |s| && s[i].callback == cb && L.IsValid(s[i].owner)
    decreases |s|
  {
    if s != [] {
      var s' := s[..|s| - 1];
      NoArgInvokedIff(s', cb, L);
      if cb.sig == NoArg && exists i :: 0 <= i < |s| && s[i].callback == cb && L.IsValid(s[i].owner) {
        var i :| 0 <= i < |s| && s[i].callback == cb && L.IsValid(s[i].owner);
        if i < |s| - 1 {
          assert s'[i] == s[i];
        }
      }
      if exists i :: 0 <= i < |s'| && s'[i].callback == cb && L.IsValid(s'[i].owner) {
        var i :| 0 <= i < |s'| && s'[i].callback == cb && L.IsValid(s'[i].owner);
        assert s[i] == s'[i];
      }
    }
  }

  /** `Trigger<T>(name, arg)` invokes a callback if and only if it is an
      `Action<T>` bound under that name by an owner that is valid, and always
      with `arg`. */
  lemma {:induction false} TypedInvokedIff(s: seq<EventBinding>, t: TypeTag, arg: Value, cb: Callback, L: Liveness)
    ensures InvokedWith(cb, arg) in TypedInvocations(s, t, arg, L)
      <==> cb.sig == OneArg(t) && exists i :: 0 <= i < |s| && s[i].callback == cb && L.IsValid(s[i].owner)
    ensures forall k :: 0 <= k < |TypedInvocations(s, t, arg, L)| ==>
      var inv := TypedInvocations(s, t, arg, L)[k]; inv.InvokedWith? && inv.arg == arg && inv.callback.sig == OneArg(t)
    decreases |s|
  {
    if s != [] {
      var s' := s[..|s| - 1];
      TypedInvokedIff(s', t, arg, cb, L);
      if cb.sig == OneArg(t) && exists i :: 0 <= i < |s| && s[i].callback == cb && L.IsValid(s[i].owner) {
        var i :| 0 <= i < |s| && s[i].callback == cb && L.IsValid(s[i].owner);
        if i < |s| - 1 {
          assert s'[i] == s[i];
        }
      }
      if exists i :: 0 <= i < |s'| && s'[i].callback == cb && L.IsValid(s'[i].owner) {
        var i :| 0 <= i < |s'| && s'[i].callback == cb && L.IsValid(s'[i].owner);
        assert s[i] == s'[i];
      }
    }
  }

  /** Arity isolation: `Trigger(name)` only ever invokes `Action`s, without
      an argument. */
  lemma {:induction false} NoArgInvokesOnlyActions(s: seq<EventBinding>, L: Liveness)
    ensures forall k :: 0 <= k < |NoArgInvocations(s, L)| ==>
      NoArgInvocations(s, L)[k].Invoked? && NoArgInvocations(s, L)[k].callback.sig == NoArg
    decreases |s|
  {
    if s != [] {
      NoArgInvokesOnlyActions(s[..|s| - 1], L);
    }
  }

  /** After `RemoveEvent(name, cb)` (which is what the release action runs)
      neither trigger of that name invokes `cb` again. */
  lemma RemovedNeverInvoked(s: seq<EventBinding>, cb: Callback, t: TypeTag, arg: Value, L: Liveness)
    ensures Invoked(cb) !in NoArgInvocations(WithoutCallback(s, cb), L)
    ensures InvokedWith(cb, arg) !in TypedInvocations(WithoutCallback(s, cb), t, arg, L)
  {
    var r := WithoutCallback(s, cb);
    NoArgInvokedIff(r, cb, L);
    TypedInvokedIff(r, t, arg, cb, L);
  }
}
