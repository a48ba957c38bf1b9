/** `RequestManager`: a key-value store of boxed values with typed
    subscriptions. Each subscription binds an `ObservableField<T>` of an owner
    to a key; `SetValue<T>` stores the value and pushes it into the live
    fields of type `T` bound to that key. */
module RequestStore {
  import opened Values
  import opened Seqs
  import opened Observable

  /** `RequestBinding<T>`: its `T` is the type argument of its field. */
  datatype RequestBinding = RequestBinding(owner: Owner, field: ObservableField)

  /** The action `() => Unsubscribe(key, field)` that `AddRequest` registers
      with the owner's auto-unsubscribe proxy. */
  datatype RequestRelease = UnsubscribeRelease(key: string, field: ObservableField)

  type Bindings = map<string, seq<RequestBinding>>

  function BindingsOf(b: Bindings, key: string): seq<RequestBinding> {
    if key in b then b[key] else []
  }

  /** The test `SetValue<T>` uses to keep a binding: it is not a
      `RequestBinding<T>` or its owner is alive. */
  function Kept(t: TypeTag, L: Liveness): RequestBinding -> bool {
    (b: RequestBinding) => b.field.tag != t || L.Alive(b.owner)
  }

  function OtherField(field: ObservableField): RequestBinding -> bool {
    (b: RequestBinding) => b.field != field
  }

  /** The fields of type `t` bound in `s`: those `SetValue<T>` may write. */
  ghost function FieldsOfType(s: seq<RequestBinding>, t: TypeTag): set<ObservableField> {
    set i | 0 <= i < |s| && s[i].field.tag == t :: s[i].field
  }

  /** The fields `SetValue<T>` writes: of type `t` and with a live owner. */
  ghost function Targets(s: seq<RequestBinding>, t: TypeTag, L: Liveness): set<ObservableField> {
    set i | 0 <= i < |s| && s[i].field.tag == t && L.Alive(s[i].owner) :: s[i].field
  }

  /** The binding at `i` extends the targets of the prefix by its field
      exactly when it is a live binding of type `t`. */
  lemma TargetsStep(s: seq<RequestBinding>, i: nat, t: TypeTag, L: Liveness)
    requires i < |s|
    ensures Targets(s[..i + 1], t, L)
      == Targets(s[..i], t, L) + (if s[i].field.tag == t && L.Alive(s[i].owner) then {s[i].field} else {})
    ensures Targets(s[..i + 1], t, L) <= FieldsOfType(s, t)
  {
    var a := Targets(s[..i + 1], t, L);
    var b := Targets(s[..i], t, L) + (if s[i].field.tag == t && L.Alive(s[i].owner) then {s[i].field} else {});
    forall f | f in a ensures f in b {
      var j :| 0 <= j < i + 1 && s[..i + 1][j].field.tag == t && L.Alive(s[..i + 1][j].owner) && s[..i + 1][j].field == f;
      if j < i {
        assert s[..i][j] == s[j];
      }
    }
    forall f | f in b ensures f in a {
      if f in Targets(s[..i], t, L) {
        var j :| 0 <= j < i && s[..i][j].field.tag == t && L.Alive(s[..i][j].owner) && s[..i][j].field == f;
        assert s[..i + 1][j] == s[j];
      } else {
        assert s[..i + 1][i] == s[i];
      }
    }
    forall f | f in a ensures f in FieldsOfType(s, t) {
      var j :| 0 <= j < i + 1 && s[..i + 1][j].field.tag == t && L.Alive(s[..i + 1][j].owner) && s[..i + 1][j].field == f;
      assert s[j].field == f;
    }
  }

  /** One step of `SetValue<T>`'s first loop, on the bindings so far. */
  lemma PushStep(s: seq<RequestBinding>, i: nat, t: TypeTag, L: Liveness)
    requires i < |s|
    ensures Reject(s[..i + 1], Kept(t, L))
      == Reject(s[..i], Kept(t, L)) + (if s[i].field.tag != t || L.Alive(s[i].owner) then [] else [s[i]])
    ensures Targets(s[..i + 1], t, L)
      == Targets(s[..i], t, L) + (if s[i].field.tag == t && L.Alive(s[i].owner) then {s[i].field} else {})
    ensures s[i].field.tag == t ==> s[i].field in FieldsOfType(s, t)
  {
    TargetsStep(s, i, t, L);
    assert s[..i + 1] == s[..i] + [s[i]];
    RejectAppend(s[..i], [s[i]], Kept(t, L));
  }

  /** The field state after `SetValue` wrote `v` into `f`, compared with the state before. */
  twostate predicate Written(f: ObservableField, v: Value)
    reads f
  {
    && f.value == v
    && f.fired == old(f.fired) + Fired(old(f.value), v, f.typedHandlers, f.changeHandlers)
  }

  class RequestManager {
    /** `_values`. */
    var values: map<string, Value>
    /** `_bindings`. */
    var bindings: Bindings
    /** `_persistentKeys`: the keys whose values survive a scene load. */
    var persistentKeys: set<string>

    constructor ()
      ensures values == map[] && bindings == map[] && persistentKeys == {}
    {
      values := map[];
      bindings := map[];
      persistentKeys := {};
    }

    /** The `Application.quitting` handler: all three collections are emptied. */
    method OnApplicationQuit()
      modifies this
      ensures values == map[] && bindings == map[] && persistentKeys == {}
    {
      values := map[];
      bindings := map[];
      persistentKeys := {};
    }

    /** The `sceneLoaded` handler: every subscription is dropped and only the
        values of persistent keys are kept. */
    method OnSceneLoaded()
      modifies this
      ensures values == map k | k in old(values) && k in persistentKeys :: old(values)[k]
      ensures bindings == map[]
      ensures persistentKeys == old(persistentKeys)
    {
      var tempValues: map<string, Value> := map[];
      var pending := persistentKeys;
      while pending != {}
        invariant pending <= persistentKeys
        invariant tempValues == map k | k in values && k in persistentKeys - pending :: values[k]
        decreases pending
      {
        var key :| key in pending;
        if key in values {
          tempValues := tempValues[key := values[key]];
        }
        pending := pending - {key};
      }
      values := map[];
      bindings := map[];
      var restore := tempValues.Keys;
      while restore != {}
        invariant restore <= tempValues.Keys
        invariant bindings == map[] && persistentKeys == old(persistentKeys)
        invariant values == map k | k in tempValues.Keys - restore :: tempValues[k]
        decreases restore
      {
        var key :| key in restore;
        values := values[key := tempValues[key]];
        restore := restore - {key};
      }
    }

    /** `SetValue<T>(key, value)`: stores the value, writes it into every
        field of type `T` bound to the key whose owner is alive, then removes
        the bindings of type `T` whose owner is dead. */
    method SetValue(key: string, t: TypeTag, v: Value, L: Liveness)
      requires Conforms(v, t)
      modifies this, FieldsOfType(BindingsOf(bindings, key), t)
      ensures values == old(values)[key := v]
      ensures persistentKeys == old(persistentKeys)
      ensures bindings == if key in old(bindings)
        then old(bindings)[key := Filter(old(bindings)[key], Kept(t, L))]
        else old(bindings)
      ensures Pushed(BindingsOf(old(bindings), key), t, v, L)
    {
      values := values[key := v];
      if key !in bindings {
        return;
      }
      var list := bindings[key];
      var toRemove := PushToFields(list, t, v, L);
      var remaining := RemoveRejected(list, toRemove, Kept(t, L));
      bindings := bindings[key := remaining];
    }

    /** `TempSetValue<T>(key, value)`: marks the key persistent, then `SetValue<T>`. */
    method TempSetValue(key: string, t: TypeTag, v: Value, L: Liveness)
      requires Conforms(v, t)
      modifies this, FieldsOfType(BindingsOf(bindings, key), t)
      ensures values == old(values)[key := v]
      ensures persistentKeys == old(persistentKeys) + {key}
      ensures bindings == if key in old(bindings)
        then old(bindings)[key := Filter(old(bindings)[key], Kept(t, L))]
        else old(bindings)
      ensures Pushed(BindingsOf(old(bindings), key), t, v, L)
    {
      persistentKeys := persistentKeys + {key};
      SetValue(key, t, v, L);
    }

    /** `ClearValue(key)`: forgets the value and its persistence; the
        subscriptions stay. */
    method ClearValue(key: string)
      modifies this
      ensures values == old(values) - {key}
      ensures persistentKeys == old(persistentKeys) - {key}
      ensures bindings == old(bindings)
    {
      persistentKeys := persistentKeys - {key};
      values := values - {key};
    }

    /** `TryGetValue<T>(key, out value)`: succeeds exactly when a value is
        stored under the key and is a `T` (a stored null is not); on failure
        the out value is `default(T)`. */
    method TryGetValue(key: string, t: TypeTag) returns (found: bool, value: Value)
      ensures found <==> key in values && Is(values[key], t)
      ensures found ==> value == values[key]
      ensures !found ==> value == Default(t)
      ensures Conforms(value, t)
    {
      if key in values && Is(values[key], t) {
        return true, values[key];
      }
      return false, Default(t);
    }

    /** `AddRequest<T>(key, owner, field)`: appends the binding, creating the
        list when absent. The owner test `owner is { } go` is a plain null
        test, so a destroyed owner reaches `go.GetComponent`, which throws a
        `MissingReferenceException` (`threw`): the binding stays, no release
        is registered and the field is not written. Otherwise an owner that
        is not null gets a release action, and a stored value that is a `T`
        is pushed into the field at once. */
    method AddRequest(key: string, owner: Owner, field: ObservableField, L: Liveness)
      returns (release: Option<RequestRelease>, threw: bool)
      modifies this, field
      ensures bindings == old(bindings)[key := BindingsOf(old(bindings), key) + [RequestBinding(owner, field)]]
      ensures values == old(values) && persistentKeys == old(persistentKeys)
      ensures threw <==> owner.GameObject? && !L.Alive(owner)
      ensures release == if owner.NoOwner? || threw then None else Some(UnsubscribeRelease(key, field))
      ensures !threw && key in values && Is(values[key], field.tag) ==> Written(field, values[key])
      ensures threw || !(key in values && Is(values[key], field.tag)) ==>
        field.value == old(field.value) && field.fired == old(field.fired)
      ensures field.typedHandlers == old(field.typedHandlers) && field.changeHandlers == old(field.changeHandlers)
    {
      var list: seq<RequestBinding>;
      if key in bindings {
        list := bindings[key];
      } else {
        list := [];
        bindings := bindings[key := list];
      }
      list := list + [RequestBinding(owner, field)];
      bindings := bindings[key := list];
      threw := false;
      release := None;
      if owner.GameObject? {
        if !L.Alive(owner) {
          threw := true;
          return;
        }
        release := Some(UnsubscribeRelease(key, field));
      }
      if key in values && Is(values[key], field.tag) {
        field.SetValue(values[key]);
      }
    }

    /** `Unsubscribe<T>(key, field)`: removes every binding of the field under
        the key and drops the key once its list is empty. */
    method Unsubscribe(key: string, field: ObservableField)
      modifies this
      ensures bindings == Unbound(old(bindings), key, field)
      ensures values == old(values) && persistentKeys == old(persistentKeys)
    {
      if key !in bindings {
        return;
      }
      var list := Filter(bindings[key], OtherField(field));
      bindings := bindings[key := list];
      if |list| == 0 {
        bindings := bindings - {key};
      }
    }
  }

  /** The bindings after `Unsubscribe(key, field)`. */
  function Unbound(b: Bindings, key: string, field: ObservableField): Bindings {
    if key !in b then b
    else
      var rest := Filter(b[key], OtherField(field));
      if rest == [] then b - {key} else b[key := rest]
  }

  /** A write of `v` into the `targets` among `fields`: the targets hold
      `v` and fired as the setter fires, the other fields are untouched, and
      no field's callbacks change. */
  twostate predicate PushedInto(fields: set<ObservableField>, targets: set<ObservableField>, v: Value)
    reads fields
  {
    && (forall f :: f in targets && f in fields ==> Written(f, v))
    && (forall f :: f in fields && f !in targets ==> f.value == old(f.value) && f.fired == old(f.fired))
    && (forall f :: f in fields ==>
          f.typedHandlers == old(f.typedHandlers) && f.changeHandlers == old(f.changeHandlers))
  }

  /** What `SetValue<T>` does to the fields bound in `s`. */
  twostate predicate Pushed(s: seq<RequestBinding>, t: TypeTag, v: Value, L: Liveness)
    reads FieldsOfType(s, t)
  {
    PushedInto(FieldsOfType(s, t), Targets(s, t, L), v)
  }

  /** `PushedInto`, measured against a snapshot `before` rather than the
      method's entry state. */
  ghost predicate PushedSince(fields: set<ObservableField>, targets: set<ObservableField>, v: Value,
                              before: map<ObservableField, FieldState>)
    reads fields
  {
    && fields <= before.Keys
    && (forall f :: f in targets && f in fields ==>
          f.value == v && f.fired == before[f].fired + Fired(before[f].value, v, f.typedHandlers, f.changeHandlers))
    && (forall f :: f in fields && f !in targets ==> f.value == before[f].value && f.fired == before[f].fired)
    && (forall f :: f in fields ==> f.typedHandlers == before[f].typed && f.changeHandlers == before[f].changes)
  }

  /** One live binding's write: its field joins the written targets. A field
      bound twice is written twice, and the second write fires nothing. */
  method WriteTarget(f: ObservableField, v: Value, ghost fields: set<ObservableField>,
                     ghost targets: set<ObservableField>, ghost before: map<ObservableField, FieldState>)
    requires f in fields && Conforms(v, f.tag) && PushedSince(fields, targets, v, before)
    modifies f
    ensures PushedSince(fields, targets + {f}, v, before)
  {
    f.SetValue(v);
  }

  /** The first loop of `SetValue<T>`: skips bindings of another type, collects
      the dead bindings of type `T` and writes `v` into the live ones. */
  method PushToFields(list: seq<RequestBinding>, t: TypeTag, v: Value, L: Liveness)
    returns (toRemove: seq<RequestBinding>)
    requires Conforms(v, t)
    modifies FieldsOfType(list, t)
    ensures toRemove == Reject(list, Kept(t, L))
    ensures Pushed(list, t, v, L)
  {
    ghost var fields := FieldsOfType(list, t);
    ghost var before := States(fields);
    toRemove := [];
    for i := 0 to |list|
      invariant toRemove == Reject(list[..i], Kept(t, L))
      invariant PushedSince(fields, Targets(list[..i], t, L), v, before)
    {
      PushStep(list, i, t, L);
      var binding := list[i];
      if binding.field.tag != t {
        continue;
      }
      if !L.Alive(binding.owner) {
        toRemove := toRemove + [binding];
        continue;
      }
      WriteTarget(binding.field, v, fields, Targets(list[..i], t, L), before);
    }
    assert list[..|list|] == list;
  }

  function OfType(u: TypeTag): RequestBinding -> bool {
    (b: RequestBinding) => b.field.tag == u
  }

  /** The pruning of `SetValue<T>` only removes bindings of type `T`: the
      bindings of any other type stay, all of them and in order. */
  lemma {:induction false} PruneKeepsOtherTypes(s: seq<RequestBinding>, t: TypeTag, u: TypeTag, L: Liveness)
    requires u != t
    ensures Filter(Filter(s, Kept(t, L)), OfType(u)) == Filter(s, OfType(u))
  {
    if s != [] {
      PruneKeepsOtherTypes(s[1..], t, u, L);
      var rest := Filter(s[1..], Kept(t, L));
      if Kept(t, L)(s[0]) {
        var f := Filter(s, Kept(t, L));
        assert f == [s[0]] + rest;
        assert f[0] == s[0] && f[1..] == rest;
      } else {
        assert Filter(s, Kept(t, L)) == rest;
        assert !OfType(u)(s[0]);
      }
    }
  }

  /** The pruning of `SetValue<T>` removes exactly the dead bindings of type
      `T`: a binding stays if and only if it is of another type or alive. */
  lemma PruneExact(s: seq<RequestBinding>, t: TypeTag, L: Liveness, b: RequestBinding)
    requires b in s
    ensures b in Filter(s, Kept(t, L)) <==> b.field.tag != t || L.Alive(b.owner)
  {
    var r := Filter(s, Kept(t, L));
    if b in r {
      var k :| 0 <= k < |r| && r[k] == b;
    }
  }

  /** A second `SetValue<T>` with the same liveness prunes nothing more. */
  lemma SecondSetValuePrunesNothing(s: seq<RequestBinding>, t: TypeTag, L: Liveness)
    ensures Filter(Filter(s, Kept(t, L)), Kept(t, L)) == Filter(s, Kept(t, L))
  {
    FilterIdempotent(s, Kept(t, L));
  }

  /** After `Unsubscribe(key, field)` no binding of that field is left under
      the key, the other bindings there are kept and no list is left empty. */
  lemma UnboundRemovesField(b: Bindings, key: string, field: ObservableField)
    ensures key in Unbound(b, key, field) ==> Unbound(b, key, field)[key] != []
    ensures forall i :: 0 <= i < |BindingsOf(Unbound(b, key, field), key)| ==>
      BindingsOf(Unbound(b, key, field), key)[i].field != field
    ensures forall i :: 0 <= i < |BindingsOf(b, key)| && BindingsOf(b, key)[i].field != field ==>
      BindingsOf(b, key)[i] in BindingsOf(Unbound(b, key, field), key)
    ensures forall k :: k != key ==> (k in b <==> k in Unbound(b, key, field))
    ensures forall k :: k != key && k in b ==> Unbound(b, key, field)[k] == b[k]
  {
  }

  /** `Unsubscribe` is idempotent. */
  lemma UnsubscribeIdempotent(b: Bindings, key: string, field: ObservableField)
    ensures Unbound(Unbound(b, key, field), key, field) == Unbound(b, key, field)
  {
    if key in b {
      FilterIdempotent(b[key], OtherField(field));
    }
  }

  /** Subscribing a field and then running its release action leaves the
      bindings as releasing it without the subscription would. */
  lemma AddThenUnsubscribe(b: Bindings, key: string, owner: Owner, field: ObservableField)
    ensures Unbound(b[key := BindingsOf(b, key) + [RequestBinding(owner, field)]], key, field)
         == Unbound(b, key, field)
  {
    var x := RequestBinding(owner, field);
    var b' := b[key := BindingsOf(b, key) + [x]];
    FilterAppend(BindingsOf(b, key), [x], OtherField(field));
    assert Filter([x], OtherField(field)) == [];
    assert Filter(b'[key], OtherField(field)) == Filter(BindingsOf(b, key), OtherField(field));
    if key !in b {
      assert Filter(b'[key], OtherField(field)) == [];
      assert b' - {key} == b;
    } else {
      assert b'[key := Filter(b[key], OtherField(field))] == b[key := Filter(b[key], OtherField(field))];
      assert b' - {key} == b - {key};
    }
  }

  /** A value stored with `TempSetValue` survives a scene load and is read
      back by `TryGetValue` of the same type (a null reads back as absent),
      while every subscription is gone. */
  method TempValueSurvivesSceneLoad(m: RequestManager, key: string, t: TypeTag, v: Value, L: Liveness)
    returns (found: bool, value: Value)
    requires Conforms(v, t)
    modifies m, FieldsOfType(BindingsOf(m.bindings, key), t)
    ensures found <==> v.Boxed?
    ensures found ==> value == v
    ensures m.bindings == map[]
  {
    m.TempSetValue(key, t, v, L);
    m.OnSceneLoaded();
    assert key in m.values;
    found, value := m.TryGetValue(key, t);
  }

  /** A value stored with plain `SetValue` under a key that is not persistent
      is gone after a scene load. */
  method PlainValueLostOnSceneLoad(m: RequestManager, key: string, t: TypeTag, v: Value, L: Liveness)
    returns (found: bool, value: Value)
    requires Conforms(v, t)
    requires key !in m.persistentKeys
    modifies m, FieldsOfType(BindingsOf(m.bindings, key), t)
    ensures !found && value == Default(t)
  {
    m.SetValue(key, t, v, L);
    m.OnSceneLoaded();
    found, value := m.TryGetValue(key, t);
  }

  /** After `ClearValue` the key reads back as absent, and a scene load does
      not bring it back. */
  method ClearedValueGone(m: RequestManager, key: string, t: TypeTag)
    returns (found: bool, value: Value)
    modifies m
    ensures !found && value == Default(t)
  {
    m.ClearValue(key);
    m.OnSceneLoaded();
    found, value := m.TryGetValue(key, t);
  }
}
