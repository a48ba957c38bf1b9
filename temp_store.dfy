/** `TempManager`: a key-value store of boxed values with a per-key update
    handler map. Nothing in the store ever adds a handler. */
module TempStore {
  import opened Values
  import opened Observable

  /** The exceptions `(T)value` can throw. */
  datatype CastError = InvalidCast | NullReference

  /** What `RemoveValue` reports: `Debug.Log` when a value was deleted,
      `Debug.LogWarning` when none was found. */
  datatype RemoveOutcome = Deleted | NotFound

  /** The unboxing or reference cast `(T)value` on a stored object. */
  function Cast(v: Value, t: TypeTag): (r: Result<Value, CastError>)
    ensures r.Ok? <==> Conforms(v, t)
    ensures r.Ok? ==> r.value == v
    ensures r.Err? ==> (r.error == NullReference <==> v.Null?)
  {
    if Conforms(v, t) then Ok(v)
    else if v.Null? then Err(NullReference)
    else Err(InvalidCast)
  }

  class TempManager {
    /** `Values`. */
    var values: map<string, Value>
    /** `UpdateHandlers`: the invocation list of each key's `Action<object>`. */
    var updateHandlers: map<string, seq<Handler>>
    /** Every handler call so far, in order. */
    var fired: seq<Notification>

    /** The only state the store can reach: no handler was ever added. */
    ghost predicate NoHandlers()
      reads this
    {
      updateHandlers == map[]
    }

    constructor ()
      ensures NoHandlers()
      ensures values == map[] && fired == []
    {
      values := map[];
      updateHandlers := map[];
      fired := [];
    }

    /** The `Application.quitting` handler: both maps are emptied. */
    method OnApplicationQuit()
      modifies this
      ensures NoHandlers()
      ensures values == map[] && fired == old(fired)
    {
      values := map[];
      updateHandlers := map[];
    }

    /** `SetValue<T>(requestName, value)`: stores the value, then calls the
        key's handler, if any, with it. */
    method SetValue(requestName: string, t: TypeTag, v: Value)
      requires Conforms(v, t)
      modifies this
      ensures values == old(values)[requestName := v]
      ensures updateHandlers == old(updateHandlers)
      ensures requestName in updateHandlers ==> fired == old(fired) + Notify(updateHandlers[requestName], v)
      ensures requestName !in updateHandlers ==> fired == old(fired)
      ensures old(NoHandlers()) ==> NoHandlers() && fired == old(fired)
    {
      values := values[requestName := v];
      if requestName in updateHandlers {
        var handler := updateHandlers[requestName];
        fired := fired + Notify(handler, v);
      }
    }

    /** `GetValue<T>(requestName)`: the cast stored value, or `default(T)`
        when the key is absent. */
    method GetValue(requestName: string, t: TypeTag) returns (r: Result<Value, CastError>)
      ensures requestName !in values ==> r == Ok(Default(t))
      ensures requestName in values ==> r == Cast(values[requestName], t)
      ensures r.Ok? ==> Conforms(r.value, t)
    {
      if requestName in values {
        return Cast(values[requestName], t);
      }
      return Ok(Default(t));
    }

    /** `RemoveValue(requestName)`: removes the value and the handler of the
        key; the report says whether a value was there. */
    method RemoveValue(requestName: string) returns (outcome: RemoveOutcome)
      modifies this
      ensures values == old(values) - {requestName}
      ensures updateHandlers == old(updateHandlers) - {requestName}
      ensures outcome == Deleted <==> requestName in old(values)
      ensures fired == old(fired)
      ensures old(NoHandlers()) ==> NoHandlers()
    {
      if requestName in values {
        values := values - {requestName};
        outcome := Deleted;
      } else {
        outcome := NotFound;
      }
      updateHandlers := updateHandlers - {requestName};
    }
  }

  /** A value stored with `SetValue` reads back through `GetValue` of the
      same type, and a null stored for a reference type reads back as null. */
  method SetThenGet(m: TempManager, requestName: string, t: TypeTag, v: Value)
    returns (r: Result<Value, CastError>)
    requires Conforms(v, t)
    modifies m
    ensures r == Ok(v)
  {
    m.SetValue(requestName, t, v);
    r := m.GetValue(requestName, t);
  }

  /** A stored null read back as a value type throws, and a boxed value read
      back as another type throws an invalid cast. */
  lemma CastFailures(v: Value, t: TypeTag)
    ensures v.Null? && t.ValueType? ==> Cast(v, t) == Err(NullReference)
    ensures v.Boxed? && t != ObjectType && v.tag != t ==> Cast(v, t) == Err(InvalidCast)
  {
  }
}
