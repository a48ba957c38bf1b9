/** Shared vocabulary of the messaging layer: optional values, C#-style boxed
    values with their runtime type, and the liveness of Unity game objects. */
module Values {

  datatype Option<T> = None | Some(value: T)

  datatype Result<T, E> = Ok(value: T) | Err(error: E)

  /** A runtime type as the C# `is`/`as` operators see it: `object` itself,
      a reference type, or a value type (which can never be null). */
  datatype TypeTag = ObjectType | RefType(id: nat) | ValueType(id: nat)

  /** A value held in an `object` slot: C# null, or a (boxed) object together
      with its runtime type. `data` is the object's identity or contents. */
  datatype Value = Null | Boxed(tag: TypeTag, data: int)

  /** `v is T`: null never passes the test, `object` accepts every object,
      and otherwise the runtime type must be `T` itself. */
  predicate Is(v: Value, t: TypeTag) {
    v.Boxed? && (t == ObjectType || v.tag == t)
  }

  /** `v` may be stored in a variable of static type `t`. */
  predicate Conforms(v: Value, t: TypeTag) {
    if v.Null? then !t.ValueType? else Is(v, t)
  }

  /** `default(T)`: null for reference types, the zero value for value types. */
  function Default(t: TypeTag): (r: Value)
    ensures Conforms(r, t)
    ensures r.Null? <==> !t.ValueType?
  {
    if t.ValueType? then Boxed(t, 0) else Null
  }

  /** A `GameObject` reference as a binding stores it; it may be null. */
  datatype Owner = NoOwner | GameObject(id: nat)

  /** The host's view of which game objects still exist (not destroyed)
      and which are active in the hierarchy. */
  datatype Liveness = Liveness(alive: set<nat>, active: set<nat>) {

    /** Unity's implicit bool conversion `(bool)owner`: not null and not destroyed. */
    predicate Alive(o: Owner) {
      o.GameObject? && o.id in alive
    }

    /** `EventManager.IsValid`: alive and active in the hierarchy; a null,
        destroyed or inactive owner is not valid. */
    predicate IsValid(o: Owner) {
      Alive(o) && o.id in active
    }
  }
}
