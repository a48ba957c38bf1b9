/** `ObservableField<T>`: a value cell whose setter ignores equal writes and
    otherwise fires its typed callback and then its untyped `OnValueChanged`
    event. Callbacks are opaque: firing one records a notification. */
module Observable {
  import opened Values

  /** A delegate in an invocation list. `StorePush` is the lambda
      `value => RequestManager.SetValue(requestName, value)` that the attribute
      binder attaches; each evaluation of that lambda is a new closure, told
      apart by the binder component that made it, the pass that made it and
      the index of the field it was made for. */
  datatype Handler =
    | External(id: nat)
    | StorePush(origin: nat, pass: nat, field: nat, key: string)

  datatype Notification = Notified(handler: Handler, value: Value)

  /** `handlers?.Invoke(v)`: every delegate of the invocation list, in order. */
  function Notify(handlers: seq<Handler>, v: Value): (r: seq<Notification>)
    ensures |r| == |handlers|
    ensures forall i :: 0 <= i < |r| ==> r[i] == Notified(handlers[i], v)
  {
    if handlers == [] then [] else [Notified(handlers[0], v)] + Notify(handlers[1..], v)
  }

  /** What writing `v` over `current` fires. */
  function Fired(current: Value, v: Value, typed: seq<Handler>, untyped: seq<Handler>): seq<Notification> {
    if current == v then [] else Notify(typed, v) + Notify(untyped, v)
  }

  /** An equal write fires nothing; a genuine change fires each typed
      callback and then each `OnValueChanged` handler exactly once, in
      invocation-list order, with the new value. */
  lemma FiredContents(current: Value, v: Value, typed: seq<Handler>, untyped: seq<Handler>)
    ensures current == v ==> Fired(current, v, typed, untyped) == []
    ensures current != v ==> |Fired(current, v, typed, untyped)| == |typed| + |untyped|
    ensures current != v ==> forall i :: 0 <= i < |typed| ==>
      Fired(current, v, typed, untyped)[i] == Notified(typed[i], v)
    ensures current != v ==> forall i :: 0 <= i < |untyped| ==>
      Fired(current, v, typed, untyped)[|typed| + i] == Notified(untyped[i], v)
  {
    if current != v {
      var a, b := Notify(typed, v), Notify(untyped, v);
      assert Fired(current, v, typed, untyped) == a + b;
      assert forall i :: 0 <= i < |untyped| ==> (a + b)[|typed| + i] == b[i];
    }
  }

  /** Where `h` last occurs in `s`, or -1. */
  function LastIndex(s: seq<Handler>, h: Handler): (k: int)
    ensures -1 <= k < |s|
    ensures k == -1 <==> h !in s
    ensures 0 <= k ==> s[k] == h
    ensures forall j :: k < j < |s| ==> s[j] != h
  {
    if s == [] then -1
    else if s[|s| - 1] == h then |s| - 1
    else LastIndex(s[..|s| - 1], h)
  }

  /** `event -= h`: the last occurrence of `h` leaves the invocation list. */
  function RemoveLast(s: seq<Handler>, h: Handler): (r: seq<Handler>)
    ensures h !in s ==> r == s
    ensures h in s ==> |r| == |s| - 1
    ensures h in s ==> exists k :: 0 <= k < |s| && s[k] == h && h !in s[k + 1..] && r == s[..k] + s[k + 1..]
    ensures multiset(r) == multiset(s) - multiset{h}
  {
    if h in s then
      var k := LastIndex(s, h);
      assert s == s[..k] + [h] + s[k + 1..];
      assert h !in s[k + 1..];
      s[..k] + s[k + 1..]
    else
      s
  }

  /** A field object's observable state at one moment. */
  datatype FieldState = FieldState(value: Value, fired: seq<Notification>, typed: seq<Handler>, changes: seq<Handler>)

  /** The state of each field object of `fs` now. */
  ghost function States(fs: set<ObservableField>): (before: map<ObservableField, FieldState>)
    reads fs
    ensures before.Keys == fs
    ensures forall f :: f in fs ==> before[f] == FieldState(f.value, f.fired, f.typedHandlers, f.changeHandlers)
  {
    map f | f in fs :: FieldState(f.value, f.fired, f.typedHandlers, f.changeHandlers)
  }

  class ObservableField {
    /** The type argument `T`. */
    const tag: TypeTag
    var value: Value
    /** `OnTypedValueChanged`, a public `Action<T>` field. */
    var typedHandlers: seq<Handler>
    /** The `OnValueChanged` event. */
    var changeHandlers: seq<Handler>
    /** Every notification fired so far. */
    var fired: seq<Notification>

    /** The stored value is a `T`. */
    ghost predicate Valid()
      reads this
    {
      Conforms(value, tag)
    }

    /** `new ObservableField<T>(initialValue)`: stores the value and fires nothing. */
    constructor (t: TypeTag, initialValue: Value)
      requires Conforms(initialValue, t)
      ensures Valid()
      ensures tag == t && value == initialValue
      ensures typedHandlers == [] && changeHandlers == [] && fired == []
    {
      tag := t;
      value := initialValue;
      typedHandlers := [];
      changeHandlers := [];
      fired := [];
    }

    /** The `Value` setter. */
    method SetValue(v: Value)
      requires Conforms(v, tag)
      modifies this
      ensures Valid()
      ensures value == v
      ensures fired == old(fired) + Fired(old(value), v, typedHandlers, changeHandlers)
      ensures typedHandlers == old(typedHandlers) && changeHandlers == old(changeHandlers)
    {
      if value == v {
        return;
      }
      ghost var before := fired;
      value := v;
      var typed := Notify(typedHandlers, value);
      var untyped := Notify(changeHandlers, value);
      fired := fired + typed;
      fired := fired + untyped;
      assert fired == before + (typed + untyped);
    }

    /** `IObservableField.GetValue`: the stored value, boxed. */
    method GetValue() returns (r: Value)
      ensures Valid() ==> Conforms(r, tag)
      ensures r == value
    {
      r := value;
    }

    /** `IObservableField.SetValue`: a value that is not a `T` is ignored;
        a `T` goes through the `Value` setter. */
    method SetObject(v: Value)
      modifies this
      ensures old(Valid()) ==> Valid()
      ensures Is(v, tag) ==> value == v
      ensures Is(v, tag) ==> fired == old(fired) + Fired(old(value), v, typedHandlers, changeHandlers)
      ensures !Is(v, tag) ==> value == old(value) && fired == old(fired)
      ensures typedHandlers == old(typedHandlers) && changeHandlers == old(changeHandlers)
    {
      if Is(v, tag) {
        SetValue(v);
      }
    }

    /** `OnValueChanged += h`. */
    method AddChangeHandler(h: Handler)
      modifies this
      ensures changeHandlers == old(changeHandlers) + [h]
      ensures value == old(value) && typedHandlers == old(typedHandlers) && fired == old(fired)
    {
      changeHandlers := changeHandlers + [h];
    }

    /** `OnValueChanged -= h`. */
    method RemoveChangeHandler(h: Handler)
      modifies this
      ensures changeHandlers == RemoveLast(old(changeHandlers), h)
      ensures value == old(value) && typedHandlers == old(typedHandlers) && fired == old(fired)
    {
      changeHandlers := RemoveLast(changeHandlers, h);
    }
  }

  /** Writing the same value twice in a row fires callbacks at most once:
      the second write finds the value already in place. */
  lemma SecondWriteSilent(current: Value, v: Value, typed: seq<Handler>, untyped: seq<Handler>)
    ensures Fired(current, v, typed, untyped) + Fired(v, v, typed, untyped)
         == Fired(current, v, typed, untyped)
  {
  }

  /** Two writes in a row through the `Value` setter. */
  method SetTwice(f: ObservableField, v: Value)
    requires Conforms(v, f.tag)
    modifies f
    ensures f.value == v
    ensures f.fired == old(f.fired) + Fired(old(f.value), v, f.typedHandlers, f.changeHandlers)
  {
    f.SetValue(v);
    f.SetValue(v);
  }
}
