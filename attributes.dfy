/** The `[Event]`, `[Request]` and `[TempRequest]` attributes. The three
    classes have the same three constructors and the same two name getters;
    they differ only in their target (methods or fields) and in whether the
    name property is called `EventName` or `RequestName`, so one datatype with
    a kind tag stands for all three. */
module Attributes {
  import opened Values

  datatype AttributeKind = Event | Request | TempRequest

  /** The read-only properties `ObjectID`, `ObjectName` (null unless set) and
      `EventName`/`RequestName`. */
  datatype NameAttribute = NameAttribute(
    kind: AttributeKind,
    objectId: bool,
    objectName: Option<string>,
    name: string)

  /** `new XAttribute(eventName)`: only the name is set, so both getters
      give the bare name. */
  function ByName(kind: AttributeKind, eventName: string): (r: NameAttribute)
    ensures r.kind == kind
    ensures GetEventName(r) == eventName
    ensures forall id :: GetEventNameByID(r, id) == eventName
  {
    NameAttribute(kind, false, None, eventName)
  }

  /** `new XAttribute(objectName, eventName)`: `ObjectID` stays false, so
      `GetEventNameByID` ignores its argument, and `GetEventName` scopes the
      name by a non-empty object name. */
  function ByObjectName(kind: AttributeKind, objectName: Option<string>, eventName: string): (r: NameAttribute)
    ensures r.kind == kind
    ensures forall id :: GetEventNameByID(r, id) == eventName
    ensures GetEventName(r) == if IsNullOrEmpty(objectName) then eventName else Qualify(objectName.value, eventName)
  {
    NameAttribute(kind, false, objectName, eventName)
  }

  /** `new XAttribute(getID, eventName)`: `ObjectName` stays null, so
      `GetEventName` gives the bare name whatever `getID` is, and
      `GetEventNameByID` scopes the name by the id exactly when `getID`. */
  function ById(kind: AttributeKind, getId: bool, eventName: string): (r: NameAttribute)
    ensures r.kind == kind
    ensures GetEventName(r) == eventName
    ensures forall id :: GetEventNameByID(r, id) == if getId then Qualify(id, eventName) else eventName
  {
    NameAttribute(kind, getId, None, eventName)
  }

  /** `string.IsNullOrEmpty`. */
  predicate IsNullOrEmpty(s: Option<string>) {
    s.None? || s.value == ""
  }

  /** `a + "." + b`, the interpolation `$"{a}.{b}"`. */
  function Qualify(prefix: string, name: string): (r: string)
    ensures |r| == |prefix| + 1 + |name|
    ensures r[..|prefix|] == prefix && r[|prefix|] == '.' && r[|prefix| + 1..] == name
  {
    prefix + "." + name
  }

  /** `GetEventNameByID(id)`: the bare name unless `ObjectID` is set, and then
      the name scoped by the given instance id. */
  function GetEventNameByID(a: NameAttribute, id: string): (r: string)
    ensures !a.objectId ==> r == a.name
    ensures a.objectId ==> |r| == |id| + 1 + |a.name| && r[..|id|] == id && r[|id|] == '.' && r[|id| + 1..] == a.name
  {
    if !a.objectId then a.name else Qualify(id, a.name)
  }

  /** `GetEventName()`: the bare name when `ObjectName` is null or empty, and
      otherwise the name scoped by the object name. */
  function GetEventName(a: NameAttribute): (r: string)
    ensures IsNullOrEmpty(a.objectName) ==> r == a.name
    ensures !IsNullOrEmpty(a.objectName) ==>
      var o := a.objectName.value;
      |r| == |o| + 1 + |a.name| && r[..|o|] == o && r[|o|] == '.' && r[|o| + 1..] == a.name
  {
    if IsNullOrEmpty(a.objectName) then a.name else Qualify(a.objectName.value, a.name)
  }

  /** Instance-scoped names are private channels: with instance ids that
      contain no dot, two different instances never resolve an `ObjectID`
      attribute to the same name, and the name is recoverable from the result. */
  lemma InstanceChannelsDistinct(a: NameAttribute, b: NameAttribute, id1: string, id2: string)
    requires a.objectId && b.objectId
    requires '.' !in id1 && '.' !in id2
    requires GetEventNameByID(a, id1) == GetEventNameByID(b, id2)
    ensures id1 == id2 && a.name == b.name
  {
  }
}
